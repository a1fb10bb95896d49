/** Pass and fail rules of a test set (internal/setrunner/threshold.go) and the aggregate over its items
    (internal/setrunner/runner.go). Measurements are reals. */
module Thresholds {
  import opened Orders

  datatype Snapshot = Snapshot(p50: real, p95: real, p99: real, errorRate: real, rps: real, totalErrors: real)

  /** What the strings of a threshold stand for. The operator and metric names are those of the
      configuration; any other string is unknown. */
  datatype Metric = P50 | P95 | P99 | ErrorRate | RPS | TotalErrors | UnknownMetric

  datatype Op = Lt | Le | Gt | Ge | Eq | UnknownOp

  datatype Scope = Aggregate | PerItem | Item(name: string)

  datatype Threshold = Threshold(metric: string, op: string, value: real, scope: string)

  function MetricOf(metric: string): Metric
  {
    if metric == "p50" then P50
    else if metric == "p95" then P95
    else if metric == "p99" then P99
    else if metric == "error_rate" then ErrorRate
    else if metric == "rps" then RPS
    else if metric == "total_errors" then TotalErrors
    else UnknownMetric
  }

  function OpOf(op: string): Op
  {
    if op == "lt" then Lt
    else if op == "le" then Le
    else if op == "gt" then Gt
    else if op == "ge" then Ge
    else if op == "eq" then Eq
    else UnknownOp
  }

  /** So an item called `aggregate` or `per_item` cannot be named by a scope. */
  function ScopeOf(scope: string): Scope
  {
    if scope == "" || scope == "aggregate" then Aggregate
    else if scope == "per_item" then PerItem
    else Item(scope)
  }

  datatype Verdict = Verdict(threshold: Threshold, actual: real, passed: bool)

  type Snapshots = map<string, Snapshot>

  function MetricValue(snap: Snapshot, metric: Metric): real
    requires metric != UnknownMetric
  {
    match metric
    case P50 => snap.p50
    case P95 => snap.p95
    case P99 => snap.p99
    case ErrorRate => snap.errorRate
    case RPS => snap.rps
    case TotalErrors => snap.totalErrors
  }

  predicate Compare(actual: real, want: real, op: Op)
  {
    match op
    case Lt => actual < want
    case Le => actual <= want
    case Gt => actual > want
    case Ge => actual >= want
    case Eq => actual == want
    case UnknownOp => false
  }

  function EvalOne(t: Threshold, snap: Snapshot): Verdict
  {
    var metric := MetricOf(t.metric);
    if metric == UnknownMetric then
      Verdict(t, 0.0, false)
    else
      Verdict(t, MetricValue(snap, metric), Compare(MetricValue(snap, metric), t.value, OpOf(t.op)))
  }

  // ---------------------------------------------------------------- aggregate

  /** The metrics that are aggregated as the largest value; the others are added up. */
  predicate IsPeak(metric: Metric) { metric in {P50, P95, P99, ErrorRate} }

  /** The largest value, or 0.0 if that is larger. */
  ghost predicate IsHighest(high: real, per: Snapshots, metric: Metric)
    requires IsPeak(metric)
  {
    && (forall name <- per :: MetricValue(per[name], metric) <= high)
    && (high == 0.0 || exists name <- per :: MetricValue(per[name], metric) == high)
    && high >= 0.0
  }

  ghost function Total(per: Snapshots, metric: Metric): real
    requires metric != UnknownMetric
    decreases |per|
  {
    if per == map[] then
      0.0
    else
      var name :| name in per;
      MetricValue(per[name], metric) + Total(per - {name}, metric)
  }

  /** The total does not depend on the order of adding up. */
  lemma {:induction false} TotalSplits(per: Snapshots, name: string, metric: Metric)
    requires metric != UnknownMetric && name in per
    ensures Total(per, metric) == MetricValue(per[name], metric) + Total(per - {name}, metric)
    decreases |per|
  {
    var first :| first in per && Total(per, metric) == MetricValue(per[first], metric) + Total(per - {first}, metric);
    if first != name {
      TotalSplits(per - {first}, name, metric);
      TotalSplits(per - {name}, first, metric);
      assert per - {first} - {name} == per - {name} - {first};
    }
  }

  ghost predicate IsAggregate(agg: Snapshot, per: Snapshots)
  {
    && IsHighest(agg.p50, per, P50) && IsHighest(agg.p95, per, P95) && IsHighest(agg.p99, per, P99)
    && IsHighest(agg.errorRate, per, ErrorRate)
    && agg.rps == Total(per, RPS) && agg.totalErrors == Total(per, TotalErrors)
  }

  /** Folds one more item in; the items come in any order. */
  method AggregateOf(per: Snapshots) returns (agg: Snapshot)
    ensures IsAggregate(agg, per)
  {
    agg := Snapshot(0.0, 0.0, 0.0, 0.0, 0.0, 0.0);
    ghost var seen: Snapshots := map[];
    var names := per.Keys;
    while names != {}
      invariant names <= per.Keys && seen == per - names
      invariant IsAggregate(agg, seen)
      decreases |names|
    {
      var name :| name in names;
      agg := FoldIn(agg, per[name], seen, name);
      seen := seen[name := per[name]];
      names := names - {name};
    }
    assert per - {} == per;
  }

  method FoldIn(soFar: Snapshot, s: Snapshot, ghost seen: Snapshots, ghost name: string) returns (agg: Snapshot)
    requires IsAggregate(soFar, seen) && name !in seen
    ensures IsAggregate(agg, seen[name := s])
  {
    agg := soFar;
    if s.p50 > agg.p50 {
      agg := agg.(p50 := s.p50);
    }
    if s.p95 > agg.p95 {
      agg := agg.(p95 := s.p95);
    }
    if s.p99 > agg.p99 {
      agg := agg.(p99 := s.p99);
    }
    if s.errorRate > agg.errorRate {
      agg := agg.(errorRate := s.errorRate);
    }
    agg := agg.(rps := agg.rps + s.rps, totalErrors := agg.totalErrors + s.totalErrors);
    OneMorePeak(soFar, s, seen, name, P50);
    OneMorePeak(soFar, s, seen, name, P95);
    OneMorePeak(soFar, s, seen, name, P99);
    OneMorePeak(soFar, s, seen, name, ErrorRate);
    OneMoreTotal(s, seen, name, RPS);
    OneMoreTotal(s, seen, name, TotalErrors);
  }

  lemma OneMorePeak(soFar: Snapshot, s: Snapshot, seen: Snapshots, name: string, metric: Metric)
    requires IsPeak(metric) && name !in seen && IsHighest(MetricValue(soFar, metric), seen, metric)
    ensures var high, x := MetricValue(soFar, metric), MetricValue(s, metric);
            IsHighest(if x > high then x else high, seen[name := s], metric)
  {
    var high, x, more := MetricValue(soFar, metric), MetricValue(s, metric), seen[name := s];
    if x > high {
      assert MetricValue(more[name], metric) == x;
    } else if high != 0.0 {
      var other :| other in seen && MetricValue(seen[other], metric) == high;
      assert MetricValue(more[other], metric) == high;
    }
  }

  lemma OneMoreTotal(s: Snapshot, seen: Snapshots, name: string, metric: Metric)
    requires metric != UnknownMetric && name !in seen
    ensures Total(seen[name := s], metric) == Total(seen, metric) + MetricValue(s, metric)
  {
    TotalSplits(seen[name := s], name, metric);
    assert seen[name := s] - {name} == seen;
  }

  // ---------------------------------------------------------------- evaluation

  /** The verdicts on one threshold. With scope per_item there is one for each item, in any order, and
      it carries the item's name as its scope. */
  ghost predicate Block(t: Threshold, agg: Snapshot, per: Snapshots, block: seq<Verdict>)
  {
    match ScopeOf(t.scope)
    case Aggregate => block == [EvalOne(t, agg)]
    case PerItem => exists order: seq<string> :: Ordering(order, per.Keys) && block == VerdictsOn(t, per, order)
    case Item(name) => block == [if name in per then EvalOne(t, per[name]) else Verdict(t, 0.0, false)]
  }

  function VerdictsOn(t: Threshold, per: Snapshots, order: seq<string>): (block: seq<Verdict>)
    ensures |block| == |order|
  {
    seq(|order|, i requires 0 <= i < |order| =>
      if order[i] in per then EvalOne(t.(scope := order[i]), per[order[i]]) else Verdict(t, 0.0, false))
  }

  /** The verdicts are those on each threshold in turn. */
  ghost predicate Evaluated(ths: seq<Threshold>, agg: Snapshot, per: Snapshots, out: seq<Verdict>)
  {
    if ths == [] then
      out == []
    else
      exists k: nat ::
        && k <= |out| && Evaluated(ths[..|ths| - 1], agg, per, out[..k])
        && Block(ths[|ths| - 1], agg, per, out[k..])
  }

  method EvaluateThresholds(ths: seq<Threshold>, agg: Snapshot, per: Snapshots) returns (out: seq<Verdict>)
    ensures Evaluated(ths, agg, per, out)
  {
    out := [];
    for i := 0 to |ths|
      invariant Evaluated(ths[..i], agg, per, out)
    {
      var block := EvaluateInScope(ths[i], agg, per);
      OneMoreBlock(ths[..i], ths[i], agg, per, out, block);
      assert ths[..i + 1] == ths[..i] + [ths[i]];
      out := out + block;
    }
    assert ths[..|ths|] == ths;
  }

  method EvaluateInScope(t: Threshold, agg: Snapshot, per: Snapshots) returns (block: seq<Verdict>)
    ensures Block(t, agg, per, block)
  {
    match ScopeOf(t.scope) {
      case Aggregate => block := [EvalOne(t, agg)];
      case PerItem => block := EvaluatePerItem(t, per);
      case Item(name) => block := if name in per then [EvalOne(t, per[name])] else [Verdict(t, 0.0, false)];
    }
  }

  lemma OneMoreBlock(
    ths: seq<Threshold>, t: Threshold, agg: Snapshot, per: Snapshots, out: seq<Verdict>, block: seq<Verdict>)
    requires Evaluated(ths, agg, per, out) && Block(t, agg, per, block)
    ensures Evaluated(ths + [t], agg, per, out + block)
  {
    var more, all := ths + [t], out + block;
    assert more[..|more| - 1] == ths && all[..|out|] == out && all[|out|..] == block;
  }

  method EvaluatePerItem(t: Threshold, per: Snapshots) returns (block: seq<Verdict>)
    ensures exists order: seq<string> :: Ordering(order, per.Keys) && block == VerdictsOn(t, per, order)
  {
    block := [];
    ghost var order: seq<string> := [];
    var names := per.Keys;
    while names != {}
      invariant names <= per.Keys && Ordering(order, per.Keys - names) && block == VerdictsOn(t, per, order)
      decreases |names|
    {
      var name :| name in names;
      block := block + [EvalOne(t.(scope := name), per[name])];
      order := order + [name];
      names := names - {name};
    }
    assert per.Keys - names == per.Keys;
  }

  method AllPassed(verdicts: seq<Verdict>) returns (all: bool)
    ensures all <==> forall v <- verdicts :: v.passed
  {
    for i := 0 to |verdicts|
      invariant forall j :: 0 <= j < i ==> verdicts[j].passed
    {
      if !verdicts[i].passed {
        return false;
      }
    }
    return true;
  }

  // ---------------------------------------------------------------- what a threshold means

  predicate Passes(t: Threshold, snap: Snapshot)
  {
    EvalOne(t, snap).passed
  }

  const METRICS := ["p50", "p95", "p99", "error_rate", "rps", "total_errors"]

  /** The values of a snapshot, in the order of `METRICS`. */
  function Values(snap: Snapshot): (values: seq<real>)
  {
    [snap.p50, snap.p95, snap.p99, snap.errorRate, snap.rps, snap.totalErrors]
  }

  /** The actual value of a verdict, by the configuration's own metric names. */
  lemma ActualByName(op: string, value: real, scope: string, snap: Snapshot, k: nat)
    requires k < |METRICS|
    ensures EvalOne(Threshold(METRICS[k], op, value, scope), snap).actual == Values(snap)[k]
  {
    assert METRICS[0] == "p50" && METRICS[1] == "p95" && METRICS[2] == "p99";
    assert METRICS[3] == "error_rate" && METRICS[4] == "rps" && METRICS[5] == "total_errors";
  }

  /** When a verdict passes, by the configuration's own operator names: for every value and snapshot, and
      never with a name the configuration does not have. */
  lemma PassesByName(t: Threshold, snap: Snapshot)
    ensures var v := EvalOne(t, snap);
            && v.threshold == t
            && (v.passed <==>
                  && t.metric in METRICS
                  && ((t.op == "lt" && v.actual < t.value) || (t.op == "le" && v.actual <= t.value)
                      || (t.op == "gt" && v.actual > t.value) || (t.op == "ge" && v.actual >= t.value)
                      || (t.op == "eq" && v.actual == t.value)))
  {
    if t.metric in METRICS {
      var k: nat :| k < |METRICS| && METRICS[k] == t.metric;
      ActualByName(t.op, t.value, t.scope, snap, k);
    }
    MetricsByName(t.metric);
  }

  lemma MetricsByName(metric: string)
    ensures metric in METRICS <==> MetricOf(metric) != UnknownMetric
  {
    assert METRICS[0] == "p50" && METRICS[1] == "p95" && METRICS[2] == "p99";
    assert METRICS[3] == "error_rate" && METRICS[4] == "rps" && METRICS[5] == "total_errors";
  }

  /** What a scope names, by its string. */
  lemma SatisfiedByName(t: Threshold, agg: Snapshot, per: Snapshots)
    ensures t.scope in ["", "aggregate"] ==> (Satisfied(t, agg, per) <==> Passes(t, agg))
    ensures t.scope == "per_item" ==> (Satisfied(t, agg, per) <==> forall name <- per :: Passes(t, per[name]))
    ensures t.scope !in ["", "aggregate", "per_item"] ==>
              (Satisfied(t, agg, per) <==> t.scope in per && Passes(t, per[t.scope]))
  {
  }

  /** A named item that did not run fails its threshold. */
  ghost predicate Satisfied(t: Threshold, agg: Snapshot, per: Snapshots)
  {
    match ScopeOf(t.scope)
    case Aggregate => Passes(t, agg)
    case PerItem => forall name <- per :: Passes(t, per[name])
    case Item(name) => name in per && Passes(t, per[name])
  }

  /** All verdicts pass exactly when every threshold is satisfied, in whatever order the items came. */
  lemma {:induction false} AllPassWhenAllAreSatisfied(
    ths: seq<Threshold>, agg: Snapshot, per: Snapshots, out: seq<Verdict>)
    requires Evaluated(ths, agg, per, out)
    ensures (forall v <- out :: v.passed) <==> forall t <- ths :: Satisfied(t, agg, per)
  {
    if ths != [] {
      var n := |ths| - 1;
      var k: nat :| k <= |out| && Evaluated(ths[..n], agg, per, out[..k]) && Block(ths[n], agg, per, out[k..]);
      AllPassWhenAllAreSatisfied(ths[..n], agg, per, out[..k]);
      BlockPasses(ths[n], agg, per, out[k..]);
      Joined(out, k);
      LastThreshold(ths, agg, per);
    }
  }

  lemma LastThreshold(ths: seq<Threshold>, agg: Snapshot, per: Snapshots)
    requires ths != []
    ensures var n := |ths| - 1;
            (forall t <- ths :: Satisfied(t, agg, per))
            <==> (forall t <- ths[..n] :: Satisfied(t, agg, per)) && Satisfied(ths[n], agg, per)
  {
    assert ths == ths[..|ths| - 1] + [ths[|ths| - 1]];
  }

  lemma Joined(out: seq<Verdict>, k: nat)
    requires k <= |out|
    ensures (forall v <- out :: v.passed) <==> (forall v <- out[..k] :: v.passed) && forall v <- out[k..] :: v.passed
  {
    assert out == out[..k] + out[k..];
  }

  lemma BlockPasses(t: Threshold, agg: Snapshot, per: Snapshots, block: seq<Verdict>)
    requires Block(t, agg, per, block)
    ensures (forall v <- block :: v.passed) <==> Satisfied(t, agg, per)
  {
    if ScopeOf(t.scope).PerItem? {
      var order: seq<string> :| Ordering(order, per.Keys) && block == VerdictsOn(t, per, order);
      if forall v <- block :: v.passed {
        forall name | name in per ensures Passes(t, per[name]) {
          assert name in order;
          var i :| 0 <= i < |order| && order[i] == name;
          assert block[i] in block;
        }
      }
      if forall name <- per :: Passes(t, per[name]) {
        forall i | 0 <= i < |block| ensures block[i].passed {
          assert order[i] in order;
        }
      }
    }
  }

  /** With scope per_item every item gets one verdict, which names it; with the name of an item that did not
      run there is one failed verdict. */
  lemma VerdictsNameTheItems(t: Threshold, agg: Snapshot, per: Snapshots, block: seq<Verdict>)
    requires Block(t, agg, per, block)
    ensures t.scope == "per_item" ==>
              && (forall v <- block :: v.threshold.scope in per && v.threshold == t.(scope := v.threshold.scope))
              && (forall i, j :: 0 <= i < j < |block| ==> block[i].threshold.scope != block[j].threshold.scope)
              && (forall name <- per :: EvalOne(t.(scope := name), per[name]) in block)
    ensures t.scope !in ["", "aggregate", "per_item"] && t.scope !in per ==> block == [Verdict(t, 0.0, false)]
  {
    if t.scope == "per_item" {
      var order: seq<string> :| Ordering(order, per.Keys) && block == VerdictsOn(t, per, order);
      VerdictsInOrder(t, per, order);
      forall name | name in per ensures EvalOne(t.(scope := name), per[name]) in block {
        assert name in order;
        var i :| 0 <= i < |order| && order[i] == name;
        assert block[i] in block;
      }
    }
  }

  lemma VerdictsInOrder(t: Threshold, per: Snapshots, order: seq<string>)
    requires Ordering(order, per.Keys)
    ensures forall i :: 0 <= i < |order| ==> order[i] in per
    ensures forall i :: 0 <= i < |order| ==>
              var v := VerdictsOn(t, per, order)[i];
              v == EvalOne(t.(scope := order[i]), per[order[i]]) && v.threshold == t.(scope := order[i])
  {
    forall i | 0 <= i < |order| ensures order[i] in per { assert order[i] in order; }
  }

  // ---------------------------------------------------------------- aggregate against per item

  predicate NonNegative(s: Snapshot)
  {
    s.p50 >= 0.0 && s.p95 >= 0.0 && s.p99 >= 0.0 && s.errorRate >= 0.0 && s.rps >= 0.0 && s.totalErrors >= 0.0
  }

  /** Latencies and error rate: an upper bound holds of the aggregate exactly when it holds of every
      item, a lower bound exactly when it holds of some item. */
  lemma PeakThreshold(t: Threshold, agg: Snapshot, per: Snapshots)
    requires IsPeak(MetricOf(t.metric)) && IsAggregate(agg, per) && per != map[]
    requires forall name <- per :: NonNegative(per[name])
    ensures OpOf(t.op) in {Lt, Le} ==> (Passes(t, agg) <==> forall name <- per :: Passes(t, per[name]))
    ensures OpOf(t.op) in {Gt, Ge} ==> (Passes(t, agg) <==> exists name <- per :: Passes(t, per[name]))
  {
    var metric := MetricOf(t.metric);
    var high := MetricValue(agg, metric);
    assert IsHighest(high, per, metric);
    var top := Highest(high, per, metric);
    assert MetricValue(per[top], metric) == high;
  }

  lemma Highest(high: real, per: Snapshots, metric: Metric) returns (top: string)
    requires IsPeak(metric) && IsHighest(high, per, metric) && per != map[]
    requires forall name <- per :: NonNegative(per[name])
    ensures top in per && MetricValue(per[top], metric) == high
  {
    if high == 0.0 {
      top :| top in per;
      assert NonNegative(per[top]);
    } else {
      top :| top in per && MetricValue(per[top], metric) == high;
    }
  }

  /** Rate and error count: an upper bound on the aggregate bounds every item, and a lower bound
      reached by one item is reached by the aggregate. */
  lemma TotalThreshold(t: Threshold, agg: Snapshot, per: Snapshots, name: string)
    requires MetricOf(t.metric) in {RPS, TotalErrors} && IsAggregate(agg, per) && name in per
    requires forall other <- per :: NonNegative(per[other])
    ensures OpOf(t.op) in {Lt, Le} && Passes(t, agg) ==> Passes(t, per[name])
    ensures OpOf(t.op) in {Gt, Ge} && Passes(t, per[name]) ==> Passes(t, agg)
  {
    TotalSplits(per, name, MetricOf(t.metric));
    TotalNonNegative(per - {name}, MetricOf(t.metric));
  }

  lemma {:induction false} TotalNonNegative(per: Snapshots, metric: Metric)
    requires metric != UnknownMetric && forall name <- per :: NonNegative(per[name])
    ensures Total(per, metric) >= 0.0
    decreases |per|
  {
    if per != map[] {
      var name :| name in per;
      TotalSplits(per, name, metric);
      TotalNonNegative(per - {name}, metric);
    }
  }

  /** `le` with this limit passes. */
  predicate Within(s: Snapshot, metric: string, limit: real)
  {
    Passes(Threshold(metric, "le", limit, ""), s)
  }

  predicate AtMostOnePositive(per: Snapshots, metric: Metric)
    requires metric != UnknownMetric
  {
    forall a, b | a in per && b in per && a != b ::
      MetricValue(per[a], metric) == 0.0 || MetricValue(per[b], metric) == 0.0
  }

  /** The converse fails as soon as two items have something to add: bounding the total is the same as
      bounding each item, for every limit, exactly when at most one item has a positive value. */
  lemma TotalBoundIsStricter(agg: Snapshot, per: Snapshots, name: string)
    requires MetricOf(name) in {RPS, TotalErrors} && IsAggregate(agg, per) && per != map[]
    requires forall item <- per :: NonNegative(per[item])
    ensures (forall limit: real ::
               Within(agg, name, limit) <==> forall item <- per :: Within(per[item], name, limit))
            <==> AtMostOnePositive(per, MetricOf(name))
  {
    var metric := MetricOf(name);
    var top := Largest(per, metric);
    var high := MetricValue(per[top], metric);
    TotalSplits(per, top, metric);
    assert Total(per, metric) == MetricValue(agg, metric);
    if AtMostOnePositive(per, metric) {
      TotalZero(per - {top}, metric);
    } else {
      var a, b :| a in per && b in per && a != b
                  && MetricValue(per[a], metric) != 0.0 && MetricValue(per[b], metric) != 0.0;
      var other := if a == top then b else a;
      TotalSplits(per - {top}, other, metric);
      TotalNonNegative(per - {top} - {other}, metric);
      assert !Within(agg, name, high);
    }
  }

  lemma {:induction false} Largest(per: Snapshots, metric: Metric) returns (top: string)
    requires metric != UnknownMetric && per != map[]
    ensures top in per && forall name <- per :: MetricValue(per[name], metric) <= MetricValue(per[top], metric)
    decreases |per|
  {
    top :| top in per;
    var others := per - {top};
    assert forall name <- per :: name == top || (name in others && others[name] == per[name]);
    if others != map[] {
      var next := Largest(others, metric);
      if MetricValue(per[next], metric) > MetricValue(per[top], metric) {
        top := next;
      }
    }
  }

  lemma {:induction false} TotalZero(per: Snapshots, metric: Metric)
    requires metric != UnknownMetric && forall name <- per :: MetricValue(per[name], metric) == 0.0
    ensures Total(per, metric) == 0.0
    decreases |per|
  {
    if per != map[] {
      var name :| name in per;
      TotalSplits(per, name, metric);
      TotalZero(per - {name}, metric);
    }
  }
}
