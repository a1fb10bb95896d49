/** Running a test set (internal/setrunner/runner.go): stages one after the other, the items of a stage
    at the same time. */
module SetRunner {
  import opened Options
  import opened Thresholds

  datatype Summary = Summary(
    totalRequests: int, errors: int, durationSec: real, p50: real, p95: real, p99: real)

  datatype ItemStatus = Completed | Failed | Cancelled

  datatype ItemResult = ItemResult(name: string, status: ItemStatus, summary: Summary)

  /** `Unset` is the empty string, which means abort. */
  datatype OnFailure = Unset | Abort | Continue

  datatype Stage = Stage(name: string, onFailure: OnFailure, items: seq<string>)

  datatype StageResult = StageResult(name: string, items: seq<ItemResult>)

  datatype SetStatus = SetCompleted | SetFailed | SetCancelled

  datatype SetRun = SetRun(stages: seq<StageResult>, verdicts: seq<Verdict>, allPassed: bool, status: SetStatus)

  /** What happens to an item: its session is missing, it cannot be built, or it runs. */
  datatype Fate = NoSession | NotBuilt | Ran(summary: Summary, end: RunEnd)

  datatype RunEnd = Fine | ContextCancelled | OtherError

  /** What happens during a stage: the fate of each item, and whether the context is cancelled when the
      stage is over. */
  datatype StageFate = StageFate(items: seq<Fate>, cancelled: bool)

  const NOTHING := Summary(0, 0, 0.0, 0.0, 0.0, 0.0)

  function RunItem(name: string, fate: Fate): ItemResult
  {
    match fate
    case Ran(summary, Fine) => ItemResult(name, Completed, summary)
    case Ran(summary, ContextCancelled) => ItemResult(name, Cancelled, summary)
    case Ran(summary, OtherError) => ItemResult(name, Failed, summary)
    case _ => ItemResult(name, Failed, NOTHING)
  }

  /** An item that could not be built or whose session is missing ran nothing. Of the others exactly those
      that end without error are completed, and those that end with the context are cancelled; all keep what
      they measured. */
  lemma ItemStatusExactly(name: string, fate: Fate)
    ensures var result := RunItem(name, fate);
            && result.name == name
            && (result.status == Completed <==> fate.Ran? && fate.end == Fine)
            && (result.status == Cancelled <==> fate.Ran? && fate.end == ContextCancelled)
            && result.summary == if fate.Ran? then fate.summary else Summary(0, 0, 0.0, 0.0, 0.0, 0.0)
  {
  }

  function SnapshotFrom(s: Summary): Snapshot
  {
    Snapshot(
      s.p50, s.p95, s.p99,
      if s.totalRequests > 0 then s.errors as real / s.totalRequests as real else 0.0,
      if s.durationSec > 0.0 then s.totalRequests as real / s.durationSec else 0.0,
      s.errors as real)
  }

  /** The snapshot's rates are the summary's counts, per request and per second; and what is measured is
      never negative when the counts are not, as the threshold laws want it. */
  lemma SnapshotKeepsTheCounts(s: Summary)
    requires s.totalRequests >= 0 && s.errors >= 0 && s.durationSec >= 0.0
    requires s.p50 >= 0.0 && s.p95 >= 0.0 && s.p99 >= 0.0
    ensures var snap := SnapshotFrom(s);
            && (s.totalRequests > 0 ==> snap.errorRate * s.totalRequests as real == s.errors as real)
            && (s.durationSec > 0.0 ==> snap.rps * s.durationSec == s.totalRequests as real)
            && (s.errors <= s.totalRequests ==> snap.errorRate <= 1.0)
            && (s.totalRequests == 0 ==> snap.errorRate == 0.0) && (s.durationSec == 0.0 ==> snap.rps == 0.0)
            && snap.totalErrors == s.errors as real
            && snap.p50 == s.p50 && snap.p95 == s.p95 && snap.p99 == s.p99
            && NonNegative(snap)
  {
    if s.totalRequests > 0 {
      Ratio(s.errors as real, s.totalRequests as real);
    }
    if s.durationSec > 0.0 {
      Ratio(s.totalRequests as real, s.durationSec);
    }
  }

  lemma Ratio(a: real, b: real)
    requires a >= 0.0 && b > 0.0
    ensures a / b >= 0.0 && a / b * b == a && (a <= b ==> a / b <= 1.0)
  {
  }

  // ---------------------------------------------------------------- one stage

  predicate Fits(stage: Stage, fate: StageFate) { |stage.items| == |fate.items| }

  /** The results in the order of the items, whatever order they finish in. */
  function StageResults(stage: Stage, fate: StageFate): (results: seq<ItemResult>)
    requires Fits(stage, fate)
    ensures |results| == |stage.items|
    ensures forall i :: 0 <= i < |results| ==> results[i] == RunItem(stage.items[i], fate.items[i])
  {
    seq(|stage.items|, i requires 0 <= i < |stage.items| => RunItem(stage.items[i], fate.items[i]))
  }

  predicate AnyFailed(results: seq<ItemResult>)
  {
    exists i :: 0 <= i < |results| && results[i].status != Completed
  }

  predicate Distinct(order: seq<int>)
  {
    forall i, j :: 0 <= i < j < |order| ==> order[i] != order[j]
  }

  predicate Within(order: seq<int>, n: nat)
  {
    forall k :: 0 <= k < |order| ==> 0 <= order[k] < n
  }

  ghost predicate Permutes(order: seq<int>, n: nat)
  {
    Within(order, n) && Distinct(order) && forall i :: 0 <= i < n ==> i in order
  }

  /** The per-item map after the items at these positions finished, in this order. */
  function Written(per: Snapshots, results: seq<ItemResult>, order: seq<int>): Snapshots
    requires Within(order, |results|)
  {
    if order == [] then
      per
    else
      var result := results[order[|order| - 1]];
      Written(per, results, order[..|order| - 1])[result.name := SnapshotFrom(result.summary)]
  }

  ghost predicate Finished(per: Snapshots, results: seq<ItemResult>, after: Snapshots)
  {
    exists order: seq<int> :: Permutes(order, |results|) && after == Written(per, results, order)
  }

  /** One goroutine per item; what each does under the mutex is one turn of the second loop. */
  method RunStage(stage: Stage, fate: StageFate, per: Snapshots)
    returns (results: array<ItemResult>, anyFail: bool, after: Snapshots)
    requires Fits(stage, fate)
    ensures fresh(results) && results[..] == StageResults(stage, fate)
    ensures anyFail <==> AnyFailed(StageResults(stage, fate))
    ensures Finished(per, StageResults(stage, fate), after)
  {
    ghost var all := StageResults(stage, fate);
    results := new ItemResult[|stage.items|];
    anyFail, after := false, per;
    var pending: set<int> := {};
    for i := 0 to |stage.items|
      invariant forall k :: k in pending <==> 0 <= k < i
    {
      pending := pending + {i};
    }
    ghost var order: seq<int> := [];
    while pending != {}
      invariant Records(order, pending, |all|) && after == Written(per, all, order)
      invariant forall i :: 0 <= i < |all| && i !in pending ==> results[i] == all[i]
      invariant anyFail <==> exists i :: 0 <= i < |all| && i !in pending && all[i].status != Completed
      decreases |pending|
    {
      var i :| i in pending;
      var result := RunItem(stage.items[i], fate.items[i]);
      results[i] := result;
      after := after[result.name := SnapshotFrom(result.summary)];
      if result.status != Completed {
        anyFail := true;
      }
      order := OneMore(per, all, order, pending, i);
      pending := pending - {i};
    }
  }

  /** `order` lists the positions that are no longer pending. */
  ghost predicate Records(order: seq<int>, pending: set<int>, n: nat)
  {
    && Within(order, n) && Distinct(order)
    && (forall i <- pending :: 0 <= i < n && i !in order)
    && forall i :: 0 <= i < n && i !in pending ==> i in order
  }

  lemma OneMore(per: Snapshots, all: seq<ItemResult>, order: seq<int>, pending: set<int>, i: int)
    returns (longer: seq<int>)
    requires Records(order, pending, |all|) && i in pending
    ensures Records(longer, pending - {i}, |all|)
    ensures Written(per, all, longer) == Written(per, all, order)[all[i].name := SnapshotFrom(all[i].summary)]
  {
    longer := order + [i];
    assert longer[..|longer| - 1] == order;
  }

  // ---------------------------------------------------------------- order does not matter

  /** Every order of finishing leaves the same per-item map. */
  ghost predicate OrderFree(per: Snapshots, results: seq<ItemResult>)
  {
    forall a: Snapshots, b: Snapshots | Finished(per, results, a) && Finished(per, results, b) :: a == b
  }

  /** Items of the same name measured the same; in particular when no two have the same name. */
  predicate NoClash(results: seq<ItemResult>)
  {
    forall i, j | 0 <= i < |results| && 0 <= j < |results| && results[i].name == results[j].name ::
      SnapshotFrom(results[i].summary) == SnapshotFrom(results[j].summary)
  }

  /** Some item at these positions has the name. */
  predicate Writes(results: seq<ItemResult>, order: seq<int>, name: string)
    requires Within(order, |results|)
  {
    exists k :: 0 <= k < |order| && results[order[k]].name == name
  }

  lemma {:induction false} WrittenAt(per: Snapshots, results: seq<ItemResult>, order: seq<int>, name: string)
    requires Within(order, |results|)
    ensures name in Written(per, results, order) <==> name in per || Writes(results, order, name)
    ensures !Writes(results, order, name) && name in per ==> Written(per, results, order)[name] == per[name]
    ensures Writes(results, order, name) ==>
              exists k :: 0 <= k < |order| && results[order[k]].name == name
                          && Written(per, results, order)[name] == SnapshotFrom(results[order[k]].summary)
  {
    if order != [] {
      var n := |order| - 1;
      WrittenAt(per, results, order[..n], name);
      assert Writes(results, order, name) <==> Writes(results, order[..n], name) || results[order[n]].name == name;
      if results[order[n]].name != name && Writes(results, order[..n], name) {
        var k :| 0 <= k < n && results[order[..n][k]].name == name
                 && Written(per, results, order[..n])[name] == SnapshotFrom(results[order[..n][k]].summary);
        assert order[..n][k] == order[k];
      }
    }
  }

  /** The order of finishing matters exactly when two items of one name measured differently. */
  lemma OrderMattersOnlyInAClash(per: Snapshots, results: seq<ItemResult>)
    ensures OrderFree(per, results) <==> NoClash(results)
  {
    if NoClash(results) {
      forall a: Snapshots, b: Snapshots | Finished(per, results, a) && Finished(per, results, b) ensures a == b {
        SameMap(per, results, a, b);
      }
    } else {
      var i: nat, j: nat :| i < |results| && j < |results| && results[i].name == results[j].name
                            && SnapshotFrom(results[i].summary) != SnapshotFrom(results[j].summary);
      var a := LastOfAll(per, results, i);
      var b := LastOfAll(per, results, j);
      assert a != b;
    }
  }

  lemma SameMap(per: Snapshots, results: seq<ItemResult>, a: Snapshots, b: Snapshots)
    requires NoClash(results) && Finished(per, results, a) && Finished(per, results, b)
    ensures a == b
  {
    var x: seq<int> :| Permutes(x, |results|) && a == Written(per, results, x);
    var y: seq<int> :| Permutes(y, |results|) && b == Written(per, results, y);
    forall name ensures (name in a <==> name in b) && (name in a && name in b ==> a[name] == b[name]) {
      WrittenAt(per, results, x, name);
      WrittenAt(per, results, y, name);
      SameNames(results, x, y, name);
      SameNames(results, y, x, name);
    }
  }

  lemma SameNames(results: seq<ItemResult>, x: seq<int>, y: seq<int>, name: string)
    requires Permutes(x, |results|) && Permutes(y, |results|)
    ensures Writes(results, x, name) ==> Writes(results, y, name)
  {
    if Writes(results, x, name) {
      var k :| 0 <= k < |x| && results[x[k]].name == name;
      assert x[k] in y;
    }
  }

  /** The item at `i` may finish last, and then its measurement stays. */
  lemma LastOfAll(per: Snapshots, results: seq<ItemResult>, i: nat) returns (after: Snapshots)
    requires i < |results|
    ensures Finished(per, results, after)
    ensures results[i].name in after && after[results[i].name] == SnapshotFrom(results[i].summary)
  {
    var n := |results|;
    var order: seq<int> := seq(n, k requires 0 <= k < n => if k < i then k else if k < n - 1 then k + 1 else i);
    forall k | 0 <= k < n ensures k in order {
      assert order[if k < i then k else if k == i then n - 1 else k - 1] == k;
    }
    after := Written(per, results, order);
    assert order[n - 1] == i;
  }

  predicate DistinctNames(stage: Stage)
  {
    forall i, j :: 0 <= i < j < |stage.items| ==> stage.items[i] != stage.items[j]
  }

  lemma DistinctIsNoClash(stage: Stage, fate: StageFate)
    requires Fits(stage, fate) && DistinctNames(stage)
    ensures NoClash(StageResults(stage, fate))
  {
    var results := StageResults(stage, fate);
    forall i, j | 0 <= i < |results| && 0 <= j < |results| && results[i].name == results[j].name ensures i == j {
      assert results[i].name == stage.items[i] && results[j].name == stage.items[j];
    }
  }

  /** Whatever the items of a stage come to, the order of finishing does not matter: exactly so when
      their names are distinct, which can be seen before the stage runs. */
  lemma OrderFreeExactlyWithDistinctNames(per: Snapshots, stage: Stage)
    ensures (forall fate: StageFate | Fits(stage, fate) :: OrderFree(per, StageResults(stage, fate)))
            <==> DistinctNames(stage)
  {
    if DistinctNames(stage) {
      forall fate: StageFate | Fits(stage, fate) ensures OrderFree(per, StageResults(stage, fate)) {
        DistinctIsNoClash(stage, fate);
        OrderMattersOnlyInAClash(per, StageResults(stage, fate));
      }
    } else {
      var i, j :| 0 <= i < j < |stage.items| && stage.items[i] == stage.items[j];
      var fate := OneIsSlower(stage, j);
      ClashOf(per, stage, fate, i, j);
    }
  }

  const SLOWER := NOTHING.(p50 := 1.0)

  /** All items complete; the one at `j` has the larger median. */
  function OneIsSlower(stage: Stage, j: nat): (fate: StageFate)
    ensures Fits(stage, fate)
    ensures forall k :: 0 <= k < |fate.items| ==> fate.items[k] == Ran(if k == j then SLOWER else NOTHING, Fine)
  {
    StageFate(seq(|stage.items|, k => Ran(if k == j then SLOWER else NOTHING, Fine)), false)
  }

  lemma ClashOf(per: Snapshots, stage: Stage, fate: StageFate, i: nat, j: nat)
    requires i < j < |stage.items| && stage.items[i] == stage.items[j] && fate == OneIsSlower(stage, j)
    ensures !OrderFree(per, StageResults(stage, fate))
  {
    var results := StageResults(stage, fate);
    assert results[i].name == results[j].name;
    assert SnapshotFrom(results[i].summary).p50 == 0.0 && SnapshotFrom(results[j].summary).p50 == 1.0;
    OrderMattersOnlyInAClash(per, results);
  }

  /** An item as a set stores it; the name may be empty. */
  datatype SetItem = SetItem(name: string, sessionId: string)

  /** What validation compares (internal/store/sets_fs.go): the session where there is no name. */
  function CheckedName(item: SetItem): string
  {
    if item.name == "" then item.sessionId else item.name
  }

  predicate PassesValidation(items: seq<SetItem>)
  {
    forall i, j :: 0 <= i < j < |items| ==> CheckedName(items[i]) != CheckedName(items[j])
  }

  /** The stage as it runs, under the names as stored. */
  function StageOf(items: seq<SetItem>): (stage: Stage)
    ensures |stage.items| == |items| && forall i :: 0 <= i < |items| ==> stage.items[i] == items[i].name
  {
    Stage("", Unset, seq(|items|, i requires 0 <= i < |items| => items[i].name))
  }

  /** A stage that passes validation is free of the order of finishing, whatever happens, exactly when
      at most one of its items has no name. */
  lemma ValidatedStageIsOrderFree(per: Snapshots, items: seq<SetItem>)
    requires PassesValidation(items)
    ensures (forall fate: StageFate | Fits(StageOf(items), fate) :: OrderFree(per, StageResults(StageOf(items), fate)))
            <==> forall i, j :: 0 <= i < j < |items| ==> items[i].name != "" || items[j].name != ""
  {
    OrderFreeExactlyWithDistinctNames(per, StageOf(items));
    ValidatedNames(items);
  }

  lemma ValidatedNames(items: seq<SetItem>)
    requires PassesValidation(items)
    ensures DistinctNames(StageOf(items))
            <==> forall i, j :: 0 <= i < j < |items| ==> items[i].name != "" || items[j].name != ""
  {
    var names := StageOf(items).items;
    forall i, j | 0 <= i < j < |items|
      ensures names[i] == names[j] <==> items[i].name == "" && items[j].name == ""
    {
      assert CheckedName(items[i]) != CheckedName(items[j]);
    }
  }

  /** Two unnamed items of different sessions pass validation, and their stage has two outcomes. */
  lemma TwoUnnamedItems(per: Snapshots)
    ensures var items := [SetItem("", "login"), SetItem("", "search")];
            && PassesValidation(items)
            && exists fate: StageFate ::
                 Fits(StageOf(items), fate) && !OrderFree(per, StageResults(StageOf(items), fate))
  {
    var items := [SetItem("", "login"), SetItem("", "search")];
    assert CheckedName(items[0]) == "login" && CheckedName(items[1]) == "search";
    ValidatedStageIsOrderFree(per, items);
    assert items[0].name == "" && items[1].name == "";
  }

  // ---------------------------------------------------------------- the whole set

  predicate Aborts(stage: Stage, fate: StageFate)
    requires Fits(stage, fate)
  {
    AnyFailed(StageResults(stage, fate)) && stage.onFailure != Continue
  }

  predicate Halts(stage: Stage, fate: StageFate)
    requires Fits(stage, fate)
  {
    fate.cancelled || Aborts(stage, fate)
  }

  predicate AllFit(stages: seq<Stage>, fates: seq<StageFate>)
  {
    |stages| == |fates| && forall j :: 0 <= j < |stages| ==> Fits(stages[j], fates[j])
  }

  /** The first `n` stages are the ones that run: only the last of them may halt the set, and it does
      unless it is the last stage of all. */
  predicate RunsUntil(stages: seq<Stage>, fates: seq<StageFate>, n: nat)
    requires AllFit(stages, fates)
  {
    && n <= |stages|
    && (forall j :: 0 <= j < n - 1 ==> !Halts(stages[j], fates[j]))
    && (n < |stages| ==> n > 0 && Halts(stages[n - 1], fates[n - 1]))
  }

  /** `per` is what the items of these stages may have left in the per-item map. */
  ghost predicate Collected(stages: seq<Stage>, fates: seq<StageFate>, per: Snapshots)
    requires AllFit(stages, fates)
  {
    if stages == [] then
      per == map[]
    else
      var n := |stages| - 1;
      exists before: Snapshots ::
        && Collected(stages[..n], fates[..n], before)
        && Finished(before, StageResults(stages[n], fates[n]), per)
  }

  function Reported(stages: seq<Stage>, fates: seq<StageFate>): (reported: seq<StageResult>)
    requires AllFit(stages, fates)
    ensures |reported| == |stages|
  {
    seq(|stages|, j requires 0 <= j < |stages| => StageResult(stages[j].name, StageResults(stages[j], fates[j])))
  }

  ghost predicate Outcome(
    stages: seq<Stage>, ths: seq<Threshold>, fates: seq<StageFate>, n: nat, per: Snapshots, run: SetRun)
    requires AllFit(stages, fates)
  {
    && RunsUntil(stages, fates, n)
    && run.stages == Reported(stages[..n], fates[..n])
    && Collected(stages[..n], fates[..n], per)
    && Judged(ths, per, run)
    && run.status == (if n > 0 && fates[n - 1].cancelled then SetCancelled
                      else if n > 0 && Aborts(stages[n - 1], fates[n - 1]) then SetFailed
                      else if run.allPassed then SetCompleted
                      else SetFailed)
  }

  ghost predicate Judged(ths: seq<Threshold>, per: Snapshots, run: SetRun)
  {
    && (run.allPassed <==> forall v <- run.verdicts :: v.passed)
    && exists agg: Snapshot :: IsAggregate(agg, per) && Evaluated(ths, agg, per, run.verdicts)
  }

  /** How the store answers when the set is fetched, the run created, the run saved. */
  datatype StoreFate = StoreFate(found: bool, created: bool, saved: bool)

  datatype RunError = SetNotFound | RunNotCreated | NotFinalized

  /** Without a set or a run nothing happens; a run that cannot be saved is returned with the error. */
  method Run(stages: seq<Stage>, ths: seq<Threshold>, fates: seq<StageFate>, store: StoreFate)
    returns (run: Option<SetRun>, error: Option<RunError>, n: nat, per: Snapshots)
    requires AllFit(stages, fates)
    ensures error == if !store.found then Some(SetNotFound)
                     else if !store.created then Some(RunNotCreated)
                     else if !store.saved then Some(NotFinalized)
                     else None
    ensures run.Some? <==> store.found && store.created
    ensures run.Some? ==> Outcome(stages, ths, fates, n, per, run.value)
  {
    if !store.found {
      return None, Some(SetNotFound), 0, map[];
    }
    if !store.created {
      return None, Some(RunNotCreated), 0, map[];
    }
    var ended;
    ended, n, per := RunToTheEnd(stages, ths, fates);
    run, error := Some(ended), None;
    if !store.saved {
      error := Some(NotFinalized);
    }
  }

  method RunToTheEnd(stages: seq<Stage>, ths: seq<Threshold>, fates: seq<StageFate>)
    returns (run: SetRun, n: nat, per: Snapshots)
    requires AllFit(stages, fates)
    ensures Outcome(stages, ths, fates, n, per, run)
  {
    var status;
    var done: seq<StageResult>;
    done, n, per, status := RunStages(stages, fates);
    var agg := AggregateOf(per);
    var verdicts := EvaluateThresholds(ths, agg, per);
    var allPassed := AllPassed(verdicts);
    if status == SetCompleted && !allPassed {
      status := SetFailed;
    }
    run := SetRun(done, verdicts, allPassed, status);
  }

  /** The stage loop. */
  method RunStages(stages: seq<Stage>, fates: seq<StageFate>)
    returns (done: seq<StageResult>, n: nat, per: Snapshots, status: SetStatus)
    requires AllFit(stages, fates)
    ensures RunsUntil(stages, fates, n)
    ensures done == Reported(stages[..n], fates[..n]) && Collected(stages[..n], fates[..n], per)
    ensures status == if n > 0 && fates[n - 1].cancelled then SetCancelled
                      else if n > 0 && Aborts(stages[n - 1], fates[n - 1]) then SetFailed
                      else SetCompleted
  {
    done, n, per, status := [], 0, map[], SetCompleted;
    while n < |stages|
      invariant n <= |stages| && status == SetCompleted
      invariant forall j :: 0 <= j < n ==> !Halts(stages[j], fates[j])
      invariant done == Reported(stages[..n], fates[..n]) && Collected(stages[..n], fates[..n], per)
    {
      var results, anyFail, after := RunStage(stages[n], fates[n], per);
      OneMoreStage(stages, fates, n, done, per, after);
      done := done + [StageResult(stages[n].name, results[..])];
      per := after;
      n := n + 1;
      assert anyFail <==> AnyFailed(StageResults(stages[n - 1], fates[n - 1]));
      if fates[n - 1].cancelled {
        status := SetCancelled;
        break;
      }
      if anyFail {
        var onFailure := stages[n - 1].onFailure;
        if onFailure == Unset {
          onFailure := Abort;
        }
        if onFailure == Abort {
          status := SetFailed;
          break;
        }
      }
    }
  }

  lemma OneMoreStage(
    stages: seq<Stage>, fates: seq<StageFate>, n: nat, done: seq<StageResult>, per: Snapshots, after: Snapshots)
    requires AllFit(stages, fates) && n < |stages|
    requires done == Reported(stages[..n], fates[..n]) && Collected(stages[..n], fates[..n], per)
    requires Finished(per, StageResults(stages[n], fates[n]), after)
    ensures done + [StageResult(stages[n].name, StageResults(stages[n], fates[n]))]
         == Reported(stages[..n + 1], fates[..n + 1])
    ensures Collected(stages[..n + 1], fates[..n + 1], after)
  {
    assert stages[..n + 1][..n] == stages[..n] && fates[..n + 1][..n] == fates[..n];
  }

  // ---------------------------------------------------------------- what the status says

  /** A set is completed exactly when no stage of it meets a cancellation or aborts and every threshold
      is satisfied; then all its stages ran. */
  lemma CompletedExactly(
    stages: seq<Stage>, ths: seq<Threshold>, fates: seq<StageFate>, n: nat, per: Snapshots, run: SetRun, agg: Snapshot)
    requires AllFit(stages, fates) && Outcome(stages, ths, fates, n, per, run) && IsAggregate(agg, per)
    ensures run.status == SetCompleted <==>
              && (forall j :: 0 <= j < |stages| ==> !Halts(stages[j], fates[j]))
              && forall t <- ths :: Satisfied(t, agg, per)
    ensures run.status == SetCompleted ==> n == |stages|
  {
    JudgedFairly(ths, per, run, agg);
  }

  lemma JudgedFairly(ths: seq<Threshold>, per: Snapshots, run: SetRun, agg: Snapshot)
    requires Judged(ths, per, run) && IsAggregate(agg, per)
    ensures run.allPassed <==> forall t <- ths :: Satisfied(t, agg, per)
  {
    var used: Snapshot :| IsAggregate(used, per) && Evaluated(ths, used, per, run.verdicts);
    OneAggregate(agg, used, per);
    AllPassWhenAllAreSatisfied(ths, agg, per, run.verdicts);
  }

  lemma OneAggregate(a: Snapshot, b: Snapshot, per: Snapshots)
    requires IsAggregate(a, per) && IsAggregate(b, per)
    ensures a == b
  {
    OneHighest(a.p50, b.p50, per, P50);
    OneHighest(a.p95, b.p95, per, P95);
    OneHighest(a.p99, b.p99, per, P99);
    OneHighest(a.errorRate, b.errorRate, per, ErrorRate);
  }

  lemma OneHighest(a: real, b: real, per: Snapshots, metric: Metric)
    requires IsPeak(metric) && IsHighest(a, per, metric) && IsHighest(b, per, metric)
    ensures a == b
  {
  }

  /** It is cancelled exactly when some stage that ran ended with the context cancelled, and then that
      stage was the last to run. A stage that was followed by another saw no cancellation, and either all
      its items completed or it says to continue. */
  lemma CancelledExactly(
    stages: seq<Stage>, ths: seq<Threshold>, fates: seq<StageFate>, n: nat, per: Snapshots, run: SetRun)
    requires AllFit(stages, fates) && Outcome(stages, ths, fates, n, per, run)
    ensures run.status == SetCancelled <==> exists j :: 0 <= j < n && fates[j].cancelled
    ensures forall j :: 0 <= j < n - 1 ==>
              && !fates[j].cancelled
              && ((forall i :: 0 <= i < |run.stages[j].items| ==> run.stages[j].items[i].status == Completed)
                  || stages[j].onFailure == Continue)
  {
    forall j | 0 <= j < n - 1
      ensures !fates[j].cancelled
      ensures (forall i :: 0 <= i < |run.stages[j].items| ==> run.stages[j].items[i].status == Completed)
              || stages[j].onFailure == Continue
    {
      assert !Halts(stages[j], fates[j]);
      assert run.stages[j].items == StageResults(stages[j], fates[j]);
    }
  }

  /** What a run reports: the stages that ran, by name, each with all its items in order, and what became of
      each item. */
  lemma ReportIsComplete(
    stages: seq<Stage>, ths: seq<Threshold>, fates: seq<StageFate>, n: nat, per: Snapshots, run: SetRun, j: nat, i: nat)
    requires AllFit(stages, fates) && Outcome(stages, ths, fates, n, per, run)
    ensures |run.stages| == n <= |stages|
    ensures j < n ==> run.stages[j].name == stages[j].name && |run.stages[j].items| == |stages[j].items|
    ensures j < n && i < |stages[j].items| ==>
              var result, fate := run.stages[j].items[i], fates[j].items[i];
              && result.name == stages[j].items[i]
              && (result.status == Completed <==> fate.Ran? && fate.end == Fine)
              && (fate.Ran? ==> result.summary == fate.summary)
  {
    if j < n && i < |stages[j].items| {
      assert run.stages[j] == StageResult(stages[j].name, StageResults(stages[j], fates[j]));
      ItemStatusExactly(stages[j].items[i], fates[j].items[i]);
    }
  }

  /** Some item of the stage did not run, or ended with an error. */
  predicate SomeItemFails(fate: StageFate)
  {
    exists i :: 0 <= i < |fate.items| && !(fate.items[i].Ran? && fate.items[i].end == Fine)
  }

  /** Nothing ends a set before its last stage but a cancellation, or a failing item in a stage that does not
      say to continue; and each of these does. */
  lemma StagesEndExactly(stages: seq<Stage>, fates: seq<StageFate>, n: nat)
    requires AllFit(stages, fates)
    ensures RunsUntil(stages, fates, n) <==>
              && n <= |stages|
              && (forall j :: 0 <= j < n - 1 ==>
                    !fates[j].cancelled && (stages[j].onFailure == Continue || !SomeItemFails(fates[j])))
              && (n < |stages| ==>
                    && n > 0
                    && (fates[n - 1].cancelled || (stages[n - 1].onFailure != Continue && SomeItemFails(fates[n - 1]))))
  {
    forall j | 0 <= j < |stages| ensures AnyFailed(StageResults(stages[j], fates[j])) <==> SomeItemFails(fates[j]) {
      FailuresAreSeen(stages[j], fates[j]);
    }
  }

  lemma FailuresAreSeen(stage: Stage, fate: StageFate)
    requires Fits(stage, fate)
    ensures AnyFailed(StageResults(stage, fate)) <==> SomeItemFails(fate)
  {
    var results := StageResults(stage, fate);
    forall i | 0 <= i < |results|
      ensures results[i].status != Completed <==> !(fate.items[i].Ran? && fate.items[i].end == Fine)
    {
      ItemStatusExactly(stage.items[i], fate.items[i]);
    }
  }

  // ---------------------------------------------------------------- one name, one measurement

  /** The names of all items, stage by stage. */
  function Names(stages: seq<Stage>): seq<string>
  {
    if stages == [] then [] else Names(stages[..|stages| - 1]) + stages[|stages| - 1].items
  }

  /** The results of all items, stage by stage. */
  function AllResults(stages: seq<Stage>, fates: seq<StageFate>): (all: seq<ItemResult>)
    requires AllFit(stages, fates)
    ensures |all| == |Names(stages)| && forall k :: 0 <= k < |all| ==> all[k].name == Names(stages)[k]
  {
    if stages == [] then
      []
    else
      var n := |stages| - 1;
      AllResults(stages[..n], fates[..n]) + StageResults(stages[n], fates[n])
  }

  function Errors(results: seq<ItemResult>): real
  {
    if results == [] then
      0.0
    else
      Errors(results[..|results| - 1]) + results[|results| - 1].summary.errors as real
  }

  /** The results written into the map one after the other. */
  function WriteAll(per: Snapshots, results: seq<ItemResult>): Snapshots
  {
    if results == [] then
      per
    else
      var last := results[|results| - 1];
      WriteAll(per, results[..|results| - 1])[last.name := SnapshotFrom(last.summary)]
  }

  predicate DistinctSeq(names: seq<string>)
  {
    forall i, j :: 0 <= i < j < |names| ==> names[i] != names[j]
  }

  function Upto(n: nat): (order: seq<int>)
    ensures |order| == n && forall k :: 0 <= k < n ==> order[k] == k
  {
    seq(n, k => k)
  }

  lemma {:induction false} WrittenUpto(per: Snapshots, results: seq<ItemResult>, n: nat)
    requires n <= |results|
    ensures Written(per, results, Upto(n)) == WriteAll(per, results[..n])
  {
    if n > 0 {
      WrittenUpto(per, results, n - 1);
      assert Upto(n)[..n - 1] == Upto(n - 1);
      assert results[..n][..n - 1] == results[..n - 1];
    }
  }

  /** The items may finish in the order they are listed. */
  lemma ListedOrder(per: Snapshots, results: seq<ItemResult>)
    ensures Finished(per, results, WriteAll(per, results))
  {
    var order := Upto(|results|);
    WrittenUpto(per, results, |results|);
    assert results[..|results|] == results;
    forall k | 0 <= k < |results| ensures k in order { assert order[k] == k; }
    assert Permutes(order, |results|);
  }

  function NamesOf(results: seq<ItemResult>): (names: seq<string>)
    ensures |names| == |results| && forall i :: 0 <= i < |results| ==> names[i] == results[i].name
  {
    seq(|results|, i requires 0 <= i < |results| => results[i].name)
  }

  lemma {:induction false} WrittenNames(per: Snapshots, results: seq<ItemResult>, name: string)
    ensures name in WriteAll(per, results) <==> name in per || name in NamesOf(results)
  {
    if results != [] {
      var n := |results| - 1;
      WrittenNames(per, results[..n], name);
      assert NamesOf(results) == NamesOf(results[..n]) + [results[n].name];
    }
  }

  /** Results under names that are new and distinct all count. */
  lemma {:induction false} NewNamesAllCount(per: Snapshots, results: seq<ItemResult>)
    requires DistinctSeq(NamesOf(results)) && forall i :: 0 <= i < |results| ==> results[i].name !in per
    ensures Total(WriteAll(per, results), TotalErrors) == Total(per, TotalErrors) + Errors(results)
  {
    if results != [] {
      var n := |results| - 1;
      var last, before := results[n], WriteAll(per, results[..n]);
      NewNamesAllCount(per, results[..n]);
      WrittenNames(per, results[..n], last.name);
      assert last.name !in NamesOf(results[..n]);
      OneMoreTotal(SnapshotFrom(last.summary), before, last.name, TotalErrors);
    }
  }

  lemma {:induction false} DistinctNamesAllCount(stages: seq<Stage>, fates: seq<StageFate>, per: Snapshots)
    requires AllFit(stages, fates) && Collected(stages, fates, per) && DistinctSeq(Names(stages))
    ensures forall name :: name in per <==> name in Names(stages)
    ensures Total(per, TotalErrors) == Errors(AllResults(stages, fates))
  {
    if stages != [] {
      var n := |stages| - 1;
      var before := BeforeLastStage(stages, fates, per);
      var names := Names(stages[..n]);
      DistinctPrefix(names, stages[n].items);
      DistinctNamesAllCount(stages[..n], fates[..n], before);
      NewStageCounts(names, stages[n], fates[n], before, per);
      ErrorsOfBoth(AllResults(stages[..n], fates[..n]), StageResults(stages[n], fates[n]));
    }
  }

  lemma DistinctPrefix(a: seq<string>, b: seq<string>)
    requires DistinctSeq(a + b)
    ensures DistinctSeq(a)
  {
    assert forall k :: 0 <= k < |a| ==> (a + b)[k] == a[k];
  }

  lemma NewStageCounts(names: seq<string>, stage: Stage, fate: StageFate, before: Snapshots, per: Snapshots)
    requires Fits(stage, fate) && Finished(before, StageResults(stage, fate), per)
    requires DistinctSeq(names + stage.items) && forall name :: name in before <==> name in names
    ensures forall name :: name in per <==> name in names + stage.items
    ensures Total(per, TotalErrors) == Total(before, TotalErrors) + Errors(StageResults(stage, fate))
  {
    var results := StageResults(stage, fate);
    LastStageIsNew(names, stage);
    ListedOrder(before, results);
    DistinctIsNoClash(stage, fate);
    SameMap(before, results, per, WriteAll(before, results));
    assert NamesOf(results) == stage.items;
    NewNamesAllCount(before, results);
    forall name ensures name in per <==> name in names + stage.items { WrittenNames(before, results, name); }
  }

  lemma LastStageIsNew(names: seq<string>, stage: Stage)
    requires DistinctSeq(names + stage.items)
    ensures DistinctNames(stage) && DistinctSeq(stage.items)
    ensures forall i :: 0 <= i < |stage.items| ==> stage.items[i] !in names
  {
    var all := names + stage.items;
    assert forall i :: 0 <= i < |stage.items| ==> all[|names| + i] == stage.items[i];
    assert forall k :: 0 <= k < |names| ==> all[k] == names[k];
  }

  lemma {:induction false} ErrorsOfBoth(a: seq<ItemResult>, b: seq<ItemResult>)
    ensures Errors(a + b) == Errors(a) + Errors(b)
  {
    if b == [] {
      assert a + b == a;
    } else {
      var n := |b| - 1;
      ErrorsOfBoth(a, b[..n]);
      assert (a + b)[..|a + b| - 1] == a + b[..n];
    }
  }

  const FAILING := NOTHING.(totalRequests := 1, errors := 1)

  /** Every item completes and nothing is cancelled; only the item at `k`, counted over all stages, has an
      error. */
  function OneError(stages: seq<Stage>, k: int): (fates: seq<StageFate>)
    ensures AllFit(stages, fates)
    ensures forall j :: 0 <= j < |stages| ==> !Halts(stages[j], fates[j])
  {
    if stages == [] then
      []
    else
      var n := |stages| - 1;
      OneError(stages[..n], k) + [OneErrorAt(stages[n], k - |Names(stages[..n])|)]
  }

  function OneErrorAt(stage: Stage, at: int): (fate: StageFate)
    ensures Fits(stage, fate) && !Halts(stage, fate)
    ensures OnlyErrorAt(StageResults(stage, fate), at)
  {
    StageFate(seq(|stage.items|, i => Ran(if i == at then FAILING else NOTHING, Fine)), false)
  }

  predicate OnlyErrorAt(results: seq<ItemResult>, k: int)
  {
    forall i :: 0 <= i < |results| ==> results[i].summary == if i == k then FAILING else NOTHING
  }

  lemma OnlyErrorInBoth(a: seq<ItemResult>, b: seq<ItemResult>, k: int)
    requires OnlyErrorAt(a, k) && OnlyErrorAt(b, k - |a|)
    ensures OnlyErrorAt(a + b, k)
  {
  }

  lemma {:induction false} OneErrorResults(stages: seq<Stage>, k: int)
    ensures OnlyErrorAt(AllResults(stages, OneError(stages, k)), k)
  {
    if stages != [] {
      var n := |stages| - 1;
      var before, fate := OneError(stages[..n], k), OneErrorAt(stages[n], k - |Names(stages[..n])|);
      OneErrorResults(stages[..n], k);
      OnlyErrorInBoth(AllResults(stages[..n], before), StageResults(stages[n], fate), k);
      assert OneError(stages, k)[..n] == before && OneError(stages, k)[n] == fate;
    }
  }

  lemma {:induction false} OneErrorSum(results: seq<ItemResult>, k: nat)
    requires OnlyErrorAt(results, k)
    ensures Errors(results) == if k < |results| then 1.0 else 0.0
  {
    if results != [] { OneErrorSum(results[..|results| - 1], k); }
  }

  lemma {:induction false} ListedStages(stages: seq<Stage>, fates: seq<StageFate>)
    requires AllFit(stages, fates)
    ensures Collected(stages, fates, WriteAll(map[], AllResults(stages, fates)))
  {
    if stages != [] {
      var n := |stages| - 1;
      var before, results := AllResults(stages[..n], fates[..n]), StageResults(stages[n], fates[n]);
      ListedStages(stages[..n], fates[..n]);
      ListedOrder(WriteAll(map[], before), results);
      WriteBoth(map[], before, results);
    }
  }

  lemma {:induction false} WriteBoth(per: Snapshots, a: seq<ItemResult>, b: seq<ItemResult>)
    ensures WriteAll(per, a + b) == WriteAll(WriteAll(per, a), b)
  {
    if b == [] {
      assert a + b == a;
    } else {
      var n := |b| - 1;
      WriteBoth(per, a, b[..n]);
      assert (a + b)[..|a + b| - 1] == a + b[..n];
    }
  }

  predicate LastOf(results: seq<ItemResult>, name: string, k: nat)
  {
    k < |results| && results[k].name == name && forall j :: k < j < |results| ==> results[j].name != name
  }

  /** What stays under a name is its last result. */
  lemma {:induction false} LastResultStays(results: seq<ItemResult>, name: string) returns (k: nat)
    requires name in WriteAll(map[], results)
    ensures LastOf(results, name, k) && WriteAll(map[], results)[name] == SnapshotFrom(results[k].summary)
  {
    var n := |results| - 1;
    if results[n].name == name {
      k := n;
    } else {
      k := LastResultStays(results[..n], name);
      assert forall j :: 0 <= j < n ==> results[j] == results[..n][j];
    }
  }

  /** Whatever happens, the aggregate's errors are those of all items that ran: exactly so when no name
      is used twice in the whole set. A name used again, in a later stage too, erases what was measured
      under it. */
  lemma EveryErrorCountsExactly(stages: seq<Stage>)
    ensures (forall fates: seq<StageFate>, n: nat, per: Snapshots | EndsWith(stages, fates, n, per) ::
               Total(per, TotalErrors) == Errors(AllResults(stages[..n], fates[..n])))
            <==> DistinctSeq(Names(stages))
  {
    if DistinctSeq(Names(stages)) {
      forall fates: seq<StageFate>, n: nat, per: Snapshots | EndsWith(stages, fates, n, per)
        ensures Total(per, TotalErrors) == Errors(AllResults(stages[..n], fates[..n]))
      {
        NamesOfPrefix(stages, n);
        DistinctNamesAllCount(stages[..n], fates[..n], per);
      }
    } else {
      var i, j :| 0 <= i < j < |Names(stages)| && Names(stages)[i] == Names(stages)[j];
      ErasedError(stages, i, j);
    }
  }

  /** A possible end of the stage loop: `n` stages ran and left this map. */
  ghost predicate EndsWith(stages: seq<Stage>, fates: seq<StageFate>, n: nat, per: Snapshots)
  {
    AllFit(stages, fates) && RunsUntil(stages, fates, n) && Collected(stages[..n], fates[..n], per)
  }

  lemma {:induction false} NamesOfPrefix(stages: seq<Stage>, n: nat)
    requires n <= |stages|
    ensures Names(stages[..n]) <= Names(stages)
  {
    if n < |stages| {
      var m := |stages| - 1;
      NamesOfPrefix(stages[..m], n);
      assert stages[..m][..n] == stages[..n];
    } else {
      assert stages[..n] == stages;
    }
  }

  lemma ErasedError(stages: seq<Stage>, i: nat, j: nat)
    requires i < j < |Names(stages)| && Names(stages)[i] == Names(stages)[j]
    ensures exists fates: seq<StageFate>, n: nat, per: Snapshots ::
              EndsWith(stages, fates, n, per)
              && Total(per, TotalErrors) != Errors(AllResults(stages[..n], fates[..n]))
  {
    var fates, n := OneError(stages, i), |stages|;
    var all := AllResults(stages, fates);
    ListedEnd(stages, fates);
    OneErrorResults(stages, i);
    OneErrorSum(all, i);
    ErasedTotal(all, i, j);
  }

  /** If nothing halts the set, all stages run, and the items may finish in the order they are listed. */
  lemma ListedEnd(stages: seq<Stage>, fates: seq<StageFate>)
    requires AllFit(stages, fates) && forall j :: 0 <= j < |stages| ==> !Halts(stages[j], fates[j])
    ensures stages[..|stages|] == stages && fates[..|stages|] == fates
    ensures EndsWith(stages, fates, |stages|, WriteAll(map[], AllResults(stages, fates)))
  {
    assert stages[..|stages|] == stages && fates[..|stages|] == fates;
    ListedStages(stages, fates);
  }

  lemma ErasedTotal(all: seq<ItemResult>, i: nat, j: nat)
    requires i < j < |all| && all[i].name == all[j].name
    requires OnlyErrorAt(all, i)
    ensures Total(WriteAll(map[], all), TotalErrors) == 0.0
  {
    var per := WriteAll(map[], all);
    forall name | name in per ensures per[name].totalErrors == 0.0 { var k := LastResultStays(all, name); }
    TotalZero(per, TotalErrors);
  }

  /** With distinct names in each stage the order in which items finish shows nowhere: any two runs with
      the same fates report the same stages, the same measurements, the same judgement, the same status. */
  lemma SchedulingDoesNotShow(
    stages: seq<Stage>, ths: seq<Threshold>, fates: seq<StageFate>,
    n: nat, per: Snapshots, run: SetRun, n': nat, per': Snapshots, run': SetRun)
    requires AllFit(stages, fates) && forall stage <- stages :: DistinctNames(stage)
    requires Outcome(stages, ths, fates, n, per, run) && Outcome(stages, ths, fates, n', per', run')
    ensures n == n' && per == per' && run.stages == run'.stages
    ensures run.allPassed == run'.allPassed && run.status == run'.status
  {
    SameLength(stages, fates, n, n');
    forall j | 0 <= j < n ensures DistinctNames(stages[..n][j]) {
      assert stages[j] in stages;
    }
    SameCollected(stages[..n], fates[..n], per, per');
    var agg: Snapshot :| IsAggregate(agg, per) && Evaluated(ths, agg, per, run.verdicts);
    JudgedFairly(ths, per, run, agg);
    JudgedFairly(ths, per, run', agg);
  }

  lemma NotShorter(stages: seq<Stage>, fates: seq<StageFate>, n: nat, m: nat)
    requires AllFit(stages, fates) && RunsUntil(stages, fates, n) && RunsUntil(stages, fates, m)
    ensures n >= m
  {
    if n < |stages| {
      assert Halts(stages[n - 1], fates[n - 1]);
    }
  }

  lemma SameLength(stages: seq<Stage>, fates: seq<StageFate>, n: nat, m: nat)
    requires AllFit(stages, fates) && RunsUntil(stages, fates, n) && RunsUntil(stages, fates, m)
    ensures n == m
  {
    NotShorter(stages, fates, n, m);
    NotShorter(stages, fates, m, n);
  }

  lemma {:induction false} SameCollected(stages: seq<Stage>, fates: seq<StageFate>, a: Snapshots, b: Snapshots)
    requires AllFit(stages, fates) && Collected(stages, fates, a) && Collected(stages, fates, b)
    requires forall j :: 0 <= j < |stages| ==> DistinctNames(stages[j])
    ensures a == b
  {
    if stages != [] {
      var n := |stages| - 1;
      var x := BeforeLastStage(stages, fates, a);
      var y := BeforeLastStage(stages, fates, b);
      SameCollected(stages[..n], fates[..n], x, y);
      DistinctIsNoClash(stages[n], fates[n]);
      SameMap(x, StageResults(stages[n], fates[n]), a, b);
    }
  }

  lemma BeforeLastStage(stages: seq<Stage>, fates: seq<StageFate>, per: Snapshots) returns (before: Snapshots)
    requires AllFit(stages, fates) && Collected(stages, fates, per) && stages != []
    ensures var n := |stages| - 1;
            Collected(stages[..n], fates[..n], before) && Finished(before, StageResults(stages[n], fates[n]), per)
  {
    var n := |stages| - 1;
    before :| Collected(stages[..n], fates[..n], before) && Finished(before, StageResults(stages[n], fates[n]), per);
  }
}
