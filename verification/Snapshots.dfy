/** Reading the shards while others record (internal/metrics/collector.go, `snapshot` and
    `Snapshot`): a read locks one shard at a time, so records fall between its steps. One
    `Snapshot` runs at a time, under the history lock. */
module Snapshots {
  import opened Options
  import opened Metrics

  /** One entry of the history; `delta` is the request count used for the current rate. */
  datatype Point = Point(total: int, successes: int, failures: int, delta: int)

  /** A read under way: the shards merged so far and, as history, how long each shard's log was
      when the read began and when it was merged. */
  datatype Reading = Reading(agg: Bucket, atStart: seq<nat>, cuts: seq<nat>)

  /** Each shard is the log of what was recorded into it; its bucket is `BucketOf` that log. */
  datatype State = State(logs: seq<seq<Rec>>, reading: Option<Reading>, history: seq<Point>)

  function Init(): State { State(seq(NUM_SHARDS, _ => []), None, []) }

  datatype Step = Record(i: nat, r: Rec) | Begin | ReadShard | Finish

  predicate Enabled(s: State, step: Step)
  {
    match step
    case Record(i, _) => i < |s.logs|
    case Begin => s.reading.None?
    case ReadShard => s.reading.Some? && |s.reading.value.cuts| < |s.logs|
    case Finish => s.reading.Some? && |s.reading.value.cuts| == |s.logs|
  }

  function Lengths(logs: seq<seq<Rec>>): (r: seq<nat>)
    ensures |r| == |logs| && forall i :: 0 <= i < |logs| ==> r[i] == |logs[i]|
  {
    seq(|logs|, i requires 0 <= i < |logs| => |logs[i]|)
  }

  /** The new history entry: the first one counts from nothing, the others from the one before. */
  function PointOf(b: Bucket, history: seq<Point>): Point
  {
    Point(b.Total(), b.core.successes, b.core.failures,
          if history == [] then b.Total() else b.Total() - history[|history| - 1].total)
  }

  function Apply(s: State, step: Step): State
    requires Enabled(s, step)
  {
    match step
    case Record(i, r) => s.(logs := s.logs[i := s.logs[i] + [r]])
    case Begin => s.(reading := Some(Reading(EMPTY, Lengths(s.logs), [])))
    case ReadShard =>
      var c := s.reading.value;
      var log := s.logs[|c.cuts|];
      s.(reading := Some(Reading(Merged(c.agg, BucketOf(log)), c.atStart, c.cuts + [|log|])))
    case Finish => s.(reading := None, history := s.history + [PointOf(s.reading.value.agg, s.history)])
  }

  predicate Valid(s: State, run: seq<Step>)
    decreases |run|
  {
    run == [] || (Enabled(s, run[0]) && Valid(Apply(s, run[0]), run[1..]))
  }

  function Exec(s: State, run: seq<Step>): State
    requires Valid(s, run)
    decreases |run|
  {
    if run == [] then s else Exec(Apply(s, run[0]), run[1..])
  }

  // ---------------------------------------------------------------- what a read has seen

  function SumOf(xs: seq<nat>): nat
  {
    if xs == [] then 0 else SumOf(xs[..|xs| - 1]) + xs[|xs| - 1]
  }

  /** The merge of a prefix of each of the first `|cuts|` logs. */
  function MergedPrefixes(logs: seq<seq<Rec>>, cuts: seq<nat>): (b: Bucket)
    requires |cuts| <= |logs| && forall i :: 0 <= i < |cuts| ==> cuts[i] <= |logs[i]|
  {
    if cuts == [] then EMPTY
    else
      var n := |cuts| - 1;
      Merged(MergedPrefixes(logs, cuts[..n]), BucketOf(logs[n][..cuts[n]]))
  }

  predicate CutsInv(logs: seq<seq<Rec>>, atStart: seq<nat>, cuts: seq<nat>)
  {
    && |atStart| == |logs| && |cuts| <= |logs|
    && (forall i :: 0 <= i < |logs| ==> atStart[i] <= |logs[i]|)
    && (forall i :: 0 <= i < |cuts| ==> atStart[i] <= cuts[i] <= |logs[i]|)
  }

  predicate ReadingInv(logs: seq<seq<Rec>>, c: Reading)
  {
    CutsInv(logs, c.atStart, c.cuts) && c.agg == MergedPrefixes(logs, c.cuts)
  }

  /** What every earlier point reported was there: its total is at most `bound`. */
  predicate HistoryInv(history: seq<Point>, bound: int)
  {
    && (forall i :: 0 <= i < |history| ==> history[i].total == history[i].successes + history[i].failures)
    && (forall i :: 0 < i < |history| ==> history[i - 1].total <= history[i].total)
    && (history != [] ==> SumDeltas(history) == history[|history| - 1].total <= bound)
  }

  function SumDeltas(history: seq<Point>): int
  {
    if history == [] then 0 else SumDeltas(history[..|history| - 1]) + history[|history| - 1].delta
  }

  predicate Inv(s: State)
  {
    && (s.reading.Some? ==> ReadingInv(s.logs, s.reading.value))
    && HistoryInv(s.history, SumOf(if s.reading.Some? then s.reading.value.atStart else Lengths(s.logs)))
  }

  lemma {:induction false} SumMonotone(a: seq<nat>, b: seq<nat>)
    requires |a| == |b| && forall i :: 0 <= i < |a| ==> a[i] <= b[i]
    ensures SumOf(a) <= SumOf(b)
  {
    if a != [] { SumMonotone(a[..|a| - 1], b[..|b| - 1]); }
  }

  /** Records appended since do not change what the prefixes said. */
  lemma {:induction false} PrefixesKeep(logs: seq<seq<Rec>>, longer: seq<seq<Rec>>, cuts: seq<nat>)
    requires |cuts| <= |logs| == |longer| && forall i :: 0 <= i < |cuts| ==> cuts[i] <= |logs[i]|
    requires forall i :: 0 <= i < |logs| ==> logs[i] <= longer[i]
    ensures forall i :: 0 <= i < |cuts| ==> cuts[i] <= |longer[i]|
    ensures MergedPrefixes(longer, cuts) == MergedPrefixes(logs, cuts)
  {
    if cuts != [] {
      var n := |cuts| - 1;
      PrefixesKeep(logs, longer, cuts[..n]);
      assert longer[n][..cuts[n]] == logs[n][..cuts[n]];
    }
  }

  lemma RecordStep(s: State, i: nat, r: Rec)
    requires Inv(s) && i < |s.logs|
    ensures Inv(Apply(s, Record(i, r)))
  {
    var t := Apply(s, Record(i, r));
    assert forall k :: 0 <= k < |s.logs| ==> s.logs[k] <= t.logs[k];
    if s.reading.Some? {
      PrefixesKeep(s.logs, t.logs, s.reading.value.cuts);
    } else {
      SumMonotone(Lengths(s.logs), Lengths(t.logs));
    }
  }

  lemma ReadStep(s: State)
    requires Inv(s) && Enabled(s, ReadShard)
    ensures Inv(Apply(s, ReadShard))
  {
    ReadingGrows(s.logs, s.reading.value);
  }

  lemma ReadingGrows(logs: seq<seq<Rec>>, c: Reading)
    requires ReadingInv(logs, c) && |c.cuts| < |logs|
    ensures var log := logs[|c.cuts|];
            ReadingInv(logs, Reading(Merged(c.agg, BucketOf(log)), c.atStart, c.cuts + [|log|]))
  {
    CutsGrow(logs, c.atStart, c.cuts);
    MergedOneMore(logs, c.cuts);
  }

  lemma CutsGrow(logs: seq<seq<Rec>>, atStart: seq<nat>, cuts: seq<nat>)
    requires CutsInv(logs, atStart, cuts) && |cuts| < |logs|
    ensures CutsInv(logs, atStart, cuts + [|logs[|cuts|]|])
  {
  }

  lemma MergedOneMore(logs: seq<seq<Rec>>, cuts: seq<nat>)
    requires |cuts| < |logs| && forall i :: 0 <= i < |cuts| ==> cuts[i] <= |logs[i]|
    ensures MergedPrefixes(logs, cuts + [|logs[|cuts|]|]) == Merged(MergedPrefixes(logs, cuts), BucketOf(logs[|cuts|]))
  {
    var log := logs[|cuts|];
    MergedSnoc(logs, cuts, |log|);
    assert log[..|log|] == log;
  }

  lemma MergedSnoc(logs: seq<seq<Rec>>, cuts: seq<nat>, cut: nat)
    requires |cuts| < |logs| && cut <= |logs[|cuts|]| && forall i :: 0 <= i < |cuts| ==> cuts[i] <= |logs[i]|
    ensures MergedPrefixes(logs, cuts + [cut]) == Merged(MergedPrefixes(logs, cuts), BucketOf(logs[|cuts|][..cut]))
  {
    var longer := cuts + [cut];
    assert longer[..|longer| - 1] == cuts;
  }

  lemma {:induction false} PrefixTotals(logs: seq<seq<Rec>>, cuts: seq<nat>)
    requires |cuts| <= |logs| && forall i :: 0 <= i < |cuts| ==> cuts[i] <= |logs[i]|
    ensures MergedPrefixes(logs, cuts).Total() == SumOf(cuts)
  {
    if cuts != [] {
      var n := |cuts| - 1;
      PrefixTotals(logs, cuts[..n]);
      BucketCounts(logs[n][..cuts[n]], [], []);
    }
  }

  lemma FinishStep(s: State)
    requires Inv(s) && Enabled(s, Finish)
    ensures Inv(Apply(s, Finish))
    ensures SumOf(s.reading.value.atStart) <= Apply(s, Finish).history[|s.history|].total <= SumOf(Lengths(s.logs))
  {
    ReadIsBetween(s.logs, s.reading.value);
    HistoryGrows(s.history, s.reading.value.agg, SumOf(s.reading.value.atStart), SumOf(Lengths(s.logs)));
  }

  /** A read of all shards has seen at least what was there when it began, and no more than is there. */
  lemma ReadIsBetween(logs: seq<seq<Rec>>, c: Reading)
    requires ReadingInv(logs, c) && |c.cuts| == |logs|
    ensures SumOf(c.atStart) <= c.agg.Total() <= SumOf(Lengths(logs))
  {
    PrefixTotals(logs, c.cuts);
    SumMonotone(c.atStart, c.cuts);
    SumMonotone(c.cuts, Lengths(logs));
  }

  lemma HistoryGrows(history: seq<Point>, b: Bucket, low: int, high: int)
    requires HistoryInv(history, low) && low <= b.Total() <= high
    ensures HistoryInv(history + [PointOf(b, history)], high)
  {
    var longer := history + [PointOf(b, history)];
    assert longer[..|longer| - 1] == history;
  }

  lemma StepKeepsInv(s: State, step: Step)
    requires Inv(s) && Enabled(s, step)
    ensures Inv(Apply(s, step))
  {
    match step
    case Record(i, r) => RecordStep(s, i, r);
    case Begin =>
    case ReadShard => ReadStep(s);
    case Finish => FinishStep(s);
  }

  lemma {:induction false} RunKeepsInv(s: State, run: seq<Step>)
    requires Inv(s) && Valid(s, run)
    ensures Inv(Exec(s, run))
    decreases |run|
  {
    if run != [] {
      StepKeepsInv(s, run[0]);
      RunKeepsInv(Apply(s, run[0]), run[1..]);
    }
  }

  // ---------------------------------------------------------------- main results

  function TrueTotal(s: State): nat { SumOf(Lengths(s.logs)) }

  /** In every interleaving successive snapshots report non-decreasing totals, each total is its
      successes plus its failures, and the request deltas add up to the last total, which never
      exceeds what was recorded. */
  lemma HistoryIsConsistent(run: seq<Step>)
    requires Valid(Init(), run)
    ensures var h := Exec(Init(), run).history;
            && (forall i :: 0 <= i < |h| ==> h[i].total == h[i].successes + h[i].failures)
            && (forall i, j :: 0 <= i < j < |h| ==> h[i].total <= h[j].total)
            && (h != [] ==> SumDeltas(h) == h[|h| - 1].total <= TrueTotal(Exec(Init(), run)))
  {
    RunKeepsInv(Init(), run);
    var s := Exec(Init(), run);
    if s.reading.Some? { SumMonotone(s.reading.value.atStart, Lengths(s.logs)); }
    forall i, j | 0 <= i < j < |s.history| ensures s.history[i].total <= s.history[j].total {
      Nondecreasing(s.history, i, j);
    }
  }

  lemma {:induction false} Nondecreasing(h: seq<Point>, i: nat, j: nat)
    requires forall k :: 0 < k < |h| ==> h[k - 1].total <= h[k].total
    requires i < j < |h|
    ensures h[i].total <= h[j].total
    decreases j - i
  {
    if i + 1 < j { Nondecreasing(h, i, j - 1); }
    assert h[j - 1].total <= h[j].total;
  }

  /** The steps of one read and of any recording meanwhile. */
  predicate WhileReading(run: seq<Step>) { forall step <- run :: step.Record? || step.ReadShard? }

  lemma {:induction false} LogsGrow(s: State, run: seq<Step>)
    requires Valid(s, run)
    ensures |Exec(s, run).logs| == |s.logs|
    ensures forall i :: 0 <= i < |s.logs| ==> s.logs[i] <= Exec(s, run).logs[i]
    ensures WhileReading(run) ==>
              && Exec(s, run).history == s.history
              && (s.reading.Some? ==>
                    Exec(s, run).reading.Some? && Exec(s, run).reading.value.atStart == s.reading.value.atStart)
    decreases |run|
  {
    if run != [] {
      var t := Apply(s, run[0]);
      LogsGrow(t, run[1..]);
      assert forall step <- run[1..] :: step in run;
      assert run[0] in run;
      assert forall i :: 0 <= i < |s.logs| ==> s.logs[i] <= t.logs[i];
    }
  }

  lemma ReadEnds(s: State, run: seq<Step>)
    requires Inv(s) && Enabled(s, Begin)
    requires WhileReading(run) && Valid(Apply(s, Begin), run)
    ensures var t := Exec(Apply(s, Begin), run);
            && Inv(t) && |t.logs| == |s.logs|
            && t.reading.Some? && t.reading.value.atStart == Lengths(s.logs)
  {
    StepKeepsInv(s, Begin);
    RunKeepsInv(Apply(s, Begin), run);
    LogsGrow(Apply(s, Begin), run);
  }

  /** A snapshot's total lies between the true totals at its start and at its end. */
  lemma SnapshotTotalIsBetween(s: State, run: seq<Step>)
    requires Inv(s) && Enabled(s, Begin)
    requires WhileReading(run) && Valid(Apply(s, Begin), run)
    requires Enabled(Exec(Apply(s, Begin), run), Finish)
    ensures var t := Exec(Apply(s, Begin), run);
            TrueTotal(s) <= Apply(t, Finish).history[|t.history|].total <= TrueTotal(t)
  {
    ReadEnds(s, run);
    FinishStep(Exec(Apply(s, Begin), run));
  }

  /** One cut for each shard, after the first log and within the second. */
  predicate CutBetween(before: seq<seq<Rec>>, cuts: seq<nat>, after: seq<seq<Rec>>)
  {
    && |before| == |cuts| == |after|
    && forall i :: 0 <= i < |cuts| ==> |before[i]| <= cuts[i] <= |after[i]|
  }

  /** A snapshot is the merge of one prefix of each shard's log: every record made before it began
      is in it, none made after it ended, and each shard is seen at one moment. */
  lemma SnapshotSeesPrefixes(s: State, run: seq<Step>) returns (cuts: seq<nat>)
    requires Inv(s) && Enabled(s, Begin)
    requires WhileReading(run) && Valid(Apply(s, Begin), run)
    requires Enabled(Exec(Apply(s, Begin), run), Finish)
    ensures var t := Exec(Apply(s, Begin), run);
            CutBetween(s.logs, cuts, t.logs) && t.reading.value.agg == MergedPrefixes(t.logs, cuts)
  {
    ReadEnds(s, run);
    var t := Exec(Apply(s, Begin), run);
    cuts := t.reading.value.cuts;
    CutsAreBetween(s.logs, t.logs, t.reading.value);
  }

  lemma CutsAreBetween(before: seq<seq<Rec>>, logs: seq<seq<Rec>>, c: Reading)
    requires CutsInv(logs, c.atStart, c.cuts) && c.atStart == Lengths(before) && |before| == |logs| == |c.cuts|
    ensures CutBetween(before, c.cuts, logs)
  {
  }

  predicate CutsFit(logs: seq<seq<Rec>>, cuts: seq<nat>)
  {
    |cuts| <= |logs| && forall i :: 0 <= i < |cuts| ==> cuts[i] <= |logs[i]|
  }

  /** How many of these records are failures, or successes. */
  function Outcomes(recs: seq<Rec>, failed: bool): (n: nat)
  {
    if recs == [] then 0
    else Outcomes(recs[..|recs| - 1], failed) + if recs[|recs| - 1].failed == failed then 1 else 0
  }

  /** How many of the records in these prefixes. */
  function OutcomesIn(logs: seq<seq<Rec>>, cuts: seq<nat>, failed: bool): (n: nat)
    requires CutsFit(logs, cuts)
  {
    if cuts == [] then 0
    else
      var n := |cuts| - 1;
      OutcomesIn(logs, cuts[..n], failed) + Outcomes(logs[n][..cuts[n]], failed)
  }

  lemma {:induction false} OutcomesAddUp(recs: seq<Rec>)
    ensures BucketOf(recs).core.successes == Outcomes(recs, false)
    ensures BucketOf(recs).core.failures == Outcomes(recs, true)
  {
    if recs != [] { OutcomesAddUp(recs[..|recs| - 1]); }
  }

  lemma {:induction false} PrefixOutcomes(logs: seq<seq<Rec>>, cuts: seq<nat>)
    requires CutsFit(logs, cuts)
    ensures MergedPrefixes(logs, cuts).core.successes == OutcomesIn(logs, cuts, false)
    ensures MergedPrefixes(logs, cuts).core.failures == OutcomesIn(logs, cuts, true)
  {
    if cuts != [] {
      var n := |cuts| - 1;
      PrefixOutcomes(logs, cuts[..n]);
      OutcomesAddUp(logs[n][..cuts[n]]);
    }
  }

  /** The successes and the failures in these prefixes, and how many more requests than the last total. */
  predicate CountsPrefixes(p: Point, history: seq<Point>, logs: seq<seq<Rec>>, cuts: seq<nat>)
    requires CutsFit(logs, cuts)
  {
    && p.successes == OutcomesIn(logs, cuts, false)
    && p.failures == OutcomesIn(logs, cuts, true)
    && p.total == p.successes + p.failures
    && p.delta == p.total - if history == [] then 0 else history[|history| - 1].total
  }

  lemma PointOfPrefixes(history: seq<Point>, logs: seq<seq<Rec>>, cuts: seq<nat>)
    requires CutsFit(logs, cuts)
    ensures CountsPrefixes(PointOf(MergedPrefixes(logs, cuts), history), history, logs, cuts)
  {
    PrefixOutcomes(logs, cuts);
  }

  lemma ReadLeavesHistory(s: State, run: seq<Step>)
    requires Enabled(s, Begin) && WhileReading(run) && Valid(Apply(s, Begin), run)
    ensures Exec(Apply(s, Begin), run).history == s.history
  {
    LogsGrow(Apply(s, Begin), run);
  }

  /** The point a snapshot adds to the history counts the successes and the failures in the prefixes it read,
      and the requests since the point before. */
  lemma PointCountsPrefixes(s: State, run: seq<Step>) returns (cuts: seq<nat>, point: Point)
    requires Inv(s) && Enabled(s, Begin)
    requires WhileReading(run) && Valid(Apply(s, Begin), run)
    requires Enabled(Exec(Apply(s, Begin), run), Finish)
    ensures var t := Exec(Apply(s, Begin), run);
            && CutBetween(s.logs, cuts, t.logs) && CutsFit(t.logs, cuts)
            && Apply(t, Finish).history == s.history + [point]
            && CountsPrefixes(point, s.history, t.logs, cuts)
  {
    cuts := SnapshotSeesPrefixes(s, run);
    ReadLeavesHistory(s, run);
    point := FinishedPoint(Exec(Apply(s, Begin), run), cuts);
  }

  lemma FinishedPoint(t: State, cuts: seq<nat>) returns (point: Point)
    requires Enabled(t, Finish) && CutsFit(t.logs, cuts) && t.reading.value.agg == MergedPrefixes(t.logs, cuts)
    ensures Apply(t, Finish).history == t.history + [point]
    ensures CountsPrefixes(point, t.history, t.logs, cuts)
  {
    point := PointOf(t.reading.value.agg, t.history);
    PointOfPrefixes(t.history, t.logs, cuts);
  }

  /** What was recorded into shard `i` in this run, in order. */
  function RecordedIn(run: seq<Step>, i: nat): (recs: seq<Rec>)
  {
    if run == [] then [] else (if run[0].Record? && run[0].i == i then [run[0].r] else []) + RecordedIn(run[1..], i)
  }

  /** Each shard's log is what was recorded into it: reading never loses or adds a record. */
  lemma {:induction false} LogsAreTheRecords(s: State, run: seq<Step>, i: nat)
    requires Valid(s, run) && i < |s.logs|
    ensures |Exec(s, run).logs| == |s.logs| && Exec(s, run).logs[i] == s.logs[i] + RecordedIn(run, i)
    decreases |run|
  {
    if run != [] {
      RecordedAtOnce(s, run[0], i);
      LogsAreTheRecords(Apply(s, run[0]), run[1..], i);
      Associate(s.logs[i], RecordedIn([run[0]], i), RecordedIn(run[1..], i));
    }
  }

  lemma RecordedAtOnce(s: State, step: Step, i: nat)
    requires Enabled(s, step) && i < |s.logs|
    ensures |Apply(s, step).logs| == |s.logs| && Apply(s, step).logs[i] == s.logs[i] + RecordedIn([step], i)
    ensures RecordedIn([step], i) == if step.Record? && step.i == i then [step.r] else []
  {
    assert [step][1..] == [];
  }

  lemma Associate(a: seq<Rec>, b: seq<Rec>, c: seq<Rec>)
    ensures a + b + c == a + (b + c)
  {
  }
}
