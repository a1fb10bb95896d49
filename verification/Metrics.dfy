/** The sharded statistics of internal/metrics/collector.go: requests are recorded into one of 32
    locked buckets, and a read merges the buckets one after another. Here: one bucket, recording
    and merging, as the code's mutable objects and as values, and the proof that the shards
    together are one bucket that recorded everything. The histogram is the multiset of the
    clamped microsecond values it was given. */
module Metrics {
  const NUM_SHARDS: nat := 32
  const LOWEST := 1
  const HIGHEST := 60_000_000

  type ShardIndex = k: nat | k < NUM_SHARDS

  /** One measurement: latency in nanoseconds, the error flag, and the labels of a failure. */
  datatype Rec = Rec(latency: int, failed: bool, protocol: string, status: string)

  /** How often each (protocol, status) pair was counted. */
  type Counts = multiset<(string, string)>

  /** Everything a bucket holds except the minimum latency. */
  datatype Core = Core(
    hist: multiset<int>, successes: int, failures: int, maxLatency: int, sumLatency: int, status: Counts)

  datatype Bucket = Bucket(core: Core, minLatency: int) {
    function Total(): int { core.successes + core.failures }
  }

  const EMPTY := Bucket(Core(multiset{}, 0, 0, 0, 0, multiset{}), 0)

  // ---------------------------------------------------------------- what the operations mean

  function Clamped(latency: int): int
  {
    var us := latency / 1000;
    if us < LOWEST then LOWEST else if us > HIGHEST then HIGHEST else us
  }

  function Timed(hist: multiset<int>, latency: int): multiset<int>
  {
    if latency > 0 then hist + multiset{Clamped(latency)} else hist
  }

  function Labelled(status: Counts, r: Rec): Counts
  {
    if r.failed && r.protocol != [] && r.status != [] then status + multiset{(r.protocol, r.status)} else status
  }

  function Max(a: int, b: int): int { if b > a then b else a }

  /** Zero stands for "no minimum yet". */
  function LesserSet(a: int, b: int): int
  {
    if b > 0 && (a == 0 || b < a) then b else a
  }

  function RecordedCore(c: Core, r: Rec): Core
  {
    Core(Timed(c.hist, r.latency),
         c.successes + if r.failed then 0 else 1,
         c.failures + if r.failed then 1 else 0,
         Max(c.maxLatency, r.latency), c.sumLatency + r.latency, Labelled(c.status, r))
  }

  function RecordedMin(min: int, latency: int): int
  {
    if min == 0 || latency < min then latency else min
  }

  function Recorded(b: Bucket, r: Rec): Bucket
  {
    Bucket(RecordedCore(b.core, r), RecordedMin(b.minLatency, r.latency))
  }

  function MergedCore(a: Core, b: Core): Core
  {
    Core(a.hist + b.hist, a.successes + b.successes, a.failures + b.failures,
         Max(a.maxLatency, b.maxLatency), a.sumLatency + b.sumLatency, a.status + b.status)
  }

  function Merged(a: Bucket, b: Bucket): Bucket
  {
    Bucket(MergedCore(a.core, b.core), LesserSet(a.minLatency, b.minLatency))
  }

  /** One bucket that recorded everything. */
  function BucketOf(recs: seq<Rec>): (b: Bucket)
  {
    if recs == [] then EMPTY else Recorded(BucketOf(recs[..|recs| - 1]), recs[|recs| - 1])
  }

  function MergeAll(shards: seq<Bucket>): (b: Bucket)
  {
    if shards == [] then EMPTY else Merged(MergeAll(shards[..|shards| - 1]), shards[|shards| - 1])
  }

  // ---------------------------------------------------------------- the mutable bucket

  class StatsBucket {
    var hist: multiset<int>
    var successes: int
    var failures: int
    var minLatency: int
    var maxLatency: int
    var sumLatency: int
    var statusBuckets: map<string, map<string, nat>>
    ghost var status: Counts

    /** The nested tables hold the counts of `status`. */
    ghost predicate Valid()
      reads this`statusBuckets, this`status
    {
      forall p, c :: status[(p, c)] == Looked(statusBuckets, p, c)
    }

    ghost function Value(): Bucket
      reads this
    {
      Bucket(Core(hist, successes, failures, maxLatency, sumLatency, status), minLatency)
    }

    constructor ()
      ensures Valid() && Value() == EMPTY
    {
      hist, successes, failures := multiset{}, 0, 0;
      minLatency, maxLatency, sumLatency := 0, 0, 0;
      statusBuckets, status := map[], multiset{};
    }

    method RecordStatusCount(protocol: string, statusCode: string, count: nat)
      requires Valid()
      modifies this`statusBuckets, this`status
      ensures Valid()
      ensures status == old(status)[(protocol, statusCode) := old(status)[(protocol, statusCode)] + count]
    {
      if protocol !in statusBuckets {
        statusBuckets := statusBuckets[protocol := map[]];
      }
      var inner: map<string, nat> := statusBuckets[protocol];
      var next: nat := count + if statusCode in inner then inner[statusCode] else 0;
      inner := inner[statusCode := next];
      statusBuckets := statusBuckets[protocol := inner];
      status := status[(protocol, statusCode) := status[(protocol, statusCode)] + count];
    }

    method RecordStatus(protocol: string, statusCode: string)
      requires Valid()
      modifies this`statusBuckets, this`status
      ensures Valid() && status == old(status) + multiset{(protocol, statusCode)}
    {
      RecordStatusCount(protocol, statusCode, 1);
    }

    /** The part of recording that does not depend on the outcome. */
    method RecordLatency(latency: int)
      modifies this`hist, this`sumLatency, this`minLatency, this`maxLatency
      ensures hist == Timed(old(hist), latency) && sumLatency == old(sumLatency) + latency
      ensures minLatency == RecordedMin(old(minLatency), latency) && maxLatency == Max(old(maxLatency), latency)
    {
      if latency > 0 {
        var us := latency / 1000;
        if us < LOWEST {
          us := LOWEST;
        }
        if us > HIGHEST {
          us := HIGHEST;
        }
        hist := hist + multiset{us};
      }
      sumLatency := sumLatency + latency;
      if minLatency == 0 || latency < minLatency {
        minLatency := latency;
      }
      if latency > maxLatency {
        maxLatency := latency;
      }
    }

    method Record(r: Rec)
      requires Valid()
      modifies this
      ensures Valid() && Value() == Recorded(old(Value()), r)
    {
      RecordLatency(r.latency);
      if !r.failed {
        successes := successes + 1;
        return;
      }
      failures := failures + 1;
      if r.protocol != [] && r.status != [] {
        RecordStatus(r.protocol, r.status);
      }
    }

    /** Adds one protocol's counters; `part` is what they come to. */
    method MergeProtocol(protocol: string, buckets: map<string, nat>) returns (ghost part: Counts)
      requires Valid()
      modifies this`statusBuckets, this`status
      ensures Valid() && status == old(status) + part
      ensures forall p, c :: part[(p, c)] == if p == protocol && c in buckets then buckets[c] else 0
    {
      part := multiset{};
      var statuses := buckets.Keys;
      while statuses != {}
        invariant Valid() && statuses <= buckets.Keys && status == old(status) + part
        invariant forall p, c ::
            part[(p, c)] == if p == protocol && c in buckets && c !in statuses then buckets[c] else 0
      {
        var c :| c in statuses;
        RecordStatusCount(protocol, c, buckets[c]);
        part := part[(protocol, c) := buckets[c]];
        statuses := statuses - {c};
      }
    }

    method MergeStatus(other: StatsBucket)
      requires other != this && Valid() && other.Valid()
      modifies this`statusBuckets, this`status
      ensures Valid() && status == old(status) + other.status
    {
      ghost var added: Counts := multiset{};
      var protocols := other.statusBuckets.Keys;
      while protocols != {}
        invariant Valid() && protocols <= other.statusBuckets.Keys && status == old(status) + added
        invariant forall p, c :: added[(p, c)] == if p in protocols then 0 else other.status[(p, c)]
      {
        var p :| p in protocols;
        ghost var part := MergeProtocol(p, other.statusBuckets[p]);
        added := added + part;
        protocols := protocols - {p};
      }
      forall k ensures added[k] == other.status[k] {
        assert k == (k.0, k.1);
      }
      assert added == other.status;
    }

    method MergeLatencies(other: StatsBucket)
      modifies this`hist, this`sumLatency, this`minLatency, this`maxLatency
      ensures hist == old(hist) + old(other.hist) && sumLatency == old(sumLatency) + old(other.sumLatency)
      ensures minLatency == LesserSet(old(minLatency), old(other.minLatency))
      ensures maxLatency == Max(old(maxLatency), old(other.maxLatency))
    {
      sumLatency := sumLatency + other.sumLatency;
      if other.minLatency > 0 {
        if minLatency == 0 || other.minLatency < minLatency {
          minLatency := other.minLatency;
        }
      }
      if other.maxLatency > maxLatency {
        maxLatency := other.maxLatency;
      }
      hist := hist + other.hist;
    }

    method Merge(other: StatsBucket)
      requires other != this && Valid() && other.Valid()
      modifies this
      ensures Valid() && Value() == Merged(old(Value()), other.Value())
    {
      successes := successes + other.successes;
      failures := failures + other.failures;
      MergeLatencies(other);
      MergeStatus(other);
    }
  }

  function Looked(tables: map<string, map<string, nat>>, p: string, c: string): nat
  {
    if p in tables && c in tables[p] then tables[p][c] else 0
  }

  // ---------------------------------------------------------------- the sharded statistics

  class ShardedStats {
    const shards: seq<StatsBucket>

    ghost predicate Valid()
      reads shards
    {
      && |shards| == NUM_SHARDS
      && (forall i, j :: 0 <= i < j < |shards| ==> shards[i] != shards[j])
      && (forall i :: 0 <= i < |shards| ==> shards[i].Valid())
    }

    ghost function Values(): seq<Bucket>
      reads shards
    {
      seq(|shards|, i requires 0 <= i < |shards| reads shards => shards[i].Value())
    }

    constructor ()
      ensures Valid() && fresh(shards)
      ensures Values() == Empties(NUM_SHARDS)
    {
      var all: seq<StatsBucket> := [];
      for i := 0 to NUM_SHARDS
        invariant |all| == i
        invariant forall j :: 0 <= j < i ==> fresh(all[j]) && all[j].Valid() && all[j].Value() == EMPTY
        invariant forall j, k :: 0 <= j < k < i ==> all[j] != all[k]
      {
        var b := new StatsBucket();
        all := all + [b];
      }
      shards := all;
    }

    /** `at` is the shard the random number picked. */
    method Record(r: Rec, at: ShardIndex)
      requires Valid()
      modifies shards[at]
      ensures Valid()
      ensures Values() == old(Values())[at := Recorded(old(Values())[at], r)]
    {
      shards[at].Record(r);
    }

    /** The merge loop of a read while nobody records. */
    method MergeShards() returns (agg: StatsBucket)
      requires Valid()
      ensures fresh(agg) && agg.Valid() && agg.Value() == MergeAll(Values())
    {
      ghost var values := Values();
      agg := new StatsBucket();
      for i := 0 to |shards|
        invariant agg.Valid() && fresh(agg) && Valid() && Values() == values
        invariant agg.Value() == MergeAll(values[..i])
      {
        MergeNext(values, i);
        agg.Merge(shards[i]);
      }
      assert values[..|shards|] == values;
    }
  }

  lemma MergeNext(shards: seq<Bucket>, i: nat)
    requires i < |shards|
    ensures MergeAll(shards[..i + 1]) == Merged(MergeAll(shards[..i]), shards[i])
  {
    assert shards[..i + 1][..i] == shards[..i];
  }

  // ---------------------------------------------------------------- shards add up to one bucket

  lemma MergeThenRecord(a: Core, b: Core, r: Rec)
    ensures MergedCore(a, RecordedCore(b, r)) == RecordedCore(MergedCore(a, b), r)
  {
    assert a.status + (b.status + multiset{(r.protocol, r.status)})
        == a.status + b.status + multiset{(r.protocol, r.status)};
    assert a.hist + (b.hist + multiset{Clamped(r.latency)}) == a.hist + b.hist + multiset{Clamped(r.latency)};
  }

  lemma RecordThenMerge(a: Core, b: Core, r: Rec)
    ensures MergedCore(RecordedCore(a, r), b) == RecordedCore(MergedCore(a, b), r)
  {
    assert a.status + multiset{(r.protocol, r.status)} + b.status
        == a.status + b.status + multiset{(r.protocol, r.status)};
    assert a.hist + multiset{Clamped(r.latency)} + b.hist == a.hist + b.hist + multiset{Clamped(r.latency)};
  }

  /** A new record reaches the merged bucket whichever shard takes it. */
  lemma {:induction false} RecordThroughShard(shards: seq<Bucket>, i: nat, r: Rec)
    requires i < |shards|
    ensures MergeAll(shards[i := Recorded(shards[i], r)]).core == RecordedCore(MergeAll(shards).core, r)
  {
    var n := |shards| - 1;
    var t := shards[i := Recorded(shards[i], r)];
    var front, last := MergeAll(shards[..n]).core, shards[n].core;
    CoreOfLast(shards);
    CoreOfLast(t);
    if i < n {
      assert t[..n] == shards[..n][i := Recorded(shards[i], r)];
      RecordThroughShard(shards[..n], i, r);
      RecordThenMerge(front, last, r);
    } else {
      assert t[..n] == shards[..n];
      MergeThenRecord(front, last, r);
    }
  }

  lemma CoreOfLast(shards: seq<Bucket>)
    requires shards != []
    ensures var n := |shards| - 1; MergeAll(shards).core == MergedCore(MergeAll(shards[..n]).core, shards[n].core)
  {
  }

  /** The same for the minimum, as long as latencies are positive. */
  lemma {:induction false} MinimumThroughShard(shards: seq<Bucket>, i: nat, latency: int)
    requires i < |shards| && latency > 0 && forall b <- shards :: b.minLatency >= 0
    ensures var b := shards[i].(minLatency := RecordedMin(shards[i].minLatency, latency));
            MergeAll(shards[i := b]).minLatency == RecordedMin(MergeAll(shards).minLatency, latency)
    ensures MergeAll(shards).minLatency >= 0
  {
    var n := |shards| - 1;
    MergedMinNonNegative(shards[..n]);
    LesserRecorded(MergeAll(shards[..n]).minLatency, shards[n].minLatency, latency);
    MinOfLast(shards);
    if i < n {
      MinimumThroughShard(shards[..n], i, latency);
    }
    var b := shards[i].(minLatency := RecordedMin(shards[i].minLatency, latency));
    var t := shards[i := b];
    MinOfLast(t);
    assert t[..n] == if i < n then shards[..n][i := b] else shards[..n];
  }

  lemma MinOfLast(shards: seq<Bucket>)
    requires shards != []
    ensures var n := |shards| - 1;
            MergeAll(shards).minLatency == LesserSet(MergeAll(shards[..n]).minLatency, shards[n].minLatency)
  {
  }

  /** A positive latency lowers the lesser of two minima, whichever of them it was recorded under. */
  lemma LesserRecorded(a: int, b: int, latency: int)
    requires a >= 0 && b >= 0 && latency > 0
    ensures LesserSet(RecordedMin(a, latency), b) == RecordedMin(LesserSet(a, b), latency)
    ensures LesserSet(a, RecordedMin(b, latency)) == RecordedMin(LesserSet(a, b), latency)
    ensures LesserSet(a, b) >= 0
  {
  }

  lemma {:induction false} MergedMinNonNegative(shards: seq<Bucket>)
    requires forall b <- shards :: b.minLatency >= 0
    ensures MergeAll(shards).minLatency >= 0
  {
    if shards != [] {
      MergedMinNonNegative(shards[..|shards| - 1]);
    }
  }

  function Empties(n: nat): (shards: seq<Bucket>)
    ensures |shards| == n && forall i :: 0 <= i < n ==> shards[i] == EMPTY
  {
    if n == 0 then [] else Empties(n - 1) + [EMPTY]
  }

  lemma MergeSnoc(shards: seq<Bucket>, last: Bucket)
    ensures MergeAll(shards + [last]) == Merged(MergeAll(shards), last)
  {
    assert (shards + [last])[..|shards|] == shards;
  }

  lemma {:induction false} EmptyShards(n: nat)
    ensures MergeAll(Empties(n)) == EMPTY
  {
    if n > 0 {
      EmptyShards(n - 1);
      OneMoreEmpty(Empties(n - 1));
    }
  }

  lemma OneMoreEmpty(shards: seq<Bucket>)
    requires MergeAll(shards) == EMPTY
    ensures MergeAll(shards + [EMPTY]) == EMPTY
  {
    MergeSnoc(shards, EMPTY);
    MergeNothing();
  }

  /** The 32 shards after recording `recs`, record `k` going to shard `where[k]`. */
  function ShardedRun(recs: seq<Rec>, where: seq<ShardIndex>): (shards: seq<Bucket>)
    requires |recs| == |where|
    ensures |shards| == NUM_SHARDS
  {
    if recs == [] then Empties(NUM_SHARDS)
    else
      var n := |recs| - 1;
      var before := ShardedRun(recs[..n], where[..n]);
      before[where[n] := Recorded(before[where[n]], recs[n])]
  }

  predicate Positive(recs: seq<Rec>) { forall r <- recs :: r.latency > 0 }

  lemma MergeNothing()
    ensures Merged(EMPTY, EMPTY) == EMPTY
  {
    assert EMPTY.core.hist + EMPTY.core.hist == EMPTY.core.hist;
    assert EMPTY.core.status + EMPTY.core.status == EMPTY.core.status;
  }

  /** The shards together are the bucket that recorded everything: successes, failures, latency sum and
      maximum, histogram and status counts for all latencies, and the minimum too when the latencies
      are positive. */
  predicate AddUpTo(shards: seq<Bucket>, recs: seq<Rec>)
  {
    && MergeAll(shards).core == BucketOf(recs).core
    && (Positive(recs) ==> MergeAll(shards) == BucketOf(recs) && forall b <- shards :: b.minLatency >= 0)
  }

  /** One more record keeps it so, whichever shard takes it. */
  lemma RecordAddsUp(shards: seq<Bucket>, at: nat, recs: seq<Rec>, r: Rec)
    requires at < |shards| && AddUpTo(shards, recs)
    ensures AddUpTo(shards[at := Recorded(shards[at], r)], recs + [r])
  {
    RecordThroughShard(shards, at, r);
    Snoc(recs, r);
    if Positive(recs + [r]) {
      assert forall q <- recs :: q in recs + [r];
      assert r in recs + [r];
      MinimumThroughShard(shards, at, r.latency);
      SameMinimum(shards, at, r);
    }
  }

  /** Whatever shards the random numbers pick, the shards merged are the bucket that recorded
      everything. */
  lemma {:induction false} ShardsAddUp(recs: seq<Rec>, where: seq<ShardIndex>)
    requires |recs| == |where|
    ensures AddUpTo(ShardedRun(recs, where), recs)
  {
    if recs == [] {
      EmptyShards(NUM_SHARDS);
    } else {
      var n := |recs| - 1;
      ShardsAddUp(recs[..n], where[..n]);
      var before := ShardedRun(recs[..n], where[..n]);
      RecordAddsUp(before, where[n], recs[..n], recs[n]);
      assert recs[..n] + [recs[n]] == recs;
      assert ShardedRun(recs, where) == before[where[n] := Recorded(before[where[n]], recs[n])];
    }
  }

  lemma {:induction false} SameMinima(a: seq<Bucket>, b: seq<Bucket>)
    requires |a| == |b| && forall i :: 0 <= i < |a| ==> a[i].minLatency == b[i].minLatency
    ensures MergeAll(a).minLatency == MergeAll(b).minLatency
  {
    if a != [] { SameMinima(a[..|a| - 1], b[..|b| - 1]); }
  }

  lemma SameMinimum(shards: seq<Bucket>, i: nat, r: Rec)
    requires i < |shards|
    ensures MergeAll(shards[i := Recorded(shards[i], r)]).minLatency ==
            MergeAll(shards[i := shards[i].(minLatency := RecordedMin(shards[i].minLatency, r.latency))]).minLatency
  {
    SameMinima(shards[i := Recorded(shards[i], r)],
               shards[i := shards[i].(minLatency := RecordedMin(shards[i].minLatency, r.latency))]);
  }

  // ---------------------------------------------------------------- recording order

  lemma RecordsCommute(c: Core, q: Rec, r: Rec)
    ensures RecordedCore(RecordedCore(c, q), r) == RecordedCore(RecordedCore(c, r), q)
  {
    TimedCommutes(c.hist, q.latency, r.latency);
    LabelledCommutes(c.status, q, r);
  }

  lemma TimedCommutes(hist: multiset<int>, a: int, b: int)
    ensures Timed(Timed(hist, a), b) == Timed(Timed(hist, b), a)
  {
    var u, v := multiset{Clamped(a)}, multiset{Clamped(b)};
    assert hist + u + v == hist + v + u;
  }

  lemma LabelledCommutes(status: Counts, q: Rec, r: Rec)
    ensures Labelled(Labelled(status, q), r) == Labelled(Labelled(status, r), q)
  {
    var p, s := multiset{(q.protocol, q.status)}, multiset{(r.protocol, r.status)};
    assert status + p + s == status + s + p;
  }

  lemma Snoc(recs: seq<Rec>, r: Rec)
    ensures BucketOf(recs + [r]) == Recorded(BucketOf(recs), r)
  {
    assert (recs + [r])[..|recs|] == recs;
  }

  /** A record in the middle counts as if it came last. */
  lemma {:induction false} CoreTakesAnyOrder(a: seq<Rec>, r: Rec, b: seq<Rec>)
    ensures BucketOf(a + [r] + b).core == RecordedCore(BucketOf(a + b).core, r)
  {
    if b == [] {
      assert a + [r] + b == a + [r] && a + b == a;
      Snoc(a, r);
    } else {
      var front, last := b[..|b| - 1], b[|b| - 1];
      assert a + [r] + b == a + [r] + front + [last] && a + b == a + front + [last];
      Snoc(a + [r] + front, last);
      Snoc(a + front, last);
      CoreTakesAnyOrder(a, r, front);
      RecordsCommute(BucketOf(a + front).core, r, last);
    }
  }

  lemma {:induction false} MinimumTakesAnyOrder(a: seq<Rec>, r: Rec, b: seq<Rec>)
    requires Positive(a) && r.latency > 0 && Positive(b)
    ensures BucketOf(a + [r] + b).minLatency == RecordedMin(BucketOf(a + b).minLatency, r.latency)
  {
    if b == [] {
      assert a + [r] + b == a + [r] && a + b == a;
      Snoc(a, r);
    } else {
      var front, last := b[..|b| - 1], b[|b| - 1];
      assert a + [r] + b == a + [r] + front + [last] && a + b == a + front + [last];
      assert last in b;
      Snoc(a + [r] + front, last);
      Snoc(a + front, last);
      MinimumTakesAnyOrder(a, r, front);
    }
  }

  /** The order of recording does not matter: not at all for the core, and for the minimum not
      between positive latencies. */
  lemma {:induction false} AnyOrderRecordsTheSame(a: seq<Rec>, b: seq<Rec>)
    requires multiset(a) == multiset(b)
    ensures BucketOf(a).core == BucketOf(b).core
    ensures Positive(a) ==> BucketOf(a) == BucketOf(b)
    decreases |a|
  {
    if a == [] {
      assert |multiset(b)| == 0;
    } else {
      var front, r := a[..|a| - 1], a[|a| - 1];
      var left, right := Around(a, b);
      AnyOrderRecordsTheSame(front, left + right);
      CoreTakesAnyOrder(left, r, right);
      if Positive(a) {
        forall q | q in b ensures q.latency > 0 { assert q in multiset(b) && q in multiset(a); }
        assert forall q <- left :: q in b;
        assert forall q <- right :: q in b;
        assert r in a;
        MinimumTakesAnyOrder(left, r, right);
      }
    }
  }

  /** The last record of `a` somewhere in `b`, and what surrounds it. */
  lemma Around(a: seq<Rec>, b: seq<Rec>) returns (left: seq<Rec>, right: seq<Rec>)
    requires a != [] && multiset(a) == multiset(b)
    ensures b == left + [a[|a| - 1]] + right
    ensures multiset(a[..|a| - 1]) == multiset(left + right)
  {
    var r := a[|a| - 1];
    assert a == a[..|a| - 1] + [r];
    assert r in multiset(a);
    assert r in multiset(b);
    var i :| 0 <= i < |b| && b[i] == r;
    left, right := b[..i], b[i + 1..];
    assert b == left + [r] + right;
    assert multiset(b) == multiset(left) + multiset{r} + multiset(right);
    Cancel(multiset(a[..|a| - 1]), multiset(left + right), r);
  }

  lemma Cancel(x: multiset<Rec>, y: multiset<Rec>, r: Rec)
    requires x + multiset{r} == y + multiset{r}
    ensures x == y
  {
    assert x == x + multiset{r} - multiset{r} && y == y + multiset{r} - multiset{r};
  }

  // ---------------------------------------------------------------- what a bucket says

  function Number(recs: seq<Rec>, counts: Rec -> bool): (n: nat)
  {
    if recs == [] then 0
    else Number(recs[..|recs| - 1], counts) + if counts(recs[|recs| - 1]) then 1 else 0
  }

  function SumLatencies(recs: seq<Rec>): int
  {
    if recs == [] then 0 else SumLatencies(recs[..|recs| - 1]) + recs[|recs| - 1].latency
  }

  predicate CountedAs(r: Rec, p: string, c: string) { r.failed && r.protocol == p && r.status == c }

  /** The counters of a bucket, told without recording: one count per request, by outcome and by
      failure label, one histogram entry per positive latency. */
  lemma {:induction false} BucketCounts(recs: seq<Rec>, p: string, c: string)
    ensures var b := BucketOf(recs);
            && b.Total() == |recs|
            && b.core.failures == Number(recs, (r: Rec) => r.failed)
            && b.core.sumLatency == SumLatencies(recs)
            && |b.core.hist| == Number(recs, (r: Rec) => r.latency > 0)
            && b.core.status[(p, c)] == if p == [] || c == [] then 0 else Number(recs, (r: Rec) => CountedAs(r, p, c))
  {
    if recs != [] { BucketCounts(recs[..|recs| - 1], p, c); }
  }

  /** The histogram value `v` stands for this latency: whole microseconds, from 1 to one minute, with
      everything below and above counted at the ends. */
  predicate StandsFor(v: int, latency: int)
  {
    && 1 <= v <= 60_000_000
    && 0 < latency
    && (v > 1 ==> 1000 * v <= latency)
    && (v < 60_000_000 ==> latency < 1000 * v + 1000)
  }

  lemma OneMoreTimed(hist: multiset<int>, latency: int, v: int)
    ensures Timed(hist, latency)[v] == hist[v] + if StandsFor(v, latency) then 1 else 0
  {
    if latency > 0 {
      assert latency == 1000 * (latency / 1000) + latency % 1000;
    }
  }

  /** Each value of the histogram counts the positive latencies it stands for, and no others. */
  lemma {:induction false} HistogramCounts(recs: seq<Rec>, v: int)
    ensures BucketOf(recs).core.hist[v] == Number(recs, (r: Rec) => StandsFor(v, r.latency))
  {
    if recs != [] {
      var n := |recs| - 1;
      HistogramCounts(recs[..n], v);
      OneMoreTimed(BucketOf(recs[..n]).core.hist, recs[n].latency, v);
    }
  }

  /** The maximum by itself. */
  function MaxFold(recs: seq<Rec>): int
  {
    if recs == [] then 0 else Max(MaxFold(recs[..|recs| - 1]), recs[|recs| - 1].latency)
  }

  lemma {:induction false} MaxFoldIs(recs: seq<Rec>)
    ensures BucketOf(recs).core.maxLatency == MaxFold(recs)
  {
    if recs != [] { MaxFoldIs(recs[..|recs| - 1]); }
  }

  lemma {:induction false} MaxFoldGreatest(recs: seq<Rec>)
    ensures MaxFold(recs) >= 0 && forall i :: 0 <= i < |recs| ==> recs[i].latency <= MaxFold(recs)
    ensures MaxFold(recs) == 0 || exists i :: 0 <= i < |recs| && recs[i].latency == MaxFold(recs)
  {
    if recs != [] {
      var n := |recs| - 1;
      MaxFoldGreatest(recs[..n]);
      assert forall i :: 0 <= i < n ==> recs[..n][i] == recs[i];
    }
  }

  /** The maximum is the greatest latency (or 0). */
  lemma MaximumIsTheGreatest(recs: seq<Rec>)
    ensures var max := BucketOf(recs).core.maxLatency;
            && max >= 0
            && (forall i :: 0 <= i < |recs| ==> recs[i].latency <= max)
            && (max == 0 || exists i :: 0 <= i < |recs| && recs[i].latency == max)
  {
    MaxFoldIs(recs);
    MaxFoldGreatest(recs);
  }

  /** The minimum by itself. */
  function MinFold(recs: seq<Rec>): int
  {
    if recs == [] then 0 else RecordedMin(MinFold(recs[..|recs| - 1]), recs[|recs| - 1].latency)
  }

  lemma {:induction false} MinFoldIs(recs: seq<Rec>)
    ensures BucketOf(recs).minLatency == MinFold(recs)
  {
    if recs != [] { MinFoldIs(recs[..|recs| - 1]); }
  }

  lemma {:induction false} MinFoldLeast(recs: seq<Rec>)
    requires Positive(recs)
    ensures recs == [] ==> MinFold(recs) == 0
    ensures forall i :: 0 <= i < |recs| ==> 0 < MinFold(recs) <= recs[i].latency
    ensures recs != [] ==> exists i :: 0 <= i < |recs| && recs[i].latency == MinFold(recs)
  {
    if recs != [] {
      var n := |recs| - 1;
      MinFoldLeast(recs[..n]);
      assert recs[n] in recs;
      if n > 0 {
        assert recs[..n][0].latency >= MinFold(recs[..n]);
        var i :| 0 <= i < n && recs[..n][i].latency == MinFold(recs[..n]);
        assert recs[i].latency == MinFold(recs[..n]);
      }
      assert forall i :: 0 <= i < n ==> recs[..n][i] == recs[i];
    }
  }

  /** With positive latencies the minimum is the least one. */
  lemma MinimumIsTheLeast(recs: seq<Rec>)
    requires Positive(recs) && recs != []
    ensures var min := BucketOf(recs).minLatency;
            && (forall i :: 0 <= i < |recs| ==> 0 < min <= recs[i].latency)
            && exists i :: 0 <= i < |recs| && recs[i].latency == min
  {
    MinFoldIs(recs);
    MinFoldLeast(recs);
  }

  // ---------------------------------------------------------------- zero latencies

  predicate AnyZero(recs: seq<Rec>) { exists r <- recs :: r.latency == 0 }
  predicate AnyPositive(recs: seq<Rec>) { exists r <- recs :: r.latency > 0 }

  /** Recording in any other order gives the same minimum. */
  ghost predicate MinimumIsOrderFree(recs: seq<Rec>)
  {
    forall other: seq<Rec> | multiset(other) == multiset(recs) ::
      BucketOf(other).minLatency == BucketOf(recs).minLatency
  }

  function Split(recs: seq<Rec>): (r: (seq<Rec>, seq<Rec>))
    ensures forall q <- r.0 :: q.latency == 0
    ensures forall q <- r.1 :: q.latency != 0
    ensures multiset(r.0 + r.1) == multiset(recs)
  {
    if recs == [] then ([], [])
    else
      var (zeros, others) := Split(recs[1..]);
      assert recs == [recs[0]] + recs[1..];
      if recs[0].latency == 0 then
        assert [recs[0]] + zeros + others == [recs[0]] + (zeros + others);
        ([recs[0]] + zeros, others)
      else (zeros, [recs[0]] + others)
  }

  predicate Zeros(recs: seq<Rec>) { forall r <- recs :: r.latency == 0 }

  lemma {:induction false} ZerosErase(recs: seq<Rec>, zeros: seq<Rec>)
    requires MinFold(recs) >= 0 && zeros != [] && Zeros(zeros)
    ensures MinFold(recs + zeros) == 0
  {
    var n := |zeros| - 1;
    assert zeros[n] in zeros;
    assert (recs + zeros)[..|recs| + n] == recs + zeros[..n];
    if n > 0 { ZerosErase(recs, zeros[..n]); } else { assert recs + zeros[..n] == recs; }
  }

  lemma {:induction false} ZerosVanish(zeros: seq<Rec>, rest: seq<Rec>)
    requires Zeros(zeros) && Positive(rest)
    ensures MinFold(zeros + rest) == MinFold(rest)
  {
    if rest == [] {
      assert zeros + rest == zeros == [] + zeros;
      if zeros != [] { ZerosErase([], zeros); }
    } else {
      var n := |rest| - 1;
      assert rest[n] in rest;
      assert (zeros + rest)[..|zeros| + n] == zeros + rest[..n];
      ZerosVanish(zeros, rest[..n]);
    }
  }

  lemma SameElements(a: seq<Rec>, b: seq<Rec>, r: Rec)
    requires multiset(a) == multiset(b)
    ensures r in a <==> r in b
  {
    assert r in a <==> r in multiset(a);
    assert r in b <==> r in multiset(b);
  }

  /** Zeros first or zeros last: two orders with different minima. */
  lemma MixedLatencies(recs: seq<Rec>) returns (a: seq<Rec>, b: seq<Rec>)
    requires (forall r <- recs :: r.latency >= 0) && AnyZero(recs) && AnyPositive(recs)
    ensures multiset(a) == multiset(b) == multiset(recs)
    ensures BucketOf(a).minLatency == 0 < BucketOf(b).minLatency
  {
    var (zeros, rest) := Split(recs);
    a, b := rest + zeros, zeros + rest;
    assert multiset(a) == multiset(b) == multiset(recs);
    forall q | q in rest ensures q.latency > 0 { SameElements(b, recs, q); }
    var z :| z in recs && z.latency == 0;
    SameElements(b, recs, z);
    var p :| p in recs && p.latency > 0;
    SameElements(b, recs, p);
    MinFoldLeast(rest);
    assert rest[0].latency >= MinFold(rest);
    ZerosErase(rest, zeros);
    ZerosVanish(zeros, rest);
    MinFoldIs(a);
    MinFoldIs(b);
  }

  lemma UnmixedLatencies(recs: seq<Rec>, other: seq<Rec>)
    requires (forall r <- recs :: r.latency >= 0) && !(AnyZero(recs) && AnyPositive(recs))
    requires multiset(other) == multiset(recs)
    ensures BucketOf(other).minLatency == BucketOf(recs).minLatency
  {
    if AnyZero(recs) {
      assert Zeros(recs);
      forall q | q in other ensures q.latency == 0 { SameElements(other, recs, q); }
      assert recs + [] == recs && other + [] == other;
      ZerosVanish(recs, []);
      ZerosVanish(other, []);
      MinFoldIs(recs);
      MinFoldIs(other);
    } else {
      AnyOrderRecordsTheSame(recs, other);
    }
  }

  /** Because 0 also stands for "unset", the minimum depends on the order exactly when a zero and
      a positive latency meet. */
  lemma ZeroLatencyMakesMinimumOrderDependent(recs: seq<Rec>)
    requires forall r <- recs :: r.latency >= 0
    ensures MinimumIsOrderFree(recs) <==> !(AnyZero(recs) && AnyPositive(recs))
  {
    if AnyZero(recs) && AnyPositive(recs) {
      var a, b := MixedLatencies(recs);
    } else {
      forall other: seq<Rec> | multiset(other) == multiset(recs)
        ensures BucketOf(other).minLatency == BucketOf(recs).minLatency
      {
        UnmixedLatencies(recs, other);
      }
    }
  }

  /** What is reported is the minimum merged over the shards: the same for every order of recording and
      every choice of shards. */
  ghost predicate ReportedMinimumIsFree(recs: seq<Rec>)
  {
    forall other: seq<Rec>, where: seq<ShardIndex> | multiset(other) == multiset(recs) && |where| == |other| ::
      MergeAll(ShardedRun(other, where)).minLatency == BucketOf(recs).minLatency
  }

  /** Sharding does not help and does not hurt: the reported minimum is free of order and shards exactly
      when a zero and a positive latency do not meet. */
  lemma ReportedMinimumIsFreeExactly(recs: seq<Rec>)
    requires forall r <- recs :: r.latency >= 0
    ensures ReportedMinimumIsFree(recs) <==> !(AnyZero(recs) && AnyPositive(recs))
  {
    if AnyZero(recs) && AnyPositive(recs) {
      var a, b := MixedLatencies(recs);
      forall q | q in a ensures q.latency >= 0 { SameElements(a, recs, q); }
      forall q | q in b ensures q.latency >= 0 { SameElements(b, recs, q); }
      AllInOneShard(a);
      AllInOneShard(b);
      assert |OneShard(|a|)| == |a| && |OneShard(|b|)| == |b|;
    } else {
      forall other: seq<Rec>, where: seq<ShardIndex> | multiset(other) == multiset(recs) && |where| == |other|
        ensures MergeAll(ShardedRun(other, where)).minLatency == BucketOf(recs).minLatency
      {
        UnmixedLatencies(recs, other);
        UnmixedShards(recs, other, where);
      }
    }
  }

  lemma UnmixedShards(recs: seq<Rec>, other: seq<Rec>, where: seq<ShardIndex>)
    requires (forall r <- recs :: r.latency >= 0) && !(AnyZero(recs) && AnyPositive(recs))
    requires multiset(other) == multiset(recs) && |where| == |other|
    ensures MergeAll(ShardedRun(other, where)).minLatency == BucketOf(other).minLatency
  {
    if AnyZero(recs) {
      forall q | q in other ensures q.latency == 0 { SameElements(other, recs, q); }
      OnlyZeros(other, where);
      assert other + [] == other;
      ZerosVanish(other, []);
      MinFoldIs(other);
    } else {
      forall q | q in other ensures q.latency > 0 { SameElements(other, recs, q); }
      ShardsAddUp(other, where);
    }
  }

  lemma {:induction false} OnlyZeros(recs: seq<Rec>, where: seq<ShardIndex>)
    requires |where| == |recs| && Zeros(recs)
    ensures forall b <- ShardedRun(recs, where) :: b.minLatency == 0
    ensures MergeAll(ShardedRun(recs, where)).minLatency == 0
  {
    if recs != [] {
      var n := |recs| - 1;
      assert recs[n] in recs;
      OnlyZeros(recs[..n], where[..n]);
    }
    NoMinima(ShardedRun(recs, where));
  }

  lemma {:induction false} NoMinima(shards: seq<Bucket>)
    requires forall b <- shards :: b.minLatency == 0
    ensures MergeAll(shards).minLatency == 0
  {
    if shards != [] { NoMinima(shards[..|shards| - 1]); }
  }

  function OneShard(n: nat): (where: seq<ShardIndex>)
    ensures |where| == n && forall k :: 0 <= k < n ==> where[k] == 0
  {
    seq(n, _ => 0)
  }

  /** If chance picks the first shard every time, the merged minimum is that of one bucket. */
  lemma AllInOneShard(recs: seq<Rec>)
    requires forall r <- recs :: r.latency >= 0
    ensures MergeAll(ShardedRun(recs, OneShard(|recs|))).minLatency == BucketOf(recs).minLatency
  {
    FirstShardHasAll(recs);
    FirstShardDecides(NUM_SHARDS, BucketOf(recs));
  }

  lemma {:induction false} FirstShardHasAll(recs: seq<Rec>)
    requires forall r <- recs :: r.latency >= 0
    ensures ShardedRun(recs, OneShard(|recs|)) == Empties(NUM_SHARDS)[0 := BucketOf(recs)]
    ensures BucketOf(recs).minLatency >= 0
  {
    if recs == [] {
      assert Empties(NUM_SHARDS)[0 := EMPTY] == Empties(NUM_SHARDS);
    } else {
      var n := |recs| - 1;
      assert recs[n] in recs;
      FirstShardHasAll(recs[..n]);
      assert OneShard(|recs|)[..n] == OneShard(n);
    }
  }

  lemma {:induction false} FirstShardDecides(n: nat, b: Bucket)
    requires n > 0 && b.minLatency >= 0
    ensures MergeAll(Empties(n)[0 := b]).minLatency == b.minLatency
  {
    if n == 1 {
      assert Empties(1)[0 := b] == [] + [b];
      MergeSnoc([], b);
    } else {
      FirstShardDecides(n - 1, b);
      assert Empties(n)[0 := b] == Empties(n - 1)[0 := b] + [EMPTY];
      MergeSnoc(Empties(n - 1)[0 := b], EMPTY);
    }
  }

  /** 5 then 0, in one order: no minimum if both fall into one shard, 5 if the zero falls into another. */
  lemma ShardsDecideExample()
    ensures var a, z := Rec(5, false, "", ""), Rec(0, false, "", "");
            && MergeAll(ShardedRun([a, z], OneShard(2))).minLatency == 0
            && MergeAll(ShardedRun([a, z], [0, 1])).minLatency == 5
  {
    ShardsDecide(Rec(5, false, "", ""), Rec(0, false, "", ""));
  }

  lemma ShardsDecide(a: Rec, z: Rec)
    requires a.latency > 0 && z.latency == 0
    ensures MergeAll(ShardedRun([a, z], OneShard(2))).minLatency == 0
    ensures MergeAll(ShardedRun([a, z], [0, 1])).minLatency == a.latency
  {
    AllInOneShard([a, z]);
    ZeroElsewhere(a, z);
    assert [] + [a] == [a] && [a] + [z] == [a, z];
    Snoc([], a);
    Snoc([a], z);
  }

  /** A zero in a shard of its own leaves the minimum of the first shard alone. */
  lemma ZeroElsewhere(a: Rec, z: Rec)
    requires a.latency >= 0 && z.latency == 0
    ensures MergeAll(ShardedRun([a, z], [0, 1])).minLatency == BucketOf([a]).minLatency
  {
    FirstShardHasAll([a]);
    assert OneShard(1) == [0];
    FirstShardDecides(NUM_SHARDS, BucketOf([a]));
    var before := Empties(NUM_SHARDS)[0 := BucketOf([a])];
    assert [a, z][..1] == [a] && [0, 1][..1] == [0];
    SameMinima(before[1 := Recorded(before[1], z)], before);
  }

  /** One such case: 5 then 0 reports no minimum, 0 then 5 reports 5. */
  lemma ZeroLatencyExample()
    ensures var a, z := Rec(5, false, "", ""), Rec(0, false, "", "");
            BucketOf([a, z]).minLatency == 0 && BucketOf([z, a]).minLatency == 5
  {
    var a, z := Rec(5, false, "", ""), Rec(0, false, "", "");
    assert [] + [a] == [a] && [a] + [z] == [a, z] && [] + [z] == [z] && [z] + [a] == [z, a];
    Snoc([], a);
    Snoc([a], z);
    Snoc([], z);
    Snoc([z], a);
  }
}
