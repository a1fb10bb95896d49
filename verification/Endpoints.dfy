/** RecordRequest of internal/metrics/collector.go: a request is recorded in the overall statistics and
    in those of its endpoint, which the first request for it creates. Any number of goroutines do this at
    once: the lookup, the creation and the two recordings are separate atomic steps. */
module Endpoints {
  import opened Metrics

  /** `Arrived`: nothing done. `Counted`: in the overall statistics. `Missed`: the lookup found no
      statistics for the endpoint. `Found`: it has some. `Filed`: all done. */
  datatype Phase = Arrived | Counted | Missed | Found | Filed

  /** The empty endpoint means none. */
  datatype Request = Request(rec: Rec, endpoint: string, phase: Phase)

  datatype State = State(requests: seq<Request>, total: seq<Bucket>, endpoints: map<string, seq<Bucket>>)

  const INITIAL := State([], Empties(NUM_SHARDS), map[])

  datatype Step =
    | Arrive(rec: Rec, endpoint: string)
    | RecordTotal(k: nat, at: ShardIndex)
    | Load(k: nat)
    | LoadOrStore(k: nat)
    | RecordEndpoint(k: nat, at: ShardIndex)

  predicate Enabled(s: State, step: Step)
  {
    match step
    case Arrive(_, _) => true
    case RecordTotal(k, _) => k < |s.requests| && s.requests[k].phase == Arrived
    case Load(k) => k < |s.requests| && s.requests[k].phase == Counted
    case LoadOrStore(k) => k < |s.requests| && s.requests[k].phase == Missed
    case RecordEndpoint(k, _) => k < |s.requests| && s.requests[k].phase == Found
  }

  predicate Valid(s: State)
  {
    && |s.total| == NUM_SHARDS
    && (forall e <- s.endpoints :: |s.endpoints[e]| == NUM_SHARDS)
    && (forall r <- s.requests :: r.phase == Found ==> r.endpoint in s.endpoints)
  }

  function Moved(s: State, k: nat, phase: Phase): State
    requires k < |s.requests|
  {
    s.(requests := s.requests[k := s.requests[k].(phase := phase)])
  }

  function Noted(shards: seq<Bucket>, at: ShardIndex, r: Rec): seq<Bucket>
    requires |shards| == NUM_SHARDS
  {
    shards[at := Recorded(shards[at], r)]
  }

  function Apply(s: State, step: Step): State
    requires Valid(s) && Enabled(s, step)
  {
    match step
    case Arrive(rec, endpoint) => s.(requests := s.requests + [Request(rec, endpoint, Arrived)])
    case RecordTotal(k, at) =>
      var r := s.requests[k];
      Moved(s, k, if r.endpoint == "" then Filed else Counted).(total := Noted(s.total, at, r.rec))
    case Load(k) => Moved(s, k, if s.requests[k].endpoint in s.endpoints then Found else Missed)
    case LoadOrStore(k) =>
      var e := s.requests[k].endpoint;
      Moved(s, k, Found).(endpoints := if e in s.endpoints then s.endpoints else s.endpoints[e := Empties(NUM_SHARDS)])
    case RecordEndpoint(k, at) =>
      var r := s.requests[k];
      assert r in s.requests;
      Moved(s, k, Filed).(endpoints := s.endpoints[r.endpoint := Noted(s.endpoints[r.endpoint], at, r.rec)])
  }

  ghost predicate Reachable(s: State)
  {
    exists steps: seq<Step> :: Runs(steps, s)
  }

  ghost predicate Runs(steps: seq<Step>, s: State)
  {
    if steps == [] then
      s == INITIAL
    else
      var n := |steps| - 1;
      exists mid: State ::
        Runs(steps[..n], mid) && Valid(mid) && Enabled(mid, steps[n]) && Apply(mid, steps[n]) == s
  }

  // ---------------------------------------------------------------- what was recorded where

  /** The overall statistics, or those of an endpoint. */
  datatype Place = Overall | Of(endpoint: string)

  predicate In(r: Request, place: Place)
  {
    if place.Overall? then r.phase != Arrived else r.phase == Filed && r.endpoint == place.endpoint
  }

  /** The records already in these statistics. */
  function Gathered(requests: seq<Request>, place: Place): multiset<Rec>
  {
    if requests == [] then
      multiset{}
    else
      var last := requests[|requests| - 1];
      var before := Gathered(requests[..|requests| - 1], place);
      if In(last, place) then before + multiset{last.rec} else before
  }

  lemma {:induction false} GatheredKeeps(requests: seq<Request>, place: Place, k: nat, r: Request)
    requires k < |requests| && r.rec == requests[k].rec && In(requests[k], place) == In(r, place)
    ensures Gathered(requests[k := r], place) == Gathered(requests, place)
  {
    var n := |requests| - 1;
    if k < n {
      GatheredKeeps(requests[..n], place, k, r);
      assert requests[k := r][..n] == requests[..n][k := r];
    } else {
      assert requests[k := r][..n] == requests[..n];
    }
  }

  lemma {:induction false} GatheredGrows(requests: seq<Request>, place: Place, k: nat, r: Request)
    requires k < |requests| && !In(requests[k], place) && In(r, place)
    ensures Gathered(requests[k := r], place) == Gathered(requests, place) + multiset{r.rec}
  {
    var n := |requests| - 1;
    if k < n {
      GatheredGrows(requests[..n], place, k, r);
      assert requests[k := r][..n] == requests[..n][k := r];
      Swap(Gathered(requests[..n], place), r.rec, requests[n].rec);
    } else {
      assert requests[k := r][..n] == requests[..n];
    }
  }

  lemma Swap(m: multiset<Rec>, a: Rec, b: Rec)
    ensures m + multiset{a} + multiset{b} == m + multiset{b} + multiset{a}
  {
  }

  /** The shards add up to one bucket that recorded exactly these, in some order. */
  ghost predicate Holds(shards: seq<Bucket>, recs: multiset<Rec>)
  {
    exists log: seq<Rec> :: multiset(log) == recs && AddUpTo(shards, log)
  }

  lemma HoldsOneMore(shards: seq<Bucket>, recs: multiset<Rec>, at: ShardIndex, r: Rec)
    requires |shards| == NUM_SHARDS && Holds(shards, recs)
    ensures Holds(Noted(shards, at, r), recs + multiset{r})
  {
    var log: seq<Rec> :| multiset(log) == recs && AddUpTo(shards, log);
    RecordAddsUp(shards, at, log, r);
    assert multiset(log + [r]) == recs + multiset{r};
  }

  lemma HoldsNothing()
    ensures Holds(Empties(NUM_SHARDS), multiset{})
  {
    var log: seq<Rec> := [];
    EmptyShards(NUM_SHARDS);
    assert multiset(log) == multiset{} && AddUpTo(Empties(NUM_SHARDS), log);
  }

  ghost predicate EndpointOk(s: State, e: string)
  {
    if e in s.endpoints then
      Holds(s.endpoints[e], Gathered(s.requests, Of(e)))
    else
      e != "" ==> Gathered(s.requests, Of(e)) == multiset{}
  }

  ghost predicate Inv(s: State)
  {
    && Valid(s)
    && Holds(s.total, Gathered(s.requests, Overall))
    && "" !in s.endpoints
    && (forall e :: EndpointOk(s, e))
    && (forall r <- s.requests :: r.endpoint == "" ==> r.phase == Arrived || r.phase == Filed)
  }

  lemma InitialInv()
    ensures Inv(INITIAL)
  {
    HoldsNothing();
  }

  lemma ArriveKeepsInv(s: State, rec: Rec, endpoint: string)
    requires Inv(s)
    ensures Inv(Apply(s, Arrive(rec, endpoint)))
  {
    var t := Apply(s, Arrive(rec, endpoint));
    assert t.requests[..|t.requests| - 1] == s.requests;
    forall e ensures EndpointOk(t, e) {
      assert EndpointOk(s, e);
    }
  }

  lemma RecordTotalKeepsInv(s: State, k: nat, at: ShardIndex)
    requires Inv(s) && Enabled(s, RecordTotal(k, at))
    ensures Inv(Apply(s, RecordTotal(k, at)))
  {
    var t := Apply(s, RecordTotal(k, at));
    HoldsOneMore(s.total, Gathered(s.requests, Overall), at, s.requests[k].rec);
    GatheredGrows(s.requests, Overall, k, t.requests[k]);
    forall e ensures EndpointOk(t, e) {
      assert EndpointOk(s, e);
      if e != "" { GatheredKeeps(s.requests, Of(e), k, t.requests[k]); }
    }
  }

  lemma LoadKeepsInv(s: State, k: nat)
    requires Inv(s) && Enabled(s, Load(k))
    ensures Inv(Apply(s, Load(k)))
  {
    var t := Apply(s, Load(k));
    assert s.requests[k] in s.requests;
    GatheredKeeps(s.requests, Overall, k, t.requests[k]);
    forall e ensures EndpointOk(t, e) {
      assert EndpointOk(s, e);
      GatheredKeeps(s.requests, Of(e), k, t.requests[k]);
    }
  }

  lemma LoadOrStoreKeepsInv(s: State, k: nat)
    requires Inv(s) && Enabled(s, LoadOrStore(k))
    ensures Inv(Apply(s, LoadOrStore(k)))
  {
    var t := Apply(s, LoadOrStore(k));
    assert s.requests[k] in s.requests;
    GatheredKeeps(s.requests, Overall, k, t.requests[k]);
    forall e ensures EndpointOk(t, e) {
      assert EndpointOk(s, e);
      LoadOrStoreKeepsEndpoint(s, k, e);
    }
  }

  lemma LoadOrStoreKeepsEndpoint(s: State, k: nat, e: string)
    requires Valid(s) && Enabled(s, LoadOrStore(k)) && EndpointOk(s, e) && s.requests[k].endpoint != ""
    ensures EndpointOk(Apply(s, LoadOrStore(k)), e)
  {
    var r := s.requests[k].(phase := Found);
    GatheredKeeps(s.requests, Of(e), k, r);
    HoldsNothing();
  }

  lemma RecordEndpointKeepsInv(s: State, k: nat, at: ShardIndex)
    requires Inv(s) && Enabled(s, RecordEndpoint(k, at))
    ensures Inv(Apply(s, RecordEndpoint(k, at)))
  {
    var t, r := Apply(s, RecordEndpoint(k, at)), s.requests[k];
    assert r in s.requests;
    GatheredKeeps(s.requests, Overall, k, t.requests[k]);
    forall e ensures EndpointOk(t, e) {
      assert EndpointOk(s, e);
      if e == r.endpoint {
        HoldsOneMore(s.endpoints[e], Gathered(s.requests, Of(e)), at, r.rec);
        GatheredGrows(s.requests, Of(e), k, t.requests[k]);
      } else {
        GatheredKeeps(s.requests, Of(e), k, t.requests[k]);
      }
    }
  }

  lemma StepKeepsInv(s: State, step: Step)
    requires Inv(s) && Enabled(s, step)
    ensures Inv(Apply(s, step))
  {
    match step
    case Arrive(rec, endpoint) => ArriveKeepsInv(s, rec, endpoint);
    case RecordTotal(k, at) => RecordTotalKeepsInv(s, k, at);
    case Load(k) => LoadKeepsInv(s, k);
    case LoadOrStore(k) => LoadOrStoreKeepsInv(s, k);
    case RecordEndpoint(k, at) => RecordEndpointKeepsInv(s, k, at);
  }

  lemma {:induction false} RunKeepsInv(steps: seq<Step>, s: State)
    requires Runs(steps, s)
    ensures Inv(s)
  {
    if steps == [] {
      InitialInv();
    } else {
      var n := |steps| - 1;
      var mid: State :|
        Runs(steps[..n], mid) && Valid(mid) && Enabled(mid, steps[n]) && Apply(mid, steps[n]) == s;
      RunKeepsInv(steps[..n], mid);
      StepKeepsInv(mid, steps[n]);
    }
  }

  // ---------------------------------------------------------------- nothing is lost

  /** In every interleaving, the race for creating an endpoint's statistics included, the overall
      statistics are those of one bucket that recorded the requests counted so far, and each endpoint's
      those of one that recorded its own requests filed so far. */
  lemma EveryRequestIsCountedOnce(s: State, endpoint: string, all: seq<Rec>, own: seq<Rec>)
    requires Reachable(s) && endpoint in s.endpoints
    requires multiset(all) == Gathered(s.requests, Overall) && multiset(own) == Gathered(s.requests, Of(endpoint))
    ensures MergeAll(s.total).core == BucketOf(all).core
    ensures MergeAll(s.endpoints[endpoint]).core == BucketOf(own).core
    ensures Positive(all) ==> MergeAll(s.total) == BucketOf(all)
    ensures Positive(own) ==> MergeAll(s.endpoints[endpoint]) == BucketOf(own)
  {
    var steps: seq<Step> :| Runs(steps, s);
    RunKeepsInv(steps, s);
    assert EndpointOk(s, endpoint);
    HeldInAnyOrder(s.total, all);
    HeldInAnyOrder(s.endpoints[endpoint], own);
  }

  lemma HeldInAnyOrder(shards: seq<Bucket>, log: seq<Rec>)
    requires Holds(shards, multiset(log))
    ensures MergeAll(shards).core == BucketOf(log).core
    ensures Positive(log) ==> MergeAll(shards) == BucketOf(log)
  {
    var other: seq<Rec> :| multiset(other) == multiset(log) && AddUpTo(shards, other);
    AnyOrderRecordsTheSame(log, other);
    if Positive(log) {
      forall r | r in other ensures r.latency > 0 {
        assert r in multiset(other) && r in multiset(log);
      }
    }
  }

  /** The records of all requests, or of those for one endpoint, in order of arrival. */
  function RecsFor(requests: seq<Request>, place: Place): (recs: seq<Rec>)
  {
    if requests == [] then
      []
    else
      var last := requests[|requests| - 1];
      RecsFor(requests[..|requests| - 1], place)
      + if place.Overall? || last.endpoint == place.endpoint then [last.rec] else []
  }

  lemma {:induction false} AllFiled(requests: seq<Request>, place: Place)
    requires forall r <- requests :: r.phase == Filed
    ensures Gathered(requests, place) == multiset(RecsFor(requests, place))
  {
    if requests != [] {
      assert requests[|requests| - 1] in requests;
      AllFiled(requests[..|requests| - 1], place);
    }
  }

  /** Once all requests are through, the overall statistics are those of all of them, an endpoint has
      statistics as soon as there is a request for it, and they are those of its requests. */
  lemma QuietCollectorIsExact(s: State, endpoint: string)
    requires Reachable(s) && (forall r <- s.requests :: r.phase == Filed) && endpoint != ""
    ensures MergeAll(s.total).core == BucketOf(RecsFor(s.requests, Overall)).core
    ensures RecsFor(s.requests, Of(endpoint)) != [] ==> endpoint in s.endpoints
    ensures endpoint in s.endpoints ==>
              MergeAll(s.endpoints[endpoint]).core == BucketOf(RecsFor(s.requests, Of(endpoint))).core
    ensures var all := RecsFor(s.requests, Overall); Positive(all) ==> MergeAll(s.total) == BucketOf(all)
    ensures var own := RecsFor(s.requests, Of(endpoint));
            endpoint in s.endpoints && Positive(own) ==> MergeAll(s.endpoints[endpoint]) == BucketOf(own)
  {
    var steps: seq<Step> :| Runs(steps, s);
    RunKeepsInv(steps, s);
    assert EndpointOk(s, endpoint);
    AllFiled(s.requests, Overall);
    AllFiled(s.requests, Of(endpoint));
    HeldInAnyOrder(s.total, RecsFor(s.requests, Overall));
    var own := RecsFor(s.requests, Of(endpoint));
    if endpoint in s.endpoints {
      HeldInAnyOrder(s.endpoints[endpoint], own);
    } else {
      assert |multiset(own)| == 0;
    }
  }

  /** The requests that arrived in this run, by record and endpoint. */
  function Arrivals(steps: seq<Step>): (arrived: seq<(Rec, string)>)
  {
    if steps == [] then
      []
    else
      var last := steps[|steps| - 1];
      Arrivals(steps[..|steps| - 1]) + if last.Arrive? then [(last.rec, last.endpoint)] else []
  }

  function Origins(requests: seq<Request>): (origins: seq<(Rec, string)>)
    ensures |origins| == |requests|
  {
    seq(|requests|, k requires 0 <= k < |requests| => (requests[k].rec, requests[k].endpoint))
  }

  lemma StepKeepsOrigins(s: State, step: Step)
    requires Valid(s) && Enabled(s, step)
    ensures Origins(Apply(s, step).requests)
         == Origins(s.requests) + if step.Arrive? then [(step.rec, step.endpoint)] else []
  {
    assert Origins(s.requests) + [] == Origins(s.requests);
  }

  /** The requests are those that arrived, in that order, each with the record and the endpoint it came
      with. */
  lemma {:induction false} RequestsAreTheArrivals(steps: seq<Step>, s: State)
    requires Runs(steps, s)
    ensures Origins(s.requests) == Arrivals(steps)
  {
    if steps != [] {
      var n := |steps| - 1;
      var mid: State :| Runs(steps[..n], mid) && Valid(mid) && Enabled(mid, steps[n]) && Apply(mid, steps[n]) == s;
      RequestsAreTheArrivals(steps[..n], mid);
      StepKeepsOrigins(mid, steps[n]);
    }
  }
}
