/** The single-flight token cache that both OAuth2 providers run (internal/auth/oauth2.go): a
    mutex, a condition variable and a `fetchInProgress` flag, with the fetch itself outside the
    lock. Any number of callers invoke `Token` again and again. A step is what one caller does
    between two points where another may run; the clock may advance between any two steps, and
    a fetch ends with whatever answer it likes. */
module TokenCache {
  import opened Options

  datatype Answer = Granted(token: string, expiresIn: int) | Refused

  /** A caller's place in `Token`. The first line's places hold the lock. */
  datatype Pc =
    | FirstCheck | Recheck | LoopTest | Mark | Clear(answer: Answer, since: int)
    | Broadcast(answer: Answer, since: int) | Store(answer: Answer, since: int)
    | Idle | WantsLock | Asleep | Woken | Fetching(since: int) | HasAnswer(answer: Answer, since: int)
  {
    predicate HoldsLock()
    {
      FirstCheck? || Recheck? || LoopTest? || Mark? || Clear? || Broadcast? || Store?
    }

    /** Between setting `fetchInProgress` and clearing it. */
    predicate InFlight() { Fetching? || HasAnswer? || Clear? }

    /** In a fetch of one's own, until its answer is stored. */
    predicate Owns() { InFlight() || Broadcast? || Store? }
  }

  const SECOND := 1_000_000_000

  /** The shared fields. No token yet is the empty token. */
  datatype Cache = Cache(token: string, expiry: int, fetching: bool) {
    predicate Good(now: int) { token != "" && now < expiry }
  }

  /** A granted token as the cache took it: which caller fetched it, when its fetch began, when it was stored, its
      lifetime in seconds and the time from which it no longer counts as good. */
  datatype Entry = Entry(owner: nat, token: string, since: int, storedAt: int, expiresIn: int, expiry: int)

  /** What a call of caller `owner` returned: a cached token that passed the check at `at`, the caller's own
      token as it was stored, or the caller's own failure. */
  datatype Outcome =
    | FromCache(owner: nat, token: string, at: int)
    | OwnFetch(owner: nat, entry: Entry)
    | Failed(owner: nat)

  /** `stored` and `returned` are history. */
  datatype State = State(
    clock: int, lock: Option<nat>, cache: Cache, callers: seq<Pc>,
    stored: seq<Entry>, returned: seq<Outcome>)

  function Init(callers: nat): State
  {
    State(0, None, Cache("", 0, false), seq(callers, _ => Idle), [], [])
  }

  datatype Step =
    | Advance(to: int)
    | Call(i: nat)
    | Acquire(i: nat)
    | Check(i: nat)
    | TestFlag(i: nat)
    | SetFlag(i: nat)
    | FetchReturns(i: nat, with: Answer)
    | ClearFlag(i: nat)
    | WakeAll(i: nat)
    | Finish(i: nat)

  predicate Enabled(s: State, step: Step)
  {
    if step.Advance? then s.clock <= step.to
    else
      step.i < |s.callers| &&
      var pc := s.callers[step.i];
      match step
      case Call(_) => pc.Idle?
      case Acquire(_) => s.lock.None? && (pc.WantsLock? || pc.Woken? || pc.HasAnswer?)
      case Check(_) => pc.FirstCheck? || pc.Recheck?
      case TestFlag(_) => pc.LoopTest?
      case SetFlag(_) => pc.Mark?
      case FetchReturns(_, answer) => pc.Fetching? && (answer.Granted? ==> answer.token != "")
      case ClearFlag(_) => pc.Clear?
      case WakeAll(_) => pc.Broadcast?
      case Finish(_) => pc.Store?
  }

  function Awake(callers: seq<Pc>): (r: seq<Pc>)
    ensures |r| == |callers|
  {
    seq(|callers|, k requires 0 <= k < |callers| => if callers[k].Asleep? then Woken else callers[k])
  }

  function Apply(leeway: int, s: State, step: Step): State
    requires Enabled(s, step)
  {
    match step
    case Advance(to) => s.(clock := to)
    case Call(i) => s.(callers := s.callers[i := WantsLock])
    case Acquire(i) =>
      var next := match s.callers[i]
        case WantsLock => FirstCheck
        case Woken => Recheck
        case HasAnswer(answer, since) => Clear(answer, since)
        case _ => s.callers[i];
      s.(lock := Some(i), callers := s.callers[i := next])
    case Check(i) =>
      if s.cache.Good(s.clock) then
        s.(lock := None, callers := s.callers[i := Idle],
           returned := s.returned + [FromCache(i, s.cache.token, s.clock)])
      else s.(callers := s.callers[i := LoopTest])
    case TestFlag(i) =>
      if s.cache.fetching then s.(lock := None, callers := s.callers[i := Asleep])
      else s.(callers := s.callers[i := Mark])
    case SetFlag(i) =>
      s.(lock := None, cache := s.cache.(fetching := true), callers := s.callers[i := Fetching(s.clock)])
    case FetchReturns(i, answer) =>
      s.(callers := s.callers[i := HasAnswer(answer, s.callers[i].since)])
    case ClearFlag(i) =>
      s.(cache := s.cache.(fetching := false),
         callers := s.callers[i := Broadcast(s.callers[i].answer, s.callers[i].since)])
    case WakeAll(i) =>
      s.(callers := Awake(s.callers)[i := Store(s.callers[i].answer, s.callers[i].since)])
    case Finish(i) =>
      match s.callers[i].answer
      case Refused =>
        s.(lock := None, callers := s.callers[i := Idle], returned := s.returned + [Failed(i)])
      case Granted(token, expiresIn) =>
        var expiry := s.clock + expiresIn * SECOND - leeway;
        var entry := Entry(i, token, s.callers[i].since, s.clock, expiresIn, expiry);
        s.(lock := None, callers := s.callers[i := Idle],
           cache := s.cache.(token := token, expiry := entry.expiry),
           stored := s.stored + [entry],
           returned := s.returned + [OwnFetch(i, entry)])
  }

  predicate Valid(leeway: int, s: State, run: seq<Step>)
    decreases |run|
  {
    run == [] || (Enabled(s, run[0]) && Valid(leeway, Apply(leeway, s, run[0]), run[1..]))
  }

  function Exec(leeway: int, s: State, run: seq<Step>): State
    requires Valid(leeway, s, run)
    decreases |run|
  {
    if run == [] then s else Exec(leeway, Apply(leeway, s, run[0]), run[1..])
  }

  // ---------------------------------------------------------------- the inductive invariant

  predicate LockInv(s: State)
  {
    && (s.lock.Some? ==> s.lock.value < |s.callers| && s.callers[s.lock.value].HoldsLock())
    && (forall i :: 0 <= i < |s.callers| && s.callers[i].HoldsLock() ==> s.lock == Some(i))
  }

  /** The flag says exactly that one caller is between setting and clearing it. */
  ghost predicate FlagInv(s: State)
  {
    && (s.cache.fetching ==> exists i :: 0 <= i < |s.callers| && s.callers[i].InFlight())
    && (forall i :: 0 <= i < |s.callers| && s.callers[i].InFlight() ==> s.cache.fetching)
    && (forall i :: 0 <= i < |s.callers| && s.callers[i].Mark? ==> !s.cache.fetching)
  }

  predicate OwnerInv(s: State)
  {
    forall i, j :: 0 <= i < j < |s.callers| && s.callers[i].Owns() ==> !s.callers[j].Owns()
  }

  /** Whoever sleeps will be woken: somebody's broadcast is still to come. */
  ghost predicate SleepInv(s: State)
  {
    forall i :: 0 <= i < |s.callers| && s.callers[i].Asleep? ==> WakeUpToCome(s)
  }

  ghost predicate WakeUpToCome(s: State)
  {
    exists j :: 0 <= j < |s.callers| && (s.callers[j].InFlight() || s.callers[j].Broadcast?)
  }

  /** Nobody is past the check while the cached token is good, and a fetch began when it was not. */
  predicate ExpiryInv(s: State)
  {
    forall i :: 0 <= i < |s.callers| ==> CallerInv(s.cache, s.clock, s.callers[i])
  }

  predicate CallerInv(c: Cache, clock: int, pc: Pc)
  {
    && (pc.LoopTest? || pc.Mark? ==> !c.Good(clock))
    && (pc.Owns() ==> !c.Good(pc.since) && pc.since <= clock)
    && (pc.HasAnswer? || pc.Clear? || pc.Broadcast? || pc.Store? ==> pc.answer.Granted? ==> pc.answer.token != "")
  }

  predicate HistoryInv(leeway: int, s: State)
  {
    && (if s.stored == [] then s.cache.token == ""
        else s.cache.token == s.stored[|s.stored| - 1].token && s.cache.expiry == s.stored[|s.stored| - 1].expiry)
    && (forall k :: 0 <= k < |s.stored| ==> EntryInv(leeway, s.stored[k], s.clock))
    && (forall k :: 0 < k < |s.stored| ==> s.stored[k - 1].expiry <= s.stored[k].since)
  }

  predicate EntryInv(leeway: int, e: Entry, clock: int)
  {
    e.token != "" && e.since <= e.storedAt <= clock && e.expiry == e.storedAt + e.expiresIn * SECOND - leeway
  }

  ghost predicate Accounted(stored: seq<Entry>, o: Outcome)
  {
    match o
    case FromCache(_, token, at) =>
      exists k :: 0 <= k < |stored| && stored[k].token == token && stored[k].storedAt <= at < stored[k].expiry
    case OwnFetch(owner, entry) => entry.owner == owner && entry in stored
    case Failed(_) => true
  }

  ghost predicate ReturnsInv(s: State)
  {
    forall k :: 0 <= k < |s.returned| ==> Accounted(s.stored, s.returned[k])
  }

  ghost predicate Inv(leeway: int, s: State)
  {
    && LockInv(s) && FlagInv(s) && OwnerInv(s) && SleepInv(s)
    && ExpiryInv(s) && HistoryInv(leeway, s) && ReturnsInv(s)
  }

  lemma InvInit(leeway: int, n: nat)
    ensures Inv(leeway, Init(n))
  {
  }

  lemma LockStep(leeway: int, s: State, step: Step)
    requires LockInv(s) && Enabled(s, step)
    ensures LockInv(Apply(leeway, s, step))
  {
  }

  lemma FlagStep(leeway: int, s: State, step: Step)
    requires LockInv(s) && FlagInv(s) && OwnerInv(s) && Enabled(s, step)
    ensures FlagInv(Apply(leeway, s, step))
  {
    var t := Apply(leeway, s, step);
    if s.cache.fetching {
      var i :| 0 <= i < |s.callers| && s.callers[i].InFlight();
      assert !step.ClearFlag? ==> t.callers[i].InFlight();
    }
    if step.SetFlag? { assert t.callers[step.i].InFlight(); }
  }

  lemma OwnerStep(leeway: int, s: State, step: Step)
    requires LockInv(s) && FlagInv(s) && OwnerInv(s) && Enabled(s, step)
    ensures OwnerInv(Apply(leeway, s, step))
  {
    var t := Apply(leeway, s, step);
    forall k | 0 <= k < |t.callers| && t.callers[k].Owns()
      ensures if step.SetFlag? then k == step.i else s.callers[k].Owns()
    {
      assert s.callers[k].HoldsLock() ==> s.lock == Some(k);
    }
  }

  lemma SleepStep(leeway: int, s: State, step: Step)
    requires LockInv(s) && FlagInv(s) && SleepInv(s) && Enabled(s, step)
    ensures SleepInv(Apply(leeway, s, step))
  {
    var t := Apply(leeway, s, step);
    if WakeUpToCome(s) && !step.WakeAll? {
      var j :| 0 <= j < |s.callers| && (s.callers[j].InFlight() || s.callers[j].Broadcast?);
      assert t.callers[j].InFlight() || t.callers[j].Broadcast?;
    }
  }

  lemma ExpiryStep(leeway: int, s: State, step: Step)
    requires LockInv(s) && OwnerInv(s) && ExpiryInv(s) && Enabled(s, step)
    ensures ExpiryInv(Apply(leeway, s, step))
  {
    var t := Apply(leeway, s, step);
    forall k | 0 <= k < |t.callers| ensures CallerInv(t.cache, t.clock, t.callers[k]) {
      assert CallerInv(s.cache, s.clock, s.callers[k]);
    }
  }

  lemma HistoryStep(leeway: int, s: State, step: Step)
    requires ExpiryInv(s) && HistoryInv(leeway, s) && Enabled(s, step)
    ensures HistoryInv(leeway, Apply(leeway, s, step))
  {
  }

  lemma AccountedGrows(stored: seq<Entry>, longer: seq<Entry>, o: Outcome)
    requires Accounted(stored, o) && stored <= longer
    ensures Accounted(longer, o)
  {
    if o.FromCache? {
      var k :| 0 <= k < |stored| && stored[k].token == o.token && stored[k].storedAt <= o.at < stored[k].expiry;
      assert longer[k] == stored[k];
    }
  }

  lemma ReturnsStep(leeway: int, s: State, step: Step)
    requires HistoryInv(leeway, s) && ReturnsInv(s) && Enabled(s, step)
    ensures ReturnsInv(Apply(leeway, s, step))
  {
    var t := Apply(leeway, s, step);
    forall k | 0 <= k < |s.returned| ensures Accounted(t.stored, s.returned[k]) {
      AccountedGrows(s.stored, t.stored, s.returned[k]);
    }
  }

  lemma StepKeepsInv(leeway: int, s: State, step: Step)
    requires Inv(leeway, s) && Enabled(s, step)
    ensures Inv(leeway, Apply(leeway, s, step))
  {
    LockStep(leeway, s, step);
    FlagStep(leeway, s, step);
    OwnerStep(leeway, s, step);
    SleepStep(leeway, s, step);
    ExpiryStep(leeway, s, step);
    HistoryStep(leeway, s, step);
    ReturnsStep(leeway, s, step);
  }

  lemma {:induction false} RunKeepsInv(leeway: int, s: State, run: seq<Step>)
    requires Inv(leeway, s) && Valid(leeway, s, run)
    ensures Inv(leeway, Exec(leeway, s, run))
    decreases |run|
  {
    if run != [] {
      StepKeepsInv(leeway, s, run[0]);
      RunKeepsInv(leeway, Apply(leeway, s, run[0]), run[1..]);
    }
  }

  /** The states some interleaving of some number of callers leads to. */
  ghost predicate Reachable(leeway: int, s: State)
  {
    exists n: nat, run :: Valid(leeway, Init(n), run) && Exec(leeway, Init(n), run) == s
  }

  lemma ReachableInv(leeway: int, s: State)
    requires Reachable(leeway, s)
    ensures Inv(leeway, s)
  {
    var n: nat, run :| Valid(leeway, Init(n), run) && Exec(leeway, Init(n), run) == s;
    InvInit(leeway, n);
    RunKeepsInv(leeway, Init(n), run);
  }

  // ---------------------------------------------------------------- single flight

  /** `fetchInProgress` holds exactly while one caller is between setting and clearing it, so two
      fetches never overlap. */
  lemma FetchesNeverOverlap(leeway: int, s: State)
    requires Reachable(leeway, s)
    ensures s.cache.fetching <==> exists i :: 0 <= i < |s.callers| && s.callers[i].InFlight()
    ensures forall i, j | 0 <= i < |s.callers| && 0 <= j < |s.callers| ::
              s.callers[i].InFlight() && s.callers[j].InFlight() ==> i == j
  {
    ReachableInv(leeway, s);
  }

  /** A caller sleeps on the condition only while another caller's broadcast is still to come;
      that caller is not asleep itself. After the broadcast nobody sleeps, even if the fetch failed. */
  lemma NoSleeperIsStranded(leeway: int, s: State, i: nat)
    requires Reachable(leeway, s) && i < |s.callers| && s.callers[i].Asleep?
    ensures exists j :: 0 <= j < |s.callers| && j != i && (s.callers[j].InFlight() || s.callers[j].Broadcast?)
    ensures s.lock.None? ==> s.cache.fetching
    ensures forall w: nat :: Enabled(s, WakeAll(w)) ==>
              var t := Apply(leeway, s, WakeAll(w));
              forall k :: 0 <= k < |t.callers| ==> !t.callers[k].Asleep?
  {
    ReachableInv(leeway, s);
    assert WakeUpToCome(s);
  }

  /** A fetch starts only when the cached token is missing or expired and no fetch is under way. */
  lemma NoFetchWhileTheTokenIsGood(leeway: int, s: State, i: nat)
    requires Reachable(leeway, s) && Enabled(s, SetFlag(i))
    ensures s.cache.token == "" || s.clock >= s.cache.expiry
    ensures forall k :: 0 <= k < |s.callers| ==> !s.callers[k].InFlight()
  {
    ReachableInv(leeway, s);
    assert CallerInv(s.cache, s.clock, s.callers[i]);
  }

  /** Every token ever returned was granted by some fetch: either the caller's own, or one that was
      stored before and not yet expired when the caller checked it under the lock. */
  lemma EveryTokenIsAccountedFor(leeway: int, s: State, k: nat)
    requires Reachable(leeway, s) && k < |s.returned|
    ensures match s.returned[k]
            case FromCache(_, token, at) =>
              exists e <- s.stored :: e.token == token != "" && e.storedAt <= at < e.expiry
            case OwnFetch(owner, entry) => entry in s.stored && entry.owner == owner && entry.token != ""
            case Failed(_) => true
  {
    ReachableInv(leeway, s);
    assert Accounted(s.stored, s.returned[k]);
    match s.returned[k]
    case FromCache(_, token, at) =>
      var m :| 0 <= m < |s.stored| && s.stored[m].token == token && s.stored[m].storedAt <= at < s.stored[m].expiry;
      assert s.stored[m] in s.stored;
    case OwnFetch(_, _) =>
    case Failed(_) =>
  }

  /** If every lifetime less the leeway is at least `life`, successful fetches are at least `life`
      apart: `k` of them span at least `(k - 1) * life`. */
  lemma {:induction false} FetchesAreSpaced(leeway: int, s: State, life: int, a: nat, b: nat)
    requires Reachable(leeway, s) && a <= b < |s.stored| && life > 0
    requires forall e <- s.stored :: e.expiresIn * 1_000_000_000 - leeway >= life
    ensures s.stored[b].storedAt - s.stored[a].storedAt >= (b - a) * life
    decreases b - a
  {
    if a < b {
      FetchesAreSpaced(leeway, s, life, a, b - 1);
      ReachableInv(leeway, s);
      NextFetchIsLater(leeway, s, life, b);
      assert (b - a) * life == (b - 1 - a) * life + life;
    }
  }

  lemma NextFetchIsLater(leeway: int, s: State, life: int, b: nat)
    requires HistoryInv(leeway, s) && 0 < b < |s.stored|
    requires forall e <- s.stored :: e.expiresIn * 1_000_000_000 - leeway >= life
    ensures s.stored[b].storedAt >= s.stored[b - 1].storedAt + life
  {
    var e := s.stored[b - 1];
    assert e in s.stored;
    assert EntryInv(leeway, e, s.clock) && EntryInv(leeway, s.stored[b], s.clock);
  }

  // ---------------------------------------------------------------- what a call returns

  /** What the fetches of caller `i` were answered in this run, in order. */
  function Answers(run: seq<Step>, i: nat): (answers: seq<Answer>)
  {
    if run == [] then []
    else (if run[0].FetchReturns? && run[0].i == i then [run[0].with] else []) + Answers(run[1..], i)
  }

  /** The answer the caller has not yet acted on. */
  function Held(callers: seq<Pc>, i: nat): (answers: seq<Answer>)
  {
    if i >= |callers| then []
    else
      match callers[i]
      case HasAnswer(answer, _) => [answer]
      case Clear(answer, _) => [answer]
      case Broadcast(answer, _) => [answer]
      case Store(answer, _) => [answer]
      case _ => []
  }

  /** The answers that the calls of caller `i` returned: their own token or a failure, not cached tokens. */
  function OwnResults(returned: seq<Outcome>, i: nat): (answers: seq<Answer>)
  {
    if returned == [] then []
    else
      OwnResults(returned[..|returned| - 1], i) +
      match returned[|returned| - 1]
      case OwnFetch(owner, entry) => if owner == i then [Granted(entry.token, entry.expiresIn)] else []
      case Failed(owner) => if owner == i then [Refused] else []
      case FromCache(_, _, _) => []
  }

  function Returns(returned: seq<Outcome>, i: nat): (n: nat)
  {
    if returned == [] then 0
    else Returns(returned[..|returned| - 1], i) + if returned[|returned| - 1].owner == i then 1 else 0
  }

  function Calls(run: seq<Step>, i: nat): (n: nat)
  {
    if run == [] then 0 else (if run[0] == Call(i) then 1 else 0) + Calls(run[1..], i)
  }

  function Open(callers: seq<Pc>, i: nat): (n: nat)
  {
    if i < |callers| && !callers[i].Idle? then 1 else 0
  }

  /** What `i` returned and the answer it holds. */
  function Received(s: State, i: nat): (answers: seq<Answer>)
  {
    OwnResults(s.returned, i) + Held(s.callers, i)
  }

  /** Calls of `i` that returned and the one under way. */
  function Accepted(s: State, i: nat): (n: nat)
  {
    Returns(s.returned, i) + Open(s.callers, i)
  }

  lemma OneMoreReturn(returned: seq<Outcome>, o: Outcome, i: nat)
    ensures OwnResults(returned + [o], i) == OwnResults(returned, i) + OwnResults([o], i)
    ensures Returns(returned + [o], i) == Returns(returned, i) + if o.owner == i then 1 else 0
  {
    assert (returned + [o])[..|returned|] == returned;
    assert [o][..0] == [];
  }

  lemma CheckSettles(leeway: int, s: State, c: nat, i: nat)
    requires Enabled(s, Check(c))
    ensures Received(Apply(leeway, s, Check(c)), i) == Received(s, i)
    ensures Accepted(Apply(leeway, s, Check(c)), i) == Accepted(s, i)
  {
    var t := Apply(leeway, s, Check(c));
    if s.cache.token != "" && s.clock < s.cache.expiry {
      CachedIsNoOwnResult(s.returned, c, s.cache.token, s.clock, i);
    }
    assert Held(t.callers, i) == Held(s.callers, i);
  }

  lemma CachedIsNoOwnResult(returned: seq<Outcome>, owner: nat, token: string, at: int, i: nat)
    ensures OwnResults(returned + [FromCache(owner, token, at)], i) == OwnResults(returned, i)
    ensures Returns(returned + [FromCache(owner, token, at)], i) == Returns(returned, i) + if owner == i then 1 else 0
  {
    OneMoreReturn(returned, FromCache(owner, token, at), i);
    assert OwnResults([FromCache(owner, token, at)], i) == [];
  }

  lemma FinishSettles(leeway: int, s: State, c: nat, i: nat)
    requires Enabled(s, Finish(c))
    ensures Received(Apply(leeway, s, Finish(c)), i) == Received(s, i)
    ensures Accepted(Apply(leeway, s, Finish(c)), i) == Accepted(s, i)
  {
    var t := Apply(leeway, s, Finish(c));
    var o := t.returned[|s.returned|];
    OneMoreReturn(s.returned, o, i);
    FinishReturns(leeway, s, c, i);
  }

  lemma FinishReturns(leeway: int, s: State, c: nat, i: nat)
    requires Enabled(s, Finish(c))
    ensures var t := Apply(leeway, s, Finish(c));
            && |t.returned| == |s.returned| + 1 && t.returned == s.returned + [t.returned[|s.returned|]]
            && OwnResults([t.returned[|s.returned|]], i) + Held(t.callers, i) == Held(s.callers, i)
  {
    var t := Apply(leeway, s, Finish(c));
    var o := t.returned[|s.returned|];
    assert [o][..0] == [];
    if c != i { assert [] + Held(t.callers, i) == Held(s.callers, i); }
  }

  lemma StepSettles(leeway: int, s: State, step: Step, i: nat)
    requires Enabled(s, step)
    ensures Received(Apply(leeway, s, step), i) == Received(s, i) + Answers([step], i)
    ensures Accepted(Apply(leeway, s, step), i) == Accepted(s, i) + Calls([step], i)
  {
    assert [step][1..] == [];
    if step.Check? {
      CheckSettles(leeway, s, step.i, i);
    } else if step.Finish? {
      FinishSettles(leeway, s, step.i, i);
    }
  }

  lemma {:induction false} RunSettles(leeway: int, s: State, run: seq<Step>, i: nat)
    requires Valid(leeway, s, run)
    ensures Received(Exec(leeway, s, run), i) == Received(s, i) + Answers(run, i)
    ensures Accepted(Exec(leeway, s, run), i) == Accepted(s, i) + Calls(run, i)
    decreases |run|
  {
    if run != [] {
      assert [run[0]][1..] == [];
      StepSettles(leeway, s, run[0], i);
      RunSettles(leeway, Apply(leeway, s, run[0]), run[1..], i);
      Associate(Received(s, i), Answers([run[0]], i), Answers(run[1..], i));
    }
  }

  lemma Associate(a: seq<Answer>, b: seq<Answer>, c: seq<Answer>)
    ensures a + b + c == a + (b + c)
  {
  }

  /** Every caller returns just what its own fetches were answered, in that order: the token granted, with
      the lifetime it is stored under, or a failure for a refusal; besides it returns cached tokens, and each
      call returns once. */
  lemma EveryAnswerIsReturned(leeway: int, n: nat, run: seq<Step>, i: nat)
    requires Valid(leeway, Init(n), run)
    ensures var s := Exec(leeway, Init(n), run);
            && OwnResults(s.returned, i) + Held(s.callers, i) == Answers(run, i)
            && Returns(s.returned, i) + Open(s.callers, i) == Calls(run, i)
  {
    RunSettles(leeway, Init(n), run, i);
    assert [] + Answers(run, i) == Answers(run, i);
  }

  /** A call that finds a token in its lifetime returns that token at once and leaves the cache alone; one
      that does not returns nothing yet. */
  lemma LiveTokenIsReturned(leeway: int, s: State, i: nat)
    requires Enabled(s, Check(i))
    ensures var t, live := Apply(leeway, s, Check(i)), s.cache.token != "" && s.clock < s.cache.expiry;
            && t.returned == s.returned + (if live then [FromCache(i, s.cache.token, s.clock)] else [])
            && (t.callers[i].Idle? <==> live) && t.cache == s.cache
  {
    assert s.returned + [] == s.returned;
  }

  // ---------------------------------------------------------------- progress and termination

  /** A step of a call already made, as opposed to the clock and to new calls. */
  predicate Inner(step: Step) { !step.Advance? && !step.Call? }

  /** While a call is open some caller can move: nobody waits for a lock that is never released or
      for a broadcast that never comes. */
  lemma NoCallIsStuck(leeway: int, s: State, i: nat) returns (step: Step)
    requires Inv(leeway, s) && i < |s.callers| && !s.callers[i].Idle?
    ensures Inner(step) && Enabled(s, step)
  {
    if s.lock.Some? {
      step := HolderMoves(s, s.lock.value);
    } else if s.callers[i].Asleep? {
      assert WakeUpToCome(s);
      var j :| 0 <= j < |s.callers| && (s.callers[j].InFlight() || s.callers[j].Broadcast?);
      step := if s.callers[j].Fetching? then FetchReturns(j, Refused) else Acquire(j);
    } else if s.callers[i].Fetching? {
      step := FetchReturns(i, Refused);
    } else {
      step := Acquire(i);
    }
  }

  lemma HolderMoves(s: State, h: nat) returns (step: Step)
    requires h < |s.callers| && s.callers[h].HoldsLock()
    ensures Inner(step) && Enabled(s, step)
  {
    match s.callers[h]
    case FirstCheck => step := Check(h);
    case Recheck => step := Check(h);
    case LoopTest => step := TestFlag(h);
    case Mark => step := SetFlag(h);
    case Clear(_, _) => step := ClearFlag(h);
    case Broadcast(_, _) => step := WakeAll(h);
    case Store(_, _) => step := Finish(h);
  }

  /** How far a caller is from returning. A broadcast can set every sleeper back, so each caller
      that may still broadcast weighs more than all sleepers together. */
  function Weight(pc: Pc, n: nat): nat
  {
    match pc
    case Idle => 0
    case Store(_, _) => 1
    case Asleep => 10 * n
    case Broadcast(_, _) => 10 * n + 2
    case Clear(_, _) => 10 * n + 3
    case HasAnswer(_, _) => 10 * n + 4
    case Fetching(_) => 10 * n + 5
    case Mark => 10 * n + 6
    case LoopTest => 10 * n + 7
    case FirstCheck => 10 * n + 8
    case Recheck => 10 * n + 8
    case Woken => 10 * n + 9
    case WantsLock => 10 * n + 9
  }

  function Work(callers: seq<Pc>, n: nat): nat
  {
    if callers == [] then 0 else Work(callers[..|callers| - 1], n) + Weight(callers[|callers| - 1], n)
  }

  lemma {:induction false} WorkUpdate(callers: seq<Pc>, n: nat, i: nat, pc: Pc)
    requires i < |callers|
    ensures Work(callers[i := pc], n) == Work(callers, n) - Weight(callers[i], n) + Weight(pc, n)
  {
    var last := |callers| - 1;
    if i < last {
      WorkUpdate(callers[..last], n, i, pc);
      assert callers[i := pc][..last] == callers[..last][i := pc];
    } else {
      assert callers[i := pc][..last] == callers[..last];
    }
  }

  lemma {:induction false} WorkAwake(callers: seq<Pc>, n: nat)
    ensures Work(Awake(callers), n) <= Work(callers, n) + 9 * |callers|
  {
    if callers != [] {
      var last := |callers| - 1;
      WorkAwake(callers[..last], n);
      assert Awake(callers)[..last] == Awake(callers[..last]);
    }
  }

  function Measure(s: State): nat { Work(s.callers, |s.callers|) }

  /** Every step of an open call brings the open calls closer to returning; time does not matter. */
  lemma InnerStepsDoWork(leeway: int, s: State, step: Step)
    requires Enabled(s, step) && (Inner(step) || step.Advance?)
    ensures if Inner(step) then Measure(Apply(leeway, s, step)) < Measure(s)
            else Measure(Apply(leeway, s, step)) == Measure(s)
  {
    var t := Apply(leeway, s, step);
    if Inner(step) {
      var n := |s.callers|;
      if step.WakeAll? {
        WorkAwake(s.callers, n);
        WorkUpdate(Awake(s.callers), n, step.i, t.callers[step.i]);
      } else {
        WorkUpdate(s.callers, n, step.i, t.callers[step.i]);
      }
    }
  }

  /** Without new calls every interleaving is finite (however the clock runs), and every open call
      can return, even if all fetches fail. */
  lemma {:induction false} OpenCallsReturn(leeway: int, s: State) returns (run: seq<Step>)
    requires Inv(leeway, s)
    ensures Valid(leeway, s, run) && forall step <- run :: Inner(step)
    ensures |Exec(leeway, s, run).callers| == |s.callers|
    ensures forall i :: 0 <= i < |s.callers| ==> Exec(leeway, s, run).callers[i].Idle?
    decreases Measure(s)
  {
    if forall i :: 0 <= i < |s.callers| ==> s.callers[i].Idle? {
      run := [];
    } else {
      var i :| 0 <= i < |s.callers| && !s.callers[i].Idle?;
      var step := NoCallIsStuck(leeway, s, i);
      InnerStepsDoWork(leeway, s, step);
      StepKeepsInv(leeway, s, step);
      var rest := OpenCallsReturn(leeway, Apply(leeway, s, step));
      run := [step] + rest;
    }
  }

  function InnerSteps(run: seq<Step>): nat
  {
    if run == [] then 0 else (if Inner(run[0]) then 1 else 0) + InnerSteps(run[1..])
  }

  lemma {:induction false} OpenCallsAreBounded(leeway: int, s: State, run: seq<Step>)
    requires Valid(leeway, s, run) && forall step <- run :: !step.Call?
    ensures InnerSteps(run) <= Measure(s)
    decreases |run|
  {
    if run != [] {
      assert run[0] in run;
      InnerStepsDoWork(leeway, s, run[0]);
      assert forall step <- run[1..] :: step in run;
      OpenCallsAreBounded(leeway, Apply(leeway, s, run[0]), run[1..]);
    }
  }
}
