/** Scheduled fires of sets (internal/scheduler/manager.go, Run and fire): while the cron service runs it
    starts a goroutine for every due time, and a set must never have two runs in progress. */
module Firing {
  /** The manager's run context: not set before Run, then live until it is cancelled. */
  datatype Context = NotSet | Live | Cancelled

  /** `Started`: before LoadOrStore. `Busy`: the set was, nothing more to do. `Marked`: the set is marked,
      the context not read yet. `Called`: in the callback, with this context. `Returned`: the callback is
      over and the deferred Delete done. */
  datatype Phase = Started | Busy | Marked | Called(with: Context) | Returned(with: Context)

  datatype Fire = Fire(setId: string, phase: Phase)

  /** `marked` are the keys of the inFlight map, `running` says whether the cron service starts fires. */
  datatype State = State(fires: seq<Fire>, marked: set<string>, ctx: Context, running: bool)

  datatype Step =
    | Run | Cancel | Stop
    | Due(setId: string)
    | LoadOrStore(fire: nat) | Call(fire: nat) | Return(fire: nat)

  predicate Enabled(s: State, step: Step)
  {
    match step
    case Run => s.ctx == NotSet
    case Cancel => s.ctx == Live
    case Stop => s.ctx == Cancelled && s.running
    case Due(_) => s.running
    case LoadOrStore(f) => f < |s.fires| && s.fires[f].phase == Started
    case Call(f) => f < |s.fires| && s.fires[f].phase == Marked
    case Return(f) => f < |s.fires| && s.fires[f].phase.Called?
  }

  function Moved(s: State, f: nat, phase: Phase): State
    requires f < |s.fires|
  {
    s.(fires := s.fires[f := s.fires[f].(phase := phase)])
  }

  function Apply(s: State, step: Step): State
    requires Enabled(s, step)
  {
    match step
    case Run => s.(ctx := Live, running := true)
    case Cancel => s.(ctx := Cancelled)
    case Stop => s.(running := false)
    case Due(setId) => s.(fires := s.fires + [Fire(setId, Started)])
    case LoadOrStore(f) =>
      if s.fires[f].setId in s.marked then
        Moved(s, f, Busy)
      else
        Moved(s, f, Marked).(marked := s.marked + {s.fires[f].setId})
    case Call(f) => Moved(s, f, Called(s.ctx))
    case Return(f) => Moved(s, f, Returned(s.fires[f].phase.with)).(marked := s.marked - {s.fires[f].setId})
  }

  const IDLE := State([], {}, NotSet, false)

  ghost predicate Reachable(s: State)
  {
    exists steps: seq<Step> :: Runs(IDLE, steps, s)
  }

  ghost predicate Runs(from: State, steps: seq<Step>, s: State)
  {
    if steps == [] then
      s == from
    else
      var n := |steps| - 1;
      exists mid: State :: Runs(from, steps[..n], mid) && Enabled(mid, steps[n]) && Apply(mid, steps[n]) == s
  }

  /** Fire `f` is a run of the set in progress: between LoadOrStore and the deferred Delete. */
  predicate InProgress(s: State, f: nat, setId: string)
  {
    f < |s.fires| && s.fires[f].setId == setId && (s.fires[f].phase.Marked? || s.fires[f].phase.Called?)
  }

  /** The marks are the sets in progress, and a set is in progress once. */
  ghost predicate Inv(s: State)
  {
    && (forall setId :: setId in s.marked <==> exists f: nat :: InProgress(s, f, setId))
    && (forall f: nat, g: nat, setId :: InProgress(s, f, setId) && InProgress(s, g, setId) ==> f == g)
  }

  lemma StepKeepsInv(s: State, step: Step)
    requires Inv(s) && Enabled(s, step)
    ensures Inv(Apply(s, step))
  {
    var t := Apply(s, step);
    if step.LoadOrStore? || step.Return? {
      var f := step.fire;
      assert forall g: nat, setId :: g != f ==> (InProgress(t, g, setId) <==> InProgress(s, g, setId));
      MarksFollow(s, step);
    } else {
      assert forall f: nat, setId :: InProgress(t, f, setId) <==> InProgress(s, f, setId);
    }
  }

  lemma MarksFollow(s: State, step: Step)
    requires Inv(s) && Enabled(s, step) && (step.LoadOrStore? || step.Return?)
    ensures var t := Apply(s, step); forall setId :: setId in t.marked <==> exists f: nat :: InProgress(t, f, setId)
  {
    var t, f := Apply(s, step), step.fire;
    assert forall g: nat, setId :: g != f ==> (InProgress(t, g, setId) <==> InProgress(s, g, setId));
    forall setId ensures setId in t.marked <==> exists g: nat :: InProgress(t, g, setId) {
      if g: nat :| InProgress(s, g, setId) && g != f {
        assert InProgress(t, g, setId);
        assert step.Return? ==> InProgress(s, f, s.fires[f].setId);
      } else {
        assert forall g: nat :: InProgress(t, g, setId) ==> g == f;
        assert InProgress(t, f, setId) <==> setId == s.fires[f].setId && t.fires[f].phase == Marked;
        assert setId in s.marked ==> InProgress(s, f, setId);
      }
    }
  }

  lemma {:induction false} RunKeepsInv(steps: seq<Step>, s: State)
    requires Runs(IDLE, steps, s)
    ensures Inv(s)
  {
    if steps != [] {
      var n := |steps| - 1;
      var mid: State :| Runs(IDLE, steps[..n], mid) && Enabled(mid, steps[n]) && Apply(mid, steps[n]) == s;
      RunKeepsInv(steps[..n], mid);
      StepKeepsInv(mid, steps[n]);
    }
  }

  lemma ReachableInv(s: State)
    requires Reachable(s)
    ensures Inv(s)
  {
    var steps: seq<Step> :| Runs(IDLE, steps, s);
    RunKeepsInv(steps, s);
  }

  // ---------------------------------------------------------------- single flight

  /** However the due times and the goroutines interleave, a set never has two runs in progress. */
  lemma NeverTwoRunsOfASet(s: State, f: nat, g: nat, setId: string)
    requires Reachable(s) && InProgress(s, f, setId) && InProgress(s, g, setId)
    ensures f == g
  {
    ReachableInv(s);
  }

  ghost predicate SetIsBusy(s: State, setId: string)
  {
    exists g: nat :: InProgress(s, g, setId)
  }

  /** A fire is skipped exactly when a run of its set is in progress, so no mark is ever left behind. */
  lemma SkippedExactlyWhenRunning(s: State, f: nat)
    requires Reachable(s) && Enabled(s, LoadOrStore(f))
    ensures Apply(s, LoadOrStore(f)).fires[f].phase == Busy <==> SetIsBusy(s, s.fires[f].setId)
  {
    ReachableInv(s);
  }

  // ---------------------------------------------------------------- cancellation

  /** Once its set is marked a fire is never skipped: whatever else happens, it is waiting to call its
      callback, in it, or back from it. */
  lemma {:induction false} MarkedFireIsCalled(s: State, f: nat, steps: seq<Step>, t: State)
    requires f < |s.fires| && s.fires[f].phase == Marked && Runs(s, steps, t)
    ensures f < |t.fires| && t.fires[f].setId == s.fires[f].setId
    ensures t.fires[f].phase == Marked || t.fires[f].phase.Called? || t.fires[f].phase.Returned?
    ensures t.fires[f].phase == Marked ==>
              Enabled(t, Call(f)) && Apply(t, Call(f)).fires[f].phase == Called(t.ctx)
  {
    if steps != [] {
      var n := |steps| - 1;
      var mid: State :| Runs(s, steps[..n], mid) && Enabled(mid, steps[n]) && Apply(mid, steps[n]) == t;
      MarkedFireIsCalled(s, f, steps[..n], mid);
      MarkedStays(mid, steps[n], f);
    }
  }

  lemma MarkedStays(s: State, step: Step, f: nat)
    requires f < |s.fires| && Enabled(s, step)
    requires s.fires[f].phase == Marked || s.fires[f].phase.Called? || s.fires[f].phase.Returned?
    ensures var t := Apply(s, step);
            && f < |t.fires| && t.fires[f].setId == s.fires[f].setId
            && (t.fires[f].phase == Marked || t.fires[f].phase.Called? || t.fires[f].phase.Returned?)
  {
  }

  /** The callback of a started fire will run: nothing but its own call stands between. */
  ghost predicate WillCall(s: State, f: nat)
    requires Enabled(s, LoadOrStore(f))
  {
    var t := Apply(s, LoadOrStore(f));
    Enabled(t, Call(f)) && Apply(t, Call(f)).fires[f].phase == Called(s.ctx)
  }

  /** A started fire runs its callback exactly when no run of its set is in progress, whatever the
      context. So "skipped when the context is cancelled" is true of a fire exactly when the context is
      not cancelled or its set is busy. */
  lemma CancelledContextSkipsNothing(s: State, f: nat)
    requires Reachable(s) && Enabled(s, LoadOrStore(f))
    ensures WillCall(s, f) <==> !SetIsBusy(s, s.fires[f].setId)
    ensures (s.ctx == Cancelled ==> !WillCall(s, f)) <==> s.ctx != Cancelled || SetIsBusy(s, s.fires[f].setId)
  {
    ReachableInv(s);
  }

  /** A fire that comes due after the cancellation, before the cron service has stopped. */
  lemma CancelledFireIsCalled()
    ensures Reachable(State([Fire("nightly", Called(Cancelled))], {"nightly"}, Cancelled, true))
  {
    assert Runs(IDLE, [], IDLE);
    var s1 := Next(IDLE, Run);
    var s2 := Next(s1, Cancel);
    var s3 := Next(s2, Due("nightly"));
    var s4 := Next(s3, LoadOrStore(0));
    var s5 := Next(s4, Call(0));
    assert s5 == State([Fire("nightly", Called(Cancelled))], {"nightly"}, Cancelled, true);
  }

  lemma Next(s: State, step: Step) returns (t: State)
    requires Reachable(s) && Enabled(s, step)
    ensures t == Apply(s, step) && Reachable(t)
  {
    t := Apply(s, step);
    var steps: seq<Step> :| Runs(IDLE, steps, s);
    assert (steps + [step])[..|steps|] == steps;
    assert Runs(IDLE, steps + [step], t);
  }

  predicate ContextInv(s: State)
  {
    && (s.running || s.fires != [] ==> s.ctx != NotSet)
    && forall fire <- s.fires :: fire.phase.Called? || fire.phase.Returned? ==>
         fire.phase.with != NotSet && (fire.phase.with == Cancelled ==> s.ctx == Cancelled)
  }

  lemma StepKeepsContextInv(s: State, step: Step)
    requires ContextInv(s) && Enabled(s, step)
    ensures ContextInv(Apply(s, step))
  {
    if step.Return? {
      assert s.fires[step.fire] in s.fires;
    }
  }

  /** Every callback gets the context of Run, never none at all, and a cancelled one only once it is. */
  lemma {:induction false} EveryCallHasTheRunContext(steps: seq<Step>, s: State)
    requires Runs(IDLE, steps, s)
    ensures ContextInv(s)
  {
    if steps != [] {
      var n := |steps| - 1;
      var mid: State :| Runs(IDLE, steps[..n], mid) && Enabled(mid, steps[n]) && Apply(mid, steps[n]) == s;
      EveryCallHasTheRunContext(steps[..n], mid);
      StepKeepsContextInv(mid, steps[n]);
    }
  }

  /** The due times in this run, by set. */
  function DueSets(steps: seq<Step>): (sets: seq<string>)
  {
    if steps == [] then
      []
    else
      DueSets(steps[..|steps| - 1]) + if steps[|steps| - 1].Due? then [steps[|steps| - 1].setId] else []
  }

  function Sets(fires: seq<Fire>): (sets: seq<string>)
    ensures |sets| == |fires|
  {
    seq(|fires|, i requires 0 <= i < |fires| => fires[i].setId)
  }

  lemma StepStartsWhatIsDue(s: State, step: Step)
    requires Enabled(s, step)
    ensures Sets(Apply(s, step).fires) == Sets(s.fires) + if step.Due? then [step.setId] else []
    ensures s.ctx == Cancelled && !s.running ==>
              !step.Due? && Apply(s, step).ctx == Cancelled && !Apply(s, step).running
  {
    assert Sets(s.fires) + [] == Sets(s.fires);
  }

  /** There is one fire for each due time, of the set that was due, in that order. */
  lemma {:induction false} FiresAreTheDueTimes(from: State, steps: seq<Step>, s: State)
    requires Runs(from, steps, s)
    ensures Sets(s.fires) == Sets(from.fires) + DueSets(steps)
    ensures from.ctx == Cancelled && !from.running ==> s.ctx == Cancelled && !s.running && DueSets(steps) == []
  {
    if steps != [] {
      var n := |steps| - 1;
      var mid: State :| Runs(from, steps[..n], mid) && Enabled(mid, steps[n]) && Apply(mid, steps[n]) == s;
      FiresAreTheDueTimes(from, steps[..n], mid);
      StepStartsWhatIsDue(mid, steps[n]);
    }
  }

  /** Once the cron service is stopped no further fire starts. */
  lemma NoFireAfterStop(s: State, steps: seq<Step>, t: State)
    requires Enabled(s, Stop) && Runs(Apply(s, Stop), steps, t)
    ensures |t.fires| == |s.fires|
  {
    FiresAreTheDueTimes(Apply(s, Stop), steps, t);
    assert |Sets(t.fires)| == |Sets(s.fires)|;
  }
}
