/** The scheduler, the permit channel, the worker pool and the graceful shutdown of
    internal/runner/runner.go, as one interleaved step system.

    Every step is one atomic action of one goroutine (an atomic counter update, a channel
    operation, a context call) or of the environment (parent cancel, deadline, timer). A run
    is any sequence of enabled steps, so a statement about `Exec` holds in every interleaving. */
module Runner {
  import opened Options
  import opened LoadPatterns

  /** The options `New` is given. `segments` is the compiled plan; none stands for a nil plan. */
  datatype Settings = Settings(
    concurrency: int, totalRequests: int, duration: int, gracefulShutdown: int,
    hasRequester: bool, segments: seq<Segment>)

  const DEFAULT_GRACE := 5_000_000_000

  function Normalize(o: Settings): (n: Settings)
    ensures Normalized(n)
    ensures Normalized(o) ==> n == o
    ensures n.concurrency == o.concurrency || (o.concurrency < 1 && n.concurrency == 1)
    ensures n.totalRequests == o.totalRequests || (o.totalRequests < 0 && n.totalRequests == 0)
    ensures n.gracefulShutdown == o.gracefulShutdown || (o.gracefulShutdown == 0 && n.gracefulShutdown == 5_000_000_000)
    ensures n.duration == o.duration && n.hasRequester == o.hasRequester && n.segments == o.segments
  {
    o.(concurrency := if o.concurrency <= 0 then 1 else o.concurrency,
       totalRequests := if o.totalRequests < 0 then 0 else o.totalRequests,
       gracefulShutdown := if o.gracefulShutdown == 0 then DEFAULT_GRACE else o.gracefulShutdown)
  }

  predicate Normalized(o: Settings)
  {
    o.concurrency >= 1 && o.totalRequests >= 0 && o.gracefulShutdown != 0
  }

  // ---------------------------------------------------------------- states

  datatype SchedulerPc =
    | CheckContext | CheckTotal | AwaitArrival | Increment | Offer
    | ClosePermits | CloseDone | Ended

  /** Why the scheduler left its loop. */
  datatype Exit = Scheduling | ContextEnded | TotalReached | ArrivalFailed

  /** `issued` is history: the permits sent so far. */
  datatype Scheduler = Scheduler(pc: SchedulerPc, exit: Exit, total: int, issued: int) {
    predicate InLoop() { !pc.ClosePermits? && !pc.CloseDone? && !pc.Ended? }
    function Leave(why: Exit): Scheduler { this.(pc := ClosePermits, exit := why) }
  }

  datatype WorkerPc = Receiving | Executing | CountingError | Exited

  /** The permit channel and its workers. `finished` and `failed` are history: permits executed
      to the end, requests that returned an error. */
  datatype Pool = Pool(
    permits: int, closed: bool, workers: seq<WorkerPc>, errs: int, finished: int, failed: int)
  {
    function Count(pc: WorkerPc): nat { multiset(workers)[pc] }
    predicate AllExited() { forall i :: 0 <= i < |workers| ==> workers[i] == Exited }
  }

  datatype MainPc = AwaitSchedule | Grace | ForceCancel | AwaitWorkers | LoadResult | Returned

  datatype Result = Result(total: int, errors: int)

  datatype Main = Main(pc: MainPc, scheduleDone: bool, workersDone: bool, result: Option<Result>)

  datatype ControllerPc = NoController | Starting | Ticking | Cancelling | Stopped

  datatype Controller = Controller(pc: ControllerPc, elapsed: int, rate: Option<real>) {
    predicate Leaving() { pc.Cancelling? || pc.Stopped? }
  }

  /** The three nested contexts, and the causes that can end the inner ones. */
  datatype Contexts = Contexts(
    parentDone: bool, runDone: bool, schedulerDone: bool,
    deadlinePassed: bool, patternCancelled: bool, gracePassed: bool)

  datatype State = State(sched: Scheduler, pool: Pool, main: Main, ctrl: Controller, ctx: Contexts)

  function Init(o: Settings): State
    requires o.concurrency >= 1
  {
    State(
      Scheduler(CheckContext, Scheduling, 0, 0),
      Pool(0, false, seq(o.concurrency, _ => Receiving), 0, 0, 0),
      Main(AwaitSchedule, false, false, None),
      Controller(if o.segments == [] then NoController else Starting, 0, None),
      Contexts(false, false, false, false, false, false))
  }

  // ---------------------------------------------------------------- steps

  /** Things the program does not decide, and the two context propagations. */
  datatype Signal = ParentCancel | DeadlinePasses | GracePasses | RunContextEnds | SchedulerContextEnds

  datatype ControllerAction = Start | Tick(at: int) | SeeDone | CancelPattern

  datatype SchedulerAction =
    | TestContext | TestTotal | ArrivalReturns(ok: bool) | TakeSlot
    | Send | RollBack | ClosePermitChannel | CloseScheduleDone

  datatype WorkerAction = Receive | RequestReturns(ok: bool) | CountError | Exit

  datatype MainAction =
    | WorkersFinish | SeeScheduleDone | SeeWorkersDone | SeeCancel | SeeGrace | CancelRun | LoadTotals

  datatype Step =
    | Environment(e: Signal)
    | Control(c: ControllerAction)
    | Schedule(a: SchedulerAction)
    | Work(w: nat, x: WorkerAction)
    | Shutdown(m: MainAction)

  predicate SignalEnabled(o: Settings, s: State, e: Signal)
  {
    match e
    case ParentCancel => !s.ctx.parentDone
    case DeadlinePasses => o.duration > 0 && !s.ctx.deadlinePassed
    case GracePasses => s.main.pc == Grace && !s.ctx.gracePassed
    case RunContextEnds => s.ctx.parentDone && !s.ctx.runDone
    case SchedulerContextEnds =>
      (s.ctx.runDone || s.ctx.deadlinePassed || s.ctx.patternCancelled) && !s.ctx.schedulerDone
  }

  function ApplySignal(s: State, e: Signal): State
  {
    match e
    case ParentCancel => s.(ctx := s.ctx.(parentDone := true))
    case DeadlinePasses => s.(ctx := s.ctx.(deadlinePassed := true))
    case GracePasses => s.(ctx := s.ctx.(gracePassed := true))
    case RunContextEnds => s.(ctx := s.ctx.(runDone := true))
    case SchedulerContextEnds => s.(ctx := s.ctx.(schedulerDone := true))
  }

  predicate ControllerEnabled(s: State, c: ControllerAction)
  {
    match c
    case Start => s.ctrl.pc == Starting
    case Tick(at) => s.ctrl.pc == Ticking && s.ctrl.elapsed <= at
    case SeeDone => s.ctrl.pc == Ticking && s.ctx.schedulerDone
    case CancelPattern => s.ctrl.pc == Cancelling
  }

  function ApplyController(o: Settings, s: State, c: ControllerAction): State
  {
    match c
    case Start => s.(ctrl := Controller(Ticking, s.ctrl.elapsed, SegmentsRate(o.segments, 0)))
    case Tick(at) =>
      var rate := SegmentsRate(o.segments, at);
      s.(ctrl := if rate.None? then Controller(Cancelling, at, s.ctrl.rate) else Controller(Ticking, at, rate))
    case SeeDone => s.(ctrl := s.ctrl.(pc := Cancelling))
    case CancelPattern => s.(ctrl := s.ctrl.(pc := Stopped), ctx := s.ctx.(patternCancelled := true))
  }

  predicate SchedulerEnabled(o: Settings, s: State, a: SchedulerAction)
  {
    match a
    case TestContext => s.sched.pc == CheckContext
    case TestTotal => s.sched.pc == CheckTotal
    case ArrivalReturns(_) => s.sched.pc == AwaitArrival
    case TakeSlot => s.sched.pc == Increment
    case Send => s.sched.pc == Offer && s.pool.permits < o.concurrency
    case RollBack => s.sched.pc == Offer && s.ctx.schedulerDone
    case ClosePermitChannel => s.sched.pc == ClosePermits
    case CloseScheduleDone => s.sched.pc == CloseDone
  }

  function ApplyScheduler(o: Settings, s: State, a: SchedulerAction): State
  {
    match a
    case TestContext =>
      s.(sched := if s.ctx.schedulerDone then s.sched.Leave(ContextEnded) else s.sched.(pc := CheckTotal))
    case TestTotal =>
      s.(sched := if o.totalRequests > 0 && s.sched.total >= o.totalRequests then s.sched.Leave(TotalReached)
                  else s.sched.(pc := AwaitArrival))
    case ArrivalReturns(ok) =>
      s.(sched := if ok then s.sched.(pc := Increment) else s.sched.Leave(ArrivalFailed))
    case TakeSlot => s.(sched := s.sched.(pc := Offer, total := s.sched.total + 1))
    case Send =>
      s.(sched := s.sched.(pc := CheckContext, issued := s.sched.issued + 1),
         pool := s.pool.(permits := s.pool.permits + 1))
    case RollBack => s.(sched := s.sched.(total := s.sched.total - 1).Leave(ContextEnded))
    case ClosePermitChannel => s.(sched := s.sched.(pc := CloseDone), pool := s.pool.(closed := true))
    case CloseScheduleDone => s.(sched := s.sched.(pc := Ended), main := s.main.(scheduleDone := true))
  }

  predicate WorkerEnabled(p: Pool, w: nat, x: WorkerAction)
  {
    w < |p.workers| &&
    match x
    case Receive => p.workers[w] == Receiving && p.permits > 0
    case RequestReturns(_) => p.workers[w] == Executing
    case CountError => p.workers[w] == CountingError
    case Exit => p.workers[w] == Receiving && p.permits == 0 && p.closed
  }

  function ApplyWorker(o: Settings, p: Pool, w: nat, x: WorkerAction): Pool
    requires WorkerEnabled(p, w, x)
  {
    match x
    case Receive =>
      if o.hasRequester then p.(permits := p.permits - 1, workers := p.workers[w := Executing])
      else p.(permits := p.permits - 1, finished := p.finished + 1)
    case RequestReturns(ok) =>
      if ok then p.(finished := p.finished + 1, workers := p.workers[w := Receiving])
      else p.(finished := p.finished + 1, failed := p.failed + 1, workers := p.workers[w := CountingError])
    case CountError => p.(errs := p.errs + 1, workers := p.workers[w := Receiving])
    case Exit => p.(workers := p.workers[w := Exited])
  }

  predicate MainEnabled(s: State, m: MainAction)
  {
    match m
    case WorkersFinish => s.main.pc != AwaitSchedule && !s.main.workersDone && s.pool.AllExited()
    case SeeScheduleDone => s.main.pc == AwaitSchedule && s.main.scheduleDone
    case SeeWorkersDone => (s.main.pc == Grace || s.main.pc == AwaitWorkers) && s.main.workersDone
    case SeeCancel => s.main.pc == Grace && s.ctx.runDone
    case SeeGrace => s.main.pc == Grace && s.ctx.gracePassed
    case CancelRun => s.main.pc == ForceCancel
    case LoadTotals => s.main.pc == LoadResult
  }

  function ApplyMain(o: Settings, s: State, m: MainAction): State
  {
    match m
    case WorkersFinish => s.(main := s.main.(workersDone := true))
    case SeeScheduleDone => s.(main := s.main.(pc := if o.gracefulShutdown < 0 then ForceCancel else Grace))
    case SeeWorkersDone => s.(main := s.main.(pc := LoadResult))
    case SeeCancel => s.(main := s.main.(pc := AwaitWorkers))
    case SeeGrace => s.(main := s.main.(pc := ForceCancel))
    case CancelRun => s.(main := s.main.(pc := AwaitWorkers), ctx := s.ctx.(runDone := true))
    case LoadTotals => s.(main := s.main.(pc := Returned, result := Some(Result(s.sched.total, s.pool.errs))))
  }

  predicate Enabled(o: Settings, s: State, step: Step)
  {
    match step
    case Environment(e) => SignalEnabled(o, s, e)
    case Control(c) => ControllerEnabled(s, c)
    case Schedule(a) => SchedulerEnabled(o, s, a)
    case Work(w, x) => WorkerEnabled(s.pool, w, x)
    case Shutdown(m) => MainEnabled(s, m)
  }

  function Apply(o: Settings, s: State, step: Step): (t: State)
    requires Enabled(o, s, step)
  {
    match step
    case Environment(e) => ApplySignal(s, e)
    case Control(c) => ApplyController(o, s, c)
    case Schedule(a) => ApplyScheduler(o, s, a)
    case Work(w, x) => s.(pool := ApplyWorker(o, s.pool, w, x))
    case Shutdown(m) => ApplyMain(o, s, m)
  }

  predicate Valid(o: Settings, s: State, run: seq<Step>)
    decreases |run|
  {
    run == [] || (Enabled(o, s, run[0]) && Valid(o, Apply(o, s, run[0]), run[1..]))
  }

  function Exec(o: Settings, s: State, run: seq<Step>): State
    requires Valid(o, s, run)
    decreases |run|
  {
    if run == [] then s else Exec(o, Apply(o, s, run[0]), run[1..])
  }

  // ---------------------------------------------------------------- the inductive invariant

  function InHand(c: Scheduler): int { if c.pc.Offer? then 1 else 0 }

  /** Every allocated slot is buffered, running, finished, or just being offered. */
  predicate Conserved(c: Scheduler, p: Pool)
  {
    && c.total == c.issued + InHand(c)
    && c.issued == p.permits + p.Count(Executing) + p.finished
    && p.errs + p.Count(CountingError) == p.failed <= p.finished
  }

  predicate PoolInv(o: Settings, p: Pool)
  {
    && |p.workers| == o.concurrency
    && 0 <= p.permits <= o.concurrency
    && p.finished >= 0
    && (p.Count(Exited) > 0 ==> p.closed && p.permits == 0)
  }

  predicate SchedulerInv(o: Settings, c: Scheduler, closed: bool, scheduleDone: bool)
  {
    && (closed <==> c.pc.CloseDone? || c.pc.Ended?)
    && (scheduleDone <==> c.pc.Ended?)
    && (c.exit.Scheduling? <==> c.InLoop())
    && (o.totalRequests > 0 ==> c.total <= o.totalRequests)
    && (o.totalRequests > 0 && (c.pc.AwaitArrival? || c.pc.Increment?) ==> c.total < o.totalRequests)
    && (c.exit.TotalReached? ==> o.totalRequests > 0 && c.total == o.totalRequests)
  }

  predicate GraceOver(o: Settings, s: State)
  {
    !s.sched.InLoop() && (o.gracefulShutdown < 0 || s.ctx.gracePassed)
  }

  /** The pattern's own end: the controller's last tick found no rate in the plan. */
  predicate PatternOver(o: Settings, c: Controller)
  {
    c.Leaving() && SegmentsRate(o.segments, c.elapsed).None?
  }

  predicate ControllerInv(o: Settings, c: Controller, ctx: Contexts)
  {
    && (c.pc.NoController? <==> o.segments == [])
    && c.elapsed >= 0
    && (c.pc.Starting? ==> c.elapsed == 0)
    && (c.pc.Ticking? ==> c.rate == SegmentsRate(o.segments, c.elapsed))
    && (c.Leaving() ==> ctx.schedulerDone || PatternOver(o, c))
    && (ctx.patternCancelled <==> c.pc.Stopped?)
  }

  predicate ContextInv(o: Settings, s: State)
  {
    && (s.ctx.runDone ==> s.ctx.parentDone || GraceOver(o, s))
    && (s.ctx.schedulerDone ==> s.ctx.runDone || s.ctx.deadlinePassed || PatternOver(o, s.ctrl))
    && (s.sched.exit.ContextEnded? ==> s.ctx.parentDone || s.ctx.deadlinePassed || PatternOver(o, s.ctrl))
    && (s.ctx.deadlinePassed ==> o.duration > 0)
    && (s.ctx.gracePassed ==> !s.main.pc.AwaitSchedule?)
  }

  predicate MainInv(o: Settings, s: State)
  {
    && (!s.main.pc.AwaitSchedule? ==> s.sched.pc.Ended?)
    && (s.main.pc.Grace? ==> o.gracefulShutdown >= 0)
    && (s.main.pc.ForceCancel? ==> o.gracefulShutdown < 0 || s.ctx.gracePassed)
    && (s.main.pc.AwaitWorkers? ==> s.ctx.runDone)
    && (s.main.pc.LoadResult? || s.main.pc.Returned? ==> o.gracefulShutdown >= 0 || s.ctx.runDone)
    && (s.main.workersDone ==> !s.main.pc.AwaitSchedule? && s.pool.AllExited())
    && (s.main.pc.LoadResult? || s.main.pc.Returned? ==> s.main.workersDone)
    && (s.main.pc.Returned? <==> s.main.result.Some?)
    && (s.main.pc.Returned? ==> s.main.result == Some(Result(s.sched.total, s.pool.errs)))
  }

  predicate Inv(o: Settings, s: State)
  {
    && Conserved(s.sched, s.pool)
    && PoolInv(o, s.pool)
    && SchedulerInv(o, s.sched, s.pool.closed, s.main.scheduleDone)
    && ControllerInv(o, s.ctrl, s.ctx)
    && ContextInv(o, s)
    && MainInv(o, s)
  }

  lemma InvInit(o: Settings)
    requires Normalized(o)
    ensures Inv(o, Init(o))
  {
    AllReceiving(o.concurrency);
  }

  lemma {:induction false} AllReceiving(n: nat)
    ensures multiset(seq(n, _ => Receiving)) == multiset{}[Receiving := n]
  {
    if n > 0 {
      AllReceiving(n - 1);
      assert seq(n, _ => Receiving) == seq(n - 1, _ => Receiving) + [Receiving];
    }
  }

  lemma SignalKeepsInv(o: Settings, s: State, e: Signal)
    requires Normalized(o) && Inv(o, s) && SignalEnabled(o, s, e)
    ensures Inv(o, ApplySignal(s, e))
  {
  }

  lemma ControllerKeepsInv(o: Settings, s: State, c: ControllerAction)
    requires Normalized(o) && Inv(o, s) && ControllerEnabled(s, c)
    ensures Inv(o, ApplyController(o, s, c))
  {
  }

  lemma SchedulerKeepsInv(o: Settings, s: State, a: SchedulerAction)
    requires Normalized(o) && Inv(o, s) && SchedulerEnabled(o, s, a)
    ensures Inv(o, ApplyScheduler(o, s, a))
  {
  }

  lemma WorkerKeepsPool(o: Settings, c: Scheduler, p: Pool, w: nat, x: WorkerAction)
    requires Conserved(c, p) && PoolInv(o, p) && WorkerEnabled(p, w, x)
    ensures var q := ApplyWorker(o, p, w, x);
            Conserved(c, q) && PoolInv(o, q) && q.closed == p.closed
    ensures !p.AllExited()
  {
  }

  lemma WorkerKeepsInv(o: Settings, s: State, w: nat, x: WorkerAction)
    requires Normalized(o) && Inv(o, s) && WorkerEnabled(s.pool, w, x)
    ensures Inv(o, s.(pool := ApplyWorker(o, s.pool, w, x)))
  {
    WorkerKeepsPool(o, s.sched, s.pool, w, x);
  }

  lemma MainKeepsInv(o: Settings, s: State, m: MainAction)
    requires Normalized(o) && Inv(o, s) && MainEnabled(s, m)
    ensures Inv(o, ApplyMain(o, s, m))
  {
  }

  lemma StepKeepsInv(o: Settings, s: State, step: Step)
    requires Normalized(o) && Inv(o, s) && Enabled(o, s, step)
    ensures Inv(o, Apply(o, s, step))
  {
    match step
    case Environment(e) => SignalKeepsInv(o, s, e);
    case Control(c) => ControllerKeepsInv(o, s, c);
    case Schedule(a) => SchedulerKeepsInv(o, s, a);
    case Work(w, x) => WorkerKeepsInv(o, s, w, x);
    case Shutdown(m) => MainKeepsInv(o, s, m);
  }

  lemma {:induction false} RunKeepsInv(o: Settings, s: State, run: seq<Step>)
    requires Normalized(o) && Inv(o, s) && Valid(o, s, run)
    ensures Inv(o, Exec(o, s, run))
    decreases |run|
  {
    if run != [] {
      StepKeepsInv(o, s, run[0]);
      RunKeepsInv(o, Apply(o, s, run[0]), run[1..]);
    }
  }

  /** The states some interleaving leads to. */
  ghost predicate Reachable(o: Settings, s: State)
    requires o.concurrency >= 1
  {
    exists run :: Valid(o, Init(o), run) && Exec(o, Init(o), run) == s
  }

  lemma ReachableInv(o: Settings, s: State)
    requires Normalized(o) && Reachable(o, s)
    ensures Inv(o, s)
  {
    var run :| Valid(o, Init(o), run) && Exec(o, Init(o), run) == s;
    InvInit(o);
    RunKeepsInv(o, Init(o), run);
  }

  // ---------------------------------------------------------------- conservation

  /** In every interleaving the total is the buffered permits, the running requests and the
      finished ones, plus one while the scheduler holds a slot it has neither sent nor rolled back. */
  lemma SlotsAreConserved(o: Settings, s: State)
    requires Normalized(o) && Reachable(o, s)
    ensures s.sched.total ==
            s.pool.permits + s.pool.Count(Executing) + s.pool.finished + (if s.sched.pc == Offer then 1 else 0)
    ensures 0 <= s.pool.permits <= o.concurrency
    ensures o.totalRequests > 0 ==> s.sched.total <= o.totalRequests
    ensures s.pool.errs <= s.pool.failed <= s.pool.finished
  {
    ReachableInv(o, s);
  }

  lemma {:induction false} CountWithin(workers: seq<WorkerPc>, pc: WorkerPc)
    ensures multiset(workers)[pc] <= |workers|
    ensures multiset(workers)[pc] == 0 || pc in workers
  {
    if workers != [] {
      CountWithin(workers[1..], pc);
      assert workers == [workers[0]] + workers[1..];
    }
  }

  /** At most `2 * concurrency + 1` requests are ever issued but unfinished. */
  lemma OutstandingIsBounded(o: Settings, s: State)
    requires Normalized(o) && Reachable(o, s)
    ensures 0 <= s.sched.total - s.pool.finished <= 2 * o.concurrency + 1
  {
    ReachableInv(o, s);
    CountWithin(s.pool.workers, Executing);
  }

  lemma NoneLeft(p: Pool, pc: WorkerPc)
    requires p.AllExited() && pc != Exited
    ensures p.Count(pc) == 0
  {
    CountWithin(p.workers, pc);
  }

  /** What `Run` returns: the permits executed and the requests that failed, with the channel
      drained; the requested number unless waiting failed or a context ended first. */
  lemma ResultIsExact(o: Settings, s: State)
    requires Normalized(o) && Reachable(o, s) && s.main.result.Some?
    ensures s.main.result.value == Result(s.pool.finished, s.pool.failed)
    ensures s.sched.issued == s.pool.finished && s.pool.permits == 0
    ensures o.totalRequests > 0 ==> s.main.result.value.total <= o.totalRequests
    ensures s.sched.exit == ContextEnded || s.sched.exit == ArrivalFailed ||
            (s.sched.exit == TotalReached && o.totalRequests > 0 && s.main.result.value.total == o.totalRequests)
    ensures s.sched.exit == ContextEnded ==>
              s.ctx.parentDone || s.ctx.deadlinePassed || PatternOver(o, s.ctrl)
  {
    ReachableInv(o, s);
    NoneLeft(s.pool, Executing);
    NoneLeft(s.pool, CountingError);
    assert s.pool.workers[0] in multiset(s.pool.workers);
  }

  // ---------------------------------------------------------------- cancellation

  /** In-flight requests see a cancelled context only after a parent cancel, or when scheduling
      has ended and the grace is negative or over. Deadline, count and pattern end do not do it. */
  lemma RequestsAreCancelledOnlyForACause(o: Settings, s: State)
    requires Normalized(o) && Reachable(o, s) && s.ctx.runDone
    ensures s.ctx.parentDone ||
            (s.sched.exit != Scheduling && (o.gracefulShutdown < 0 || s.ctx.gracePassed))
  {
    ReachableInv(o, s);
  }

  /** Whoever waits for the workers without a limit has seen to it that their requests are cancelled; with a
      negative grace they always are before `Run` returns. */
  lemma ForcedShutdownCancels(o: Settings, s: State)
    requires Normalized(o) && Reachable(o, s)
    ensures s.main.pc == AwaitWorkers ==> s.ctx.runDone
    ensures s.main.pc == Returned && o.gracefulShutdown < 0 ==> s.ctx.runDone
    ensures s.main.pc == Grace ==> o.gracefulShutdown >= 0
  {
    ReachableInv(o, s);
  }

  /** The scheduler's own context ends only by parent cancel, deadline or the plan running out of
      segments, or because a shutdown already under way cancelled the run. */
  lemma SchedulingStopsOnlyForACause(o: Settings, s: State)
    requires Normalized(o) && Reachable(o, s) && s.ctx.schedulerDone
    ensures s.ctx.parentDone || (s.ctx.deadlinePassed && o.duration > 0) || GraceOver(o, s) ||
            (o.segments != [] && SegmentsRate(o.segments, s.ctrl.elapsed).None?)
  {
    ReachableInv(o, s);
  }

  /** A compiled plan stops the scheduler only at its own end, and until then the controller
      applies rates within the plan's peak. */
  lemma PatternControlFollowsThePlan(o: Settings, s: State, patterns: seq<LoadPattern>)
    requires Normalized(o) && Reachable(o, s) && o.segments == Layout(Pieces(patterns))
    ensures PatternOver(o, s.ctrl) ==> s.ctrl.elapsed >= Total(Pieces(patterns))
    ensures s.ctrl.pc == Ticking && s.ctrl.elapsed < Total(Pieces(patterns)) ==>
              s.ctrl.rate.Some? && s.ctrl.rate == ReadRate(Pieces(patterns), s.ctrl.elapsed)
              && s.ctrl.rate.value <= Peak(Pieces(patterns))
  {
    ReachableInv(o, s);
    RateComesFromTheCoveringSegment(patterns, s.ctrl.elapsed);
    RateIsTheListsReading(patterns, s.ctrl.elapsed);
    RateNeverExceedsMaxRate(patterns, s.ctrl.elapsed);
  }

  /** A tick sets the rate the pattern list has at that time, and from the plan's end on the controller
      leaves, which ends scheduling. */
  lemma TickFollowsThePlan(o: Settings, s: State, patterns: seq<LoadPattern>, at: int)
    requires Normalized(o) && Reachable(o, s) && o.segments == Layout(Pieces(patterns))
    requires Enabled(o, s, Control(Tick(at)))
    ensures var t := Apply(o, s, Control(Tick(at)));
            if at < Total(Pieces(patterns)) then
              t.ctrl.pc == Ticking && t.ctrl.rate == ReadRate(Pieces(patterns), at)
            else
              Enabled(o, t, Control(CancelPattern)) && Apply(o, t, Control(CancelPattern)).ctx.patternCancelled
  {
    ReachableInv(o, s);
    RateComesFromTheCoveringSegment(patterns, at);
    RateIsTheListsReading(patterns, at);
  }

  /** Once the scheduler has left its loop no permit is issued and no slot is taken or given back. */
  lemma {:induction false} NoPermitAfterScheduling(o: Settings, s: State, run: seq<Step>)
    requires !s.sched.InLoop() && Valid(o, s, run)
    ensures !Exec(o, s, run).sched.InLoop()
    ensures Exec(o, s, run).sched.issued == s.sched.issued && Exec(o, s, run).sched.total == s.sched.total
    ensures Exec(o, s, run).sched.exit == s.sched.exit
    decreases |run|
  {
    if run != [] {
      var t := Apply(o, s, run[0]);
      NoPermitAfterScheduling(o, t, run[1..]);
    }
  }

  /** The permit the scheduler may still be working on when its context ends. */
  function LastPermit(c: Scheduler): int
  {
    if c.pc.CheckTotal? || c.pc.AwaitArrival? || c.pc.Increment? || c.pc.Offer? then 1 else 0
  }

  /** Once the scheduler's context has ended every run issues at most the one permit already past the
      context check; from the check itself, and after the loop, none. */
  lemma {:induction false} AtMostOneMorePermit(o: Settings, s: State, run: seq<Step>)
    requires s.ctx.schedulerDone && Valid(o, s, run)
    ensures s.sched.issued <= Exec(o, s, run).sched.issued <= s.sched.issued + LastPermit(s.sched)
    ensures Exec(o, s, run).ctx.schedulerDone
    decreases |run|
  {
    if run != [] {
      AtMostOneMorePermit(o, Apply(o, s, run[0]), run[1..]);
    }
  }

  // ---------------------------------------------------------------- what was done, by the steps of a run

  function Number(run: seq<Step>, counts: Step -> bool): (n: nat)
  {
    if run == [] then 0 else (if counts(run[0]) then 1 else 0) + Number(run[1..], counts)
  }

  predicate Received(step: Step) { step.Work? && step.x.Receive? }
  predicate Answered(step: Step) { step.Work? && step.x.RequestReturns? }
  predicate Refused(step: Step) { step.Work? && step.x == RequestReturns(false) }
  predicate Sent(step: Step) { step == Schedule(Send) }

  /** The controller reads the plan, at the start or at a tick, and there is no rate. */
  predicate AfterThePlan(o: Settings, step: Step)
  {
    step.Control? && (step.c.Start? || step.c.Tick?)
    && SegmentsRate(o.segments, if step.c.Start? then 0 else step.c.at).None?
  }

  predicate FoundNoRate(o: Settings, c: Controller)
  {
    !c.pc.NoController? && !c.pc.Starting? && SegmentsRate(o.segments, c.elapsed).None?
  }

  /** Without a requester no worker ever executes anything. */
  predicate NothingToExecute(o: Settings, p: Pool)
  {
    !o.hasRequester ==> forall w :: 0 <= w < |p.workers| ==> p.workers[w] == Receiving || p.workers[w] == Exited
  }

  /** What the counters have grown by. */
  predicate Counted(o: Settings, s: State, run: seq<Step>, t: State)
  {
    && t.pool.failed == s.pool.failed + Number(run, Refused)
    && t.pool.finished == s.pool.finished + Number(run, if o.hasRequester then Answered else Received)
    && t.sched.issued == s.sched.issued + Number(run, Sent)
  }

  /** What has happened to the scheduler, the contexts and the plan. */
  predicate Remembered(o: Settings, s: State, run: seq<Step>, t: State)
  {
    && (t.sched.exit == ArrivalFailed <==> s.sched.exit == ArrivalFailed || Schedule(ArrivalReturns(false)) in run)
    && (t.ctx.parentDone <==> s.ctx.parentDone || Environment(ParentCancel) in run)
    && (t.ctx.deadlinePassed <==> s.ctx.deadlinePassed || Environment(DeadlinePasses) in run)
    && (t.ctx.gracePassed <==> s.ctx.gracePassed || Environment(GracePasses) in run)
    && (FoundNoRate(o, t.ctrl) ==> FoundNoRate(o, s.ctrl) || exists step <- run :: AfterThePlan(o, step))
  }

  lemma StepIsCounted(o: Settings, s: State, step: Step)
    requires Enabled(o, s, step) && NothingToExecute(o, s.pool)
    ensures Counted(o, s, [step], Apply(o, s, step)) && NothingToExecute(o, Apply(o, s, step).pool)
  {
    var counts := if o.hasRequester then Answered else Received;
    assert Number([step][1..], counts) == Number([step][1..], Refused) == Number([step][1..], Sent) == 0;
  }

  lemma StepIsRemembered(o: Settings, s: State, step: Step)
    requires Enabled(o, s, step) && (s.sched.exit.Scheduling? <==> s.sched.InLoop())
    requires s.ctrl.pc.Starting? ==> s.ctrl.elapsed == 0
    ensures Remembered(o, s, [step], Apply(o, s, step))
  {
    assert [step][0] == step;
    match step
    case Environment(_) =>
    case Control(_) => assert step in [step];
    case Schedule(_) =>
    case Work(_, _) =>
    case Shutdown(_) =>
  }

  lemma {:induction false} RunIsCounted(o: Settings, s: State, run: seq<Step>)
    requires NothingToExecute(o, s.pool) && Valid(o, s, run)
    ensures Counted(o, s, run, Exec(o, s, run))
    decreases |run|
  {
    if run != [] {
      StepIsCounted(o, s, run[0]);
      RunIsCounted(o, Apply(o, s, run[0]), run[1..]);
      NumberCons(run, Refused);
      NumberCons(run, Sent);
      NumberCons(run, if o.hasRequester then Answered else Received);
    }
  }

  lemma NumberCons(run: seq<Step>, counts: Step -> bool)
    requires run != []
    ensures Number(run, counts) == Number([run[0]], counts) + Number(run[1..], counts)
  {
    assert [run[0]][1..] == [];
  }

  lemma {:induction false} RunIsRemembered(o: Settings, s: State, run: seq<Step>)
    requires Normalized(o) && Inv(o, s) && Valid(o, s, run)
    ensures Remembered(o, s, run, Exec(o, s, run))
    decreases |run|
  {
    if run != [] {
      var t := Apply(o, s, run[0]);
      StepKeepsInv(o, s, run[0]);
      StepIsRemembered(o, s, run[0]);
      RunIsRemembered(o, t, run[1..]);
      RememberedTogether(o, s, run[0], t, run[1..], Exec(o, t, run[1..]));
      assert [run[0]] + run[1..] == run;
    }
  }

  lemma RememberedTogether(o: Settings, s: State, first: Step, t: State, rest: seq<Step>, u: State)
    requires Remembered(o, s, [first], t) && Remembered(o, t, rest, u)
    ensures Remembered(o, s, [first] + rest, u)
  {
    assert forall step :: step in [first] + rest <==> step in [first] || step in rest;
  }

  /** The result of a whole run, told by its steps: Errors is how many requests returned an error, Total how
      many returned at all (without a requester: how many permits were received), and how many permits were
      sent. A positive TotalRequests is reached unless waiting for arrival failed, the caller cancelled, the
      deadline passed, or the plan was read after its end. */
  lemma ResultTellsTheRun(o: Settings, run: seq<Step>)
    requires Normalized(o) && Valid(o, Init(o), run) && Exec(o, Init(o), run).main.result.Some?
    ensures var result := Exec(o, Init(o), run).main.result.value;
            && result.errors == Number(run, Refused)
            && result.total == Number(run, if o.hasRequester then Answered else Received) == Number(run, Sent)
            && ((o.totalRequests > 0 && result.total == o.totalRequests)
                || Schedule(ArrivalReturns(false)) in run || Environment(ParentCancel) in run
                || Environment(DeadlinePasses) in run || exists step <- run :: AfterThePlan(o, step))
  {
    InvInit(o);
    RunIsCounted(o, Init(o), run);
    RunIsRemembered(o, Init(o), run);
    ResultIsExact(o, Exec(o, Init(o), run));
  }

  /** The causes of cancellation as steps: requests are cancelled only if the caller cancelled or the grace
      passed or was negative. */
  lemma CancellationTellsTheRun(o: Settings, run: seq<Step>)
    requires Normalized(o) && Valid(o, Init(o), run) && Exec(o, Init(o), run).ctx.runDone
    ensures Environment(ParentCancel) in run || o.gracefulShutdown < 0 || Environment(GracePasses) in run
  {
    InvInit(o);
    RunIsRemembered(o, Init(o), run);
    RequestsAreCancelledOnlyForACause(o, Exec(o, Init(o), run));
  }

  // ---------------------------------------------------------------- progress

  /** A worker that has not exited can always move once permits wait or the channel is closed. */
  lemma WorkerCanMove(p: Pool, w: nat) returns (x: WorkerAction)
    requires w < |p.workers| && p.workers[w] != Exited
    requires p.permits > 0 || (p.permits == 0 && p.closed)
    ensures WorkerEnabled(p, w, x)
  {
    match p.workers[w]
    case Receiving => x := if p.permits > 0 then Receive else Exit;
    case Executing => x := RequestReturns(true);
    case CountingError => x := CountError;
  }

  /** No reachable state is stuck before `Run` returns: a full channel, a blocked scheduler and
      draining workers included, some goroutine can move without help from the environment. */
  lemma NoStateIsStuck(o: Settings, s: State) returns (step: Step)
    requires Normalized(o) && Inv(o, s) && s.main.pc != Returned
    ensures Enabled(o, s, step) && !step.Environment? && !step.Control?
  {
    if s.sched.pc != Ended {
      step := SchedulerOrWorkerMoves(o, s);
    } else if s.main.pc == AwaitSchedule {
      step := Shutdown(SeeScheduleDone);
    } else if s.main.pc == ForceCancel {
      step := Shutdown(CancelRun);
    } else if s.main.pc == LoadResult {
      step := Shutdown(LoadTotals);
    } else if s.main.workersDone {
      step := Shutdown(SeeWorkersDone);
    } else if s.pool.AllExited() {
      step := Shutdown(WorkersFinish);
    } else {
      var w :| 0 <= w < |s.pool.workers| && s.pool.workers[w] != Exited;
      var x := WorkerCanMove(s.pool, w);
      step := Work(w, x);
    }
  }

  lemma SchedulerOrWorkerMoves(o: Settings, s: State) returns (step: Step)
    requires Normalized(o) && Inv(o, s) && s.sched.pc != Ended
    ensures Enabled(o, s, step) && !step.Environment? && !step.Control?
  {
    match s.sched.pc
    case CheckContext => step := Schedule(TestContext);
    case CheckTotal => step := Schedule(TestTotal);
    case AwaitArrival => step := Schedule(ArrivalReturns(true));
    case Increment => step := Schedule(TakeSlot);
    case Offer =>
      if s.pool.permits < o.concurrency {
        step := Schedule(Send);
      } else {
        assert s.pool.workers[0] in multiset(s.pool.workers);
        var x := WorkerCanMove(s.pool, 0);
        step := Work(0, x);
      }
    case ClosePermits => step := Schedule(ClosePermitChannel);
    case CloseDone => step := Schedule(CloseScheduleDone);
  }

  // ---------------------------------------------------------------- termination

  /** Scheduling cannot go on for ever: a positive request total, or an ended scheduler context. */
  predicate Bounded(o: Settings, s: State) { o.totalRequests > 0 || s.ctx.schedulerDone }

  function PoolWork(p: Pool): int
  {
    3 * p.permits + p.Count(Receiving) + 2 * p.Count(CountingError) + 3 * p.Count(Executing)
  }

  function SchedulerWork(o: Settings, c: Scheduler, done: bool): int
  {
    var left := 10 * (o.totalRequests - c.total);
    match c.pc
    case CheckContext => if done then 3 else left + 9
    case CheckTotal => if done then 10 else left + 8
    case AwaitArrival => if done then 9 else left + 7
    case Increment => if done then 8 else left + 6
    case Offer => if done then 7 else left + 14
    case ClosePermits => 2
    case CloseDone => 1
    case Ended => 0
  }

  function MainWork(m: Main): int
  {
    (match m.pc
     case AwaitSchedule => 5
     case Grace => 4
     case ForceCancel => 3
     case AwaitWorkers => 2
     case LoadResult => 1
     case Returned => 0) + (if m.workersDone then 0 else 1)
  }

  function ControllerWork(c: Controller): int
  {
    match c.pc
    case NoController => 0
    case Starting => 3
    case Ticking => 2
    case Cancelling => 1
    case Stopped => 0
  }

  function Pending(done: bool, weight: int): int { if done then 0 else weight }

  function ContextWork(x: Contexts): int
  {
    Pending(x.parentDone, 1) + Pending(x.runDone, 1) + Pending(x.schedulerDone, 20)
    + Pending(x.deadlinePassed, 1) + Pending(x.gracePassed, 1)
  }

  /** What is left to do. */
  function Measure(o: Settings, s: State): int
  {
    PoolWork(s.pool) + SchedulerWork(o, s.sched, s.ctx.schedulerDone) + MainWork(s.main)
    + ControllerWork(s.ctrl) + ContextWork(s.ctx)
  }

  lemma MeasureIsNatural(o: Settings, s: State)
    requires Normalized(o) && Inv(o, s) && Bounded(o, s)
    ensures Measure(o, s) >= 0
  {
  }

  /** A controller tick that only resets the rate. */
  predicate Idle(o: Settings, s: State, step: Step)
  {
    step.Control? && step.c.Tick? && SegmentsRate(o.segments, step.c.at).Some?
  }

  lemma WorkerDoesWork(o: Settings, p: Pool, w: nat, x: WorkerAction)
    requires WorkerEnabled(p, w, x)
    ensures PoolWork(ApplyWorker(o, p, w, x)) < PoolWork(p)
  {
  }

  lemma SignalDoesWork(o: Settings, s: State, e: Signal)
    requires Normalized(o) && Inv(o, s) && Bounded(o, s) && SignalEnabled(o, s, e)
    ensures Bounded(o, ApplySignal(s, e)) && Measure(o, ApplySignal(s, e)) < Measure(o, s)
  {
  }

  lemma SchedulerDoesWork(o: Settings, s: State, a: SchedulerAction)
    requires Normalized(o) && Inv(o, s) && Bounded(o, s) && SchedulerEnabled(o, s, a)
    ensures Bounded(o, ApplyScheduler(o, s, a)) && Measure(o, ApplyScheduler(o, s, a)) < Measure(o, s)
  {
  }

  lemma MainDoesWork(o: Settings, s: State, m: MainAction)
    requires Normalized(o) && Inv(o, s) && Bounded(o, s) && MainEnabled(s, m)
    ensures Bounded(o, ApplyMain(o, s, m)) && Measure(o, ApplyMain(o, s, m)) < Measure(o, s)
  {
  }

  lemma ControllerDoesWork(o: Settings, s: State, c: ControllerAction)
    requires Normalized(o) && Inv(o, s) && Bounded(o, s) && ControllerEnabled(s, c)
    ensures var t := ApplyController(o, s, c);
            && Bounded(o, t)
            && (if Idle(o, s, Control(c)) then Measure(o, t) == Measure(o, s) else Measure(o, t) < Measure(o, s))
  {
  }

  /** Every step but an idle tick brings `Run` closer to returning. */
  lemma EveryStepDoesWork(o: Settings, s: State, step: Step)
    requires Normalized(o) && Inv(o, s) && Bounded(o, s) && Enabled(o, s, step)
    ensures var t := Apply(o, s, step);
            && Bounded(o, t)
            && (if Idle(o, s, step) then Measure(o, t) == Measure(o, s) else Measure(o, t) < Measure(o, s))
  {
    match step
    case Environment(e) => SignalDoesWork(o, s, e);
    case Control(c) => ControllerDoesWork(o, s, c);
    case Schedule(a) => SchedulerDoesWork(o, s, a);
    case Work(w, x) => WorkerDoesWork(o, s.pool, w, x);
    case Shutdown(m) => MainDoesWork(o, s, m);
  }

  function Effective(o: Settings, s: State, run: seq<Step>): nat
    requires Valid(o, s, run)
    decreases |run|
  {
    if run == [] then 0
    else (if Idle(o, s, run[0]) then 0 else 1) + Effective(o, Apply(o, s, run[0]), run[1..])
  }

  /** From any reachable state with a bound on scheduling, no interleaving takes more than
      `Measure` steps besides idle ticks. */
  lemma {:induction false} RunsAreBounded(o: Settings, s: State, run: seq<Step>)
    requires Normalized(o) && Inv(o, s) && Bounded(o, s) && Valid(o, s, run)
    ensures Effective(o, s, run) + Measure(o, Exec(o, s, run)) <= Measure(o, s)
    ensures Effective(o, s, run) <= Measure(o, s)
    decreases |run|
  {
    if run == [] {
      MeasureIsNatural(o, s);
    } else {
      var t := Apply(o, s, run[0]);
      StepKeepsInv(o, s, run[0]);
      EveryStepDoesWork(o, s, run[0]);
      RunsAreBounded(o, t, run[1..]);
    }
  }

  /** And from any such state the program's own steps lead to `Run` returning, whatever has
      happened before. */
  lemma {:induction false} RunCanAlwaysReturn(o: Settings, s: State) returns (run: seq<Step>)
    requires Normalized(o) && Inv(o, s) && Bounded(o, s)
    ensures Valid(o, s, run) && Exec(o, s, run).main.pc == Returned
    ensures forall step <- run :: !step.Environment?
    decreases Measure(o, s)
  {
    MeasureIsNatural(o, s);
    if s.main.pc == Returned {
      run := [];
    } else {
      var step := NoStateIsStuck(o, s);
      var t := Apply(o, s, step);
      StepKeepsInv(o, s, step);
      EveryStepDoesWork(o, s, step);
      MeasureIsNatural(o, t);
      var rest := RunCanAlwaysReturn(o, t);
      run := [step] + rest;
    }
  }

  /** The two together, for every state an interleaving can reach: until `Run` returns some
      goroutine can move, and with scheduling bounded its return stays within reach. */
  lemma RunIsNeverStuckAndReturns(o: Settings, s: State)
    requires Normalized(o) && Reachable(o, s)
    ensures s.main.pc != Returned ==> exists step: Step :: Enabled(o, s, step) && !step.Environment? && !step.Control?
    ensures Bounded(o, s) ==> exists run :: Valid(o, s, run) && Exec(o, s, run).main.pc == Returned
    ensures Bounded(o, s) ==> forall run | Valid(o, s, run) :: Effective(o, s, run) <= Measure(o, s)
  {
    ReachableInv(o, s);
    if s.main.pc != Returned {
      var step := NoStateIsStuck(o, s);
    }
    if Bounded(o, s) {
      var run := RunCanAlwaysReturn(o, s);
      forall run | Valid(o, s, run) ensures Effective(o, s, run) <= Measure(o, s) { RunsAreBounded(o, s, run); }
    }
  }

  /** Whatever may end scheduling does end it: once the caller cancelled, the deadline passed or the plan ended,
      the scheduler's context can end, and then `Run` can return, however many requests were asked for. */
  lemma EveryCauseEndsTheRun(o: Settings, s: State) returns (run: seq<Step>)
    requires Normalized(o) && Inv(o, s) && (s.ctx.parentDone || s.ctx.deadlinePassed || s.ctx.patternCancelled)
    ensures Valid(o, s, run) && Exec(o, s, run).main.pc == Returned
  {
    if s.ctx.schedulerDone {
      run := RunCanAlwaysReturn(o, s);
    } else if s.ctx.runDone || s.ctx.deadlinePassed || s.ctx.patternCancelled {
      run := EndSchedulingAndReturn(o, s);
    } else {
      StepKeepsInv(o, s, Environment(RunContextEnds));
      var rest := EndSchedulingAndReturn(o, Apply(o, s, Environment(RunContextEnds)));
      run := [Environment(RunContextEnds)] + rest;
    }
  }

  lemma EndSchedulingAndReturn(o: Settings, s: State) returns (run: seq<Step>)
    requires Normalized(o) && Inv(o, s) && Enabled(o, s, Environment(SchedulerContextEnds))
    ensures Valid(o, s, run) && Exec(o, s, run).main.pc == Returned
  {
    StepKeepsInv(o, s, Environment(SchedulerContextEnds));
    var rest := RunCanAlwaysReturn(o, Apply(o, s, Environment(SchedulerContextEnds)));
    run := [Environment(SchedulerContextEnds)] + rest;
  }

  /** Nothing holds these up: the caller may cancel at any time, a positive duration may run out at any time, and
      so may the grace while it is waited for; the scheduler, the shutdown and the controller may act on it. */
  lemma CausesAreFree(o: Settings, s: State, at: int)
    requires Normalized(o) && Inv(o, s)
    ensures s.ctx.parentDone || Enabled(o, s, Environment(ParentCancel))
    ensures o.duration > 0 ==> s.ctx.deadlinePassed || Enabled(o, s, Environment(DeadlinePasses))
    ensures s.main.pc == Grace ==> s.ctx.gracePassed || Enabled(o, s, Environment(GracePasses))
    ensures s.main.pc == Grace && s.ctx.gracePassed ==> Enabled(o, s, Shutdown(SeeGrace))
    ensures s.main.pc == Grace && s.ctx.runDone ==> Enabled(o, s, Shutdown(SeeCancel))
    ensures s.sched.pc == Offer && s.ctx.schedulerDone ==> Enabled(o, s, Schedule(RollBack))
    ensures s.ctrl.pc == Ticking && at >= s.ctrl.elapsed ==> Enabled(o, s, Control(Tick(at)))
    ensures s.ctrl.pc == Ticking && s.ctx.schedulerDone ==> Enabled(o, s, Control(SeeDone))
  {
  }
}
