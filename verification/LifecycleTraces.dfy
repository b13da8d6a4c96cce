/** What the bookkeeping of the runner stands for in terms of the steps that were taken: no result,
    answer, stop request or deadline is ever made up. */
module LifecycleTraces {
  import opened Lifecycle
  import opened LifecycleInvariants
  import opened LifecycleSafety
  import opened LifecycleErrors
  import opened LifecycleTheorems

  /** The step was taken before state `k`. */
  ghost predicate Happened(steps: seq<Step>, k: nat, step: Step) {
    exists j :: 0 <= j < k && j < |steps| && steps[j] == step
  }

  lemma HappenedNext(steps: seq<Step>, k: nat, step: Step)
    requires k < |steps|
    ensures Happened(steps, k, step) ==> Happened(steps, k + 1, step)
    ensures Happened(steps, k + 1, steps[k])
  {}

  lemma ShapeHolds(states: seq<State>, steps: seq<Step>, k: nat)
    requires Trace(states, steps) && k < |states|
    ensures Shape(states[k])
  {
    InvariantHolds(states, steps, k);
  }

  // ---------------------------------------------------------------------------------------
  // Results of Serve
  // ---------------------------------------------------------------------------------------

  ghost predicate ExitsHappened(notes: seq<Note>, steps: seq<Step>, k: nat) {
    forall j :: 0 <= j < |notes| ==> Happened(steps, k, Environment(ServeExits(notes[j].who, notes[j].cause)))
  }

  lemma ExitsAreKept(s: State, step: Step)
    requires Shape(s) && Enabled(s, step)
    ensures Exits(Next(s, step)) == Exits(s) + NewExit(step)
  {
    if step.Runner? { RunnerKeepsExits(s, step.r); }
  }

  lemma RunnerKeepsExits(s: State, r: RunnerStep)
    requires Shape(s) && RunnerEnabled(s, r)
    ensures Exits(RunnerNext(s, r)) == Exits(s)
  {
    match r
    case TakeExit =>
      var t := RunnerNext(s, TakeExit);
      assert t.env.results == s.env.results[1..] && t.log.received == s.log.received + [s.env.results[0]];
    case Proceed => ProceedReceivesNothing(s);
    case _ => OthersReceiveNothing(s, r);
  }

  lemma {:induction false} ExitsHaveHappened(states: seq<State>, steps: seq<Step>, k: nat)
    requires Trace(states, steps) && k < |states|
    ensures ExitsHappened(Exits(states[k]), steps, k)
  {
    if k > 0 {
      ExitsHaveHappened(states, steps, k - 1);
      ShapeHolds(states, steps, k - 1);
      ExitsAreKept(states[k - 1], steps[k - 1]);
      ExitsHappenNext(Exits(states[k - 1]), steps, k - 1);
    }
  }

  /** What a step adds to the results. */
  function NewExit(step: Step): seq<Note> {
    if step.Environment? && step.e.ServeExits? then [Note(step.e.i, step.e.cause)] else []
  }

  lemma ExitsHappenNext(notes: seq<Note>, steps: seq<Step>, k: nat)
    requires k < |steps| && ExitsHappened(notes, steps, k)
    ensures ExitsHappened(notes + NewExit(steps[k]), steps, k + 1)
  {
    var after := notes + NewExit(steps[k]);
    forall j | 0 <= j < |after|
      ensures Happened(steps, k + 1, Environment(ServeExits(after[j].who, after[j].cause)))
    {
      if j < |notes| {
        assert after[j] == notes[j];
        HappenedNext(steps, k, Environment(ServeExits(notes[j].who, notes[j].cause)));
      } else {
        HappenedNext(steps, k, steps[k]);
      }
    }
  }

  // ---------------------------------------------------------------------------------------
  // Answers of Ready and Shutdown
  // ---------------------------------------------------------------------------------------

  /** A nil answer of Ready is the answer of a Ready call. */
  ghost predicate ReadyHappened(ready: seq<Ready>, steps: seq<Step>, k: nat) {
    forall i :: 0 <= i < |ready| && ready[i] == Answered(NoError) ==>
      Happened(steps, k, Environment(ReadyReturns(i, NoError)))
  }

  ghost predicate ShutHappened(shut: seq<Shutdown>, steps: seq<Step>, k: nat) {
    forall i :: 0 <= i < |shut| && shut[i].Returned? ==>
      Happened(steps, k, Environment(ShutdownReturns(i, shut[i].cause)))
  }

  /** A nil answer of Ready after the step was there before, or is given by it. */
  ghost predicate OnlyAnswered(before: seq<Ready>, after: seq<Ready>, step: Step) {
    forall i :: 0 <= i < |after| && after[i] == Answered(NoError) ==>
      step == Environment(ReadyReturns(i, NoError)) || (i < |before| && before[i] == Answered(NoError))
  }

  ghost predicate OnlyReturned(before: seq<Shutdown>, after: seq<Shutdown>, step: Step) {
    forall i :: 0 <= i < |after| && after[i].Returned? ==>
      step == Environment(ShutdownReturns(i, after[i].cause)) || (i < |before| && before[i] == after[i])
  }

  lemma ReadyChanges(s: State, step: Step)
    requires Enabled(s, step)
    ensures OnlyAnswered(s.env.ready, Next(s, step).env.ready, step)
  {
    if step.Runner? { ServeKeptByRunner(s, step.r); }
  }

  lemma ShutChanges(s: State, step: Step)
    requires Enabled(s, step)
    ensures OnlyReturned(s.env.shut, Next(s, step).env.shut, step)
  {
    if step.Runner? { RunnerReturnsNothing(s, step.r, step); }
  }

  lemma RunnerReturnsNothing(s: State, r: RunnerStep, step: Step)
    requires RunnerEnabled(s, r)
    ensures OnlyReturned(s.env.shut, RunnerNext(s, r).env.shut, step)
  {
    if r.Proceed? { ProceedReturnsNothing(s, step); } else { OthersReturnNothing(s, r, step); }
  }

  lemma ProceedReturnsNothing(s: State, step: Step)
    ensures OnlyReturned(s.env.shut, Continue(s).env.shut, step)
  {}

  lemma OthersReturnNothing(s: State, r: RunnerStep, step: Step)
    requires RunnerEnabled(s, r) && !r.Proceed?
    ensures OnlyReturned(s.env.shut, RunnerNext(s, r).env.shut, step)
  {}

  lemma ReadyHappenNext(before: seq<Ready>, after: seq<Ready>, steps: seq<Step>, k: nat)
    requires k < |steps| && ReadyHappened(before, steps, k) && OnlyAnswered(before, after, steps[k])
    ensures ReadyHappened(after, steps, k + 1)
  {
    forall i | 0 <= i < |after| && after[i] == Answered(NoError)
      ensures Happened(steps, k + 1, Environment(ReadyReturns(i, NoError)))
    {
      HappenedNext(steps, k, Environment(ReadyReturns(i, NoError)));
    }
  }

  lemma ShutHappenNext(before: seq<Shutdown>, after: seq<Shutdown>, steps: seq<Step>, k: nat)
    requires k < |steps| && ShutHappened(before, steps, k) && OnlyReturned(before, after, steps[k])
    ensures ShutHappened(after, steps, k + 1)
  {
    forall i | 0 <= i < |after| && after[i].Returned?
      ensures Happened(steps, k + 1, Environment(ShutdownReturns(i, after[i].cause)))
    {
      HappenedNext(steps, k, Environment(ShutdownReturns(i, after[i].cause)));
    }
  }

  lemma {:induction false} AnswersHaveHappened(states: seq<State>, steps: seq<Step>, k: nat)
    requires Trace(states, steps) && k < |states|
    ensures ReadyHappened(states[k].env.ready, steps, k) && ShutHappened(states[k].env.shut, steps, k)
  {
    if k > 0 {
      AnswersHaveHappened(states, steps, k - 1);
      AnswersHappenNext(states, steps, k - 1);
    }
  }

  lemma AnswersHappenNext(states: seq<State>, steps: seq<Step>, k: nat)
    requires Trace(states, steps) && k < |steps|
    requires ReadyHappened(states[k].env.ready, steps, k) && ShutHappened(states[k].env.shut, steps, k)
    ensures ReadyHappened(states[k + 1].env.ready, steps, k + 1) && ShutHappened(states[k + 1].env.shut, steps, k + 1)
  {
    ReadyChanges(states[k], steps[k]);
    ShutChanges(states[k], steps[k]);
    ReadyHappenNext(states[k].env.ready, states[k + 1].env.ready, steps, k);
    ShutHappenNext(states[k].env.shut, states[k + 1].env.shut, steps, k);
  }

  // ---------------------------------------------------------------------------------------
  // Contexts
  // ---------------------------------------------------------------------------------------

  lemma {:induction false} CtxHasHappened(states: seq<State>, steps: seq<Step>, k: nat)
    requires Trace(states, steps) && k < |states|
    ensures var c := states[k].env.ctx; !c.NoError? ==> Happened(steps, k, Environment(CtxDone(c)))
  {
    if k > 0 {
      CtxHasHappened(states, steps, k - 1);
      var s, step := states[k - 1], steps[k - 1];
      CtxChanges(s, step);
      HappenedNext(steps, k - 1, Environment(CtxDone(states[k].env.ctx)));
    }
  }

  lemma CtxChanges(s: State, step: Step)
    requires Enabled(s, step)
    ensures Next(s, step).env.ctx == s.env.ctx || step == Environment(CtxDone(Next(s, step).env.ctx))
  {
    match step
    case Driver(d) => CtxKeptByDriver(s, d);
    case Environment(_) =>
    case Runner(r) => CtxKeptByRunner(s, r);
  }

  /** The runner waits for components to stop. */
  ghost predicate InTeardown(p: Phase) {
    InStopping(p) || p.AwaitingExits?
  }

  /** The deadline fired before state `k` while the runner was waiting for components to stop. */
  ghost predicate DeadlineFired(states: seq<State>, steps: seq<Step>, k: nat) {
    exists j :: 0 <= j < k && FiresAt(states, steps, j)
  }

  ghost predicate FiresAt(states: seq<State>, steps: seq<Step>, j: nat) {
    j < |steps| && j < |states| && steps[j] == Environment(DeadlineFires) && InTeardown(states[j].phase)
  }

  /** A deadline counts only for the wait it was set for. */
  lemma DeadlineChanges(s: State, step: Step)
    requires Shape(s) && Enabled(s, step) && Next(s, step).env.deadline && InTeardown(Next(s, step).phase)
    ensures InTeardown(s.phase) && (s.env.deadline || step == Environment(DeadlineFires))
  {
    if step.Runner? { DeadlineKeptByRunner(s, step.r); }
  }

  lemma DeadlineKeptByRunner(s: State, r: RunnerStep)
    requires Shape(s) && RunnerEnabled(s, r)
    requires RunnerNext(s, r).env.deadline && InTeardown(RunnerNext(s, r).phase)
    ensures InTeardown(s.phase) && s.env.deadline
  {}

  lemma {:induction false} DeadlineHasFired(states: seq<State>, steps: seq<Step>, k: nat)
    requires Trace(states, steps) && k < |states|
    requires states[k].env.deadline && InTeardown(states[k].phase)
    ensures DeadlineFired(states, steps, k)
  {
    if k > 0 {
      ShapeHolds(states, steps, k - 1);
      DeadlineChanges(states[k - 1], steps[k - 1]);
      if states[k - 1].env.deadline {
        DeadlineHasFired(states, steps, k - 1);
      } else {
        assert FiresAt(states, steps, k - 1);
      }
    }
  }

  /** Once `run` waits for readiness no longer, every readiness goroutine is told to stop. */
  ghost predicate ReadyCancelled(s: State) {
    s.reg.running && !s.phase.Starting? ==> !s.env.readyCtx.NoError?
  }

  lemma ReadyCancelledKept(s: State, step: Step)
    requires Shape(s) && ReadyCancelled(s) && Enabled(s, step)
    ensures ReadyCancelled(Next(s, step))
  {
    match step
    case Driver(_) =>
    case Environment(_) =>
    case Runner(r) =>
      if r.Proceed? { ReadyCancelledKeptByProceed(s); } else { ReadyCancelledKeptByOthers(s, r); }
  }

  lemma ReadyCancelledKeptByProceed(s: State)
    requires Shape(s) && ReadyCancelled(s) && RunnerEnabled(s, Proceed)
    ensures ReadyCancelled(Continue(s))
  {}

  lemma ReadyCancelledKeptByOthers(s: State, r: RunnerStep)
    requires Shape(s) && ReadyCancelled(s) && RunnerEnabled(s, r) && !r.Proceed?
    ensures ReadyCancelled(RunnerNext(s, r))
  {}

  lemma {:induction false} ReadinessIsCancelled(states: seq<State>, steps: seq<Step>, k: nat)
    requires Trace(states, steps) && k < |states|
    ensures ReadyCancelled(states[k])
  {
    if k > 0 {
      ReadinessIsCancelled(states, steps, k - 1);
      ShapeHolds(states, steps, k - 1);
      ReadyCancelledKept(states[k - 1], steps[k - 1]);
    }
  }

  // ---------------------------------------------------------------------------------------
  // When the runner gives up
  // ---------------------------------------------------------------------------------------

  /** The runner waits for an answer or a result that is not there. */
  ghost predicate WaitsInVain(s: State) {
    || (s.phase.AwaitingReturn? && s.phase.who < |s.env.shut| && s.env.shut[s.phase.who].InFlight?)
    || (s.phase.AwaitingExits? && s.loc.remaining > 0 && s.env.results == [])
  }

  lemma BecomesLate(s: State, step: Step)
    requires Enabled(s, step) && !Late(s.log) && Late(Next(s, step).log)
    ensures s.env.deadline && WaitsInVain(s)
  {
    if step.Runner? && !step.r.TimeOut? {
      if step.r.TakeReturn? {
        AllInTimeSnoc(s.log.answers, Answer(s.phase.who, true, s.env.shut[s.phase.who].cause));
      } else {
        OthersKeepAnswers(s, step.r);
      }
    }
  }

  /** A component is given up on only after the deadline, and only while what the runner waits for
      has not come: an answer or a result that is there is taken first. */
  lemma GivesUpOnlyAfterDeadline(states: seq<State>, steps: seq<Step>, k: nat)
    requires Trace(states, steps) && k < |steps|
    requires !Late(states[k].log) && Late(states[k + 1].log)
    ensures states[k].env.deadline && WaitsInVain(states[k]) && DeadlineFired(states, steps, k)
  {
    BecomesLate(states[k], steps[k]);
    DeadlineHasFired(states, steps, k);
  }

  /** A component that was given up on was given up on after such a deadline. */
  lemma {:induction false} LateMeansDeadline(states: seq<State>, steps: seq<Step>, k: nat)
    requires Trace(states, steps) && k < |states| && Late(states[k].log)
    ensures DeadlineFired(states, steps, k)
  {
    if k > 0 {
      if Late(states[k - 1].log) {
        LateMeansDeadline(states, steps, k - 1);
      } else {
        GivesUpOnlyAfterDeadline(states, steps, k - 1);
      }
      FiredIsKept(states, steps, k - 1, k);
    }
  }

  lemma FiredIsKept(states: seq<State>, steps: seq<Step>, j: nat, k: nat)
    requires j <= k && DeadlineFired(states, steps, j)
    ensures DeadlineFired(states, steps, k)
  {}

  /** In a trace in which no deadline fires while the runner waits for components to stop, none is
      ever given up on: every `run` and every `close` that returns has run all hooks. */
  lemma NeverLateWithoutDeadline(states: seq<State>, steps: seq<Step>, k: nat)
    requires Trace(states, steps) && k < |states| && !DeadlineFired(states, steps, k)
    ensures !Late(states[k].log)
    ensures states[k].phase.Out? && states[k].reg.isClosed ==> AllDone(states[k])
  {
    if Late(states[k].log) {
      LateMeansDeadline(states, steps, k);
    }
    InvariantHolds(states, steps, k);
  }

  // ---------------------------------------------------------------------------------------
  // When the wait for startup or for the end of serving is over
  // ---------------------------------------------------------------------------------------

  /** The event that ended the wait was there in state `s`. */
  ghost predicate HadReason(s: State, e: Ending) {
    match e
    case Going => true
    case ReadyFailure(note, ctx) =>
      s.env.readiness != [] && s.env.readiness[0] == note && !note.cause.NoError? && ctx == s.env.ctx
    case EarlyExit(note, ctx) =>
      s.env.results != [] && s.env.results[0] == note && ctx == s.env.ctx && (s.phase.Starting? || s.phase.Serving?)
    case ExitBeforePublish(note) => s.env.results != [] && s.env.results[0] == note && s.phase.Checking?
    case StartupOver(cause, ctx) =>
      s.env.readyCtx == cause && !cause.NoError? && ctx == s.env.ctx && s.phase.Starting?
    case Stopped(ctx) => ctx == s.env.ctx && !ctx.NoError? && (s.phase.Starting? || s.phase.Serving?)
  }

  lemma EndsForAReason(s: State, step: Step)
    requires Enabled(s, step) && Next(s, step).log.ending != s.log.ending
    ensures HadReason(s, Next(s, step).log.ending)
  {
    match step
    case Driver(d) => CtxKeptByDriver(s, d);
    case Environment(_) =>
    case Runner(r) =>
      if r.Proceed? { ProceedKeepsEnding(s); }
      else if r.CallShutdown? || r.TakeReturn? || r.TimeOut? || r.RunHook? { TeardownKeepsEnding(s, r); }
  }

  lemma ProceedKeepsEnding(s: State)
    ensures Continue(s).log.ending == s.log.ending
  {}

  lemma TeardownKeepsEnding(s: State, r: RunnerStep)
    requires RunnerEnabled(s, r) && (r.CallShutdown? || r.TakeReturn? || r.TimeOut? || r.RunHook?)
    ensures RunnerNext(s, r).log.ending == s.log.ending
  {}

  /** `run` stops waiting for readiness, or serving, only because of something that happened: a
      failed Ready call, a component that exited, or a context that is done. And it publishes
      readiness only if no component's result was there to be taken. */
  lemma WaitsForAReason(states: seq<State>, steps: seq<Step>, k: nat)
    requires Trace(states, steps) && k < |steps|
    ensures states[k + 1].log.ending != states[k].log.ending ==> HadReason(states[k], states[k + 1].log.ending)
    ensures states[k].phase.Checking? && states[k + 1].phase.Publishing? ==> states[k].env.results == []
  {
    if states[k + 1].log.ending != states[k].log.ending {
      EndsForAReason(states[k], steps[k]);
    }
    PublishesWithoutResult(states[k], steps[k]);
  }

  lemma PublishesWithoutResult(s: State, step: Step)
    requires Enabled(s, step)
    ensures s.phase.Checking? && Next(s, step).phase.Publishing? ==> s.env.results == []
  {}

  /** How many steps of the runner lie between `s` and the select that ends its wait. */
  function StepsToSelect(s: State): nat {
    match s.phase
    case Starting => if s.loc.readyCount < |s.env.serve| then 0 else 3
    case Checking => 2
    case Publishing => 1
    case _ => 0
  }

  ghost predicate Nearer(s: State, t: State) {
    t.phase.Draining? || StepsToSelect(t) < StepsToSelect(s)
  }

  /** The process is asked to stop, or a component's result is there. */
  ghost predicate MustStop(s: State) {
    !s.env.ctx.NoError? || s.env.results != []
  }

  /** As long as `run` starts up or serves, a stop request and a component's exit do not go unseen:
      the runner has a step that begins to drain, or one that brings it nearer to its select. The
      same holds for a startup context that is done while it still waits for readiness. */
  lemma StopIsSeen(states: seq<State>, steps: seq<Step>, k: nat)
    requires Trace(states, steps) && k < |states|
    requires var s := states[k];
      && InServing(s.phase) && !s.phase.Draining?
      && (MustStop(s) || (StartupWaits(s) && !s.env.readyCtx.NoError?))
    ensures exists r :: RunnerEnabled(states[k], r) && Nearer(states[k], RunnerNext(states[k], r))
  {
    var s := states[k];
    var r :=
      match s.phase
      case Checking => if s.env.results != [] then TakeExit else Proceed
      case Publishing => Proceed
      case _ =>
        if s.phase.Starting? && s.loc.readyCount >= |s.env.serve| then Proceed
        else if s.env.results != [] then TakeExit
        else if !s.env.ctx.NoError? then SeeCtx
        else SeeReadyCtx;
    SelectIsReached(s, r);
  }

  lemma SelectIsReached(s: State, r: RunnerStep)
    requires InServing(s.phase) && !s.phase.Draining? && RunnerEnabled(s, r) && !r.TakeReady?
    ensures Nearer(s, RunnerNext(s, r))
  {}

  /** A Ready call that has answered is heard: the runner counts it or ends the startup. */
  lemma ReadyIsHeard(s: State)
    requires StartupWaits(s) && s.env.readiness != []
    ensures RunnerEnabled(s, TakeReady)
    ensures var t := RunnerNext(s, TakeReady);
      if s.env.readiness[0].cause == NoError then t.phase == s.phase && t.loc.readyCount == s.loc.readyCount + 1
      else t.phase.Draining?
  {}

  // ---------------------------------------------------------------------------------------
  // The theorems in terms of steps
  // ---------------------------------------------------------------------------------------

  ghost predicate Served(steps: seq<Step>, k: nat, i: nat) {
    exists c :: Happened(steps, k, Environment(ServeExits(i, c)))
  }

  ghost predicate ShutDown(steps: seq<Step>, k: nat, i: nat) {
    exists c :: Happened(steps, k, Environment(ShutdownReturns(i, c)))
  }

  /** When a cleanup hook runs in a runtime that has run, every component's Serve and every
      component's Shutdown have returned before. */
  lemma HooksRunLast(states: seq<State>, steps: seq<Step>, k: nat)
    requires Trace(states, steps) && k < |steps| && steps[k].Runner? && steps[k].r.RunHook?
    ensures var s := states[k]; forall i :: 0 <= i < |s.reg.components| ==>
      (s.reg.running ==> Served(steps, k, i)) && ShutDown(steps, k, i)
  {
    var s := states[k];
    InvariantHolds(states, steps, k);
    ResourceSafety(states, steps, k);
    ExitsHaveHappened(states, steps, k);
    AnswersHaveHappened(states, steps, k);
    forall i | 0 <= i < |s.reg.components|
      ensures (s.reg.running ==> Served(steps, k, i)) && ShutDown(steps, k, i)
    {
      assert s.env.shut[i].Returned?;
      assert Happened(steps, k, Environment(ShutdownReturns(i, s.env.shut[i].cause)));
      if s.reg.running {
        var j := ExitOf(s, i);
        assert Happened(steps, k, Environment(ServeExits(Exits(s)[j].who, Exits(s)[j].cause)));
      }
    }
  }

  /** A component that has exited has its result among those sent. */
  lemma ExitOf(s: State, i: nat) returns (j: nat)
    requires Counted(s) && AllExited(s.env) && i < |s.env.serve|
    ensures j < |Exits(s)| && Exits(s)[j].who == i
  {
    var xs := Whos(Exits(s));
    AllCounted(s.env.serve);
    DistinctFillRange(xs, |s.env.serve|);
    assert i in xs;
    j :| 0 <= j < |xs| && xs[j] == i;
  }

  lemma {:induction false} AllCounted(serve: seq<Serve>)
    requires forall i :: 0 <= i < |serve| ==> serve[i].Exited?
    ensures CountExited(serve) == |serve|
  {
    if serve != [] { AllCounted(serve[1..]); }
  }

  /** A Ready call answers nil only for a component whose Serve has been called. */
  ghost predicate ReadyAfterServe(serve: seq<Serve>, ready: seq<Ready>) {
    && |serve| == |ready|
    && (forall i :: 0 <= i < |ready| && ready[i] == Answered(NoError) ==> !serve[i].Spawned?)
  }

  ghost predicate BeginsHappened(serve: seq<Serve>, steps: seq<Step>, k: nat) {
    forall i :: 0 <= i < |serve| && !serve[i].Spawned? ==> Happened(steps, k, Environment(ServeBegins(i)))
  }

  lemma ServeKeptByRunner(s: State, r: RunnerStep)
    requires RunnerEnabled(s, r)
    ensures RunnerNext(s, r).env.serve == s.env.serve && RunnerNext(s, r).env.ready == s.env.ready
  {
    match r
    case Proceed => ProceedReceivesNothing(s); ProceedReadsNothing(s);
    case TakeExit =>
    case TakeReady =>
    case _ => OthersReceiveNothing(s, r); OthersReadNothing(s, r);
  }

  /** A Serve that has been called after the step had been called before, or is called by it. */
  ghost predicate OnlyBegun(before: seq<Serve>, after: seq<Serve>, step: Step) {
    forall i :: 0 <= i < |after| && !after[i].Spawned? ==>
      step == Environment(ServeBegins(i)) || (i < |before| && !before[i].Spawned?)
  }

  lemma BeginsHappenNext(before: seq<Serve>, after: seq<Serve>, steps: seq<Step>, k: nat)
    requires k < |steps| && BeginsHappened(before, steps, k) && OnlyBegun(before, after, steps[k])
    ensures BeginsHappened(after, steps, k + 1)
  {
    forall i | 0 <= i < |after| && !after[i].Spawned? ensures Happened(steps, k + 1, Environment(ServeBegins(i))) {
      HappenedNext(steps, k, Environment(ServeBegins(i)));
    }
  }

  lemma BeginsKept(s: State, step: Step)
    requires ReadyAfterServe(s.env.serve, s.env.ready) && Enabled(s, step)
    ensures ReadyAfterServe(Next(s, step).env.serve, Next(s, step).env.ready)
    ensures OnlyBegun(s.env.serve, Next(s, step).env.serve, step)
  {
    match step
    case Driver(_) =>
    case Environment(e) => BeginsKeptByEnv(s.env, e);
    case Runner(r) => ServeKeptByRunner(s, r);
  }

  lemma BeginsKeptByEnv(env: Env, e: EnvStep)
    requires ReadyAfterServe(env.serve, env.ready) && EnvEnabled(env, e)
    ensures ReadyAfterServe(EnvNext(env, e).serve, EnvNext(env, e).ready)
    ensures OnlyBegun(env.serve, EnvNext(env, e).serve, Environment(e))
  {}

  lemma {:induction false} ServeHasBegun(states: seq<State>, steps: seq<Step>, k: nat)
    requires Trace(states, steps) && k < |states|
    ensures ReadyAfterServe(states[k].env.serve, states[k].env.ready)
    ensures BeginsHappened(states[k].env.serve, steps, k)
  {
    if k > 0 {
      ServeHasBegun(states, steps, k - 1);
      BeginsKept(states[k - 1], steps[k - 1]);
      BeginsHappenNext(states[k - 1].env.serve, states[k].env.serve, steps, k - 1);
    }
  }

  /** The process reports itself ready only after every component's Serve has been called and its
      Ready call has returned nil. */
  lemma ReadyOnlyWhenReady(states: seq<State>, steps: seq<Step>, k: nat)
    requires Trace(states, steps) && k < |states| && states[k].log.serving
    ensures forall i :: 0 <= i < |states[k].reg.components| ==>
      && Happened(steps, k, Environment(ServeBegins(i)))
      && Happened(steps, k, Environment(ReadyReturns(i, NoError)))
  {
    InvariantHolds(states, steps, k);
    ReadinessWindow(states, steps, k);
    AnswersHaveHappened(states, steps, k);
    ServeHasBegun(states, steps, k);
  }

  ghost predicate ServedOrderly(steps: seq<Step>, k: nat, i: nat) {
    exists c :: Orderly(c) && Happened(steps, k, Environment(ServeExits(i, c)))
  }

  ghost predicate ShutDownOrderly(steps: seq<Step>, k: nat, i: nat) {
    exists c :: Orderly(c) && Happened(steps, k, Environment(ShutdownReturns(i, c)))
  }

  /** When `run` has returned nil, it had been asked to stop, and the Serve and the Shutdown of every
      component have returned in an orderly way. */
  lemma SuccessHappened(states: seq<State>, steps: seq<Step>, k: nat)
    requires Trace(states, steps) && k < |states| && states[k].log.outcome == Ended([])
    ensures exists c: Cause :: !c.NoError? && Happened(steps, k, Environment(CtxDone(c)))
    ensures forall i :: 0 <= i < |states[k].reg.components| ==>
      ServedOrderly(steps, k, i) && ShutDownOrderly(steps, k, i)
  {
    var s := states[k];
    MeaningOfSuccess(states, steps, k);
    InvariantHolds(states, steps, k);
    CtxHasHappened(states, steps, k);
    ExitsHaveHappened(states, steps, k);
    AnswersHaveHappened(states, steps, k);
    forall i | 0 <= i < |s.reg.components| ensures ServedOrderly(steps, k, i) && ShutDownOrderly(steps, k, i) {
      SuccessOf(s, steps, k, i);
    }
  }

  lemma SuccessOf(s: State, steps: seq<Step>, k: nat, i: nat)
    requires Success(s) && Core(s) && i < |s.reg.components|
    requires ExitsHappened(Exits(s), steps, k) && ShutHappened(s.env.shut, steps, k)
    ensures ServedOrderly(steps, k, i) && ShutDownOrderly(steps, k, i)
  {
    assert i in Whos(s.log.received);
    var j :| 0 <= j < |Whos(s.log.received)| && Whos(s.log.received)[j] == i;
    assert Exits(s)[j] == s.log.received[j];
    var c := s.log.received[j].cause;
    assert Orderly(c) && Happened(steps, k, Environment(ServeExits(i, c)));
    var m := |s.reg.components| - 1 - i;
    var a := s.log.answers[m];
    assert a.who == i && a.inTime && Orderly(a.cause);
    assert s.env.shut[i] == Returned(a.cause);
    assert Happened(steps, k, Environment(ShutdownReturns(i, a.cause)));
  }
}
