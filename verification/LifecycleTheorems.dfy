/** The properties of the lifecycle runner, over every run of the transition system: any sequence
    of registrations, `run` and `close` calls, under any interleaving with the goroutines. */
module LifecycleTheorems {
  import opened Lifecycle
  import opened LifecycleInvariants
  import opened LifecycleSafety
  import opened LifecycleErrors

  /** States reached one after the other from the initial one. */
  ghost predicate Trace(states: seq<State>, steps: seq<Step>) {
    && |states| == |steps| + 1
    && states[0] == INITIAL
    && (forall k {:trigger steps[k]} :: 0 <= k < |steps| ==>
          Enabled(states[k], steps[k]) && states[k + 1] == Next(states[k], steps[k]))
  }

  ghost predicate Invariant(s: State) {
    Core(s) && HooksSafe(s) && EndingKnown(s) && Accounted(s) && Completed(s) && CtxRemembered(s)
  }

  /** The invariant has held in every state up to `k`. */
  ghost predicate InvariantUpTo(states: seq<State>, k: nat)
    requires k < |states|
  {
    (k > 0 ==> InvariantUpTo(states, k - 1)) && Invariant(states[k])
  }

  lemma InvariantHolds(states: seq<State>, steps: seq<Step>, k: nat)
    requires Trace(states, steps) && k < |states|
    ensures Invariant(states[k])
  {
    InvariantHeld(states, steps, k);
  }

  lemma {:induction false} InvariantHeld(states: seq<State>, steps: seq<Step>, k: nat)
    requires Trace(states, steps) && k < |states|
    ensures InvariantUpTo(states, k)
  {
    if k == 0 {
      InvariantHoldsFirst(states[0]);
    } else {
      InvariantHeld(states, steps, k - 1);
      InvariantHoldsNext(states, steps, k - 1, states[k - 1], states[k]);
    }
  }

  lemma InvariantHoldsNext(states: seq<State>, steps: seq<Step>, k: nat, s: State, t: State)
    requires Trace(states, steps) && k < |steps| && s == states[k] && t == states[k + 1] && Invariant(s)
    ensures Invariant(t)
  {
    InvariantKept(s, steps[k], t);
  }

  lemma InvariantHoldsFirst(s: State)
    requires s == INITIAL
    ensures Invariant(s)
  {}

  lemma InvariantKept(s: State, step: Step, t: State)
    requires Invariant(s) && Enabled(s, step) && t == Next(s, step)
    ensures Invariant(t)
  {
    CoreKept(s, step);
    HooksSafeKept(s, step);
    EndingKnownKept(s, step);
    AccountedKept(s, step);
    CompletedKept(s, step);
    CtxRememberedKept(s, step);
  }

  // ---------------------------------------------------------------------------------------
  // Resource safety
  // ---------------------------------------------------------------------------------------

  /** A cleanup hook runs only after every started Serve has delivered its result and every
      Shutdown call has returned; and from the moment a hook has run, nothing is live again. */
  lemma ResourceSafety(states: seq<State>, steps: seq<Step>, k: nat)
    requires Trace(states, steps) && k < |states|
    ensures k < |steps| && steps[k].Runner? && steps[k].r.RunHook? ==> Quiet(states[k])
    ensures states[k].log.hooks != [] ==> Quiet(states[k])
  {
    InvariantHolds(states, steps, k);
    HooksMeanQuiet(states[k]);
    if k < |steps| && steps[k].Runner? && steps[k].r.RunHook? {
      HookNeedsItsPhase(states[k], steps[k]);
    }
  }

  lemma HookNeedsItsPhase(s: State, step: Step)
    requires Enabled(s, step) && step.Runner? && step.r.RunHook?
    ensures s.phase.Hooks?
  {}

  lemma HooksMeanQuiet(s: State)
    requires HooksSafe(s)
    ensures s.phase.Hooks? || s.log.hooks != [] ==> Quiet(s)
  {}

  /** The logs only grow, so what went wrong stays recorded. */
  lemma LateStaysLate(s: State, step: Step)
    requires Enabled(s, step) && Late(s.log)
    ensures Late(Next(s, step).log)
  {
    if step.Runner? {
      AnswersGrow(s, step.r);
      var t := Next(s, step);
      if !AllInTime(s.log.answers) {
        var k :| 0 <= k < |s.log.answers| && !s.log.answers[k].inTime;
        assert t.log.answers[k] == s.log.answers[k];
      }
    }
  }

  lemma AnswersGrow(s: State, r: RunnerStep)
    requires RunnerEnabled(s, r)
    ensures s.log.answers <= RunnerNext(s, r).log.answers
    ensures s.log.exitsMissed ==> RunnerNext(s, r).log.exitsMissed
  {
    if r.TakeReturn? || r.TimeOut? {
    } else {
      OthersKeepAnswers(s, r);
    }
  }

  lemma OthersKeepAnswers(s: State, r: RunnerStep)
    requires RunnerEnabled(s, r) && !r.TakeReturn? && !r.TimeOut?
    ensures RunnerNext(s, r).log.answers == s.log.answers
    ensures RunnerNext(s, r).log.exitsMissed == s.log.exitsMissed
  {}

  /** If a component did not stop in time, no hook has run and none ever will, not even through a
      `close` that follows. */
  lemma {:induction false} NoCleanupAfterLateStop(states: seq<State>, steps: seq<Step>, j: nat, k: nat)
    requires Trace(states, steps) && j <= k < |states| && Late(states[j].log)
    ensures Late(states[k].log) && states[k].log.hooks == []
    decreases k
  {
    if j < k {
      NoCleanupAfterLateStop(states, steps, j, k - 1);
      InvariantHolds(states, steps, k - 1);
      LateStaysLate(states[k - 1], steps[k - 1]);
    }
    NoHooksNow(states, steps, k);
  }

  lemma NoHooksNow(states: seq<State>, steps: seq<Step>, k: nat)
    requires Trace(states, steps) && k < |states| && Late(states[k].log)
    ensures states[k].log.hooks == []
  {
    InvariantHolds(states, steps, k);
    LateMeansNoHooks(states[k]);
  }

  lemma LateMeansNoHooks(s: State)
    requires Core(s) && HooksSafe(s) && Late(s.log)
    ensures s.log.hooks == []
  {
    if !s.log.exitsMissed && s.reg.stopped && !InStopping(s.phase) {
      assert s.reg.stopUnsafe;
    }
  }

  // ---------------------------------------------------------------------------------------
  // Teardown is complete
  // ---------------------------------------------------------------------------------------

  /** Nothing is live, all results have been received and all hooks have run. */
  ghost predicate AllDone(s: State) {
    && Quiet(s)
    && |s.log.received| == |s.env.serve|
    && Whos(s.log.hooks) == CountDown(|s.reg.cleanups|, 0)
  }

  ghost predicate Completed(s: State) {
    s.phase.Out? && s.reg.isClosed && !Late(s.log) ==> AllDone(s)
  }

  lemma CompletedKept(s: State, step: Step)
    requires Core(s) && HooksSafe(s) && EndingKnown(s) && Completed(s) && Enabled(s, step)
    ensures Completed(Next(s, step))
  {
    match step
    case Driver(d) => CompletedKeptByDriver(s, d);
    case Environment(e) => if Quiet(s) { QuietIsFinal(s, e); }
    case Runner(r) => CompletedKeptByRunner(s, r);
  }

  lemma CompletedKeptByDriver(s: State, d: DriverStep)
    requires Shape(s) && Completed(s) && s.phase.Out?
    ensures Completed(DriverNext(s, d))
  {}

  lemma CompletedKeptByRunner(s: State, r: RunnerStep)
    requires Core(s) && HooksSafe(s) && EndingKnown(s) && RunnerEnabled(s, r)
    ensures Completed(RunnerNext(s, r))
  {
    match s.phase
    case Hooks(left) => if left == 0 { CompletedByHooks(s); }
    case AwaitingExits(_) => CompletedByWaiting(s, r);
    case Stopping(_) => CompletedByStopping(s, r);
    case _ => NoReturnElsewhere(s, r);
  }

  lemma CompletedByHooks(s: State)
    requires Shape(s) && HooksSafe(s) && EndingKnown(s) && s.phase == Hooks(0)
    ensures Completed(RunnerNext(s, Proceed))
  {}

  lemma CompletedByWaiting(s: State, r: RunnerStep)
    requires Shape(s) && SafetyKnown(s) && s.phase.AwaitingExits? && RunnerEnabled(s, r)
    ensures Completed(RunnerNext(s, r))
  {}

  lemma CompletedByStopping(s: State, r: RunnerStep)
    requires Shape(s) && SafetyKnown(s) && s.phase.Stopping? && RunnerEnabled(s, r)
    ensures Completed(RunnerNext(s, r))
  {}

  lemma NoReturnElsewhere(s: State, r: RunnerStep)
    requires RunnerEnabled(s, r)
    requires !s.phase.Hooks? && !s.phase.AwaitingExits? && !s.phase.Stopping?
    ensures !RunnerNext(s, r).phase.Out?
  {}

  /** Whenever no call is active and the runtime is closed, by `run` or by `close` alone and with
      whatever errors, either a component was given up on or nothing is live, all results have
      been received and every hook has run. */
  lemma TeardownIsComplete(states: seq<State>, steps: seq<Step>, k: nat)
    requires Trace(states, steps) && k < |states|
    requires states[k].phase.Out? && states[k].reg.isClosed
    ensures Late(states[k].log) || AllDone(states[k])
  {
    InvariantHolds(states, steps, k);
  }

  // ---------------------------------------------------------------------------------------
  // Once-only teardown
  // ---------------------------------------------------------------------------------------

  /** Over all calls together, Shutdown is called at most once for every component and every hook
      runs at most once, both in reverse order of registration; when stopping is over, every
      component has been reached, whether or not the deadline passed. */
  lemma OnceOnlyTeardown(states: seq<State>, steps: seq<Step>, k: nat)
    requires Trace(states, steps) && k < |states|
    ensures var s := states[k]; var n, m := |s.reg.components|, |s.reg.cleanups|;
      && (exists left :: 0 <= left <= n && s.log.calls == CountDown(n, left))
      && (exists left :: 0 <= left <= m && Whos(s.log.hooks) == CountDown(m, left))
      && (s.reg.stopped && !InStopping(s.phase) ==> s.log.calls == CountDown(n, 0))
      && (s.phase.Out? && s.log.hooks != [] ==> Whos(s.log.hooks) == CountDown(m, 0))
  {
    InvariantHolds(states, steps, k);
    var s := states[k];
    var n, m := |s.reg.components|, |s.reg.cleanups|;
    assert CountDown(n, n) == [] && CountDown(m, m) == [];
    assert s.log.calls == CountDown(n, if s.reg.stopped then Untold(s) else n);
    var left := if s.phase.Hooks? then s.phase.left else if s.log.hooks != [] then 0 else m;
    assert Whos(s.log.hooks) == CountDown(m, left);
  }

  /** The runtime has left registration behind with the components and cleanups of `r`. */
  ghost predicate FrozenAs(s: State, r: Registry) {
    && (s.reg.running || s.reg.isClosed)
    && s.reg.components == r.components
    && s.reg.cleanups == r.cleanups
  }

  /** Once the runtime runs or is closed, its components and cleanups never change again: the set
      that is shut down is the set that was served. */
  lemma {:induction false} RegistrationFrozen(states: seq<State>, steps: seq<Step>, j: nat, k: nat)
    requires Trace(states, steps) && j <= k < |states|
    requires states[j].reg.running || states[j].reg.isClosed
    ensures FrozenAs(states[k], states[j].reg)
    decreases k
  {
    if j < k {
      RegistrationFrozen(states, steps, j, k - 1);
      FrozenStep(states[k - 1], steps[k - 1], states[j].reg);
    }
  }

  lemma FrozenStep(s: State, step: Step, r: Registry)
    requires Enabled(s, step) && FrozenAs(s, r)
    ensures FrozenAs(Next(s, step), r)
  {
    match step
    case Driver(d) =>
    case Environment(_) =>
    case Runner(r) => RunnerKeepsRegistration(s, r);
  }

  ghost predicate SameRegistration(s: State, t: State) {
    && t.reg.components == s.reg.components && t.reg.cleanups == s.reg.cleanups
    && t.reg.running == s.reg.running && (s.reg.isClosed ==> t.reg.isClosed)
  }

  lemma RunnerKeepsRegistration(s: State, r: RunnerStep)
    requires RunnerEnabled(s, r)
    ensures SameRegistration(s, RunnerNext(s, r))
  {
    if r.Proceed? { ProceedKeepsRegistration(s); } else { OthersKeepRegistration(s, r); }
  }

  lemma ProceedKeepsRegistration(s: State)
    ensures SameRegistration(s, Continue(s))
  {}

  lemma OthersKeepRegistration(s: State, r: RunnerStep)
    requires RunnerEnabled(s, r) && !r.Proceed?
    ensures SameRegistration(s, RunnerNext(s, r))
  {}

  // ---------------------------------------------------------------------------------------
  // Readiness window
  // ---------------------------------------------------------------------------------------

  ghost function Without(xs: seq<nat>, k: nat): (ys: seq<nat>)
    requires k < |xs|
    ensures |ys| == |xs| - 1
    ensures forall j :: 0 <= j < |ys| ==> ys[j] == xs[if j < k then j else j + 1]
    ensures forall x :: x in ys ==> x in xs
  {
    xs[..k] + xs[k + 1..]
  }

  lemma {:induction false} DistinctFillRange(xs: seq<nat>, n: nat)
    requires forall j, k :: 0 <= j < k < |xs| ==> xs[j] != xs[k]
    requires forall j :: 0 <= j < |xs| ==> xs[j] < n
    requires |xs| >= n
    ensures |xs| == n && forall i :: 0 <= i < n ==> i in xs
    decreases n
  {
    if xs != [] {
      assert xs[0] < n;
      if exists k :: 0 <= k < |xs| && xs[k] == n - 1 {
        var k :| 0 <= k < |xs| && xs[k] == n - 1;
        var ys := Without(xs, k);
        DistinctFillRange(ys, n - 1);
        forall i | 0 <= i < n - 1 ensures i in xs {
          assert i in ys;
        }
      } else {
        DistinctFillRange(xs, n - 1);
      }
    }
  }

  ghost predicate AllReady(s: State) {
    forall i :: 0 <= i < |s.env.ready| ==> s.env.ready[i] == Answered(NoError)
  }

  lemma EnoughReadyMeansAllReady(s: State)
    requires ReadyCounted(s) && |s.log.readied| >= |s.env.ready|
    ensures AllReady(s)
  {
    DistinctFillRange(s.log.readied, |s.env.ready|);
    forall i | 0 <= i < |s.env.ready| ensures s.env.ready[i] == Answered(NoError) {
      assert i in s.log.readied;
      var j :| 0 <= j < |s.log.readied| && s.log.readied[j] == i;
    }
  }

  /** The process reports itself ready only while `run` serves: all Ready calls have returned nil
      then, and readiness was published before any component result was received. It is not
      ready when a Shutdown is called or a hook runs, nor outside of `run`. */
  lemma ReadinessWindow(states: seq<State>, steps: seq<Step>, k: nat)
    requires Trace(states, steps) && k < |states|
    ensures var s := states[k];
      && (s.log.serving ==> s.loc.inRun && !s.reg.stopped && AllReady(s))
      && (k > 0 && s.log.serving && !states[k - 1].log.serving ==> s.log.received == [])
      && (s.phase.Out? || InStopping(s.phase) || s.phase.AwaitingExits? || s.phase.Hooks? ==> !s.log.serving)
  {
    InvariantHolds(states, steps, k);
    var s := states[k];
    if s.log.serving {
      EnoughReadyMeansAllReady(s);
      if k > 0 && !states[k - 1].log.serving {
        InvariantHolds(states, steps, k - 1);
        OnlyPublishingServes(states[k - 1], steps[k - 1]);
      }
    }
  }

  lemma OnlyPublishingServes(s: State, step: Step)
    requires Enabled(s, step) && !s.log.serving && Next(s, step).log.serving
    ensures s.phase.Publishing? && Next(s, step).log.received == s.log.received
  {}

  /** The readiness channel too holds one slot for every component, and a Ready call that has not
      answered finds a free one. */
  lemma ReadinessSendNeverBlocks(s: State, i: nat)
    requires ReadyCounted(s) && i < |s.env.ready| && s.env.ready[i].Waiting?
    ensures |s.env.readiness| < |s.env.ready|
  {
    FullMeansAnswered(s);
  }

  lemma FullMeansAnswered(s: State)
    requires ReadyCounted(s)
    ensures |s.env.readiness| >= |s.env.ready| ==> forall i :: 0 <= i < |s.env.ready| ==> s.env.ready[i].Answered?
  {
    if |s.env.readiness| >= |s.env.ready| {
      var xs := Whos(s.env.readiness);
      DistinctFillRange(xs, |s.env.ready|);
      forall i | 0 <= i < |s.env.ready| ensures s.env.ready[i].Answered? {
        assert i in xs;
        var k :| 0 <= k < |xs| && xs[k] == i;
      }
    }
  }

  /** While `run` is active, the results it waits for and those it has received add up to the
      number of components; and at any time, a component that is still live finds room for its
      result, and a Ready call that is still waiting finds room for its answer. */
  lemma ResultsAddUp(states: seq<State>, steps: seq<Step>, k: nat)
    requires Trace(states, steps) && k < |states|
    ensures var s := states[k];
      && (s.loc.inRun ==> s.loc.remaining + |s.log.received| == |s.reg.components|)
      && (forall i :: 0 <= i < |s.env.serve| && !s.env.serve[i].Exited? ==> |s.env.results| < |s.reg.components|)
      && (forall i :: 0 <= i < |s.env.ready| && s.env.ready[i].Waiting? ==> |s.env.readiness| < |s.reg.components|)
  {
    InvariantHolds(states, steps, k);
    var s := states[k];
    forall i | 0 <= i < |s.env.serve| && !s.env.serve[i].Exited? ensures |s.env.results| < |s.reg.components| {
      ResultSendNeverBlocks(s, i);
    }
    forall i | 0 <= i < |s.env.ready| && s.env.ready[i].Waiting? ensures |s.env.readiness| < |s.reg.components| {
      ReadinessSendNeverBlocks(s, i);
    }
  }

  // ---------------------------------------------------------------------------------------
  // The meaning of success
  // ---------------------------------------------------------------------------------------

  /** All that a nil return of `run` implies. */
  ghost predicate Success(s: State) {
    var n, m := |s.reg.components|, |s.reg.cleanups|;
    && !s.env.ctx.NoError?
    && |s.log.received| == n && ExpectedExits(s.log.received)
    && (forall i :: 0 <= i < n ==> i in Whos(s.log.received))
    && AnsweredDown(s.log.answers, n, 0) && CleanAnswers(s.log.answers)
    && Whos(s.log.hooks) == CountDown(m, 0) && CleanHooks(s.log.hooks)
    && Quiet(s)
  }

  /** Every call of `run` that has returned, with or without an error, either gave a component up,
      and then says that resources were left open, or has received all results and run all
      hooks. The error names the failures in the order in which they happened, and nothing else. */
  lemma RunIsComplete(states: seq<State>, steps: seq<Step>, k: nat)
    requires Trace(states, steps) && k < |states| && states[k].log.outcome.Ended?
    ensures var s := states[k]; var problems := s.log.outcome.problems;
      && problems == Verdict(s.log, |s.reg.components|)
      && AllNamed(s.log, problems)
      && (ResourcesLeftOpen in problems <==> Late(s.log))
      && (!Late(s.log) ==> AllDone(s))
  {
    InvariantHolds(states, steps, k);
    FailuresAreNamed(states[k]);
  }

  /** `run` returns nil exactly when the whole run was clean. It was asked to stop then; it has
      received one expected result from every component; every Shutdown call returned in time
      with nil or an expected stop; and every hook ran and returned nil. */
  lemma MeaningOfSuccess(states: seq<State>, steps: seq<Step>, k: nat)
    requires Trace(states, steps) && k < |states| && states[k].log.outcome.Ended?
    ensures var s := states[k]; var problems := s.log.outcome.problems;
      && (problems == [] <==> Clean(s.log))
      && (problems == [] ==> Success(s))
  {
    InvariantHolds(states, steps, k);
    var s := states[k];
    NilExactlyWhenClean(s);
    if Clean(s.log) { CleanIsSuccess(s); }
  }

  lemma CleanIsSuccess(s: State)
    requires Invariant(s) && s.log.outcome.Ended? && Clean(s.log)
    ensures Success(s)
  {
    assert AllInTime(s.log.answers);
    assert AllDone(s);
    ReceivedFromAll(s);
  }

  lemma ReceivedFromAll(s: State)
    requires Counted(s) && |s.log.received| == |s.env.serve|
    ensures forall i :: 0 <= i < |s.env.serve| ==> i in Whos(s.log.received)
  {
    var xs := Whos(s.log.received);
    forall j | 0 <= j < |xs| ensures xs[j] < |s.env.serve| {
      assert Exits(s)[j] == s.log.received[j];
    }
    forall j, k | 0 <= j < k < |xs| ensures xs[j] != xs[k] {
      assert Exits(s)[j] == s.log.received[j] && Exits(s)[k] == s.log.received[k];
    }
    DistinctFillRange(xs, |s.env.serve|);
  }

  // ---------------------------------------------------------------------------------------
  // Stopping comes to an end
  // ---------------------------------------------------------------------------------------

  /** A bound on the steps the runner still takes once it drains or closes. */
  function StepsLeft(s: State): int {
    var n, m := |s.reg.components|, |s.reg.cleanups|;
    var exits := if s.loc.remaining > 0 then s.loc.remaining else 0;
    match s.phase
    case Out => 0
    case Hooks(left) => 1 + left
    case AwaitingExits(expired) => m + 2 + exits + if expired then 1 else 2
    case Stopping(left) => m + n + 5 + 2 * left
    case AwaitingReturn(who) => m + n + 5 + 2 * who + 1
    case Draining => m + n + 6 + 2 * n
    case _ => m + n + 7 + 2 * n
  }

  ghost predicate Ending(p: Phase) {
    p.Draining? || InStopping(p) || p.AwaitingExits? || p.Hooks?
  }

  /** From draining on, every step of the runner brings it closer to its return, and once the
      deadline has fired it is never left waiting for a goroutine. */
  lemma StoppingEnds(states: seq<State>, steps: seq<Step>, k: nat)
    requires Trace(states, steps) && k < |states| && Ending(states[k].phase)
    ensures var s := states[k];
      && 0 < StepsLeft(s) <= 3 * |s.reg.components| + |s.reg.cleanups| + 6
      && (forall r :: RunnerEnabled(s, r) ==> 0 <= StepsLeft(RunnerNext(s, r)) < StepsLeft(s))
      && (s.env.deadline || s.phase.Draining? || s.phase.Hooks? ==> exists r :: RunnerEnabled(s, r))
  {
    InvariantHolds(states, steps, k);
    var s := states[k];
    forall r | RunnerEnabled(s, r) ensures 0 <= StepsLeft(RunnerNext(s, r)) < StepsLeft(s) {
      StepBringsCloser(s, r);
    }
    if s.env.deadline || s.phase.Draining? || s.phase.Hooks? {
      SomethingEnabled(s);
    }
  }

  lemma StepBringsCloser(s: State, r: RunnerStep)
    requires Core(s) && RunnerEnabled(s, r) && Ending(s.phase)
    ensures 0 <= StepsLeft(RunnerNext(s, r)) < StepsLeft(s)
  {
    if r.Proceed? { ProceedBringsCloser(s); } else { OthersBringCloser(s, r); }
  }

  lemma ProceedBringsCloser(s: State)
    requires Core(s) && RunnerEnabled(s, Proceed) && Ending(s.phase)
    ensures 0 <= StepsLeft(RunnerNext(s, Proceed)) < StepsLeft(s)
  {
    match s.phase
    case Stopping(_) => StoppedBringsCloser(s);
    case AwaitingExits(_) => ExitedBringsCloser(s);
    case Draining =>
    case Hooks(_) =>
  }

  lemma StoppedBringsCloser(s: State)
    requires Counted(s) && Shape(s) && s.phase == Stopping(0)
    ensures 0 <= StepsLeft(RunnerNext(s, Proceed)) < StepsLeft(s)
  {
    if s.loc.inRun {
      assert s.loc.remaining <= |s.reg.components|;
    }
  }

  lemma ExitedBringsCloser(s: State)
    requires Shape(s) && s.phase.AwaitingExits? && s.loc.remaining <= 0
    ensures 0 <= StepsLeft(RunnerNext(s, Proceed)) < StepsLeft(s)
  {}

  lemma OthersBringCloser(s: State, r: RunnerStep)
    requires Shape(s) && RunnerEnabled(s, r) && Ending(s.phase) && !r.Proceed?
    ensures 0 <= StepsLeft(RunnerNext(s, r)) < StepsLeft(s)
  {}

  /** A step that the runner can take while it ends. */
  function PossibleStep(s: State): RunnerStep {
    match s.phase
    case Stopping(left) => if left == 0 then Proceed else CallShutdown
    case AwaitingReturn(who) => if who < |s.env.shut| && s.env.shut[who].Returned? then TakeReturn else TimeOut
    case AwaitingExits(_) =>
      if s.loc.remaining <= 0 then Proceed else if s.env.results != [] then TakeExit else TimeOut
    case Hooks(left) => if left == 0 then Proceed else RunHook(NoError)
    case _ => Proceed
  }

  lemma SomethingEnabled(s: State)
    requires Core(s) && Ending(s.phase)
    requires s.env.deadline || s.phase.Draining? || s.phase.Hooks?
    ensures RunnerEnabled(s, PossibleStep(s))
  {
    if s.phase.AwaitingReturn? { AnswerOrTimeOut(s); }
  }

  lemma AnswerOrTimeOut(s: State)
    requires Shape(s) && InReverse(s) && Told(s) && s.phase.AwaitingReturn? && s.env.deadline
    ensures RunnerEnabled(s, PossibleStep(s))
  {
    assert s.phase.who < |s.env.shut| && !s.env.shut[s.phase.who].NotCalled?;
  }
}
