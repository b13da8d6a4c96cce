/** Resource safety over every interleaving. */
module LifecycleSafety {
  import opened Lifecycle
  import opened LifecycleInvariants

  // ---------------------------------------------------------------------------------------
  // Cleanup hooks run only when nothing is live
  // ---------------------------------------------------------------------------------------

  ghost predicate AllExited(env: Env) {
    forall i :: 0 <= i < |env.serve| ==> env.serve[i].Exited?
  }

  ghost predicate AllShut(env: Env) {
    forall i :: 0 <= i < |env.shut| ==> env.shut[i].Returned?
  }

  /** Every Serve has delivered its result and every Shutdown call has returned. */
  ghost predicate Quiet(s: State) {
    s.reg.stopped && AllExited(s.env) && AllShut(s.env)
  }

  ghost predicate Core(s: State) {
    Shape(s) && Counted(s) && ReadyCounted(s) && InReverse(s) && Told(s) && SafetyKnown(s)
  }

  lemma CoreKept(s: State, step: Step)
    requires Core(s) && Enabled(s, step)
    ensures Core(Next(s, step))
  {
    ShapeKept(s, step);
    CountedKept(s, step);
    ReadyCountedKept(s, step);
    InReverseKept(s, step);
    ToldKept(s, step);
    SafetyKnownKept(s, step);
  }

  /** When all answers came in time, all Shutdown calls have returned. */
  lemma AllReturnedMeansReturned(s: State)
    requires Shape(s) && InReverse(s) && Told(s) && s.reg.stopped
    requires Untold(s) == 0 && !s.phase.AwaitingReturn? && AllInTime(s.log.answers)
    ensures AllShut(s.env)
  {
    var n := |s.reg.components|;
    forall i | 0 <= i < n ensures s.env.shut[i].Returned? {
      var k := n - 1 - i;
      assert s.log.answers[k].who == i && s.log.answers[k].inTime;
    }
  }

  /** When `run` waits for no more results, all components have exited. */
  lemma NothingRemainsMeansExited(s: State)
    requires Counted(s) && s.loc.inRun && s.loc.remaining <= 0
    ensures s.loc.remaining == 0 && |s.log.received| == |s.env.serve|
    ensures AllExited(s.env)
  {
    assert |Exits(s)| == |s.log.received| + |s.env.results|;
    forall i | 0 <= i < |s.env.serve| ensures s.env.serve[i].Exited? {
      CountAll(s.env.serve, i);
    }
  }

  /** Hooks run only while everything is quiet, from the last one down, all or none, and never
      after a component failed to stop in time. */
  ghost predicate HooksSafe(s: State) {
    var m := |s.reg.cleanups|;
    && (s.phase.Hooks? ==>
          && Quiet(s) && s.phase.left <= m && Whos(s.log.hooks) == CountDown(m, s.phase.left)
          && !s.log.exitsMissed
          && (s.loc.inRun ==> |s.log.received| == |s.env.serve|))
    && (!s.phase.Hooks? && s.log.hooks != [] ==>
          s.phase.Out? && s.reg.isClosed && Quiet(s) && Whos(s.log.hooks) == CountDown(m, 0))
    && (!s.reg.isClosed ==> s.log.hooks == [] && !s.log.exitsMissed)
    && (s.log.exitsMissed ==> s.phase.Out? && s.log.hooks == [])
    && (s.reg.stopUnsafe && !InStopping(s.phase) ==> s.log.hooks == [])
  }

  lemma HooksSafeKept(s: State, step: Step)
    requires Core(s) && HooksSafe(s) && Enabled(s, step)
    ensures HooksSafe(Next(s, step))
  {
    match step
    case Driver(d) => HooksSafeKeptByDriver(s, d);
    case Environment(e) => HooksSafeKeptByEnv(s, e);
    case Runner(r) =>
      if r.Proceed? { HooksSafeKeptByProceed(s); }
      else if r.RunHook? { HooksSafeKeptByHook(s, r.cause); }
      else { HooksSafeKeptByOthers(s, r); }
  }

  lemma HooksSafeKeptByEnv(s: State, e: EnvStep)
    requires HooksSafe(s) && EnvEnabled(s.env, e)
    ensures HooksSafe(s.(env := EnvNext(s.env, e)))
  {
    if Quiet(s) {
      QuietIsFinal(s, e);
    }
  }

  /** Nothing that is quiet starts again. */
  lemma QuietIsFinal(s: State, e: EnvStep)
    requires Quiet(s) && EnvEnabled(s.env, e)
    ensures EnvNext(s.env, e).serve == s.env.serve && EnvNext(s.env, e).shut == s.env.shut
  {}

  lemma HooksSafeKeptByDriver(s: State, d: DriverStep)
    requires Core(s) && HooksSafe(s) && s.phase.Out?
    ensures HooksSafe(DriverNext(s, d))
  {}

  lemma HooksSafeKeptByProceed(s: State)
    requires Core(s) && HooksSafe(s) && RunnerEnabled(s, Proceed)
    ensures HooksSafe(RunnerNext(s, Proceed))
  {
    if s.phase.Stopping? {
      if s.loc.allReturned { AllReturnedMeansReturned(s); }
      HooksSafeAfterStopping(s);
    } else if s.phase.AwaitingExits? {
      if s.loc.allReturned {
        AllReturnedMeansReturned(s);
        NothingRemainsMeansExited(s);
      }
      HooksSafeAfterExits(s);
    } else {
      HooksSafeElsewhere(s);
    }
  }

  lemma HooksSafeAfterStopping(s: State)
    requires Shape(s) && HooksSafe(s) && s.phase == Stopping(0) && (s.loc.allReturned ==> AllShut(s.env))
    ensures HooksSafe(RunnerNext(s, Proceed))
  {
    assert s.log.hooks == [];
  }

  lemma HooksSafeAfterExits(s: State)
    requires Shape(s) && SafetyKnown(s) && HooksSafe(s) && s.phase.AwaitingExits? && s.loc.remaining <= 0
    requires s.loc.allReturned ==> Quiet(s) && |s.log.received| == |s.env.serve|
    ensures HooksSafe(RunnerNext(s, Proceed))
  {
    assert s.log.hooks == [];
  }

  lemma HooksSafeElsewhere(s: State)
    requires Shape(s) && HooksSafe(s) && RunnerEnabled(s, Proceed)
    requires !s.phase.Stopping? && !s.phase.AwaitingExits?
    ensures HooksSafe(RunnerNext(s, Proceed))
  {}

  lemma HooksSafeKeptByHook(s: State, c: Cause)
    requires Shape(s) && SafetyKnown(s) && HooksSafe(s) && s.phase.Hooks? && s.phase.left > 0
    ensures HooksSafe(Hook(s, c))
  {
    WhosSnoc(s.log.hooks, Note(s.phase.left - 1, c));
  }

  lemma WhosSnoc(notes: seq<Note>, x: Note)
    ensures Whos(notes + [x]) == Whos(notes) + [x.who]
  {}

  lemma HooksSafeKeptByOthers(s: State, r: RunnerStep)
    requires Shape(s) && HooksSafe(s) && RunnerEnabled(s, r) && !r.Proceed? && !r.RunHook?
    ensures HooksSafe(RunnerNext(s, r))
  {
    assert s.log.hooks == [];
    if r.TimeOut? { HooksSafeAfterTimeOut(s); } else { OthersTouchNoHook(s, r); }
  }

  lemma HooksSafeAfterTimeOut(s: State)
    requires Shape(s) && HooksSafe(s) && RunnerEnabled(s, TimeOut) && s.log.hooks == []
    ensures HooksSafe(RunnerNext(s, TimeOut))
  {}

  lemma OthersTouchNoHook(s: State, r: RunnerStep)
    requires RunnerEnabled(s, r) && !r.Proceed? && !r.RunHook? && !r.TimeOut?
    ensures var t := RunnerNext(s, r);
      t.log.hooks == s.log.hooks && t.log.exitsMissed == s.log.exitsMissed && t.reg == s.reg && !t.phase.Hooks?
  {}

  // ---------------------------------------------------------------------------------------
  // A context that was seen done stays done
  // ---------------------------------------------------------------------------------------

  function CtxAt(e: Ending): Cause {
    match e
    case Going => NoError
    case ReadyFailure(_, ctx) => ctx
    case EarlyExit(_, ctx) => ctx
    case ExitBeforePublish(_) => NoError
    case StartupOver(_, ctx) => ctx
    case Stopped(ctx) => ctx
  }

  ghost predicate CtxRemembered(s: State) {
    !CtxAt(s.log.ending).NoError? ==> s.env.ctx == CtxAt(s.log.ending)
  }

  lemma CtxRememberedKept(s: State, step: Step)
    requires CtxRemembered(s) && Enabled(s, step)
    ensures CtxRemembered(Next(s, step))
  {
    match step
    case Driver(d) => CtxKeptByDriver(s, d);
    case Environment(_) =>
    case Runner(r) => CtxKeptByRunner(s, r);
  }

  lemma CtxKeptByDriver(s: State, d: DriverStep)
    ensures DriverNext(s, d).env.ctx == s.env.ctx && DriverNext(s, d).log.ending == s.log.ending
  {}

  lemma CtxKeptByRunner(s: State, r: RunnerStep)
    requires RunnerEnabled(s, r)
    ensures var t := RunnerNext(s, r);
      t.env.ctx == s.env.ctx && (t.log.ending == s.log.ending || CtxAt(t.log.ending) in {NoError, s.env.ctx})
  {}
}
