/** The error that `run` returns, as a function of what happened: which failures it names, and in
    which order. */
module LifecycleErrors {
  import opened Lifecycle
  import opened LifecycleInvariants
  import opened LifecycleSafety

  // ---------------------------------------------------------------------------------------
  // The failures in the history
  // ---------------------------------------------------------------------------------------

  function EndingProblems(e: Ending): seq<Problem> {
    match e
    case Going => []
    case ReadyFailure(note, ctx) =>
      if ctx.NoError? || note.cause != ctx then [StartFailed(note.who, note.cause)] else []
    case EarlyExit(note, ctx) =>
      if ctx.NoError? || !ExpectedStop(note.cause) then [ServeFailed(note.who, note.cause)] else []
    case ExitBeforePublish(note) => [ServeFailed(note.who, note.cause)]
    case StartupOver(cause, ctx) => if ctx.NoError? then [StartTimedOut(cause)] else []
    case Stopped(_) => []
  }

  /** A failed Shutdown call. */
  function AnswerProblem(a: Answer): seq<Problem> {
    if !a.inTime then [ShutdownTimedOut(a.who)]
    else if ExpectedStop(a.cause) then []
    else [ShutdownFailed(a.who, a.cause)]
  }

  function AnswerProblems(answers: seq<Answer>): seq<Problem> {
    if answers == [] then []
    else AnswerProblems(answers[..|answers| - 1]) + AnswerProblem(answers[|answers| - 1])
  }

  function ExitProblem(x: Note): seq<Problem> {
    if ExpectedStop(x.cause) then [] else [ServeFailed(x.who, x.cause)]
  }

  function ExitProblems(exits: seq<Note>): seq<Problem> {
    if exits == [] then [] else ExitProblems(exits[..|exits| - 1]) + ExitProblem(exits[|exits| - 1])
  }

  function HookProblem(x: Note): seq<Problem> {
    if x.cause.NoError? then [] else [HookFailed(x.who, x.cause)]
  }

  function HookProblems(hooks: seq<Note>): seq<Problem> {
    if hooks == [] then [] else HookProblems(hooks[..|hooks| - 1]) + HookProblem(hooks[|hooks| - 1])
  }

  /** The ending was a component's result. */
  predicate TookExit(e: Ending) {
    e.EarlyExit? || e.ExitBeforePublish?
  }

  /** The results received after the ending. */
  function LaterExits(log: History): seq<Note> {
    if TookExit(log.ending) && log.received != [] then log.received[1..] else log.received
  }

  /** A Shutdown call or a Serve was given up on. */
  ghost predicate Late(log: History) {
    log.exitsMissed || !AllInTime(log.answers)
  }

  /** What has failed so far in a run, in the order in which it failed. */
  function Failures(log: History): seq<Problem> {
    EndingProblems(log.ending) + AnswerProblems(log.answers) + ExitProblems(LaterExits(log)) + HookProblems(log.hooks)
  }

  /** The error that a run of `n` components with this history returns. */
  ghost function Verdict(log: History, n: nat): seq<Problem> {
    Failures(log)
    + (if log.exitsMissed then [ExitsTimedOut(if |log.received| <= n then n - |log.received| else 0)] else [])
    + (if Late(log) then [ResourcesLeftOpen] else [])
  }

  // ---------------------------------------------------------------------------------------
  // The joined error is the list of failures, at every step
  // ---------------------------------------------------------------------------------------

  ghost predicate BeforeEnding(p: Phase) {
    InServing(p) && !p.Draining?
  }

  /** How the wait ended is recorded when it ends, with the result that ended it, if one did, at
      the head of those received; until the components have been stopped, no other follows. */
  ghost predicate EndingKnown(s: State) {
    && (s.log.ending.Going? <==> !s.reg.running || BeforeEnding(s.phase))
    && (!s.reg.running ==> s.log.received == [])
    && (s.log.ending.Stopped? ==> !s.log.ending.ctx.NoError?)
    && (TookExit(s.log.ending) ==> s.log.received != [] && s.log.received[0] == s.log.ending.note)
    && (s.loc.inRun && !s.phase.AwaitingExits? && !s.phase.Hooks? ==> LaterExits(s.log) == [])
  }

  ghost predicate Accounted(s: State) {
    && (s.loc.inRun ==> s.loc.joined == Failures(s.log))
    && (s.log.outcome.Ended? ==> s.log.outcome.problems == Verdict(s.log, |s.env.serve|))
  }

  lemma EndingKnownKept(s: State, step: Step)
    requires Shape(s) && Counted(s) && EndingKnown(s) && Enabled(s, step)
    ensures EndingKnown(Next(s, step))
  {
    match step
    case Driver(d) => EndingKnownKeptByDriver(s, d);
    case Environment(_) =>
    case Runner(r) =>
      match r
      case Proceed => EndingKnownKeptByProceed(s);
      case TakeExit => EndingKnownKeptByExit(s);
      case _ => EndingKnownKeptByOthers(s, r);
  }

  lemma EndingKnownKeptByDriver(s: State, d: DriverStep)
    requires Shape(s) && EndingKnown(s) && s.phase.Out?
    ensures EndingKnown(DriverNext(s, d))
  {}

  lemma EndingKnownKeptByProceed(s: State)
    requires Shape(s) && EndingKnown(s) && RunnerEnabled(s, Proceed)
    ensures EndingKnown(RunnerNext(s, Proceed))
  {}

  lemma EndingKnownKeptByExit(s: State)
    requires Shape(s) && Counted(s) && EndingKnown(s) && RunnerEnabled(s, TakeExit)
    ensures EndingKnown(RunnerNext(s, TakeExit))
  {}

  lemma EndingKnownKeptByOthers(s: State, r: RunnerStep)
    requires Shape(s) && Counted(s) && EndingKnown(s) && RunnerEnabled(s, r) && !r.Proceed? && !r.TakeExit?
    ensures EndingKnown(RunnerNext(s, r))
  {
    if r.TakeReady? || r.SeeReadyCtx? || r.SeeCtx? { EndingKnownAtEnding(s, r); } else { EndingKnownLater(s, r); }
  }

  lemma EndingKnownAtEnding(s: State, r: RunnerStep)
    requires Shape(s) && s.log.received == [] && EndingKnown(s)
    requires RunnerEnabled(s, r) && (r.TakeReady? || r.SeeReadyCtx? || r.SeeCtx?)
    ensures EndingKnown(RunnerNext(s, r))
  {}

  lemma EndingKnownLater(s: State, r: RunnerStep)
    requires Shape(s) && EndingKnown(s) && RunnerEnabled(s, r)
    requires r.CallShutdown? || r.TakeReturn? || r.TimeOut? || r.RunHook?
    ensures EndingKnown(RunnerNext(s, r))
  {}

  // The four kinds of failure follow each other: nothing is joined before its turn.

  lemma AnswerFails(log: History, a: Answer)
    requires LaterExits(log) == [] && log.hooks == []
    ensures Failures(log.(answers := log.answers + [a])) == Failures(log) + AnswerProblem(a)
  {
    assert (log.answers + [a])[..|log.answers|] == log.answers;
  }

  lemma ExitFails(log: History, x: Note)
    requires log.hooks == [] && (TookExit(log.ending) ==> log.received != [])
    ensures Failures(log.(received := log.received + [x])) == Failures(log) + ExitProblem(x)
  {
    var later := LaterExits(log);
    assert LaterExits(log.(received := log.received + [x])) == later + [x];
    assert (later + [x])[..|later|] == later;
  }

  lemma HookFails(log: History, x: Note)
    ensures Failures(log.(hooks := log.hooks + [x])) == Failures(log) + HookProblem(x)
  {
    assert (log.hooks + [x])[..|log.hooks|] == log.hooks;
  }

  lemma AccountedKept(s: State, step: Step)
    requires Core(s) && HooksSafe(s) && EndingKnown(s) && Accounted(s) && Enabled(s, step)
    ensures Accounted(Next(s, step))
  {
    match step
    case Driver(d) => AccountedKeptByDriver(s, d);
    case Environment(e) => AccountedKeptByEnv(s, e);
    case Runner(r) => AccountedKeptByRunner(s, r);
  }

  lemma AccountedKeptByEnv(s: State, e: EnvStep)
    requires Accounted(s) && EnvEnabled(s.env, e)
    ensures Accounted(s.(env := EnvNext(s.env, e)))
  {
    assert |EnvNext(s.env, e).serve| == |s.env.serve|;
  }

  lemma AccountedKeptByRunner(s: State, r: RunnerStep)
    requires Core(s) && HooksSafe(s) && EndingKnown(s) && Accounted(s) && RunnerEnabled(s, r)
    ensures Accounted(RunnerNext(s, r))
  {
    assert s.log.outcome.Pending?;
    match r
    case Proceed => AccountedKeptByProceed(s);
    case TakeExit => AccountedKeptByExit(s);
    case TakeReturn => AccountedKeptByReturn(s);
    case TimeOut => AccountedKeptByTimeOut(s);
    case RunHook(c) => AccountedKeptByHook(s, c);
    case CallShutdown =>
    case _ => AccountedKeptByEnding(s, r);
  }

  lemma AccountedKeptByDriver(s: State, d: DriverStep)
    requires Shape(s) && InReverse(s) && HooksSafe(s) && EndingKnown(s) && Accounted(s) && s.phase.Out?
    ensures Accounted(DriverNext(s, d))
  {}

  lemma AccountedKeptByProceed(s: State)
    requires Shape(s) && SafetyKnown(s) && HooksSafe(s) && Accounted(s) && RunnerEnabled(s, Proceed)
    ensures Accounted(RunnerNext(s, Proceed))
  {}

  lemma AccountedKeptByExit(s: State)
    requires Shape(s) && Counted(s) && InReverse(s) && HooksSafe(s) && EndingKnown(s) && Accounted(s)
    requires RunnerEnabled(s, TakeExit)
    ensures Accounted(RunnerNext(s, TakeExit))
  {
    assert s.log.hooks == [] && s.log.outcome.Pending?;
    if s.phase.AwaitingExits? { AccountedAfterExit(s); } else { AccountedAtExit(s); }
  }

  lemma AccountedAfterExit(s: State)
    requires s.log.hooks == [] && s.log.outcome.Pending? && (TookExit(s.log.ending) ==> s.log.received != [])
    requires Accounted(s) && s.phase.AwaitingExits? && s.env.results != []
    ensures Accounted(ReceiveExit(s))
  {
    var x, t := s.env.results[0], ReceiveExit(s);
    ExitFails(s.log, x);
    assert t.log == s.log.(received := s.log.received + [x]);
    assert t.loc.joined == s.loc.joined + ExitProblem(x);
  }

  lemma AccountedAtExit(s: State)
    requires s.log.hooks == [] && s.log.answers == [] && s.log.received == [] && s.log.outcome.Pending?
    requires s.log.ending.Going? && Accounted(s) && s.env.results != [] && !s.phase.AwaitingExits?
    ensures Accounted(ReceiveExit(s))
  {
    var t := ReceiveExit(s);
    assert t.log.received == [s.env.results[0]];
    FirstFailure(s.log, t.log);
  }

  lemma FirstFailure(before: History, log: History)
    requires before.ending.Going? && before.hooks == [] && before.answers == [] && before.received == []
    requires log.answers == [] && log.hooks == [] && LaterExits(log) == []
    ensures Failures(before) == [] && Failures(log) == EndingProblems(log.ending)
  {}

  lemma AccountedKeptByReturn(s: State)
    requires Shape(s) && HooksSafe(s) && EndingKnown(s) && Accounted(s) && RunnerEnabled(s, TakeReturn)
    ensures Accounted(RunnerNext(s, TakeReturn))
  {
    assert s.log.hooks == [];
    if s.loc.inRun { AnswerFails(s.log, Answer(s.phase.who, true, s.env.shut[s.phase.who].cause)); }
  }

  lemma AccountedKeptByTimeOut(s: State)
    requires Shape(s) && Counted(s) && HooksSafe(s) && EndingKnown(s) && Accounted(s) && RunnerEnabled(s, TimeOut)
    ensures Accounted(RunnerNext(s, TimeOut))
  {
    assert s.log.hooks == [];
    if s.phase.AwaitingReturn? {
      if s.loc.inRun { AnswerFails(s.log, Answer(s.phase.who, false, NoError)); }
    }
  }

  lemma AccountedKeptByHook(s: State, c: Cause)
    requires s.log.outcome.Pending? && Accounted(s) && s.phase.Hooks? && s.phase.left > 0
    ensures Accounted(Hook(s, c))
  {
    HookFails(s.log, Note(s.phase.left - 1, c));
  }

  lemma AccountedKeptByEnding(s: State, r: RunnerStep)
    requires s.log.hooks == [] && s.log.answers == [] && s.log.received == [] && s.log.ending.Going?
    requires s.log.outcome.Pending? && Accounted(s)
    requires RunnerEnabled(s, r) && (r.TakeReady? || r.SeeReadyCtx? || r.SeeCtx?)
    ensures Accounted(RunnerNext(s, r))
  {
    FirstFailure(s.log, RunnerNext(s, r).log);
  }

  // ---------------------------------------------------------------------------------------
  // What the error says
  // ---------------------------------------------------------------------------------------

  /** The causes that belong to an orderly stop: nil, a cancelled context, a closed connection. */
  ghost predicate Orderly(c: Cause) {
    c in {NoError, Canceled, ConnClosed}
  }

  /** The wait for startup or for the end of serving ended because the process was asked to stop,
      or in a way that goes with that. */
  ghost predicate Benign(e: Ending) {
    match e
    case Going => true
    case ReadyFailure(note, ctx) => !ctx.NoError? && note.cause == ctx
    case EarlyExit(note, ctx) => !ctx.NoError? && Orderly(note.cause)
    case ExitBeforePublish(_) => false
    case StartupOver(_, ctx) => !ctx.NoError?
    case Stopped(ctx) => !ctx.NoError?
  }

  ghost predicate ExpectedExits(received: seq<Note>) {
    forall j :: 0 <= j < |received| ==> Orderly(received[j].cause)
  }

  ghost predicate CleanAnswers(answers: seq<Answer>) {
    forall k :: 0 <= k < |answers| ==> answers[k].inTime && Orderly(answers[k].cause)
  }

  ghost predicate CleanHooks(hooks: seq<Note>) {
    forall k :: 0 <= k < |hooks| ==> hooks[k].cause.NoError?
  }

  ghost predicate Clean(log: History) {
    && Benign(log.ending)
    && ExpectedExits(log.received)
    && CleanAnswers(log.answers)
    && !log.exitsMissed
    && CleanHooks(log.hooks)
  }

  lemma NoneOfBoth(a: seq<Problem>, b: seq<Problem>)
    ensures a + b == [] <==> a == [] && b == []
  {}

  lemma ExpectedExitsSnoc(ns: seq<Note>, x: Note)
    ensures ExpectedExits(ns + [x]) <==> ExpectedExits(ns) && Orderly(x.cause)
  {
    var all := ns + [x];
    assert all[|ns|] == x;
    if ExpectedExits(all) {
      forall j | 0 <= j < |ns| ensures Orderly(ns[j].cause) { assert all[j] == ns[j]; }
    }
  }

  lemma CleanAnswersSnoc(xs: seq<Answer>, x: Answer)
    ensures CleanAnswers(xs + [x]) <==> CleanAnswers(xs) && x.inTime && Orderly(x.cause)
  {
    var all := xs + [x];
    assert all[|xs|] == x;
    if CleanAnswers(all) {
      forall j | 0 <= j < |xs| ensures xs[j].inTime && Orderly(xs[j].cause) { assert all[j] == xs[j]; }
    }
  }

  lemma CleanHooksSnoc(ns: seq<Note>, x: Note)
    ensures CleanHooks(ns + [x]) <==> CleanHooks(ns) && x.cause.NoError?
  {
    var all := ns + [x];
    assert all[|ns|] == x;
    if CleanHooks(all) {
      forall j | 0 <= j < |ns| ensures ns[j].cause.NoError? { assert all[j] == ns[j]; }
    }
  }

  lemma {:induction false} NoExitProblem(exits: seq<Note>)
    ensures ExitProblems(exits) == [] <==> ExpectedExits(exits)
  {
    if exits != [] {
      var init, last := exits[..|exits| - 1], exits[|exits| - 1];
      NoExitProblem(init);
      NoneOfBoth(ExitProblems(init), ExitProblem(last));
      ExpectedExitsSnoc(init, last);
      assert exits == init + [last];
    }
  }

  lemma {:induction false} NoAnswerProblem(answers: seq<Answer>)
    ensures AnswerProblems(answers) == [] <==> CleanAnswers(answers)
  {
    if answers != [] {
      var init, last := answers[..|answers| - 1], answers[|answers| - 1];
      NoAnswerProblem(init);
      NoneOfBoth(AnswerProblems(init), AnswerProblem(last));
      CleanAnswersSnoc(init, last);
      assert answers == init + [last];
    }
  }

  lemma {:induction false} NoHookProblem(hooks: seq<Note>)
    ensures HookProblems(hooks) == [] <==> CleanHooks(hooks)
  {
    if hooks != [] {
      var init, last := hooks[..|hooks| - 1], hooks[|hooks| - 1];
      NoHookProblem(init);
      NoneOfBoth(HookProblems(init), HookProblem(last));
      CleanHooksSnoc(init, last);
      assert hooks == init + [last];
    }
  }

  lemma ExpectedFromEnding(log: History)
    requires TookExit(log.ending) ==> log.received != [] && log.received[0] == log.ending.note
    ensures Benign(log.ending) ==> (ExpectedExits(log.received) <==> ExpectedExits(LaterExits(log)))
  {
    if TookExit(log.ending) {
      assert log.received == [log.received[0]] + LaterExits(log);
    }
  }

  lemma NoFailures(log: History)
    ensures Failures(log) == [] <==>
      && EndingProblems(log.ending) == []
      && AnswerProblems(log.answers) == []
      && ExitProblems(LaterExits(log)) == []
      && HookProblems(log.hooks) == []
  {}

  /** The returned error is nil exactly when everything was clean. */
  lemma NilExactlyWhenClean(s: State)
    requires EndingKnown(s)
    ensures Verdict(s.log, |s.env.serve|) == [] <==> Clean(s.log)
  {
    var log := s.log;
    NoFailures(log);
    NoAnswerProblem(log.answers);
    NoExitProblem(LaterExits(log));
    NoHookProblem(log.hooks);
    ExpectedFromEnding(log);
    assert Benign(log.ending) <==> EndingProblems(log.ending) == [];
    assert CleanAnswers(log.answers) ==> AllInTime(log.answers);
  }

  // ---------------------------------------------------------------------------------------
  // Every failure is named
  // ---------------------------------------------------------------------------------------

  lemma {:induction false} ExitNamed(exits: seq<Note>, j: nat)
    requires j < |exits| && !Orderly(exits[j].cause)
    ensures ServeFailed(exits[j].who, exits[j].cause) in ExitProblems(exits)
  {
    if j < |exits| - 1 { ExitNamed(exits[..|exits| - 1], j); }
  }

  lemma {:induction false} AnswerNamed(answers: seq<Answer>, k: nat)
    requires k < |answers|
    ensures forall p :: p in AnswerProblem(answers[k]) ==> p in AnswerProblems(answers)
  {
    if k < |answers| - 1 { AnswerNamed(answers[..|answers| - 1], k); }
  }

  lemma {:induction false} HookNamed(hooks: seq<Note>, k: nat)
    requires k < |hooks| && !hooks[k].cause.NoError?
    ensures HookFailed(hooks[k].who, hooks[k].cause) in HookProblems(hooks)
  {
    if k < |hooks| - 1 { HookNamed(hooks[..|hooks| - 1], k); }
  }

  /** No failure is missing from the problems: no unexpected result of a Serve, no Shutdown call
      that failed or was given up on, no hook that failed. */
  ghost predicate AllNamed(log: History, problems: seq<Problem>) {
    && (forall j :: 0 <= j < |log.received| && !Orderly(log.received[j].cause) ==>
          ServeFailed(log.received[j].who, log.received[j].cause) in problems)
    && (forall k :: 0 <= k < |log.answers| && !log.answers[k].inTime ==>
          ShutdownTimedOut(log.answers[k].who) in problems)
    && (forall k :: 0 <= k < |log.answers| && log.answers[k].inTime && !Orderly(log.answers[k].cause) ==>
          ShutdownFailed(log.answers[k].who, log.answers[k].cause) in problems)
    && (forall k :: 0 <= k < |log.hooks| && !log.hooks[k].cause.NoError? ==>
          HookFailed(log.hooks[k].who, log.hooks[k].cause) in problems)
    && (ResourcesLeftOpen in problems <==> Late(log))
  }

  lemma FailuresAreNamed(s: State)
    requires EndingKnown(s)
    ensures AllNamed(s.log, Verdict(s.log, |s.env.serve|))
  {
    var log, problems := s.log, Verdict(s.log, |s.env.serve|);
    var later := LaterExits(log);
    forall j | 0 <= j < |log.received| && !Orderly(log.received[j].cause)
      ensures ServeFailed(log.received[j].who, log.received[j].cause) in problems
    {
      if !TookExit(log.ending) { ExitNamed(later, j); }
      else if j > 0 { ExitNamed(later, j - 1); }
    }
    forall k | 0 <= k < |log.answers|
      ensures !log.answers[k].inTime ==> ShutdownTimedOut(log.answers[k].who) in problems
      ensures log.answers[k].inTime && !Orderly(log.answers[k].cause) ==>
        ShutdownFailed(log.answers[k].who, log.answers[k].cause) in problems
    {
      AnswerNamed(log.answers, k);
    }
    forall k | 0 <= k < |log.hooks| && !log.hooks[k].cause.NoError?
      ensures HookFailed(log.hooks[k].who, log.hooks[k].cause) in problems
    {
      HookNamed(log.hooks, k);
    }
    NothingLeftOpenEarly(log);
  }

  lemma {:induction false} OtherProblems(exits: seq<Note>, answers: seq<Answer>, hooks: seq<Note>)
    ensures ResourcesLeftOpen !in ExitProblems(exits)
    ensures ResourcesLeftOpen !in AnswerProblems(answers)
    ensures ResourcesLeftOpen !in HookProblems(hooks)
    decreases |exits| + |answers| + |hooks|
  {
    if exits != [] { OtherProblems(exits[..|exits| - 1], [], []); }
    if answers != [] { OtherProblems([], answers[..|answers| - 1], []); }
    if hooks != [] { OtherProblems([], [], hooks[..|hooks| - 1]); }
  }

  lemma NothingLeftOpenEarly(log: History)
    ensures ResourcesLeftOpen !in Failures(log)
  {
    OtherProblems(LaterExits(log), log.answers, log.hooks);
  }
}
