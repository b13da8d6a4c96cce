/** What every step of the lifecycle runner keeps. */
module LifecycleInvariants {
  import opened Lifecycle

  // ---------------------------------------------------------------------------------------
  // Sequences of indices
  // ---------------------------------------------------------------------------------------

  /** n-1, n-2, ..., left. */
  function CountDown(n: nat, left: nat): seq<nat>
    decreases n - left
  {
    if left >= n then [] else CountDown(n, left + 1) + [left]
  }

  ghost predicate DistinctWho(notes: seq<Note>) {
    forall j, k :: 0 <= j < k < |notes| ==> notes[j].who != notes[k].who
  }

  function Whos(notes: seq<Note>): (xs: seq<nat>)
    ensures |xs| == |notes| && forall j :: 0 <= j < |notes| ==> xs[j] == notes[j].who
  {
    seq(|notes|, j requires 0 <= j < |notes| => notes[j].who)
  }

  /** The answers are those of n-1, n-2, ..., left. */
  ghost predicate AnsweredDown(answers: seq<Answer>, n: nat, left: nat) {
    |answers| + left == n && forall k :: 0 <= k < |answers| ==> answers[k].who == n - 1 - k
  }

  function Exits(s: State): seq<Note> {
    s.log.received + s.env.results
  }

  // ---------------------------------------------------------------------------------------
  // The phases and the fields of the runtime
  // ---------------------------------------------------------------------------------------

  ghost predicate InServing(p: Phase) {
    p.Starting? || p.Checking? || p.Publishing? || p.Serving? || p.Draining?
  }

  ghost predicate InStopping(p: Phase) {
    p.Stopping? || p.AwaitingReturn?
  }

  /** How the flags of the runtime and of the active calls go with the phase. In particular no
      call is active outside, a runtime that has run is closed, and registration is frozen. */
  ghost predicate Shape(s: State) {
    var n := |s.reg.components|;
    && (if s.reg.running then |s.env.serve| == |s.env.ready| == n && n > 0
        else s.env.serve == [] && s.env.ready == [])
    && |s.env.shut| == (if s.reg.stopped then n else 0)
    && (s.loc.inRun ==> s.reg.running)
    && (s.phase.Out? ==>
          !s.loc.inRun && !s.loc.closing && (s.reg.running || s.reg.stopped ==> s.reg.isClosed))
    && (InServing(s.phase) ==>
          s.loc.inRun && !s.loc.closing && !s.reg.stopped && !s.reg.isClosed)
    && (InStopping(s.phase) ==>
          s.reg.stopped && s.reg.isClosed == s.loc.closing && s.loc.inRun == !s.loc.closing == s.reg.running)
    && (s.phase.AwaitingExits? ==>
          s.loc.inRun && !s.loc.closing && s.reg.stopped && !s.reg.isClosed)
    && (s.phase.Hooks? ==>
          s.loc.closing && s.reg.stopped && s.reg.isClosed && s.loc.inRun == s.reg.running)
    && (s.log.outcome.Ended? ==> s.phase.Out? && s.reg.running)
    && (s.reg.running && s.phase.Out? ==> s.log.outcome.Ended?)
  }

  lemma ShapeKept(s: State, step: Step)
    requires Shape(s) && Enabled(s, step)
    ensures Shape(Next(s, step))
  {
    match step
    case Driver(d) => ShapeKeptByDriver(s, d);
    case Environment(_) =>
    case Runner(r) => if r.Proceed? { ShapeKeptByProceed(s); } else { ShapeKeptByRunner(s, r); }
  }

  lemma ShapeKeptByDriver(s: State, d: DriverStep)
    requires Shape(s) && s.phase.Out?
    ensures Shape(DriverNext(s, d))
  {}

  lemma ShapeKeptByProceed(s: State)
    requires Shape(s) && RunnerEnabled(s, Proceed)
    ensures Shape(RunnerNext(s, Proceed))
  {}

  lemma ShapeKeptByRunner(s: State, r: RunnerStep)
    requires Shape(s) && RunnerEnabled(s, r) && !r.Proceed?
    ensures Shape(RunnerNext(s, r))
  {
    if r.CallShutdown? || r.TakeReturn? || r.TimeOut? || r.RunHook? {
      ShapeKeptInTeardown(s, r);
    } else {
      ShapeKeptInServing(s, r);
    }
  }

  lemma ShapeKeptInTeardown(s: State, r: RunnerStep)
    requires Shape(s) && RunnerEnabled(s, r) && (r.CallShutdown? || r.TakeReturn? || r.TimeOut? || r.RunHook?)
    ensures Shape(RunnerNext(s, r))
  {}

  lemma ShapeKeptInServing(s: State, r: RunnerStep)
    requires Shape(s) && RunnerEnabled(s, r) && (r.TakeReady? || r.TakeExit? || r.SeeReadyCtx? || r.SeeCtx?)
    ensures Shape(RunnerNext(s, r))
  {}

  // ---------------------------------------------------------------------------------------
  // Counting results
  // ---------------------------------------------------------------------------------------

  function CountExited(serve: seq<Serve>): (k: nat)
    ensures k <= |serve|
  {
    if serve == [] then 0 else (if serve[0].Exited? then 1 else 0) + CountExited(serve[1..])
  }

  lemma {:induction false} CountOneMore(serve: seq<Serve>, i: nat, to: Serve)
    requires i < |serve| && !serve[i].Exited?
    ensures CountExited(serve[i := to]) == CountExited(serve) + if to.Exited? then 1 else 0
    ensures CountExited(serve) < |serve|
  {
    if i > 0 {
      CountOneMore(serve[1..], i - 1, to);
      assert serve[i := to][1..] == serve[1..][i - 1 := to];
    } else {
      assert serve[i := to][1..] == serve[1..];
    }
  }

  lemma {:induction false} CountNone(n: nat)
    ensures CountExited(seq(n, _ => Spawned)) == 0
  {
    if n > 0 {
      CountNone(n - 1);
      assert seq(n, _ => Spawned)[1..] == seq(n - 1, _ => Spawned);
    }
  }

  lemma {:induction false} CountAll(serve: seq<Serve>, i: nat)
    requires CountExited(serve) == |serve| && i < |serve|
    ensures serve[i].Exited?
  {
    if i > 0 {
      CountAll(serve[1..], i - 1);
    }
  }

  /** The notes are the results of the components that have exited, one each. */
  ghost predicate ExitNotes(serve: seq<Serve>, exits: seq<Note>) {
    && |exits| == CountExited(serve)
    && DistinctWho(exits)
    && (forall j :: 0 <= j < |exits| ==> exits[j].who < |serve| && serve[exits[j].who].Exited?)
  }

  /** Every result that a component sent is received or still in the channel, once; while `run`
      is active, what it still waits for and what it has received add up. */
  ghost predicate Counted(s: State) {
    && ExitNotes(s.env.serve, Exits(s))
    && (s.loc.inRun ==> s.loc.remaining + |s.log.received| == |s.env.serve|)
    && (InServing(s.phase) && !s.phase.Draining? ==> s.log.received == [])
  }

  lemma CountedKept(s: State, step: Step)
    requires Shape(s) && Counted(s) && Enabled(s, step)
    ensures Counted(Next(s, step))
  {
    match step
    case Driver(d) => CountedKeptByDriver(s, d);
    case Environment(e) => CountedKeptByEnv(s, e);
    case Runner(r) => if r.TakeExit? { CountedWhenTaken(s); } else { CountedKeptByRunner(s, r); }
  }

  lemma CountedKeptByDriver(s: State, d: DriverStep)
    requires Shape(s) && Counted(s) && s.phase.Out?
    ensures Counted(DriverNext(s, d))
  {
    CountNone(|s.reg.components|);
    assert s.env.results == DriverNext(s, d).env.results;
  }

  lemma CountedKeptByEnv(s: State, e: EnvStep)
    requires Shape(s) && Counted(s) && EnvEnabled(s.env, e)
    ensures Counted(s.(env := EnvNext(s.env, e)))
  {
    var t := s.(env := EnvNext(s.env, e));
    if e.ServeBegins? {
      CountOneMore(s.env.serve, e.i, Live);
    } else if e.ServeExits? {
      CountOneMore(s.env.serve, e.i, Exited);
      assert Exits(t) == Exits(s) + [Note(e.i, e.cause)];
    }
  }

  lemma CountedWhenTaken(s: State)
    requires Shape(s) && Counted(s) && RunnerEnabled(s, TakeExit)
    ensures Counted(RunnerNext(s, TakeExit))
  {
    var t := RunnerNext(s, TakeExit);
    assert t.env.results == s.env.results[1..] && t.log.received == s.log.received + [s.env.results[0]];
    assert Exits(t) == Exits(s);
  }

  /** No result is received from `s` to `t`, and no more are awaited. */
  ghost predicate SameResults(s: State, t: State) {
    && t.env.serve == s.env.serve && t.env.results == s.env.results && t.log.received == s.log.received
    && (t.loc.inRun ==> s.loc.inRun && t.loc.remaining == s.loc.remaining)
    && (InServing(t.phase) && !t.phase.Draining? ==> InServing(s.phase) && !s.phase.Draining?)
  }

  lemma ProceedReceivesNothing(s: State)
    requires RunnerEnabled(s, Proceed)
    ensures SameResults(s, Continue(s))
  {}

  lemma OthersReceiveNothing(s: State, r: RunnerStep)
    requires RunnerEnabled(s, r) && !r.TakeExit? && !r.Proceed?
    ensures SameResults(s, RunnerNext(s, r))
  {}

  lemma CountedKeptByRunner(s: State, r: RunnerStep)
    requires Shape(s) && Counted(s) && RunnerEnabled(s, r) && !r.TakeExit?
    ensures Counted(RunnerNext(s, r))
  {
    if r.Proceed? { ProceedReceivesNothing(s); } else { OthersReceiveNothing(s, r); }
    assert SameResults(s, RunnerNext(s, r));
    assert Exits(RunnerNext(s, r)) == Exits(s);
  }

  /** The results channel holds one slot for every component, and a component that has not sent
      its result finds a free one. */
  lemma ResultSendNeverBlocks(s: State, i: nat)
    requires Counted(s) && i < |s.env.serve| && !s.env.serve[i].Exited?
    ensures |s.env.results| < |s.env.serve|
  {
    CountOneMore(s.env.serve, i, Exited);
  }

  // ---------------------------------------------------------------------------------------
  // Readiness
  // ---------------------------------------------------------------------------------------

  /** The components whose nil readiness result has been received, and the results that wait in
      the channel, belong to different Ready calls that have returned so. */
  ghost predicate ReadyNotes(ready: seq<Ready>, readiness: seq<Note>, readied: seq<nat>) {
    && (forall j, k :: 0 <= j < k < |readied| ==> readied[j] != readied[k])
    && (forall j, k :: 0 <= j < |readied| && 0 <= k < |readiness| ==> readied[j] != readiness[k].who)
    && DistinctWho(readiness)
    && (forall j :: 0 <= j < |readied| ==> readied[j] < |ready| && ready[readied[j]] == Answered(NoError))
    && (forall k :: 0 <= k < |readiness| ==>
          readiness[k].who < |ready| && ready[readiness[k].who] == Answered(readiness[k].cause))
  }

  lemma ReadyNotesKeptByEnv(env: Env, readied: seq<nat>, e: EnvStep)
    requires ReadyNotes(env.ready, env.readiness, readied) && EnvEnabled(env, e)
    ensures ReadyNotes(EnvNext(env, e).ready, EnvNext(env, e).readiness, readied)
  {}

  lemma ReadyNotesWhenTaken(ready: seq<Ready>, readiness: seq<Note>, readied: seq<nat>)
    requires ReadyNotes(ready, readiness, readied) && readiness != []
    ensures ReadyNotes(ready, readiness[1..], readied)
    ensures readiness[0].cause.NoError? ==> ReadyNotes(ready, readiness[1..], readied + [readiness[0].who])
  {}

  ghost predicate ReadyCounted(s: State) {
    && ReadyNotes(s.env.ready, s.env.readiness, s.log.readied)
    && (!s.reg.running ==> s.log.readied == [] && s.env.readiness == [])
    && (s.loc.inRun ==> s.loc.readyCount == |s.log.readied|)
    && (s.phase.Checking? || s.phase.Publishing? || s.phase.Serving? ==> |s.log.readied| >= |s.env.ready|)
    && (s.log.serving ==> (s.phase.Serving? || s.phase.Draining?) && |s.log.readied| >= |s.env.ready|)
    && (s.phase.Serving? ==> s.log.serving)
  }

  lemma ReadyCountedKept(s: State, step: Step)
    requires Shape(s) && ReadyCounted(s) && Enabled(s, step)
    ensures ReadyCounted(Next(s, step))
  {
    match step
    case Driver(d) => ReadyCountedKeptByDriver(s, d);
    case Environment(e) => ReadyCountedKeptByEnv(s, e);
    case Runner(r) =>
      if r.TakeReady? { ReadyCountedWhenTaken(s); } else { ReadyCountedKeptByRunner(s, r); }
  }

  lemma ReadyCountedKeptByDriver(s: State, d: DriverStep)
    requires Shape(s) && ReadyCounted(s) && s.phase.Out?
    ensures ReadyCounted(DriverNext(s, d))
  {}

  lemma ReadyCountedKeptByEnv(s: State, e: EnvStep)
    requires Shape(s) && ReadyCounted(s) && EnvEnabled(s.env, e)
    ensures ReadyCounted(s.(env := EnvNext(s.env, e)))
  {
    ReadyNotesKeptByEnv(s.env, s.log.readied, e);
  }

  lemma ReadyCountedWhenTaken(s: State)
    requires Shape(s) && ReadyCounted(s) && RunnerEnabled(s, TakeReady)
    ensures ReadyCounted(RunnerNext(s, TakeReady))
  {
    ReadyNotesWhenTaken(s.env.ready, s.env.readiness, s.log.readied);
  }

  /** Nothing about readiness changes from `s` to `t`. */
  ghost predicate SameReadiness(s: State, t: State) {
    && t.env.ready == s.env.ready && t.env.readiness == s.env.readiness && t.log.readied == s.log.readied
    && t.reg.running == s.reg.running && t.loc.readyCount == s.loc.readyCount
    && (t.loc.inRun ==> s.loc.inRun)
  }

  lemma ProceedReadsNothing(s: State)
    ensures SameReadiness(s, Continue(s))
  {
    if s.phase.AwaitingExits? { ClosingReadsNothing(s); }
  }

  lemma ClosingReadsNothing(s: State)
    requires s.phase.AwaitingExits?
    ensures SameReadiness(s, Continue(s))
  {}

  lemma OthersReadNothing(s: State, r: RunnerStep)
    requires RunnerEnabled(s, r) && !r.TakeReady? && !r.Proceed?
    ensures SameReadiness(s, RunnerNext(s, r))
  {}

  lemma ReadyCountedKeptByRunner(s: State, r: RunnerStep)
    requires Shape(s) && ReadyCounted(s) && RunnerEnabled(s, r) && !r.TakeReady?
    ensures ReadyCounted(RunnerNext(s, r))
  {
    if r.Proceed? { ProceedReadsNothing(s); } else { OthersReadNothing(s, r); }
    assert SameReadiness(s, RunnerNext(s, r));
  }

  // ---------------------------------------------------------------------------------------
  // Shutdown calls
  // ---------------------------------------------------------------------------------------

  /** The components below this index have not been told to stop. */
  function Untold(s: State): nat {
    match s.phase
    case Stopping(left) => left
    case AwaitingReturn(who) => who
    case _ => 0
  }

  /** Calls and answers go down from the last component. */
  ghost predicate InReverse(s: State) {
    var n := |s.reg.components|;
    if !s.reg.stopped then s.log.calls == [] && s.log.answers == []
    else
      && Untold(s) <= n
      && (s.phase.AwaitingReturn? ==> s.phase.who < n)
      && s.log.calls == CountDown(n, Untold(s))
      && AnsweredDown(s.log.answers, n, if s.phase.AwaitingReturn? then s.phase.who + 1 else Untold(s))
  }

  lemma InReverseKept(s: State, step: Step)
    requires Shape(s) && InReverse(s) && Enabled(s, step)
    ensures InReverse(Next(s, step))
  {
    match step
    case Driver(_) =>
    case Environment(_) =>
    case Runner(r) => InReverseKeptByRunner(s, r);
  }

  lemma InReverseKeptByRunner(s: State, r: RunnerStep)
    requires Shape(s) && InReverse(s) && RunnerEnabled(s, r)
    ensures InReverse(RunnerNext(s, r))
  {
    match r
    case Proceed => InReverseKeptByProceed(s);
    case CallShutdown => InReverseKeptByCall(s);
    case TakeReturn =>
      AnsweredNext(s.log.answers, |s.reg.components|, Answer(s.phase.who, true, s.env.shut[s.phase.who].cause));
    case TimeOut =>
      if s.phase.AwaitingReturn? {
        AnsweredNext(s.log.answers, |s.reg.components|, Answer(s.phase.who, false, NoError));
      }
    case _ => OtherStepsTellNothing(s, r);
  }

  lemma InReverseKeptByProceed(s: State)
    requires Shape(s) && InReverse(s) && RunnerEnabled(s, Proceed)
    ensures InReverse(RunnerNext(s, Proceed))
  {}

  lemma InReverseKeptByCall(s: State)
    requires Shape(s) && InReverse(s) && RunnerEnabled(s, CallShutdown)
    ensures InReverse(RunnerNext(s, CallShutdown))
  {}

  lemma AnsweredNext(answers: seq<Answer>, n: nat, a: Answer)
    requires AnsweredDown(answers, n, a.who + 1)
    ensures AnsweredDown(answers + [a], n, a.who)
  {}

  /** A component has been told to stop exactly when its turn has come, and a call that answered
      in time has returned that answer. */
  ghost predicate ToldInTurn(shut: seq<Shutdown>, untold: nat, answers: seq<Answer>) {
    && (forall i :: 0 <= i < |shut| ==> (shut[i].NotCalled? <==> i < untold))
    && (forall k :: 0 <= k < |answers| && answers[k].inTime ==>
          answers[k].who < |shut| && shut[answers[k].who] == Returned(answers[k].cause))
  }

  ghost predicate Told(s: State) {
    ToldInTurn(s.env.shut, Untold(s), s.log.answers)
  }

  lemma ToldKept(s: State, step: Step)
    requires Shape(s) && InReverse(s) && Told(s) && Enabled(s, step)
    ensures Told(Next(s, step))
  {
    match step
    case Driver(d) => ToldKeptByDriver(s, d);
    case Environment(e) => ToldKeptByEnv(s.env, Untold(s), s.log.answers, e);
    case Runner(r) =>
      match r
      case Proceed => ToldKeptByProceed(s);
      case CallShutdown => ToldKeptByCall(s);
      case TakeReturn => ToldKeptByReturn(s);
      case TimeOut => ToldKeptByTimeOut(s);
      case _ => OtherStepsTellNothing(s, r);
  }

  lemma ToldKeptByDriver(s: State, d: DriverStep)
    requires Shape(s) && Told(s) && InReverse(s) && s.phase.Out?
    ensures Told(DriverNext(s, d))
  {}

  lemma ToldKeptByEnv(env: Env, untold: nat, answers: seq<Answer>, e: EnvStep)
    requires ToldInTurn(env.shut, untold, answers) && EnvEnabled(env, e)
    ensures ToldInTurn(EnvNext(env, e).shut, untold, answers)
  {}

  lemma OtherStepsTellNothing(s: State, r: RunnerStep)
    requires Shape(s) && RunnerEnabled(s, r)
    requires !r.Proceed? && !r.CallShutdown? && !r.TakeReturn? && !r.TimeOut?
    ensures var t := RunnerNext(s, r);
      && t.env.shut == s.env.shut && t.reg == s.reg
      && Untold(t) == Untold(s) == 0 && !t.phase.AwaitingReturn? && !s.phase.AwaitingReturn?
      && t.log.answers == s.log.answers && t.log.calls == s.log.calls
  {}

  lemma ToldKeptByProceed(s: State)
    requires Shape(s) && InReverse(s) && Told(s) && RunnerEnabled(s, Proceed)
    ensures Told(RunnerNext(s, Proceed))
  {}

  lemma ToldKeptByCall(s: State)
    requires Shape(s) && InReverse(s) && Told(s) && RunnerEnabled(s, CallShutdown)
    ensures Told(RunnerNext(s, CallShutdown))
  {}

  lemma ToldKeptByReturn(s: State)
    requires Told(s) && RunnerEnabled(s, TakeReturn)
    ensures Told(RunnerNext(s, TakeReturn))
  {}

  lemma ToldKeptByTimeOut(s: State)
    requires Told(s) && RunnerEnabled(s, TimeOut)
    ensures Told(RunnerNext(s, TimeOut))
  {}

  ghost predicate AllInTime(answers: seq<Answer>) {
    forall k :: 0 <= k < |answers| ==> answers[k].inTime
  }

  /** The runtime remembers whether some Shutdown call did not return in time. */
  ghost predicate SafetyKnown(s: State) {
    && (InStopping(s.phase) || s.phase.AwaitingExits? ==> (s.loc.allReturned <==> AllInTime(s.log.answers)))
    && (s.reg.stopped && !InStopping(s.phase) ==> (s.reg.stopUnsafe <==> !AllInTime(s.log.answers)))
    && (s.phase.Hooks? ==> !s.reg.stopUnsafe)
  }

  lemma SafetyKnownKept(s: State, step: Step)
    requires Shape(s) && InReverse(s) && SafetyKnown(s) && Enabled(s, step)
    ensures SafetyKnown(Next(s, step))
  {
    match step
    case Driver(_) =>
    case Environment(_) =>
    case Runner(r) => SafetyKnownKeptByRunner(s, r);
  }

  lemma SafetyKnownKeptByRunner(s: State, r: RunnerStep)
    requires Shape(s) && InReverse(s) && SafetyKnown(s) && RunnerEnabled(s, r)
    ensures SafetyKnown(RunnerNext(s, r))
  {
    if r.TakeReturn? {
      AllInTimeSnoc(s.log.answers, Answer(s.phase.who, true, s.env.shut[s.phase.who].cause));
    } else if r.TimeOut? && s.phase.AwaitingReturn? {
      AllInTimeSnoc(s.log.answers, Answer(s.phase.who, false, NoError));
    }
  }

  lemma AllInTimeSnoc(answers: seq<Answer>, a: Answer)
    ensures AllInTime(answers + [a]) <==> AllInTime(answers) && a.inTime
  {
    var all := answers + [a];
    assert all[|answers|] == a;
    if AllInTime(all) {
      forall k | 0 <= k < |answers| ensures answers[k].inTime { assert all[k] == answers[k]; }
    }
  }
}
