/** The process lifecycle runner as a transition system: one driver thread that registers, runs
    and closes; one goroutine per component that serves; one that waits for readiness; one for
    every Shutdown call. The steps of the environment and of the runner interleave freely. */
module Lifecycle {

  // ---------------------------------------------------------------------------------------
  // Errors
  // ---------------------------------------------------------------------------------------

  /** An error value up to what the runner asks of it. */
  datatype Cause = NoError | Canceled | DeadlineExceeded | ConnClosed | Other(code: nat)

  predicate ExpectedStop(e: Cause) {
    e.NoError? || e.Canceled? || e.ConnClosed?
  }

  /** What `run` and `close` join into the error they return. */
  datatype Problem =
    | StartFailed(who: nat, cause: Cause)
    | StartTimedOut(cause: Cause)
    | ServeFailed(who: nat, cause: Cause)
    | ShutdownFailed(who: nat, cause: Cause)
    | ShutdownTimedOut(who: nat)
    | ExitsTimedOut(left: nat)
    | ResourcesLeftOpen
    | HookFailed(who: nat, cause: Cause)

  // ---------------------------------------------------------------------------------------
  // State
  // ---------------------------------------------------------------------------------------

  /** The mutex-guarded fields of the runtime. */
  datatype Registry = Registry(
    components: seq<string>,
    cleanups: seq<string>,
    running: bool,
    stopped: bool,
    stopUnsafe: bool,
    isClosed: bool)

  function Register(names: seq<string>, name: string): seq<string> {
    if name == "" || name in names then names else names + [name]
  }

  function AddComponent(r: Registry, name: string): Registry {
    if r.running || r.isClosed then r else r.(components := Register(r.components, name))
  }

  function AddCleanup(r: Registry, name: string): Registry {
    if r.running || r.isClosed then r else r.(cleanups := Register(r.cleanups, name))
  }

  /** A Serve goroutine: not scheduled yet, serving, or done with its result sent. */
  datatype Serve = Spawned | Live | Exited

  datatype Ready = Waiting | Answered(cause: Cause)

  datatype Shutdown = NotCalled | InFlight | Returned(cause: Cause)

  /** A result on one of the two channels. */
  datatype Note = Note(who: nat, cause: Cause)

  datatype Env = Env(
    serve: seq<Serve>,
    ready: seq<Ready>,
    shut: seq<Shutdown>,
    results: seq<Note>,
    readiness: seq<Note>,
    ctx: Cause,
    readyCtx: Cause,
    deadline: bool)

  /** Where the driver thread stands. */
  datatype Phase =
    | Out
    | Starting
    | Checking
    | Publishing
    | Serving
    | Draining
    | Stopping(left: nat)
    | AwaitingReturn(who: nat)
    | AwaitingExits(expired: bool)
    | Hooks(left: nat)

  /** The local variables of `run` and `close`; `inRun` and `closing` tell which are active. */
  datatype Locals = Locals(
    inRun: bool,
    closing: bool,
    remaining: int,
    readyCount: nat,
    allReturned: bool,
    joined: seq<Problem>)

  /** How the wait for startup or for the end of serving came to its end. */
  datatype Ending =
    | Going
    | ReadyFailure(note: Note, ctx: Cause)
    | EarlyExit(note: Note, ctx: Cause)
    | ExitBeforePublish(note: Note)
    | StartupOver(cause: Cause, ctx: Cause)
    | Stopped(ctx: Cause)

  /** What a Shutdown call had answered when the runner went on. */
  datatype Answer = Answer(who: nat, inTime: bool, cause: Cause)

  /** What has happened so far. Nothing here influences a step. */
  datatype History = History(
    received: seq<Note>,
    readied: seq<nat>,
    calls: seq<nat>,
    answers: seq<Answer>,
    hooks: seq<Note>,
    serving: bool,
    ending: Ending,
    exitsMissed: bool,
    outcome: Outcome)

  datatype Outcome = Pending | Ended(problems: seq<Problem>)

  datatype State = State(reg: Registry, env: Env, loc: Locals, log: History, phase: Phase)

  const INITIAL := State(
    Registry([], [], false, false, false, false),
    Env([], [], [], [], [], NoError, NoError, false),
    Locals(false, false, 0, 0, true, []),
    History([], [], [], [], [], false, Going, false, Pending),
    Out)

  // ---------------------------------------------------------------------------------------
  // Steps
  // ---------------------------------------------------------------------------------------

  /** The driver thread, between calls. */
  datatype DriverStep = Component(name: string) | Cleanup(name: string) | CallRun | CallClose

  datatype EnvStep =
    | ServeBegins(i: nat)
    | ServeExits(i: nat, cause: Cause)
    | ReadyReturns(i: nat, cause: Cause)
    | ReadyAbandoned(i: nat)
    | ShutdownReturns(i: nat, cause: Cause)
    | CtxDone(cause: Cause)
    | ReadyCtxDone(cause: Cause)
    | DeadlineFires

  /** The driver thread, inside `run` or `close`. */
  datatype RunnerStep =
    | TakeReady
    | TakeExit
    | SeeReadyCtx
    | SeeCtx
    | Proceed
    | CallShutdown
    | TakeReturn
    | TimeOut
    | RunHook(cause: Cause)

  datatype Step = Driver(d: DriverStep) | Environment(e: EnvStep) | Runner(r: RunnerStep)

  predicate Enabled(s: State, step: Step) {
    match step
    case Driver(_) => s.phase.Out?
    case Environment(e) => EnvEnabled(s.env, e)
    case Runner(r) => RunnerEnabled(s, r)
  }

  function Next(s: State, step: Step): State
    requires Enabled(s, step)
  {
    match step
    case Driver(d) => DriverNext(s, d)
    case Environment(e) => s.(env := EnvNext(s.env, e))
    case Runner(r) => RunnerNext(s, r)
  }

  predicate EnvEnabled(env: Env, e: EnvStep) {
    match e
    case ServeBegins(i) => i < |env.serve| && env.serve[i].Spawned?
    case ServeExits(i, _) => i < |env.serve| && env.serve[i].Live?
    case ReadyReturns(i, _) =>
      i < |env.ready| && i < |env.serve| && env.ready[i].Waiting? && !env.serve[i].Spawned?
    case ReadyAbandoned(i) => i < |env.ready| && env.ready[i].Waiting? && !env.readyCtx.NoError?
    case ShutdownReturns(i, _) => i < |env.shut| && env.shut[i].InFlight?
    case CtxDone(c) => env.ctx.NoError? && !c.NoError?
    case ReadyCtxDone(c) => env.readyCtx.NoError? && !c.NoError?
    case DeadlineFires => true
  }

  function EnvNext(env: Env, e: EnvStep): Env
    requires EnvEnabled(env, e)
  {
    match e
    case ServeBegins(i) => env.(serve := env.serve[i := Live])
    case ServeExits(i, c) => env.(serve := env.serve[i := Exited], results := env.results + [Note(i, c)])
    case ReadyReturns(i, c) => TellReady(env, i, c)
    case ReadyAbandoned(i) => TellReady(env, i, env.readyCtx)
    case ShutdownReturns(i, c) => env.(shut := env.shut[i := Returned(c)])
    case CtxDone(c) => env.(ctx := c)
    case ReadyCtxDone(c) => env.(readyCtx := c)
    case DeadlineFires => env.(deadline := true)
  }

  function TellReady(env: Env, i: nat, c: Cause): Env
    requires i < |env.ready|
  {
    env.(ready := env.ready[i := Answered(c)], readiness := env.readiness + [Note(i, c)])
  }

  function DriverNext(s: State, d: DriverStep): State {
    match d
    case Component(name) => s.(reg := AddComponent(s.reg, name))
    case Cleanup(name) => s.(reg := AddCleanup(s.reg, name))
    case CallRun => StartRun(s)
    case CallClose => StartClose(s)
  }

  /** The startup loop is still waiting. */
  predicate StartupWaits(s: State) {
    s.phase.Starting? && s.loc.readyCount < |s.env.serve|
  }

  /** A receive needs a message, a select case needs its channel, and the waits that follow a
      deadline look for a message first. */
  predicate RunnerEnabled(s: State, r: RunnerStep) {
    match r
    case TakeReady => StartupWaits(s) && s.env.readiness != []
    case TakeExit =>
      && s.env.results != []
      && (|| StartupWaits(s)
          || s.phase.Checking?
          || s.phase.Serving?
          || (s.phase.AwaitingExits? && s.loc.remaining > 0))
    case SeeReadyCtx => StartupWaits(s) && !s.env.readyCtx.NoError?
    case SeeCtx => (StartupWaits(s) || s.phase.Serving?) && !s.env.ctx.NoError?
    case Proceed =>
      (match s.phase
       case Starting => s.loc.readyCount >= |s.env.serve|
       case Checking => s.env.results == []
       case Publishing => true
       case Draining => true
       case Stopping(left) => left == 0
       case AwaitingExits(_) => s.loc.remaining <= 0
       case Hooks(left) => left == 0
       case _ => false)
    case CallShutdown => s.phase.Stopping? && 0 < s.phase.left <= |s.env.shut|
    case TakeReturn =>
      s.phase.AwaitingReturn? && s.phase.who < |s.env.shut| && s.env.shut[s.phase.who].Returned?
    case TimeOut =>
      && s.env.deadline
      && (|| (s.phase.AwaitingReturn? && s.phase.who < |s.env.shut| && s.env.shut[s.phase.who].InFlight?)
          || (s.phase.AwaitingExits? && s.loc.remaining > 0 && (!s.phase.expired || s.env.results == [])))
    case RunHook(_) => s.phase.Hooks? && s.phase.left > 0
  }

  function RunnerNext(s: State, r: RunnerStep): State
    requires RunnerEnabled(s, r)
  {
    match r
    case TakeReady => ReceiveReady(s)
    case TakeExit => ReceiveExit(s)
    case SeeReadyCtx =>
      Fail(if s.env.ctx.NoError? then Join(s, StartTimedOut(s.env.readyCtx)) else s,
           StartupOver(s.env.readyCtx, s.env.ctx))
    case SeeCtx => Fail(s, Stopped(s.env.ctx))
    case Proceed => Continue(s)
    case CallShutdown => SpawnShutdown(s)
    case TakeReturn => ReceiveReturn(s)
    case TimeOut => GiveUp(s)
    case RunHook(c) => Hook(s, c)
  }

  function Join(s: State, p: Problem): State {
    s.(loc := s.loc.(joined := s.loc.joined + [p]))
  }

  /** The end of the startup loop or of serving: readiness is cancelled and draining begins. */
  function Fail(s: State, e: Ending): State {
    s.(env := CancelReady(s.env), log := s.log.(ending := e), phase := Draining)
  }

  function CancelReady(env: Env): Env {
    if env.readyCtx.NoError? then env.(readyCtx := Canceled) else env
  }

  function StartRun(s: State): State {
    var n := |s.reg.components|;
    if s.reg.running || s.reg.isClosed || n == 0 then s
    else
      s.(reg := s.reg.(running := true),
         env := s.env.(serve := seq(n, _ => Spawned), ready := seq(n, _ => Waiting)),
         loc := Locals(true, false, n, 0, true, []),
         phase := Starting)
  }

  function StartClose(s: State): State {
    if s.reg.isClosed then s
    else EnterClose(s.(loc := s.loc.(inRun := false, joined := []), env := s.env.(deadline := false)))
  }

  /** The body of `close` up to its cleanup loop. */
  function EnterClose(s: State): State {
    var t := s.(reg := s.reg.(isClosed := true), loc := s.loc.(closing := true));
    if !s.reg.stopped then StartStopping(t)
    else AfterStopping(t, !s.reg.stopUnsafe)
  }

  function StartStopping(s: State): State {
    var n := |s.reg.components|;
    s.(reg := s.reg.(stopped := true),
       env := s.env.(shut := seq(n, _ => NotCalled)),
       loc := s.loc.(allReturned := true),
       phase := Stopping(n))
  }

  /** Where `close` goes once the components have been told to stop. */
  function AfterStopping(s: State, safe: bool): State {
    if safe then s.(phase := Hooks(|s.reg.cleanups|)) else Leave(Join(s, ResourcesLeftOpen))
  }

  /** Return from `close`, and from `run` when that is active. */
  function Leave(s: State): State {
    s.(log := if s.loc.inRun then s.log.(outcome := Ended(s.loc.joined)) else s.log,
       loc := s.loc.(inRun := false, closing := false),
       phase := Out)
  }

  function ReceiveReady(s: State): State
    requires s.env.readiness != []
  {
    var note := s.env.readiness[0];
    var t := s.(env := s.env.(readiness := s.env.readiness[1..]));
    if note.cause.NoError? then
      t.(loc := t.loc.(readyCount := t.loc.readyCount + 1), log := t.log.(readied := t.log.readied + [note.who]))
    else
      Fail(if s.env.ctx.NoError? || note.cause != s.env.ctx then Join(t, StartFailed(note.who, note.cause)) else t,
           ReadyFailure(note, s.env.ctx))
  }

  function ReceiveExit(s: State): State
    requires s.env.results != []
  {
    var note := s.env.results[0];
    var t := s.(env := s.env.(results := s.env.results[1..]),
                loc := s.loc.(remaining := s.loc.remaining - 1),
                log := s.log.(received := s.log.received + [note]));
    match s.phase
    case Checking => Fail(Join(t, ServeFailed(note.who, note.cause)), ExitBeforePublish(note))
    case AwaitingExits(_) =>
      if ExpectedStop(note.cause) then t else Join(t, ServeFailed(note.who, note.cause))
    case _ =>
      Fail(if s.env.ctx.NoError? || !ExpectedStop(note.cause) then Join(t, ServeFailed(note.who, note.cause)) else t,
           EarlyExit(note, s.env.ctx))
  }

  function Continue(s: State): State {
    match s.phase
    case Starting => s.(env := CancelReady(s.env), phase := Checking)
    case Checking => s.(phase := Publishing)
    case Publishing => s.(log := s.log.(serving := true), phase := Serving)
    case Draining =>
      StartStopping(s.(log := s.log.(serving := false), env := s.env.(deadline := false)))
    case Stopping(_) =>
      var t := s.(reg := s.reg.(stopUnsafe := !s.loc.allReturned));
      if s.loc.closing then AfterStopping(t, s.loc.allReturned) else t.(phase := AwaitingExits(false))
    case AwaitingExits(_) =>
      if s.loc.allReturned then EnterClose(s.(env := s.env.(deadline := false)))
      else Abandon(s)
    case Hooks(_) => Leave(s)
    case _ => s
  }

  function Abandon(s: State): State {
    Leave(Join(s.(reg := s.reg.(isClosed := true)), ResourcesLeftOpen))
  }

  function SpawnShutdown(s: State): State
    requires s.phase.Stopping? && 0 < s.phase.left <= |s.env.shut|
  {
    var i := s.phase.left - 1;
    s.(env := s.env.(shut := s.env.shut[i := InFlight]),
       log := s.log.(calls := s.log.calls + [i]),
       phase := AwaitingReturn(i))
  }

  function ReceiveReturn(s: State): State
    requires s.phase.AwaitingReturn? && s.phase.who < |s.env.shut| && s.env.shut[s.phase.who].Returned?
  {
    var i := s.phase.who;
    var c := s.env.shut[i].cause;
    var t := s.(log := s.log.(answers := s.log.answers + [Answer(i, true, c)]), phase := Stopping(i));
    if ExpectedStop(c) then t else Join(t, ShutdownFailed(i, c))
  }

  function GiveUp(s: State): State
    requires s.phase.AwaitingReturn? || s.phase.AwaitingExits?
  {
    if s.phase.AwaitingReturn? then
      var i := s.phase.who;
      Join(s.(loc := s.loc.(allReturned := false),
              log := s.log.(answers := s.log.answers + [Answer(i, false, NoError)]),
              phase := Stopping(i)),
           ShutdownTimedOut(i))
    else if !s.phase.expired then s.(phase := AwaitingExits(true))
    else
      var left := if s.loc.remaining < 0 then 0 else s.loc.remaining;
      Abandon(Join(s.(log := s.log.(exitsMissed := true)), ExitsTimedOut(left)))
  }

  function Hook(s: State, c: Cause): State
    requires s.phase.Hooks? && s.phase.left > 0
  {
    var i := s.phase.left - 1;
    var t := s.(log := s.log.(hooks := s.log.hooks + [Note(i, c)]), phase := Hooks(i));
    if c.NoError? then t else Join(t, HookFailed(i, c))
  }
}
