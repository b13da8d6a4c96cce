/** The consecutive-failure circuit breaker: its transitions as functions on a snapshot of the
    mutex-guarded fields, and the object that carries them out in place. */
module CircuitBreaker {

  datatype State = Closed | HalfOpen | Open

  /** Times and durations are integers of one unit; only differences of times matter. */
  datatype Config = Config(threshold: int, openDuration: int, probes: int)

  ghost predicate ValidConfig(c: Config) {
    c.threshold >= 1 && c.openDuration >= 1 && c.probes >= 1
  }

  const DEFAULT := Config(5, 5_000_000_000, 1)

  datatype Snapshot = Snapshot(state: State, failures: int, openedAt: int, inFlight: int)

  const INITIAL := Snapshot(Closed, 0, 0, 0)

  // ---------------------------------------------------------------------------------------
  // Transitions
  // ---------------------------------------------------------------------------------------

  predicate Admits(c: Config, s: Snapshot, now: int) {
    match s.state
    case Open => now - s.openedAt >= c.openDuration
    case HalfOpen => s.inFlight < c.probes
    case Closed => true
  }

  function AfterAllow(c: Config, s: Snapshot, now: int): Snapshot {
    if !Admits(c, s, now) then s
    else
      match s.state
      case Open => s.(state := HalfOpen, inFlight := 1)
      case HalfOpen => s.(inFlight := s.inFlight + 1)
      case Closed => s
  }

  function AfterSuccess(s: Snapshot): Snapshot {
    Snapshot(Closed, 0, s.openedAt, 0)
  }

  function Opened(c: Config, now: int): Snapshot {
    Snapshot(Open, c.threshold, now, 0)
  }

  function AfterFailure(c: Config, s: Snapshot, now: int): Snapshot {
    if s.state.HalfOpen? || s.failures + 1 >= c.threshold then Opened(c, now)
    else s.(failures := s.failures + 1)
  }

  function Observed(c: Config, s: Snapshot, now: int): State {
    if s.state.Open? && now - s.openedAt >= c.openDuration then HalfOpen else s.state
  }

  /** One locked operation, with the clock it read. */
  datatype Event = Allow(now: int) | Success | Failure(now: int)

  function Step(c: Config, s: Snapshot, e: Event): Snapshot {
    match e
    case Allow(now) => AfterAllow(c, s, now)
    case Success => AfterSuccess(s)
    case Failure(now) => AfterFailure(c, s, now)
  }

  /** The snapshot after any interleaving of operations. */
  function Run(c: Config, s: Snapshot, es: seq<Event>): Snapshot {
    if es == [] then s else Step(c, Run(c, s, es[..|es| - 1]), es[|es| - 1])
  }

  // ---------------------------------------------------------------------------------------
  // History: what the snapshot means in terms of the operations alone
  // ---------------------------------------------------------------------------------------

  function Min(a: int, b: int): int {
    if a <= b then a else b
  }

  /** Failures reported since the last success. */
  function TrailingFailures(es: seq<Event>): nat {
    if es == [] then 0
    else
      var before := TrailingFailures(es[..|es| - 1]);
      match es[|es| - 1]
      case Allow(_) => before
      case Success => 0
      case Failure(_) => before + 1
  }

  /** When the latest failure was reported. */
  function LastFailure(es: seq<Event>): int {
    if es == [] then 0
    else if es[|es| - 1].Failure? then es[|es| - 1].now
    else LastFailure(es[..|es| - 1])
  }

  /** Calls that asked for admission since the open period ran out, counted from the first that
      asked at least `openDuration` after the latest failure; 0 when there is none yet. */
  function Attempts(c: Config, es: seq<Event>): nat {
    if es == [] || !es[|es| - 1].Allow? then 0
    else
      var before := es[..|es| - 1];
      var n := Attempts(c, before);
      if TrailingFailures(before) < c.threshold then 0
      else if n > 0 || es[|es| - 1].now - LastFailure(before) >= c.openDuration then n + 1
      else 0
  }

  /** Under any interleaving of Allow, Success and Failure and with any clock, the fields are a
      function of the history: the failure count is the trailing count up to the threshold, the
      breaker is closed exactly below the threshold, it is half-open exactly when a call has
      asked after the open period, and it remembers the latest failure. */
  lemma {:induction false} FieldsRefineHistory(c: Config, es: seq<Event>)
    requires ValidConfig(c)
    ensures var s := Run(c, INITIAL, es);
      && s.failures == Min(c.threshold, TrailingFailures(es))
      && (s.state.Closed? <==> TrailingFailures(es) < c.threshold)
      && (s.state.HalfOpen? <==> Attempts(c, es) > 0)
      && s.inFlight == Min(c.probes, Attempts(c, es))
      && (!s.state.Closed? ==> s.openedAt == LastFailure(es))
  {
    if es == [] {
    } else {
      FieldsRefineHistory(c, es[..|es| - 1]);
    }
  }

  /** Whether a call is admitted, in terms of the operations before it. */
  ghost predicate AdmittedAfter(c: Config, es: seq<Event>, now: int) {
    || TrailingFailures(es) < c.threshold
    || (Attempts(c, es) == 0 && now - LastFailure(es) >= c.openDuration)
    || 0 < Attempts(c, es) < c.probes
  }

  lemma AdmissionByHistory(c: Config, es: seq<Event>, now: int)
    requires ValidConfig(c)
    ensures Admits(c, Run(c, INITIAL, es), now) <==> AdmittedAfter(c, es, now)
  {
    FieldsRefineHistory(c, es);
  }

  /** The open period after the latest failure is not over. */
  ghost predicate Cooling(c: Config, es: seq<Event>, now: int) {
    TrailingFailures(es) >= c.threshold && Attempts(c, es) == 0 && now - LastFailure(es) < c.openDuration
  }

  /** What the breaker shows, in terms of the operations before: closed exactly below the
      threshold, and open exactly during the open period. A breaker shown as closed admits the
      next call and one shown as open rejects it; shown as half-open, it admits a call exactly
      while not all probes of this episode have been asked for. */
  lemma ShownByHistory(c: Config, es: seq<Event>, now: int)
    requires ValidConfig(c)
    ensures var shown := Observed(c, Run(c, INITIAL, es), now);
      && (shown.Closed? <==> TrailingFailures(es) < c.threshold)
      && (shown.Open? <==> Cooling(c, es, now))
      && (shown.Closed? ==> AdmittedAfter(c, es, now))
      && (shown.Open? ==> !AdmittedAfter(c, es, now))
      && (shown.HalfOpen? ==> (AdmittedAfter(c, es, now) <==> Attempts(c, es) < c.probes))
  {
    FieldsRefineHistory(c, es);
  }

  lemma {:induction false} RunSnoc(c: Config, es: seq<Event>, e: Event)
    ensures Run(c, INITIAL, es + [e]) == Step(c, Run(c, INITIAL, es), e)
  {
    assert (es + [e])[..|es|] == es;
  }

  // ---------------------------------------------------------------------------------------
  // The object
  // ---------------------------------------------------------------------------------------

  class Breaker {
    const config: Config
    var state: State
    var consecutiveFailures: int
    var openedAt: int
    var halfOpenInFlight: int
    /** The operations so far. */
    ghost var history: seq<Event>

    function View(): Snapshot
      reads this
    {
      Snapshot(state, consecutiveFailures, openedAt, halfOpenInFlight)
    }

    ghost predicate Valid()
      reads this
    {
      ValidConfig(config) && View() == Run(config, INITIAL, history)
    }

    constructor ()
      ensures Valid() && history == []
      ensures config.threshold == 5 && config.openDuration == 5_000_000_000 && config.probes == 1
    {
      config := DEFAULT;
      state := Closed;
      consecutiveFailures, openedAt, halfOpenInFlight := 0, 0, 0;
      history := [];
    }

    method Allow(now: int) returns (admitted: bool)
      requires Valid()
      modifies this
      ensures Valid() && history == old(history) + [Event.Allow(now)]
      ensures View() == AfterAllow(config, old(View()), now)
      ensures admitted <==> AdmittedAfter(config, old(history), now)
    {
      AdmissionByHistory(config, history, now);
      RunSnoc(config, history, Event.Allow(now));
      history := history + [Event.Allow(now)];
      match state
      case Open =>
        if now - openedAt < config.openDuration {
          return false;
        }
        state := HalfOpen;
        halfOpenInFlight := 1;
        return true;
      case HalfOpen =>
        if halfOpenInFlight >= config.probes {
          return false;
        }
        halfOpenInFlight := halfOpenInFlight + 1;
        return true;
      case Closed =>
        return true;
    }

    method Success()
      requires Valid()
      modifies this
      ensures Valid() && history == old(history) + [Event.Success]
      ensures View() == AfterSuccess(old(View()))
    {
      RunSnoc(config, history, Event.Success);
      history := history + [Event.Success];
      consecutiveFailures := 0;
      halfOpenInFlight := 0;
      state := Closed;
    }

    method Failure(now: int)
      requires Valid()
      modifies this
      ensures Valid() && history == old(history) + [Event.Failure(now)]
      ensures View() == AfterFailure(config, old(View()), now)
    {
      RunSnoc(config, history, Event.Failure(now));
      history := history + [Event.Failure(now)];
      if state == HalfOpen {
        OpenLocked(now);
        return;
      }
      consecutiveFailures := consecutiveFailures + 1;
      if consecutiveFailures >= config.threshold {
        OpenLocked(now);
      }
    }

    method OpenLocked(now: int)
      modifies this`state, this`openedAt, this`halfOpenInFlight, this`consecutiveFailures
      ensures View() == Opened(config, now)
    {
      state := Open;
      openedAt := now;
      halfOpenInFlight := 0;
      consecutiveFailures := config.threshold;
    }

    method State(now: int) returns (s: State)
      requires Valid()
      ensures s.Closed? <==> TrailingFailures(history) < config.threshold
      ensures s.Open? <==> Cooling(config, history, now)
    {
      ShownByHistory(config, history, now);
      if state == Open && now - openedAt >= config.openDuration {
        return HalfOpen;
      }
      return state;
    }
  }
}
