/** The breaker under concurrent callers of the client middleware: a call asks for admission,
    runs, and reports. Calls admitted in an earlier state may report at any later time. */
module BreakerCalls {
  import opened CircuitBreaker

  /** What the wrapped endpoint returned. */
  datatype Result = NoError | BusinessStatus | TransportError

  predicate ShouldTrip(r: Result) {
    r.TransportError?
  }

  /** `Vanish` is a call that never comes back to the middleware: the endpoint panicked, or it
      hangs. The middleware reports nothing for it. */
  datatype Move =
    | Begin(call: nat, now: int)
    | Finish(call: nat, result: Result, now: int)
    | Vanish(call: nat)

  /** `episode` holds the calls admitted since the breaker last became half-open, while it is. */
  datatype World = World(breaker: Snapshot, started: set<nat>, outstanding: set<nat>, episode: set<nat>)

  const QUIET := World(INITIAL, {}, {}, {})

  predicate Legal(w: World, m: Move) {
    match m
    case Begin(call, _) => call !in w.started
    case Finish(call, _, _) => call in w.outstanding
    case Vanish(call) => call in w.outstanding
  }

  function Report(c: Config, s: Snapshot, r: Result, now: int): Snapshot {
    if ShouldTrip(r) then AfterFailure(c, s, now) else AfterSuccess(s)
  }

  function Next(c: Config, w: World, m: Move): World {
    match m
    case Begin(call, now) =>
      var after := AfterAllow(c, w.breaker, now);
      if Admits(c, w.breaker, now) then
        World(after, w.started + {call}, w.outstanding + {call},
              if after.state.HalfOpen? then w.episode + {call} else {})
      else w.(breaker := after, started := w.started + {call})
    case Finish(call, r, now) =>
      World(Report(c, w.breaker, r, now), w.started, w.outstanding - {call}, {})
    case Vanish(call) => w.(outstanding := w.outstanding - {call})
  }

  function Play(c: Config, w: World, ms: seq<Move>): World {
    if ms == [] then w else Next(c, Play(c, w, ms[..|ms| - 1]), ms[|ms| - 1])
  }

  ghost predicate LegalRun(c: Config, w: World, ms: seq<Move>) {
    ms != [] ==>
      && LegalRun(c, w, ms[..|ms| - 1])
      && Legal(Play(c, w, ms[..|ms| - 1]), ms[|ms| - 1])
  }

  ghost predicate AllReturn(ms: seq<Move>) {
    forall k :: 0 <= k < |ms| ==> !ms[k].Vanish?
  }

  /** The locked operations that a move performs. */
  function Operations(m: Move): seq<Event> {
    match m
    case Begin(_, now) => [Allow(now)]
    case Finish(_, r, now) => [if ShouldTrip(r) then Failure(now) else Success]
    case Vanish(_) => []
  }

  function History(ms: seq<Move>): seq<Event> {
    if ms == [] then [] else History(ms[..|ms| - 1]) + Operations(ms[|ms| - 1])
  }

  /** Calls through the middleware are runs of the breaker, so all that history says about its
      fields holds under concurrent callers too. */
  lemma {:induction false} CallsAreRuns(c: Config, ms: seq<Move>)
    ensures Play(c, QUIET, ms).breaker == Run(c, INITIAL, History(ms))
  {
    if ms == [] {
    } else {
      CallsAreRuns(c, ms[..|ms| - 1]);
      OneMoveRuns(c, Play(c, QUIET, ms[..|ms| - 1]), ms[|ms| - 1], History(ms[..|ms| - 1]));
    }
  }

  lemma {:induction false} OneMoveRuns(c: Config, w: World, m: Move, es: seq<Event>)
    requires w.breaker == Run(c, INITIAL, es)
    ensures Next(c, w, m).breaker == Run(c, INITIAL, es + Operations(m))
  {
    match m
    case Begin(_, now) => RunSnoc(c, es, Allow(now));
    case Finish(_, r, now) => RunSnoc(c, es, if ShouldTrip(r) then Failure(now) else Success);
    case Vanish(_) => assert es + [] == es;
  }

  // ---------------------------------------------------------------------------------------
  // Which calls count as failures
  // ---------------------------------------------------------------------------------------

  /** Calls that came back with a transport error since the last one that came back otherwise: with
      nil, or with a business status. */
  function TransportErrorsInARow(ms: seq<Move>): nat {
    if ms == [] then 0
    else
      var before := TransportErrorsInARow(ms[..|ms| - 1]);
      match ms[|ms| - 1]
      case Finish(_, TransportError, _) => before + 1
      case Finish(_, _, _) => 0
      case _ => before
  }

  lemma {:induction false} OnlyTransportErrorsFail(ms: seq<Move>)
    ensures TrailingFailures(History(ms)) == TransportErrorsInARow(ms)
  {
    if ms != [] {
      var before, m := ms[..|ms| - 1], ms[|ms| - 1];
      OnlyTransportErrorsFail(before);
      var es := History(before);
      if m.Vanish? {
        assert es + [] == es;
      } else {
        assert (es + Operations(m))[..|es|] == es;
      }
    }
  }

  /** Under any interleaving of calls, the breaker is closed exactly while fewer calls than the
      threshold have come back with a transport error since the last one that did not; a business
      status counts as a success. */
  lemma ClosedByOutcomes(c: Config, ms: seq<Move>)
    requires ValidConfig(c)
    ensures var s := Play(c, QUIET, ms).breaker;
      && (s.state.Closed? <==> TransportErrorsInARow(ms) < c.threshold)
      && s.failures == Min(c.threshold, TransportErrorsInARow(ms))
  {
    CallsAreRuns(c, ms);
    FieldsRefineHistory(c, History(ms));
    OnlyTransportErrorsFail(ms);
  }

  /** Business statuses alone never open the breaker. */
  lemma {:induction false} BusinessStatusesNeverTrip(c: Config, ms: seq<Move>)
    requires ValidConfig(c)
    requires forall k :: 0 <= k < |ms| && ms[k].Finish? ==> ms[k].result == NoError || ms[k].result == BusinessStatus
    ensures Play(c, QUIET, ms).breaker.state.Closed? && Play(c, QUIET, ms).breaker.failures == 0
  {
    NoErrorsInARow(ms);
    ClosedByOutcomes(c, ms);
  }

  lemma {:induction false} NoErrorsInARow(ms: seq<Move>)
    requires forall k :: 0 <= k < |ms| && ms[k].Finish? ==> ms[k].result == NoError || ms[k].result == BusinessStatus
    ensures TransportErrorsInARow(ms) == 0
  {
    if ms != [] {
      NoErrorsInARow(ms[..|ms| - 1]);
      assert ms[|ms| - 1].Finish? ==> !ms[|ms| - 1].result.TransportError?;
    }
  }

  // ---------------------------------------------------------------------------------------
  // Half-open episodes
  // ---------------------------------------------------------------------------------------

  /** While the breaker is half-open, its counter is the number of calls admitted in this
      episode: at least one, at most the number of probes. */
  ghost predicate EpisodeCounted(c: Config, w: World) {
    && w.outstanding <= w.started
    && w.episode <= w.started
    && (w.breaker.state.HalfOpen? ==> |w.episode| == w.breaker.inFlight && 1 <= w.breaker.inFlight <= c.probes)
    && (!w.breaker.state.HalfOpen? ==> w.episode == {} && w.breaker.inFlight == 0)
  }

  lemma EpisodeCountedStep(c: Config, w: World, m: Move)
    requires ValidConfig(c) && EpisodeCounted(c, w) && Legal(w, m)
    ensures EpisodeCounted(c, Next(c, w, m))
  {
    if m.Begin? {
      assert m.call !in w.episode;
      assert |w.episode + {m.call}| == |w.episode| + 1;
    }
  }

  lemma {:induction false} HalfOpenEpisode(c: Config, ms: seq<Move>)
    requires ValidConfig(c) && LegalRun(c, QUIET, ms)
    ensures EpisodeCounted(c, Play(c, QUIET, ms))
    ensures AllReturn(ms) ==> Play(c, QUIET, ms).episode <= Play(c, QUIET, ms).outstanding
  {
    if ms == [] {
    } else {
      HalfOpenEpisode(c, ms[..|ms| - 1]);
      EpisodeCountedStep(c, Play(c, QUIET, ms[..|ms| - 1]), ms[|ms| - 1]);
    }
  }

  /** Whether some call reports during the moves. */
  ghost predicate SomeReport(ms: seq<Move>) {
    exists k :: 0 <= k < |ms| && ms[k].Finish?
  }

  ghost predicate HalfOpenThroughout(c: Config, w: World, ms: seq<Move>) {
    forall n :: 0 <= n <= |ms| ==> Play(c, w, ms[..n]).breaker.state.HalfOpen?
  }

  /** A half-open breaker stays so exactly as long as no call reports, whichever call it is and
      whatever the clock says. */
  lemma {:induction false} ReportEndsEpisode(c: Config, w: World, ms: seq<Move>)
    requires w.breaker.state.HalfOpen?
    ensures HalfOpenThroughout(c, w, ms) <==> !SomeReport(ms)
  {
    if ms == [] {
      assert ms[..0] == [];
    } else {
      var before := ms[..|ms| - 1];
      ReportEndsEpisode(c, w, before);
      assert ms[..|ms|] == ms;
      forall n | 0 <= n <= |before| ensures before[..n] == ms[..n] {}
      assert ms[..|before|] == before;
      if SomeReport(before) {
        var k :| 0 <= k < |before| && before[k].Finish?;
        assert ms[k].Finish?;
        var n :| 0 <= n <= |before| && !Play(c, w, before[..n]).breaker.state.HalfOpen?;
        assert before[..n] == ms[..n];
      } else {
        assert before[..|before|] == before;
        assert Play(c, w, before).breaker.state.HalfOpen?;
        assert SomeReport(ms) <==> ms[|ms| - 1].Finish?;
        if !SomeReport(ms) {
          forall n | 0 <= n <= |ms| ensures Play(c, w, ms[..n]).breaker.state.HalfOpen? {
            if n <= |before| { assert before[..n] == ms[..n]; }
          }
        }
      }
    }
  }

  /** If every admitted call comes back, the breaker cannot stay half-open: at least one call of
      the episode is outstanding, and its report, or an earlier one, ends the episode. */
  lemma HalfOpenNeverSticks(c: Config, past: seq<Move>, future: seq<Move>)
    requires ValidConfig(c) && LegalRun(c, QUIET, past) && AllReturn(past)
    requires Play(c, QUIET, past).breaker.state.HalfOpen?
    requires forall call :: call in Play(c, QUIET, past).outstanding ==>
      exists k :: 0 <= k < |future| && future[k].Finish? && future[k].call == call
    ensures !HalfOpenThroughout(c, Play(c, QUIET, past), future)
  {
    var w := Play(c, QUIET, past);
    HalfOpenEpisode(c, past);
    var call :| call in w.episode;
    assert call in w.outstanding;
    var k :| 0 <= k < |future| && future[k].Finish? && future[k].call == call;
    assert SomeReport(future);
    ReportEndsEpisode(c, w, future);
  }

  /** When all probes of an episode have vanished without a report, no later call is ever
      admitted until some call reports, however long the breaker waits. */
  lemma {:induction false} VanishedProbesBlock(c: Config, w: World, ms: seq<Move>)
    requires w.breaker.state.HalfOpen? && w.breaker.inFlight >= c.probes && !SomeReport(ms)
    ensures var v := Play(c, w, ms); v.breaker == w.breaker && v.outstanding <= w.outstanding
  {
    if ms == [] {
    } else {
      var before := ms[..|ms| - 1];
      assert forall k :: 0 <= k < |before| ==> before[k] == ms[k];
      assert !ms[|ms| - 1].Finish?;
      VanishedProbesBlock(c, w, before);
    }
  }

  // ---------------------------------------------------------------------------------------
  // Exactly when a breaker is blocked for ever
  // ---------------------------------------------------------------------------------------

  /** All probes of the episode have been handed out and no admitted call is left to report. */
  ghost predicate Blocked(c: Config, w: World) {
    w.breaker.state.HalfOpen? && w.breaker.inFlight >= c.probes && w.outstanding == {}
  }

  /** Some legal continuation admits a call at some time from `since` on. */
  ghost predicate CanAdmit(c: Config, w: World, since: int) {
    exists ms, now :: since <= now && LegalRun(c, w, ms) && Admits(c, Play(c, w, ms).breaker, now)
  }

  lemma {:induction false} BlockedStays(c: Config, w: World, ms: seq<Move>)
    requires Blocked(c, w) && LegalRun(c, w, ms)
    ensures Blocked(c, Play(c, w, ms))
  {
    if ms != [] {
      BlockedStays(c, w, ms[..|ms| - 1]);
    }
  }

  /** Whatever happens from now on, no call is ever admitted again if and only if the breaker is
      blocked now; otherwise calls can still be admitted, however late. */
  lemma BlockedForEverExactly(c: Config, w: World, since: int)
    ensures CanAdmit(c, w, since) <==> !Blocked(c, w)
  {
    if CanAdmit(c, w, since) && Blocked(c, w) {
      var ms, now :| since <= now && LegalRun(c, w, ms) && Admits(c, Play(c, w, ms).breaker, now);
      BlockedStays(c, w, ms);
      assert false;
    }
    if !Blocked(c, w) {
      var s := w.breaker;
      if s.state.HalfOpen? && s.inFlight >= c.probes {
        var call :| call in w.outstanding;
        OneMoreMove(c, w, [], Finish(call, NoError, since));
        assert Admits(c, Play(c, w, [] + [Finish(call, NoError, since)]).breaker, since);
      } else {
        var open := s.openedAt + c.openDuration;
        var now := if open <= since then since else open;
        assert LegalRun(c, w, []) && Admits(c, Play(c, w, []).breaker, now);
      }
    }
  }

  // ---------------------------------------------------------------------------------------
  // The block can be reached
  // ---------------------------------------------------------------------------------------

  lemma {:induction false} OneMoreMove(c: Config, w: World, ms: seq<Move>, m: Move)
    requires LegalRun(c, w, ms) && Legal(Play(c, w, ms), m)
    ensures Play(c, w, ms + [m]) == Next(c, Play(c, w, ms), m)
    ensures LegalRun(c, w, ms + [m])
  {
    var all := ms + [m];
    assert all[..|all| - 1] == ms;
  }

  /** `k` calls in a row that fail at once. */
  function FailingCalls(k: nat, now: int): seq<Move> {
    if k == 0 then []
    else FailingCalls(k - 1, now) + [Begin(k - 1, now)] + [Finish(k - 1, TransportError, now)]
  }

  function Below(k: nat): (s: set<nat>)
    ensures forall i :: i in s ==> i < k
  {
    if k == 0 then {} else Below(k - 1) + {k - 1}
  }

  /** The world after `k` such calls. */
  function Failing(c: Config, k: nat, now: int): World {
    World(if k < c.threshold then Snapshot(Closed, k, 0, 0) else Opened(c, now), Below(k), {}, {})
  }

  lemma OneFailingCall(c: Config, k: nat, now: int)
    requires ValidConfig(c) && k < c.threshold
    ensures var w := Next(c, Failing(c, k, now), Begin(k, now));
      && Legal(Failing(c, k, now), Begin(k, now))
      && Legal(w, Finish(k, TransportError, now))
      && Next(c, w, Finish(k, TransportError, now)) == Failing(c, k + 1, now)
  {
    var w := Next(c, Failing(c, k, now), Begin(k, now));
    assert w.outstanding == {k};
    assert {k} - {k} == {};
  }

  lemma {:induction false} FailingCallsTrip(c: Config, k: nat, now: int)
    requires ValidConfig(c) && k <= c.threshold
    ensures LegalRun(c, QUIET, FailingCalls(k, now))
    ensures Play(c, QUIET, FailingCalls(k, now)) == Failing(c, k, now)
  {
    if k > 0 {
      FailingCallsTrip(c, k - 1, now);
      OneFailingCall(c, k - 1, now);
      var ms := FailingCalls(k - 1, now);
      OneMoreMove(c, QUIET, ms, Begin(k - 1, now));
      OneMoreMove(c, QUIET, ms + [Begin(k - 1, now)], Finish(k - 1, TransportError, now));
    }
  }

  /** With a single probe, as the defaults have it, a probe that panics blocks the breaker: it
      rejects every call at every later time, in every continuation. */
  lemma PanickingProbeBlocks(c: Config, now: int)
    requires ValidConfig(c) && c.probes == 1
    ensures var probe := c.threshold;
      var ms := FailingCalls(c.threshold, now) + [Begin(probe, now + c.openDuration)] + [Vanish(probe)];
      && LegalRun(c, QUIET, ms)
      && Blocked(c, Play(c, QUIET, ms))
      && forall since :: !CanAdmit(c, Play(c, QUIET, ms), since)
  {
    var probe := c.threshold;
    FailingCallsTrip(c, c.threshold, now);
    var ms := FailingCalls(c.threshold, now);
    OneMoreMove(c, QUIET, ms, Begin(probe, now + c.openDuration));
    OneMoreMove(c, QUIET, ms + [Begin(probe, now + c.openDuration)], Vanish(probe));
    var w := Play(c, QUIET, ms + [Begin(probe, now + c.openDuration)] + [Vanish(probe)]);
    forall since ensures !CanAdmit(c, w, since) {
      BlockedForEverExactly(c, w, since);
    }
  }
}
