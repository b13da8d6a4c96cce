/** How many calls an open breaker lets through. */
module BreakerProbes {
  import opened CircuitBreaker

  /** The calls admitted during a run. */
  function Admitted(c: Config, s: Snapshot, es: seq<Event>): nat {
    if es == [] then 0
    else
      var before := es[..|es| - 1];
      Admitted(c, s, before)
      + match es[|es| - 1]
        case Allow(now) => if Admits(c, Run(c, s, before), now) then 1 else 0
        case _ => 0
  }

  /** What every reachable snapshot satisfies, and all that the bound needs of the first one. */
  ghost predicate Consistent(c: Config, s: Snapshot) {
    && (s.state.HalfOpen? ==> 1 <= s.inFlight <= c.probes)
    && (!s.state.HalfOpen? ==> s.inFlight == 0)
    && (!s.state.Closed? ==> s.failures == c.threshold)
  }

  lemma ReachableIsConsistent(c: Config, es: seq<Event>)
    requires ValidConfig(c)
    ensures Consistent(c, Run(c, INITIAL, es))
  {
    FieldsRefineHistory(c, es);
  }

  /** No success is reported, and the clock never runs backwards from `start` on. */
  ghost predicate Window(es: seq<Event>, start: int) {
    && (forall i :: 0 <= i < |es| ==> !es[i].Success? && start <= es[i].now)
    && (forall i, j :: 0 <= i < j < |es| ==> es[i].now <= es[j].now)
  }

  function LastTime(es: seq<Event>, start: int): int
    requires forall i :: 0 <= i < |es| ==> !es[i].Success?
  {
    if es == [] then start else es[|es| - 1].now
  }

  /** One batch of probes for every open period that fits into `elapsed`. */
  function Quota(c: Config, elapsed: int): int
    requires c.openDuration >= 1
    decreases elapsed
  {
    if elapsed < c.openDuration then 0 else c.probes + Quota(c, elapsed - c.openDuration)
  }

  lemma {:induction false} QuotaGrows(c: Config, x: int, y: int)
    requires ValidConfig(c) && x <= y
    ensures 0 <= Quota(c, x) <= Quota(c, y)
    ensures 0 <= x && y >= x + c.openDuration ==> Quota(c, y) >= Quota(c, x) + c.probes
    decreases y
  {
    if x >= c.openDuration {
      QuotaGrows(c, x - c.openDuration, y - c.openDuration);
    } else if y >= c.openDuration {
      QuotaGrows(c, 0, y - c.openDuration);
    }
  }

  lemma {:induction false} QuotaIsProduct(c: Config, x: int)
    requires ValidConfig(c) && 0 <= x
    ensures Quota(c, x) == c.probes * (x / c.openDuration)
    decreases x
  {
    var d := c.openDuration;
    if x >= d {
      QuotaIsProduct(c, x - d);
      DivisionStep(x, d);
      Distribute(c.probes, (x - d) / d);
    }
  }

  lemma DivisionStep(x: int, d: int)
    requires d >= 1 && x >= d
    ensures x / d == (x - d) / d + 1
  {
    var q, r := (x - d) / d, (x - d) % d;
    Distribute(d, q);
    DivisionIsUnique(x, d, q + 1, r);
  }

  lemma DivisionIsUnique(x: int, d: int, q: int, r: int)
    requires x == d * q + r && 0 <= r < d
    ensures x / d == q
  {
    var p := x / d;
    assert d * (p - q) == r - x % d;
    if p - q >= 1 {
      Multiple(d, p - q);
    } else if q - p >= 1 {
      Multiple(d, q - p);
    }
  }

  lemma Multiple(d: int, k: int)
    requires d >= 1 && k >= 1
    ensures d * k >= d && d * -k <= -d
  {
    Distribute(d, k - 1);
  }

  lemma Distribute(p: int, k: int)
    ensures p * (k + 1) == p * k + p
  {}

  /** What holds at every point of a window: each batch of probes needs an open period of its
      own, so the number admitted is bounded by the open periods that fit in. */
  ghost predicate Bounded(c: Config, s: Snapshot, admitted: int, start: int, now: int)
    requires c.openDuration >= 1
  {
    && start <= now
    && !s.state.Closed?
    && Consistent(c, s)
    && (s.state.HalfOpen? ==> admitted <= Quota(c, now - start) + s.inFlight)
    && (s.state.Open? ==>
          || admitted == 0
          || (start <= s.openedAt <= now && admitted <= Quota(c, s.openedAt - start) + c.probes))
  }

  lemma BoundedStep(c: Config, s: Snapshot, admitted: int, start: int, now: int, e: Event)
    requires ValidConfig(c) && Bounded(c, s, admitted, start, now) && !e.Success? && now <= e.now
    ensures Bounded(c, Step(c, s, e), admitted + (if e.Allow? && Admits(c, s, e.now) then 1 else 0), start, e.now)
  {
    QuotaGrows(c, now - start, e.now - start);
    if s.state.Open? && admitted > 0 {
      QuotaGrows(c, s.openedAt - start, e.now - start);
    }
  }

  lemma {:induction false} BoundedRun(c: Config, s: Snapshot, es: seq<Event>, start: int)
    requires ValidConfig(c) && Consistent(c, s) && !s.state.Closed? && Window(es, start)
    ensures Bounded(c, Run(c, s, es), Admitted(c, s, es), start, LastTime(es, start))
  {
    if es == [] {
    } else {
      var before := es[..|es| - 1];
      BoundedRun(c, s, before, start);
      BoundedStep(c, Run(c, s, before), Admitted(c, s, before), start, LastTime(before, start), es[|es| - 1]);
    }
  }

  /** From any snapshot that is not closed, a window of length `span` without a success admits
      at most one batch of probes for every open period that fits into it, and one more. Late
      failures of earlier calls do not help: they only prolong the open period. */
  lemma ProbeRateBound(c: Config, s: Snapshot, es: seq<Event>, start: int, span: int)
    requires ValidConfig(c) && Consistent(c, s) && !s.state.Closed? && Window(es, start)
    requires LastTime(es, start) <= start + span
    ensures Admitted(c, s, es) <= c.probes * (span / c.openDuration + 1)
  {
    BoundedRun(c, s, es, start);
    var t := Run(c, s, es);
    var now := LastTime(es, start);
    QuotaGrows(c, now - start, span);
    if t.state.Open? && Admitted(c, s, es) > 0 {
      QuotaGrows(c, t.openedAt - start, span);
    }
    QuotaIsProduct(c, span);
    Distribute(c.probes, span / c.openDuration);
  }

  // ---------------------------------------------------------------------------------------
  // The bound is attained
  // ---------------------------------------------------------------------------------------

  function Calls(n: nat, now: int): (es: seq<Event>)
    ensures |es| == n && forall i :: 0 <= i < n ==> es[i] == Allow(now)
  {
    seq(n, _ => Allow(now))
  }

  /** The end of the `k`th open period after `start`. */
  function After(c: Config, start: int, k: nat): int {
    if k == 0 then start else After(c, start, k - 1) + c.openDuration
  }

  /** A full batch of probes and a failure, at the start and after each of `k` open periods. */
  function Batches(c: Config, start: int, k: nat): seq<Event>
    requires c.probes >= 1
  {
    var now := After(c, start, k);
    (if k == 0 then [] else Batches(c, start, k - 1)) + Calls(c.probes, now) + [Failure(now)]
  }

  lemma {:induction false} CallsFillTheBatch(c: Config, s: Snapshot, es: seq<Event>, n: nat, now: int)
    requires ValidConfig(c) && n <= c.probes
    requires var t := Run(c, s, es); t.state.Open? && now - t.openedAt >= c.openDuration
    ensures Admitted(c, s, es + Calls(n, now)) == Admitted(c, s, es) + n
    ensures var t := Run(c, s, es + Calls(n, now));
      if n == 0 then t == Run(c, s, es) else t.state.HalfOpen? && t.inFlight == n
  {
    if n == 0 {
      assert es + Calls(n, now) == es;
    } else {
      CallsFillTheBatch(c, s, es, n - 1, now);
      assert es + Calls(n, now) == es + Calls(n - 1, now) + [Allow(now)];
      OneMore(c, s, es + Calls(n - 1, now), Allow(now));
    }
  }

  lemma {:induction false} OneMore(c: Config, s: Snapshot, es: seq<Event>, e: Event)
    ensures Run(c, s, es + [e]) == Step(c, Run(c, s, es), e)
    ensures Admitted(c, s, es + [e])
         == Admitted(c, s, es) + if e.Allow? && Admits(c, Run(c, s, es), e.now) then 1 else 0
  {
    assert (es + [e])[..|es + [e]| - 1] == es;
  }

  lemma {:induction false} OneBatch(c: Config, s: Snapshot, es: seq<Event>, now: int)
    requires ValidConfig(c)
    requires var t := Run(c, s, es); t.state.Open? && now - t.openedAt >= c.openDuration
    ensures var all := es + Calls(c.probes, now) + [Failure(now)];
      Run(c, s, all) == Opened(c, now) && Admitted(c, s, all) == Admitted(c, s, es) + c.probes
  {
    CallsFillTheBatch(c, s, es, c.probes, now);
    OneMore(c, s, es + Calls(c.probes, now), Failure(now));
  }

  lemma {:induction false} BatchesAreAdmitted(c: Config, start: int, k: nat)
    requires ValidConfig(c)
    ensures var s := Opened(c, start - c.openDuration);
      && Run(c, s, Batches(c, start, k)) == Opened(c, After(c, start, k))
      && Admitted(c, s, Batches(c, start, k)) == c.probes * (k + 1)
  {
    var s := Opened(c, start - c.openDuration);
    if k == 0 {
      OneBatch(c, s, [], After(c, start, 0));
    } else {
      BatchesAreAdmitted(c, start, k - 1);
      OneBatch(c, s, Batches(c, start, k - 1), After(c, start, k));
    }
    Distribute(c.probes, k);
  }

  /** A window whose events all lie before `now`. */
  ghost predicate WindowUntil(es: seq<Event>, start: int, now: int) {
    start <= now && Window(es, start) && forall i :: 0 <= i < |es| ==> es[i].now <= now
  }

  lemma BatchExtendsWindow(c: Config, es: seq<Event>, start: int, before: int, now: int)
    requires c.probes >= 1 && before <= now && WindowUntil(es, start, before)
    ensures WindowUntil(es + Calls(c.probes, now) + [Failure(now)], start, now)
  {}

  lemma {:induction false} BatchesFormAWindow(c: Config, start: int, k: nat)
    requires ValidConfig(c)
    ensures WindowUntil(Batches(c, start, k), start, After(c, start, k))
    ensures LastTime(Batches(c, start, k), start) == After(c, start, k)
  {
    if k == 0 {
      BatchExtendsWindow(c, [], start, start, start);
    } else {
      BatchesFormAWindow(c, start, k - 1);
      BatchExtendsWindow(c, Batches(c, start, k - 1), start, After(c, start, k - 1), After(c, start, k));
    }
  }

  lemma {:induction false} AfterIsLinear(c: Config, start: int, k: nat)
    ensures After(c, start, k) == start + k * c.openDuration
  {
    if k > 0 {
      AfterIsLinear(c, start, k - 1);
      Distribute(c.openDuration, k - 1);
    }
  }

  /** For every number of open periods there is a run that meets the bound exactly. */
  lemma ProbeRateBoundIsTight(c: Config, start: int, k: nat)
    requires ValidConfig(c)
    ensures var s, es, span := Opened(c, start - c.openDuration), Batches(c, start, k), k * c.openDuration;
      && Consistent(c, s) && Window(es, start) && LastTime(es, start) == start + span
      && Admitted(c, s, es) == c.probes * (span / c.openDuration + 1)
  {
    var span := k * c.openDuration;
    AfterIsLinear(c, start, k);
    BatchesAreAdmitted(c, start, k);
    BatchesFormAWindow(c, start, k);
    DivisionIsUnique(span, c.openDuration, k, 0);
  }
}
