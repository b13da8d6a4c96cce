/** How the configuration manager shuts down: it cancels its poll worker, waits for it until a
    deadline, and only then lets go of the client, all inside a once-guard. */
module ConfigClose {
  import opened Wrappers

  datatype Worker = NoWorker | Polling | Finished

  datatype Client = Absent | Connected | Released

  /** `once` tells whether the guard has been passed; `closes` counts the calls that close the client. */
  datatype Connection = Connection(
    once: bool, cancelled: bool, worker: Worker, client: Client, listening: bool, closes: nat)

  /** After a successful start, and without one. */
  const STARTED := Connection(false, false, Polling, Connected, true, 0)
  const IDLE := Connection(false, false, NoWorker, Absent, false, 0)

  /** One call: `joins` tells whether the wait ended because the worker did, and not because of the
      deadline; `refused` whether the server refuses to end the subscription. */
  datatype Call = Call(joins: bool, refused: bool)

  predicate TimesOut(s: Connection, c: Call) {
    !s.once && !s.worker.NoWorker? && !c.joins
  }

  predicate Fails(s: Connection, c: Call) {
    TimesOut(s, c) || (!s.once && s.client.Connected? && c.refused)
  }

  function Release(s: Connection, c: Call): Connection {
    if s.client.Connected? then s.(client := Released, listening := s.listening && c.refused, closes := s.closes + 1)
    else s
  }

  function AfterClose(s: Connection, c: Call): Connection {
    if s.once then s
    else
      var t := s.(once := true, cancelled := !s.worker.NoWorker?);
      if TimesOut(s, c) then t
      else Release(t.(worker := if s.worker.NoWorker? then NoWorker else Finished), c)
  }

  /** The worker ends by itself once it is cancelled, or when the process is asked to stop. */
  datatype Event = Close(call: Call) | WorkerEnds

  function Step(s: Connection, e: Event): Connection {
    match e
    case Close(c) => AfterClose(s, c)
    case WorkerEnds => if s.worker.Polling? then s.(worker := Finished) else s
  }

  function Run(s: Connection, es: seq<Event>): Connection {
    if es == [] then s else Step(Run(s, es[..|es| - 1]), es[|es| - 1])
  }

  class Closer {
    var once: bool
    var cancelled: bool
    var worker: Worker
    var client: Client
    var listening: bool
    ghost var closes: nat

    ghost function View(): Connection
      reads this
    {
      Connection(once, cancelled, worker, client, listening, closes)
    }

    constructor ()
      ensures View() == STARTED
    {
      once, cancelled, worker, client, listening, closes := false, false, Polling, Connected, true, 0;
    }

    method Close(joins: bool, refused: bool) returns (failed: bool)
      modifies this
      ensures View() == AfterClose(old(View()), Call(joins, refused))
      ensures failed <==> Fails(old(View()), Call(joins, refused))
    {
      if once {
        return false;
      }
      once := true;
      cancelled := worker != NoWorker;
      if worker != NoWorker {
        if !joins {
          return true;
        }
        worker := Finished;
      }
      failed := false;
      if client == Connected {
        if refused {
          failed := true;
        } else {
          listening := false;
        }
        client := Released;
        closes := closes + 1;
      }
    }
  }

  // ---------------------------------------------------------------------------------------
  // What closing achieves
  // ---------------------------------------------------------------------------------------

  /** The first call of Close in a run. */
  function FirstClose(es: seq<Event>): Option<Call> {
    if es == [] then None
    else
      var before := FirstClose(es[..|es| - 1]);
      if before.Some? then before
      else if es[|es| - 1].Close? then Some(es[|es| - 1].call)
      else None
  }

  /** In every run of a started manager, however often it is closed and whenever its worker ends, the
      first call of Close decides: the client is released if and only if that call joined the
      worker. It is released once at most, and never under a worker that still polls. */
  lemma {:induction false} FirstCloseDecides(es: seq<Event>)
    ensures var s, first := Run(STARTED, es), FirstClose(es);
      && (s.once <==> first.Some?)
      && (s.cancelled <==> first.Some?)
      && (s.client.Released? <==> first.Some? && first.value.joins)
      && (s.client.Connected? <==> !s.client.Released?)
      && s.closes == (if s.client.Released? then 1 else 0)
      && (s.client.Released? ==> s.worker.Finished?)
      && (s.listening <==> !s.client.Released? || first.value.refused)
      && !s.worker.NoWorker?
  {
    if es != [] {
      FirstCloseDecides(es[..|es| - 1]);
    }
  }

  /** An earlier call of Close gave up on the worker. */
  predicate GaveUp(es: seq<Event>) {
    FirstClose(es).Some? && !FirstClose(es).value.joins
  }

  /** A call that returns nil leaves the client released exactly when no earlier call gave up on the
      worker; after one did, every call returns nil and none releases the client. */
  lemma NilMeansReleasedExactly(es: seq<Event>, c: Call)
    ensures var s := Run(STARTED, es);
      && (!Fails(s, c) ==> (AfterClose(s, c).client.Released? <==> !GaveUp(es)))
      && (GaveUp(es) ==> !Fails(s, c) && AfterClose(s, c) == s)
  {
    FirstCloseDecides(es);
  }

  /** A deadline that passes first, and the client is never released: not by the next call, which
      returns nil, and not when the worker has ended in the meantime. */
  lemma DeadlineLeavesClientOpen()
    ensures var es := [Close(Call(false, false)), WorkerEnds]; var again := Call(true, false);
      && Run(STARTED, es).worker.Finished?
      && !Fails(Run(STARTED, es), again)
      && AfterClose(Run(STARTED, es), again).client.Connected?
  {
    var es := [Close(Call(false, false)), WorkerEnds];
    assert es[..1] == [Close(Call(false, false))] && es[..1][..0] == [];
    assert FirstClose(es[..1]) == Some(Call(false, false));
    FirstCloseDecides(es);
    NilMeansReleasedExactly(es, Call(true, false));
  }

  /** A manager that was never started has nothing to close. */
  lemma {:induction false} IdleStaysIdle(es: seq<Event>, c: Call)
    ensures var s := Run(IDLE, es); s.client.Absent? && s.closes == 0 && !s.cancelled && !Fails(s, c)
    ensures Run(IDLE, es).worker.NoWorker?
  {
    if es != [] {
      IdleStaysIdle(es[..|es| - 1], c);
    }
  }
}
