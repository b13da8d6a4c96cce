/** A run that ends well: what `MeaningOfSuccess` says of a nil return is said of something. */
module LifecycleWitness {
  import opened Lifecycle
  import opened LifecycleTheorems

  ghost predicate Reached(s: State) {
    exists states: seq<State>, steps: seq<Step> :: Trace(states, steps) && states[|steps|] == s
  }

  lemma ReachedNext(s: State, step: Step)
    requires Reached(s) && Enabled(s, step)
    ensures Reached(Next(s, step))
  {
    var states: seq<State>, steps: seq<Step> :| Trace(states, steps) && states[|steps|] == s;
    var states', steps' := states + [Next(s, step)], steps + [step];
    forall k | 0 <= k < |steps'|
      ensures Enabled(states'[k], steps'[k]) && states'[k + 1] == Next(states'[k], steps'[k])
    {
      if k < |steps| {
        assert steps'[k] == steps[k];
      }
    }
    assert Trace(states', steps') && states'[|steps'|] == Next(s, step);
  }

  lemma Go(s: State, step: Step) returns (t: State)
    requires Reached(s) && Enabled(s, step)
    ensures Reached(t) && t == Next(s, step)
  {
    t := Next(s, step);
    ReachedNext(s, step);
  }

  /** One component and one hook are registered and `run` has started. */
  lemma RunStarts(c: string, h: string) returns (s: State)
    requires c != "" && h != ""
    ensures Reached(s)
    ensures s.reg == Registry([c], [h], true, false, false, false)
    ensures s.env == Env([Spawned], [Waiting], [], [], [], NoError, NoError, false)
    ensures s.loc == Locals(true, false, 1, 0, true, []) && s.log == INITIAL.log && s.phase == Starting
  {
    var steps: seq<Step> := [];
    assert Trace([INITIAL], steps) && [INITIAL][|steps|] == INITIAL;
    s := Go(INITIAL, Driver(Component(c)));
    s := Go(s, Driver(Cleanup(h)));
    assert s.reg.components == [c] && s.reg.cleanups == [h];
    s := Go(s, Driver(CallRun));
  }

  /** The component comes up, the process serves and is asked to stop. */
  lemma RunServes(s: State) returns (t: State)
    requires Reached(s) && s.phase == Starting && s.log == INITIAL.log
    requires s.env == Env([Spawned], [Waiting], [], [], [], NoError, NoError, false)
    requires s.loc == Locals(true, false, 1, 0, true, [])
    ensures Reached(t) && t.reg == s.reg && t.phase == Draining
    ensures t.env.serve == [Live] && t.env.results == []
    ensures t.loc.inRun && t.loc.remaining == 1 && t.loc.joined == [] && !t.loc.closing
  {
    t := Go(s, Environment(ServeBegins(0)));
    t := Go(t, Environment(ReadyReturns(0, NoError)));
    t := Go(t, Runner(TakeReady));
    t := Go(t, Runner(Proceed));
    t := Go(t, Runner(Proceed));
    t := Go(t, Runner(Proceed));
    t := Go(t, Environment(CtxDone(Canceled)));
    t := Go(t, Runner(SeeCtx));
  }

  /** The component stops in time. */
  lemma RunStops(s: State) returns (t: State)
    requires Reached(s) && s.phase == Draining && |s.reg.components| == 1 && !s.reg.isClosed
    requires s.env.serve == [Live] && s.env.results == []
    requires s.loc.inRun && s.loc.remaining == 1 && s.loc.joined == [] && !s.loc.closing
    ensures Reached(t) && t.reg == s.reg.(stopped := true)
    ensures t.phase == Stopping(0) && t.env.results == [Note(0, NoError)]
    ensures t.loc == s.loc.(allReturned := true)
  {
    t := Go(s, Runner(Proceed));
    t := Go(t, Runner(CallShutdown));
    t := Go(t, Environment(ServeExits(0, NoError)));
    t := Go(t, Environment(ShutdownReturns(0, NoError)));
    t := Go(t, Runner(TakeReturn));
  }

  /** Its result is received, and `close` comes to the hooks. */
  lemma RunCloses(s: State) returns (t: State)
    requires Reached(s) && s.phase == Stopping(0) && s.reg.stopped && !s.reg.isClosed
    requires s.env.results == [Note(0, NoError)]
    requires s.loc.inRun && s.loc.remaining == 1 && s.loc.joined == [] && !s.loc.closing && s.loc.allReturned
    ensures Reached(t) && t.reg == s.reg.(stopUnsafe := false, isClosed := true)
    ensures t.phase == Hooks(|s.reg.cleanups|) && t.loc.inRun && t.loc.joined == []
  {
    t := Go(s, Runner(Proceed));
    t := Go(t, Runner(TakeExit));
    t := Go(t, Runner(Proceed));
  }

  /** `run` can return nil, having run its hook. */
  lemma SuccessIsPossible(c: string, h: string) returns (s: State)
    requires c != "" && h != ""
    ensures Reached(s) && s.reg.components == [c] && s.reg.cleanups == [h]
    ensures s.log.outcome == Ended([])
  {
    s := RunStarts(c, h);
    s := RunServes(s);
    s := RunStops(s);
    s := RunCloses(s);
    s := Go(s, Runner(RunHook(NoError)));
    s := Go(s, Runner(Proceed));
  }
}
