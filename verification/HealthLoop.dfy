/** The concurrent start and stop of the health loop, as a transition system over its atomic steps. */
module HealthLoop {
  import opened Core

  /** A loop goroutine: its channels exist, it runs, it has seen its stop channel closed, it is over. */
  datatype Phase = Allocated | Running | Leaving | Finished

  /** How often the stop and done channels of a loop have been closed; closing one twice would panic. */
  datatype Loop = Loop(phase: Phase, stopCloses: nat, doneCloses: nat)

  /** A call of stopHealthLoop: it took a loop's channels, closed the stop channel, or returned. */
  datatype Stopper = Took(stop: nat, done: nat) | Waiting(stop: nat, done: nat) | Returned(loop: Option<nat>)

  /** The two channel fields of the exporter, and all loops and stoppers so far. */
  datatype State = State(stop: Option<nat>, done: Option<nat>, loops: seq<Loop>, stoppers: seq<Stopper>)

  const INITIAL := State(None, None, [], [])

  /** The atomic steps: what happens under the lock is one step, every channel operation is one. */
  datatype Action =
    | Start
    | Launch(loop: nat)
    | SeeStop(loop: nat)
    | Finish(loop: nat)
    | Stop
    | CloseStop(stopper: nat)
    | ReceiveDone(stopper: nat)

  predicate Enabled(s: State, a: Action) {
    match a
    case Start => true
    case Launch(l) => l < |s.loops| && s.loops[l].phase.Allocated?
    case SeeStop(l) => l < |s.loops| && s.loops[l].phase.Running? && s.loops[l].stopCloses > 0
    case Finish(l) => l < |s.loops| && s.loops[l].phase.Leaving?
    case Stop => true
    case CloseStop(k) => k < |s.stoppers| && s.stoppers[k].Took? && s.stoppers[k].stop < |s.loops|
    case ReceiveDone(k) =>
      && k < |s.stoppers| && s.stoppers[k].Waiting?
      && s.stoppers[k].done < |s.loops| && s.loops[s.stoppers[k].done].doneCloses > 0
  }

  function Next(s: State, a: Action): State
    requires Enabled(s, a)
  {
    match a
    case Start =>
      if s.stop.Some? then s
      else s.(stop := Some(|s.loops|), done := Some(|s.loops|), loops := s.loops + [Loop(Allocated, 0, 0)])
    case Launch(l) => s.(loops := s.loops[l := s.loops[l].(phase := Running)])
    case SeeStop(l) => s.(loops := s.loops[l := s.loops[l].(phase := Leaving)])
    case Finish(l) => s.(loops := s.loops[l := Loop(Finished, s.loops[l].stopCloses, s.loops[l].doneCloses + 1)])
    case Stop =>
      s.(stop := None, done := None,
         stoppers := s.stoppers
           + [if s.stop.Some? && s.done.Some? then Took(s.stop.value, s.done.value) else Returned(None)])
    case CloseStop(k) =>
      var l := s.stoppers[k].stop;
      s.(loops := s.loops[l := s.loops[l].(stopCloses := s.loops[l].stopCloses + 1)],
         stoppers := s.stoppers[k := Waiting(l, s.stoppers[k].done)])
    case ReceiveDone(k) => s.(stoppers := s.stoppers[k := Returned(Some(s.stoppers[k].stop))])
  }

  /* ---------------- the invariant ---------------- */

  predicate Holds(p: Stopper, l: nat) {
    match p
    case Took(stop, _) => stop == l
    case Waiting(stop, _) => stop == l
    case Returned(loop) => loop == Some(l)
  }

  predicate StopperOk(s: State, p: Stopper) {
    match p
    case Took(stop, done) => stop == done < |s.loops| && s.loops[stop].stopCloses == 0
    case Waiting(stop, done) => stop == done < |s.loops| && s.loops[stop].stopCloses == 1
    case Returned(None) => true
    case Returned(Some(l)) => l < |s.loops| && s.loops[l].stopCloses == 1 && s.loops[l].phase.Finished?
  }

  predicate LoopOk(loop: Loop) {
    && loop.stopCloses <= 1
    && loop.doneCloses == (if loop.phase.Finished? then 1 else 0)
    && (loop.phase in {Leaving, Finished} ==> loop.stopCloses == 1)
  }

  /** Every loop is either registered or held by a stopper, by exactly one of them. */
  ghost predicate Held(s: State, l: nat) {
    s.stop == Some(l) || exists k :: 0 <= k < |s.stoppers| && Holds(s.stoppers[k], l)
  }

  ghost predicate Inv(s: State) {
    && s.stop == s.done
    && (s.stop.Some? ==> s.stop.value < |s.loops| && s.loops[s.stop.value].stopCloses == 0)
    && (forall l | 0 <= l < |s.loops| :: LoopOk(s.loops[l]) && Held(s, l))
    && (forall k | 0 <= k < |s.stoppers| :: StopperOk(s, s.stoppers[k]))
    && (forall k | 0 <= k < |s.stoppers| && s.stop.Some? :: !Holds(s.stoppers[k], s.stop.value))
    && (forall j, k, l | 0 <= j < k < |s.stoppers| && Holds(s.stoppers[j], l) :: !Holds(s.stoppers[k], l))
  }

  /** No step takes a loop away from the stopper that holds it, and Stop hands the registered loop to one. */
  lemma StaysHeld(s: State, a: Action, l: nat)
    requires Inv(s) && Enabled(s, a) && l < |s.loops|
    ensures Held(Next(s, a), l)
  {
    var t := Next(s, a);
    assert Held(s, l);
    if s.stop == Some(l) {
      if a.Stop? {
        assert Holds(t.stoppers[|s.stoppers|], l);
      }
    } else {
      var k :| 0 <= k < |s.stoppers| && Holds(s.stoppers[k], l);
      assert Holds(t.stoppers[k], l);
    }
  }

  lemma StartKeepsInv(s: State)
    requires Inv(s)
    ensures Inv(Next(s, Start))
  {
  }

  lemma LoopStepKeepsInv(s: State, a: Action)
    requires Inv(s) && Enabled(s, a) && (a.Launch? || a.SeeStop? || a.Finish?)
    ensures Inv(Next(s, a))
  {
    hide Held;
    forall l | 0 <= l < |s.loops| ensures Held(Next(s, a), l) {
      StaysHeld(s, a, l);
    }
    var t := Next(s, a);
    assert forall l | 0 <= l < |s.loops| :: LoopOk(s.loops[l]);
    assert forall k | 0 <= k < |s.stoppers| :: StopperOk(s, s.stoppers[k]);
  }

  lemma StopKeepsInv(s: State)
    requires Inv(s)
    ensures Inv(Next(s, Stop))
  {
    hide Held;
    forall l | 0 <= l < |s.loops| ensures Held(Next(s, Stop), l) {
      StaysHeld(s, Stop, l);
    }
  }

  lemma CloseStopKeepsInv(s: State, k: nat)
    requires Inv(s) && Enabled(s, CloseStop(k))
    ensures Inv(Next(s, CloseStop(k)))
  {
    hide Held;
    forall l | 0 <= l < |s.loops| ensures Held(Next(s, CloseStop(k)), l) {
      StaysHeld(s, CloseStop(k), l);
    }
    var t := Next(s, CloseStop(k));
    assert StopperOk(s, s.stoppers[k]) && LoopOk(s.loops[s.stoppers[k].stop]);
    forall j | 0 <= j < |t.stoppers| ensures StopperOk(t, t.stoppers[j]) {
      assert StopperOk(s, s.stoppers[j]);
      assert Holds(s.stoppers[k], s.stoppers[k].stop);
    }
  }

  lemma ReceiveDoneKeepsInv(s: State, k: nat)
    requires Inv(s) && Enabled(s, ReceiveDone(k))
    ensures Inv(Next(s, ReceiveDone(k)))
  {
    hide Held;
    forall l | 0 <= l < |s.loops| ensures Held(Next(s, ReceiveDone(k)), l) {
      StaysHeld(s, ReceiveDone(k), l);
    }
    assert StopperOk(s, s.stoppers[k]) && LoopOk(s.loops[s.stoppers[k].stop]);
  }

  lemma StepKeepsInv(s: State, a: Action)
    requires Inv(s) && Enabled(s, a)
    ensures Inv(Next(s, a))
  {
    hide Inv, Next;
    match a
    case Start => StartKeepsInv(s);
    case Stop => StopKeepsInv(s);
    case CloseStop(k) => CloseStopKeepsInv(s, k);
    case ReceiveDone(k) => ReceiveDoneKeepsInv(s, k);
    case _ => LoopStepKeepsInv(s, a);
  }

  /* ---------------- every interleaving ---------------- */

  /** The state after a sequence of steps, if each of them was enabled. */
  function Run(actions: seq<Action>): Option<State> {
    if actions == [] then Some(INITIAL)
    else
      var last := actions[|actions| - 1];
      match Run(actions[..|actions| - 1])
      case None => None
      case Some(s) => if Enabled(s, last) then Some(Next(s, last)) else None
  }

  lemma {:induction false} RunsKeepInv(actions: seq<Action>)
    requires Run(actions).Some?
    ensures Inv(Run(actions).value)
  {
    if actions != [] {
      var init := actions[..|actions| - 1];
      RunsKeepInv(init);
      StepKeepsInv(Run(init).value, actions[|actions| - 1]);
    }
  }

  /**
   After every interleaving: no channel has been closed twice; a registered loop has not been stopped and nobody
   is stopping it; and a stop that took a loop has returned only if that loop is over.
   */
  lemma StopIsSafe(actions: seq<Action>)
    requires Run(actions).Some?
    ensures var s := Run(actions).value;
            && (forall l | 0 <= l < |s.loops| :: s.loops[l].stopCloses <= 1 && s.loops[l].doneCloses <= 1)
            && (s.stop.Some? ==>
                  && s.stop.value < |s.loops| && s.loops[s.stop.value].stopCloses == 0
                  && forall k | 0 <= k < |s.stoppers| :: !Holds(s.stoppers[k], s.stop.value))
            && (forall k, l: nat | 0 <= k < |s.stoppers| && s.stoppers[k] == Returned(Some(l)) ::
                  l < |s.loops| && s.loops[l].phase.Finished?)
  {
    RunsKeepInv(actions);
    var s := Run(actions).value;
    forall l | 0 <= l < |s.loops| ensures LoopOk(s.loops[l]) {
    }
    forall k, l: nat | 0 <= k < |s.stoppers| && s.stoppers[k] == Returned(Some(l))
      ensures l < |s.loops| && s.loops[l].phase.Finished?
    {
      assert StopperOk(s, s.stoppers[k]);
    }
  }

  /** Whenever no stop is in progress, every loop but the registered one is over: loops never pile up. */
  lemma QuiescentMeansOneLoop(actions: seq<Action>)
    requires Run(actions).Some?
    requires forall k | 0 <= k < |Run(actions).value.stoppers| :: Run(actions).value.stoppers[k].Returned?
    ensures var s := Run(actions).value;
            forall l | 0 <= l < |s.loops| :: s.stop == Some(l) || s.loops[l].phase.Finished?
  {
    RunsKeepInv(actions);
    var s := Run(actions).value;
    forall l | 0 <= l < |s.loops| ensures s.stop == Some(l) || s.loops[l].phase.Finished? {
      assert Held(s, l);
      if s.stop != Some(l) {
        var k :| 0 <= k < |s.stoppers| && Holds(s.stoppers[k], l);
        assert StopperOk(s, s.stoppers[k]);
      }
    }
  }

  /** A stopper that waits is not stuck: the loop it waits for can always take the steps that let it return. */
  lemma WaitingIsNotStuck(actions: seq<Action>, k: nat) returns (more: seq<Action>)
    requires Run(actions).Some? && k < |Run(actions).value.stoppers| && Run(actions).value.stoppers[k].Waiting?
    ensures Run(actions + more).Some? && k < |Run(actions + more).value.stoppers|
    ensures Run(actions + more).value.stoppers[k] == Returned(Some(Run(actions).value.stoppers[k].stop))
  {
    RunsKeepInv(actions);
    var s := Run(actions).value;
    assert StopperOk(s, s.stoppers[k]);
    var l := s.stoppers[k].stop;
    assert LoopOk(s.loops[l]);
    more := [];
    assert actions + [] == actions;
    var t := s;
    if t.loops[l].phase.Allocated? {
      more, t := OneMore(actions, more, t, Launch(l));
    }
    if t.loops[l].phase.Running? {
      more, t := OneMore(actions, more, t, SeeStop(l));
    }
    if t.loops[l].phase.Leaving? {
      more, t := OneMore(actions, more, t, Finish(l));
    }
    more, t := OneMore(actions, more, t, ReceiveDone(k));
  }

  lemma OneMore(actions: seq<Action>, more: seq<Action>, s: State, a: Action) returns (more': seq<Action>, t: State)
    requires Run(actions + more) == Some(s) && Enabled(s, a)
    ensures more' == more + [a] && t == Next(s, a) && Run(actions + more') == Some(t)
  {
    more', t := more + [a], Next(s, a);
    var all := actions + more';
    assert all[..|all| - 1] == actions + more;
  }

  /* ---------------- what start and stop do ---------------- */

  lemma OneStep(actions: seq<Action>, a: Action)
    requires Run(actions).Some? && Enabled(Run(actions).value, a)
    ensures Run(actions + [a]) == Some(Next(Run(actions).value, a))
  {
    assert (actions + [a])[..|actions|] == actions;
  }

  /**
   In every reachable state a start leaves a loop registered: the one that was, or else a new one that is ready to be
   launched, that nobody has stopped and that no stop holds. It touches nothing else.
   */
  lemma StartRegistersALoop(actions: seq<Action>)
    requires Run(actions).Some?
    ensures Run(actions + [Start]).Some?
    ensures var s, t := Run(actions).value, Run(actions + [Start]).value;
            && t.stop.Some? && t.done == t.stop && t.stoppers == s.stoppers
            && (s.stop.Some? ==> t == s)
            && (s.stop.None? ==>
                  && t.stop.value == |s.loops| && |t.loops| == |s.loops| + 1 && t.loops[..|s.loops|] == s.loops
                  && Enabled(t, Launch(t.stop.value)) && t.loops[t.stop.value].stopCloses == 0
                  && forall k | 0 <= k < |t.stoppers| :: !Holds(t.stoppers[k], t.stop.value))
  {
    RunsKeepInv(actions);
    OneStep(actions, Start);
    var s := Run(actions).value;
    assert forall k | 0 <= k < |s.stoppers| :: StopperOk(s, s.stoppers[k]);
  }

  /** While a loop is registered it does not end: it is about to be launched or it runs. */
  lemma RegisteredLoopsRun(actions: seq<Action>)
    requires Run(actions).Some? && Run(actions).value.stop.Some?
    ensures var s := Run(actions).value;
            && s.stop.value < |s.loops|
            && (s.loops[s.stop.value].phase.Running? || Enabled(s, Launch(s.stop.value)))
  {
    RunsKeepInv(actions);
    var s := Run(actions).value;
    assert LoopOk(s.loops[s.stop.value]);
  }

  /** A stop unregisters the loop and takes exactly that loop; without a registered loop it returns at once. */
  lemma StopTakesTheLoop(actions: seq<Action>)
    requires Run(actions).Some?
    ensures Run(actions + [Stop]).Some?
    ensures var s, t := Run(actions).value, Run(actions + [Stop]).value;
            && t.stop.None? && t.done.None? && t.loops == s.loops
            && |t.stoppers| == |s.stoppers| + 1 && t.stoppers[..|s.stoppers|] == s.stoppers
            && t.stoppers[|s.stoppers|]
               == if s.stop.Some? then Took(s.stop.value, s.stop.value) else Returned(None)
  {
    RunsKeepInv(actions);
    OneStep(actions, Stop);
  }

  /** No step changes which loop a stop has. */
  lemma StepKeepsStops(s: State, a: Action, k: nat)
    requires Enabled(s, a) && k < |s.stoppers|
    ensures k < |Next(s, a).stoppers|
    ensures forall l :: Holds(s.stoppers[k], l) ==> Holds(Next(s, a).stoppers[k], l)
    ensures s.stoppers[k] == Returned(None) ==> Next(s, a).stoppers[k] == Returned(None)
  {
  }

  /**
   Whatever happens afterwards, a stop stays with the loop that was registered when it was called, and returns without
   one only if none was.
   */
  lemma {:induction false} StopKeepsItsLoop(actions: seq<Action>, more: seq<Action>)
    requires Run(actions).Some? && Run(actions + [Stop] + more).Some?
    ensures var s, t := Run(actions).value, Run(actions + [Stop] + more).value;
            var k := |s.stoppers|;
            && k < |t.stoppers|
            && if s.stop.Some? then Holds(t.stoppers[k], s.stop.value) else t.stoppers[k] == Returned(None)
    decreases |more|
  {
    hide Inv, Next, Enabled, Holds;
    if more == [] {
      assert actions + [Stop] + [] == actions + [Stop];
      TookHolds(Run(actions).value);
      StopTakesTheLoop(actions);
    } else {
      var n := |more| - 1;
      var all := actions + [Stop] + more;
      assert all[..|all| - 1] == actions + [Stop] + more[..n];
      StopKeepsItsLoop(actions, more[..n]);
      StepKeepsStops(Run(actions + [Stop] + more[..n]).value, more[n], |Run(actions).value.stoppers|);
    }
  }

  lemma TookHolds(s: State)
    ensures s.stop.Some? ==> Holds(Took(s.stop.value, s.stop.value), s.stop.value)
  {
  }

  /** From every reachable state each stop that has not returned can be brought to return, with the loop it took. */
  lemma EveryStopCanReturn(actions: seq<Action>, k: nat) returns (more: seq<Action>)
    requires Run(actions).Some? && k < |Run(actions).value.stoppers| && !Run(actions).value.stoppers[k].Returned?
    ensures Run(actions + more).Some? && k < |Run(actions + more).value.stoppers|
    ensures Run(actions + more).value.stoppers[k] == Returned(Some(Run(actions).value.stoppers[k].stop))
  {
    RunsKeepInv(actions);
    var s := Run(actions).value;
    assert StopperOk(s, s.stoppers[k]);
    if s.stoppers[k].Took? {
      OneStep(actions, CloseStop(k));
      var rest := WaitingIsNotStuck(actions + [CloseStop(k)], k);
      more := [CloseStop(k)] + rest;
      assert actions + more == actions + [CloseStop(k)] + rest;
    } else {
      more := WaitingIsNotStuck(actions, k);
    }
  }

  /** A registered loop can always be stopped: some run from here calls a stop that returns with that loop over. */
  lemma RegisteredLoopsCanBeStopped(actions: seq<Action>) returns (more: seq<Action>)
    requires Run(actions).Some? && Run(actions).value.stop.Some?
    ensures more != [] && more[0] == Stop && Run(actions + more).Some?
    ensures var s, t := Run(actions).value, Run(actions + more).value;
            var k, l := |s.stoppers|, s.stop.value;
            && k < |t.stoppers| && t.stoppers[k] == Returned(Some(l))
            && l < |t.loops| && t.loops[l].phase.Finished?
  {
    hide Inv, Run, Next;
    StopTakesTheLoop(actions);
    var k := |Run(actions).value.stoppers|;
    var rest := EveryStopCanReturn(actions + [Stop], k);
    more := [Stop] + rest;
    assert actions + more == actions + [Stop] + rest;
    StopIsSafe(actions + more);
  }
}
