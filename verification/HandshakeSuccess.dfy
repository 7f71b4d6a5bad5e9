/**
 Connects and disconnects that nothing disturbs: when the library accepts every submission and the
 broker answers each with OK, the call succeeds, from every reached state at rest.
 */
module HandshakeSuccess {
  import opened ClientHandshake
  import opened Wrappers

  /** The state after some actions. */
  function Steps(s: State, actions: seq<Action>): State
    decreases |actions|
  {
    if actions == [] then s else Steps(Step(s, actions[0]), actions[1..])
  }

  lemma {:induction false} StepsTogether(s: State, a: seq<Action>, b: seq<Action>)
    ensures Steps(s, a + b) == Steps(Steps(s, a), b)
    decreases |a|
  {
    hide Step;
    if a == [] {
      assert a + b == b;
    } else {
      assert (a + b)[0] == a[0] && (a + b)[1..] == a[1..] + b;
      StepsTogether(Step(s, a[0]), a[1..], b);
    }
  }

  /** In a run, the actions go on from where it is. */
  lemma {:induction false} RunSteps(unsubscribe: bool, actions: seq<Action>, more: seq<Action>)
    ensures Run(unsubscribe, actions + more) == Steps(Run(unsubscribe, actions), more)
    decreases |more|
  {
    hide Step, Run;
    if more == [] {
      assert actions + more == actions;
    } else {
      RunMore(unsubscribe, actions, more[0]);
      RunSteps(unsubscribe, actions + [more[0]], more[1..]);
      assert actions + [more[0]] + more[1..] == actions + more;
    }
  }

  /** A request is submitted, answered with OK, and its waiter woken. */
  function Exchange(t: nat, slot: Slot): seq<Action> {
    [Advance(t, true), Reply(t, slot, Ok), Wake(t)]
  }

  /** The requests after that: its condition is clear again, and only a shared result is kept. */
  function Answered(rs: Requests, slot: Slot): Requests {
    Put(rs, slot, Request(multiset{}, false, if Copied(slot) then Get(rs, slot).result else Ok))
  }

  lemma {:induction false} OneStep(s: State, a: Action)
    ensures Steps(s, [a]) == Step(s, a)
  {
    assert [a][1..] == [];
  }

  lemma {:induction false} ThreeSteps(s: State, a: Action, b: Action, c: Action)
    ensures Steps(s, [a, b, c]) == Step(Step(Step(s, a), b), c)
  {
    assert [a, b, c][1..] == [b, c] && [b, c][1..] == [c];
    OneStep(Step(Step(s, a), b), c);
  }

  lemma {:induction false} Exchanges(s: State, t: nat, slot: Slot, ps: seq<Param>)
    requires Step(s, Advance(t, true)) == Submit(s, t, slot, ps, true) && Quiet(Get(s.requests, slot))
    ensures Steps(s, Exchange(t, slot)) ==
            Moved(s, t, AfterWait(slot))
              .(requests := Answered(s.requests, slot), log := s.log + [Sent(t, slot, ps), Replied(t, slot, Ok)])
  {
    var sent := Submit(s, t, slot, ps, true);
    assert Get(sent.requests, slot).outstanding == multiset{t} && !Get(sent.requests, slot).triggered;
    assert PcOf(sent, t) == Waiting(slot, ps, Failed);
    var replied := Step(sent, Reply(t, slot, Ok));
    assert Get(replied.requests, slot).outstanding == multiset{} && Get(replied.requests, slot).triggered;
    assert PcOf(replied, t).Waiting? && PcOf(replied, t).slot == slot;
    var woken := Step(replied, Wake(t));
    ThreeSteps(s, Advance(t, true), Reply(t, slot, Ok), Wake(t));
    assert woken.log == s.log + [Sent(t, slot, ps), Replied(t, slot, Ok)];
    assert woken.threads == s.threads[t := AfterWait(slot)];
    assert woken.requests == Answered(s.requests, slot);
  }

  // ----- connect -----

  /** The steps of a connect whose snapshot is `ps`. */
  function ConnectActions(t: nat, ps: seq<Param>): seq<Action> {
    [CallConnect(t)] + Exchange(t, ConnectSlot) + [Advance(t, true)]
    + (if ps == [] then [Advance(t, true)] else Exchange(t, SubscribeSlot)) + [Advance(t, true)]
  }

  /** The state `s` with `t` at `pc` in a connect. */
  function ConnectAt(s: State, t: nat, pc: Pc, rs: Requests, events: seq<Event>): State {
    s.(kind := Connecting, flight := Some(t), threads := s.threads[t := pc], requests := rs, log := s.log + events)
  }

  lemma {:induction false} ConnectBegins(s: State, t: nat)
    requires !Busy(PcOf(s, t)) && (s.kind == Disconnected || s.kind == Error)
    ensures Steps(s, [CallConnect(t)]) == ConnectAt(s, t, ConnectBegun, s.requests, [Began(t)])
  {
    OneStep(s, CallConnect(t));
  }

  lemma {:induction false} AtRestQuiet(s: State)
    requires Invariant(s) && s.kind != Connecting && s.kind != Disconnecting
    ensures s.flight == None && forall slot :: Quiet(Get(s.requests, slot))
  {
    NoFlight(s);
  }

  lemma {:induction false} ConnectGreets(s: State, t: nat, rs: Requests, events: seq<Event>)
    requires Quiet(rs.connect)
    ensures Steps(ConnectAt(s, t, ConnectBegun, rs, events), Exchange(t, ConnectSlot)) ==
            ConnectAt(s, t, ConnectAcked, Answered(rs, ConnectSlot), events + Acknowledged(t, ConnectSlot, []))
  {
    var begun := ConnectAt(s, t, ConnectBegun, rs, events);
    Exchanges(begun, t, ConnectSlot, []);
    assert s.log + events + Acknowledged(t, ConnectSlot, []) == s.log + (events + Acknowledged(t, ConnectSlot, []));
    assert s.threads[t := ConnectBegun][t := ConnectAcked] == s.threads[t := ConnectAcked];
  }

  lemma {:induction false} ConnectSnaps(s: State, t: nat, rs: Requests, events: seq<Event>)
    ensures Steps(ConnectAt(s, t, ConnectAcked, rs, events), [Advance(t, true)]) ==
            ConnectAt(s, t, Snapped(s.params), rs, events + [Snapshot(t, s.params)])
  {
    OneStep(ConnectAt(s, t, ConnectAcked, rs, events), Advance(t, true));
    assert s.log + events + [Snapshot(t, s.params)] == s.log + (events + [Snapshot(t, s.params)]);
    assert s.threads[t := ConnectAcked][t := Snapped(s.params)] == s.threads[t := Snapped(s.params)];
  }

  lemma {:induction false} ConnectSubscribes(s: State, t: nat, rs: Requests, events: seq<Event>, ps: seq<Param>)
    requires Quiet(rs.subscribe)
    ensures Steps(ConnectAt(s, t, Snapped(ps), rs, events),
                  if ps == [] then [Advance(t, true)] else Exchange(t, SubscribeSlot)) ==
            ConnectAt(s, t, Submitted, if ps == [] then rs else Answered(rs, SubscribeSlot),
                     events + Acknowledged(t, SubscribeSlot, ps))
  {
    var snapped := ConnectAt(s, t, Snapped(ps), rs, events);
    assert s.threads[t := Snapped(ps)][t := Submitted] == s.threads[t := Submitted];
    assert s.log + events + Acknowledged(t, SubscribeSlot, ps) == s.log + (events + Acknowledged(t, SubscribeSlot, ps));
    if ps == [] {
      OneStep(snapped, Advance(t, true));
    } else {
      Exchanges(snapped, t, SubscribeSlot, ps);
    }
  }

  lemma {:induction false} ConnectEnds(s: State, t: nat, rs: Requests, events: seq<Event>)
    ensures Steps(ConnectAt(s, t, Submitted, rs, events), [Advance(t, true)]) ==
            ConnectAt(s, t, Returned(Ok), rs, events + [EnteredConnected(t)]).(kind := Connected, flight := None)
  {
    OneStep(ConnectAt(s, t, Submitted, rs, events), Advance(t, true));
    assert s.log + events + [EnteredConnected(t)] == s.log + (events + [EnteredConnected(t)]);
    assert s.threads[t := Submitted][t := Returned(Ok)] == s.threads[t := Returned(Ok)];
  }

  /**
   From every state at rest in DISCONNECTED or ERROR, and whatever parameters are cached, the
   undisturbed connect of any idle thread returns OK and leaves the client CONNECTED, with the complete
   handshake logged.  Nothing else changes but the result of the connect request.
   */
  lemma {:induction false} ConnectSucceeds(s: State, t: nat)
    requires Invariant(s) && !Busy(PcOf(s, t)) && (s.kind == Disconnected || s.kind == Error)
    ensures Steps(s, ConnectActions(t, s.params)) ==
            s.(kind := Connected, flight := None, threads := s.threads[t := Returned(Ok)],
               requests := s.requests.(connect := Request(multiset{}, false, Ok)),
               log := s.log + (ConnectLog(t, s.params) + [EnteredConnected(t)]))
  {
    hide Invariant, Step, Steps, ConnectLog, Acknowledged;
    AtRestQuiet(s);
    var ps, rs := s.params, Answered(s.requests, ConnectSlot);
    var begun, hello := [CallConnect(t)], Exchange(t, ConnectSlot);
    var submit := if ps == [] then [Advance(t, true)] else Exchange(t, SubscribeSlot);
    var greeted := [Began(t)] + Acknowledged(t, ConnectSlot, []);
    var snapped := greeted + [Snapshot(t, ps)];
    ConnectBegins(s, t);
    assert Quiet(Get(s.requests, ConnectSlot)) && Quiet(Get(s.requests, SubscribeSlot));
    ConnectGreets(s, t, s.requests, [Began(t)]);
    StepsTogether(s, begun, hello);
    ConnectSnaps(s, t, rs, greeted);
    StepsTogether(s, begun + hello, [Advance(t, true)]);
    ConnectSubscribes(s, t, rs, snapped, ps);
    StepsTogether(s, begun + hello + [Advance(t, true)], submit);
    var rs' := if ps == [] then rs else Answered(rs, SubscribeSlot);
    ConnectEnds(s, t, rs', snapped + Acknowledged(t, SubscribeSlot, ps));
    StepsTogether(s, begun + hello + [Advance(t, true)] + submit, [Advance(t, true)]);
    ConnectLogIs(t, ps);
    SubscribeUnchanged(rs);
  }

  lemma {:induction false} ConnectLogIs(t: nat, ps: seq<Param>)
    ensures ConnectLog(t, ps) ==
            [Began(t)] + Acknowledged(t, ConnectSlot, []) + [Snapshot(t, ps)] + Acknowledged(t, SubscribeSlot, ps)
  {
  }

  /** The answer to a subscribe request goes to the caller's copy. */
  lemma {:induction false} SubscribeUnchanged(rs: Requests)
    ensures Quiet(rs.subscribe) ==> Answered(rs, SubscribeSlot) == rs
    ensures Quiet(rs.cancel) ==> Answered(rs, CancelSlot) == rs
  {
  }

  // ----- disconnect -----

  /** The steps of a disconnect whose snapshot is `ps`. */
  function DisconnectActions(t: nat, unsubscribe: bool, ps: seq<Param>): seq<Action> {
    [CallDisconnect(t), Advance(t, true)]
    + (if !unsubscribe then [] else if ps == [] then [Advance(t, true)] else Exchange(t, CancelSlot))
    + Exchange(t, DisconnectSlot) + [Advance(t, true)]
  }

  function DisconnectAt(s: State, t: nat, pc: Pc, rs: Requests, events: seq<Event>): State {
    s.(kind := Disconnecting, flight := Some(t), threads := s.threads[t := pc], requests := rs, log := s.log + events)
  }

  lemma {:induction false} DisconnectBegins(s: State, t: nat)
    requires !Busy(PcOf(s, t)) && (s.kind == Connected || s.kind == Error)
    ensures Steps(s, [CallDisconnect(t), Advance(t, true)]) ==
            if s.unsubscribe then
              DisconnectAt(s, t, CancelSnapped(s.params), s.requests, [DisconnectStarted(t), Snapshot(t, s.params)])
            else DisconnectAt(s, t, Cancelled, s.requests, [DisconnectStarted(t)])
  {
    var begun := Step(s, CallDisconnect(t));
    assert begun == DisconnectAt(s, t, DisconnectBegun, s.requests, [DisconnectStarted(t)]);
    StepsTogether(s, [CallDisconnect(t)], [Advance(t, true)]);
    assert [CallDisconnect(t)] + [Advance(t, true)] == [CallDisconnect(t), Advance(t, true)];
    OneStep(s, CallDisconnect(t));
    OneStep(begun, Advance(t, true));
    var log := s.log + [DisconnectStarted(t)];
    assert log + [Snapshot(t, s.params)] == s.log + [DisconnectStarted(t), Snapshot(t, s.params)];
    var next := if s.unsubscribe then CancelSnapped(s.params) else Cancelled;
    assert s.threads[t := DisconnectBegun][t := next] == s.threads[t := next];
  }

  lemma {:induction false} DisconnectCancels(s: State, t: nat, rs: Requests, events: seq<Event>, ps: seq<Param>)
    requires Quiet(rs.cancel)
    ensures Steps(DisconnectAt(s, t, CancelSnapped(ps), rs, events),
                  if ps == [] then [Advance(t, true)] else Exchange(t, CancelSlot)) ==
            DisconnectAt(s, t, Cancelled, rs, events + Acknowledged(t, CancelSlot, ps))
  {
    var snapped := DisconnectAt(s, t, CancelSnapped(ps), rs, events);
    assert s.threads[t := CancelSnapped(ps)][t := Cancelled] == s.threads[t := Cancelled];
    assert s.log + events + Acknowledged(t, CancelSlot, ps) == s.log + (events + Acknowledged(t, CancelSlot, ps));
    SubscribeUnchanged(rs);
    if ps == [] {
      OneStep(snapped, Advance(t, true));
    } else {
      Exchanges(snapped, t, CancelSlot, ps);
    }
  }

  lemma {:induction false} DisconnectLeaves(s: State, t: nat, rs: Requests, events: seq<Event>)
    requires Quiet(rs.disconnect)
    ensures Steps(DisconnectAt(s, t, Cancelled, rs, events), Exchange(t, DisconnectSlot)) ==
            DisconnectAt(s, t, DisconnectAcked, Answered(rs, DisconnectSlot),
                        events + Acknowledged(t, DisconnectSlot, []))
  {
    var cancelled := DisconnectAt(s, t, Cancelled, rs, events);
    Exchanges(cancelled, t, DisconnectSlot, []);
    assert s.log + events + Acknowledged(t, DisconnectSlot, [])
        == s.log + (events + Acknowledged(t, DisconnectSlot, []));
    assert s.threads[t := Cancelled][t := DisconnectAcked] == s.threads[t := DisconnectAcked];
  }

  lemma {:induction false} DisconnectEnds(s: State, t: nat, rs: Requests, events: seq<Event>)
    ensures Steps(DisconnectAt(s, t, DisconnectAcked, rs, events), [Advance(t, true)]) ==
            DisconnectAt(s, t, Returned(Ok), rs, events + [EnteredDisconnected(t)])
              .(kind := Disconnected, flight := None)
  {
    OneStep(DisconnectAt(s, t, DisconnectAcked, rs, events), Advance(t, true));
    assert s.log + events + [EnteredDisconnected(t)] == s.log + (events + [EnteredDisconnected(t)]);
    assert s.threads[t := DisconnectAcked][t := Returned(Ok)] == s.threads[t := Returned(Ok)];
  }

  /**
   From every state at rest in CONNECTED or ERROR the undisturbed disconnect of any idle thread returns
   OK and leaves the client DISCONNECTED, with or without cancelling the subscriptions first.
   */
  lemma {:induction false} DisconnectSucceeds(s: State, t: nat)
    requires Invariant(s) && !Busy(PcOf(s, t)) && (s.kind == Connected || s.kind == Error)
    ensures Steps(s, DisconnectActions(t, s.unsubscribe, s.params)) ==
            s.(kind := Disconnected, flight := None, threads := s.threads[t := Returned(Ok)],
               requests := s.requests.(disconnect := Request(multiset{}, false, Ok)),
               log := s.log + (DisconnectLog(t, s.unsubscribe, s.params) + [EnteredDisconnected(t)]))
  {
    hide Invariant, Step, Steps, DisconnectLog, Acknowledged, CancelLog;
    AtRestQuiet(s);
    var ps, rs := s.params, s.requests;
    assert Quiet(Get(rs, CancelSlot)) && Quiet(Get(rs, DisconnectSlot));
    var begun := [CallDisconnect(t), Advance(t, true)];
    var cancel := if !s.unsubscribe then [] else if ps == [] then [Advance(t, true)] else Exchange(t, CancelSlot);
    DisconnectBegins(s, t);
    StepsTogether(s, begun, cancel);
    if s.unsubscribe {
      DisconnectCancels(s, t, rs, [DisconnectStarted(t), Snapshot(t, ps)], ps);
    } else {
      NoSteps(Steps(s, begun));
    }
    DisconnectLogIs(t, s.unsubscribe, ps);
    DisconnectLeaves(s, t, rs, CancelLog(t, s.unsubscribe, ps));
    StepsTogether(s, begun + cancel, Exchange(t, DisconnectSlot));
    DisconnectEnds(s, t, Answered(rs, DisconnectSlot), DisconnectLog(t, s.unsubscribe, ps));
    StepsTogether(s, begun + cancel + Exchange(t, DisconnectSlot), [Advance(t, true)]);
  }

  lemma {:induction false} NoSteps(s: State)
    ensures Steps(s, []) == s
  {
  }

  lemma {:induction false} DisconnectLogIs(t: nat, unsubscribe: bool, ps: seq<Param>)
    ensures DisconnectLog(t, unsubscribe, ps) == CancelLog(t, unsubscribe, ps) + Acknowledged(t, DisconnectSlot, [])
    ensures CancelLog(t, true, ps) == [DisconnectStarted(t), Snapshot(t, ps)] + Acknowledged(t, CancelSlot, ps)
    ensures CancelLog(t, false, ps) == [DisconnectStarted(t)]
  {
  }

  /** In every calm run that is at rest, so after any history of handshakes. */
  lemma {:induction false} ReconnectsAfterAnyRun(unsubscribe: bool, actions: seq<Action>, t: nat)
    requires Calm(unsubscribe, actions)
    ensures var s := Run(unsubscribe, actions);
            && ((s.kind == Disconnected || s.kind == Error) && !Busy(PcOf(s, t)) ==>
                  var r := Run(unsubscribe, actions + ConnectActions(t, s.params));
                  r.kind == Connected && PcOf(r, t) == Returned(Ok))
            && ((s.kind == Connected || s.kind == Error) && !Busy(PcOf(s, t)) ==>
                  var r := Run(unsubscribe, actions + DisconnectActions(t, s.unsubscribe, s.params));
                  r.kind == Disconnected && PcOf(r, t) == Returned(Ok))
  {
    hide Invariant, Step, Steps, Run, ConnectActions, DisconnectActions;
    RunKeeps(unsubscribe, actions);
    var s := Run(unsubscribe, actions);
    if (s.kind == Disconnected || s.kind == Error) && !Busy(PcOf(s, t)) {
      ConnectSucceeds(s, t);
      RunSteps(unsubscribe, actions, ConnectActions(t, s.params));
    }
    if (s.kind == Connected || s.kind == Error) && !Busy(PcOf(s, t)) {
      DisconnectSucceeds(s, t);
      RunSteps(unsubscribe, actions, DisconnectActions(t, s.unsubscribe, s.params));
    }
  }

  /** A call that has nothing to do returns OK, one that would disturb a handshake fails; neither changes more. */
  lemma {:induction false} AnsweredAtOnce(s: State, t: nat)
    requires !Busy(PcOf(s, t))
    ensures s.kind == Connected ==> Step(s, CallConnect(t)) == s.(threads := s.threads[t := Returned(Ok)])
    ensures s.kind == Disconnected ==> Step(s, CallDisconnect(t)) == s.(threads := s.threads[t := Returned(Ok)])
    ensures s.kind == Connecting || s.kind == Disconnecting ==>
              && Step(s, CallConnect(t)) == s.(threads := s.threads[t := Returned(Failed)])
              && Step(s, CallDisconnect(t)) == s.(threads := s.threads[t := Returned(Failed)])
  {
  }
}
