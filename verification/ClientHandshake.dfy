/**
 The MQTT client's connection protocol as a state machine.  Any number of threads call connect and
 disconnect; each call is a sequence of steps between which other threads, broker replies, timeouts,
 a lost connection, errors and changes of the cached subscription parameters interleave.  A step that
 is not enabled changes nothing, so every list of actions is a run.
 */
module ClientHandshake {
  import opened Wrappers

  datatype Kind = Connected | Connecting | Disconnected | Disconnecting | Error

  datatype Result = Ok | Failed

  datatype Param = Param(filter: string, maxQos: nat)

  /** The four requests of a client, each a level-triggered condition with a result. */
  datatype Slot = ConnectSlot | SubscribeSlot | CancelSlot | DisconnectSlot

  /** `outstanding` holds the callers whose submissions the broker has not replied to. */
  datatype Request = Request(outstanding: multiset<nat>, triggered: bool, result: Result)

  datatype Requests = Requests(connect: Request, subscribe: Request, cancel: Request, disconnect: Request)

  /**
   Where a thread is in its call.  The subscribe and cancel requests are copied into the call, so
   their result is the caller's own; the condition is shared.
   */
  datatype Pc =
    | Idle
    | ConnectBegun
    | ConnectAcked
    | Snapped(ps: seq<Param>)
    | Submitted
    | DisconnectBegun
    | CancelSnapped(ps: seq<Param>)
    | Cancelled
    | DisconnectAcked
    | Waiting(slot: Slot, ps: seq<Param>, own: Result)
    | Returned(result: Result)

  datatype Event =
    | Began(t: nat)
    | Sent(t: nat, slot: Slot, ps: seq<Param>)
    | Replied(t: nat, slot: Slot, result: Result)
    | Snapshot(t: nat, ps: seq<Param>)
    | EnteredConnected(t: nat)
    | DisconnectStarted(t: nat)
    | EnteredDisconnected(t: nat)
    | ParamsChanged(ps: seq<Param>)
    | ConnectionLost
    | Faulted

  /**
   `losing` counts the handlers of a lost connection that have found the client connected and not yet
   set its state.  `flight` is the thread whose handshake is in flight; it only records what the
   threads do.
   */
  datatype State = State(
    kind: Kind,
    threads: map<nat, Pc>,
    requests: Requests,
    params: seq<Param>,
    unsubscribe: bool,
    losing: nat,
    flight: Option<nat>,
    log: seq<Event>)

  const NEW := Request(multiset{}, false, Failed)

  function Initial(unsubscribe: bool): State {
    State(Disconnected, map[], Requests(NEW, NEW, NEW, NEW), [], unsubscribe, 0, None, [])
  }

  function PcOf(s: State, t: nat): Pc {
    if t in s.threads then s.threads[t] else Idle
  }

  function Get(rs: Requests, slot: Slot): Request {
    match slot
    case ConnectSlot => rs.connect
    case SubscribeSlot => rs.subscribe
    case CancelSlot => rs.cancel
    case DisconnectSlot => rs.disconnect
  }

  function Put(rs: Requests, slot: Slot, r: Request): Requests {
    match slot
    case ConnectSlot => rs.(connect := r)
    case SubscribeSlot => rs.(subscribe := r)
    case CancelSlot => rs.(cancel := r)
    case DisconnectSlot => rs.(disconnect := r)
  }

  // ----- the steps -----

  datatype Action =
    | CallConnect(t: nat)
    | CallDisconnect(t: nat)
    | Advance(t: nat, accepted: bool)      // `accepted`: what the MQTT library answers to a submission
    | Wake(t: nat)
    | Timeout(t: nat)
    | Reply(t: nat, slot: Slot, result: Result)
    | ChangeParams(ps: seq<Param>)
    | CheckLost   // the handler of a lost connection finds the client connected
    | SetLost     // and then, in another critical section, makes it disconnected
    | Fault       // a message cannot be delivered, and the client enters ERROR

  function Moved(s: State, t: nat, pc: Pc): State {
    s.(threads := s.threads[t := pc])
  }

  function Logged(s: State, e: Event): State {
    s.(log := s.log + [e])
  }

  /** A call that goes wrong returns and leaves the client state as it is. */
  function Fail(s: State, t: nat): State {
    Moved(s, t, Returned(Failed)).(flight := None)
  }

  /** The first critical section of connect. */
  function CallConnectStep(s: State, t: nat): State {
    if !PcOf(s, t).Idle? && !PcOf(s, t).Returned? then s
    else if s.kind == Connected then Moved(s, t, Returned(Ok))
    else if s.kind == Connecting || s.kind == Disconnecting then Moved(s, t, Returned(Failed))
    else Logged(Moved(s, t, ConnectBegun).(kind := Connecting, flight := Some(t)), Began(t))
  }

  /** The first critical section of disconnect. */
  function CallDisconnectStep(s: State, t: nat): State {
    if !PcOf(s, t).Idle? && !PcOf(s, t).Returned? then s
    else if s.kind == Disconnected then Moved(s, t, Returned(Ok))
    else if s.kind == Connecting || s.kind == Disconnecting then Moved(s, t, Returned(Failed))
    else Logged(Moved(s, t, DisconnectBegun).(kind := Disconnecting, flight := Some(t)), DisconnectStarted(t))
  }

  /** Hands a request to the MQTT library. */
  function Submit(s: State, t: nat, slot: Slot, ps: seq<Param>, accepted: bool): State {
    if !accepted then Fail(s, t)
    else
      var r := Get(s.requests, slot);
      Logged(Moved(s, t, Waiting(slot, ps, Failed)), Sent(t, slot, ps))
        .(requests := Put(s.requests, slot, r.(outstanding := r.outstanding + multiset{t})))
  }

  function AdvanceStep(s: State, t: nat, accepted: bool): State {
    match PcOf(s, t)
    case ConnectBegun => Submit(s, t, ConnectSlot, [], accepted)
    case ConnectAcked => Logged(Moved(s, t, Snapped(s.params)), Snapshot(t, s.params))
    case Snapped(ps) => if ps == [] then Moved(s, t, Submitted) else Submit(s, t, SubscribeSlot, ps, accepted)
    case Submitted =>
      Logged(Moved(s, t, Returned(Ok)).(kind := Connected, flight := None), EnteredConnected(t))
    case DisconnectBegun =>
      if s.unsubscribe then Logged(Moved(s, t, CancelSnapped(s.params)), Snapshot(t, s.params))
      else Moved(s, t, Cancelled)
    case CancelSnapped(ps) => if ps == [] then Moved(s, t, Cancelled) else Submit(s, t, CancelSlot, ps, accepted)
    case Cancelled => Submit(s, t, DisconnectSlot, [], accepted)
    case DisconnectAcked =>
      Logged(Moved(s, t, Returned(Ok)).(kind := Disconnected, flight := None), EnteredDisconnected(t))
    case _ => s
  }

  function AfterWait(slot: Slot): Pc {
    match slot
    case ConnectSlot => ConnectAcked
    case SubscribeSlot => Submitted
    case CancelSlot => Cancelled
    case DisconnectSlot => DisconnectAcked
  }

  predicate Copied(slot: Slot) {
    slot == SubscribeSlot || slot == CancelSlot
  }

  /** A waiter finds its condition triggered, clears it and takes the result. */
  function WakeStep(s: State, t: nat): State {
    var pc := PcOf(s, t);
    if pc.Waiting? && Get(s.requests, pc.slot).triggered then
      var r := Get(s.requests, pc.slot);
      var s' := s.(requests := Put(s.requests, pc.slot, r.(triggered := false)));
      if (if Copied(pc.slot) then pc.own else r.result) == Ok then Moved(s', t, AfterWait(pc.slot)) else Fail(s', t)
    else s
  }

  function TimeoutStep(s: State, t: nat): State {
    if PcOf(s, t).Waiting? then Fail(s, t) else s
  }

  /** The broker replies, once, to a submission of `t`; the caller may have given up long ago. */
  function ReplyStep(s: State, t: nat, slot: Slot, result: Result): State {
    var r := Get(s.requests, slot);
    if t in r.outstanding then
      var r' := Request(r.outstanding - multiset{t}, true, if Copied(slot) then r.result else result);
      var s' := Logged(s, Replied(t, slot, result)).(requests := Put(s.requests, slot, r'));
      var pc := PcOf(s, t);
      if Copied(slot) && pc.Waiting? && pc.slot == slot then Moved(s', t, pc.(own := result)) else s'
    else s
  }

  function Step(s: State, a: Action): State {
    match a
    case CallConnect(t) => CallConnectStep(s, t)
    case CallDisconnect(t) => CallDisconnectStep(s, t)
    case Advance(t, accepted) => AdvanceStep(s, t, accepted)
    case Wake(t) => WakeStep(s, t)
    case Timeout(t) => TimeoutStep(s, t)
    case Reply(t, slot, result) => ReplyStep(s, t, slot, result)
    case ChangeParams(ps) => Logged(s, ParamsChanged(ps)).(params := ps)
    case CheckLost => if s.kind == Connected then s.(losing := s.losing + 1) else s
    case SetLost =>
      if s.losing == 0 then s else Logged(s, ConnectionLost).(kind := Disconnected, losing := s.losing - 1)
    case Fault => Logged(s, Faulted).(kind := Error)
  }

  function Run(unsubscribe: bool, actions: seq<Action>): State
    decreases |actions|
  {
    if actions == [] then Initial(unsubscribe)
    else Step(Run(unsubscribe, actions[..|actions| - 1]), actions[|actions| - 1])
  }

  // ----- what the log says -----

  /** The log without the changes of the cached parameters. */
  function Handshakes(log: seq<Event>): seq<Event>
    decreases |log|
  {
    if log == [] then [] else
      var before := Handshakes(log[..|log| - 1]);
      if log[|log| - 1].ParamsChanged? then before else before + [log[|log| - 1]]
  }

  /** The cached parameters after the logged events. */
  function CachedAt(log: seq<Event>): seq<Param>
    decreases |log|
  {
    if log == [] then [] else if log[|log| - 1].ParamsChanged? then log[|log| - 1].ps else CachedAt(log[..|log| - 1])
  }

  /** Every snapshot is of the parameters cached at that moment. */
  ghost predicate Fresh(log: seq<Event>) {
    forall i :: 0 <= i < |log| && log[i].Snapshot? ==> log[i].ps == CachedAt(log[..i])
  }

  /** A submission of `ps` and its successful reply; nothing is submitted for an empty list. */
  function Acknowledged(t: nat, slot: Slot, ps: seq<Param>): seq<Event> {
    if Copied(slot) && ps == [] then [] else [Sent(t, slot, ps), Replied(t, slot, Ok)]
  }

  /** A complete connect handshake of `t` that submitted the snapshot `ps`. */
  function ConnectLog(t: nat, ps: seq<Param>): seq<Event> {
    [Began(t)] + Acknowledged(t, ConnectSlot, []) + [Snapshot(t, ps)] + Acknowledged(t, SubscribeSlot, ps)
  }

  function CancelLog(t: nat, unsubscribe: bool, ps: seq<Param>): seq<Event> {
    [DisconnectStarted(t)] + if unsubscribe then [Snapshot(t, ps)] + Acknowledged(t, CancelSlot, ps) else []
  }

  function DisconnectLog(t: nat, unsubscribe: bool, ps: seq<Param>): seq<Event> {
    CancelLog(t, unsubscribe, ps) + Acknowledged(t, DisconnectSlot, [])
  }

  ghost predicate EndsWith(h: seq<Event>, tail: seq<Event>) {
    |tail| <= |h| && h[|h| - |tail|..] == tail
  }

  ghost predicate ConnectedRightly(h: seq<Event>, t: nat) {
    exists ps :: EndsWith(h, ConnectLog(t, ps))
  }

  ghost predicate DisconnectedRightly(h: seq<Event>, t: nat, unsubscribe: bool) {
    exists ps :: EndsWith(h, DisconnectLog(t, unsubscribe, ps))
  }

  /** Each entry into CONNECTED and DISCONNECTED follows its complete handshake. */
  ghost predicate Justified(h: seq<Event>, unsubscribe: bool) {
    forall i :: 0 <= i < |h| ==>
      && (h[i].EnteredConnected? ==> ConnectedRightly(h[..i], h[i].t))
      && (h[i].EnteredDisconnected? ==> DisconnectedRightly(h[..i], h[i].t, unsubscribe))
  }

  // ----- the invariant -----

  predicate Busy(pc: Pc) {
    !pc.Idle? && !pc.Returned?
  }

  predicate Connects(pc: Pc) {
    || pc.ConnectBegun? || pc.ConnectAcked? || pc.Snapped? || pc.Submitted?
    || (pc.Waiting? && (pc.slot == ConnectSlot || pc.slot == SubscribeSlot))
  }

  predicate Quiet(r: Request) {
    r.outstanding == multiset{} && !r.triggered
  }

  /** One reply is owed, or it is in and not yet taken. */
  predicate Awaited(r: Request, t: nat) {
    if r.triggered then r.outstanding == multiset{} else r.outstanding == multiset{t}
  }

  /** All requests are quiet but the one `t` waits for. */
  ghost predicate OnlyAwaits(rs: Requests, t: nat, pc: Pc) {
    forall slot :: if pc.Waiting? && pc.slot == slot then Awaited(Get(rs, slot), t) else Quiet(Get(rs, slot))
  }

  /** What a request waited for has logged so far. */
  function WaitLog(rs: Requests, t: nat, pc: Pc): seq<Event>
    requires pc.Waiting?
  {
    var r := Get(rs, pc.slot);
    [Sent(t, pc.slot, pc.ps)]
    + if r.triggered then [Replied(t, pc.slot, if Copied(pc.slot) then pc.own else r.result)] else []
  }

  /** The log of the handshake in flight, up to where its thread is; `ps` is its snapshot. */
  function FlightLog(s: State, t: nat, ps: seq<Param>): seq<Event> {
    var pc := PcOf(s, t);
    match pc
    case ConnectBegun => [Began(t)]
    case ConnectAcked => [Began(t)] + Acknowledged(t, ConnectSlot, [])
    case Snapped(_) => [Began(t)] + Acknowledged(t, ConnectSlot, []) + [Snapshot(t, ps)]
    case Submitted => ConnectLog(t, ps)
    case DisconnectBegun => [DisconnectStarted(t)]
    case CancelSnapped(_) => [DisconnectStarted(t), Snapshot(t, ps)]
    case Cancelled => CancelLog(t, s.unsubscribe, ps)
    case DisconnectAcked => DisconnectLog(t, s.unsubscribe, ps)
    case Waiting(slot, _, _) => SentAfter(s.unsubscribe, t, slot, ps) + WaitLog(s.requests, t, pc)
    case _ => []
  }

  /** The log of a handshake when it submits `slot`. */
  function SentAfter(unsubscribe: bool, t: nat, slot: Slot, ps: seq<Param>): seq<Event> {
    match slot
    case ConnectSlot => [Began(t)]
    case SubscribeSlot => [Began(t)] + Acknowledged(t, ConnectSlot, []) + [Snapshot(t, ps)]
    case CancelSlot => [DisconnectStarted(t), Snapshot(t, ps)]
    case DisconnectSlot => CancelLog(t, unsubscribe, ps)
  }

  predicate CarriesSnapshot(pc: Pc, unsubscribe: bool, ps: seq<Param>) {
    match pc
    case Snapped(qs) => qs == ps
    case CancelSnapped(qs) => unsubscribe && qs == ps
    case Waiting(slot, qs, _) =>
      if Copied(slot) then qs == ps && ps != [] && (slot == CancelSlot ==> unsubscribe) else qs == []
    case _ => true
  }

  ghost predicate InFlight(s: State, t: nat, ps: seq<Param>) {
    var pc := PcOf(s, t);
    && s.kind == (if Connects(pc) then Connecting else Disconnecting)
    && OnlyAwaits(s.requests, t, pc)
    && CarriesSnapshot(pc, s.unsubscribe, ps)
    && EndsWith(Handshakes(s.log), FlightLog(s, t, ps))
  }

  /** At rest, the client state is what the last handshake, lost connection or error made it. */
  ghost predicate AtRest(s: State) {
    var h := Handshakes(s.log);
    && (forall slot :: Quiet(Get(s.requests, slot)))
    && (s.kind == Connected ==> h != [] && h[|h| - 1].EnteredConnected?)
    && (s.kind == Disconnected ==> h == [] || h[|h| - 1].EnteredDisconnected? || h[|h| - 1].ConnectionLost?)
    && (s.kind == Error ==> h != [] && h[|h| - 1].Faulted?)
  }

  ghost predicate OneFlight(s: State) {
    forall t: nat :: Busy(PcOf(s, t)) <==> s.flight == Some(t)
  }

  ghost predicate Invariant(s: State) {
    && OneFlight(s)
    && s.params == CachedAt(s.log) && Fresh(s.log)
    && Justified(Handshakes(s.log), s.unsubscribe)
    && (s.flight.Some? ==> exists ps :: InFlight(s, s.flight.value, ps))
    && (s.flight.None? && s.kind != Connecting && s.kind != Disconnecting ==> AtRest(s))
  }

  // ----- every step keeps the invariant -----

  lemma {:induction false} LogAdds(log: seq<Event>, e: Event)
    ensures Handshakes(log + [e]) == if e.ParamsChanged? then Handshakes(log) else Handshakes(log) + [e]
    ensures CachedAt(log + [e]) == if e.ParamsChanged? then e.ps else CachedAt(log)
    ensures Fresh(log) && (e.Snapshot? ==> e.ps == CachedAt(log)) ==> Fresh(log + [e])
  {
    var longer := log + [e];
    assert longer[..|longer| - 1] == log;
    if Fresh(log) && (e.Snapshot? ==> e.ps == CachedAt(log)) {
      forall i | 0 <= i < |longer| && longer[i].Snapshot?
        ensures longer[i].ps == CachedAt(longer[..i])
      {
        assert longer[..i] == log[..i];
      }
    }
  }

  lemma {:induction false} JustifiedAdds(h: seq<Event>, e: Event, unsubscribe: bool)
    requires Justified(h, unsubscribe)
    requires e.EnteredConnected? ==> ConnectedRightly(h, e.t)
    requires e.EnteredDisconnected? ==> DisconnectedRightly(h, e.t, unsubscribe)
    ensures Justified(h + [e], unsubscribe)
  {
    hide ConnectedRightly, DisconnectedRightly;
    var longer := h + [e];
    forall i | 0 <= i < |longer|
      ensures longer[i].EnteredConnected? ==> ConnectedRightly(longer[..i], longer[i].t)
      ensures longer[i].EnteredDisconnected? ==> DisconnectedRightly(longer[..i], longer[i].t, unsubscribe)
    {
      assert longer[..i] == h[..i];
      assert i == |h| ==> h[..i] == h;
    }
  }

  lemma {:induction false} EndsAdds(h: seq<Event>, tail: seq<Event>, e: Event)
    requires EndsWith(h, tail)
    ensures EndsWith(h + [e], tail + [e])
  {
    assert (h + [e])[|h| - |tail|..] == h[|h| - |tail|..] + [e];
  }

  /** What one more event does to the parts of the invariant about the log. */
  lemma {:induction false} LoggedKeeps(s: State, e: Event)
    requires Fresh(s.log) && s.params == CachedAt(s.log) && Justified(Handshakes(s.log), s.unsubscribe)
    requires !e.ParamsChanged? && (e.Snapshot? ==> e.ps == s.params)
    requires e.EnteredConnected? ==> ConnectedRightly(Handshakes(s.log), e.t)
    requires e.EnteredDisconnected? ==> DisconnectedRightly(Handshakes(s.log), e.t, s.unsubscribe)
    ensures var log := s.log + [e];
            && Fresh(log) && s.params == CachedAt(log) && Justified(Handshakes(log), s.unsubscribe)
            && Handshakes(log) == Handshakes(s.log) + [e]
  {
    LogAdds(s.log, e);
    JustifiedAdds(Handshakes(s.log), e, s.unsubscribe);
  }

  lemma {:induction false} PutGet(rs: Requests, slot: Slot, r: Request)
    ensures forall other :: Get(Put(rs, slot, r), other) == if other == slot then r else Get(rs, other)
  {
  }

  lemma {:induction false} MovedFlight(s: State, s': State, t: nat)
    requires OneFlight(s) && t in s'.threads && s'.threads == s.threads[t := s'.threads[t]]
    requires s.flight == None || s.flight == Some(t)
    requires s'.flight == if Busy(s'.threads[t]) then Some(t) else None
    ensures OneFlight(s')
  {
    forall u: nat
      ensures Busy(PcOf(s', u)) <==> s'.flight == Some(u)
    {
      assert Busy(PcOf(s, u)) <==> s.flight == Some(u);
      assert u != t ==> PcOf(s', u) == PcOf(s, u);
    }
  }

  lemma {:induction false} FailKeeps(s: State, t: nat)
    requires OneFlight(s) && s.flight == Some(t)
    requires s.kind == Connecting || s.kind == Disconnecting
    requires s.params == CachedAt(s.log) && Fresh(s.log) && Justified(Handshakes(s.log), s.unsubscribe)
    ensures Invariant(Fail(s, t))
  {
    MovedFlight(s, Fail(s, t), t);
  }

  lemma {:induction false} SubmitKeeps(s: State, t: nat, slot: Slot, qs: seq<Param>, ps: seq<Param>, accepted: bool)
    requires Invariant(s) && s.flight == Some(t)
    requires s.kind == if slot == ConnectSlot || slot == SubscribeSlot then Connecting else Disconnecting
    requires forall other :: Quiet(Get(s.requests, other))
    requires CarriesSnapshot(Waiting(slot, qs, Failed), s.unsubscribe, ps)
    requires EndsWith(Handshakes(s.log), SentAfter(s.unsubscribe, t, slot, ps))
    ensures Invariant(Submit(s, t, slot, qs, accepted))
  {
    hide Fresh, CachedAt, Handshakes, Justified, SentAfter;
    if !accepted {
      FailKeeps(s, t);
    } else {
      var s' := Submit(s, t, slot, qs, accepted);
      var e := Sent(t, slot, qs);
      LoggedKeeps(s, e);
      MovedFlight(s, s', t);
      EndsAdds(Handshakes(s.log), SentAfter(s.unsubscribe, t, slot, ps), e);
      assert FlightLog(s', t, ps) == SentAfter(s.unsubscribe, t, slot, ps) + [e];
      var r := Get(s.requests, slot);
      PutGet(s.requests, slot, r.(outstanding := r.outstanding + multiset{t}));
      assert Quiet(r) && r.outstanding + multiset{t} == multiset{t};
      assert OnlyAwaits(s'.requests, t, PcOf(s', t));
      assert InFlight(s', t, ps);
    }
  }

  /** A handshake begins only when none is in flight. */
  lemma {:induction false} NoFlight(s: State)
    requires Invariant(s) && s.kind != Connecting && s.kind != Disconnecting
    ensures s.flight == None && forall slot :: Quiet(Get(s.requests, slot))
  {
    hide Fresh, CachedAt, Handshakes, Justified, FlightLog;
    assert forall u: nat :: s.flight == Some(u) ==> exists ps :: InFlight(s, u, ps);
  }

  lemma {:induction false} BeginKeeps(s: State, t: nat, pc: Pc, kind: Kind, e: Event)
    requires Invariant(s) && s.flight == None && (forall slot :: Quiet(Get(s.requests, slot)))
    requires (pc == ConnectBegun && kind == Connecting && e == Began(t)) ||
             (pc == DisconnectBegun && kind == Disconnecting && e == DisconnectStarted(t))
    ensures Invariant(Logged(Moved(s, t, pc).(kind := kind, flight := Some(t)), e))
  {
    hide Fresh, CachedAt, Handshakes, Justified;
    var s' := Logged(Moved(s, t, pc).(kind := kind, flight := Some(t)), e);
    LoggedKeeps(s, e);
    MovedFlight(s, s', t);
    EndsAdds(Handshakes(s.log), [], e);
    assert FlightLog(s', t, []) == [e];
    assert InFlight(s', t, []);
  }

  /** A call that returns at once changes only where its own thread is. */
  lemma {:induction false} AnswerKeeps(s: State, t: nat, result: Result)
    requires Invariant(s) && !Busy(PcOf(s, t))
    ensures Invariant(Moved(s, t, Returned(result)))
  {
    hide Fresh, CachedAt, Handshakes, Justified;
    var s' := Moved(s, t, Returned(result));
    forall u: nat
      ensures Busy(PcOf(s', u)) <==> s'.flight == Some(u)
    {
      assert Busy(PcOf(s, u)) <==> s.flight == Some(u);
      assert u != t ==> PcOf(s', u) == PcOf(s, u);
    }
    if s.flight.Some? {
      var f := s.flight.value;
      var ps :| InFlight(s, f, ps);
      assert f != t && PcOf(s', f) == PcOf(s, f);
      assert FlightLog(s', f, ps) == FlightLog(s, f, ps);
      assert InFlight(s', f, ps);
    }
  }

  lemma {:induction false} CallConnectKeeps(s: State, t: nat)
    requires Invariant(s)
    ensures Invariant(CallConnectStep(s, t))
  {
    hide Invariant, Busy;
    if !Busy(PcOf(s, t)) {
      if s.kind == Disconnected || s.kind == Error {
        NoFlight(s);
        BeginKeeps(s, t, ConnectBegun, Connecting, Began(t));
      } else {
        AnswerKeeps(s, t, if s.kind == Connected then Ok else Failed);
      }
    }
    BusyIs(PcOf(s, t));
  }

  lemma {:induction false} BusyIs(pc: Pc)
    ensures Busy(pc) <==> !pc.Idle? && !pc.Returned?
  {
  }

  lemma {:induction false} CallDisconnectKeeps(s: State, t: nat)
    requires Invariant(s)
    ensures Invariant(CallDisconnectStep(s, t))
  {
    hide Invariant, Busy;
    if !Busy(PcOf(s, t)) {
      if s.kind == Connected || s.kind == Error {
        NoFlight(s);
        BeginKeeps(s, t, DisconnectBegun, Disconnecting, DisconnectStarted(t));
      } else {
        AnswerKeeps(s, t, if s.kind == Disconnected then Ok else Failed);
      }
    }
    BusyIs(PcOf(s, t));
  }

  /** A step of the handshake in flight that is not a submission. */
  lemma {:induction false} FlightKeeps(s: State, s': State, t: nat, ps: seq<Param>)
    requires Invariant(s) && s.flight == Some(t) && Busy(PcOf(s', t)) && !PcOf(s', t).Waiting?
    requires t in s'.threads && s'.threads == s.threads[t := s'.threads[t]]
    requires s'.flight == Some(t) && s'.unsubscribe == s.unsubscribe && s'.params == s.params && s'.kind == s.kind
    requires forall slot :: Quiet(Get(s'.requests, slot))
    requires s.kind == if Connects(PcOf(s', t)) then Connecting else Disconnecting
    requires CarriesSnapshot(PcOf(s', t), s.unsubscribe, ps)
    requires EndsWith(Handshakes(s'.log), FlightLog(s', t, ps))
    requires Fresh(s'.log) && CachedAt(s'.log) == s.params && Justified(Handshakes(s'.log), s.unsubscribe)
    ensures Invariant(s')
  {
    hide Fresh, CachedAt, Handshakes, Justified, FlightLog;
    MovedFlight(s, s', t);
    assert InFlight(s', t, ps);
  }

  lemma {:induction false} SnapshotKeeps(s: State, t: nat)
    requires Invariant(s) && s.flight == Some(t)
    requires PcOf(s, t).ConnectAcked? || (PcOf(s, t).DisconnectBegun? && s.unsubscribe)
    ensures Invariant(AdvanceStep(s, t, true))
  {
    hide Fresh, CachedAt, Handshakes, Justified;
    var old_ :| InFlight(s, t, old_);
    var ps := s.params;
    var s' := AdvanceStep(s, t, true);
    var e := Snapshot(t, ps);
    LoggedKeeps(s, e);
    EndsAdds(Handshakes(s.log), FlightLog(s, t, old_), e);
    assert FlightLog(s', t, ps) == FlightLog(s, t, old_) + [e];
    FlightKeeps(s, s', t, ps);
  }

  /** The last step of a connect handshake enters CONNECTED. */
  lemma {:induction false} ConnectFinishKeeps(s: State, t: nat)
    requires Invariant(s) && s.flight == Some(t) && PcOf(s, t).Submitted?
    ensures Invariant(AdvanceStep(s, t, true))
  {
    hide Fresh, CachedAt, Handshakes, Justified, EndsWith, ConnectLog;
    var ps :| InFlight(s, t, ps);
    var s' := AdvanceStep(s, t, true);
    assert EndsWith(Handshakes(s.log), ConnectLog(t, ps));
    LoggedKeeps(s, EnteredConnected(t));
    MovedFlight(s, s', t);
    assert AtRest(s');
  }

  lemma {:induction false} DisconnectFinishKeeps(s: State, t: nat)
    requires Invariant(s) && s.flight == Some(t) && PcOf(s, t).DisconnectAcked?
    ensures Invariant(AdvanceStep(s, t, true))
  {
    hide Fresh, CachedAt, Handshakes, Justified, EndsWith, DisconnectLog;
    var ps :| InFlight(s, t, ps);
    var s' := AdvanceStep(s, t, true);
    assert EndsWith(Handshakes(s.log), DisconnectLog(t, s.unsubscribe, ps));
    LoggedKeeps(s, EnteredDisconnected(t));
    MovedFlight(s, s', t);
    assert AtRest(s');
  }

  /** An empty list is not submitted, and there may be nothing to cancel. */
  predicate Skips(pc: Pc, unsubscribe: bool) {
    || (pc.DisconnectBegun? && !unsubscribe)
    || ((pc.Snapped? || pc.CancelSnapped?) && pc.ps == [])
  }

  /** A step that needs no event. */
  lemma {:induction false} SkipKeeps(s: State, t: nat, accepted: bool)
    requires Invariant(s) && s.flight == Some(t)
    requires Skips(PcOf(s, t), s.unsubscribe)
    ensures Invariant(AdvanceStep(s, t, accepted))
  {
    hide Fresh, CachedAt, Handshakes, Justified, EndsWith;
    var ps :| InFlight(s, t, ps);
    var s' := AdvanceStep(s, t, accepted);
    assert FlightLog(s', t, ps) == FlightLog(s, t, ps) by {
      if PcOf(s, t).Snapped? {
        var snapped := [Began(t)] + Acknowledged(t, ConnectSlot, []) + [Snapshot(t, ps)];
        assert snapped + [] == snapped;
      } else if PcOf(s, t).CancelSnapped? {
        assert [Snapshot(t, ps)] + [] == [Snapshot(t, ps)];
      } else {
        assert [DisconnectStarted(t)] + [] == [DisconnectStarted(t)];
      }
    }
    FlightKeeps(s, s', t, ps);
  }

  lemma {:induction false} ConnectAdvanceKeeps(s: State, t: nat, accepted: bool)
    requires Invariant(s) && s.flight == Some(t) && Connects(PcOf(s, t))
    ensures Invariant(AdvanceStep(s, t, accepted))
  {
    hide Fresh, CachedAt, Handshakes, Justified, EndsWith;
    var ps :| InFlight(s, t, ps);
    match PcOf(s, t)
    case ConnectBegun => SubmitKeeps(s, t, ConnectSlot, [], ps, accepted);
    case ConnectAcked => SnapshotKeeps(s, t);
    case Snapped(qs) =>
      if qs == [] {
        SkipKeeps(s, t, accepted);
      } else {
        SubmitKeeps(s, t, SubscribeSlot, qs, ps, accepted);
      }
    case Submitted => ConnectFinishKeeps(s, t);
    case Waiting(_, _, _) =>
  }

  lemma {:induction false} DisconnectAdvanceKeeps(s: State, t: nat, accepted: bool)
    requires Invariant(s) && s.flight == Some(t) && Busy(PcOf(s, t)) && !Connects(PcOf(s, t))
    ensures Invariant(AdvanceStep(s, t, accepted))
  {
    hide Fresh, CachedAt, Handshakes, Justified, EndsWith;
    var ps :| InFlight(s, t, ps);
    match PcOf(s, t)
    case DisconnectBegun =>
      if s.unsubscribe {
        SnapshotKeeps(s, t);
      } else {
        SkipKeeps(s, t, accepted);
      }
    case CancelSnapped(qs) =>
      if qs == [] {
        SkipKeeps(s, t, accepted);
      } else {
        SubmitKeeps(s, t, CancelSlot, qs, ps, accepted);
      }
    case Cancelled => SubmitKeeps(s, t, DisconnectSlot, [], ps, accepted);
    case DisconnectAcked => DisconnectFinishKeeps(s, t);
    case Waiting(_, _, _) =>
  }

  lemma {:induction false} AdvanceKeeps(s: State, t: nat, accepted: bool)
    requires Invariant(s)
    ensures Invariant(AdvanceStep(s, t, accepted))
  {
    hide Fresh, CachedAt, Handshakes, Justified, InFlight;
    assert Busy(PcOf(s, t)) <==> s.flight == Some(t);
    if Connects(PcOf(s, t)) {
      ConnectAdvanceKeeps(s, t, accepted);
    } else if Busy(PcOf(s, t)) {
      DisconnectAdvanceKeeps(s, t, accepted);
    }
  }

  /** The log of a request that was answered well, and of where its handshake goes on. */
  lemma {:induction false} WaitEnds(s: State, t: nat, ps: seq<Param>)
    requires PcOf(s, t).Waiting? && CarriesSnapshot(PcOf(s, t), s.unsubscribe, ps)
    requires Get(s.requests, PcOf(s, t).slot).triggered
    requires var pc := PcOf(s, t); (if Copied(pc.slot) then pc.own else Get(s.requests, pc.slot).result) == Ok
    ensures FlightLog(WakeStep(s, t), t, ps) == FlightLog(s, t, ps)
  {
    var pc := PcOf(s, t);
    assert WaitLog(s.requests, t, pc) == Acknowledged(t, pc.slot, pc.ps);
    match pc.slot
    case ConnectSlot => assert FlightLog(WakeStep(s, t), t, ps) == [Began(t)] + Acknowledged(t, ConnectSlot, []);
    case SubscribeSlot => assert FlightLog(WakeStep(s, t), t, ps) == ConnectLog(t, ps);
    case CancelSlot =>
      assert CancelLog(t, true, ps) == [DisconnectStarted(t), Snapshot(t, ps)] + Acknowledged(t, CancelSlot, ps);
    case DisconnectSlot => assert FlightLog(WakeStep(s, t), t, ps) == DisconnectLog(t, s.unsubscribe, ps);
  }

  lemma {:induction false} WakeKeeps(s: State, t: nat)
    requires Invariant(s)
    ensures Invariant(WakeStep(s, t))
  {
    hide Fresh, CachedAt, Handshakes, Justified, FlightLog;
    var pc := PcOf(s, t);
    assert Busy(pc) <==> s.flight == Some(t);
    if pc.Waiting? && Get(s.requests, pc.slot).triggered {
      var ps :| InFlight(s, t, ps);
      var r := Get(s.requests, pc.slot);
      if (if Copied(pc.slot) then pc.own else r.result) == Ok {
        WaitEnds(s, t, ps);
        PutGet(s.requests, pc.slot, r.(triggered := false));
        FlightKeeps(s, WakeStep(s, t), t, ps);
      } else {
        FailKeeps(s.(requests := Put(s.requests, pc.slot, r.(triggered := false))), t);
      }
    }
  }

  lemma {:induction false} TimeoutKeeps(s: State, t: nat)
    requires Invariant(s)
    ensures Invariant(TimeoutStep(s, t))
  {
    hide Fresh, CachedAt, Handshakes, Justified;
    assert Busy(PcOf(s, t)) <==> s.flight == Some(t);
    if PcOf(s, t).Waiting? {
      var ps :| InFlight(s, t, ps);
      FailKeeps(s, t);
    }
  }

  /** In flight, only the thread that waits can be replied to, and it has not been yet. */
  lemma {:induction false} OnlyWaiterReplied(s: State, f: nat, ps: seq<Param>, t: nat, slot: Slot)
    requires InFlight(s, f, ps) && t in Get(s.requests, slot).outstanding
    ensures f == t && PcOf(s, f).Waiting? && PcOf(s, f).slot == slot && !Get(s.requests, slot).triggered
    ensures Get(s.requests, slot).outstanding - multiset{t} == multiset{}
  {
    hide Handshakes, FlightLog, EndsWith;
    var r := Get(s.requests, slot);
    assert !Quiet(r);
  }

  lemma {:induction false} ReplyLog(s: State, t: nat, slot: Slot, result: Result, ps: seq<Param>)
    requires PcOf(s, t).Waiting? && PcOf(s, t).slot == slot && t in Get(s.requests, slot).outstanding
    requires !Get(s.requests, slot).triggered
    ensures FlightLog(ReplyStep(s, t, slot, result), t, ps) == FlightLog(s, t, ps) + [Replied(t, slot, result)]
  {
    hide SentAfter;
    var s' := ReplyStep(s, t, slot, result);
    PutGet(s.requests, slot, Get(s'.requests, slot));
    assert WaitLog(s'.requests, t, PcOf(s', t)) == WaitLog(s.requests, t, PcOf(s, t)) + [Replied(t, slot, result)];
  }

  lemma {:induction false} ReplyFlight(s: State, t: nat, slot: Slot, result: Result)
    requires s.flight.Some? && t in Get(s.requests, slot).outstanding
    requires exists ps :: InFlight(s, s.flight.value, ps)
    requires Handshakes(s.log + [Replied(t, slot, result)]) == Handshakes(s.log) + [Replied(t, slot, result)]
    ensures exists ps :: InFlight(ReplyStep(s, t, slot, result), s.flight.value, ps)
  {
    hide Handshakes, FlightLog, EndsWith;
    var s' := ReplyStep(s, t, slot, result);
    var ps :| InFlight(s, s.flight.value, ps);
    OnlyWaiterReplied(s, s.flight.value, ps, t, slot);
    ReplyLog(s, t, slot, result, ps);
    EndsAdds(Handshakes(s.log), FlightLog(s, t, ps), Replied(t, slot, result));
    PutGet(s.requests, slot, Get(s'.requests, slot));
    assert OnlyAwaits(s'.requests, t, PcOf(s', t));
    assert InFlight(s', t, ps);
  }

  /** A reply goes to the handshake in flight, or finds the client stuck. */
  lemma {:induction false} ReplyKeeps(s: State, t: nat, slot: Slot, result: Result)
    requires Invariant(s)
    ensures Invariant(ReplyStep(s, t, slot, result))
  {
    hide Fresh, CachedAt, Handshakes, Justified, InFlight;
    var s' := ReplyStep(s, t, slot, result);
    if t in Get(s.requests, slot).outstanding {
      LoggedKeeps(s, Replied(t, slot, result));
      assert !Quiet(Get(s.requests, slot));
      forall u: nat
        ensures Busy(PcOf(s', u)) <==> s'.flight == Some(u)
      {
        assert Busy(PcOf(s, u)) <==> s.flight == Some(u);
      }
      if s.flight.Some? {
        ReplyFlight(s, t, slot, result);
      }
    }
  }

  lemma {:induction false} ChangeParamsKeeps(s: State, ps: seq<Param>)
    requires Invariant(s)
    ensures Invariant(Step(s, ChangeParams(ps)))
  {
    hide Fresh, CachedAt, Handshakes, Justified;
    var s' := Step(s, ChangeParams(ps));
    LogAdds(s.log, ParamsChanged(ps));
    forall u: nat
      ensures Busy(PcOf(s', u)) <==> s'.flight == Some(u)
    {
      assert Busy(PcOf(s, u)) <==> s.flight == Some(u);
    }
    if s.flight.Some? {
      var f := s.flight.value;
      var qs :| InFlight(s, f, qs);
      assert FlightLog(s', f, qs) == FlightLog(s, f, qs);
      assert InFlight(s', f, qs);
    }
  }

  /** Nothing is under way, and no reply can come. */
  ghost predicate Settled(s: State) {
    s.flight == None && forall slot :: Quiet(Get(s.requests, slot))
  }

  /** The steps that set the client state whatever it is. */
  predicate Strikes(s: State, a: Action) {
    a.Fault? || (a.SetLost? && s.losing > 0)
  }

  lemma {:induction false} UpsetKeeps(s: State, e: Event, kind: Kind, losing: nat)
    requires Invariant(s) && Settled(s)
    requires (e.ConnectionLost? && kind == Disconnected) || (e.Faulted? && kind == Error)
    ensures Invariant(Logged(s, e).(kind := kind, losing := losing))
  {
    hide Fresh, CachedAt, Handshakes, Justified;
    var s' := Logged(s, e).(kind := kind, losing := losing);
    LoggedKeeps(s, e);
    forall u: nat
      ensures Busy(PcOf(s', u)) <==> s'.flight == Some(u)
    {
      assert Busy(PcOf(s, u)) <==> s.flight == Some(u);
    }
  }

  lemma {:induction false} CheckKeeps(s: State)
    requires Invariant(s)
    ensures Invariant(Step(s, CheckLost))
  {
    hide Fresh, CachedAt, Handshakes, Justified;
    var s' := Step(s, CheckLost);
    forall u: nat
      ensures Busy(PcOf(s', u)) <==> s'.flight == Some(u)
    {
      assert Busy(PcOf(s, u)) <==> s.flight == Some(u);
    }
    if s.flight.Some? {
      var f := s.flight.value;
      var ps :| InFlight(s, f, ps);
      assert FlightLog(s', f, ps) == FlightLog(s, f, ps);
      assert InFlight(s', f, ps);
    }
  }

  lemma {:induction false} StepKeeps(s: State, a: Action)
    requires Invariant(s) && (Strikes(s, a) ==> Settled(s))
    ensures Invariant(Step(s, a))
  {
    hide Invariant, Settled;
    match a
    case CallConnect(t) => CallConnectKeeps(s, t);
    case CallDisconnect(t) => CallDisconnectKeeps(s, t);
    case Advance(t, accepted) => AdvanceKeeps(s, t, accepted);
    case Wake(t) => WakeKeeps(s, t);
    case Timeout(t) => TimeoutKeeps(s, t);
    case Reply(t, slot, result) => ReplyKeeps(s, t, slot, result);
    case ChangeParams(ps) => ChangeParamsKeeps(s, ps);
    case CheckLost => CheckKeeps(s);
    case SetLost =>
      if s.losing > 0 {
        UpsetKeeps(s, ConnectionLost, Disconnected, s.losing - 1);
      }
    case Fault => UpsetKeeps(s, Faulted, Error, s.losing);
  }

  /** Errors, and the second halves of lost connections, strike only a client that is settled. */
  ghost predicate Calm(unsubscribe: bool, actions: seq<Action>)
    decreases |actions|
  {
    actions == [] ||
    (var before, a := actions[..|actions| - 1], actions[|actions| - 1];
     Calm(unsubscribe, before) && (Strikes(Run(unsubscribe, before), a) ==> Settled(Run(unsubscribe, before))))
  }

  lemma {:induction false} InitialInvariant(unsubscribe: bool)
    ensures Invariant(Initial(unsubscribe))
  {
  }

  lemma {:induction false} StepUnsubscribe(s: State, a: Action)
    ensures Step(s, a).unsubscribe == s.unsubscribe
  {
  }

  lemma {:induction false} RunKeeps(unsubscribe: bool, actions: seq<Action>)
    requires Calm(unsubscribe, actions)
    ensures Invariant(Run(unsubscribe, actions)) && Run(unsubscribe, actions).unsubscribe == unsubscribe
    decreases |actions|
  {
    hide Invariant, Step;
    if actions == [] {
      InitialInvariant(unsubscribe);
    } else {
      RunKeeps(unsubscribe, actions[..|actions| - 1]);
      StepUnsubscribe(Run(unsubscribe, actions[..|actions| - 1]), actions[|actions| - 1]);
      StepKeeps(Run(unsubscribe, actions[..|actions| - 1]), actions[|actions| - 1]);
    }
  }

  // ----- one handshake at a time -----

  /** One thread is inside a handshake, and the client state says so. */
  ghost predicate Exclusive(s: State) {
    OneFlight(s) && (s.flight.Some? ==> s.kind == Connecting || s.kind == Disconnecting)
  }

  lemma {:induction false} StepExclusive(s: State, a: Action)
    requires Exclusive(s) && (Strikes(s, a) ==> s.flight == None)
    ensures Exclusive(Step(s, a))
  {
    hide Exclusive, CallConnectStep, CallDisconnectStep, AdvanceStep, WakeStep, TimeoutStep, ReplyStep;
    match a
    case CallConnect(t) => CallExclusive(s, t);
    case CallDisconnect(t) => CallExclusive(s, t);
    case Advance(t, accepted) => AdvanceExclusive(s, t, accepted);
    case Wake(t) => WaitExclusive(s, t);
    case Timeout(t) => WaitExclusive(s, t);
    case Reply(t, slot, result) => ReplyExclusive(s, t, slot, result);
    case _ => OthersExclusive(s, Step(s, a));
  }

  lemma {:induction false} OthersExclusive(s: State, s': State)
    requires Exclusive(s) && s'.threads == s.threads && s'.flight == s.flight
    requires s'.kind == s.kind || s.flight == None
    ensures Exclusive(s')
  {
    forall u: nat ensures Busy(PcOf(s', u)) <==> s'.flight == Some(u) {
      assert Busy(PcOf(s, u)) <==> s.flight == Some(u);
    }
  }

  lemma {:induction false} CallExclusive(s: State, t: nat)
    requires Exclusive(s)
    ensures Exclusive(CallConnectStep(s, t)) && Exclusive(CallDisconnectStep(s, t))
  {
    assert Busy(PcOf(s, t)) <==> s.flight == Some(t);
    if !Busy(PcOf(s, t)) {
      ThreadExclusive(s, CallConnectStep(s, t), t);
      ThreadExclusive(s, CallDisconnectStep(s, t), t);
    }
  }

  lemma {:induction false} AdvanceExclusive(s: State, t: nat, accepted: bool)
    requires Exclusive(s)
    ensures Exclusive(AdvanceStep(s, t, accepted))
  {
    assert Busy(PcOf(s, t)) <==> s.flight == Some(t);
    if Busy(PcOf(s, t)) {
      ThreadExclusive(s, AdvanceStep(s, t, accepted), t);
    }
  }

  lemma {:induction false} WaitExclusive(s: State, t: nat)
    requires Exclusive(s)
    ensures Exclusive(WakeStep(s, t)) && Exclusive(TimeoutStep(s, t))
  {
    assert Busy(PcOf(s, t)) <==> s.flight == Some(t);
    if Busy(PcOf(s, t)) {
      ThreadExclusive(s, WakeStep(s, t), t);
      ThreadExclusive(s, TimeoutStep(s, t), t);
    }
  }

  lemma {:induction false} ReplyExclusive(s: State, t: nat, slot: Slot, result: Result)
    requires Exclusive(s)
    ensures Exclusive(ReplyStep(s, t, slot, result))
  {
    var s' := ReplyStep(s, t, slot, result);
    forall u: nat ensures Busy(PcOf(s', u)) <==> s'.flight == Some(u) {
      assert Busy(PcOf(s, u)) <==> s.flight == Some(u);
    }
  }

  /** A step of the thread in flight, or of any thread when there is none. */
  lemma {:induction false} ThreadExclusive(s: State, s': State, t: nat)
    requires Exclusive(s) && t in s'.threads && s'.threads == s.threads[t := s'.threads[t]]
    requires if Busy(s'.threads[t]) then s'.flight == Some(t) && (s.flight == None || s.flight == Some(t))
             else s'.flight == (if s.flight == Some(t) then None else s.flight)
    requires s'.flight.Some? ==> s'.kind == Connecting || s'.kind == Disconnecting
    ensures Exclusive(s')
  {
    forall u: nat ensures Busy(PcOf(s', u)) <==> s'.flight == Some(u) {
      assert Busy(PcOf(s, u)) <==> s.flight == Some(u);
      assert u != t ==> PcOf(s', u) == PcOf(s, u);
    }
  }

  /** Errors, and the second halves of lost connections, strike only while no handshake is in flight. */
  ghost predicate Spared(unsubscribe: bool, actions: seq<Action>)
    decreases |actions|
  {
    actions == [] ||
    (var before, a := actions[..|actions| - 1], actions[|actions| - 1];
     && Spared(unsubscribe, before)
     && (Strikes(Run(unsubscribe, before), a) ==> Run(unsubscribe, before).flight == None))
  }

  lemma {:induction false} RunMore(unsubscribe: bool, actions: seq<Action>, a: Action)
    ensures Run(unsubscribe, actions + [a]) == Step(Run(unsubscribe, actions), a)
    ensures Spared(unsubscribe, actions + [a]) <==>
            Spared(unsubscribe, actions)
            && (Strikes(Run(unsubscribe, actions), a) ==> Run(unsubscribe, actions).flight == None)
    ensures Calm(unsubscribe, actions + [a]) <==>
            Calm(unsubscribe, actions)
            && (Strikes(Run(unsubscribe, actions), a) ==> Settled(Run(unsubscribe, actions)))
  {
    hide Step;
    assert (actions + [a])[..|actions + [a]| - 1] == actions;
  }

  lemma {:induction false} RunExclusive(unsubscribe: bool, actions: seq<Action>)
    requires Spared(unsubscribe, actions)
    ensures Exclusive(Run(unsubscribe, actions))
    decreases |actions|
  {
    hide Exclusive, Step, Strikes;
    if actions == [] {
      InitialExclusive(unsubscribe);
    } else {
      RunExclusive(unsubscribe, actions[..|actions| - 1]);
      StepExclusive(Run(unsubscribe, actions[..|actions| - 1]), actions[|actions| - 1]);
    }
  }

  lemma {:induction false} InitialExclusive(unsubscribe: bool)
    ensures Exclusive(Initial(unsubscribe))
  {
  }

  ghost predicate AtMostOne(s: State) {
    forall t: nat, u: nat :: Busy(PcOf(s, t)) && Busy(PcOf(s, u)) ==> t == u
  }

  /**
   In every interleaving in which errors and the second halves of lost connections strike only between
   handshakes, at most one handshake is in flight, also while replies of earlier ones are outstanding.
   */
  lemma {:induction false} OneHandshake(unsubscribe: bool, actions: seq<Action>)
    ensures Spared(unsubscribe, actions) ==> AtMostOne(Run(unsubscribe, actions))
  {
    hide Run, Spared;
    if Spared(unsubscribe, actions) {
      RunExclusive(unsubscribe, actions);
      var s := Run(unsubscribe, actions);
      forall t: nat, u: nat | Busy(PcOf(s, t)) && Busy(PcOf(s, u)) ensures t == u {
        assert s.flight == Some(t) && s.flight == Some(u);
      }
    }
  }

  ghost predicate NoMoreErrors(more: seq<Action>) {
    forall i :: 0 <= i < |more| ==> !more[i].Fault? && !more[i].SetLost?
  }

  lemma {:induction false} SparedMore(unsubscribe: bool, actions: seq<Action>, more: seq<Action>)
    requires Spared(unsubscribe, actions) && NoMoreErrors(more)
    ensures Spared(unsubscribe, actions + more)
    decreases |more|
  {
    hide Run;
    if more == [] {
      assert actions + more == actions;
    } else {
      SparedMore(unsubscribe, actions, more[..|more| - 1]);
      assert (actions + more)[..|actions + more| - 1] == actions + more[..|more| - 1];
    }
  }

  /** An error while a handshake is in flight lets any other thread begin one beside it. */
  lemma {:induction false} ErrorBreaksExclusion(s: State, a: Action, t: nat, u: nat)
    requires Strikes(s, a) && Busy(PcOf(s, t)) && !Busy(PcOf(s, u))
    ensures var r := Step(Step(s, a), CallConnect(u)); t != u && Busy(PcOf(r, t)) && Busy(PcOf(r, u))
  {
  }

  /**
   After an error, or the second half of a lost connection, in a reached state: every continuation
   without another one has at most one handshake in flight if and only if none was in flight when it
   struck.
   */
  lemma {:induction false} ExclusionExactly(unsubscribe: bool, actions: seq<Action>, a: Action)
    requires Spared(unsubscribe, actions) && Strikes(Run(unsubscribe, actions), a)
    ensures (forall more :: NoMoreErrors(more) ==> AtMostOne(Run(unsubscribe, actions + [a] + more)))
            <==> Run(unsubscribe, actions).flight == None
  {
    hide Run, Spared, Step, Strikes, AtMostOne;
    var s := Run(unsubscribe, actions);
    RunMore(unsubscribe, actions, a);
    if s.flight == None {
      forall more | NoMoreErrors(more) ensures AtMostOne(Run(unsubscribe, actions + [a] + more)) {
        SparedMore(unsubscribe, actions + [a], more);
        OneHandshake(unsubscribe, actions + [a] + more);
      }
    } else {
      SecondBegins(unsubscribe, actions, a, s.flight.value);
    }
  }

  lemma {:induction false} SecondBegins(unsubscribe: bool, actions: seq<Action>, a: Action, t: nat)
    requires Spared(unsubscribe, actions) && Strikes(Run(unsubscribe, actions), a)
    requires Run(unsubscribe, actions).flight == Some(t)
    ensures NoMoreErrors([CallConnect(t + 1)])
    ensures !AtMostOne(Run(unsubscribe, actions + [a] + [CallConnect(t + 1)]))
  {
    hide Run, Spared, Step, Strikes;
    RunExclusive(unsubscribe, actions);
    RunMore(unsubscribe, actions, a);
    RunMore(unsubscribe, actions + [a], CallConnect(t + 1));
    ErrorBreaksExclusion(Run(unsubscribe, actions), a, t, t + 1);
  }

  // ----- a lost connection -----

  /** A connected client has nothing under way. */
  lemma {:induction false} ConnectedIsSettled(s: State)
    ensures Exclusive(s) && s.kind == Connected ==> s.flight == None
    ensures Invariant(s) && s.kind == Connected ==> Settled(s)
  {
    hide Fresh, CachedAt, Handshakes, Justified, FlightLog;
    if Invariant(s) && s.kind == Connected {
      NoFlight(s);
    }
  }

  lemma {:induction false} StaysConnected(s: State, a: Action)
    requires Exclusive(s) && s.kind == Connected && !a.CallDisconnect? && !a.Fault? && !a.SetLost?
    ensures Step(s, a).kind == Connected && Step(s, a).losing >= s.losing
  {
    hide CachedAt, Handshakes;
    if a.Advance? || a.Wake? || a.Timeout? {
      assert !Busy(PcOf(s, a.t));
    }
  }

  /**
   Unless a disconnect is called between the check and the set of a lost connection, the set strikes a
   client without a handshake in flight, and a settled one if all was calm before.
   */
  lemma {:induction false} LostUndisturbed(unsubscribe: bool, actions: seq<Action>, between: seq<Action>)
    requires Spared(unsubscribe, actions) && Run(unsubscribe, actions).kind == Connected
    requires NoMoreErrors(between) && forall i :: 0 <= i < |between| ==> !between[i].CallDisconnect?
    ensures var all := actions + [CheckLost] + between;
            var s := Run(unsubscribe, all);
            && Strikes(s, SetLost) && s.kind == Connected && s.flight == None
            && Spared(unsubscribe, all + [SetLost])
            && (Calm(unsubscribe, actions) ==> Calm(unsubscribe, all + [SetLost]))
    decreases |between|
  {
    hide Run, Step, Spared, Calm, Exclusive, Invariant, Settled;
    Between(unsubscribe, actions, between);
    var all := actions + [CheckLost] + between;
    RunExclusive(unsubscribe, all);
    ConnectedIsSettled(Run(unsubscribe, all));
    RunMore(unsubscribe, all, SetLost);
    if Calm(unsubscribe, actions) {
      RunKeeps(unsubscribe, all);
    }
  }

  lemma {:induction false} Between(unsubscribe: bool, actions: seq<Action>, between: seq<Action>)
    requires Spared(unsubscribe, actions) && Run(unsubscribe, actions).kind == Connected
    requires NoMoreErrors(between) && forall i :: 0 <= i < |between| ==> !between[i].CallDisconnect?
    ensures var all := actions + [CheckLost] + between;
            && Run(unsubscribe, all).kind == Connected && Run(unsubscribe, all).losing > 0
            && Spared(unsubscribe, all) && (Calm(unsubscribe, actions) ==> Calm(unsubscribe, all))
    decreases |between|
  {
    hide Run, Spared, Calm, Exclusive;
    if between == [] {
      assert actions + [CheckLost] + between == actions + [CheckLost];
      RunMore(unsubscribe, actions, CheckLost);
    } else {
      var last := |between| - 1;
      var before := actions + [CheckLost] + between[..last];
      Between(unsubscribe, actions, between[..last]);
      assert actions + [CheckLost] + between == before + [between[last]];
      RunExclusive(unsubscribe, before);
      StaysConnected(Run(unsubscribe, before), between[last]);
      RunMore(unsubscribe, before, between[last]);
    }
  }

  lemma {:induction false} LosingStays(unsubscribe: bool, actions: seq<Action>, between: seq<Action>)
    requires Spared(unsubscribe, actions) && Run(unsubscribe, actions).kind == Connected && NoMoreErrors(between)
    ensures var all := actions + [CheckLost] + between;
            Run(unsubscribe, all).losing > 0 && Spared(unsubscribe, all)
    decreases |between|
  {
    hide Run, Spared;
    if between == [] {
      assert actions + [CheckLost] + between == actions + [CheckLost];
      RunMore(unsubscribe, actions, CheckLost);
    } else {
      var last := |between| - 1;
      var before := actions + [CheckLost] + between[..last];
      LosingStays(unsubscribe, actions, between[..last]);
      assert actions + [CheckLost] + between == before + [between[last]];
      RunMore(unsubscribe, before, between[last]);
      LosingNotLess(Run(unsubscribe, before), between[last]);
    }
  }

  lemma {:induction false} LosingNotLess(s: State, a: Action)
    requires !a.SetLost?
    ensures Step(s, a).losing >= s.losing
  {
  }

  /**
   A lost connection with whatever calls between its check and its set: every continuation without
   another error has at most one handshake in flight if and only if none is in flight at the set.
   */
  lemma {:induction false} LostExactly(unsubscribe: bool, actions: seq<Action>, between: seq<Action>)
    requires Spared(unsubscribe, actions) && Run(unsubscribe, actions).kind == Connected && NoMoreErrors(between)
    ensures var all := actions + [CheckLost] + between;
            (forall more :: NoMoreErrors(more) ==> AtMostOne(Run(unsubscribe, all + [SetLost] + more)))
            <==> Run(unsubscribe, all).flight == None
  {
    hide Run, Spared, AtMostOne, NoMoreErrors;
    LosingStays(unsubscribe, actions, between);
    ExclusionExactly(unsubscribe, actions + [CheckLost] + between, SetLost);
  }

  /** No handler sets the state that has not found the client connected. */
  lemma {:induction false} NoneLosesUnchecked(unsubscribe: bool, actions: seq<Action>)
    requires forall i :: 0 <= i < |actions| ==> !actions[i].CheckLost?
    ensures Run(unsubscribe, actions).losing == 0
    decreases |actions|
  {
    hide Step;
    if actions != [] {
      var last := |actions| - 1;
      NoneLosesUnchecked(unsubscribe, actions[..last]);
      OnlyChecksLose(Run(unsubscribe, actions[..last]), actions[last]);
    }
  }

  lemma {:induction false} OnlyChecksLose(s: State, a: Action)
    requires !a.CheckLost?
    ensures Step(s, a).losing <= s.losing
  {
  }

  /** A disconnect that begins between the check and the set: a connect then begins beside it. */
  lemma {:induction false} LostBetween(s: State, t: nat, u: nat)
    requires s.kind == Connected && t != u && !Busy(PcOf(s, t)) && !Busy(PcOf(s, u))
    ensures var r := Step(Step(Step(Step(s, CheckLost), CallDisconnect(t)), SetLost), CallConnect(u));
            PcOf(r, t) == DisconnectBegun && PcOf(r, u) == ConnectBegun
  {
  }

  // ----- what the log says of a run -----

  /**
   CONNECTED is entered only at the end of a connect handshake: its submission, its OK reply, a
   snapshot of the parameters cached at that moment, and their submission with its OK reply.
   A client at rest is in the state its last handshake entered, unless its connection was lost or it
   met an error since.
   */
  lemma {:induction false} ConnectedOnlyAfterHandshake(unsubscribe: bool, actions: seq<Action>)
    ensures Calm(unsubscribe, actions) ==>
            var s := Run(unsubscribe, actions);
            var h := Handshakes(s.log);
            && Fresh(s.log) && Justified(h, unsubscribe)
            && (s.kind == Connected ==> h != [] && h[|h| - 1].EnteredConnected?)
            && (s.kind == Disconnected ==>
                  h == [] || h[|h| - 1].EnteredDisconnected? || h[|h| - 1].ConnectionLost?)
            && (s.kind == Error ==> h != [] && h[|h| - 1].Faulted?)
  {
    hide Run;
    if Calm(unsubscribe, actions) {
      RunKeeps(unsubscribe, actions);
      var s := Run(unsubscribe, actions);
      if s.flight.Some? {
        var ps :| InFlight(s, s.flight.value, ps);
      }
    }
  }

  // ----- a failed handshake -----

  /** No handshake is in flight and yet the client is between states. */
  predicate Stuck(s: State) {
    s.flight == None && (s.kind == Connecting || s.kind == Disconnecting)
  }

  /** Every way a handshake can fail leaves the client stuck. */
  lemma {:induction false} FailureSticks(s: State, a: Action)
    requires Invariant(s) && s.flight.Some? && Step(s, a).flight == None
    requires PcOf(Step(s, a), s.flight.value) == Returned(Failed)
    ensures Stuck(Step(s, a)) && Step(s, a).kind == s.kind
  {
    hide FlightLog, EndsWith, Handshakes, CachedAt, Fresh, Justified;
    var t := s.flight.value;
    var ps :| InFlight(s, t, ps);
    assert Busy(PcOf(s, t));
  }

  lemma {:induction false} StuckStep(s: State, a: Action)
    requires OneFlight(s) && Stuck(s) && !Strikes(s, a)
    ensures Stuck(Step(s, a)) && Step(s, a).kind == s.kind
  {
    if a.Advance? || a.Wake? || a.Timeout? {
      assert !Busy(PcOf(s, a.t));
    }
  }

  lemma {:induction false} StuckRefuses(s: State, t: nat)
    requires OneFlight(s) && Stuck(s)
    ensures !Busy(PcOf(s, t))
    ensures PcOf(CallConnectStep(s, t), t) == Returned(Failed) && PcOf(CallDisconnectStep(s, t), t) == Returned(Failed)
  {
    assert Busy(PcOf(s, t)) <==> s.flight == Some(t);
  }

  /** A stuck client stays stuck, whatever happens but an error, and each later connect or disconnect fails. */
  lemma {:induction false} StuckForever(unsubscribe: bool, actions: seq<Action>, more: seq<Action>, t: nat)
    requires Spared(unsubscribe, actions) && Stuck(Run(unsubscribe, actions)) && NoMoreErrors(more)
    ensures var s, r := Run(unsubscribe, actions), Run(unsubscribe, actions + more);
            && Stuck(r) && r.kind == s.kind && !Busy(PcOf(r, t))
            && PcOf(CallConnectStep(r, t), t) == Returned(Failed)
            && PcOf(CallDisconnectStep(r, t), t) == Returned(Failed)
    decreases |more|
  {
    hide Run, Step, Stuck, CallConnectStep, CallDisconnectStep, Spared;
    if more == [] {
      assert actions + more == actions;
    } else {
      var last := |more| - 1;
      StuckForever(unsubscribe, actions, more[..last], t);
      assert actions + more == actions + more[..last] + [more[last]];
      RunMore(unsubscribe, actions + more[..last], more[last]);
      SparedMore(unsubscribe, actions, more[..last]);
      RunExclusive(unsubscribe, actions + more[..last]);
      StuckStep(Run(unsubscribe, actions + more[..last]), more[last]);
    }
    SparedMore(unsubscribe, actions, more);
    RunExclusive(unsubscribe, actions + more);
    StuckRefuses(Run(unsubscribe, actions + more), t);
  }

  /** An error, or the second half of a lost connection, frees a stuck client: the next connect begins. */
  lemma {:induction false} StrikeFrees(s: State, a: Action, t: nat)
    requires OneFlight(s) && Stuck(s) && Strikes(s, a)
    ensures PcOf(Step(Step(s, a), CallConnect(t)), t) == ConnectBegun
  {
    assert Busy(PcOf(s, t)) <==> s.flight == Some(t);
  }

  /**
   Refused by the broker, a connect returns an error and leaves the client CONNECTING, not
   DISCONNECTED, whatever state the requests were in.
   */
  lemma {:induction false} RefusedConnectStaysConnecting(s: State, t: nat)
    requires s.kind == Disconnected && !Busy(PcOf(s, t))
    ensures var sent := Step(Step(s, CallConnect(t)), Advance(t, true));
            var r := Step(Step(sent, Reply(t, ConnectSlot, Failed)), Wake(t));
            r.kind == Connecting && PcOf(r, t) == Returned(Failed) && Stuck(r)
  {
    var begun := Step(s, CallConnect(t));
    assert PcOf(begun, t) == ConnectBegun && begun.kind == Connecting;
    var sent := Step(begun, Advance(t, true));
    assert PcOf(sent, t) == Waiting(ConnectSlot, [], Failed) && t in sent.requests.connect.outstanding;
    var replied := Step(sent, Reply(t, ConnectSlot, Failed));
    assert PcOf(replied, t) == PcOf(sent, t) && replied.requests.connect.triggered;
    assert replied.requests.connect.result == Failed && replied.kind == Connecting;
  }

  // ----- an error before a late reply -----

  /** A connect times out, and an error frees the client with the reply outstanding. */
  lemma {:induction false} ErrorFrees(s: State, t: nat, u: nat) returns (stuck: State, freed: State)
    requires t != u && !Busy(PcOf(s, t)) && s.kind == Disconnected && Quiet(s.requests.connect)
    ensures stuck == Step(Step(Step(s, CallConnect(t)), Advance(t, true)), Timeout(t)) && Stuck(stuck)
    ensures freed == Step(stuck, Fault) && freed.kind == Error && PcOf(freed, u) == PcOf(s, u)
    ensures freed.requests.connect.outstanding == multiset{t} && !freed.requests.connect.triggered
  {
    var sent := Step(Step(s, CallConnect(t)), Advance(t, true));
    assert PcOf(sent, t) == Waiting(ConnectSlot, [], Failed) && sent.requests.connect.outstanding == multiset{t};
    stuck := Step(sent, Timeout(t));
    freed := Step(stuck, Fault);
  }

  /**
   An error frees a stuck client, but the reply it gave up on may still come: a second connect then
   takes the reply to the first as its own.
   */
  lemma {:induction false} StaleReplyTaken(s: State, t: nat, u: nat)
    requires t != u && !Busy(PcOf(s, t)) && !Busy(PcOf(s, u)) && s.kind == Disconnected && Quiet(s.requests.connect)
    ensures var stuck := Step(Step(Step(s, CallConnect(t)), Advance(t, true)), Timeout(t));
            var again := Step(Step(Step(stuck, Fault), CallConnect(u)), Advance(u, true));
            var r := Step(Step(again, Reply(t, ConnectSlot, Ok)), Wake(u));
            Stuck(stuck) && PcOf(r, u) == ConnectAcked && u in r.requests.connect.outstanding
  {
    var stuck, freed := ErrorFrees(s, t, u);
    ReplyOfOther(freed, t, u);
  }

  lemma {:induction false} ReplyOfOther(s: State, t: nat, u: nat)
    requires t != u && !Busy(PcOf(s, u)) && s.kind == Error
    requires s.requests.connect.outstanding == multiset{t} && !s.requests.connect.triggered
    ensures var r := Step(Step(Step(Step(s, CallConnect(u)), Advance(u, true)), Reply(t, ConnectSlot, Ok)), Wake(u));
            PcOf(r, u) == ConnectAcked && u in r.requests.connect.outstanding
  {
    var begun := Step(s, CallConnect(u));
    assert PcOf(begun, u) == ConnectBegun && begun.requests == s.requests;
    var again := Step(begun, Advance(u, true));
    assert again.requests.connect.outstanding == multiset{t, u} && PcOf(again, u) == Waiting(ConnectSlot, [], Failed);
    OtherReply(again, t, u);
  }

  lemma {:induction false} OtherReply(s: State, t: nat, u: nat)
    requires t != u && PcOf(s, u) == Waiting(ConnectSlot, [], Failed)
    requires s.requests.connect.outstanding == multiset{t, u}
    ensures var r := Step(Step(s, Reply(t, ConnectSlot, Ok)), Wake(u));
            PcOf(r, u) == ConnectAcked && u in r.requests.connect.outstanding
  {
    var replied := Step(s, Reply(t, ConnectSlot, Ok));
    assert PcOf(replied, u) == PcOf(s, u) && replied.requests.connect == Request(multiset{u}, true, Ok);
  }
}
