/**
 The counters of a publication without locks: each update loads a counter and stores it later, so
 the updates of writing threads and of the reply handlers may overlap.
 */
module WriteRaces {
  import opened Words
  import opened Wrappers
  import opened WriteAccounting

  datatype Counter = Pending | OkCount | ErrorCount | Sent

  datatype Update = Update(counter: Counter, delta: int)

  datatype Counters = Counters(pending: Word, ok: Word, error: Word, sent: Word)

  function Get(cs: Counters, c: Counter): Word {
    match c
    case Pending => cs.pending
    case OkCount => cs.ok
    case ErrorCount => cs.error
    case Sent => cs.sent
  }

  function Put(cs: Counters, c: Counter, x: Word): Counters {
    match c
    case Pending => cs.(pending := x)
    case OkCount => cs.(ok := x)
    case ErrorCount => cs.(error := x)
    case Sent => cs.(sent := x)
  }

  /** What a call does next: nothing, hand over its message, or complete a delivery. */
  datatype Phase = Free | Handing | Completing(result: Result)

  /**
   A thread inside a write or a reply handler: the updates it still has to make, the value it loaded
   for the first of them, and whether another thread has stored that counter since.
   */
  datatype Call = Call(phase: Phase, todo: seq<Update>, loaded: Option<Word>, overtaken: bool)

  const RESTING := Call(Free, [], None, false)

  /** Verdicts go through these two updates. */
  function Settling(result: Result): seq<Update> {
    [Update(Pending, -1), Update(if result == Ok then OkCount else ErrorCount, 1)]
  }

  datatype Race = Race(
    counters: Counters,
    lastQos: Qos,
    calls: seq<Call>,
    accepted: nat,
    sending: nat,
    unanswered: nat,
    lost: int)   // what stores have overwritten of the updates of others

  datatype Event =
    | Begin(t: nat, qos: Qos)
    | Load(t: nat)
    | Store(t: nat)
    | Refuse(t: nat)
    | Accept(t: nat)
    | Answer(t: nat, result: Result)   // a handler thread takes a reply
    | Complete(t: nat)                 // and goes on to the delivery, with QoS 2

  function Target(e: Event): nat {
    e.t
  }

  /** A store of `counter` by `t` overtakes every other call that has loaded it. */
  function Overtake(calls: seq<Call>, t: nat, counter: Counter): (r: seq<Call>)
    ensures |r| == |calls|
  {
    seq(|calls|, i requires 0 <= i < |calls| =>
      if i != t && calls[i].loaded.Some? && calls[i].todo != [] && calls[i].todo[0].counter == counter
      then calls[i].(overtaken := true) else calls[i])
  }

  function StoreStep(s: Race, t: nat): Race
    requires t < |s.calls| && s.calls[t].todo != [] && s.calls[t].loaded.Some?
  {
    var u, x := s.calls[t].todo[0], s.calls[t].loaded.value;
    s.(counters := Put(s.counters, u.counter, U32(x + u.delta)),
       calls := Overtake(s.calls, t, u.counter)[t := s.calls[t].(todo := s.calls[t].todo[1..], loaded := None,
                                                                 overtaken := false)],
       lost := s.lost + if u.counter == Sent then 0 else Get(s.counters, u.counter) - x)
  }

  function Step(s: Race, e: Event): Race {
    if Target(e) >= |s.calls| then s
    else
      var t := Target(e);
      var call := s.calls[t];
      match e
      case Begin(_, qos) =>
        if call.phase != Free || call.todo != [] then s
        else s.(lastQos := qos, sending := s.sending + 1,
                calls := s.calls[t := Call(Handing, [Update(Pending, 1)], None, false)])
      case Load(_) =>
        if call.todo == [] || call.loaded.Some? then s
        else s.(calls := s.calls[t := call.(loaded := Some(Get(s.counters, call.todo[0].counter)), overtaken := false)])
      case Store(_) => if call.todo == [] || call.loaded.None? then s else StoreStep(s, t)
      case Refuse(_) =>
        if call.phase != Handing || call.todo != [] || s.sending == 0 then s
        else s.(sending := s.sending - 1, calls := s.calls[t := Call(Free, [Update(Pending, -1)], None, false)])
      case Accept(_) =>
        if call.phase != Handing || call.todo != [] || s.sending == 0 then s
        else
          s.(sending := s.sending - 1, accepted := s.accepted + 1, unanswered := s.unanswered + 1,
             calls := s.calls[t := Call(Free, [Update(Sent, 1)], None, false)])
      case Answer(_, result) =>
        if call.phase != Free || call.todo != [] || s.unanswered == 0 then s
        else
          s.(unanswered := s.unanswered - 1,
             calls := s.calls[t := Call(if s.lastQos == Two then Completing(result) else Free,
                                        if s.lastQos != Two || result == Failed then Settling(result) else [],
                                        None, false)])
      case Complete(_) =>
        if !call.phase.Completing? || call.todo != [] then s
        else
          s.(calls := s.calls[t := Call(Free,
                                        if s.lastQos != Two || s.counters.pending == 0 then []
                                        else Settling(call.phase.result), None, false)])
  }

  function Run(threads: nat, events: seq<Event>): Race
    decreases |events|
  {
    if events == [] then Race(Counters(0, 0, 0, 0), Zero, seq(threads, _ => RESTING), 0, 0, 0, 0)
    else Step(Run(threads, events[..|events| - 1]), events[|events| - 1])
  }

  // ----- the books -----

  /** What updates still to come will add to pending, ok and error together. */
  function Coming(todo: seq<Update>): int {
    if todo == [] then 0 else (if todo[0].counter == Sent then 0 else todo[0].delta) + Coming(todo[1..])
  }

  function AllComing(calls: seq<Call>): int {
    if calls == [] then 0 else Coming(calls[0].todo) + AllComing(calls[1..])
  }

  lemma {:induction false} ComingUpdate(calls: seq<Call>, t: nat, call: Call)
    requires t < |calls|
    ensures AllComing(calls[t := call]) == AllComing(calls) - Coming(calls[t].todo) + Coming(call.todo)
    decreases |calls|
  {
    hide Coming;
    if t == 0 {
      assert calls[t := call][1..] == calls[1..];
    } else {
      ComingUpdate(calls[1..], t - 1, call);
      assert calls[t := call][1..] == calls[1..][t - 1 := call];
    }
  }

  lemma {:induction false} ComingSame(a: seq<Call>, b: seq<Call>)
    requires |a| == |b| && forall i :: 0 <= i < |a| ==> a[i].todo == b[i].todo
    ensures AllComing(a) == AllComing(b)
    decreases |a|
  {
    hide Coming;
    if a != [] {
      ComingSame(a[1..], b[1..]);
    }
  }

  /** The three counters, with what is still to come and what was lost, are the writes taken and being sent. */
  ghost predicate Accounted(s: Race) {
    var sum := s.counters.pending + s.counters.ok + s.counters.error;
    U32(sum + AllComing(s.calls) + s.lost) == U32(s.accepted + s.sending)
  }

  lemma {:induction false} ComingFew()
    ensures forall c: Counter, d: int :: Coming([Update(c, d)]) == if c == Sent then 0 else d
    ensures Coming(Settling(Ok)) == 0 == Coming(Settling(Failed)) && Coming([]) == 0
  {
    forall c: Counter, d: int ensures Coming([Update(c, d)]) == if c == Sent then 0 else d {
      assert [Update(c, d)][1..] == [];
    }
    forall r: Result ensures Coming(Settling(r)) == 0 {
      assert Settling(r)[1..] == [Update(if r == Ok then OkCount else ErrorCount, 1)];
    }
    assert Coming(Settling(Ok)) == 0 && Coming(Settling(Failed)) == 0;
  }

  /** A store adds its own change, and loses the changes since its load. */
  lemma {:induction false} StoreAccounts(s: Race, t: nat)
    requires Accounted(s) && t < |s.calls| && s.calls[t].todo != [] && s.calls[t].loaded.Some?
    ensures Accounted(StoreStep(s, t))
  {
    hide U32, Overtake;
    var call := s.calls[t];
    var u, x := call.todo[0], call.loaded.value;
    var others := Overtake(s.calls, t, u.counter);
    OvertakeKeeps(s.calls, t, u.counter);
    ComingSame(s.calls, others);
    ComingUpdate(others, t, call.(todo := call.todo[1..], loaded := None, overtaken := false));
    var sum := s.counters.pending + s.counters.ok + s.counters.error;
    if u.counter != Sent {
      var rest := sum - Get(s.counters, u.counter);
      var more := rest + AllComing(s.calls) - u.delta + s.lost + Get(s.counters, u.counter) - x;
      U32Add(x + u.delta, more);
      assert sum + AllComing(s.calls) + s.lost == x + u.delta + more;
    }
  }

  lemma {:induction false} OvertakeKeeps(calls: seq<Call>, t: nat, counter: Counter)
    ensures forall i :: 0 <= i < |calls| ==> Overtake(calls, t, counter)[i].todo == calls[i].todo
    ensures forall i :: 0 <= i < |calls| ==> Overtake(calls, t, counter)[i].loaded == calls[i].loaded
    ensures forall i :: 0 <= i < |calls| ==>
              Overtake(calls, t, counter)[i].overtaken
              == (calls[i].overtaken ||
                  (i != t && calls[i].loaded.Some? && calls[i].todo != [] && calls[i].todo[0].counter == counter))
  {
  }

  lemma {:induction false} StepAccounts(s: Race, e: Event)
    requires Accounted(s)
    ensures Accounted(Step(s, e))
  {
    hide U32, StoreStep, AllComing, Coming;
    ComingFew();
    var t := Target(e);
    if t < |s.calls| && Step(s, e) != s {
      var sum := s.counters.pending + s.counters.ok + s.counters.error;
      if e.Store? {
        StoreAccounts(s, t);
      } else {
        var after := Step(s, e).calls[t];
        ComingUpdate(s.calls, t, after);
        var d := Coming(after.todo) - Coming(s.calls[t].todo);
        U32Add(sum + AllComing(s.calls) + s.lost, d);
        U32Add(s.accepted + s.sending, d);
      }
    }
  }

  lemma {:induction false} NoneAccounted(threads: nat)
    ensures Accounted(Run(threads, []))
  {
    NothingComing(seq(threads, _ => RESTING));
  }

  lemma {:induction false} NothingComing(calls: seq<Call>)
    requires forall i :: 0 <= i < |calls| ==> calls[i].todo == []
    ensures AllComing(calls) == 0
    decreases |calls|
  {
    if calls != [] {
      NothingComing(calls[1..]);
    }
  }

  /** In every run, overlapping or not, the counters are short of the writes by exactly what was lost. */
  lemma {:induction false} RunAccounts(threads: nat, events: seq<Event>)
    ensures Accounted(Run(threads, events))
    decreases |events|
  {
    hide Step, Accounted;
    if events == [] {
      NoneAccounted(threads);
    } else {
      RunAccounts(threads, events[..|events| - 1]);
      StepAccounts(Run(threads, events[..|events| - 1]), events[|events| - 1]);
    }
  }

  /** No update is under way. */
  ghost predicate Quiet(s: Race) {
    forall i :: 0 <= i < |s.calls| ==> s.calls[i].todo == []
  }

  /** Between updates the counters balance if and only if nothing was lost. */
  lemma {:induction false} BalancedExactly(threads: nat, events: seq<Event>)
    requires Quiet(Run(threads, events))
    ensures var s := Run(threads, events);
            U32(s.counters.pending + s.counters.ok + s.counters.error) == U32(s.accepted + s.sending)
            <==> U32(s.lost) == 0
  {
    hide Run, AllComing;
    var s := Run(threads, events);
    RunAccounts(threads, events);
    NothingComing(s.calls);
    LostShifts(s.counters.pending + s.counters.ok + s.counters.error, s.lost, s.accepted + s.sending);
  }

  lemma {:induction false} LostShifts(sum: int, lost: int, all: int)
    requires U32(sum + lost) == U32(all)
    ensures U32(sum) == U32(all) <==> U32(lost) == 0
  {
    var k := (sum + lost) / 0x1_0000_0000 - all / 0x1_0000_0000;
    assert sum + lost - all == 0x1_0000_0000 * k;
    if U32(lost) == 0 {
      assert lost == 0x1_0000_0000 * (lost / 0x1_0000_0000);
      Multiples(all - sum, k - lost / 0x1_0000_0000, sum, all);
    }
    if U32(sum) == U32(all) {
      var d := sum / 0x1_0000_0000 - all / 0x1_0000_0000;
      assert sum - all == 0x1_0000_0000 * d;
      assert lost == 0x1_0000_0000 * (k - d);
    }
  }

  lemma {:induction false} Multiples(difference: int, k: int, a: int, b: int)
    requires difference == b - a && difference == -0x1_0000_0000 * k
    ensures U32(a) == U32(b)
  {
    assert a == b + 0x1_0000_0000 * k;
  }

  // ----- updates that do not overlap -----

  /** No store is made by a call that another store of the same counter has overtaken. */
  ghost predicate NoOverlap(threads: nat, events: seq<Event>)
    decreases |events|
  {
    events == [] ||
    (var before, e := events[..|events| - 1], events[|events| - 1];
     && NoOverlap(threads, before)
     && (e.Store? && e.t < |Run(threads, before).calls| ==> !Run(threads, before).calls[e.t].overtaken))
  }

  /** A call that was not overtaken still holds the value of its counter. */
  ghost predicate Current(s: Race) {
    forall i :: 0 <= i < |s.calls| && s.calls[i].loaded.Some? && !s.calls[i].overtaken ==>
      s.calls[i].todo != [] && s.calls[i].loaded == Some(Get(s.counters, s.calls[i].todo[0].counter))
  }

  lemma {:induction false} StepCurrent(s: Race, e: Event)
    requires Current(s)
    ensures Current(Step(s, e))
    ensures (e.Store? && e.t < |s.calls| ==> !s.calls[e.t].overtaken) ==> Step(s, e).lost == s.lost
  {
    hide U32;
    if e.Store? && e.t < |s.calls| && s.calls[e.t].todo != [] {
      OvertakeKeeps(s.calls, e.t, s.calls[e.t].todo[0].counter);
    }
  }

  lemma {:induction false} NothingLost(threads: nat, events: seq<Event>)
    requires NoOverlap(threads, events)
    ensures Current(Run(threads, events)) && Run(threads, events).lost == 0
    decreases |events|
  {
    hide Step, Current;
    if events == [] {
      NoneLoaded(threads);
    } else {
      NothingLost(threads, events[..|events| - 1]);
      StepCurrent(Run(threads, events[..|events| - 1]), events[|events| - 1]);
    }
  }

  lemma {:induction false} NoneLoaded(threads: nat)
    ensures Current(Run(threads, []))
  {
  }

  /** In every run whose updates do not overlap, the counters balance whenever no update is under way. */
  lemma {:induction false} BalancedWithoutOverlap(threads: nat, events: seq<Event>)
    requires NoOverlap(threads, events) && Quiet(Run(threads, events))
    ensures var s := Run(threads, events);
            U32(s.counters.pending + s.counters.ok + s.counters.error) == U32(s.accepted + s.sending)
  {
    hide Run, NoOverlap;
    NothingLost(threads, events);
    BalancedExactly(threads, events);
  }

  /** Two writes have begun and loaded the same value. */
  lemma {:induction false} BothLoad(qos: Qos)
    ensures var l := Call(Handing, [Update(Pending, 1)], Some(0), false);
            Step(Step(Step(Step(Run(2, []), Event.Begin(0, qos)), Event.Begin(1, qos)), Load(0)), Load(1))
            == Race(Counters(0, 0, 0, 0), qos, [l, l], 0, 2, 0, 0)
  {
    var s0 := Run(2, []);
    assert s0.calls == [RESTING, RESTING];
    var w := Call(Handing, [Update(Pending, 1)], None, false);
    var s2 := Step(Step(s0, Event.Begin(0, qos)), Event.Begin(1, qos));
    assert s2.calls == [w, w];
    var l := w.(loaded := Some(0));
    assert Step(Step(s2, Load(0)), Load(1)).calls == [l, l];
  }

  /** Two writes that begin together: one is lost, and the counters show one message of two. */
  lemma {:induction false} OverlapLosesOne(qos: Qos)
    ensures var s4 := Step(Step(Step(Step(Run(2, []), Event.Begin(0, qos)), Event.Begin(1, qos)), Load(0)), Load(1));
            var s := Step(Step(s4, Store(0)), Store(1));
            Quiet(s) && s.counters.pending == 1 && s.sending == 2 && s.lost == 1
  {
    hide Overtake, Run;
    BothLoad(qos);
    var todo, l := [Update(Pending, 1)], Call(Handing, [Update(Pending, 1)], Some(0), false);
    var s4 := Race(Counters(0, 0, 0, 0), qos, [l, l], 0, 2, 0, 0);
    assert todo[1..] == [];
    OvertakeKeeps(s4.calls, 0, Pending);
    var s5 := StoreStep(s4, 0);
    assert s5.calls[0].todo == [] && s5.calls[1].todo == todo && s5.calls[1].loaded == Some(0) && |s5.calls| == 2;
    OvertakeKeeps(s5.calls, 1, Pending);
    assert Step(Step(s4, Store(0)), Store(1)) == StoreStep(s5, 1);
  }

  // ----- a handler that nobody disturbs -----

  /** The status that the counters of a race are those of. */
  function StatusOf(cs: Counters): Status {
    Fresh().(pending := cs.pending, ok := cs.ok, error := cs.error, sent := cs.sent)
  }

  /** A verdict whose two updates are made one right after the other is settled as in one step. */
  lemma {:induction false} SettlesAlone(s: Race, t: nat, result: Result)
    requires t < |s.calls| && s.calls[t] == Call(Free, Settling(result), None, false)
    ensures var u := Step(Step(Step(Step(s, Load(t)), Store(t)), Load(t)), Store(t));
            u.calls[t] == RESTING && u.lost == s.lost && StatusOf(u.counters) == Settle(StatusOf(s.counters), result)
  {
    hide Overtake, U32;
    var both := Settling(result);
    var s1 := Step(s, Load(t));
    assert s1.calls[t] == Call(Free, both, Some(s.counters.pending), false);
    var s2 := Step(s1, Store(t));
    assert s2.calls[t] == Call(Free, both[1..], None, false) && both[1..] == [both[1]];
    var s3 := Step(s2, Load(t));
    var s4 := Step(s3, Store(t));
    assert both[1..][1..] == [];
  }
}
