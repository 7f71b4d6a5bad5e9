/**
 The counters of a publication's writes: a write makes a message pending, and the broker's replies
 turn pending messages into ok or error ones.  Any number of threads may write; the replies, the
 timeouts and the steps of the callers interleave.
 */
module WriteAccounting {
  import opened Words

  datatype Qos = Zero | One | Two

  datatype Result = Ok | Failed

  /** The publication's status and the pending request its writes share. */
  datatype Status = Status(
    pending: Word, ok: Word, error: Word, sent: Word,
    lastQos: Qos,
    triggered: bool, result: Result)

  function Fresh(): Status {
    Status(0, 0, 0, 0, Zero, false, Failed)
  }

  function BeginWrite(s: Status, qos: Qos): Status {
    s.(lastQos := qos, pending := U32(s.pending + 1))
  }

  /** One pending message gets its verdict. */
  function Settle(s: Status, result: Result): Status {
    if result == Ok then s.(pending := U32(s.pending - 1), ok := U32(s.ok + 1))
    else s.(pending := U32(s.pending - 1), error := U32(s.error + 1))
  }

  /** The handler of an acknowledged write: with QoS 2 only a failure is final. */
  function OnWriteResult(s: Status, result: Result): Status {
    if s.lastQos != Two || result == Failed then Settle(s, result) else s
  }

  /** The handler of a completed delivery, which needs a pending QoS 2 message. */
  function OnDeliveryResult(s: Status, result: Result): (Status, Result) {
    if s.lastQos != Two || s.pending == 0 then (s, Failed) else (Settle(s, result), Ok)
  }

  /** Wakes the caller with a result. */
  function Notify(s: Status, result: Result): Status {
    s.(triggered := true, result := result)
  }

  /** The broker's reply to a write: with QoS 2 it passes through both handlers. */
  function OnReply(s: Status, result: Result): Status {
    var written := OnWriteResult(s, result);
    if s.lastQos != Two then Notify(written, result)
    else
      var delivery := OnDeliveryResult(written, result);
      Notify(delivery.0, if delivery.1 == Ok then result else Failed)
  }

  /** The three counters together, which a reply can only shift about. */
  function Total(s: Status): Word {
    U32(s.pending + s.ok + s.error)
  }

  lemma {:induction false} SettleKeepsTotal(s: Status, result: Result)
    ensures Total(Settle(s, result)) == Total(s)
  {
    hide U32;
    U32Add(s.pending - 1, s.ok + s.error + 1);
    U32Add(s.ok + 1, U32(s.pending - 1) + s.error);
    U32Add(s.error + 1, U32(s.pending - 1) + s.ok);
    U32Add(s.pending - 1, s.ok + 1 + s.error);
  }

  lemma {:induction false} ReplyKeepsTotal(s: Status, result: Result)
    ensures Total(OnReply(s, result)) == Total(s)
  {
    hide U32, Settle, Total;
    SettleKeepsTotal(s, result);
    SettleKeepsTotal(OnWriteResult(s, result), result);
    NotifyKeepsTotal(OnWriteResult(s, result), result);
    NotifyKeepsTotal(OnDeliveryResult(OnWriteResult(s, result), result).0, result);
    NotifyKeepsTotal(OnDeliveryResult(OnWriteResult(s, result), result).0, Failed);
  }

  lemma {:induction false} NotifyKeepsTotal(s: Status, result: Result)
    ensures Total(Notify(s, result)) == Total(s)
  {
  }

  /**
   A reply counts exactly one verdict, and notifies it, exactly when QoS 2 is not involved or
   what is pending fits: one message for a failure, some message for a success.
   */
  lemma {:induction false} CountsOnceExactlyWhen(s: Status, result: Result)
    ensures OnReply(s, result) == Notify(Settle(s, result), result) <==>
            s.lastQos != Two || (if result == Ok then s.pending != 0 else s.pending == 1)
  {
    assert U32(s.pending - 1) == if s.pending == 0 then 0xFFFF_FFFF else s.pending - 1;
    if s.lastQos == Two && result == Failed && s.pending != 1 {
      var once := Settle(s, Failed);
      assert once.error != Settle(once, Failed).error;
    }
  }

  /** The delivery handler refuses an OK when nothing is pending. */
  predicate FindsNothing(s: Status, result: Result) {
    s.lastQos == Two && result == Ok && s.pending == 0
  }

  /** What a reply leaves for the wait. */
  lemma {:induction false} ReplyGives(s: Status, result: Result)
    ensures OnReply(s, result).result == (if FindsNothing(s, result) then Failed else result)
    ensures OnReply(s, result).triggered
  {
    hide U32;
  }

  // ----- runs -----

  /** Where a thread is in its call of write. */
  datatype Pc = Idle | Sending | Submitted | Waiting | Returned(result: Result)

  datatype Action =
    | Begin(t: nat, qos: Qos)
    | Refuse(t: nat)             // the MQTT library does not take the message
    | Accept(t: nat)             // it does, and replies some time
    | CountSent(t: nat)
    | Wake(t: nat)
    | Timeout(t: nat)
    | Reply(result: Result)

  /**
   `accepted` counts the writes the library took, `sending` the calls still waiting for its answer,
   `unanswered` the submissions without a reply; `returned` lists the results of completed waits.
   */
  datatype State = State(
    status: Status,
    threads: map<nat, Pc>,
    accepted: nat,
    sending: nat,
    unanswered: nat,
    verdicts: seq<Result>,
    returned: seq<Result>)

  function PcOf(s: State, t: nat): Pc {
    if t in s.threads then s.threads[t] else Idle
  }

  function Moved(s: State, t: nat, pc: Pc): State {
    s.(threads := s.threads[t := pc])
  }

  function Step(s: State, a: Action): State {
    match a
    case Begin(t, qos) =>
      if !PcOf(s, t).Idle? && !PcOf(s, t).Returned? then s
      else Moved(s, t, Sending).(status := BeginWrite(s.status, qos), sending := s.sending + 1)
    case Refuse(t) =>
      if !PcOf(s, t).Sending? || s.sending == 0 then s
      else
        Moved(s, t, Returned(Failed))
        .(status := s.status.(pending := U32(s.status.pending - 1)), sending := s.sending - 1)
    case Accept(t) =>
      if !PcOf(s, t).Sending? || s.sending == 0 then s
      else
        Moved(s, t, Submitted)
        .(sending := s.sending - 1, accepted := s.accepted + 1, unanswered := s.unanswered + 1)
    case CountSent(t) =>
      if !PcOf(s, t).Submitted? then s
      else Moved(s, t, Waiting).(status := s.status.(sent := U32(s.status.sent + 1)))
    case Wake(t) =>
      if !PcOf(s, t).Waiting? || !s.status.triggered then s
      else
        Moved(s, t, Returned(s.status.result))
        .(status := s.status.(triggered := false), returned := s.returned + [s.status.result])
    case Timeout(t) =>
      if !PcOf(s, t).Waiting? then s else Moved(s, t, Returned(Failed))
    case Reply(result) =>
      if s.unanswered == 0 then s
      else
        s.(status := OnReply(s.status, result), unanswered := s.unanswered - 1, verdicts := s.verdicts + [result])
  }

  function Run(actions: seq<Action>): State
    decreases |actions|
  {
    if actions == [] then State(Fresh(), map[], 0, 0, 0, [], [])
    else Step(Run(actions[..|actions| - 1]), actions[|actions| - 1])
  }

  /** Pending, ok and error messages add up to the writes taken and those being sent. */
  ghost predicate Balanced(s: State) {
    Total(s.status) == U32(s.accepted + s.sending)
  }

  lemma {:induction false} PendingShifts(s: Status, d: int)
    ensures Total(s.(pending := U32(s.pending + d))) == U32(Total(s) + d)
  {
    hide U32;
    U32Add(s.pending + d, s.ok + s.error);
    U32Add(s.pending + s.ok + s.error, d);
  }

  lemma {:induction false} StepBalances(s: State, a: Action)
    requires Balanced(s)
    ensures Balanced(Step(s, a))
  {
    hide U32, OnReply;
    match a
    case Begin(t, qos) =>
      PendingShifts(s.status, 1);
      U32Add(s.accepted + s.sending, 1);
    case Refuse(t) =>
      PendingShifts(s.status, -1);
      U32Add(s.accepted + s.sending, -1);
    case Reply(result) => ReplyKeepsTotal(s.status, result);
    case _ =>
  }

  /** In every run, of any number of threads, pending + ok + error is the number of accepted writes. */
  lemma {:induction false} RunBalances(actions: seq<Action>)
    ensures Balanced(Run(actions))
    decreases |actions|
  {
    hide Step, Total;
    if actions == [] {
      assert Total(Fresh()) == 0 by {
        FreshTotal();
      }
    } else {
      RunBalances(actions[..|actions| - 1]);
      StepBalances(Run(actions[..|actions| - 1]), actions[|actions| - 1]);
    }
  }

  lemma {:induction false} FreshTotal()
    ensures Total(Fresh()) == 0
  {
  }

  // ----- late replies -----

  /** A write whose wait timed out is answered late: the next write returns that verdict as its own. */
  lemma {:induction false} LateVerdictTaken(s: State, t: nat, qos: Qos)
    requires PcOf(s, t).Waiting? && !s.status.triggered && s.unanswered == 1 && s.sending == 0
    requires s.status.lastQos != Two && qos != Two
    ensures var again := Step(Step(Step(Step(s, Timeout(t)), Begin(t, qos)), Accept(t)), CountSent(t));
            var end := Step(Step(again, Reply(Failed)), Wake(t));
            PcOf(end, t) == Returned(Failed) && end.unanswered == 1 && end.accepted == s.accepted + 1
  {
    hide U32;
  }

  // ----- one write at a time -----

  predicate Busy(pc: Pc) {
    !pc.Idle? && !pc.Returned?
  }

  ghost predicate Resting(s: State) {
    forall t: nat :: !Busy(PcOf(s, t))
  }

  /** A write begins only when none is outstanding, and no wait times out. */
  ghost predicate OneAtATime(actions: seq<Action>)
    decreases |actions|
  {
    actions == [] ||
    (var before, a := actions[..|actions| - 1], actions[|actions| - 1];
     OneAtATime(before) && !a.Timeout? && (a.Begin? ==> Resting(Run(before))))
  }

  function Count(rs: seq<Result>, r: Result): nat
    decreases |rs|
  {
    if rs == [] then 0 else Count(rs[..|rs| - 1], r) + if rs[|rs| - 1] == r then 1 else 0
  }

  lemma {:induction false} CountNext(rs: seq<Result>, r: Result, x: Result)
    ensures Count(rs + [x], r) == Count(rs, r) + if x == r then 1 else 0
  {
    assert (rs + [x])[..|rs| + 1 - 1] == rs;
  }

  /** The counters are those of the broker's verdicts. */
  ghost predicate Counted(s: State) {
    && s.status.ok == U32(Count(s.verdicts, Ok))
    && s.status.error == U32(Count(s.verdicts, Failed))
  }

  /** Every verdict so far went to its caller. */
  ghost predicate AllAnswered(s: State) {
    s.status.pending == 0 && s.unanswered == 0 && s.sending == 0 && !s.status.triggered && s.returned == s.verdicts
  }

  /** The verdict of the current write, if the broker gave it, is not yet taken by the caller. */
  ghost predicate Answered(s: State) {
    if s.status.triggered
    then s.status.pending == 0 && s.unanswered == 0 && s.verdicts == s.returned + [s.status.result]
    else s.status.pending == 1 && s.unanswered == 1 && s.verdicts == s.returned
  }

  ghost predicate Single(s: State) {
    && Counted(s)
    && (forall t: nat, u: nat :: Busy(PcOf(s, t)) && Busy(PcOf(s, u)) ==> t == u)
    && (Resting(s) ==> AllAnswered(s))
    && (forall t: nat :: PcOf(s, t).Sending? ==>
          s.status.pending == 1 && s.unanswered == 0 && s.sending == 1 && !s.status.triggered
          && s.returned == s.verdicts)
    && (forall t: nat :: PcOf(s, t).Submitted? || PcOf(s, t).Waiting? ==> s.sending == 0 && Answered(s))
  }

  /** A submission without a reply is that of the one busy caller. */
  lemma {:induction false} UnansweredIsCurrent(s: State)
    requires Single(s) && s.unanswered != 0
    ensures s.status.pending == 1 && s.unanswered == 1 && !s.status.triggered && s.verdicts == s.returned
    ensures s.sending == 0
    ensures !Resting(s) && forall t: nat :: !PcOf(s, t).Sending?
  {
    hide Counted;
    assert !AllAnswered(s);
    var t: nat :| Busy(PcOf(s, t));
    assert Answered(s);
  }

  lemma {:induction false} ReplyCounts(s: State, result: Result)
    requires Counted(s) && s.status.pending == 1 && s.unanswered == 1
    ensures var s' := Step(s, Reply(result));
            && Counted(s') && s'.status.triggered && s'.status.result == result && s'.status.pending == 0
  {
    hide U32, OnReply, Count;
    CountsOnceExactlyWhen(s.status, result);
    assert Step(s, Reply(result)).status == Notify(Settle(s.status, result), result);
    U32Small(0);
    CountNext(s.verdicts, Ok, result);
    CountNext(s.verdicts, Failed, result);
    if result == Ok {
      U32Add(Count(s.verdicts, Ok), 1);
    } else {
      U32Add(Count(s.verdicts, Failed), 1);
    }
  }

  lemma {:induction false} ReplyIsSingle(s: State, result: Result)
    requires Single(s) && s.unanswered != 0
    ensures Single(Step(s, Reply(result)))
  {
    hide OnReply, Counted;
    UnansweredIsCurrent(s);
    ReplyCounts(s, result);
    assert forall t: nat :: PcOf(Step(s, Reply(result)), t) == PcOf(s, t);
  }

  /** The steps of the one busy caller, or of one that begins. */
  lemma {:induction false} OnlyMover(s: State, s': State, t: nat)
    requires forall u: nat :: Busy(PcOf(s, u)) ==> u == t
    requires t in s'.threads && s'.threads == s.threads[t := s'.threads[t]]
    ensures forall u: nat :: PcOf(s', u) == if u == t then PcOf(s', t) else PcOf(s, u)
    ensures forall u: nat :: Busy(PcOf(s', u)) ==> u == t
    ensures Resting(s') <==> !Busy(PcOf(s', t))
    ensures forall u: nat :: PcOf(s', u).Sending? ==> u == t && PcOf(s', t).Sending?
    ensures forall u: nat :: PcOf(s', u).Submitted? || PcOf(s', u).Waiting? ==> u == t
  {
    assert PcOf(s', t) == s'.threads[t];
  }

  lemma {:induction false} BeginIsSingle(s: State, t: nat, qos: Qos)
    requires Single(s) && Resting(s)
    ensures Single(Step(s, Begin(t, qos)))
  {
    hide U32;
    U32Small(1);
    OnlyMover(s, Step(s, Begin(t, qos)), t);
  }

  lemma {:induction false} RefuseIsSingle(s: State, t: nat)
    requires Single(s) && PcOf(s, t).Sending?
    ensures Single(Step(s, Refuse(t)))
  {
    hide U32;
    U32Small(0);
    OnlyMover(s, Step(s, Refuse(t)), t);
  }

  lemma {:induction false} AcceptIsSingle(s: State, t: nat)
    requires Single(s) && PcOf(s, t).Sending?
    ensures Single(Step(s, Accept(t)))
  {
    hide U32, Counted;
    assert Counted(Step(s, Accept(t))) by {
      CountedStays(s, Step(s, Accept(t)));
    }
    OnlyMover(s, Step(s, Accept(t)), t);
  }

  lemma {:induction false} CountSentIsSingle(s: State, t: nat)
    requires Single(s) && PcOf(s, t).Submitted?
    ensures Single(Step(s, CountSent(t)))
  {
    hide U32, Counted;
    assert Counted(Step(s, CountSent(t))) by {
      CountedStays(s, Step(s, CountSent(t)));
    }
    OnlyMover(s, Step(s, CountSent(t)), t);
  }

  lemma {:induction false} WakeIsSingle(s: State, t: nat)
    requires Single(s) && PcOf(s, t).Waiting? && s.status.triggered
    ensures Single(Step(s, Wake(t)))
  {
    hide U32, Counted;
    assert Counted(Step(s, Wake(t))) by {
      CountedStays(s, Step(s, Wake(t)));
    }
    OnlyMover(s, Step(s, Wake(t)), t);
  }

  lemma {:induction false} CountedStays(s: State, s': State)
    requires Counted(s) && s'.status.ok == s.status.ok && s'.status.error == s.status.error && s'.verdicts == s.verdicts
    ensures Counted(s')
  {
  }

  lemma {:induction false} StepIsSingle(s: State, a: Action)
    requires Single(s) && !a.Timeout? && (a.Begin? ==> Resting(s))
    ensures Single(Step(s, a))
  {
    hide Single;
    if Step(s, a) != s {
      match a
      case Begin(t, qos) => BeginIsSingle(s, t, qos);
      case Refuse(t) => RefuseIsSingle(s, t);
      case Accept(t) => AcceptIsSingle(s, t);
      case CountSent(t) => CountSentIsSingle(s, t);
      case Wake(t) => WakeIsSingle(s, t);
      case Reply(result) => ReplyIsSingle(s, result);
    }
  }

  lemma {:induction false} NoneIsSingle()
    ensures Single(Run([]))
  {
  }

  lemma {:induction false} RunIsSingle(actions: seq<Action>)
    requires OneAtATime(actions)
    ensures Single(Run(actions))
    decreases |actions|
  {
    hide Single, Step;
    if actions == [] {
      NoneIsSingle();
    } else {
      RunIsSingle(actions[..|actions| - 1]);
      StepIsSingle(Run(actions[..|actions| - 1]), actions[|actions| - 1]);
    }
  }

  /**
   With one write at a time and no timeout, for every QoS: ok and error count exactly the broker's
   verdicts, each once, and the callers return those verdicts in order; between writes nothing is
   pending.  The reply may come before the caller waits.
   */
  lemma {:induction false} EachWriteOneVerdict(actions: seq<Action>)
    requires OneAtATime(actions)
    ensures var s := Run(actions);
            && s.status.ok == U32(Count(s.verdicts, Ok)) && s.status.error == U32(Count(s.verdicts, Failed))
            && s.returned <= s.verdicts && |s.verdicts| <= |s.returned| + 1
            && (Resting(s) ==> s.returned == s.verdicts && s.status.pending == 0)
  {
    RunIsSingle(actions);
    var s := Run(actions);
    if !Resting(s) {
      var t: nat :| Busy(PcOf(s, t));
    }
  }

  // ----- messages sent -----

  /** The threads whose write was taken and is not counted as sent yet. */
  function Uncounted(s: State): set<nat> {
    set t | t in s.threads && s.threads[t].Submitted?
  }

  ghost predicate SentCounted(s: State) {
    U32(s.status.sent + |Uncounted(s)|) == U32(s.accepted)
  }

  lemma {:induction false} ReplyKeepsSent(s: Status, result: Result)
    ensures OnReply(s, result).sent == s.sent
  {
  }

  lemma {:induction false} OneMoves(s: State, s': State, t: nat, pc: Pc)
    requires s'.threads == s.threads[t := pc]
    ensures |Uncounted(s')| + (if PcOf(s, t).Submitted? then 1 else 0)
            == |Uncounted(s)| + if pc.Submitted? then 1 else 0
  {
    assert t in Uncounted(s) <==> PcOf(s, t).Submitted?;
    assert Uncounted(s') == if pc.Submitted? then Uncounted(s) + {t} else Uncounted(s) - {t};
  }

  lemma {:induction false} SameThreads(s: State, s': State)
    requires s'.threads == s.threads
    ensures Uncounted(s') == Uncounted(s)
  {
  }

  /** A call's own step, in numbers. */
  lemma {:induction false} CallCounts(s: State, a: Action)
    requires !a.Reply? && Step(s, a) != s
    ensures var s' := Step(s, a);
            if a.Accept? then
              s'.accepted == s.accepted + 1 && s'.status.sent == s.status.sent && |Uncounted(s')| == |Uncounted(s)| + 1
            else if a.CountSent? then
              && s'.accepted == s.accepted && s'.status.sent == U32(s.status.sent + 1)
              && |Uncounted(s')| == |Uncounted(s)| - 1
            else
              s'.accepted == s.accepted && s'.status.sent == s.status.sent && |Uncounted(s')| == |Uncounted(s)|
  {
    hide OnReply, U32, Uncounted;
    OneMoves(s, Step(s, a), a.t, PcOf(Step(s, a), a.t));
  }

  lemma {:induction false} StepKeepsSent(s: State, a: Action)
    requires SentCounted(s)
    ensures SentCounted(Step(s, a))
  {
    hide OnReply, U32, Uncounted;
    var s' := Step(s, a);
    if a.Reply? {
      ReplyKeepsSent(s.status, a.result);
      SameThreads(s, s');
    } else if s' != s {
      CallCounts(s, a);
      U32Add(s.status.sent + |Uncounted(s)|, 1);
      U32Add(s.accepted, 1);
      U32Add(s.status.sent + 1, |Uncounted(s')|);
    }
  }

  /** In every run, with timeouts, the writes taken are those counted as sent and those about to be. */
  lemma {:induction false} RunCountsSent(actions: seq<Action>)
    ensures SentCounted(Run(actions))
    decreases |actions|
  {
    hide Step, SentCounted;
    if actions == [] {
      NothingSent();
    } else {
      RunCountsSent(actions[..|actions| - 1]);
      StepKeepsSent(Run(actions[..|actions| - 1]), actions[|actions| - 1]);
    }
  }

  lemma {:induction false} NothingSent()
    ensures SentCounted(Run([]))
  {
    assert Uncounted(Run([])) == {};
  }

  /**
   Two QoS 2 writes outstanding: the failure of one is counted twice, and the success of the other
   is then reported as an error.
   */
  lemma {:induction false} TwoOutstandingMiscount()
    ensures var s := BeginWrite(BeginWrite(Fresh(), Two), Two);
            var failed := OnReply(s, Failed);
            var both := OnReply(failed, Ok);
            failed.error == 2 && failed.pending == 0 && both.ok == 0 && both.result == Failed
  {
  }
}
