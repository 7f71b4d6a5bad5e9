/**
 What the MQTT receive queue promises: a first-in first-out queue with message counters, one read
 buffer that can be lent to the reader, and a record of where every message has gone.
 */
module ReceiveQueueSpec {
  import opened Words
  import opened Wrappers

  datatype Counters = Counters(received: Word, unread: Word, read: Word, lost: Word)

  /** The counters and messages of a queue, and what has happened to every message so far. */
  datatype State<T> = State(
    held: seq<T>,        // not yet read, oldest first
    loan: seq<T>,        // read, and still in the lent read buffer
    counters: Counters,
    arrived: seq<T>,
    delivered: seq<T>,   // handed to the reader, by copy or on loan, in order
    released: seq<T>,    // deleted by the queue
    dropped: seq<T>)     // replaced before being read

  function Initial<T>(): State<T> {
    State([], [], Counters(0, 0, 0, 0), [], [], [], [])
  }

  /** How many messages a read of at most `max` takes from the ring: a full ring looks empty. */
  function RingTakes(capacity: nat, size: nat, max: nat): (n: nat)
    ensures n <= size
  {
    if size == capacity then 0 else if max < size then max else size
  }

  function RingReceive<T>(capacity: nat, s: State<T>, m: T): State<T>
    requires 0 < capacity && |s.held| <= capacity
  {
    var c := s.counters;
    if |s.held| < capacity then
      s.(held := s.held + [m], arrived := s.arrived + [m],
         counters := c.(received := U32(c.received + 1), unread := U32(c.unread + 1)))
    else
      s.(held := s.held[1..] + [m], arrived := s.arrived + [m], dropped := s.dropped + [s.held[0]],
         counters := c.(received := U32(c.received + 1), lost := U32(c.lost + 1)))
  }

  /** The queue after the reader got its oldest `n` messages. */
  function Taken<T>(s: State<T>, n: nat): State<T>
    requires n <= |s.held|
  {
    var c := s.counters;
    s.(held := s.held[n..], delivered := s.delivered + s.held[..n],
       counters := c.(unread := U32(c.unread - n), read := U32(c.read + n)))
  }

  /** A read into the reader's own buffer: the messages are copied and deleted. */
  function CopyOut<T>(s: State<T>, n: nat): State<T>
    requires n <= |s.held|
  {
    Taken(s, n).(released := s.released + s.held[..n])
  }

  /** A read that lends the read buffer. */
  function LendOut<T>(s: State<T>, n: nat): State<T>
    requires n <= |s.held| && s.loan == []
  {
    Taken(s, n).(loan := s.held[..n])
  }

  /** A read that copies into a sequence still on loan: the copies replace the first lent messages. */
  function CopyOver<T>(s: State<T>, n: nat): State<T>
    requires n <= |s.held| && n <= |s.loan|
  {
    CopyOut(s, n).(loan := s.held[..n] + s.loan[n..])
  }

  /** Giving back a sequence that holds `given`: only those messages are deleted. */
  function GiveBack<T>(s: State<T>, given: seq<T>): State<T> {
    s.(loan := [], released := s.released + given)
  }

  function ReturnLoan<T>(s: State<T>): State<T> {
    s.(loan := [], released := s.released + s.loan)
  }

  // ----- runs -----

  /** What the users of a queue can do.  A loan-mode read during a loan fails and changes nothing. */
  datatype Op<T> = Receive(m: T) | ReadCopy(max: nat) | ReadLoan | Return

  function RingStep<T>(capacity: nat, s: State<T>, op: Op<T>): State<T>
    requires 0 < capacity && |s.held| <= capacity
  {
    match op
    case Receive(m) => RingReceive(capacity, s, m)
    case ReadCopy(max) => CopyOut(s, RingTakes(capacity, |s.held|, max))
    case ReadLoan => if s.loan != [] then s else LendOut(s, RingTakes(capacity, |s.held|, capacity))
    case Return => ReturnLoan(s)
  }

  /** Every message that arrived is in exactly one place. */
  ghost predicate Placed<T>(s: State<T>) {
    multiset(s.arrived) == multiset(s.held) + multiset(s.loan) + multiset(s.released) + multiset(s.dropped)
  }

  /** First in, first out: what was delivered, then what was dropped, then what is held. */
  ghost predicate InOrder<T>(s: State<T>) {
    s.arrived == s.delivered + s.dropped + s.held
  }

  ghost predicate Counted<T>(s: State<T>) {
    s.counters == Counters(U32(|s.arrived|), U32(|s.held|), U32(|s.delivered|), U32(|s.dropped|))
  }

  ghost predicate Accounted<T>(s: State<T>) {
    Placed(s) && InOrder(s) && Counted(s)
  }

  lemma {:induction false} AccountedBalances<T>(s: State<T>)
    requires Accounted(s)
    ensures s.counters.received == U32(s.counters.unread + s.counters.read + s.counters.lost)
  {
    hide U32, Placed;
    var held, delivered, dropped := |s.held|, |s.delivered|, |s.dropped|;
    U32Add(held, U32(delivered) + U32(dropped));
    U32Add(delivered, held + U32(dropped));
    U32Add(dropped, held + delivered);
    assert |s.arrived| == held + delivered + dropped;
  }

  /** What every state of a ring keeps; once something was dropped, the ring is full. */
  ghost predicate RingInvariant<T>(capacity: nat, s: State<T>) {
    && 0 < capacity && |s.held| <= capacity
    && Accounted(s)
    && (s.dropped != [] ==> |s.held| == capacity)
  }

  lemma {:induction false} TakenPlaced<T>(s: State<T>, n: nat)
    requires Placed(s) && n <= |s.held|
    ensures Placed(CopyOut(s, n)) && (s.loan == [] ==> Placed(LendOut(s, n)))
  {
    assert s.held == s.held[..n] + s.held[n..];
    assert multiset(s.held) == multiset(s.held[..n]) + multiset(s.held[n..]);
  }

  lemma {:induction false} TakenInOrder<T>(s: State<T>, n: nat)
    requires InOrder(s) && n <= |s.held| && (n > 0 ==> s.dropped == [])
    ensures InOrder(Taken(s, n))
  {
    var taken, rest := s.held[..n], s.held[n..];
    assert s.held == taken + rest;
    if n > 0 {
      assert s.delivered + [] + s.held == (s.delivered + taken) + [] + rest;
    } else {
      assert taken == [] && rest == s.held && s.delivered + taken == s.delivered;
    }
  }

  lemma {:induction false} TakenCounted<T>(s: State<T>, n: nat)
    requires Counted(s) && n <= |s.held|
    ensures Counted(Taken(s, n))
  {
    hide U32;
    U32Add(|s.held|, 0 - n);
    U32Add(|s.delivered|, n);
  }

  lemma {:induction false} TakenAccounted<T>(s: State<T>, n: nat)
    requires Accounted(s) && n <= |s.held| && (n > 0 ==> s.dropped == [])
    ensures Accounted(CopyOut(s, n)) && (s.loan == [] ==> Accounted(LendOut(s, n)))
  {
    hide U32, Placed;
    TakenPlaced(s, n);
    TakenInOrder(s, n);
    TakenCounted(s, n);
  }

  lemma {:induction false} NothingAccounted<T>()
    ensures Accounted(Initial<T>())
  {
  }

  lemma {:induction false} ReturnedAccounted<T>(s: State<T>)
    requires Accounted(s)
    ensures Accounted(ReturnLoan(s))
  {
  }

  lemma {:induction false} ReceivedPlaced<T>(capacity: nat, s: State<T>, m: T)
    requires 0 < capacity && |s.held| <= capacity && Placed(s)
    ensures Placed(RingReceive(capacity, s, m))
  {
    if |s.held| == capacity {
      assert s.held == [s.held[0]] + s.held[1..];
      assert multiset(s.held) == multiset([s.held[0]]) + multiset(s.held[1..]);
    }
  }

  lemma {:induction false} ReceivedInOrder<T>(capacity: nat, s: State<T>, m: T)
    requires 0 < capacity && |s.held| <= capacity && InOrder(s)
    ensures InOrder(RingReceive(capacity, s, m))
  {
    var d, l := s.delivered, s.dropped;
    if |s.held| < capacity {
      assert d + l + (s.held + [m]) == d + l + s.held + [m];
    } else {
      var first, rest := s.held[0], s.held[1..];
      assert s.held == [first] + rest;
      assert d + (l + [first]) + (rest + [m]) == d + l + ([first] + rest) + [m];
    }
  }

  lemma {:induction false} ReceivedCounted<T>(capacity: nat, s: State<T>, m: T)
    requires 0 < capacity && |s.held| <= capacity && Counted(s)
    ensures Counted(RingReceive(capacity, s, m))
  {
    hide U32;
    U32Add(|s.arrived|, 1);
    U32Add(|s.held|, 1);
    U32Add(|s.dropped|, 1);
  }

  lemma {:induction false} RingStepKeeps<T>(capacity: nat, s: State<T>, op: Op<T>)
    requires RingInvariant(capacity, s)
    ensures RingInvariant(capacity, RingStep(capacity, s, op))
    ensures |s.held| == capacity ==>
            var r := RingStep(capacity, s, op); |r.held| == capacity && r.delivered == s.delivered
  {
    hide U32, Placed, InOrder, Counted;
    match op
    case Receive(m) => 
      ReceivedPlaced(capacity, s, m);
      ReceivedInOrder(capacity, s, m);
      ReceivedCounted(capacity, s, m);
    case ReadCopy(max) => TakenAccounted(s, RingTakes(capacity, |s.held|, max));
    case ReadLoan =>
      if s.loan == [] {
        TakenAccounted(s, RingTakes(capacity, |s.held|, capacity));
      }
    case Return => ReturnedAccounted(s);
  }

  function RingRun<T>(capacity: nat, ops: seq<Op<T>>): (s: State<T>)
    requires capacity > 0
    ensures |s.held| <= capacity
    decreases |ops|
  {
    if ops == [] then Initial() else RingStep(capacity, RingRun(capacity, ops[..|ops| - 1]), ops[|ops| - 1])
  }

  /**
   In every run of a ring: the messages delivered, then those dropped, then those held are the
   arrivals in order; each message is in exactly one of queue, loan, released and dropped; and
   received = unread + read + lost.
   */
  lemma {:induction false} RingConserves<T>(capacity: nat, ops: seq<Op<T>>)
    requires capacity > 0
    ensures var s := RingRun(capacity, ops);
            RingInvariant(capacity, s) && s.counters.received
              == U32(s.counters.unread + s.counters.read + s.counters.lost)
    decreases |ops|
  {
    hide RingStep, Accounted, U32;
    if ops == [] {
      NothingAccounted<T>();
    } else {
      RingConserves(capacity, ops[..|ops| - 1]);
      RingStepKeeps(capacity, RingRun(capacity, ops[..|ops| - 1]), ops[|ops| - 1]);
    }
    AccountedBalances(RingRun(capacity, ops));
  }

  /**
   A copy over a loan that is then given back loses the lent messages: those overwritten and those the
   sequence has got too short for.  Only the copies are deleted a second time, in their place.
   */
  lemma {:induction false} CopyOverLoses<T>(s: State<T>, n: nat, m: T)
    requires Placed(s) && n <= |s.held| && n <= |s.loan|
    ensures var r := GiveBack(CopyOver(s, n), s.held[..n]);
            && r.loan == [] && r.released == s.released + s.held[..n] + s.held[..n]
            && multiset(r.held + r.released + r.dropped)[m]
               == multiset(s.arrived)[m] + multiset(s.held[..n])[m] - multiset(s.loan)[m]
  {
    assert s.held == s.held[..n] + s.held[n..];
  }

  /** Once a ring is full it stays full, and nothing is delivered any more. */
  lemma {:induction false} FullForever<T>(capacity: nat, ops: seq<Op<T>>, more: seq<Op<T>>)
    requires capacity > 0 && |RingRun(capacity, ops).held| == capacity
    ensures var r := RingRun(capacity, ops + more);
            |r.held| == capacity && r.delivered == RingRun(capacity, ops).delivered
    decreases |more|
  {
    if more == [] {
      assert ops + more == ops;
    } else {
      var last := |more| - 1;
      FullForever(capacity, ops, more[..last]);
      assert (ops + more)[..|ops + more| - 1] == ops + more[..last];
      RingConserves(capacity, ops + more[..last]);
      RingStepKeeps(capacity, RingRun(capacity, ops + more[..last]), more[last]);
    }
  }

  /** A read gets what a bounded queue owes, the oldest min(max, size), exactly when the ring is not full. */
  lemma {:induction false} ReadsOwedMessages(capacity: nat, size: nat, max: nat)
    requires 0 < capacity && size <= capacity && max > 0
    ensures RingTakes(capacity, size, max) == (if max < size then max else size) <==> size < capacity
  {
  }

  /**
   After any run of a ring, the next read delivers the oldest messages it was asked for, or all of
   them if there are fewer, if and only if the ring is not full; from a full ring it gets nothing.
   */
  lemma {:induction false} NextReadDelivers<T>(capacity: nat, ops: seq<Op<T>>, max: nat)
    requires capacity > 0 && max > 0
    ensures var s, r := RingRun(capacity, ops), RingRun(capacity, ops + [ReadCopy(max)]);
            var owed := if max < |s.held| then max else |s.held|;
            && (r.delivered == s.delivered + s.held[..owed] && r.held == s.held[owed..] <==> |s.held| < capacity)
            && (|s.held| == capacity ==> r.delivered == s.delivered && r.held == s.held)
  {
    hide RingStep;
    RingConserves(capacity, ops);
    var s := RingRun(capacity, ops);
    assert (ops + [ReadCopy(max)])[..|ops|] == ops;
    ReadStep(capacity, s, max);
    ReadsOwedMessages(capacity, |s.held|, max);
  }

  /**
   After any run of a ring with nothing on loan, the next read without a buffer lends everything held if
   and only if the ring is not full, and nothing from a full ring; during a loan it changes nothing.
   */
  lemma {:induction false} NextLoanDelivers<T>(capacity: nat, ops: seq<Op<T>>)
    requires capacity > 0
    ensures var s, r := RingRun(capacity, ops), RingRun(capacity, ops + [ReadLoan]);
            if s.loan != [] then r == s
            else
              && (r.loan == s.held && r.held == [] && r.delivered == s.delivered + s.held <==> |s.held| < capacity)
              && (|s.held| == capacity ==> r.loan == [] && r.held == s.held && r.delivered == s.delivered)
  {
    hide RingTakes;
    RingConserves(capacity, ops);
    var s := RingRun(capacity, ops);
    assert (ops + [ReadLoan])[..|ops|] == ops;
    ReadsOwedMessages(capacity, |s.held|, capacity);
    if |s.held| == capacity {
      FullGivesNone(capacity);
      assert s.delivered + [] == s.delivered;
    }
  }

  lemma {:induction false} FullGivesNone(capacity: nat)
    ensures RingTakes(capacity, capacity, capacity) == 0
  {
  }

  lemma {:induction false} ReadStep<T>(capacity: nat, s: State<T>, max: nat)
    requires 0 < capacity && |s.held| <= capacity
    ensures var n, r := RingTakes(capacity, |s.held|, max), RingStep(capacity, s, ReadCopy(max));
            r.delivered == s.delivered + s.held[..n] && r.held == s.held[n..]
  {
  }

  // ----- the unbounded queue -----

  function UnboundedReceive<T>(s: State<T>, m: T): State<T> {
    var c := s.counters;
    s.(held := s.held + [m], arrived := s.arrived + [m],
       counters := c.(received := U32(c.received + 1), unread := U32(c.unread + 1)))
  }

  /** A read of everything, or a loan of everything. */
  function UnboundedStep<T>(s: State<T>, op: Op<T>): State<T> {
    match op
    case Receive(m) => UnboundedReceive(s, m)
    case ReadCopy(max) => CopyOut(s, |s.held|)
    case ReadLoan => if s.loan != [] then s else LendOut(s, |s.held|)
    case Return => ReturnLoan(s)
  }

  function UnboundedRun<T>(ops: seq<Op<T>>): State<T>
    decreases |ops|
  {
    if ops == [] then Initial() else UnboundedStep(UnboundedRun(ops[..|ops| - 1]), ops[|ops| - 1])
  }

  lemma {:induction false} UnboundedStepKeeps<T>(s: State<T>, op: Op<T>)
    requires Accounted(s) && s.dropped == []
    ensures Accounted(UnboundedStep(s, op)) && UnboundedStep(s, op).dropped == []
  {
    hide U32, Placed, InOrder, Counted;
    match op
    case Receive(m) =>
      assert UnboundedReceive(s, m) == RingReceive(|s.held| + 1, s, m);
      ReceivedPlaced(|s.held| + 1, s, m);
      ReceivedInOrder(|s.held| + 1, s, m);
      ReceivedCounted(|s.held| + 1, s, m);
    case ReadCopy(max) => TakenAccounted(s, |s.held|);
    case ReadLoan =>
      if s.loan == [] {
        TakenAccounted(s, |s.held|);
      }
    case Return => ReturnedAccounted(s);
  }

  /**
   In every run of an unbounded queue whose reads drain it: nothing is ever dropped, the deliveries
   are a prefix of the arrivals, each message is in exactly one place, and the counters balance.
   */
  lemma {:induction false} UnboundedConserves<T>(ops: seq<Op<T>>)
    ensures var s := UnboundedRun(ops);
            && Accounted(s) && s.dropped == [] && s.arrived == s.delivered + s.held
            && s.counters.received == U32(s.counters.unread + s.counters.read + s.counters.lost)
    decreases |ops|
  {
    hide UnboundedStep, Placed, Counted, U32;
    if ops == [] {
      NothingAccounted<T>();
    } else {
      UnboundedConserves(ops[..|ops| - 1]);
      UnboundedStepKeeps(UnboundedRun(ops[..|ops| - 1]), ops[|ops| - 1]);
    }
    var s := UnboundedRun(ops);
    AccountedBalances(s);
    assert s.delivered + [] == s.delivered;
  }

  /** A list of message references none of which is null. */
  function Refs<T>(ms: seq<T>): (r: seq<Option<T>>)
    ensures |r| == |ms| && forall i :: 0 <= i < |ms| ==> r[i] == Some(ms[i])
  {
    seq(|ms|, i requires 0 <= i < |ms| => Some(ms[i]))
  }

  /**
   The references left by a read of the first `n`: the read ones are set to null, nothing is moved
   down, and the list is cut to the new length.
   */
  function AfterRead<T>(queue: seq<Option<T>>, n: nat): (r: seq<Option<T>>)
    requires n <= |queue|
    ensures |r| == |queue| - n
  {
    (seq(n, _ => None) + queue[n..])[..|queue| - n]
  }

  /** A read keeps the unread messages exactly when it takes none of them or all of them. */
  lemma {:induction false} KeepsUnread<T>(held: seq<T>, n: nat)
    requires n <= |held|
    ensures AfterRead(Refs(held), n) == Refs(held[n..]) <==> n == 0 || n == |held|
  {
    var after, kept := AfterRead(Refs(held), n), Refs(held[n..]);
    if 0 < n < |held| {
      assert after[0] == None && kept[0] == Some(held[n]);
    } else {
      assert forall i :: 0 <= i < |kept| ==> after[i] == kept[i];
    }
  }

  /** Two messages, one read: what is left is a null reference, and the second message is gone. */
  lemma {:induction false} PartialReadLoses()
    ensures AfterRead(Refs([1, 2]), 1) == [None]
  {
  }
}
