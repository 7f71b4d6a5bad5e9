/**
 The receive queue of the MQTT adapter: with a capacity it is a ring of slots with a cyclic window
 of unread messages, without one a growing list.  Each method is tied to the queue specification.
 */
module ReceiveQueue {
  import opened ReceiveQueueSpec
  import opened Words
  import opened Wrappers

  /** The read length that asks for every message, on loan. */
  const UNLIMITED := 0

  /** The caller's sequence: its buffer holds `maximum` elements, its own or lent by a queue. */
  class DataSeq<T> {
    var maximum: nat
    var contents: seq<T>
    var onLoan: bool

    constructor ()
      ensures maximum == 0 && contents == [] && !onLoan
    {
      maximum, contents, onLoan := 0, [], false;
    }
  }

  /** How old the message in slot `p` is, in slots after the head. */
  function Age(capacity: nat, head: nat, p: nat): (a: nat)
    requires head < capacity && p < capacity
    ensures a < capacity && (head + a == p || head + a == p + capacity)
  {
    if head <= p then p - head else p - head + capacity
  }

  /** The slot contents that keep `held` from the head on, in arrival order. */
  function Entry<T>(capacity: nat, head: nat, held: seq<T>, p: nat): Option<T>
    requires head < capacity && p < capacity
  {
    var age := Age(capacity, head, p);
    if age < |held| then Some(held[age]) else None
  }

  lemma {:induction false} MultipleOrder(q: int, d: nat)
    ensures (2 <= q ==> 2 * d <= q * d) && (q <= 0 ==> q * d <= 0)
  {
  }

  lemma {:induction false} RemainderOnce(x: nat, d: nat)
    requires 0 < d && x < 2 * d
    ensures x % d == if x < d then x else x - d
  {
    var q, r := x / d, x % d;
    assert x == q * d + r && 0 <= r < d;
    MultipleOrder(q, d);
  }

  /** Moves `n` slots around the ring. */
  function Advance(capacity: nat, slot: nat, n: nat): (r: nat)
    requires slot < capacity && n <= capacity
    ensures r == if slot + n < capacity then slot + n else slot + n - capacity
  {
    RemainderOnce(slot + n, capacity);
    (slot + n) % capacity
  }

  /** Once its `n` oldest messages are taken out, the window starts `n` slots later. */
  lemma {:induction false} WindowMoves<T>(capacity: nat, head: nat, held: seq<T>, n: nat, slots: seq<Option<T>>)
    requires head < capacity == |slots| && n <= |held| <= capacity && n < capacity
    requires forall p :: 0 <= p < capacity ==>
      slots[p] == if Age(capacity, head, p) < n then None else Entry(capacity, head, held, p)
    ensures forall p :: 0 <= p < capacity ==> slots[p] == Entry(capacity, Advance(capacity, head, n), held[n..], p)
    ensures Advance(capacity, Advance(capacity, head, n), |held| - n) == Advance(capacity, head, |held|)
  {
    hide Advance;
    var moved := Advance(capacity, head, n);
    forall p | 0 <= p < capacity
      ensures slots[p] == Entry(capacity, moved, held[n..], p)
    {
      var age := Age(capacity, head, p);
      assert Age(capacity, moved, p) == if n <= age then age - n else age - n + capacity;
    }
  }

  class MessageReceiveQueue<T(!new)> {
    const capacity: nat
    var queue: seq<Option<T>>
    var head: nat
    var next: nat
    var nextUnread: nat
    var size: nat
    var readBuffer: seq<Option<T>>
    var loaned: bool
    var counters: Counters

    ghost var held: seq<T>
    ghost var loan: seq<T>
    ghost var borrower: DataSeq?<T>
    ghost var arrived: seq<T>
    ghost var delivered: seq<T>
    ghost var released: seq<T>
    ghost var dropped: seq<T>

    ghost function State(): State<T>
      reads this
    {
      ReceiveQueueSpec.State(held, loan, counters, arrived, delivered, released, dropped)
    }

    /** The ring's non-null slots are the cyclic window from the head, in arrival order. */
    ghost predicate Window()
      reads this`queue, this`head, this`next, this`nextUnread, this`size, this`held
    {
      && 0 < capacity == |queue| && head < capacity && nextUnread == head
      && size == |held| <= capacity
      && next == Advance(capacity, head, size)
      && (forall p :: 0 <= p < capacity ==> queue[p] == Entry(capacity, head, held, p))
    }

    /** The read buffer starts with the messages on loan, if any. */
    ghost predicate Loan()
      reads this`readBuffer, this`loaned, this`loan, this`borrower
    {
      && (loaned <==> loan != []) && (loaned <==> borrower != null)
      && |loan| <= |readBuffer|
      && (forall i :: 0 <= i < |loan| ==> readBuffer[i] == Some(loan[i]))
    }

    ghost predicate Valid()
      reads this`queue, this`head, this`next, this`nextUnread, this`size, this`held
      reads this`readBuffer, this`loaned, this`loan, this`borrower
      ensures Valid() && capacity > 0 ==> |held| <= capacity
    {
      (if capacity > 0 then Window() else queue == Refs(held)) && Loan()
    }

    /** A sequence on loan is the one this queue lent its read buffer to. */
    ghost predicate Lends(messages: DataSeq<T>)
      reads this`loaned, this`loan, this`borrower, messages
    {
      messages.onLoan ==>
        messages == borrower && loaned && messages.contents == loan && messages.maximum == |loan|
    }

    /** The same, or with fewer messages since a copy was made into it. */
    ghost predicate LendsPart(messages: DataSeq<T>)
      reads this`loaned, this`loan, this`borrower, messages
    {
      messages.onLoan ==>
        messages == borrower && loaned && messages.contents <= loan && messages.maximum == |loan|
    }

    constructor (capacity: nat)
      ensures Valid() && this.capacity == capacity
      ensures State() == Initial()
    {
      this.capacity := capacity;
      queue := seq(capacity, _ => None);
      readBuffer := [];
      head, next, nextUnread, size := 0, 0, 0, 0;
      loaned := false;
      counters := Counters(0, 0, 0, 0);
      held, loan, borrower := [], [], null;
      arrived, delivered, released, dropped := [], [], [], [];
      new;
      if capacity > 0 {
        assert Advance(capacity, 0, 0) == 0;
      }
    }

    // ----- receiving -----

    /** Stores a message, over the oldest one when the ring is full. */
    method ReceiveCircular(m: T) returns (replaced: Option<T>)
      requires Window()
      modifies this`queue, this`head, this`next, this`nextUnread, this`size, this`held
      ensures Window()
      ensures replaced == if |old(held)| < capacity then None else Some(old(held)[0])
      ensures held == (if |old(held)| < capacity then old(held) else old(held)[1..]) + [m]
    {
      hide Advance;
      replaced := queue[next];
      assert Age(capacity, head, next) == if size < capacity then size else 0;
      queue := queue[next := Some(m)];
      ghost var kept := held;
      if size < capacity {
        size := size + 1;
      } else {
        head := Advance(capacity, head, 1);
        kept := held[1..];
      }
      next := Advance(capacity, next, 1);
      if replaced.Some? {
        nextUnread := Advance(capacity, nextUnread, 1);
      }
      held := kept + [m];
    }

    method Receive(m: T) returns (lost: bool, replaced: Option<T>)
      requires Valid()
      modifies this
      ensures Valid()
      ensures State() ==
        if capacity > 0 then RingReceive(capacity, old(State()), m) else UnboundedReceive(old(State()), m)
      ensures lost <==> capacity > 0 && |old(held)| == capacity
      ensures replaced == if lost then Some(old(held)[0]) else None
    {
      hide Advance, Entry, U32;
      if capacity > 0 {
        replaced := ReceiveCircular(m);
      } else {
        replaced := None;
        queue := queue + [Some(m)];
        held := held + [m];
      }
      lost := replaced.Some?;
      arrived := arrived + [m];
      counters := counters.(received := U32(counters.received + 1), unread := U32(counters.unread + 1));
      if lost {
        U32Add(old(counters.unread) + 1, -1);
        U32Small(old(counters.unread));
        counters := counters.(lost := U32(counters.lost + 1), unread := U32(counters.unread - 1));
        dropped := dropped + [replaced.value];
      }
    }

    // ----- reading -----

    /** Gives the lent read buffer back: the messages of the sequence are deleted, once each. */
    method ReturnLoan(messages: DataSeq<T>) returns (ok: bool)
      requires Loan() && LendsPart(messages)
      modifies this`loaned, this`loan, this`borrower, this`released, this`readBuffer, messages
      ensures Loan() && Lends(messages)
      ensures ok <==> !old(loaned) || old(messages.onLoan)
      ensures State() ==
        if ok && old(loaned) then GiveBack(old(State()), old(messages.contents)) else old(State())
      ensures ok && old(Lends(messages)) ==> State() == ReceiveQueueSpec.ReturnLoan(old(State()))
      ensures ok ==> !loaned
      ensures if ok && old(loaned) then !messages.onLoan && messages.contents == [] && messages.maximum == 0
              else unchanged(messages)
    {
      if !loaned {
        assert released + loan == released;
        return true;
      }
      if !messages.onLoan {
        return false;
      }
      var length := |messages.contents|;
      messages.maximum, messages.contents, messages.onLoan := 0, [], false;
      readBuffer := readBuffer[..length];
      ghost var before := released;
      var i := 0;
      while i < length
        invariant 0 <= i <= length == |readBuffer| <= |loan|
        invariant forall j :: i <= j < length ==> readBuffer[j] == Some(loan[j])
        invariant released == before + loan[..i]
        modifies this`released, this`readBuffer
      {
        if readBuffer[i].Some? {
          released := released + [readBuffer[i].value];
          readBuffer := readBuffer[i := None];
        }
        assert loan[..i + 1] == loan[..i] + [loan[i]];
        i := i + 1;
      }
      assert loan[..length] == old(messages.contents);
      readBuffer := [];
      loaned, loan, borrower := false, [], null;
      ok := true;
    }

    /** Takes at most `max` unread messages out of the ring, into the read buffer or copied out. */
    method TakeCircular(max: nat, lend: bool) returns (tot: nat, idx: nat, taken: seq<T>)
      requires Window() && (lend ==> max <= |readBuffer|)
      modifies this`queue, this`readBuffer, this`released
      ensures tot == RingTakes(capacity, |held|, max) && idx == Advance(capacity, head, tot)
      ensures |queue| == capacity && forall p :: 0 <= p < capacity ==>
        queue[p] == if Age(capacity, head, p) < tot then None else Entry(capacity, head, held, p)
      ensures taken == held[..tot]
      ensures if lend then released == old(released) && |readBuffer| == old(|readBuffer|)
                           && forall i :: 0 <= i < tot ==> readBuffer[i] == Some(held[i])
              else readBuffer == old(readBuffer) && released == old(released) + held[..tot]
    {
      hide Advance;
      tot, idx, taken := 0, nextUnread, [];
      while tot < max && idx != next
        invariant tot <= RingTakes(capacity, |held|, max) && tot <= max && idx == Advance(capacity, head, tot)
        invariant |queue| == capacity && forall p :: 0 <= p < capacity ==>
          queue[p] == if Age(capacity, head, p) < tot then None else Entry(capacity, head, held, p)
        invariant taken == held[..tot]
        invariant if lend then released == old(released) && |readBuffer| == old(|readBuffer|)
                               && forall i :: 0 <= i < tot ==> readBuffer[i] == Some(held[i])
                  else readBuffer == old(readBuffer) && released == old(released) + held[..tot]
        decreases max - tot
      {
        assert Age(capacity, head, idx) == tot;
        assert held[..tot + 1] == held[..tot] + [held[tot]];
        taken := taken + [queue[idx].value];
        if lend {
          readBuffer := readBuffer[tot := queue[idx]];
        } else {
          released := released + [queue[idx].value];
        }
        queue := queue[idx := None];
        tot := tot + 1;
        idx := Advance(capacity, nextUnread, tot);
      }
    }

    /** Takes the first `n` messages of the list, setting their references to null. */
    method TakeUnbounded(n: nat, lend: bool) returns (taken: seq<T>)
      requires queue == Refs(held) && n <= |held| && (lend ==> n <= |readBuffer|)
      modifies this`queue, this`readBuffer, this`released
      ensures taken == held[..n]
      ensures |queue| == |held| && forall i :: 0 <= i < |queue| ==> queue[i] == if i < n then None else Some(held[i])
      ensures if lend then released == old(released) && |readBuffer| == old(|readBuffer|)
                           && forall i :: 0 <= i < n ==> readBuffer[i] == Some(held[i])
              else readBuffer == old(readBuffer) && released == old(released) + held[..n]
    {
      taken := [];
      var i := 0;
      while i < n
        invariant i <= n && taken == held[..i]
        invariant |queue| == |held|
        invariant forall j :: 0 <= j < |queue| ==> queue[j] == if j < i then None else Some(held[j])
        invariant if lend then released == old(released) && |readBuffer| == old(|readBuffer|)
                               && forall j :: 0 <= j < i ==> readBuffer[j] == Some(held[j])
                  else readBuffer == old(readBuffer) && released == old(released) + held[..i]
      {
        assert held[..i + 1] == held[..i] + [held[i]];
        taken := taken + [queue[i].value];
        if lend {
          readBuffer := readBuffer[i := queue[i]];
        } else {
          released := released + [queue[i].value];
        }
        queue := queue[i := None];
        i := i + 1;
      }
    }

    /** Lends the first `|taken|` entries of the read buffer, unless there are none. */
    method Lend(taken: seq<T>, messages: DataSeq<T>)
      requires !loaned && loan == [] && !messages.onLoan && |taken| <= |readBuffer|
      requires forall i :: 0 <= i < |taken| ==> readBuffer[i] == Some(taken[i])
      requires borrower == null && messages.contents == taken
      modifies this`loaned, this`loan, this`borrower, messages`maximum, messages`onLoan
      ensures Loan() && Lends(messages) && loan == taken
      ensures messages.onLoan <==> taken != []
    {
      if |taken| > 0 {
        messages.maximum, messages.onLoan := |taken|, true;
        loaned, loan, borrower := true, taken, messages;
      }
    }

    /** Copies into the lent messages, in place. */
    method Overwrite(taken: seq<T>)
      requires Loan() && |taken| <= |loan|
      modifies this`readBuffer, this`loan
      ensures Loan() && loan == taken + old(loan)[|taken|..] && |readBuffer| == old(|readBuffer|)
    {
      var i := 0;
      while i < |taken|
        invariant i <= |taken| && |readBuffer| == old(|readBuffer|) && loan == old(loan)
        invariant forall j :: 0 <= j < |readBuffer| ==>
          readBuffer[j] == if j < i then Some(taken[j]) else old(readBuffer)[j]
      {
        readBuffer := readBuffer[i := Some(taken[i])];
        i := i + 1;
      }
      loan := taken + loan[|taken|..];
    }

    /** Moves the window past the `tot` messages taken out. */
    method Skip(tot: nat, idx: nat)
      requires head < capacity == |queue| && size == |held| <= capacity && tot <= size && tot < capacity
      requires next == Advance(capacity, head, size) && idx == Advance(capacity, head, tot)
      requires forall p :: 0 <= p < capacity ==>
        queue[p] == if Age(capacity, head, p) < tot then None else Entry(capacity, head, held, p)
      modifies this`nextUnread, this`size, this`head, this`held
      ensures Window() && held == old(held)[tot..]
    {
      hide Advance, Entry, Age;
      WindowMoves(capacity, head, held, tot, queue);
      nextUnread := idx;
      size := size - tot;
      head := Advance(capacity, head, tot);
      held := held[tot..];
    }

    /** The messages taken out go into the caller's sequence: lent, copied over lent ones, or copied. */
    method Place(taken: seq<T>, lend: bool, messages: DataSeq<T>)
      requires Loan() && LendsPart(messages)
      requires lend ==> !loaned && loan == [] && !messages.onLoan && |taken| <= |readBuffer|
      requires lend ==> forall i :: 0 <= i < |taken| ==> readBuffer[i] == Some(taken[i])
      requires messages.onLoan ==> |taken| <= messages.maximum
      modifies this`readBuffer, this`loaned, this`loan, this`borrower, this`delivered, messages
      ensures Loan() && LendsPart(messages) && (!old(messages.onLoan) ==> Lends(messages))
      ensures messages.contents == taken && delivered == old(delivered) + taken
      ensures loan == if lend then taken
                      else if old(messages.onLoan) then taken + old(loan)[|taken|..] else old(loan)
      ensures messages.onLoan <==> old(messages.onLoan) || (lend && taken != [])
    {
      messages.contents := taken;
      if lend {
        Lend(taken, messages);
      } else if messages.onLoan {
        Overwrite(taken);
      }
      delivered := delivered + taken;
    }

    /** The successful part of a read of the ring. */
    method DeliverCircular(max: nat, lend: bool, messages: DataSeq<T>)
      requires Window() && Loan() && (lend ==> !loaned && max == |readBuffer|)
      requires messages.onLoan ==> !lend && LendsPart(messages) && max <= messages.maximum
      modifies this, messages
      ensures Window() && Loan() && LendsPart(messages) && (!old(messages.onLoan) ==> Lends(messages))
      ensures var n := RingTakes(capacity, |old(held)|, max);
              messages.contents == old(held)[..n] && held == old(held)[n..]
      ensures counters == old(counters) && arrived == old(arrived) && dropped == old(dropped)
      ensures delivered == old(delivered) + messages.contents
      ensures if lend then loan == messages.contents && released == old(released)
              else && released == old(released) + messages.contents
                   && loan == if old(messages.onLoan) then messages.contents + old(loan)[|messages.contents|..]
                      else old(loan)
      ensures messages.onLoan <==> old(messages.onLoan) || (lend && messages.contents != [])
    {
      hide Advance, Entry, Age;
      var tot, idx, taken := TakeCircular(max, lend);
      Place(taken, lend, messages);
      Skip(tot, idx);
    }

    /**
     The successful part of a read of the list.  The guard of the move of the unread references
     never holds, so `held` is what the reader is still owed and `queue` what is kept.
     */
    method DeliverUnbounded(max: nat, lend: bool, messages: DataSeq<T>)
      requires queue == Refs(held) && Loan() && (lend ==> !loaned && max <= |readBuffer|)
      requires messages.onLoan ==> !lend && LendsPart(messages) && max <= messages.maximum
      requires max <= |held|
      modifies this, messages
      ensures Loan() && LendsPart(messages) && (!old(messages.onLoan) ==> Lends(messages))
      ensures messages.contents == old(held)[..max] && held == old(held)[max..]
      ensures queue == AfterRead(Refs(old(held)), max)
      ensures counters == old(counters) && arrived == old(arrived) && dropped == old(dropped)
      ensures delivered == old(delivered) + messages.contents
      ensures if lend then loan == messages.contents && released == old(released)
              else && released == old(released) + messages.contents
                   && loan == if old(messages.onLoan) then messages.contents + old(loan)[|messages.contents|..]
                      else old(loan)
      ensures messages.onLoan <==> old(messages.onLoan) || (lend && messages.contents != [])
    {
      var length := |queue|;
      var taken := TakeUnbounded(max, lend);
      Place(taken, lend, messages);
      if length < max {
        assert false;
      }
      assert queue == seq(max, _ => None) + Refs(held)[max..];
      queue := queue[..length - max];
      held := held[max..];
    }

    /** What the guards of a read decide: a copy into the caller's buffer, or a loan to an empty sequence. */
    predicate Accepts(max: nat, maximum: nat)
      reads this`loaned
    {
      if maximum > 0 then max != UNLIMITED && max <= maximum else max == UNLIMITED && !loaned
    }

    /** How many messages an accepted read gets. */
    ghost function Gets(max: nat, maximum: nat): (n: nat)
      reads this`held
      ensures n <= |held|
    {
      if capacity > 0 then RingTakes(capacity, |held|, if maximum > 0 then max else capacity)
      else if maximum > 0 && max < |held| then max
      else |held|
    }

    /** A refused read gives back the loan of the sequence it was given. */
    method Refuse(messages: DataSeq<T>)
      requires Valid() && LendsPart(messages)
      modifies this`loaned, this`loan, this`borrower, this`released, this`readBuffer, messages
      ensures Valid() && LendsPart(messages) && (!old(messages.onLoan) ==> Lends(messages))
      ensures if old(messages.onLoan) then
                State() == GiveBack(old(State()), old(messages.contents)) && !messages.onLoan && !loaned
              else State() == old(State()) && unchanged(messages)
    {
      hide Window;
      if loaned {
        var _ := ReturnLoan(messages);
      }
    }

    /** An accepted read, but for its counters. */
    method HandOver(max: nat, messages: DataSeq<T>)
      requires Valid() && LendsPart(messages) && Accepts(max, messages.maximum)
      modifies this, messages
      ensures Loan() && LendsPart(messages) && (!old(messages.onLoan) ==> Lends(messages))
      ensures var n := old(Gets(max, messages.maximum));
        && messages.contents == old(held)[..n] && held == old(held)[n..]
        && delivered == old(delivered) + messages.contents
        && (Valid() <==> capacity > 0 || n == 0 || n == |old(held)|)
      ensures counters == old(counters) && arrived == old(arrived) && dropped == old(dropped)
      ensures old(messages.maximum) == 0 ==>
        !old(messages.onLoan) && old(loan) == [] && loan == messages.contents && released == old(released)
      ensures old(messages.maximum) > 0 ==>
        && released == old(released) + messages.contents
        && (old(messages.onLoan) ==> |messages.contents| <= |old(loan)|)
        && loan == if old(messages.onLoan) then messages.contents + old(loan)[|messages.contents|..] else old(loan)
      ensures messages.onLoan <==> old(messages.onLoan) || (old(messages.maximum) == 0 && messages.contents != [])
    {
      hide Advance, Entry, Age, AfterRead;
      var lend := messages.maximum == 0;
      if lend {
        readBuffer := seq(if capacity > 0 then capacity else |queue|, _ => None);
      }
      if capacity > 0 {
        DeliverCircular(if lend then capacity else max, lend, messages);
      } else {
        var n := if lend || max > |queue| then |queue| else max;
        KeepsUnread(held, n);
        DeliverUnbounded(n, lend, messages);
      }
    }

    /**
     A read copies at most `max` messages into a sequence that has room for them, or lends all there are
     to an empty one; a full ring gives none.  It is the read of the queue specification.  A copy into a
     sequence that is still on loan replaces the lent messages in place and leaves the sequence as long
     as the copy.  A refused read changes nothing, except that it gives back the loan of the sequence it
     was given.
     */
    method Read(max: nat, messages: DataSeq<T>) returns (ok: bool)
      requires Valid() && LendsPart(messages)
      modifies this, messages
      ensures Loan() && LendsPart(messages) && (!old(messages.onLoan) ==> Lends(messages))
      ensures ok <==> if old(messages.maximum) > 0 then 0 < max <= old(messages.maximum) else max == 0 && !old(loaned)
      ensures ok ==>
        var size := old(|held|);
        var n := if capacity > 0 && size == capacity then 0
                 else if old(messages.maximum) > 0 && max < size then max else size;
        && messages.contents == old(held)[..n]
        && (old(messages.onLoan) ==>
              && n <= |old(loan)| && State() == CopyOver(old(State()), n)
              && loan == messages.contents + old(loan)[n..])
        && (!old(messages.onLoan) ==>
              State() == if old(messages.maximum) > 0 then CopyOut(old(State()), n) else LendOut(old(State()), n))
        && (messages.onLoan <==> old(messages.onLoan) || (old(messages.maximum) == 0 && n > 0))
        && (Valid() <==> capacity > 0 || n == 0 || n == size)
      ensures ok && !old(messages.onLoan) ==>
        var op := if old(messages.maximum) > 0 then ReadCopy(max) else ReadLoan;
        && (capacity > 0 ==> State() == RingStep(capacity, old(State()), op))
        && (capacity == 0 && (old(messages.maximum) > 0 ==> old(|held|) <= max) ==>
              State() == UnboundedStep(old(State()), op))
      ensures !ok && !old(messages.onLoan) ==> State() == old(State()) && unchanged(messages) && Valid()
      ensures !ok && old(messages.onLoan) ==>
        && State() == GiveBack(old(State()), old(messages.contents))
        && !messages.onLoan && !loaned && Valid()
    {
      hide Advance, U32, Entry, Age, AfterRead, Window, Refs, LendsPart, Lends;
      ok := Accepts(max, messages.maximum);
      if !ok {
        Refuse(messages);
        return;
      }
      HandOver(max, messages);
      var length := |messages.contents|;
      counters := counters.(unread := U32(counters.unread - length), read := U32(counters.read + length));
    }
  }
}
