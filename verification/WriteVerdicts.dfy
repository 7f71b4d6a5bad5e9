/**
 Whose verdict a wait returns.  The accepted writes are numbered, and the broker answers them in
 order, so its k-th reply is for write k; each completed wait is recorded with its own write and the
 write whose reply it took.
 */
module WriteVerdicts {
  import opened Words
  import opened WriteAccounting

  /** A completed wait: its write, the write last answered, how many were not, and what it returned. */
  datatype Woken = Woken(write: nat, reply: int, outstanding: nat, short: bool, result: Result)

  /**
   `writes` holds the number of each thread's last accepted write; `short` whether the last reply, an
   OK for QoS 2, found nothing pending.
   */
  datatype Trace = Trace(s: State, writes: map<nat, nat>, short: bool, woken: seq<Woken>)

  function WriteOf(r: Trace, t: nat): nat {
    if t in r.writes then r.writes[t] else 0
  }

  function Next(r: Trace, a: Action): Trace {
    var s := Step(r.s, a);
    match a
    case Accept(t) =>
      if PcOf(r.s, t).Sending? && r.s.sending != 0 then r.(s := s, writes := r.writes[t := r.s.accepted])
      else r.(s := s)
    case Reply(result) =>
      if r.s.unanswered != 0 then r.(s := s, short := FindsNothing(r.s.status, result)) else r.(s := s)
    case Wake(t) =>
      if PcOf(r.s, t).Waiting? && r.s.status.triggered then
        var w := Woken(WriteOf(r, t), |r.s.verdicts| - 1, r.s.unanswered, r.short, r.s.status.result);
        r.(s := s, woken := r.woken + [w])
      else r.(s := s)
    case _ => r.(s := s)
  }

  function Follow(actions: seq<Action>): Trace
    ensures Follow(actions).s == Run(actions)
    decreases |actions|
  {
    if actions == [] then Trace(Run([]), map[], false, [])
    else Next(Follow(actions[..|actions| - 1]), actions[|actions| - 1])
  }

  /** A write begins only when nobody is inside a call; waits may time out. */
  ghost predicate OneInside(actions: seq<Action>)
    decreases |actions|
  {
    actions == [] ||
    (var before, a := actions[..|actions| - 1], actions[|actions| - 1];
     OneInside(before) && (a.Begin? ==> Resting(Run(before))))
  }

  // ----- what every wait takes -----

  predicate Submits(pc: Pc) {
    pc.Submitted? || pc.Waiting?
  }

  /** The one thread inside a call, if it handed over its write, has the last accepted one. */
  ghost predicate Inside(r: Trace) {
    && (forall t: nat, u: nat :: Busy(PcOf(r.s, t)) && Busy(PcOf(r.s, u)) ==> t == u)
    && (forall t: nat :: PcOf(r.s, t).Sending? ==> r.s.sending == 1)
    && (Resting(r.s) ==> r.s.sending == 0)
    && (forall t: nat :: Submits(PcOf(r.s, t)) ==>
          r.s.sending == 0 && t in r.writes && r.writes[t] + 1 == r.s.accepted)
  }

  /** A triggered condition holds the last verdict, unless that was an OK that found nothing pending. */
  ghost predicate Held(r: Trace) {
    && |r.s.verdicts| + r.s.unanswered == r.s.accepted
    && (r.s.status.triggered ==>
          && r.s.verdicts != []
          && (r.s.status.result == r.s.verdicts[|r.s.verdicts| - 1] <==> !r.short))
  }

  /** A wait is behind its own write by as many as are not answered. */
  ghost predicate Behind(w: Woken, verdicts: seq<Result>) {
    && 0 <= w.reply < |verdicts| && w.write == w.reply + w.outstanding
    && (w.result == verdicts[w.reply] <==> !w.short)
  }

  ghost predicate AllBehind(r: Trace) {
    forall i :: 0 <= i < |r.woken| ==> Behind(r.woken[i], r.s.verdicts) && r.woken[i].write < r.s.accepted
  }

  lemma {:induction false} StepHolds(r: Trace, a: Action)
    requires Held(r)
    ensures Held(Next(r, a))
  {
    hide U32, OnReply;
    if a.Reply? {
      ReplyGives(r.s.status, a.result);
    }
  }

  /** Only the step's own thread moves. */
  lemma {:induction false} Mover(s: State, a: Action)
    ensures match a
            case Reply(_) => forall u: nat :: PcOf(Step(s, a), u) == PcOf(s, u)
            case _ => forall u: nat :: u != a.t ==> PcOf(Step(s, a), u) == PcOf(s, u)
  {
    hide U32, OnReply;
  }

  lemma {:induction false} StepInside(r: Trace, a: Action)
    requires Inside(r) && (a.Begin? ==> Resting(r.s))
    ensures Inside(Next(r, a))
  {
    hide U32, OnReply;
    Mover(r.s, a);
    var s, s' := r.s, Next(r, a).s;
    if s' == s {
      assert Next(r, a).writes == r.writes;
    } else if a.Reply? {
      assert forall u: nat :: PcOf(s', u) == PcOf(s, u);
    } else {
      OnlyBusy(s, a);
      assert forall u: nat :: u != a.t ==> !Busy(PcOf(s', u));
      var before, after := PcOf(s, a.t), PcOf(s', a.t);
      assert !a.Begin? ==> Busy(before);
      assert Resting(s') ==> !Busy(after);
      if a.Begin? {
        assert s.sending == 0 && after.Sending?;
      } else if a.Refuse? {
        assert s.sending == 1;
      } else if a.Accept? {
        assert after.Submitted? && a.t in Next(r, a).writes;
      } else {
        assert s'.sending == 0 && s'.accepted == s.accepted && Next(r, a).writes == r.writes;
      }
    }
  }

  /** A step that changes something is made by the one thread inside a call, or by one that begins. */
  lemma {:induction false} OnlyBusy(s: State, a: Action)
    requires forall t: nat, u: nat :: Busy(PcOf(s, t)) && Busy(PcOf(s, u)) ==> t == u
    requires !a.Reply? && Step(s, a) != s && (a.Begin? ==> Resting(s))
    ensures forall u: nat :: u != a.t ==> !Busy(PcOf(s, u))
  {
    hide U32, OnReply;
    if !a.Begin? {
      assert Busy(PcOf(s, a.t));
    }
  }

  lemma {:induction false} StepBehind(r: Trace, a: Action)
    requires Inside(r) && Held(r) && AllBehind(r)
    ensures AllBehind(Next(r, a))
  {
    hide U32, OnReply;
    var r' := Next(r, a);
    assert r.s.verdicts <= r'.s.verdicts;
    assert r.s.accepted <= r'.s.accepted;
    forall i | 0 <= i < |r'.woken| ensures Behind(r'.woken[i], r'.s.verdicts) && r'.woken[i].write < r'.s.accepted {
      if i < |r.woken| {
        assert Behind(r.woken[i], r.s.verdicts) && r'.woken[i] == r.woken[i];
      } else {
        assert Submits(PcOf(r.s, a.t));
      }
    }
  }

  lemma {:induction false} FollowKeeps(actions: seq<Action>)
    requires OneInside(actions)
    ensures Inside(Follow(actions)) && Held(Follow(actions)) && AllBehind(Follow(actions))
    decreases |actions|
  {
    hide Inside, Held, AllBehind, Next;
    if actions == [] {
      NothingFollowed();
    } else {
      var before, a := actions[..|actions| - 1], actions[|actions| - 1];
      FollowKeeps(before);
      StepInside(Follow(before), a);
      StepHolds(Follow(before), a);
      StepBehind(Follow(before), a);
    }
  }

  lemma {:induction false} NothingFollowed()
    ensures Inside(Follow([])) && Held(Follow([])) && AllBehind(Follow([]))
  {
  }

  /**
   With one write at a time and timeouts, for every wait that completes: it takes the reply of the write
   as far before its own as replies are outstanding, so its own if and only if none is; and it returns
   the verdict of that reply if and only if the reply was not an OK for QoS 2 that found nothing pending.
   */
  lemma {:induction false} WaitTakes(actions: seq<Action>, i: nat)
    requires OneInside(actions) && i < |Follow(actions).woken|
    ensures var w, verdicts := Follow(actions).woken[i], Run(actions).verdicts;
            && 0 <= w.reply < |verdicts| && w.reply == w.write - w.outstanding
            && (w.reply == w.write <==> w.outstanding == 0)
            && (w.result == verdicts[w.reply] <==> !w.short)
  {
    hide Next;
    FollowKeeps(actions);
    assert Behind(Follow(actions).woken[i], Run(actions).verdicts);
  }

  // ----- when a write is sure to get its own verdict -----

  /** Every wait for write `n` took its own reply and returned that verdict. */
  ghost predicate OwnOnly(r: Trace, n: nat) {
    forall i :: 0 <= i < |r.woken| && r.woken[i].write == n ==>
      r.woken[i].reply == n < |r.s.verdicts| && r.woken[i].result == r.s.verdicts[n]
  }

  /** Nobody is inside a call, no reply is outstanding, and none is left to be taken. */
  ghost predicate Settled(s: State) {
    Resting(s) && s.unanswered == 0 && !s.status.triggered
  }

  /** One more message can be pending without the count coming out as 0. */
  predicate Countable(s: State) {
    s.status.pending != 0xFFFF_FFFF
  }

  /**
   What is kept from a settled state, in which `n` writes are accepted and `p` messages pending, on:
   up to the acceptance of write `n`, and while its thread waits for it.
   */
  ghost predicate Watched(r: Trace, n: nat, p: Word) {
    var s := r.s;
    && n <= s.accepted && OwnOnly(r, n)
    && (s.accepted == n ==> s.unanswered == 0 && !s.status.triggered && s.status.pending == U32(p + s.sending))
    && (forall t: nat :: Submits(PcOf(s, t)) && s.accepted == n + 1 ==> Answering(s, n, p))
    && (forall t: nat :: Submits(PcOf(s, t)) ==> s.accepted > n)
  }

  /** The reply to write `n` is outstanding, with the message pending, or in. */
  predicate Answering(s: State, n: nat, p: Word) {
    if s.unanswered != 0 then |s.verdicts| == n && !s.status.triggered && s.status.pending == U32(p + 1)
    else |s.verdicts| == n + 1 && s.status.triggered && s.status.result == s.verdicts[n]
  }

  lemma {:induction false} WatchBegins(r: Trace)
    requires Inside(r) && Held(r) && AllBehind(r) && Settled(r.s)
    ensures Watched(r, r.s.accepted, r.s.status.pending)
  {
    forall i | 0 <= i < |r.woken| ensures r.woken[i].write != r.s.accepted {
      assert Behind(r.woken[i], r.s.verdicts);
    }
  }

  lemma {:induction false} OwnStays(r: Trace, a: Action, n: nat)
    requires OwnOnly(r, n) && Next(r, a).woken == r.woken
    ensures OwnOnly(Next(r, a), n)
  {
    hide U32, OnReply;
    assert r.s.verdicts <= Next(r, a).s.verdicts;
  }

  lemma {:induction false} ReplyWatched(r: Trace, result: Result, n: nat, p: Word)
    requires Inside(r) && Held(r) && Watched(r, n, p) && p != 0xFFFF_FFFF && r.s.unanswered != 0
    ensures Watched(Next(r, Reply(result)), n, p)
  {
    hide OnReply;
    var s, s' := r.s, Next(r, Reply(result)).s;
    OwnStays(r, Reply(result), n);
    ReplyGives(s.status, result);
    Mover(s, Reply(result));
    forall t: nat | Submits(PcOf(s', t)) && s'.accepted == n + 1 ensures Answering(s', n, p) {
      assert Submits(PcOf(s, t)) && Answering(s, n, p);
      assert s.status.pending != 0;
    }
  }

  lemma {:induction false} WakeWatched(r: Trace, t: nat, n: nat, p: Word)
    requires Inside(r) && Held(r) && AllBehind(r) && Watched(r, n, p) && PcOf(r.s, t).Waiting? && r.s.status.triggered
    ensures Watched(Next(r, Wake(t)), n, p)
  {
    hide U32;
    var r' := Next(r, Wake(t));
    Mover(r.s, Wake(t));
    forall u: nat ensures !Submits(PcOf(r'.s, u)) {
      if u != t {
        assert Busy(PcOf(r.s, t));
      }
    }
    forall i | 0 <= i < |r'.woken| && r'.woken[i].write == n
      ensures r'.woken[i].reply == n < |r'.s.verdicts| && r'.woken[i].result == r'.s.verdicts[n]
    {
      if i == |r.woken| {
        assert Submits(PcOf(r.s, t)) && r.s.accepted == n + 1 && Answering(r.s, n, p);
      }
    }
  }

  lemma {:induction false} CallWatched(r: Trace, a: Action, n: nat, p: Word)
    requires Inside(r) && Held(r) && Watched(r, n, p) && (a.Begin? ==> Resting(r.s))
    requires !a.Reply? && !a.Wake?
    ensures Watched(Next(r, a), n, p)
  {
    hide U32, OwnOnly;
    var s, s' := r.s, Next(r, a).s;
    OwnStays(r, a, n);
    Mover(s, a);
    if s' != s {
      OnlyBusy(s, a);
      U32Add(p + s.sending, 1);
      U32Add(p + s.sending, -1);
      var after := PcOf(s', a.t);
      forall t: nat | Submits(PcOf(s', t)) ensures t == a.t && (s'.accepted == n + 1 ==> Answering(s', n, p)) {
        assert Busy(PcOf(s', t));
        assert t == a.t;
        if a.CountSent? {
          assert Submits(PcOf(s, t));
        }
      }
    }
  }

  lemma {:induction false} StepWatched(r: Trace, a: Action, n: nat, p: Word)
    requires Inside(r) && Held(r) && AllBehind(r) && Watched(r, n, p) && p != 0xFFFF_FFFF
    requires a.Begin? ==> Resting(r.s)
    ensures Watched(Next(r, a), n, p)
  {
    hide OnReply, U32, Inside, Held, AllBehind, Watched;
    if Next(r, a) != r {
      match a
      case Reply(result) => ReplyWatched(r, result, n, p);
      case Wake(t) => WakeWatched(r, t, n, p);
      case _ => CallWatched(r, a, n, p);
    }
  }

  lemma {:induction false} FollowMore(actions: seq<Action>, a: Action)
    ensures Follow(actions + [a]) == Next(Follow(actions), a) && Run(actions + [a]) == Step(Run(actions), a)
    ensures OneInside(actions + [a]) <==> OneInside(actions) && (a.Begin? ==> Resting(Run(actions)))
  {
    hide Step, Next;
    assert (actions + [a])[..|actions + [a]| - 1] == actions;
  }

  lemma {:induction false} RunWatched(actions: seq<Action>, more: seq<Action>)
    requires OneInside(actions + more) && Settled(Run(actions)) && Countable(Run(actions)) && OneInside(actions)
    ensures Watched(Follow(actions + more), Run(actions).accepted, Run(actions).status.pending)
    decreases |more|
  {
    hide Inside, Held, AllBehind, Watched, Step, Next, Run;
    if more == [] {
      assert actions + more == actions;
      FollowKeeps(actions);
      WatchBegins(Follow(actions));
    } else {
      var last := |more| - 1;
      assert actions + more == actions + more[..last] + [more[last]];
      FollowMore(actions + more[..last], more[last]);
      RunWatched(actions, more[..last]);
      FollowKeeps(actions + more[..last]);
      var n, p := Run(actions).accepted, Run(actions).status.pending;
      StepWatched(Follow(actions + more[..last]), more[last], n, p);
    }
  }

  /** A thread begins a write, hands it over and waits. */
  lemma {:induction false} WaitsNext(actions: seq<Action>, qos: Qos) returns (longer: seq<Action>)
    requires OneInside(actions) && Resting(Run(actions))
    ensures longer == actions + [Begin(0, qos), Accept(0), CountSent(0)] && OneInside(longer)
    ensures var before, r := Run(actions), Follow(longer);
            && PcOf(r.s, 0).Waiting? && WriteOf(r, 0) == before.accepted && r.s.unanswered == before.unanswered + 1
            && r.s.verdicts == before.verdicts && r.s.status.lastQos == qos
            && r.woken == Follow(actions).woken && r.s.returned == before.returned
            && r.s.accepted == before.accepted + 1
            && r.s.status.triggered == before.status.triggered
            && r.s.status.pending == U32(before.status.pending + 1)
  {
    hide Run, Follow, OneInside, U32;
    FollowKeeps(actions);
    FollowMore(actions, Begin(0, qos));
    FollowMore(actions + [Begin(0, qos)], Accept(0));
    FollowMore(actions + [Begin(0, qos)] + [Accept(0)], CountSent(0));
    longer := actions + [Begin(0, qos)] + [Accept(0)] + [CountSent(0)];
    assert longer == actions + [Begin(0, qos), Accept(0), CountSent(0)];
  }

  /** From another state, the next write can be given another's verdict, or a wrong one. */
  lemma {:induction false} OthersTaken(actions: seq<Action>) returns (more: seq<Action>)
    requires OneInside(actions) && Resting(Run(actions)) && !(Settled(Run(actions)) && Countable(Run(actions)))
    ensures OneInside(actions + more) && !OwnOnly(Follow(actions + more), Run(actions).accepted)
  {
    hide Run, Follow, OneInside, U32, OnReply;
    var before := Run(actions);
    FollowKeeps(actions);
    var waits := WaitsNext(actions, Two);
    var begun := [Begin(0, Two), Accept(0), CountSent(0)];
    if before.status.triggered {
      more := begun + [Wake(0)];
      FollowMore(waits, Wake(0));
      assert actions + more == waits + [Wake(0)];
      WokenOther(Follow(waits), before.accepted);
    } else {
      more := begun + [Reply(Ok)] + [Wake(0)];
      FollowMore(waits, Reply(Ok));
      FollowMore(waits + [Reply(Ok)], Wake(0));
      assert actions + more == waits + [Reply(Ok)] + [Wake(0)];
      ReplyGives(Follow(waits).s.status, Ok);
      U32Wraps();
      WokenOther(Follow(waits + [Reply(Ok)]), before.accepted);
    }
  }

  lemma {:induction false} U32Wraps()
    ensures U32(0xFFFF_FFFF + 1) == 0
  {
  }

  lemma {:induction false} WokenOther(r: Trace, n: nat)
    requires PcOf(r.s, 0).Waiting? && WriteOf(r, 0) == n && r.s.status.triggered
    requires |r.s.verdicts| <= n || (|r.s.verdicts| == n + 1 && r.s.status.result != r.s.verdicts[n])
    ensures !OwnOnly(Next(r, Wake(0)), n)
  {
    var r' := Next(r, Wake(0));
    assert r'.woken[|r.woken|].write == n;
  }

  /**
   In a reached state with nobody inside a call, the next accepted write is sure to return its own
   verdict, whatever follows, if and only if no reply is outstanding, the condition is not triggered,
   and the pending messages are not one short of the range of their counter.
   */
  lemma {:induction false} OwnVerdictExactly(actions: seq<Action>)
    requires OneInside(actions) && Resting(Run(actions))
    ensures (forall more :: OneInside(actions + more) ==> OwnOnly(Follow(actions + more), Run(actions).accepted))
            <==> Settled(Run(actions)) && Countable(Run(actions))
  {
    hide Run, Follow, OneInside, OwnOnly, Settled;
    if Settled(Run(actions)) && Countable(Run(actions)) {
      forall more | OneInside(actions + more)
        ensures OwnOnly(Follow(actions + more), Run(actions).accepted)
      {
        RunWatched(actions, more);
      }
    } else {
      var more := OthersTaken(actions);
    }
  }

  /** The wait of the one thread inside a call times out. */
  lemma {:induction false} TimesOut(actions: seq<Action>, t: nat)
    requires OneInside(actions) && PcOf(Run(actions), t).Waiting?
    ensures OneInside(actions + [Timeout(t)]) && Resting(Run(actions + [Timeout(t)]))
    ensures var r, r' := Follow(actions), Follow(actions + [Timeout(t)]);
            && r'.woken == r.woken && r'.s == r.s.(threads := r'.s.threads)
  {
    hide Run, Follow, OneInside;
    FollowKeeps(actions);
    FollowMore(actions, Timeout(t));
    Mover(Run(actions), Timeout(t));
    OnlyBusy(Run(actions), Timeout(t));
  }

  /** A run whose first write times out: its late failure is returned by the second, whose reply is outstanding. */
  lemma {:induction false} LateVerdictReached()
    ensures var first := [Begin(0, One), Accept(0), CountSent(0), Timeout(0)];
            var actions := first + [Begin(0, One), Accept(0), CountSent(0), Reply(Failed), Wake(0)];
            && OneInside(actions) && Run(actions).returned == [Failed]
            && Follow(actions).woken == [Woken(1, 0, 1, false, Failed)]
  {
    hide Run, Follow, OneInside, U32, OnReply;
    var first := [Begin(0, One), Accept(0), CountSent(0), Timeout(0)];
    EmptyRun();
    var waits := WaitsNext([], One);
    TimesOut(waits, 0);
    assert waits + [Timeout(0)] == first;
    var again := WaitsNext(first, One);
    FollowMore(again, Reply(Failed));
    ReplyGives(Follow(again).s.status, Failed);
    FollowMore(again + [Reply(Failed)], Wake(0));
    assert again + [Reply(Failed)] + [Wake(0)]
        == first + [Begin(0, One), Accept(0), CountSent(0), Reply(Failed), Wake(0)];
  }

  lemma {:induction false} EmptyRun()
    ensures OneInside([]) && Resting(Run([])) && Follow([]).woken == [] && Run([]).returned == []
    ensures Run([]).verdicts == [] && Run([]).accepted == 0 && Run([]).unanswered == 0
  {
  }
}
