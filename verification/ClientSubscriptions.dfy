/**
 The client's list of subscriptions, updated in place under the subscription lock: the cached
 parameters of all of them, and the delivery of an arriving message to those that want it.
 */
module ClientSubscriptions {
  import opened ReceiveQueue
  import opened SubscriptionList
  import opened TopicFilter
  import opened Wrappers
  import ClientHandshake
  import ReceiveQueueSpec

  datatype Message = Message(topic: string, payload: string)

  class Subscription {
    const filters: seq<string>
    const maxQos: nat
    const queue: MessageReceiveQueue<Message>
    var params: seq<Param>

    constructor (filters: seq<string>, maxQos: nat, queueSize: nat)
      ensures params == [] && this.filters == filters && this.maxQos == maxQos
      ensures fresh(queue) && queue.Valid() && queue.capacity == queueSize
      ensures queue.State() == ReceiveQueueSpec.Initial()
    {
      this.filters, this.maxQos, params := filters, maxQos, [];
      queue := new MessageReceiveQueue<Message>(queueSize);
    }

    /** The parameters its configuration asks for. */
    function Wanted(): (r: seq<Param>)
      ensures |r| == |filters| && forall i :: 0 <= i < |r| ==> r[i] == ClientHandshake.Param(filters[i], maxQos)
    {
      seq(|filters|, i requires 0 <= i < |filters| => ClientHandshake.Param(filters[i], maxQos))
    }

    /** The queue takes an arriving message. */
    method Receive(m: Message)
      requires queue.Valid()
      modifies queue
      ensures queue.Valid() && ViewOf(this) == Receiving(old(ViewOf(this)), m)
    {
      hide ReceiveQueueSpec.RingReceive, ReceiveQueueSpec.UnboundedReceive;
      var _, _ := queue.Receive(m);
    }

    /** Whether some filter accepts the topic, unless a filter is rejected before that. */
    method Match(topic: string) returns (verdict: Option<bool>)
      requires CString(topic) && forall i :: 0 <= i < |filters| ==> CString(filters[i])
      ensures verdict == FirstVerdict(filters, topic)
      ensures verdict == None <==> RejectsTopic(filters, topic)
      ensures verdict == Some(true) <==> AcceptsTopic(filters, topic)
    {
      hide Verdict, RejectsTopic, AcceptsTopic;
      VerdictExactly(filters, topic);
      var matched, i := false, 0;
      while i < |filters| && !matched
        invariant 0 <= i <= |filters|
        invariant FirstVerdict(filters, topic) == if matched then Some(true) else FirstVerdict(filters[i..], topic)
      {
        var v := TopicFilter.Match(filters[i], topic);
        if v.None? {
          return None;
        }
        assert filters[i..][1..] == filters[i + 1..];
        matched := v.value;
        i := i + 1;
      }
      return Some(matched);
    }

    /** Adds the parameters of its filters to the subscription's own, at the end. */
    method AppendParams()
      modifies this`params
      ensures params == old(params) + Wanted()
    {
      var start := |params|;
      params := params + seq(|filters|, _ => ClientHandshake.Param("", 0));
      var i, paramsI := 0, start;
      while i < |filters| && paramsI < |params|
        invariant 0 <= i <= |filters| && paramsI == start + i && |params| == start + |filters|
        invariant forall k :: 0 <= k < start ==> params[k] == old(params)[k]
        invariant forall k :: start <= k < paramsI ==> params[k] == Wanted()[k - start]
      {
        params := params[paramsI := ClientHandshake.Param(filters[i], maxQos)];
        i, paramsI := i + 1, paramsI + 1;
      }
      assert forall k :: 0 <= k < |params| ==> params[k] == (old(params) + Wanted())[k];
    }
  }

  /** The first filter that accepts or is rejected decides. */
  function FirstVerdict(filters: seq<string>, topic: string): Option<bool> {
    if filters == [] then Some(false)
    else
      var v := Verdict(filters[0], 0, topic, 0);
      if v == Some(false) then FirstVerdict(filters[1..], topic) else v
  }

  ghost predicate NoneRejected(filters: seq<string>, topic: string) {
    forall i :: 0 <= i < |filters| ==> Verdict(filters[i], 0, topic, 0).Some?
  }

  ghost predicate SomeAccepts(filters: seq<string>, topic: string) {
    exists i :: 0 <= i < |filters| && Verdict(filters[i], 0, topic, 0) == Some(true)
  }

  lemma {:induction false} SomeAcceptsSplits(filters: seq<string>, topic: string)
    requires filters != []
    ensures SomeAccepts(filters, topic) <==>
            Verdict(filters[0], 0, topic, 0) == Some(true) || SomeAccepts(filters[1..], topic)
  {
    var rest := filters[1..];
    assert forall i :: 0 <= i < |rest| ==> rest[i] == filters[i + 1];
    if SomeAccepts(rest, topic) {
      var i :| 0 <= i < |rest| && Verdict(rest[i], 0, topic, 0) == Some(true);
      assert Verdict(filters[i + 1], 0, topic, 0) == Some(true);
    }
    if SomeAccepts(filters, topic) {
      var i :| 0 <= i < |filters| && Verdict(filters[i], 0, topic, 0) == Some(true);
      assert i > 0 ==> Verdict(rest[i - 1], 0, topic, 0) == Some(true);
    }
  }

  /** Every filter before the `i`-th refuses the topic. */
  ghost predicate RefusedBefore(filters: seq<string>, topic: string, i: nat)
    requires i <= |filters|
  {
    forall k :: 0 <= k < i ==> Verdict(filters[k], 0, topic, 0) == Some(false)
  }

  /** Some filter is rejected, and those before it refuse the topic. */
  ghost predicate RejectsTopic(filters: seq<string>, topic: string) {
    exists i :: 0 <= i < |filters| && Verdict(filters[i], 0, topic, 0) == None && RefusedBefore(filters, topic, i)
  }

  /** Some filter accepts the topic, and those before it refuse it. */
  ghost predicate AcceptsTopic(filters: seq<string>, topic: string) {
    exists i :: 0 <= i < |filters| && Verdict(filters[i], 0, topic, 0) == Some(true) && RefusedBefore(filters, topic, i)
  }

  lemma {:induction false} RefusedSplits(filters: seq<string>, topic: string, i: nat)
    requires 0 < i <= |filters|
    ensures RefusedBefore(filters, topic, i) <==>
            Verdict(filters[0], 0, topic, 0) == Some(false) && RefusedBefore(filters[1..], topic, i - 1)
  {
    hide Verdict;
    var rest := filters[1..];
    assert forall k :: 0 <= k < |rest| ==> rest[k] == filters[k + 1];
    if Verdict(filters[0], 0, topic, 0) == Some(false) && RefusedBefore(rest, topic, i - 1) {
      forall k | 0 <= k < i ensures Verdict(filters[k], 0, topic, 0) == Some(false) {
        assert k > 0 ==> rest[k - 1] == filters[k];
      }
    }
  }

  /** A later filter decides only if the first one refuses. */
  lemma {:induction false} DecidedLater(filters: seq<string>, topic: string)
    requires filters != []
    ensures var first, rest := Verdict(filters[0], 0, topic, 0), filters[1..];
            && (RejectsTopic(filters, topic) <==> first == None || (first == Some(false) && RejectsTopic(rest, topic)))
            && (AcceptsTopic(filters, topic) <==>
                  first == Some(true) || (first == Some(false) && AcceptsTopic(rest, topic)))
  {
    hide Verdict;
    var first, rest := Verdict(filters[0], 0, topic, 0), filters[1..];
    assert RefusedBefore(filters, topic, 0);
    forall i: nat | 0 < i < |filters|
      ensures filters[i] == rest[i - 1]
      ensures RefusedBefore(filters, topic, i) <==> first == Some(false) && RefusedBefore(rest, topic, i - 1)
    {
      RefusedSplits(filters, topic, i);
    }
    if first == Some(false) && RejectsTopic(rest, topic) {
      var i :| 0 <= i < |rest| && Verdict(rest[i], 0, topic, 0) == None && RefusedBefore(rest, topic, i);
      assert rest[i] == filters[i + 1] && RefusedBefore(filters, topic, i + 1);
    }
    if first == Some(false) && AcceptsTopic(rest, topic) {
      var i :| 0 <= i < |rest| && Verdict(rest[i], 0, topic, 0) == Some(true) && RefusedBefore(rest, topic, i);
      assert rest[i] == filters[i + 1] && RefusedBefore(filters, topic, i + 1);
    }
  }

  /**
   The filters of a subscription reject a topic if and only if one of them does and those before it
   refuse it; they accept it if and only if one does and those before it refuse it.
   */
  lemma {:induction false} VerdictExactly(filters: seq<string>, topic: string)
    ensures FirstVerdict(filters, topic) == None <==> RejectsTopic(filters, topic)
    ensures FirstVerdict(filters, topic) == Some(true) <==> AcceptsTopic(filters, topic)
    decreases |filters|
  {
    hide Verdict, RejectsTopic, AcceptsTopic;
    if filters == [] {
      NoFilters(filters, topic);
    } else {
      DecidedLater(filters, topic);
      VerdictExactly(filters[1..], topic);
    }
  }

  lemma {:induction false} NoFilters(filters: seq<string>, topic: string)
    requires filters == []
    ensures !RejectsTopic(filters, topic) && !AcceptsTopic(filters, topic)
  {
  }

  /** When no filter is rejected, the verdict is whether some filter accepts, wherever it stands. */
  lemma {:induction false} VerdictIsAny(filters: seq<string>, topic: string)
    requires NoneRejected(filters, topic)
    ensures FirstVerdict(filters, topic) == Some(SomeAccepts(filters, topic))
  {
    hide Verdict;
    if filters != [] {
      SomeAcceptsSplits(filters, topic);
      var first := Verdict(filters[0], 0, topic, 0);
      assert NoneRejected(filters[1..], topic);
      VerdictIsAny(filters[1..], topic);
      if first.value {
        assert first == Some(true);
      } else {
        assert first == Some(false);
      }
    }
  }

  /** The listed subscriptions with their parameters. */
  ghost function Entries(subs: seq<Subscription>): (r: seq<Entry<Subscription>>)
    reads subs
    ensures |r| == |subs|
    ensures forall i :: 0 <= i < |r| ==> r[i] == Entry(subs[i], subs[i].params)
    decreases |subs|
  {
    if subs == [] then [] else Entries(subs[..|subs| - 1]) + [Entry(subs[|subs| - 1], subs[|subs| - 1].params)]
  }

  function Wants(sub: Subscription): seq<Param> {
    sub.Wanted()
  }

  class Client {
    var subscriptions: seq<Subscription>
    var all: seq<Param>
    var failed: bool

    ghost var stages: map<Subscription, Stage>

    constructor ()
      ensures subscriptions == [] && all == [] && !failed && stages == map[]
    {
      subscriptions, all, failed, stages := [], [], false, map[];
    }

    /** The list and the cached parameters as the value whose runs `SubscriptionList` is about. */
    ghost function Value(): SubscriptionList.State<Subscription>
      reads this, subscriptions
    {
      SubscriptionList.State(Listed(), all, stages)
    }

    ghost predicate Agreed()
      reads this, subscriptions
    {
      SubscriptionList.Invariant(Wants, Value())
    }

    ghost function Listed(): seq<Entry<Subscription>>
      reads this, subscriptions
    {
      Entries(subscriptions)
    }

    /** Copies a subscription's parameters to the end of the cached ones. */
    method CopyParams(sub: Subscription)
      modifies this`all
      ensures all == old(all) + sub.params
    {
      var allLen, len := |all|, |sub.params|;
      all := all + seq(len, _ => ClientHandshake.Param("", 0));
      var j := 0;
      while j < len
        invariant 0 <= j <= len && |all| == allLen + len
        invariant forall k :: 0 <= k < allLen ==> all[k] == old(all)[k]
        invariant forall k :: allLen <= k < allLen + j ==> all[k] == sub.params[k - allLen]
      {
        all := all[allLen + j := sub.params[j]];
        j := j + 1;
      }
      assert all == old(all) + sub.params;
    }

    /** Recomputes the cached parameters of all subscriptions, one after the other. */
    method CacheAllParams()
      modifies this`all
      ensures all == Concat(Listed())
    {
      hide Concat, Entries;
      all := [];
      var i := 0;
      assert Concat(Entries(subscriptions[..0])) == [] by {
        NoEntries(subscriptions[..0]);
      }
      while i < |subscriptions|
        invariant 0 <= i <= |subscriptions|
        invariant all == Concat(Entries(subscriptions[..i]))
      {
        CopyParams(subscriptions[i]);
        EntriesGrow(subscriptions, i);
        i := i + 1;
      }
      assert subscriptions[..i] == subscriptions;
    }

    /** The first critical section of subscribe. */
    method AddSubscription(sub: Subscription)
      modifies this`subscriptions, this`stages
      ensures subscriptions == old(subscriptions) + [sub]
      ensures Listed() == old(Listed()) + [Entry(sub, sub.params)]
      ensures old(Agreed()) && sub !in old(stages) && sub.params == [] ==>
                Value() == SubscriptionList.Step(Wants, old(Value()), Add(sub)) && Agreed()
    {
      hide Entries, Concat, SubscriptionList.Invariant;
      if Agreed() {
        StepKeeps(Wants, Value(), Add(sub));
      }
      EntriesAdded(subscriptions, sub);
      subscriptions, stages := subscriptions + [sub], stages[sub := Stage.Listed];
    }

    /** The second one: the subscription's own parameters, then the cached ones. */
    method CreateRequests(sub: Subscription)
      modifies this`all, this`stages, sub`params
      ensures sub.params == old(sub.params) + sub.Wanted()
      ensures Listed() == WithParams(old(Listed()), sub, sub.params)
      ensures all == Concat(Listed())
      ensures old(Agreed()) && old(SubscriptionList.At(Value(), sub, Stage.Listed)) && old(sub.params) == [] ==>
                Value() == SubscriptionList.Step(Wants, old(Value()), SubscriptionList.CreateRequests(sub)) && Agreed()
    {
      hide Concat, Entries, SubscriptionList.Invariant;
      if Agreed() {
        StepKeeps(Wants, Value(), SubscriptionList.CreateRequests(sub));
      }
      stages := stages[sub := Stage.Requested];
      sub.AppendParams();
      assert old(sub.params) == [] ==> sub.params == Wants(sub);
      CacheAllParams();
    }

    /** The first critical section of unsubscribe, and of a subscribe that fails. */
    method DeleteRequests(sub: Subscription)
      modifies this`all, this`stages, sub`params
      ensures sub.params == []
      ensures Listed() == WithParams(old(Listed()), sub, [])
      ensures all == Concat(Listed())
      ensures old(Agreed()) && old(SubscriptionList.At(Value(), sub, Stage.Listed)
                                   || SubscriptionList.At(Value(), sub, Stage.Requested)) ==>
                Value() == SubscriptionList.Step(Wants, old(Value()), SubscriptionList.DeleteRequests(sub)) && Agreed()
    {
      hide Concat, Entries, SubscriptionList.Invariant;
      if Agreed() {
        StepKeeps(Wants, Value(), SubscriptionList.DeleteRequests(sub));
      }
      stages := stages[sub := Stage.Dropped];
      sub.params := [];
      CacheAllParams();
    }

    /** The last one: finds the subscription and moves the later ones down. */
    method RemoveSubscription(sub: Subscription) returns (found: bool)
      modifies this`subscriptions, this`stages
      ensures found <==> sub in old(subscriptions)
      ensures found ==> Listed() == Without(old(Listed()), IndexOf(old(Listed()), sub))
      ensures !found ==> subscriptions == old(subscriptions)
      ensures found && old(Agreed()) && old(SubscriptionList.At(Value(), sub, Stage.Dropped)) ==>
                Value() == SubscriptionList.Step(Wants, old(Value()), Remove(sub)) && Agreed()
    {
      hide Entries, IndexOf, Concat, SubscriptionList.Invariant;
      if Agreed() {
        StepKeeps(Wants, Value(), Remove(sub));
      }
      var n, i := |subscriptions|, 0;
      while i < n && subscriptions[i] != sub
        invariant 0 <= i <= n && sub !in subscriptions[..i]
      {
        i := i + 1;
      }
      if i == n {
        return false;
      }
      assert subscriptions[i] == sub;
      FirstListed(subscriptions, sub, i);
      MoveDown(i);
      stages := stages[sub := Stage.Gone];
      found := true;
    }

    /** Removes the subscription at `removed` by moving the later ones down one place each. */
    method MoveDown(removed: nat)
      requires removed < |subscriptions|
      modifies this`subscriptions
      ensures Listed() == Without(old(Listed()), removed)
    {
      hide Entries;
      var n, i := |subscriptions|, removed;
      while i + 1 < n
        invariant removed <= i < n == |subscriptions|
        invariant forall k :: 0 <= k < n ==>
          subscriptions[k] == old(subscriptions)[if removed <= k < i then k + 1 else k]
      {
        subscriptions := subscriptions[i := subscriptions[i + 1]];
        i := i + 1;
      }
      subscriptions := subscriptions[..n - 1];
      EntriesWithout(old(subscriptions), subscriptions, removed);
    }

    /** Every subscription has its own queue. */
    ghost predicate Separate()
      reads this`subscriptions, subscriptions, set s | s in subscriptions :: s.queue
    {
      && (forall i :: 0 <= i < |subscriptions| ==> subscriptions[i].queue.Valid())
      && (forall i, j :: 0 <= i < j < |subscriptions| ==> subscriptions[i].queue != subscriptions[j].queue)
      && (forall i, k :: 0 <= i < |subscriptions| && 0 <= k < |subscriptions[i].filters| ==>
            CString(subscriptions[i].filters[k]))
    }

    /** The listed subscriptions with their queues, as values. */
    ghost function Views(): (r: seq<View>)
      reads this`subscriptions, set s | s in subscriptions :: s.queue
      ensures |r| == |subscriptions|
    {
      ViewsOf(subscriptions)
    }

    /** Gives the message to the `i`-th subscription if its filters accept the topic. */
    method Deliver(i: nat, m: Message) returns (verdict: Option<bool>)
      requires Separate() && CString(m.topic) && i < |subscriptions|
      modifies subscriptions[i].queue
      ensures Separate()
      ensures verdict == FirstVerdict(old(Views())[i].filters, m.topic)
      ensures Views() == if verdict == Some(true) then old(Views())[i := Receiving(old(Views())[i], m)]
              else old(Views())
    {
      hide FirstVerdict, MessageReceiveQueue.Valid, Receiving, ViewOf, ViewsOf, CString;
      ViewFilters(subscriptions[i]);
      verdict := subscriptions[i].Match(m.topic);
      if verdict == Some(true) {
        subscriptions[i].Receive(m);
      }
      assert forall j :: 0 <= j < |subscriptions| && j != i ==> subscriptions[j].queue != subscriptions[i].queue;
    }

    /** One round: `done` was served, `rest` is still to be served. */
    method Offer(i: nat, m: Message, ghost done: seq<View>, ghost rest: seq<View>) returns (verdict: Option<bool>)
      requires Separate() && CString(m.topic) && i < |subscriptions|
      requires |done| == i && Views() == done + rest
      modifies subscriptions[i].queue
      ensures Separate()
      ensures verdict == FirstVerdict(rest[0].filters, m.topic)
      ensures verdict.None? ==> Views() == done + Delivered(rest, m) && !NoneRejects(rest, m.topic)
      ensures verdict.Some? ==>
        var v := if verdict.value then Receiving(rest[0], m) else rest[0];
        && Views() == (done + [v]) + rest[1..]
        && done + Delivered(rest, m) == (done + [v]) + Delivered(rest[1..], m)
        && (NoneRejects(rest, m.topic) <==> NoneRejects(rest[1..], m.topic))
    {
      hide FirstVerdict, Receiving, Separate, Views, Delivered, NoneRejects;
      assert Views()[i] == rest[0] && rest == [rest[0]] + rest[1..];
      OneDelivery(done, rest[0], rest[1..], m);
      verdict := Deliver(i, m);
    }

    /**
     An arriving message goes once to each subscription whose filters accept its topic, and to no
     other, up to the first one whose filters reject the topic; if there is one the client fails.
     */
    method OnMessageArrived(m: Message) returns (ok: bool)
      requires Separate() && CString(m.topic)
      modifies this`failed, set s | s in subscriptions :: s.queue
      ensures Separate()
      ensures Views() == Delivered(old(Views()), m)
      ensures ok <==> Reached(old(Views()), m.topic, |subscriptions|)
      ensures forall i: nat :: i < |subscriptions| ==>
                Views()[i] == if Reached(old(Views()), m.topic, i + 1) && AcceptsTopic(old(Views())[i].filters, m.topic)
                              then Receiving(old(Views())[i], m) else old(Views())[i]
      ensures failed == (old(failed) || !ok)
    {
      hide FirstVerdict, Receiving, Separate, Views, Delivered, NoneRejects, Reached, AcceptsTopic;
      ghost var done, rest := [], Views();
      EachDelivered(rest, m);
      var i := 0;
      while i < |subscriptions|
        invariant 0 <= i <= |subscriptions| && Separate() && failed == old(failed)
        invariant |done| == i && |rest| == |subscriptions| - i && Views() == done + rest
        invariant Delivered(old(Views()), m) == done + Delivered(rest, m)
        invariant NoneRejects(old(Views()), m.topic) <==> NoneRejects(rest, m.topic)
      {
        var verdict := Offer(i, m, done, rest);
        if verdict.None? {
          failed := true;
          return false;
        }
        done, rest := done + [if verdict.value then Receiving(rest[0], m) else rest[0]], rest[1..];
        i := i + 1;
      }
      NothingToDeliver(m);
      assert done + [] == done;
      ok := true;
    }
  }

  datatype View = View(filters: seq<string>, capacity: nat, queue: ReceiveQueueSpec.State<Message>)

  ghost function ViewOf(sub: Subscription): View
    reads sub.queue
  {
    View(sub.filters, sub.queue.capacity, sub.queue.State())
  }

  lemma {:induction false} ViewFilters(sub: Subscription)
    ensures ViewOf(sub).filters == sub.filters
  {
  }

  ghost function ViewsOf(subs: seq<Subscription>): (r: seq<View>)
    reads set s | s in subs :: s.queue
    ensures |r| == |subs|
    ensures forall i :: 0 <= i < |r| ==> r[i] == ViewOf(subs[i])
    decreases |subs|
  {
    if subs == [] then [] else [ViewOf(subs[0])] + ViewsOf(subs[1..])
  }

  /** A subscription that receives the message; a ring never holds more than its capacity. */
  function Receiving(v: View, m: Message): (r: View)
    ensures r.filters == v.filters && r.capacity == v.capacity && r.queue.arrived == v.queue.arrived + [m]
  {
    v.(queue :=
      if 0 < v.capacity && |v.queue.held| <= v.capacity then ReceiveQueueSpec.RingReceive(v.capacity, v.queue, m)
      else ReceiveQueueSpec.UnboundedReceive(v.queue, m))
  }

  /** What an arriving message does: it is offered to one subscription after the other. */
  function Delivered(views: seq<View>, m: Message): (r: seq<View>)
    ensures |r| == |views|
  {
    if views == [] then []
    else
      match FirstVerdict(views[0].filters, m.topic)
      case None => views
      case Some(wanted) => [if wanted then Receiving(views[0], m) else views[0]] + Delivered(views[1..], m)
  }

  ghost predicate NoneRejects(views: seq<View>, topic: string) {
    forall v :: v in views ==> FirstVerdict(v.filters, topic).Some?
  }

  /** None of the first `n` subscriptions rejects the topic. */
  ghost predicate Reached(views: seq<View>, topic: string, n: nat)
    requires n <= |views|
  {
    forall k :: 0 <= k < n ==> !RejectsTopic(views[k].filters, topic)
  }

  lemma {:induction false} ReachedSplits(views: seq<View>, topic: string, n: nat)
    requires 0 < n <= |views|
    ensures Reached(views, topic, n) <==> !RejectsTopic(views[0].filters, topic) && Reached(views[1..], topic, n - 1)
  {
    hide RejectsTopic;
    var rest := views[1..];
    assert forall k :: 0 <= k < |rest| ==> rest[k] == views[k + 1];
    if !RejectsTopic(views[0].filters, topic) && Reached(rest, topic, n - 1) {
      forall k | 0 <= k < n ensures !RejectsTopic(views[k].filters, topic) {
        assert k > 0 ==> rest[k - 1] == views[k];
      }
    }
  }

  /**
   A subscription gets the message if and only if its filters accept the topic, and no subscription up to
   it rejects it; all others are left as they were.
   */
  lemma {:induction false} DeliveredExactly(views: seq<View>, m: Message, i: nat)
    requires i < |views|
    ensures Delivered(views, m)[i] ==
            if Reached(views, m.topic, i + 1) && AcceptsTopic(views[i].filters, m.topic) then Receiving(views[i], m)
            else views[i]
    decreases |views|
  {
    hide FirstVerdict, RejectsTopic, AcceptsTopic, Reached, Receiving;
    VerdictExactly(views[0].filters, m.topic);
    ReachedSplits(views, m.topic, i + 1);
    if i > 0 {
      DeliveredExactly(views[1..], m, i - 1);
    } else {
      NothingReached(views[1..], m.topic);
    }
  }

  lemma {:induction false} NothingReached(views: seq<View>, topic: string)
    ensures Reached(views, topic, 0)
  {
  }

  lemma {:induction false} EachDelivered(views: seq<View>, m: Message)
    ensures forall i: nat :: i < |views| ==>
              Delivered(views, m)[i] ==
              if Reached(views, m.topic, i + 1) && AcceptsTopic(views[i].filters, m.topic) then Receiving(views[i], m)
              else views[i]
    ensures NoneRejects(views, m.topic) <==> Reached(views, m.topic, |views|)
  {
    hide Delivered, Receiving, AcceptsTopic, FirstVerdict, RejectsTopic;
    forall i: nat | i < |views|
      ensures Delivered(views, m)[i] ==
              if Reached(views, m.topic, i + 1) && AcceptsTopic(views[i].filters, m.topic) then Receiving(views[i], m)
              else views[i]
      ensures FirstVerdict(views[i].filters, m.topic) == None <==> RejectsTopic(views[i].filters, m.topic)
    {
      DeliveredExactly(views, m, i);
      VerdictExactly(views[i].filters, m.topic);
    }
    assert forall v :: v in views ==> exists i: nat :: i < |views| && views[i] == v;
    if NoneRejects(views, m.topic) {
      forall k | 0 <= k < |views| ensures !RejectsTopic(views[k].filters, m.topic) {
        assert views[k] in views;
      }
    }
  }

  lemma {:induction false} NothingToDeliver(m: Message)
    ensures Delivered([], m) == [] && NoneRejects([], m.topic)
  {
  }

  /** One round of the delivery. */
  lemma {:induction false} OneDelivery(done: seq<View>, v: View, later: seq<View>, m: Message)
    ensures var verdict := FirstVerdict(v.filters, m.topic);
            var v' := if verdict == Some(true) then Receiving(v, m) else v;
            && (done + ([v] + later))[|done| := v'] == (done + [v']) + later
            && done + Delivered([v] + later, m)
               == (if verdict.None? then done + ([v] + later) else (done + [v']) + Delivered(later, m))
            && (NoneRejects([v] + later, m.topic) <==> verdict.Some? && NoneRejects(later, m.topic))
  {
    hide FirstVerdict, Receiving;
    var views := [v] + later;
    assert views[0] == v && views[1..] == later && v in views;
    assert forall w :: w in later ==> w in views;
    var v' := if FirstVerdict(v.filters, m.topic) == Some(true) then Receiving(v, m) else v;
    assert done + ([v'] + Delivered(later, m)) == (done + [v']) + Delivered(later, m);
  }

  /**
   When no filter is rejected, a message is received exactly once by each subscription having some
   accepting filter and by no other, however many of its filters accept and however many
   subscriptions there are.
   */
  lemma {:induction false} DeliveredExactlyOnce(views: seq<View>, m: Message, i: nat)
    requires i < |views| && forall v :: v in views ==> NoneRejected(v.filters, m.topic)
    ensures Delivered(views, m)[i] == if SomeAccepts(views[i].filters, m.topic) then Receiving(views[i], m)
            else views[i]
    decreases |views|
  {
    hide FirstVerdict, NoneRejected, SomeAccepts, Receiving;
    assert views[0] in views;
    VerdictIsAny(views[0].filters, m.topic);
    if i > 0 {
      DeliveredExactlyOnce(views[1..], m, i - 1);
    }
  }

  lemma {:induction false} EntriesWithout(was: seq<Subscription>, now: seq<Subscription>, i: nat)
    requires i < |was| && |now| == |was| - 1
    requires forall k :: 0 <= k < |now| ==> now[k] == was[if k < i then k else k + 1]
    ensures Entries(now) == Without(Entries(was), i)
  {
    hide Entries;
  }

  lemma {:induction false} FirstListed(subs: seq<Subscription>, sub: Subscription, i: nat)
    requires i < |subs| && subs[i] == sub && sub !in subs[..i]
    ensures IndexOf(Entries(subs), sub) == i
  {
    hide Entries, IndexOf;
    var k := IndexOf(Entries(subs), sub);
    assert forall j :: 0 <= j < i ==> subs[j] in subs[..i];
  }

  lemma {:induction false} EntriesAdded(subs: seq<Subscription>, sub: Subscription)
    ensures Entries(subs + [sub]) == Entries(subs) + [Entry(sub, sub.params)]
  {
    assert (subs + [sub])[..|subs|] == subs;
  }

  lemma {:induction false} NoEntries(subs: seq<Subscription>)
    requires subs == []
    ensures Concat(Entries(subs)) == []
  {
  }

  lemma {:induction false} EntriesGrow(subs: seq<Subscription>, i: nat)
    requires i < |subs|
    ensures Concat(Entries(subs[..i + 1])) == Concat(Entries(subs[..i])) + subs[i].params
  {
    assert subs[..i + 1][..i] == subs[..i];
    assert Entries(subs[..i + 1])[..i] == Entries(subs[..i]);
  }
}
