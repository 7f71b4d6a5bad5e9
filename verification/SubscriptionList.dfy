/**
 The list of a client's subscriptions and the cached parameters of all of them, as values: what
 each critical section of subscribe and unsubscribe does, and every interleaving of them.
 */
module SubscriptionList {
  import ClientHandshake

  type Param = ClientHandshake.Param

  datatype Entry<T> = Entry(sub: T, params: seq<Param>)

  /** The parameters of all listed subscriptions, in order. */
  function Concat<T>(entries: seq<Entry<T>>): seq<Param>
    decreases |entries|
  {
    if entries == [] then [] else Concat(entries[..|entries| - 1]) + entries[|entries| - 1].params
  }

  /** The list after the parameters of `sub` became `params`. */
  function WithParams<T(==)>(entries: seq<Entry<T>>, sub: T, params: seq<Param>): (r: seq<Entry<T>>)
    ensures |r| == |entries|
    ensures forall i :: 0 <= i < |r| ==> r[i].sub == entries[i].sub
    ensures forall i :: 0 <= i < |r| ==> r[i].params == if entries[i].sub == sub then params else entries[i].params
  {
    seq(|entries|, i requires 0 <= i < |entries| =>
      if entries[i].sub == sub then Entry(sub, params) else entries[i])
  }

  function Without<T>(entries: seq<Entry<T>>, i: nat): seq<Entry<T>>
    requires i < |entries|
  {
    entries[..i] + entries[i + 1..]
  }

  lemma {:induction false} ConcatSplits<T>(a: seq<Entry<T>>, b: seq<Entry<T>>)
    ensures Concat(a + b) == Concat(a) + Concat(b)
    decreases |b|
  {
    if b == [] {
      assert a + b == a;
    } else {
      var last := |b| - 1;
      ConcatSplits(a, b[..last]);
      assert (a + b)[..|a + b| - 1] == a + b[..last];
    }
  }

  /** A subscription without parameters can leave the list: the cached parameters stay right. */
  lemma {:induction false} EmptyLeaves<T>(entries: seq<Entry<T>>, i: nat)
    requires i < |entries| && entries[i].params == []
    ensures Concat(Without(entries, i)) == Concat(entries)
  {
    var before, after := entries[..i], entries[i + 1..];
    assert entries == (before + [entries[i]]) + after;
    ConcatSplits(before + [entries[i]], after);
    ConcatSplits(before, after);
    assert (before + [entries[i]])[..i] == before;
    assert Concat(before) + [] == Concat(before);
  }

  lemma {:induction false} EmptyJoins<T>(entries: seq<Entry<T>>, sub: T)
    ensures Concat(entries + [Entry(sub, [])]) == Concat(entries)
  {
    assert (entries + [Entry(sub, [])])[..|entries|] == entries;
    assert Concat(entries) + [] == Concat(entries);
  }

  // ----- all interleavings -----

  /** Where a subscription is in its life; each stage begins with one critical section. */
  datatype Stage = Listed | Requested | Dropped | Gone

  datatype State<!T> = State(entries: seq<Entry<T>>, all: seq<Param>, stages: map<T, Stage>)

  /** The critical sections of subscribe and unsubscribe for one subscription. */
  datatype Action<T> = Add(sub: T) | CreateRequests(sub: T) | DeleteRequests(sub: T) | Remove(sub: T)

  predicate At<T>(s: State<T>, sub: T, stage: Stage) {
    sub in s.stages && s.stages[sub] == stage
  }

  function IndexOf<T(==)>(entries: seq<Entry<T>>, sub: T): (i: nat)
    ensures i <= |entries| && (i < |entries| ==> entries[i].sub == sub)
    ensures forall j :: 0 <= j < i ==> entries[j].sub != sub
  {
    if entries == [] || entries[0].sub == sub then 0 else 1 + IndexOf(entries[1..], sub)
  }

  /** `wanted` gives the parameters of a subscription's filters; a step out of turn does nothing. */
  function Step<T>(wanted: T -> seq<Param>, s: State<T>, a: Action<T>): State<T> {
    match a
    case Add(sub) =>
      if sub in s.stages then s
      else s.(entries := s.entries + [Entry(sub, [])], stages := s.stages[sub := Listed])
    case CreateRequests(sub) =>
      if !At(s, sub, Listed) then s
      else
        var entries := WithParams(s.entries, sub, wanted(sub));
        State(entries, Concat(entries), s.stages[sub := Requested])
    case DeleteRequests(sub) =>
      if !At(s, sub, Listed) && !At(s, sub, Requested) then s
      else
        var entries := WithParams(s.entries, sub, []);
        State(entries, Concat(entries), s.stages[sub := Dropped])
    case Remove(sub) =>
      var i := IndexOf(s.entries, sub);
      if !At(s, sub, Dropped) || i == |s.entries| then s
      else s.(entries := Without(s.entries, i), stages := s.stages[sub := Gone])
  }

  function Run<T>(wanted: T -> seq<Param>, actions: seq<Action<T>>): State<T>
    decreases |actions|
  {
    if actions == [] then State([], [], map[])
    else Step(wanted, Run(wanted, actions[..|actions| - 1]), actions[|actions| - 1])
  }

  /** What a subscription contributes to the cached parameters at its stage. */
  function Contribution<T>(wanted: T -> seq<Param>, s: State<T>, sub: T): seq<Param> {
    if At(s, sub, Requested) then wanted(sub) else []
  }

  ghost predicate Invariant<T>(wanted: T -> seq<Param>, s: State<T>) {
    && s.all == Concat(s.entries)
    && (forall i, j :: 0 <= i < j < |s.entries| ==> s.entries[i].sub != s.entries[j].sub)
    && (forall i :: 0 <= i < |s.entries| ==>
          && s.entries[i].sub in s.stages && s.stages[s.entries[i].sub] != Gone
          && s.entries[i].params == Contribution(wanted, s, s.entries[i].sub))
  }

  lemma {:induction false} RemoveKeeps<T>(wanted: T -> seq<Param>, s: State<T>, sub: T)
    requires Invariant(wanted, s)
    ensures Invariant(wanted, Step(wanted, s, Remove(sub)))
  {
    hide Concat;
    var s' := Step(wanted, s, Remove(sub));
    var i := IndexOf(s.entries, sub);
    if At(s, sub, Dropped) && i < |s.entries| {
      EmptyLeaves(s.entries, i);
      forall k | 0 <= k < |s'.entries|
        ensures s'.entries[k] == s.entries[if k < i then k else k + 1]
      {
      }
    }
  }

  lemma {:induction false} StepKeeps<T>(wanted: T -> seq<Param>, s: State<T>, a: Action<T>)
    requires Invariant(wanted, s)
    ensures Invariant(wanted, Step(wanted, s, a))
  {
    hide Concat;
    match a
    case Add(sub) => EmptyJoins(s.entries, sub);
    case CreateRequests(sub) =>
    case DeleteRequests(sub) =>
    case Remove(sub) => RemoveKeeps(wanted, s, sub);
  }

  /**
   In every interleaving of subscribes and unsubscribes, after each critical section the cached
   parameters are the in-order concatenation of the listed subscriptions' parameters, each
   subscribed one contributes its filters and one being removed contributes nothing.
   */
  lemma {:induction false} CachedAgrees<T>(wanted: T -> seq<Param>, actions: seq<Action<T>>)
    ensures Invariant(wanted, Run(wanted, actions))
    decreases |actions|
  {
    hide Invariant, Step;
    if actions == [] {
      NothingListed(wanted);
    } else {
      CachedAgrees(wanted, actions[..|actions| - 1]);
      StepKeeps(wanted, Run(wanted, actions[..|actions| - 1]), actions[|actions| - 1]);
    }
  }

  lemma {:induction false} NothingListed<T>(wanted: T -> seq<Param>)
    ensures Invariant(wanted, State([], [], map[]))
  {
  }

  /**
   A subscription that was never listed subscribes, in any reached state: its parameters come after the
   cached ones.  When it then unsubscribes, the list and the cached parameters are as they were.
   */
  lemma {:induction false} SubscribeThenUnsubscribe<T>(wanted: T -> seq<Param>, s: State<T>, sub: T)
    requires Invariant(wanted, s) && sub !in s.stages
    ensures var subscribed := Step(wanted, Step(wanted, s, Add(sub)), CreateRequests(sub));
            var gone := Step(wanted, Step(wanted, subscribed, DeleteRequests(sub)), Remove(sub));
            && subscribed.entries == s.entries + [Entry(sub, wanted(sub))] && subscribed.all == s.all + wanted(sub)
            && gone.entries == s.entries && gone.all == s.all
            && At(subscribed, sub, Requested) && At(gone, sub, Gone)
  {
    hide Concat, IndexOf;
    var added := Step(wanted, s, Add(sub));
    NotListed(wanted, s, sub);
    var subscribed := Step(wanted, added, CreateRequests(sub));
    WithLast(s.entries, sub, [], wanted(sub));
    var dropped := Step(wanted, subscribed, DeleteRequests(sub));
    WithLast(s.entries, sub, wanted(sub), []);
    var gone := Step(wanted, dropped, Remove(sub));
    LastIndex(s.entries, sub);
    ConcatLast(s.entries, sub, wanted(sub));
    ConcatLast(s.entries, sub, []);
    assert s.all + [] == s.all;
    assert Without(dropped.entries, |s.entries|) == s.entries;
  }

  lemma {:induction false} NotListed<T>(wanted: T -> seq<Param>, s: State<T>, sub: T)
    requires Invariant(wanted, s) && sub !in s.stages
    ensures s.all == Concat(s.entries) && forall i :: 0 <= i < |s.entries| ==> s.entries[i].sub != sub
  {
  }

  lemma {:induction false} WithLast<T>(entries: seq<Entry<T>>, sub: T, was: seq<Param>, now: seq<Param>)
    requires forall i :: 0 <= i < |entries| ==> entries[i].sub != sub
    ensures WithParams(entries + [Entry(sub, was)], sub, now) == entries + [Entry(sub, now)]
  {
    var r := WithParams(entries + [Entry(sub, was)], sub, now);
    forall i | 0 <= i < |entries| + 1 ensures r[i] == (entries + [Entry(sub, now)])[i] {
      assert r[i].sub == (entries + [Entry(sub, was)])[i].sub;
    }
  }

  lemma {:induction false} LastIndex<T>(entries: seq<Entry<T>>, sub: T)
    requires forall i :: 0 <= i < |entries| ==> entries[i].sub != sub
    ensures IndexOf(entries + [Entry(sub, [])], sub) == |entries|
  {
    hide IndexOf;
    var longer := entries + [Entry(sub, [])];
    assert longer[|entries|].sub == sub;
    assert forall i :: 0 <= i < |entries| ==> longer[i].sub != sub;
  }

  lemma {:induction false} ConcatLast<T>(entries: seq<Entry<T>>, sub: T, params: seq<Param>)
    ensures Concat(entries + [Entry(sub, params)]) == Concat(entries) + params
  {
    assert (entries + [Entry(sub, params)])[..|entries|] == entries;
  }
}
