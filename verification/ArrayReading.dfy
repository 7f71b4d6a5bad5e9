/**
 What the odometer makes of an array: the lists built from flat elements, and when they are the nested
 lists of the array in row-major order.
 */
module ArrayReading {
  import opened Wrappers
  import opened ArrayLists

  // ----- indexes -----

  ghost predicate InRange(indexes: seq<nat>, dims: seq<nat>) {
    |indexes| == |dims| && forall k :: 0 <= k < |dims| ==> indexes[k] < dims[k]
  }

  /** A list begins at level `j` when all indexes from there on are at their start. */
  predicate AtStart(indexes: seq<nat>, j: nat)
    requires j <= |indexes|
  {
    forall k :: j <= k < |indexes| ==> indexes[k] == 0
  }

  /** The test for a new list is right for every position exactly when all dimensions from the third on are 1. */
  lemma {:induction false} ListTestRightExactly(dims: seq<nat>)
    requires Positive(dims)
    ensures (forall indexes: seq<nat>, j: nat :: InRange(indexes, dims) && j < |dims| ==>
              (MakesList(indexes, j) <==> AtStart(indexes, j)))
            <==> forall k :: 2 <= k < |dims| ==> dims[k] == 1
  {
    if k :| 2 <= k < |dims| && dims[k] != 1 {
      var zero: seq<nat> := seq(|dims|, _ => 0);
      var indexes := zero[k := 1];
      assert InRange(indexes, dims) && MakesList(indexes, k - 2) && !AtStart(indexes, k - 2);
    } else {
      forall indexes: seq<nat>, j: nat | InRange(indexes, dims) && j < |dims|
        ensures MakesList(indexes, j) <==> AtStart(indexes, j)
      {
        assert forall k :: 2 <= k < |dims| ==> indexes[k] == 0;
      }
    }
  }

  // ----- contexts -----

  ghost predicate PointsTo<T>(lists: seq<seq<Item<T>>>, c: Context, id: nat) {
    c.list < |lists| && c.index < |lists[c.list]| && lists[c.list][c.index] == Ref(id)
  }

  /** The contexts are a chain of lists, each made after and stored in the one before. */
  ghost predicate Linked<T>(s: State<T>) {
    && (forall l :: 0 <= l < |s.stack| ==> s.stack[l].list < |s.lists|)
    && (forall l, m :: 0 <= l < m < |s.stack| ==> s.stack[l].list < s.stack[m].list)
    && (s.stack != [] ==> s.root == Ref(s.stack[0].list))
    && (forall l, m :: 0 <= l < |s.stack| && m == l + 1 < |s.stack| ==>
          PointsTo(s.lists, s.stack[l], s.stack[m].list))
  }

  /** An entry that is not stored any more: its list is finished, or its context is past it or below the top. */
  ghost predicate Settled<T>(s: State<T>, id: nat, k: nat) {
    && id < |s.lists| && k < |s.lists[id]|
    && forall l :: 0 <= l < |s.stack| && s.stack[l].list == id ==>
         k < s.stack[l].index || (k == s.stack[l].index && l < |s.stack| - 1)
  }

  /** Settled entries stay. */
  ghost predicate Extends<T>(s: State<T>, t: State<T>) {
    && t.root == s.root && |s.lists| <= |t.lists|
    && forall id: nat, k: nat :: Settled(s, id, k) ==> Settled(t, id, k) && t.lists[id][k] == s.lists[id][k]
  }

  lemma {:induction false} ExtendsOn<T>(s: State<T>, t: State<T>, u: State<T>)
    requires Extends(s, t) && Extends(t, u)
    ensures Extends(s, u)
  {
    hide Settled;
  }

  /** Every level whose index has moved has a context, and there are `spare` contexts besides. */
  ghost predicate Covered<T>(s: State<T>, spare: nat) {
    spare <= |s.stack| && forall k :: |s.stack| <= k + spare < |s.indexes| + spare ==> s.indexes[k] == 0
  }

  lemma {:induction false} BeginList<T>(s: State<T>, length: nat)
    requires Linked(s) && SetTop(s, Ref(|s.lists|)).Some?
    ensures var t := WithList(SetTop(s, Ref(|s.lists|)).value, length);
            Linked(t) && (s.stack != [] ==> Extends(s, t))
  {
    var u := SetTop(s, Ref(|s.lists|)).value;
    var t := WithList(u, length);
    assert |u.lists| == |s.lists| && u.stack == s.stack;
    if s.stack != [] {
      var top := s.stack[|s.stack| - 1];
      forall l, m | 0 <= l < |t.stack| && m == l + 1 < |t.stack|
        ensures PointsTo(t.lists, t.stack[l], t.stack[m].list)
      {
        if m < |s.stack| {
          assert PointsTo(s.lists, s.stack[l], s.stack[m].list);
        }
      }
      forall id: nat, k: nat | Settled(s, id, k) ensures Settled(t, id, k) && t.lists[id][k] == s.lists[id][k] {
        assert !(id == top.list && k == top.index);
      }
    }
  }

  /** The lists that begin leave at least one context for every level, and the spare ones. */
  lemma {:induction false} BeginLists<T>(dims: seq<nat>, s: State<T>, j: nat, spare: nat)
    requires |s.indexes| == |dims| && j <= |dims| && MakeLists(dims, s, j).Some?
    requires Linked(s) && Covered(s, spare) && j + spare <= |s.stack|
    ensures var t := MakeLists(dims, s, j).value;
            && Linked(t) && t.indexes == s.indexes && |dims| + spare <= |t.stack|
            && (s.stack != [] ==> Extends(s, t))
    decreases |dims| - j
  {
    hide Linked, Extends;
    if j == |dims| {
      ExtendsItself(s);
    } else {
      ListsUnfold(dims, s, j);
      if MakesList(s.indexes, j) {
        BeginList(s, dims[j]);
        var t := WithList(SetTop(s, Ref(|s.lists|)).value, dims[j]);
        BeginLists(dims, t, j + 1, spare);
        if s.stack != [] {
          ExtendsOn(s, t, MakeLists(dims, s, j).value);
        }
      } else {
        BeginLists(dims, s, j + 1, spare);
      }
    }
  }

  lemma {:induction false} ExtendsItself<T>(s: State<T>)
    ensures Extends(s, s)
  {
  }

  lemma {:induction false} ListsUnfold<T>(dims: seq<nat>, s: State<T>, j: nat)
    requires |s.indexes| == |dims| && j < |dims|
    ensures MakeLists(dims, s, j) ==
      if !MakesList(s.indexes, j) then MakeLists(dims, s, j + 1)
      else match SetTop(s, Ref(|s.lists|))
        case None => None
        case Some(t) => MakeLists(dims, WithList(t, dims[j]), j + 1)
  {
  }

  /** The element is stored, and the index moves past it. */
  lemma {:induction false} StoreElement<T>(s: State<T>, x: T, indexes: seq<nat>)
    requires Linked(s) && s.stack != [] && SetTop(s, Leaf(x)).Some?
    ensures var t := SetTop(s, Leaf(x)).value.(stack := BumpTop(s.stack), indexes := indexes);
            Linked(t) && Extends(s, t)
  {
    var t := SetTop(s, Leaf(x)).value.(stack := BumpTop(s.stack), indexes := indexes);
    forall l, m | 0 <= l < |t.stack| && m == l + 1 < |t.stack|
      ensures PointsTo(t.lists, t.stack[l], t.stack[m].list)
    {
      assert PointsTo(s.lists, s.stack[l], s.stack[m].list);
    }
    forall id: nat, k: nat | Settled(s, id, k) ensures Settled(t, id, k) && t.lists[id][k] == s.lists[id][k] {
      var top := s.stack[|s.stack| - 1];
      assert !(id == top.list && k == top.index);
    }
  }

  /** A list ends: its context goes, and the one below moves on. */
  function Ended<T>(s: State<T>, indexes: seq<nat>): State<T>
    requires s.stack != []
  {
    s.(indexes := indexes, stack := BumpTop(s.stack[..|s.stack| - 1]))
  }

  lemma {:induction false} EndList<T>(s: State<T>, indexes: seq<nat>)
    requires Linked(s) && s.stack != []
    ensures Linked(Ended(s, indexes)) && Extends(s, Ended(s, indexes))
    ensures |Ended(s, indexes).stack| == |s.stack| - 1
  {
    var t := Ended(s, indexes);
    forall l, m | 0 <= l < |t.stack| && m == l + 1 < |t.stack|
      ensures PointsTo(t.lists, t.stack[l], t.stack[m].list)
    {
      assert PointsTo(s.lists, s.stack[l], s.stack[m].list);
    }
  }

  /** The indexes after the carry at level `j`. */
  function Carried(indexes: seq<nat>, j: nat): seq<nat>
    requires 0 < j <= |indexes|
  {
    (if j > 1 then indexes[j - 2 := indexes[j - 2] + 1] else indexes)[j - 1 := 0]
  }

  lemma {:induction false} CarryUnfold<T>(dims: seq<nat>, s: State<T>, j: nat)
    requires |s.indexes| == |dims| && 0 < j <= |dims| && s.indexes[j - 1] == dims[j - 1] && s.stack != []
    ensures Carry(dims, s, j) == Carry(dims, Ended(s, Carried(s.indexes, j)), j - 1)
  {
  }

  /** Where no index has overflowed nothing happens. */
  lemma {:induction false} CarryStops<T>(dims: seq<nat>, s: State<T>, j: nat)
    requires |s.indexes| == |dims| && j <= |dims| && forall k :: 0 <= k < j ==> s.indexes[k] != dims[k]
    ensures Carry(dims, s, j) == Some(s)
    decreases j
  {
    if j > 0 {
      CarryStops(dims, s, j - 1);
    }
  }

  /** Indexes whose level `j - 1` may just have overflowed. */
  ghost predicate Carrying(indexes: seq<nat>, dims: seq<nat>, j: nat) {
    && |indexes| == |dims| && j <= |dims|
    && (forall k :: 0 <= k < j - 1 ==> indexes[k] < dims[k])
    && (j > 0 ==> indexes[j - 1] <= dims[j - 1])
    && forall k :: j <= k < |dims| ==> indexes[k] == 0
  }

  lemma {:induction false} CarriedStillCarrying(indexes: seq<nat>, dims: seq<nat>, j: nat)
    requires Carrying(indexes, dims, j) && 0 < j && indexes[j - 1] == dims[j - 1]
    ensures Carrying(Carried(indexes, j), dims, j - 1)
  {
  }

  /** A context is there for every list that ends. */
  lemma {:induction false} EndLists<T>(dims: seq<nat>, s: State<T>, j: nat, spare: nat)
    requires Positive(dims) && Carrying(s.indexes, dims, j) && Linked(s) && j + spare <= |s.stack|
    ensures var r := Carry(dims, s, j);
            && r.Some? && Linked(r.value) && InRange(r.value.indexes, dims) && Covered(r.value, spare)
            && Extends(s, r.value)
    decreases j
  {
    hide Linked, Extends;
    if j > 0 && s.indexes[j - 1] == dims[j - 1] {
      var t := Ended(s, Carried(s.indexes, j));
      EndList(s, Carried(s.indexes, j));
      CarriedStillCarrying(s.indexes, dims, j);
      CarryUnfold(dims, s, j);
      EndLists(dims, t, j - 1, spare);
      ExtendsOn(s, t, Carry(dims, t, j - 1).value);
    } else {
      CarryStops(dims, s, j);
      ExtendsItself(s);
    }
  }

  /** The state that the carry of an element starts from. */
  function Stored<T>(dims: seq<nat>, made: State<T>, x: T): State<T>
    requires |made.indexes| == |dims| > 0 && SetTop(made, Leaf(x)).Some?
  {
    var last := |dims| - 1;
    SetTop(made, Leaf(x)).value.(stack := BumpTop(made.stack), indexes := made.indexes[last := made.indexes[last] + 1])
  }

  lemma {:induction false} ElementUnfold<T>(dims: seq<nat>, s: State<T>, x: T)
    requires |s.indexes| == |dims| > 0
    ensures Element(dims, s, x) ==
            match MakeLists(dims, s, 0)
            case None => None
            case Some(made) =>
              if SetTop(made, Leaf(x)) == None then None else Carry(dims, Stored(dims, made, x), |dims|)
  {
    hide MakeLists, Carry;
  }

  /** After the lists have begun: the element is stored and the lists end. */
  lemma {:induction false} FinishElement<T>(dims: seq<nat>, made: State<T>, x: T, spare: nat)
    requires Positive(dims) && dims != [] && InRange(made.indexes, dims) && Linked(made)
    requires |dims| + spare <= |made.stack| && SetTop(made, Leaf(x)).Some?
    ensures var r := Carry(dims, Stored(dims, made, x), |dims|);
            && r.Some? && Linked(r.value) && InRange(r.value.indexes, dims) && Covered(r.value, spare)
            && Extends(made, r.value)
  {
    hide Linked, Extends, Carry, SetTop;
    var t := Stored(dims, made, x);
    StoreElement(made, x, t.indexes);
    EndLists(dims, t, |dims|, spare);
    ExtendsOn(made, t, Carry(dims, t, |dims|).value);
  }

  /** A round between elements. */
  ghost predicate Between<T>(s: State<T>, dims: seq<nat>, spare: nat) {
    InRange(s.indexes, dims) && Linked(s) && Covered(s, spare)
  }

  lemma {:induction false} ElementCovered<T>(dims: seq<nat>, s: State<T>, x: T, spare: nat)
    requires Positive(dims) && dims != [] && Between(s, dims, spare)
    ensures var made := MakeLists(dims, s, 0);
            && (Element(dims, s, x) == None <==> made == None || SetTop(made.value, Leaf(x)) == None)
            && (Element(dims, s, x).Some? ==>
                  && Between(Element(dims, s, x).value, dims, spare)
                  && (spare > 0 ==> Extends(s, Element(dims, s, x).value)))
  {
    hide Linked, Extends, MakeLists, Carry, SetTop, Element;
    ElementUnfold(dims, s, x);
    if MakeLists(dims, s, 0).Some? {
      BeginLists(dims, s, 0, spare);
      var made := MakeLists(dims, s, 0).value;
      if SetTop(made, Leaf(x)).Some? {
        FinishElement(dims, made, x, spare);
        if spare > 0 {
          ExtendsOn(s, made, Element(dims, s, x).value);
        }
      }
    }
  }

  /**
   The stack never runs out of contexts: every level whose index has moved has one, so the conversion
   fails only at a store outside a list.
   */
  lemma {:induction false} ContextsNeverRunOut<T>(dims: seq<nat>, xs: seq<T>, n: nat)
    requires Positive(dims) && dims != [] && n <= |xs| && Build(dims, xs, n).Some?
    ensures Between(Build(dims, xs, n).value, dims, 0)
    ensures n < |xs| && Build(dims, xs, n + 1) == None ==>
              var made := MakeLists(dims, Build(dims, xs, n).value, 0);
              made == None || SetTop(made.value, Leaf(xs[n])) == None
    decreases n
  {
    hide Element, MakeLists, SetTop;
    if n > 0 {
      ContextsNeverRunOut(dims, xs, n - 1);
      ElementCovered(dims, Build(dims, xs, n - 1).value, xs[n - 1], 0);
    }
    if n < |xs| {
      ElementCovered(dims, Build(dims, xs, n).value, xs[n], 0);
    }
  }

  // ----- a wrong list: the value gets deeper than the array -----

  lemma {:induction false} TreesNone<T>(lists: seq<seq<Item<T>>>, items: seq<Item<T>>, depth: nat, k: nat)
    requires k < |items| && Tree(lists, items[k], depth) == None
    ensures Trees(lists, items, depth) == None
    decreases |items|
  {
    if k < |items| - 1 {
      TreesNone(lists, items[..|items| - 1], depth, k);
    }
  }

  /** A value nested deeper is no tree of the depth. */
  lemma {:induction false} BeyondIsNoTree<T>(lists: seq<seq<Item<T>>>, item: Item<T>, depth: nat)
    requires NestedBeyond(lists, item, depth)
    ensures Tree(lists, item, depth) == None
    decreases depth
  {
    if depth > 0 {
      var items := lists[item.list];
      var k: nat :| k < |items| && NestedBeyond(lists, items[k], depth - 1);
      BeyondIsNoTree(lists, items[k], depth - 1);
      TreesNone(lists, items, depth - 1, k);
    }
  }

  /** With more contexts than dimensions, the settled entries reach below the depth of the array for good. */
  lemma {:induction false} TooDeep<T>(s: State<T>, t: State<T>, rank: nat, l: nat)
    requires Linked(s) && Extends(s, t) && l <= rank < |s.stack|
    ensures NestedBeyond(t.lists, Ref(s.stack[l].list), rank - l)
    decreases rank - l
  {
    if l < rank {
      TooDeep(s, t, rank, l + 1);
      var c := s.stack[l];
      assert PointsTo(s.lists, c, s.stack[l + 1].list) && Settled(s, c.list, c.index);
      assert Settled(t, c.list, c.index) && t.lists[c.list][c.index] == Ref(s.stack[l + 1].list);
    }
  }

  /** From then on. */
  lemma {:induction false} StaysTooDeep<T>(made: State<T>, dims: seq<nat>, xs: seq<T>, n: nat, more: nat)
    requires Positive(dims) && dims != [] && n <= more <= |xs|
    requires Linked(made) && |dims| < |made.stack|
    requires Build(dims, xs, n).Some? && Extends(made, Build(dims, xs, n).value)
    requires Between(Build(dims, xs, n).value, dims, 1)
    ensures Build(dims, xs, more) == None || NestedBeyond(Build(dims, xs, more).value.lists, made.root, |dims|)
    ensures Build(dims, xs, more).Some? ==>
              Extends(made, Build(dims, xs, more).value) && Between(Build(dims, xs, more).value, dims, 1)
    decreases more
  {
    hide Element, Extends, Between, Linked, MakeLists, SetTop;
    if n < more {
      StaysTooDeep(made, dims, xs, n, more - 1);
      if Build(dims, xs, more - 1).Some? {
        var s := Build(dims, xs, more - 1).value;
        ElementCovered(dims, s, xs[more - 1], 1);
        if Build(dims, xs, more).Some? {
          ExtendsOn(made, s, Build(dims, xs, more).value);
        }
      }
    }
    if Build(dims, xs, more).Some? {
      TooDeep(made, Build(dims, xs, more).value, |dims|, 0);
      assert made.root == Ref(made.stack[0].list) by {
        RootLinked(made);
      }
    }
  }

  lemma {:induction false} RootLinked<T>(s: State<T>)
    requires Linked(s) && s.stack != []
    ensures s.root == Ref(s.stack[0].list)
  {
  }

  /** A list begun at the outermost level, on top of others, is one too many. */
  lemma {:induction false} OneTooMany<T>(dims: seq<nat>, xs: seq<T>, n: nat)
    requires Positive(dims) && dims != [] && n < |xs| && Build(dims, xs, n).Some?
    requires var s := Build(dims, xs, n).value; Between(s, dims, 0) && s.stack != [] && MakesList(s.indexes, 0)
    ensures var r := Build(dims, xs, |xs|); r == None || NestedBeyond(r.value.lists, r.value.root, |dims|)
  {
    hide Element, Extends, Linked, MakeLists, SetTop, Carry;
    var s := Build(dims, xs, n).value;
    ElementUnfold(dims, s, xs[n]);
    ListsUnfold(dims, s, 0);
    if SetTop(s, Ref(|s.lists|)).Some? && Build(dims, xs, n + 1).Some? {
      var t := WithList(SetTop(s, Ref(|s.lists|)).value, dims[0]);
      assert SetTop(s, Ref(|s.lists|)).value.stack == s.stack && t.indexes == s.indexes by {
        SetTopKeeps(s, Ref(|s.lists|));
      }
      BeginList(s, dims[0]);
      BeginLists(dims, t, 1, 1);
      var made := MakeLists(dims, t, 1).value;
      FinishElement(dims, made, xs[n], 1);
      StaysTooDeep(made, dims, xs, n + 1, |xs|);
      RootExtends(made, dims, xs);
    } else {
      FailsForGood(dims, xs, n + 1, |xs|);
    }
  }

  lemma {:induction false} RootExtends<T>(made: State<T>, dims: seq<nat>, xs: seq<T>)
    requires dims != [] && (Build(dims, xs, |xs|).Some? ==> Extends(made, Build(dims, xs, |xs|).value))
    ensures Build(dims, xs, |xs|).Some? ==> Build(dims, xs, |xs|).value.root == made.root
  {
  }

  lemma {:induction false} SetTopKeeps<T>(s: State<T>, item: Item<T>)
    ensures SetTop(s, item).Some? ==>
              SetTop(s, item).value.stack == s.stack && SetTop(s, item).value.indexes == s.indexes
  {
  }

  /** All indexes are 0 but the one at `k`, which is 1. */
  ghost predicate OnlyOne(indexes: seq<nat>, k: nat) {
    k < |indexes| && forall i :: 0 <= i < |indexes| ==> indexes[i] == if i == k then 1 else 0
  }

  /** After one element the carry stops at the last dimension that is not 1. */
  lemma {:induction false} CarriesTo<T>(dims: seq<nat>, s: State<T>, j: nat, last: nat)
    requires Positive(dims) && 0 < j <= |dims| && last < j && dims[last] > 1 && |s.stack| >= j
    requires (forall k :: last < k < |dims| ==> dims[k] == 1) && |s.indexes| == |dims| && OnlyOne(s.indexes, j - 1)
    ensures var r := Carry(dims, s, j); r.Some? && OnlyOne(r.value.indexes, last) && |r.value.stack| > last
    decreases j
  {
    if last == j - 1 {
      CarryStops(dims, s, j);
    } else {
      CarryUnfold(dims, s, j);
      var t := Ended(s, Carried(s.indexes, j));
      assert |t.stack| == |s.stack| - 1;
      CarriesTo(dims, t, j - 1, last);
    }
  }

  /** The state after the first element. */
  lemma {:induction false} AfterFirst<T>(dims: seq<nat>, xs: seq<T>, last: nat)
    requires Positive(dims) && xs != [] && last < |dims| && dims[last] > 1
    requires (forall k :: last < k < |dims| ==> dims[k] == 1) && Build(dims, xs, 1).Some?
    ensures var s := Build(dims, xs, 1).value; OnlyOne(s.indexes, last) && s.stack != []
  {
    hide Element, MakeLists, Carry, SetTop, Linked, Extends;
    var start := Build(dims, xs, 0).value;
    ElementUnfold(dims, start, xs[0]);
    assert Linked(start) by {
      StartLinked(start);
    }
    assert Build(dims, xs, 1) == Element(dims, start, xs[0]);
    BeginLists(dims, start, 0, 0);
    var made := MakeLists(dims, start, 0).value;
    var stored := Stored(dims, made, xs[0]);
    assert OnlyOne(stored.indexes, |dims| - 1);
    CarriesTo(dims, stored, |dims|, last);
  }

  lemma {:induction false} StartLinked<T>(s: State<T>)
    requires s.stack == []
    ensures Linked(s)
  {
  }

  /** The last dimension from the third on that is not 1. */
  lemma {:induction false} LastLong(dims: seq<nat>, k: nat) returns (last: nat)
    requires Positive(dims) && k < |dims| && dims[k] != 1
    ensures k <= last < |dims| && dims[last] > 1 && forall i :: last < i < |dims| ==> dims[i] == 1
    decreases |dims| - k
  {
    if i :| k < i < |dims| && dims[i] != 1 {
      last := LastLong(dims, i);
    } else {
      last := k;
    }
  }

  /** A third or later dimension that is not 1: an error, or a value deeper than the array. */
  lemma {:induction false} ReadingFails<T>(dims: seq<nat>, xs: seq<T>, k: nat)
    requires Positive(dims) && |xs| > 1 && 2 <= k < |dims| && dims[k] != 1
    ensures var r := Build(dims, xs, |xs|); r == None || NestedBeyond(r.value.lists, r.value.root, |dims|)
  {
    hide Element, Between;
    if Build(dims, xs, 1) == None {
      FailsForGood(dims, xs, 1, |xs|);
    } else {
      var last := LastLong(dims, k);
      AfterFirst(dims, xs, last);
      ContextsNeverRunOut(dims, xs, 1);
      OneTooMany(dims, xs, 1);
    }
  }

  // ----- the right lists: every finished part is the array's -----

  ghost predicate OnStack(stack: seq<Context>, id: nat) {
    exists l :: 0 <= l < |stack| && stack[l].list == id
  }

  /** A finished list, or no list at all. */
  ghost predicate Off<T>(s: State<T>, item: Item<T>) {
    item.Ref? ==> item.list < |s.lists| && !OnStack(s.stack, item.list)
  }

  /** Finished lists hold finished lists only. */
  ghost predicate Closed<T>(s: State<T>) {
    forall id: nat, k: nat :: id < |s.lists| && !OnStack(s.stack, id) && k < |s.lists[id]| ==> Off(s, s.lists[id][k])
  }

  /** An item is a finished part of the array: the one with the given dimensions that starts at `at`. */
  ghost predicate Whole<T>(s: State<T>, item: Item<T>, dims: seq<nat>, xs: seq<T>, at: nat) {
    Off(s, item) && Tree(s.lists, item, |dims|) == Some(RowMajor(dims, xs, at))
  }

  /** Finished lists stay as they are. */
  ghost predicate Keeps<T>(s: State<T>, t: State<T>) {
    && |s.lists| <= |t.lists|
    && forall id: nat :: id < |s.lists| && !OnStack(s.stack, id) ==> !OnStack(t.stack, id) && t.lists[id] == s.lists[id]
  }

  lemma {:induction false} TreeKept<T>(s: State<T>, t: State<T>, item: Item<T>, depth: nat)
    requires Closed(s) && Keeps(s, t) && Off(s, item)
    ensures Tree(t.lists, item, depth) == Tree(s.lists, item, depth)
    decreases depth, 0
  {
    if item.Ref? && depth > 0 {
      forall k | 0 <= k < |s.lists[item.list]| ensures Off(s, s.lists[item.list][k]) {}
      TreesKept(s, t, s.lists[item.list], depth - 1);
    }
  }

  lemma {:induction false} TreesKept<T>(s: State<T>, t: State<T>, items: seq<Item<T>>, depth: nat)
    requires Closed(s) && Keeps(s, t) && forall k :: 0 <= k < |items| ==> Off(s, items[k])
    ensures Trees(t.lists, items, depth) == Trees(s.lists, items, depth)
    decreases depth, |items| + 1
  {
    hide Closed, Keeps, Off;
    if items != [] {
      var last := |items| - 1;
      TreesKept(s, t, items[..last], depth);
      TreeKept(s, t, items[last], depth);
    }
  }

  lemma {:induction false} WholeKept<T>(s: State<T>, t: State<T>, item: Item<T>, dims: seq<nat>, xs: seq<T>, at: nat)
    requires Closed(s) && Keeps(s, t) && Whole(s, item, dims, xs, at)
    ensures Whole(t, item, dims, xs, at)
  {
    TreeKept(s, t, item, |dims|);
  }

  /** The flat position at which the part under the first `l` indexes starts. */
  function Start(dims: seq<nat>, indexes: seq<nat>, l: nat): nat
    requires l <= |dims| == |indexes|
  {
    if l == 0 then 0 else Start(dims, indexes, l - 1) + indexes[l - 1] * Size(dims[l..])
  }

  lemma {:induction false} SameStart(dims: seq<nat>, a: seq<nat>, b: seq<nat>, l: nat)
    requires l <= |dims| == |a| == |b| && forall k :: 0 <= k < l ==> a[k] == b[k]
    ensures Start(dims, a, l) == Start(dims, b, l)
  {
    if l > 0 {
      SameStart(dims, a, b, l - 1);
    }
  }

  /** The list open at level `l` has the length of that dimension, and is right up to its index. */
  ghost predicate LevelGood<T>(s: State<T>, dims: seq<nat>, xs: seq<T>, l: nat)
    requires l < |s.stack| <= |dims| == |s.indexes|
  {
    var c := s.stack[l];
    && c.list < |s.lists| && |s.lists[c.list]| == dims[l] && c.index == s.indexes[l] <= dims[l]
    && forall k :: 0 <= k < c.index ==>
         Whole(s, s.lists[c.list][k], dims[l + 1..], xs, Start(dims, s.indexes, l) + k * Size(dims[l + 1..]))
  }

  ghost predicate Good<T>(s: State<T>, dims: seq<nat>, xs: seq<T>) {
    && |s.stack| <= |dims| == |s.indexes| && Linked(s) && Closed(s)
    && forall l :: 0 <= l < |s.stack| ==> LevelGood(s, dims, xs, l)
  }

  lemma {:induction false} LevelKept<T>(s: State<T>, t: State<T>, dims: seq<nat>, xs: seq<T>, l: nat)
    requires |s.stack| <= |dims| == |s.indexes| == |t.indexes| && |t.stack| <= |dims|
    requires Closed(s) && Keeps(s, t) && l < |s.stack| && l < |t.stack| && LevelGood(s, dims, xs, l)
    requires t.stack[l] == s.stack[l] && (forall k :: 0 <= k <= l ==> t.indexes[k] == s.indexes[k])
    requires var c := s.stack[l];
             && c.list < |t.lists| && |t.lists[c.list]| == |s.lists[c.list]|
             && forall k :: 0 <= k < c.index ==> t.lists[c.list][k] == s.lists[c.list][k]
    ensures LevelGood(t, dims, xs, l)
  {
    hide Closed, Keeps, Whole, Size;
    var c := s.stack[l];
    SameStart(dims, s.indexes, t.indexes, l);
    forall k | 0 <= k < c.index
      ensures Whole(t, t.lists[c.list][k], dims[l + 1..], xs, Start(dims, t.indexes, l) + k * Size(dims[l + 1..]))
    {
      assert t.lists[c.list][k] == s.lists[c.list][k];
      WholeKept(s, t, s.lists[c.list][k], dims[l + 1..], xs, Start(dims, s.indexes, l) + k * Size(dims[l + 1..]));
    }
  }

  lemma {:induction false} ClosedKept<T>(s: State<T>, t: State<T>)
    requires Closed(s) && Keeps(s, t)
    requires forall id: nat :: id < |t.lists| && !OnStack(t.stack, id) ==> id < |s.lists| && !OnStack(s.stack, id)
    ensures Closed(t)
  {
    forall id: nat, k: nat | id < |t.lists| && !OnStack(t.stack, id) && k < |t.lists[id]|
      ensures Off(t, t.lists[id][k])
    {
      assert Off(s, s.lists[id][k]);
    }
  }

  /** Storing at the top of a good state. */
  lemma {:induction false} StoreKeeps<T>(s: State<T>, dims: seq<nat>, xs: seq<T>, item: Item<T>) returns (t: State<T>)
    requires Good(s, dims, xs) && s.stack != [] && s.indexes[|s.stack| - 1] < dims[|s.stack| - 1]
    ensures SetTop(s, item) == Some(t) && Keeps(s, t) && |t.lists| == |s.lists|
    ensures t.stack == s.stack && t.indexes == s.indexes && t.root == s.root
    ensures forall id: nat :: id < |s.lists| ==> |t.lists[id]| == |s.lists[id]|
    ensures forall id: nat, k: nat :: id < |s.lists| && k < |s.lists[id]| ==>
              t.lists[id][k] == if id == s.stack[|s.stack| - 1].list && k == s.stack[|s.stack| - 1].index then item
                                else s.lists[id][k]
  {
    hide Whole, Closed;
    assert LevelGood(s, dims, xs, |s.stack| - 1);
    t := SetTop(s, item).value;
    assert OnStack(s.stack, s.stack[|s.stack| - 1].list);
  }

  lemma {:induction false} LinkedBelow<T>(s: State<T>, l: nat)
    requires Linked(s) && l < |s.stack| - 1
    ensures s.stack[l].list != s.stack[|s.stack| - 1].list && s.stack[l].list < |s.lists|
  {
  }

  /** A list begins at the next level. */
  lemma {:induction false} GoodBegins<T>(s: State<T>, dims: seq<nat>, xs: seq<T>)
    requires Good(s, dims, xs) && |s.stack| < |dims| && s.indexes[|s.stack|] == 0
    requires s.stack != [] ==> s.indexes[|s.stack| - 1] < dims[|s.stack| - 1]
    ensures var r := SetTop(s, Ref(|s.lists|));
            r.Some? && Good(WithList(r.value, dims[|s.stack|]), dims, xs)
  {
    hide Whole, Closed, Keeps, LevelGood, SetTop, Linked;
    var u := s.(root := Ref(|s.lists|));
    if s.stack != [] {
      u := StoreKeeps(s, dims, xs, Ref(|s.lists|));
    } else {
      StoresRoot(s, Ref(|s.lists|));
    }
    var t := WithList(u, dims[|s.stack|]);
    BeginList(s, dims[|s.stack|]);
    BeginKeeps(s, u, dims[|s.stack|]);
    forall l | 0 <= l < |t.stack| ensures LevelGood(t, dims, xs, l) {
      if l < |s.stack| {
        TopOnly(s, u, dims, xs, Ref(|s.lists|), l);
        LevelKept(s, t, dims, xs, l);
      } else {
        NewLevel(t, dims, xs);
      }
    }
  }

  lemma {:induction false} StoresRoot<T>(s: State<T>, item: Item<T>)
    requires s.stack == []
    ensures SetTop(s, item) == Some(s.(root := item))
  {
  }

  lemma {:induction false} NewLevel<T>(t: State<T>, dims: seq<nat>, xs: seq<T>)
    requires 0 < |t.stack| <= |dims| == |t.indexes|
    requires var l := |t.stack| - 1;
             && t.stack[l].index == 0 == t.indexes[l] && t.stack[l].list < |t.lists|
             && |t.lists[t.stack[l].list]| == dims[l]
    ensures LevelGood(t, dims, xs, |t.stack| - 1)
  {
  }

  /** What a store at the top leaves of level `l`. */
  lemma {:induction false} TopOnly<T>(s: State<T>, u: State<T>, dims: seq<nat>, xs: seq<T>, item: Item<T>, l: nat)
    requires Good(s, dims, xs) && l < |s.stack| && |u.lists| == |s.lists|
    requires forall id: nat :: id < |s.lists| ==> |u.lists[id]| == |s.lists[id]|
    requires forall id: nat, k: nat :: id < |s.lists| && k < |s.lists[id]| ==>
               u.lists[id][k] == if id == s.stack[|s.stack| - 1].list && k == s.stack[|s.stack| - 1].index then item
                                 else s.lists[id][k]
    ensures LevelGood(s, dims, xs, l)
    ensures var c := s.stack[l];
            && c.list < |s.lists| && |u.lists[c.list]| == |s.lists[c.list]| && c.index <= |s.lists[c.list]|
            && forall k :: 0 <= k < c.index ==> u.lists[c.list][k] == s.lists[c.list][k]
  {
    hide Whole, Closed;
    assert LevelGood(s, dims, xs, l);
    var c := s.stack[l];
    if l < |s.stack| - 1 {
      LinkedBelow(s, l);
    }
    forall k | 0 <= k < c.index ensures u.lists[c.list][k] == s.lists[c.list][k] {}
  }

  /** Beginning a list changes no finished one. */
  lemma {:induction false} BeginKeeps<T>(s: State<T>, u: State<T>, length: nat)
    requires Linked(s) && Closed(s) && u.stack == s.stack && |u.lists| == |s.lists|
    requires s.stack == [] ==> u.lists == s.lists
    requires s.stack != [] ==> Keeps(s, u)
    ensures Keeps(s, WithList(u, length)) && Closed(WithList(u, length))
  {
    var t := WithList(u, length);
    assert t.stack[|s.stack|].list == |s.lists|;
    forall id: nat ensures OnStack(t.stack, id) <==> OnStack(s.stack, id) || id == |s.lists| {
      if OnStack(s.stack, id) {
        var l :| 0 <= l < |s.stack| && s.stack[l].list == id;
        assert t.stack[l].list == id;
      }
    }
    ClosedKept(s, t);
  }

  /** The element is stored. */
  lemma {:induction false} GoodStores<T>(s: State<T>, dims: seq<nat>, xs: seq<T>, at: nat)
    requires Good(s, dims, xs) && |s.stack| == |dims| > 0 && s.indexes[|dims| - 1] < dims[|dims| - 1]
    requires at == Start(dims, s.indexes, |dims|) < |xs|
    ensures SetTop(s, Leaf(xs[at])).Some? && Good(Stored(dims, s, xs[at]), dims, xs)
  {
    hide Whole, Closed, Keeps, LevelGood, SetTop, Linked;
    var u := StoreKeeps(s, dims, xs, Leaf(xs[at]));
    var t := Stored(dims, s, xs[at]);
    StoreElement(s, xs[at], t.indexes);
    SameStackKeeps(s, u, t);
    forall l | 0 <= l < |dims| ensures LevelGood(t, dims, xs, l) {
      TopOnly(s, u, dims, xs, Leaf(xs[at]), l);
      if l < |dims| - 1 {
        LevelKept(s, t, dims, xs, l);
      } else {
        LastIndex(s, dims, xs, l);
        LastLevel(s, t, dims, xs, at);
      }
    }
  }

  lemma {:induction false} LastIndex<T>(s: State<T>, dims: seq<nat>, xs: seq<T>, l: nat)
    requires l < |s.stack| <= |dims| == |s.indexes| && LevelGood(s, dims, xs, l) && s.indexes[l] < dims[l]
    ensures var c := s.stack[l]; c.list < |s.lists| && c.index < |s.lists[c.list]| && c.index == s.indexes[l]
  {
  }

  lemma {:induction false} SameStackKeeps<T>(s: State<T>, u: State<T>, t: State<T>)
    requires Closed(s) && Keeps(s, u) && u.stack == s.stack && |u.lists| == |s.lists|
    requires t.lists == u.lists && |t.stack| == |s.stack|
    requires forall l :: 0 <= l < |s.stack| ==> t.stack[l].list == s.stack[l].list
    ensures Keeps(s, t) && Closed(t)
  {
    forall id: nat ensures OnStack(t.stack, id) <==> OnStack(s.stack, id) {
      if OnStack(s.stack, id) {
        var l :| 0 <= l < |s.stack| && s.stack[l].list == id;
        assert t.stack[l].list == id;
      }
    }
    ClosedKept(s, t);
  }

  lemma {:induction false} LastLevel<T>(s: State<T>, t: State<T>, dims: seq<nat>, xs: seq<T>, at: nat)
    requires |s.stack| == |dims| == |s.indexes| == |t.stack| == |t.indexes| && dims != []
    requires Closed(s) && Keeps(s, t)
    requires var l := |dims| - 1;
             && LevelGood(s, dims, xs, l) && s.indexes[l] < dims[l]
             && t.stack[l] == Context(s.stack[l].list, s.stack[l].index + 1)
             && t.indexes == s.indexes[l := s.indexes[l] + 1]
             && var c := s.stack[l];
                && c.list < |t.lists| && |t.lists[c.list]| == |s.lists[c.list]|
                && (forall k :: 0 <= k < c.index ==> t.lists[c.list][k] == s.lists[c.list][k])
                && at == Start(dims, s.indexes, |dims|) < |xs| && t.lists[c.list][c.index] == Leaf(xs[at])
    ensures LevelGood(t, dims, xs, |dims| - 1)
  {
    hide Closed, Keeps, Whole;
    var l := |dims| - 1;
    var c := s.stack[l];
    assert dims[l + 1..] == [] && Size([]) == 1;
    SameStart(dims, s.indexes, t.indexes, l);
    forall k | 0 <= k < c.index + 1
      ensures Whole(t, t.lists[c.list][k], [], xs, Start(dims, t.indexes, l) + k * Size([]))
    {
      if k < c.index {
        assert t.lists[c.list][k] == s.lists[c.list][k];
        WholeKept(s, t, s.lists[c.list][k], [], xs, Start(dims, s.indexes, l) + k * Size([]));
      } else {
        WholeLeaf(t, xs, at);
      }
    }
  }

  lemma {:induction false} WholeLeaf<T>(t: State<T>, xs: seq<T>, at: nat)
    requires at < |xs|
    ensures Whole(t, Leaf(xs[at]), [], xs, at)
  {
  }

  /** A list whose entries are all finished parts is a finished part. */
  lemma {:induction false} PartsWhole<T>(lists: seq<seq<Item<T>>>, items: seq<Item<T>>, dims: seq<nat>, xs: seq<T>,
                                         at: nat)
    requires forall k :: 0 <= k < |items| ==>
               Tree(lists, items[k], |dims|) == Some(RowMajor(dims, xs, at + k * Size(dims)))
    ensures Trees(lists, items, |dims|) == Some(Parts(dims, xs, at, |items|))
    decreases |items|
  {
    hide Tree, RowMajor, Size;
    if items != [] {
      PartsWhole(lists, items[..|items| - 1], dims, xs, at);
    }
  }

  /** The list at the top is full, and ends. */
  lemma {:induction false} TopWhole<T>(s: State<T>, dims: seq<nat>, xs: seq<T>)
    requires Good(s, dims, xs) && s.stack != [] && s.indexes[|s.stack| - 1] == dims[|s.stack| - 1]
    ensures var j := |s.stack|;
            Tree(s.lists, Ref(s.stack[j - 1].list), |dims[j - 1..]|)
            == Some(RowMajor(dims[j - 1..], xs, Start(dims, s.indexes, j - 1)))
  {
    hide Closed, RowMajor, Size;
    var l := |s.stack| - 1;
    assert LevelGood(s, dims, xs, l);
    var c, rest := s.stack[l], dims[l + 1..];
    var at := Start(dims, s.indexes, l);
    forall k | 0 <= k < |s.lists[c.list]|
      ensures Tree(s.lists, s.lists[c.list][k], |rest|) == Some(RowMajor(rest, xs, at + k * Size(rest)))
    {
      assert Whole(s, s.lists[c.list][k], rest, xs, at + k * Size(rest));
    }
    PartsWhole(s.lists, s.lists[c.list], rest, xs, at);
    assert dims[l..][1..] == rest;
    RowMajorUnfold(dims[l..], xs, at);
  }

  lemma {:induction false} RowMajorUnfold<T>(dims: seq<nat>, xs: seq<T>, at: nat)
    requires dims != []
    ensures RowMajor(dims, xs, at) == PyList(Parts(dims[1..], xs, at, dims[0]))
  {
  }

  /** The contexts that are left when a list ends. */
  lemma {:induction false} EndedStack<T>(s: State<T>, indexes: seq<nat>)
    requires Linked(s) && s.stack != []
    ensures forall id: nat :: OnStack(Ended(s, indexes).stack, id)
              <==> OnStack(s.stack, id) && id != s.stack[|s.stack| - 1].list
  {
    var t, top := Ended(s, indexes), s.stack[|s.stack| - 1].list;
    forall id: nat ensures OnStack(t.stack, id) <==> OnStack(s.stack, id) && id != top {
      if OnStack(s.stack, id) && id != top {
        var m :| 0 <= m < |s.stack| && s.stack[m].list == id;
        assert t.stack[m].list == id;
      }
      if OnStack(t.stack, id) {
        var m :| 0 <= m < |t.stack| && t.stack[m].list == id;
        assert s.stack[m].list == id;
      }
    }
  }

  /** A full list at the top holds finished lists only. */
  lemma {:induction false} TopIsOff<T>(s: State<T>, dims: seq<nat>, xs: seq<T>)
    requires Good(s, dims, xs) && s.stack != [] && s.indexes[|s.stack| - 1] == dims[|s.stack| - 1]
    ensures Linked(s) && Closed(s) && s.stack[|s.stack| - 1].list < |s.lists|
    ensures var top := s.stack[|s.stack| - 1].list;
            forall k: nat :: k < |s.lists[top]| ==> Off(s, s.lists[top][k])
  {
    hide Closed, Linked, Off, Tree, RowMajor, Start, Size;
    var l := |s.stack| - 1;
    var top := s.stack[l].list;
    assert LevelGood(s, dims, xs, l);
    forall k: nat | k < |s.lists[top]| ensures Off(s, s.lists[top][k]) {
      assert Whole(s, s.lists[top][k], dims[l + 1..], xs, Start(dims, s.indexes, l) + k * Size(dims[l + 1..]));
    }
  }

  lemma {:induction false} EndKeeps<T>(s: State<T>, dims: seq<nat>, xs: seq<T>, indexes: seq<nat>)
    requires Good(s, dims, xs) && s.stack != [] && s.indexes[|s.stack| - 1] == dims[|s.stack| - 1]
    ensures var t := Ended(s, indexes);
            Keeps(s, t) && Closed(t) && Off(t, Ref(s.stack[|s.stack| - 1].list))
  {
    hide Good, Linked, OnStack;
    var t, top := Ended(s, indexes), s.stack[|s.stack| - 1].list;
    TopIsOff(s, dims, xs);
    EndedStack(s, indexes);
    forall id: nat, k: nat | id < |t.lists| && !OnStack(t.stack, id) && k < |t.lists[id]|
      ensures Off(t, t.lists[id][k])
    {
      assert Off(s, s.lists[id][k]);
    }
  }

  lemma {:induction false} SizeUnfold(dims: seq<nat>, l: nat)
    requires l < |dims|
    ensures Size(dims[l..]) == dims[l] * Size(dims[l + 1..])
  {
    assert dims[l..][1..] == dims[l + 1..];
  }

  /** A carry does not change the position. */
  lemma {:induction false} CarriedStart(dims: seq<nat>, indexes: seq<nat>, j: nat)
    requires 0 < j <= |dims| == |indexes| && indexes[j - 1] == dims[j - 1]
    ensures if j > 1 then Start(dims, Carried(indexes, j), j - 1) == Start(dims, indexes, j)
            else Start(dims, indexes, j) == Size(dims)
  {
    hide Size;
    SizeUnfold(dims, j - 1);
    assert dims[0..] == dims;
    if j > 1 {
      SameStart(dims, indexes, Carried(indexes, j), j - 2);
      var part := Size(dims[j - 1..]);
      assert Start(dims, indexes, j) == Start(dims, indexes, j - 2) + indexes[j - 2] * part + part;
      assert (indexes[j - 2] + 1) * part == indexes[j - 2] * part + part;
    }
  }

  lemma {:induction false} ZeroTail(dims: seq<nat>, indexes: seq<nat>, j: nat, l: nat)
    requires j <= l <= |dims| == |indexes| && forall k :: j <= k < |dims| ==> indexes[k] == 0
    ensures Start(dims, indexes, l) == Start(dims, indexes, j)
    decreases l
  {
    if j < l {
      ZeroTail(dims, indexes, j, l - 1);
    }
  }

  /** A full list ends in a good state. */
  lemma {:induction false} GoodEnd<T>(s: State<T>, dims: seq<nat>, xs: seq<T>)
    requires Good(s, dims, xs) && s.stack != [] && Carrying(s.indexes, dims, |s.stack|)
    requires s.indexes[|s.stack| - 1] == dims[|s.stack| - 1]
    ensures var t := Ended(s, Carried(s.indexes, |s.stack|));
            && Good(t, dims, xs) && |t.stack| == |s.stack| - 1
            && (t.stack == [] ==> Whole(t, t.root, dims, xs, 0))
  {
    hide Closed, Keeps, Whole, Tree, RowMajor, Size, Linked;
    var j := |s.stack|;
    var indexes := Carried(s.indexes, j);
    var t := Ended(s, indexes);
    EndList(s, indexes);
    EndKeeps(s, dims, xs, indexes);
    EndedWhole(s, dims, xs, indexes);
    forall l | 0 <= l < j - 1 ensures LevelGood(t, dims, xs, l) {
      if l < j - 2 {
        LevelKept(s, t, dims, xs, l);
      } else {
        LevelMoves(s, t, dims, xs);
      }
    }
    if j == 1 {
      assert dims[0..] == dims;
      RootLinked(s);
    }
  }

  lemma {:induction false} EndedWhole<T>(s: State<T>, dims: seq<nat>, xs: seq<T>, indexes: seq<nat>)
    requires Good(s, dims, xs) && s.stack != [] && s.indexes[|s.stack| - 1] == dims[|s.stack| - 1]
    ensures var j := |s.stack|;
            Whole(Ended(s, indexes), Ref(s.stack[j - 1].list), dims[j - 1..], xs, Start(dims, s.indexes, j - 1))
  {
    hide Closed, Keeps, Tree, RowMajor, Size, Linked, Start, LevelGood, Good;
    TopWhole(s, dims, xs);
    EndKeeps(s, dims, xs, indexes);
  }

  /** The level below the list that ended moves on by one. */
  lemma {:induction false} LevelMoves<T>(s: State<T>, t: State<T>, dims: seq<nat>, xs: seq<T>)
    requires Good(s, dims, xs) && |s.stack| > 1 && Carrying(s.indexes, dims, |s.stack|)
    requires s.indexes[|s.stack| - 1] == dims[|s.stack| - 1]
    requires t == Ended(s, Carried(s.indexes, |s.stack|)) && Keeps(s, t)
    requires Whole(t, Ref(s.stack[|s.stack| - 1].list), dims[|s.stack| - 1..], xs,
                   Start(dims, s.indexes, |s.stack| - 1))
    ensures LevelGood(t, dims, xs, |s.stack| - 2)
  {
    hide Closed, Keeps, Whole, Size;
    var l := |s.stack| - 2;
    assert LevelGood(s, dims, xs, l);
    var c := s.stack[l];
    assert t.stack[l] == Context(c.list, c.index + 1);
    SameStart(dims, s.indexes, t.indexes, l);
    assert PointsTo(s.lists, s.stack[l], s.stack[l + 1].list);
    forall k | 0 <= k < c.index + 1
      ensures Whole(t, t.lists[c.list][k], dims[l + 1..], xs, Start(dims, t.indexes, l) + k * Size(dims[l + 1..]))
    {
      if k < c.index {
        WholeKept(s, t, s.lists[c.list][k], dims[l + 1..], xs, Start(dims, s.indexes, l) + k * Size(dims[l + 1..]));
      }
    }
  }

  /** Between two elements of a right conversion: `n` elements are stored and no list is complete at the top. */
  ghost predicate Ready<T>(s: State<T>, dims: seq<nat>, xs: seq<T>, n: nat) {
    && Good(s, dims, xs) && InRange(s.indexes, dims) && n == Start(dims, s.indexes, |dims|)
    && (forall k :: |s.stack| <= k < |dims| ==> s.indexes[k] == 0)
    && (s.stack != [] ==> s.indexes[|s.stack| - 1] > 0)
  }

  /** All elements are stored and all lists have ended. */
  ghost predicate Complete<T>(s: State<T>, dims: seq<nat>, xs: seq<T>) {
    s.stack == [] && Whole(s, s.root, dims, xs, 0)
  }

  lemma {:induction false} GoodEnds<T>(dims: seq<nat>, s: State<T>, xs: seq<T>, n: nat)
    requires Positive(dims) && Good(s, dims, xs) && s.stack != [] && Carrying(s.indexes, dims, |s.stack|)
    requires s.indexes[|s.stack| - 1] > 0 && n == Start(dims, s.indexes, |s.stack|)
    ensures var r := Carry(dims, s, |s.stack|);
            && r.Some?
            && if r.value.stack == [] then n == Size(dims) && Complete(r.value, dims, xs)
               else Ready(r.value, dims, xs, n)
    decreases |s.stack|
  {
    hide Good, Size, Start, Whole;
    var j := |s.stack|;
    if s.indexes[j - 1] == dims[j - 1] {
      var t := Ended(s, Carried(s.indexes, j));
      GoodEnd(s, dims, xs);
      CarryUnfold(dims, s, j);
      CarriedStillCarrying(s.indexes, dims, j);
      CarriedStart(dims, s.indexes, j);
      if j > 1 {
        GoodEnds(dims, t, xs, n);
      }
    } else {
      CarryStops(dims, s, j);
      ZeroTail(dims, s.indexes, j, |dims|);
    }
  }

  lemma {:induction false} GoodLists<T>(dims: seq<nat>, s: State<T>, xs: seq<T>, j: nat)
    requires Good(s, dims, xs) && InRange(s.indexes, dims) && j <= |s.stack|
    requires forall i :: j <= i < |dims| ==> (MakesList(s.indexes, i) <==> |s.stack| <= i)
    requires forall k :: |s.stack| <= k < |dims| ==> s.indexes[k] == 0
    ensures var r := MakeLists(dims, s, j);
            r.Some? && Good(r.value, dims, xs) && |r.value.stack| == |dims| && r.value.indexes == s.indexes
    decreases |dims| - j
  {
    hide Linked, Closed, LevelGood, SetTop, MakesList;
    if j < |dims| {
      ListsUnfold(dims, s, j);
      if j < |s.stack| {
        GoodLists(dims, s, xs, j + 1);
      } else {
        GoodBegins(s, dims, xs);
        SetTopKeeps(s, Ref(|s.lists|));
        GoodLists(dims, WithList(SetTop(s, Ref(|s.lists|)).value, dims[j]), xs, j + 1);
      }
    }
  }

  ghost predicate TestRight(indexes: seq<nat>) {
    forall j :: 0 <= j < |indexes| ==> (MakesList(indexes, j) <==> AtStart(indexes, j))
  }

  /** One round keeps the conversion right while the test for a new list is. */
  lemma {:induction false} GoodElement<T>(dims: seq<nat>, s: State<T>, xs: seq<T>, n: nat)
    requires Positive(dims) && dims != [] && Ready(s, dims, xs, n) && TestRight(s.indexes) && n < |xs|
    ensures var r := Element(dims, s, xs[n]);
            && r.Some?
            && if r.value.stack == [] then n + 1 == Size(dims) && Complete(r.value, dims, xs)
               else Ready(r.value, dims, xs, n + 1)
  {
    hide MakeLists, Carry, SetTop, Start, Complete, Good, Element;
    assert |s.stack| <= |dims| == |s.indexes| by {
      GoodShape(s, dims, xs);
    }
    forall i | 0 <= i < |dims| ensures MakesList(s.indexes, i) <==> |s.stack| <= i {
      if i < |s.stack| {
        assert s.indexes[|s.stack| - 1] > 0;
      }
    }
    GoodLists(dims, s, xs, 0);
    ElementUnfold(dims, s, xs[n]);
    var made := MakeLists(dims, s, 0).value;
    GoodStores(made, dims, xs, n);
    var stored := Stored(dims, made, xs[n]);
    assert |stored.stack| == |dims| by {
      SetTopKeeps(made, Leaf(xs[n]));
    }
    NextStart(dims, made.indexes);
    GoodEnds(dims, stored, xs, n + 1);
  }

  lemma {:induction false} GoodShape<T>(s: State<T>, dims: seq<nat>, xs: seq<T>)
    requires Good(s, dims, xs)
    ensures |s.stack| <= |dims| == |s.indexes|
  {
  }

  lemma {:induction false} NextStart(dims: seq<nat>, indexes: seq<nat>)
    requires |dims| == |indexes| > 0
    ensures var last := |dims| - 1;
            Start(dims, indexes[last := indexes[last] + 1], |dims|) == Start(dims, indexes, |dims|) + 1
  {
    var last := |dims| - 1;
    SameStart(dims, indexes, indexes[last := indexes[last] + 1], last);
    assert dims[|dims|..] == [] && Size([]) == 1;
  }

  /** While the test is right at every position, so is every state. */
  lemma {:induction false} BuildsRight<T>(dims: seq<nat>, xs: seq<T>, n: nat)
    requires Positive(dims) && dims != [] && n <= |xs| == Size(dims)
    requires forall indexes: seq<nat> :: InRange(indexes, dims) ==> TestRight(indexes)
    ensures var r := Build(dims, xs, n);
            && r.Some?
            && if n > 0 && r.value.stack == [] then n == Size(dims) && Complete(r.value, dims, xs)
               else Ready(r.value, dims, xs, n)
    decreases n
  {
    hide Element, Good, Complete, TestRight, Start, Size;
    if n == 0 {
      StartsReady(dims, xs, Build(dims, xs, 0).value);
    } else {
      BuildsRight(dims, xs, n - 1);
      GoodElement(dims, Build(dims, xs, n - 1).value, xs, n - 1);
    }
  }

  lemma {:induction false} StartsReady<T>(dims: seq<nat>, xs: seq<T>, s: State<T>)
    requires Positive(dims) && dims != [] && |s.indexes| == |dims| && s.stack == [] && s.lists == []
    requires forall k :: 0 <= k < |dims| ==> s.indexes[k] == 0
    ensures Ready(s, dims, xs, 0)
  {
    ZeroTail(dims, s.indexes, 0, |dims|);
  }

  /** The position of indexes in range is one of the array's. */
  lemma {:induction false} StartBound(dims: seq<nat>, indexes: seq<nat>, l: nat)
    requires InRange(indexes, dims) && l <= |dims|
    ensures Start(dims, indexes, l) + Size(dims[l..]) <= Size(dims)
  {
    hide Size;
    if l == 0 {
      assert dims[0..] == dims;
    } else {
      StartBound(dims, indexes, l - 1);
      SizeUnfold(dims, l - 1);
      assert (indexes[l - 1] + 1) * Size(dims[l..]) <= dims[l - 1] * Size(dims[l..]);
    }
  }

  lemma {:induction false} StartBefore(dims: seq<nat>, indexes: seq<nat>)
    requires InRange(indexes, dims)
    ensures Start(dims, indexes, |dims|) < Size(dims)
  {
    StartBound(dims, indexes, |dims|);
    assert dims[|dims|..] == [] && Size([]) == 1;
  }

  lemma {:induction false} SizeGrows(dims: seq<nat>, k: nat)
    requires Positive(dims)
    ensures Size(dims) > 0 && (k < |dims| && dims[k] > 1 ==> Size(dims) > 1)
  {
    if dims != [] {
      var rest := dims[1..];
      SizeGrows(rest, if k > 0 then k - 1 else 0);
      assert dims[0] * Size(rest) >= Size(rest) && dims[0] * Size(rest) >= dims[0];
    }
  }

  /** Reads right: no Python error, and the nested list of the elements in row-major order. */
  ghost predicate ReadsRight<T>(dims: seq<nat>, xs: seq<T>)
    requires dims != []
  {
    var r := Build(dims, xs, |xs|);
    r.Some? && Tree(r.value.lists, r.value.root, |dims|) == Some(RowMajor(dims, xs, 0))
  }

  /** Where the test for a new list is right, the whole array is read right and no context is left. */
  lemma {:induction false} ReadsRightWhere<T>(dims: seq<nat>, xs: seq<T>)
    requires Positive(dims) && dims != [] && |xs| == Size(dims)
    requires forall k :: 2 <= k < |dims| ==> dims[k] == 1
    ensures ReadsRight(dims, xs) && Build(dims, xs, |xs|).value.stack == []
  {
    hide Build, Good, MakesList, Tree, RowMajor;
    ListTestRightExactly(dims);
    BuildsRight(dims, xs, |xs|);
    var s := Build(dims, xs, |xs|).value;
    SizeGrows(dims, 0);
    assert InRange(s.indexes, dims) ==> Start(dims, s.indexes, |dims|) < Size(dims) by {
      if InRange(s.indexes, dims) {
        StartBefore(dims, s.indexes);
      }
    }
  }

  /**
   An array is read right if and only if all its dimensions from the third on are 1; so every vector
   and every matrix. Otherwise Python raises an error, or the value has a list below the array's depth.
   */
  lemma {:induction false} ReadsRightExactly<T>(dims: seq<nat>, xs: seq<T>)
    requires Positive(dims) && dims != [] && |xs| == Size(dims)
    ensures ReadsRight(dims, xs) <==> forall k :: 2 <= k < |dims| ==> dims[k] == 1
    ensures !ReadsRight(dims, xs) ==>
              var r := Build(dims, xs, |xs|);
              r == None || NestedBeyond(r.value.lists, r.value.root, |dims|)
  {
    hide Build, Tree, RowMajor, NestedBeyond;
    if k :| 2 <= k < |dims| && dims[k] != 1 {
      SizeGrows(dims, k);
      ReadingFails(dims, xs, k);
      var r := Build(dims, xs, |xs|);
      if r.Some? {
        BeyondIsNoTree(r.value.lists, r.value.root, |dims|);
      }
    } else {
      ReadsRightWhere(dims, xs);
    }
  }

  /** A one-dimensional array becomes the list of its elements in order. */
  lemma {:induction false} VectorTree<T>(xs: seq<T>)
    requires xs != []
    ensures var r := Build([|xs|], xs, |xs|);
            r.Some? && Tree(r.value.lists, r.value.root, 1) == Some(RowMajor([|xs|], xs, 0)) && r.value.stack == []
  {
    hide Build, Tree, RowMajor;
    assert Size([|xs|]) == |xs| by {
      assert Size([]) == 1;
    }
    ReadsRightWhere([|xs|], xs);
  }

  /** A two-dimensional array becomes its rows, in row-major order. */
  lemma {:induction false} MatrixTree<T>(height: nat, width: nat, xs: seq<T>)
    requires 0 < height && 0 < width && |xs| == Size([height, width])
    ensures var r := Build([height, width], xs, |xs|);
            && r.Some? && r.value.stack == []
            && Tree(r.value.lists, r.value.root, 2) == Some(RowMajor([height, width], xs, 0))
  {
    hide Build, Tree, RowMajor;
    ReadsRightWhere([height, width], xs);
  }
  /** A store at the top context changes one entry. */
  lemma {:induction false} StoresAt<T>(s: State<T>, item: Item<T>, lists: seq<seq<Item<T>>>)
    requires s.stack != [] && |lists| == |s.lists|
    requires var top := s.stack[|s.stack| - 1];
             && top.list < |lists| && |lists[top.list]| == |s.lists[top.list]| && top.index < |lists[top.list]|
             && (forall i :: 0 <= i < |lists| && i != top.list ==> lists[i] == s.lists[i])
             && (forall k :: 0 <= k < |lists[top.list]| ==>
                   lists[top.list][k] == if k == top.index then item else s.lists[top.list][k])
    ensures SetTop(s, item) == Some(s.(lists := lists))
  {
    var top := s.stack[|s.stack| - 1];
    assert lists[top.list] == s.lists[top.list][top.index := item];
    assert lists == s.lists[top.list := lists[top.list]];
  }

  /** The lists that end are only left, not changed. */
  lemma {:induction false} EndsKeepLists<T>(dims: seq<nat>, s: State<T>, j: nat)
    requires |s.indexes| == |dims| && j <= |dims| && j <= |s.stack|
    ensures var r := Carry(dims, s, j); r.Some? && r.value.lists == s.lists && r.value.root == s.root
    decreases j
  {
    if j > 0 {
      if s.indexes[j - 1] != dims[j - 1] {
        EndsKeepLists(dims, s, j - 1);
      } else {
        var outer := if j > 1 then s.indexes[j - 2 := s.indexes[j - 2] + 1] else s.indexes;
        EndsKeepLists(dims, s.(indexes := outer[j - 1 := 0], stack := BumpTop(s.stack[..|s.stack| - 1])), j - 1);
      }
    }
  }

  /** A list begins at level `j`, in the list above. */
  lemma {:induction false} ListBegins<T>(dims: seq<nat>, s: State<T>, j: nat, t: State<T>)
    requires |s.indexes| == |dims| && j < |dims| && MakesList(s.indexes, j)
    requires s.stack != [] && |t.lists| == |s.lists| + 1 && t.lists[|s.lists|] == EmptyList(dims[j])
    requires SetTop(s, Ref(|s.lists|)) == Some(s.(lists := t.lists[..|s.lists|]))
    requires t == s.(lists := t.lists, stack := s.stack + [Context(|s.lists|, 0)])
    ensures MakeLists(dims, s, j) == MakeLists(dims, t, j + 1)
  {
    hide MakeLists, SetTop, MakesList, EmptyList;
    ListsUnfold(dims, s, j);
    var stored := s.(lists := t.lists[..|s.lists|]);
    assert t.lists == stored.lists + [EmptyList(dims[j])];
    assert t == WithList(stored, dims[j]);
  }

  lemma {:induction false} ThreeLists(start: State<int>) returns (m: State<int>)
    requires start == State([], Null, [], [0, 0, 0])
    ensures MakeLists([1, 1, 2], start, 0) == Some(m) && m.root == Ref(0) && m.indexes == [0, 0, 0]
    ensures m.lists == [[Ref(1)], [Ref(2)], [Null, Null]] && m.stack == [Context(0, 0), Context(1, 0), Context(2, 0)]
  {
    hide SetTop, MakeLists;
    var dims, i := [1, 1, 2], [0, 0, 0];
    assert |dims| == 3 && dims[0] == 1 && dims[1] == 1 && dims[2] == 2 && i[0] == 0 && i[1] == 0 && i[2] == 0;
    assert EmptyList<int>(1) == [Null] && EmptyList<int>(2) == [Null, Null];
    var m0: State<int> := State([[Null]], Ref(0), [Context(0, 0)], i);
    RootBegins(dims, start, m0);
    var m1: State<int> := State([[Ref(1)], [Null]], Ref(0), [Context(0, 0), Context(1, 0)], i);
    StoresAt(m0, Ref(1), [[Ref(1)]]);
    assert m1.lists[..1] == [[Ref(1)]];
    ListBegins(dims, m0, 1, m1);
    m := State([[Ref(1)], [Ref(2)], [Null, Null]], Ref(0), m1.stack + [Context(2, 0)], i);
    StoresAt(m1, Ref(2), [[Ref(1)], [Ref(2)]]);
    assert m.lists[..2] == [[Ref(1)], [Ref(2)]];
    ListBegins(dims, m1, 2, m);
    NoMoreLists(dims, m);
  }

  lemma {:induction false} NoMoreLists<T>(dims: seq<nat>, s: State<T>)
    requires |s.indexes| == |dims|
    ensures MakeLists(dims, s, |dims|) == Some(s)
  {
  }

  lemma {:induction false} FirstOfThree() returns (s: State<int>)
    ensures Build([1, 1, 2], [5, 7], 1) == Some(s) && s.root == Ref(0) && s.indexes == [0, 0, 1]
    ensures s.lists == [[Ref(1)], [Ref(2)], [Leaf(5), Null]] && s.stack == [Context(0, 0), Context(1, 0), Context(2, 1)]
  {
    hide SetTop, MakeLists;
    var dims, xs, i := [1, 1, 2], [5, 7], [0, 0, 0];
    assert |dims| == 3 && dims[0] == 1 && dims[1] == 1 && dims[2] == 2;
    var start: State<int> := State([], Null, [], i);
    assert Build(dims, xs, 0) == Some(start) by {
      assert seq(3, _ => 0) == i;
    }
    var m2 := ThreeLists(start);
    s := State([[Ref(1)], [Ref(2)], [Leaf(5), Null]], Ref(0), [Context(0, 0), Context(1, 0), Context(2, 1)], [0, 0, 1]);
    StoresAt(m2, Leaf(5), s.lists);
    assert BumpTop(m2.stack) == s.stack && i[2 := 1] == s.indexes && s.indexes[2] == 1
           && s.indexes[0] == 0 == s.indexes[1];
    assert Carry(dims, s, 3) == Carry(dims, s, 2) == Carry(dims, s, 1) == Carry(dims, s, 0);
    assert Element(dims, start, 5) == Carry(dims, s, 3);
  }

  lemma {:induction false} RootBegins<T>(dims: seq<nat>, s: State<T>, t: State<T>)
    requires |dims| > 0 && |s.indexes| == |dims| && MakesList(s.indexes, 0) && s.stack == [] && s.lists == []
    requires t == State([EmptyList(dims[0])], Ref(0), [Context(0, 0)], s.indexes)
    ensures MakeLists(dims, s, 0) == MakeLists(dims, t, 1)
  {
    hide MakeLists, EmptyList;
    ListsUnfold(dims, s, 0);
    assert t == WithList(s.(root := Ref(0)), dims[0]);
  }

  /** The 1x1x2 array of 5 and 7 becomes [[[5, [7]]]]. */
  lemma {:induction false} ThreeDimensionsGoWrong()
    ensures var r := Build([1, 1, 2], [5, 7], 2);
            r.Some? && r.value.root == Ref(0)
            && r.value.lists == [[Ref(1)], [Ref(2)], [Leaf(5), Ref(3)], [Leaf(7)]]
  {
    hide SetTop, MakeLists, Carry;
    var dims, xs := [1, 1, 2], [5, 7];
    var s := FirstOfThree();
    assert |dims| == 3 && dims[0] == 1 && s.indexes[0] == 0 && s.indexes[1] == 0 && s.indexes[2] == 1;
    assert EmptyList<int>(1) == [Null];
    var n: State<int> :=
      State([[Ref(1)], [Ref(2)], [Leaf(5), Ref(3)], [Null]], Ref(0), s.stack + [Context(3, 0)], s.indexes);
    StoresAt(s, Ref(3), [[Ref(1)], [Ref(2)], [Leaf(5), Ref(3)]]);
    assert n.lists[..3] == [[Ref(1)], [Ref(2)], [Leaf(5), Ref(3)]];
    ListBegins(dims, s, 0, n);
    ListsUnfold(dims, n, 1);
    ListsUnfold(dims, n, 2);
    NoMoreLists(dims, n);
    var u: State<int> := State([[Ref(1)], [Ref(2)], [Leaf(5), Ref(3)], [Leaf(7)]], Ref(0), n.stack, s.indexes);
    StoresAt(n, Leaf(7), u.lists);
    EndsKeepLists(dims, u.(stack := BumpTop(n.stack), indexes := s.indexes[2 := 2]), 3);
  }
}
