/**
 Arrays from DynamicData to Python: an odometer with a stack of contexts turns the flat elements into
 nested lists.
 */
module ArrayLists {
  import opened Wrappers

  datatype Item<T> = Null | Leaf(x: T) | Ref(list: nat)

  /** A context: the list being filled and the next index in it. */
  datatype Context = Context(list: nat, index: nat)

  /**
   The Python lists made so far, the value stored under the member's name, the contexts above the
   dictionary's, and the dimension indexes.
   */
  datatype State<T> = State(lists: seq<seq<Item<T>>>, root: Item<T>, stack: seq<Context>, indexes: seq<nat>)

  /** Stores an item at the top context; outside the list, Python raises an error. */
  function SetTop<T>(s: State<T>, item: Item<T>): Option<State<T>> {
    if s.stack == [] then Some(s.(root := item))
    else
      var top := s.stack[|s.stack| - 1];
      if top.list < |s.lists| && top.index < |s.lists[top.list]| then
        Some(s.(lists := s.lists[top.list := s.lists[top.list][top.index := item]]))
      else None
  }

  function BumpTop(stack: seq<Context>): seq<Context> {
    if stack == [] then []
    else
      var last := |stack| - 1;
      stack[last := Context(stack[last].list, stack[last].index + 1)]
  }

  /** Whether a new list is made at level `j`: the test looks at this index and the next one in. */
  predicate MakesList(indexes: seq<nat>, j: nat)
    requires j < |indexes|
  {
    !(j + 1 < |indexes| && indexes[j + 1] != 0) && indexes[j] == 0
  }

  function EmptyList<T>(length: nat): (r: seq<Item<T>>)
    ensures |r| == length && forall k :: 0 <= k < length ==> r[k] == Null
  {
    seq(length, _ => Null)
  }

  /** A new list, with a context of its own. */
  function WithList<T>(s: State<T>, length: nat): State<T> {
    s.(lists := s.lists + [EmptyList(length)], stack := s.stack + [Context(|s.lists|, 0)])
  }

  function MakeLists<T>(dims: seq<nat>, s: State<T>, j: nat): Option<State<T>>
    requires |s.indexes| == |dims| && j <= |dims|
    ensures var r := MakeLists(dims, s, j); r.Some? ==> r.value.indexes == s.indexes
    decreases |dims| - j
  {
    if j == |dims| then Some(s)
    else if !MakesList(s.indexes, j) then MakeLists(dims, s, j + 1)
    else
      match SetTop(s, Ref(|s.lists|))
      case None => None
      case Some(t) => MakeLists(dims, WithList(t, dims[j]), j + 1)
  }

  /** The dimension indexes overflow into the next one out; each overflow ends a list. */
  function Carry<T>(dims: seq<nat>, s: State<T>, j: nat): Option<State<T>>
    requires |s.indexes| == |dims| && j <= |dims|
    ensures var r := Carry(dims, s, j); r.Some? ==> |r.value.indexes| == |dims|
    decreases j
  {
    if j == 0 then Some(s)
    else if s.indexes[j - 1] != dims[j - 1] then Carry(dims, s, j - 1)
    else if s.stack == [] then None
    else
      var outer := if j > 1 then s.indexes[j - 2 := s.indexes[j - 2] + 1] else s.indexes;
      Carry(dims,
            s.(indexes := outer[j - 1 := 0], stack := BumpTop(s.stack[..|s.stack| - 1])), j - 1)
  }

  /** One round: the lists that begin, the element, and the lists that end. */
  function Element<T>(dims: seq<nat>, s: State<T>, x: T): (r: Option<State<T>>)
    requires |s.indexes| == |dims| > 0
    ensures r.Some? ==> |r.value.indexes| == |dims|
  {
    match MakeLists(dims, s, 0)
    case None => None
    case Some(t) =>
      match SetTop(t, Leaf(x))
      case None => None
      case Some(u) =>
        var last := |dims| - 1;
        Carry(dims, u.(stack := BumpTop(u.stack), indexes := u.indexes[last := u.indexes[last] + 1]), |dims|)
  }

  /** The state after the first `n` elements; None is a Python error. */
  function Build<T>(dims: seq<nat>, xs: seq<T>, n: nat): (r: Option<State<T>>)
    requires |dims| > 0 && n <= |xs|
    ensures r.Some? ==> |r.value.indexes| == |dims|
  {
    if n == 0 then Some(State([], Null, [], seq(|dims|, _ => 0)))
    else
      match Build(dims, xs, n - 1)
      case None => None
      case Some(s) => Element(dims, s, xs[n - 1])
  }

  lemma {:induction false} FailsForGood<T>(dims: seq<nat>, xs: seq<T>, n: nat, more: nat)
    requires |dims| > 0 && n <= more <= |xs| && Build(dims, xs, n) == None
    ensures Build(dims, xs, more) == None
    decreases more - n
  {
    if n < more {
      FailsForGood(dims, xs, n + 1, more);
    }
  }
  // ----- the nested value -----

  /** A nested Python value. */
  datatype Nested<T> = Scalar(x: T) | PyList(items: seq<Nested<T>>)

  /** The value behind an item, if it is filled to the given depth. */
  function Tree<T>(lists: seq<seq<Item<T>>>, item: Item<T>, depth: nat): Option<Nested<T>>
    decreases depth, 0
  {
    match item
    case Null => None
    case Leaf(x) => if depth == 0 then Some(Scalar(x)) else None
    case Ref(id) =>
      if depth == 0 || |lists| <= id then None
      else
        match Trees(lists, lists[id], depth - 1)
        case None => None
        case Some(items) => Some(PyList(items))
  }

  function Trees<T>(lists: seq<seq<Item<T>>>, items: seq<Item<T>>, depth: nat): (r: Option<seq<Nested<T>>>)
    ensures r.Some? ==> |r.value| == |items|
    decreases depth, |items| + 1
  {
    if items == [] then Some([])
    else
      var last := |items| - 1;
      match Trees(lists, items[..last], depth)
      case None => None
      case Some(before) =>
        match Tree(lists, items[last], depth)
        case None => None
        case Some(t) => Some(before + [t])
  }

  /** There is a list below the given depth: the value behind an item is nested deeper. */
  ghost predicate NestedBeyond<T>(lists: seq<seq<Item<T>>>, item: Item<T>, depth: nat)
    decreases depth
  {
    && item.Ref? && item.list < |lists|
    && (depth > 0 ==>
          exists k: nat :: k < |lists[item.list]| && NestedBeyond(lists, lists[item.list][k], depth - 1))
  }

  /** An item stands for a nested value, however deep. */
  ghost predicate Stands<T>(lists: seq<seq<Item<T>>>, item: Item<T>, v: Nested<T>)
    decreases v
  {
    match v
    case Scalar(x) => item == Leaf(x)
    case PyList(items) =>
      && item.Ref? && item.list < |lists| && |lists[item.list]| == |items|
      && forall k: nat :: k < |items| ==> Stands(lists, lists[item.list][k], items[k])
  }

  /** How many elements an array with these dimensions has. */
  function Size(dims: seq<nat>): nat {
    if dims == [] then 1 else dims[0] * Size(dims[1..])
  }

  /** The elements from `at` on as a nested list in row-major order. */
  function RowMajor<T>(dims: seq<nat>, xs: seq<T>, at: nat): Nested<T>
    decreases |dims|, 0
  {
    if dims == [] then (if at < |xs| then Scalar(xs[at]) else PyList([])) else PyList(Parts(dims[1..], xs, at, dims[0]))
  }

  /** `n` nested lists with the given dimensions, one after the other. */
  function Parts<T>(dims: seq<nat>, xs: seq<T>, at: nat, n: nat): (r: seq<Nested<T>>)
    ensures |r| == n
    decreases |dims|, n + 1
  {
    if n == 0 then [] else Parts(dims, xs, at, n - 1) + [RowMajor(dims, xs, at + (n - 1) * Size(dims))]
  }

  ghost predicate Positive(dims: seq<nat>) {
    forall k :: 0 <= k < |dims| ==> dims[k] > 0
  }
}
