/**
 The converter of arrays, with its lists and contexts updated in place.
 */
module ArrayConverter {
  import opened Wrappers
  import opened ArrayLists
  import opened ArrayReading

  /** The converter, whose lists and contexts are updated in place. */
  class Converter<T> {
    var lists: seq<seq<Item<T>>>
    var root: Item<T>
    var stack: seq<Context>

    constructor ()
      ensures lists == [] && root == Null && stack == []
    {
      lists, root, stack := [], Null, [];
    }

    function Value(indexes: seq<nat>): State<T>
      reads this
    {
      State(lists, root, stack, indexes)
    }

    method Set(item: Item<T>) returns (ok: bool)
      modifies this
      ensures forall indexes ::
        (if ok then Some(Value(indexes)) else None) == SetTop(old(Value(indexes)), item)
    {
      if stack == [] {
        root := item;
        return true;
      }
      var top := stack[|stack| - 1];
      if top.list >= |lists| || top.index >= |lists[top.list]| {
        return false;
      }
      lists := lists[top.list := lists[top.list][top.index := item]];
      ok := true;
    }

    method PushLists(dims: seq<nat>, indexes: seq<nat>) returns (ok: bool)
      requires |indexes| == |dims|
      modifies this
      ensures (if ok then Some(Value(indexes)) else None) == MakeLists(dims, old(Value(indexes)), 0)
    {
      var j := 0;
      while j < |dims|
        invariant 0 <= j <= |dims|
        invariant MakeLists(dims, Value(indexes), j) == MakeLists(dims, old(Value(indexes)), 0)
      {
        if j + 1 < |dims| && indexes[j + 1] != 0 {
          j := j + 1;
          continue;
        }
        if indexes[j] == 0 {
          var id := |lists|;
          ok := Set(Ref(id));
          if !ok {
            return;
          }
          lists := lists + [EmptyList(dims[j])];
          stack := stack + [Context(id, 0)];
        }
        j := j + 1;
      }
      ok := true;
    }

    method PopLists(dims: seq<nat>, start: seq<nat>) returns (ok: bool, indexes: seq<nat>)
      requires |start| == |dims|
      modifies this
      ensures (if ok then Some(Value(indexes)) else None) == Carry(dims, old(Value(start)), |dims|)
    {
      indexes := start;
      var j := |dims|;
      while j > 0
        invariant 0 <= j <= |dims| == |indexes|
        invariant Carry(dims, Value(indexes), j) == Carry(dims, old(Value(start)), |dims|)
      {
        j := j - 1;
        if indexes[j] == dims[j] {
          if j > 0 {
            indexes := indexes[j - 1 := indexes[j - 1] + 1];
          }
          indexes := indexes[j := 0];
          if stack == [] {
            return false, indexes;
          }
          stack := BumpTop(stack[..|stack| - 1]);
        }
      }
      ok := true;
    }

    /** The array branch: one round for every element. */
    method BuildArray(dims: seq<nat>, xs: seq<T>) returns (ok: bool, indexes: seq<nat>)
      requires |dims| > 0 && lists == [] && root == Null && stack == []
      modifies this
      ensures (if ok then Some(Value(indexes)) else None) == Build(dims, xs, |xs|)
      ensures Positive(dims) && |xs| == Size(dims) ==>
                (ok && Tree(lists, root, |dims|) == Some(RowMajor(dims, xs, 0))
                 <==> forall k :: 2 <= k < |dims| ==> dims[k] == 1)
      ensures Positive(dims) && |xs| == Size(dims) && ok && !(forall k :: 2 <= k < |dims| ==> dims[k] == 1) ==>
                NestedBeyond(lists, root, |dims|)
    {
      hide Element, MakeLists, Carry, SetTop, Tree, RowMajor, Size, NestedBeyond;
      if Positive(dims) && |xs| == Size(dims) {
        ReadsRightExactly(dims, xs);
      }
      indexes := seq(|dims|, _ => 0);
      var count := 0;
      while count < |xs|
        invariant 0 <= count <= |xs| && |indexes| == |dims|
        invariant Build(dims, xs, count) == Some(Value(indexes))
      {
        ok, indexes := AddElement(dims, indexes, xs[count]);
        if !ok {
          FailsForGood(dims, xs, count + 1, |xs|);
          return;
        }
        count := count + 1;
      }
      ok := true;
    }

    method AddElement(dims: seq<nat>, start: seq<nat>, x: T) returns (ok: bool, indexes: seq<nat>)
      requires |start| == |dims| > 0
      modifies this
      ensures (if ok then Some(Value(indexes)) else None) == Element(dims, old(Value(start)), x)
    {
      hide MakeLists, Carry, SetTop;
      indexes := start;
      ok := PushLists(dims, indexes);
      if !ok {
        return;
      }
      ok := Set(Leaf(x));
      assert (if ok then Some(Value(start)) else None).Some? <==> ok;
      if !ok {
        return;
      }
      stack := BumpTop(stack);
      indexes := indexes[|dims| - 1 := indexes[|dims| - 1] + 1];
      ok, indexes := PopLists(dims, indexes);
    }
  }
}
