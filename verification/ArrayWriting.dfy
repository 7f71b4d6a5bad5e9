/**
 Writing nested Python lists back to an array of DynamicData: which member ids a recursive walk sets,
 and when those are the ids the elements came from.
 */
module ArrayWriting {
  import opened ArrayLists
  import ArrayReading
  import opened Wrappers

  /**
   The writes of a list's entries from `i` on: an element goes to its place in this list after the
   list's offset, and a nested list gets the offset of its own place alone.
   */
  function Writes<T>(items: seq<Nested<T>>, offset: nat, i: nat): seq<(nat, T)>
    decreases items, |items| - i
  {
    if |items| <= i then []
    else
      (match items[i]
       case Scalar(x) => [(offset + i + 1, x)]
       case PyList(inner) => Writes(inner, |inner| * i, 0))
      + Writes(items, offset, i + 1)
  }

  function Applied<T>(values: map<nat, T>, ws: seq<(nat, T)>): map<nat, T>
    decreases |ws|
  {
    if ws == [] then values else Applied(values[ws[0].0 := ws[0].1], ws[1..])
  }

  lemma {:induction false} AppliedTogether<T>(values: map<nat, T>, a: seq<(nat, T)>, b: seq<(nat, T)>)
    ensures Applied(values, a + b) == Applied(Applied(values, a), b)
    decreases |a|
  {
    if a == [] {
      assert a + b == b;
    } else {
      assert (a + b)[1..] == a[1..] + b;
      AppliedTogether(values[a[0].0 := a[0].1], a[1..], b);
    }
  }

  /** Write `k` is the last one to an id. */
  ghost predicate LastTo<T>(ws: seq<(nat, T)>, id: nat, k: nat) {
    k < |ws| && ws[k].0 == id && forall j :: k < j < |ws| ==> ws[j].0 != id
  }

  ghost predicate NoneTo<T>(ws: seq<(nat, T)>, id: nat) {
    forall k :: 0 <= k < |ws| ==> ws[k].0 != id
  }

  lemma {:induction false} LastShifts<T>(ws: seq<(nat, T)>, id: nat, k: nat)
    requires ws != []
    ensures NoneTo(ws, id) <==> ws[0].0 != id && NoneTo(ws[1..], id)
    ensures LastTo(ws, id, k) <==> if k == 0 then ws[0].0 == id && NoneTo(ws[1..], id) else LastTo(ws[1..], id, k - 1)
  {
    var rest := ws[1..];
    assert forall j :: 0 <= j < |rest| ==> rest[j] == ws[j + 1];
    assert forall j :: 0 < j < |ws| ==> ws[j] == rest[j - 1];
  }

  lemma {:induction false} AppliedUnfold<T>(values: map<nat, T>, ws: seq<(nat, T)>)
    requires ws != []
    ensures Applied(values, ws) == Applied(values[ws[0].0 := ws[0].1], ws[1..])
  {
  }

  /** The last write to an id is what it then holds; an id without one holds what it did. */
  lemma {:induction false} AppliedExactly<T>(values: map<nat, T>, ws: seq<(nat, T)>, id: nat, k: nat)
    ensures var r := Applied(values, ws);
            && (NoneTo(ws, id) ==> (id in r <==> id in values) && (id in r && id in values ==> r[id] == values[id]))
            && (LastTo(ws, id, k) ==> k < |ws| && id in r && r[id] == ws[k].1)
    decreases |ws|
  {
    hide Applied, NoneTo, LastTo;
    if ws == [] {
      AppliedNone(values);
      NoLast(ws, id, k);
    } else {
      AppliedUnfold(values, ws);
      LastShifts(ws, id, k);
      AppliedExactly(values[ws[0].0 := ws[0].1], ws[1..], id, if k == 0 then 0 else k - 1);
    }
  }

  lemma {:induction false} NoLast<T>(ws: seq<(nat, T)>, id: nat, k: nat)
    requires ws == []
    ensures !LastTo(ws, id, k)
  {
  }

  /** The members of a DynamicData array, by their id. */
  class ArrayData<T> {
    var values: map<nat, T>

    constructor ()
      ensures values == map[]
    {
      values := map[];
    }

    method WriteList(items: seq<Nested<T>>, offset: nat)
      modifies this
      ensures values == Applied(old(values), Writes(items, offset, 0))
      decreases items
    {
      hide Writes, Applied;
      var i := 0;
      while i < |items|
        invariant 0 <= i <= |items|
        invariant Applied(old(values), Writes(items, offset, 0)) == Applied(values, Writes(items, offset, i))
      {
        ghost var before := values;
        WritesUnfold(items, offset, i);
        match items[i] {
          case Scalar(x) =>
            values := values[offset + i + 1 := x];
            AppliedTogether(before, [(offset + i + 1, x)], Writes(items, offset, i + 1));
            AppliedOne(before, offset + i + 1, x);
          case PyList(inner) =>
            WriteList(inner, |inner| * i);
            AppliedTogether(before, Writes(inner, |inner| * i, 0), Writes(items, offset, i + 1));
        }
        i := i + 1;
      }
      WritesEnd(items, offset, i);
      AppliedNone(values);
    }
  }

  lemma {:induction false} AppliedOne<T>(values: map<nat, T>, id: nat, x: T)
    ensures Applied(values, [(id, x)]) == values[id := x]
  {
    assert [(id, x)][1..] == [];
  }

  lemma {:induction false} AppliedNone<T>(values: map<nat, T>)
    ensures Applied(values, []) == values
  {
  }

  /** The flat position of the first element of row `i`. */
  function RowStart(i: nat, width: nat): nat {
    i * width
  }

  lemma {:induction false} RowStartNext(i: nat, width: nat)
    ensures RowStart(0, width) == 0 && RowStart(i + 1, width) == RowStart(i, width) + width
  {
  }

  lemma {:induction false} RowStartBound(i: nat, height: nat, width: nat)
    requires i < height
    ensures RowStart(i, width) + width <= RowStart(height, width)
  {
    assert (i + 1) * width <= height * width;
  }

  lemma {:induction false} SizeOne(width: nat)
    ensures Size([width]) == width
  {
    assert Size([]) == 1;
  }

  lemma {:induction false} SizeTwo(height: nat, width: nat)
    ensures Size([height, width]) == RowStart(height, width)
  {
    SizeOne(width);
    assert [height, width][1..] == [width];
  }

  lemma {:induction false} RowStartIs(i: nat, width: nat)
    ensures RowStart(i, width) == i * width
  {
  }

  /** `n` elements from position `at` on, written to the ids from `id` on. */
  function Numbered<T>(xs: seq<T>, at: nat, n: nat, id: nat): (r: seq<(nat, T)>)
    requires at + n <= |xs|
    ensures |r| == n && forall k :: 0 <= k < n ==> r[k] == (id + k, xs[at + k])
    decreases n
  {
    if n == 0 then [] else [(id, xs[at])] + Numbered(xs, at + 1, n - 1, id + 1)
  }

  lemma {:induction false} NumberedTogether<T>(xs: seq<T>, at: nat, n: nat, m: nat, id: nat)
    requires at + n + m <= |xs|
    ensures Numbered(xs, at, n, id) + Numbered(xs, at + n, m, id + n) == Numbered(xs, at, n + m, id)
  {
  }

  lemma {:induction false} PartAt<T>(dims: seq<nat>, xs: seq<T>, at: nat, n: nat, i: nat)
    requires i < n
    ensures Parts(dims, xs, at, n)[i] == RowMajor(dims, xs, at + i * Size(dims))
    decreases n
  {
    if i < n - 1 {
      PartAt(dims, xs, at, n - 1, i);
    }
  }

  lemma {:induction false} WritesUnfold<T>(items: seq<Nested<T>>, offset: nat, i: nat)
    requires i < |items|
    ensures Writes(items, offset, i) ==
      (match items[i]
       case Scalar(x) => [(offset + i + 1, x)]
       case PyList(inner) => Writes(inner, |inner| * i, 0))
      + Writes(items, offset, i + 1)
  {
  }

  /** The elements of a row go to consecutive ids. */
  lemma {:induction false} RowWrites<T>(xs: seq<T>, at: nat, n: nat, offset: nat, i: nat)
    requires at + n <= |xs| && i <= n
    ensures Writes(Parts([], xs, at, n), offset, i) == Numbered(xs, at + i, n - i, offset + i + 1)
    decreases n - i
  {
    hide Parts, Numbered;
    if i < n {
      PartAt([], xs, at, n, i);
      WritesUnfold(Parts([], xs, at, n), offset, i);
      RowWrites(xs, at, n, offset, i + 1);
    }
  }

  /** The rows of a matrix go to consecutive ids, one after the other. */
  lemma {:induction false} PlaneWrites<T>(xs: seq<T>, at: nat, height: nat, width: nat, offset: nat, i: nat)
    requires i <= height && at + RowStart(height, width) <= |xs| && RowStart(i, width) <= RowStart(height, width)
    ensures Writes(Parts([width], xs, at, height), offset, i)
            == Numbered(xs, at + RowStart(i, width), RowStart(height, width) - RowStart(i, width),
                        RowStart(i, width) + 1)
    decreases height - i
  {
    hide Writes, Parts, Numbered, RowStart, Size;
    if i == height {
      WritesEnd(Parts([width], xs, at, height), offset, i);
      assert Numbered(xs, at + RowStart(i, width), 0, RowStart(i, width) + 1) == [];
    } else {
      var start := RowStart(i, width);
      SizeOne(width);
      PartAt([width], xs, at, height, i);
      RowStartNext(i, width);
      RowStartBound(i, height, width);
      RowStartIs(i, width);
      assert Parts([width], xs, at, height)[i] == RowMajor([width], xs, at + start);
      assert [width][1..] == [];
      RowWrites(xs, at + start, width, start, 0);
      assert width * i == start;
      WritesUnfold(Parts([width], xs, at, height), offset, i);
      PlaneWrites(xs, at, height, width, offset, i + 1);
      NumberedTogether(xs, at + start, width, RowStart(height, width) - start - width, start + 1);
    }
  }

  /** The size of the last two dimensions. */
  function PlaneSize(dims: seq<nat>): nat
    requires |dims| >= 2
  {
    dims[|dims| - 2] * dims[|dims| - 1]
  }

  lemma {:induction false} SizePlane(dims: seq<nat>)
    requires |dims| == 2
    ensures Size(dims) == PlaneSize(dims) == RowStart(dims[0], dims[1])
  {
    SizeTwo(dims[0], dims[1]);
    assert dims == [dims[0], dims[1]];
  }

  ghost predicate Within<T>(ws: seq<(nat, T)>, m: nat) {
    forall p :: 0 <= p < |ws| ==> ws[p].0 <= m
  }

  lemma {:induction false} RowStartMonotone(i: nat, j: nat, width: nat)
    requires i <= j
    ensures RowStart(i, width) <= RowStart(j, width)
  {
    assert i * width <= j * width;
  }

  lemma {:induction false} WritesEnd<T>(items: seq<Nested<T>>, offset: nat, i: nat)
    requires |items| <= i
    ensures Writes(items, offset, i) == []
  {
  }

  /** The `i`-th part of an array lies inside it. */
  lemma {:induction false} PartFits(dims: seq<nat>, i: nat)
    requires dims != [] && i < dims[0]
    ensures i * Size(dims[1..]) + Size(dims[1..]) <= Size(dims)
  {
    RowStartBound(i, dims[0], Size(dims[1..]));
  }

  /**
   Written back, an array of two or more dimensions has as many writes as elements, but none of them
   goes beyond the size of the last two dimensions: the offsets of the outer lists are dropped.
   */
  lemma {:induction false} WritesStayInPlane<T>(dims: seq<nat>, xs: seq<T>, at: nat, offset: nat, i: nat)
    requires |dims| >= 2 && i <= dims[0] && at + Size(dims) <= |xs|
    ensures Within(Writes(Parts(dims[1..], xs, at, dims[0]), offset, i), PlaneSize(dims))
    decreases |dims|, dims[0] - i
  {
    hide Writes, Parts, RowStart, Size;
    var rest := dims[1..];
    if |dims| == 2 {
      SizePlane(dims);
      assert rest == [dims[1]];
      RowStartMonotone(i, dims[0], dims[1]);
      PlaneWrites(xs, at, dims[0], dims[1], offset, i);
    } else if i == dims[0] {
      WritesEnd(Parts(rest, xs, at, dims[0]), offset, i);
    } else {
      var inner := at + i * Size(rest);
      PartAt(rest, xs, at, dims[0], i);
      PartFits(dims, i);
      WritesStayInPlane(rest, xs, inner, rest[0] * i, 0);
      WritesStayInPlane(dims, xs, at, offset, i + 1);
      WritesUnfold(Parts(rest, xs, at, dims[0]), offset, i);
    }
  }

  ghost predicate LeadingOnes(dims: seq<nat>) {
    forall k :: 0 <= k < |dims| - 2 ==> dims[k] == 1
  }

  /** With leading dimensions of 1 there is one plane, and it is written right. */
  lemma {:induction false} OnePlaneWrites<T>(dims: seq<nat>, xs: seq<T>, offset: nat)
    requires |dims| >= 2 && Size(dims) == |xs| && LeadingOnes(dims)
    ensures Writes(Parts(dims[1..], xs, 0, dims[0]), offset, 0) == Numbered(xs, 0, |xs|, 1)
    decreases |dims|
  {
    var rest := dims[1..];
    if |dims| == 2 {
      SizePlane(dims);
      assert rest == [dims[1]];
      RowStartNext(0, dims[1]);
      PlaneWrites(xs, 0, dims[0], dims[1], offset, 0);
    } else {
      assert forall k :: 0 <= k < |rest| - 2 ==> rest[k] == dims[k + 1];
      assert dims[0] == 1 && Size(dims) == Size(rest);
      PartAt(rest, xs, 0, 1, 0);
      OnePlaneWrites(rest, xs, rest[0] * 0);
      var items := Parts(rest, xs, 0, 1);
      assert items[0] == PyList(Parts(rest[1..], xs, 0, rest[0]));
      assert Writes(items, offset, 0) == Writes(Parts(rest[1..], xs, 0, rest[0]), rest[0] * 0, 0)
             + Writes(items, offset, 1);
    }
  }

  /** Otherwise there are more elements than the plane has places. */
  lemma {:induction false} MoreThanAPlane(dims: seq<nat>)
    requires |dims| >= 2 && Positive(dims)
    ensures Size(dims) >= PlaneSize(dims) > 0 && (!LeadingOnes(dims) ==> Size(dims) > PlaneSize(dims))
    decreases |dims|
  {
    var rest := dims[1..];
    if |dims| == 2 {
      SizePlane(dims);
      assert dims[0] * dims[1] > 0;
    } else {
      assert Positive(rest);
      MoreThanAPlane(rest);
      assert PlaneSize(rest) == PlaneSize(dims);
      ProductGrows(dims[0], Size(rest));
      if !LeadingOnes(dims) && dims[0] == 1 {
        var k :| 0 <= k < |dims| - 2 && dims[k] != 1;
        assert rest[k - 1] != 1;
      }
    }
  }

  lemma {:induction false} ProductGrows(a: nat, b: nat)
    requires a > 0 && b > 0
    ensures a * b >= b && (a > 1 ==> a * b > b)
  {
    assert (a - 1) * b >= 0;
    if a > 1 {
      assert (a - 1) * b >= b;
    }
  }

  /** One-dimensional arrays are written back right. */
  lemma {:induction false} VectorRoundTrip<T>(xs: seq<T>)
    ensures RowMajor([|xs|], xs, 0) == PyList(Parts([], xs, 0, |xs|))
    ensures Writes(Parts([], xs, 0, |xs|), 0, 0) == Numbered(xs, 0, |xs|, 1)
  {
    hide Parts, Writes, Numbered;
    assert [|xs|][1..] == [];
    RowWrites(xs, 0, |xs|, 0, 0);
  }

  /**
   An array of two or more dimensions is written back right, each element to the flat id it came
   from, exactly when all dimensions but the last two are 1; so for every matrix.
   */
  lemma {:induction false} RoundTripExactly<T>(dims: seq<nat>, xs: seq<T>)
    requires |dims| >= 2 && Positive(dims) && |xs| == Size(dims)
    ensures RowMajor(dims, xs, 0) == PyList(Parts(dims[1..], xs, 0, dims[0]))
    ensures Writes(Parts(dims[1..], xs, 0, dims[0]), 0, 0) == Numbered(xs, 0, |xs|, 1) <==> LeadingOnes(dims)
  {
    if LeadingOnes(dims) {
      OnePlaneWrites(dims, xs, 0);
    } else {
      MoreThanAPlane(dims);
      WritesStayInPlane(dims, xs, 0, 0, 0);
      assert Numbered(xs, 0, |xs|, 1)[|xs| - 1].0 == |xs|;
    }
  }

  /** Read as nested lists of its own depth, and written back with every element at its own id. */
  ghost predicate ComesBack<T>(dims: seq<nat>, xs: seq<T>)
    requires dims != []
  {
    var r := Build(dims, xs, |xs|);
    && r.Some?
    && var tree := Tree(r.value.lists, r.value.root, |dims|);
       && tree.Some? && tree.value.PyList?
       && Writes(tree.value.items, 0, 0) == Numbered(xs, 0, |xs|, 1)
  }

  /**
   An array comes back from Python if and only if every dimension from the third on, and every one
   before the last two, is 1: vectors and matrices always, three dimensions when the outer and the
   inner one are 1, and more dimensions only with a single element.
   */
  lemma {:induction false} ComesBackExactly<T>(dims: seq<nat>, xs: seq<T>)
    requires dims != [] && Positive(dims) && |xs| == Size(dims)
    ensures ComesBack(dims, xs) <==> forall k :: 0 <= k < |dims| && (2 <= k || k < |dims| - 2) ==> dims[k] == 1
  {
    hide Build, Tree, RowMajor, Parts, Writes, Numbered, Size, ArrayReading.ReadsRight, NestedBeyond;
    ArrayReading.ReadsRightExactly(dims, xs);
    assert |dims| == 1 ==> dims == [|xs|] by {
      if |dims| == 1 {
        SizeOne(dims[0]);
        assert dims == [dims[0]];
      }
    }
    if |dims| == 1 {
      VectorRoundTrip(xs);
    } else {
      RoundTripExactly(dims, xs);
    }
    ReadsRightUnfold(dims, xs);
    assert (forall k :: 0 <= k < |dims| && (2 <= k || k < |dims| - 2) ==> dims[k] == 1) <==>
           (forall k :: 2 <= k < |dims| ==> dims[k] == 1) && LeadingOnes(dims);
  }

  lemma {:induction false} ReadsRightUnfold<T>(dims: seq<nat>, xs: seq<T>)
    requires dims != [] && Positive(dims) && |xs| == Size(dims)
    ensures var r := Build(dims, xs, |xs|);
            if ArrayReading.ReadsRight(dims, xs) then
              r.Some? && Tree(r.value.lists, r.value.root, |dims|) == Some(RowMajor(dims, xs, 0))
            else r == None || Tree(r.value.lists, r.value.root, |dims|) == None
  {
    hide Build, Tree, RowMajor, NestedBeyond;
    ArrayReading.ReadsRightExactly(dims, xs);
    var r := Build(dims, xs, |xs|);
    if !ArrayReading.ReadsRight(dims, xs) && r.Some? {
      ArrayReading.BeyondIsNoTree(r.value.lists, r.value.root, |dims|);
    }
  }

  lemma {:induction false} WrongShapeStands(lists: seq<seq<Item<int>>>)
    requires lists == [[Ref(1)], [Ref(2)], [Leaf(5), Ref(3)], [Leaf(7)]]
    ensures Stands(lists, Ref(0), PyList([PyList([PyList([Scalar(5), PyList([Scalar(7)])])])]))
    ensures NestedBeyond(lists, Ref(0), 3)
  {
    var v3: Nested<int> := PyList([Scalar(7)]);
    var v2: Nested<int> := PyList([Scalar(5), v3]);
    assert Stands(lists, lists[2][1], v3);
    assert Stands(lists, Ref(2), v2);
    assert Stands(lists, Ref(1), PyList([v2]));
    assert NestedBeyond(lists, lists[2][1], 0);
    assert NestedBeyond(lists, lists[1][0], 1);
    assert NestedBeyond(lists, lists[0][0], 2);
  }

  lemma {:induction false} WrongShapeWrites(items: seq<Nested<int>>)
    requires items == [PyList([PyList([Scalar(5), PyList([Scalar(7)])])])]
    ensures Writes(items, 0, 0) == Numbered([5, 7], 0, 2, 1)
  {
    hide Writes;
    var v3: seq<Nested<int>> := [Scalar(7)];
    var v2: seq<Nested<int>> := [Scalar(5), PyList(v3)];
    var v1: seq<Nested<int>> := [PyList(v2)];
    WritesUnfold(v3, 1, 0);
    WritesEnd(v3, 1, 1);
    WritesUnfold(v2, 0, 0);
    WritesUnfold(v2, 0, 1);
    WritesEnd(v2, 0, 2);
    WritesUnfold(v1, 0, 0);
    WritesEnd(v1, 0, 1);
    WritesUnfold(items, 0, 0);
    WritesEnd(items, 0, 1);
  }

  /** A value nested too deep may still be written back right: the one read from the 1x1x2 array is. */
  lemma {:induction false} WrongShapeComesBack()
    ensures var r := Build([1, 1, 2], [5, 7], 2);
            var items := [PyList([PyList([Scalar(5), PyList([Scalar(7)])])])];
            && r.Some? && Stands(r.value.lists, r.value.root, PyList(items))
            && NestedBeyond(r.value.lists, r.value.root, 3)
            && Writes(items, 0, 0) == Numbered([5, 7], 0, 2, 1)
  {
    hide Build, Stands, NestedBeyond, Writes, Numbered;
    ArrayReading.ThreeDimensionsGoWrong();
    WrongShapeStands(Build([1, 1, 2], [5, 7], 2).value.lists);
    WrongShapeWrites([PyList([PyList([Scalar(5), PyList([Scalar(7)])])])]);
  }

  // ----- what any nested list sets -----

  /** The list reached by following a path of positions. */
  function ListAt<T>(items: seq<Nested<T>>, path: seq<nat>): Option<seq<Nested<T>>>
    decreases |path|
  {
    if path == [] then Some(items)
    else if path[0] < |items| && items[path[0]].PyList? then ListAt(items[path[0]].items, path[1..])
    else None
  }

  /**
   The element at the end of a path goes to the place it has in its own list, after an offset that is the
   length of that list times the list's own place; in the outermost list, after the given offset.
   */
  ghost predicate Sets<T>(items: seq<Nested<T>>, offset: nat, path: seq<nat>, w: (nat, T)) {
    && path != []
    && var last := |path| - 1;
       var inner := ListAt(items, path[..last]);
       && inner.Some? && path[last] < |inner.value| && inner.value[path[last]] == Scalar(w.1)
       && w.0 == path[last] + 1 + if last == 0 then offset else |inner.value| * path[last - 1]
  }

  lemma {:induction false} SetsInside<T>(items: seq<Nested<T>>, offset: nat, k: nat, rest: seq<nat>, w: (nat, T))
    requires k < |items| && rest != []
    ensures Sets(items, offset, [k] + rest, w) <==>
            items[k].PyList? && Sets(items[k].items, |items[k].items| * k, rest, w)
  {
    var path := [k] + rest;
    var last := |path| - 1;
    assert path[..last] == [k] + rest[..|rest| - 1];
    assert path[..last][1..] == rest[..|rest| - 1];
    assert path[last] == rest[|rest| - 1];
    if |rest| == 1 {
      assert rest[..0] == [];
    } else {
      assert path[last - 1] == rest[|rest| - 2];
    }
  }

  lemma {:induction false} SetsHere<T>(items: seq<Nested<T>>, offset: nat, k: nat, w: (nat, T))
    ensures Sets(items, offset, [k], w) <==> k < |items| && items[k] == Scalar(w.1) && w.0 == offset + k + 1
  {
    assert [k][..0] == [];
  }

  /** Some path from place `i` on sets it. */
  ghost predicate SetFrom<T>(items: seq<Nested<T>>, offset: nat, i: nat, w: (nat, T)) {
    exists path: seq<nat> :: path != [] && path[0] >= i && Sets(items, offset, path, w)
  }

  lemma {:induction false} SetFromSplits<T>(items: seq<Nested<T>>, offset: nat, i: nat, w: (nat, T))
    requires i < |items|
    ensures SetFrom(items, offset, i, w) <==>
            || SetFrom(items, offset, i + 1, w)
            || (match items[i]
                case Scalar(x) => w == (offset + i + 1, x)
                case PyList(inner) => SetFrom(inner, |inner| * i, 0, w))
  {
    hide Sets;
    if SetFrom(items, offset, i, w) {
      var path :| path != [] && path[0] >= i && Sets(items, offset, path, w);
      if path[0] == i {
        NonEmptyPath(items, offset, path, w);
        if |path| == 1 {
          assert path == [i];
          SetsHere(items, offset, i, w);
        } else {
          assert path == [i] + path[1..];
          SetsInside(items, offset, i, path[1..], w);
        }
      }
    }
    if SetFrom(items, offset, i + 1, w) {
      var path :| path != [] && path[0] >= i + 1 && Sets(items, offset, path, w);
    }
    match items[i]
    case Scalar(x) =>
      SetsHere(items, offset, i, w);
      assert [i][0] >= i;
    case PyList(inner) =>
      if SetFrom(inner, |inner| * i, 0, w) {
        var rest :| rest != [] && rest[0] >= 0 && Sets(inner, |inner| * i, rest, w);
        NonEmptyPath(inner, |inner| * i, rest, w);
        SetsInside(items, offset, i, rest, w);
        assert ([i] + rest)[0] >= i;
      }
  }

  lemma {:induction false} NonEmptyPath<T>(items: seq<Nested<T>>, offset: nat, path: seq<nat>, w: (nat, T))
    requires Sets(items, offset, path, w)
    ensures path != []
  {
  }

  lemma {:induction false} PathBegins<T>(items: seq<Nested<T>>, offset: nat, path: seq<nat>, w: (nat, T))
    requires Sets(items, offset, path, w)
    ensures path != [] && path[0] < |items|
  {
    var front := path[..|path| - 1];
    assert front != [] ==> front[0] == path[0];
  }

  lemma {:induction false} NothingSet<T>(items: seq<Nested<T>>, offset: nat, i: nat, w: (nat, T))
    requires |items| <= i
    ensures !SetFrom(items, offset, i, w)
  {
    hide Sets;
    forall path: seq<nat> | Sets(items, offset, path, w) ensures path != [] && path[0] < |items| {
      PathBegins(items, offset, path, w);
    }
  }

  lemma {:induction false} WritesFrom<T>(items: seq<Nested<T>>, offset: nat, i: nat, w: (nat, T))
    requires i <= |items|
    ensures w in Writes(items, offset, i) <==> SetFrom(items, offset, i, w)
    decreases items, |items| - i
  {
    hide Writes, SetFrom;
    if i == |items| {
      WritesEnd(items, offset, i);
      NothingSet(items, offset, i, w);
    } else {
      WritesUnfold(items, offset, i);
      SetFromSplits(items, offset, i, w);
      WritesFrom(items, offset, i + 1, w);
      if items[i].PyList? {
        WritesFrom(items[i].items, |items[i].items| * i, 0, w);
      }
    }
  }

  /** For nested lists of any shape, exactly the elements are set, each at the id its path gives. */
  lemma {:induction false} WritesExactly<T>(items: seq<Nested<T>>, offset: nat, w: (nat, T))
    ensures w in Writes(items, offset, 0) <==> exists path: seq<nat> :: Sets(items, offset, path, w)
  {
    hide Writes, Sets;
    WritesFrom(items, offset, 0, w);
    if path: seq<nat> :| Sets(items, offset, path, w) {
      NonEmptyPath(items, offset, path, w);
    }
  }

  /** The elements of a nested list, depth first. */
  function Leaves<T>(items: seq<Nested<T>>): seq<T>
    decreases items, |items|
  {
    if items == [] then []
    else
      var last := |items| - 1;
      Leaves(items[..last]) + (match items[last] case Scalar(x) => [x] case PyList(inner) => Leaves(inner))
  }

  function Elements<T>(ws: seq<(nat, T)>): (r: seq<T>)
    ensures |r| == |ws| && forall k :: 0 <= k < |r| ==> r[k] == ws[k].1
  {
    seq(|ws|, k requires 0 <= k < |ws| => ws[k].1)
  }

  lemma {:induction false} ElementsTogether<T>(a: seq<(nat, T)>, b: seq<(nat, T)>)
    ensures Elements(a + b) == Elements(a) + Elements(b)
  {
  }

  lemma {:induction false} LeavesUnfold<T>(items: seq<Nested<T>>, i: nat)
    requires i < |items|
    ensures Leaves(items[..i + 1]) ==
            Leaves(items[..i]) + (match items[i] case Scalar(x) => [x] case PyList(inner) => Leaves(inner))
  {
    assert items[..i + 1][..i] == items[..i] && items[..i + 1][i] == items[i];
  }

  /** And they are set once each, in order. */
  lemma {:induction false} WritesInOrder<T>(items: seq<Nested<T>>, offset: nat, i: nat)
    requires i <= |items|
    ensures Leaves(items[..i]) + Elements(Writes(items, offset, i)) == Leaves(items)
    decreases items, |items| - i
  {
    hide Writes, Leaves, Elements;
    if i == |items| {
      WritesEnd(items, offset, i);
      NoElements<T>();
      assert items[..i] == items && Leaves(items) + [] == Leaves(items);
    } else {
      var before, tail := Leaves(items[..i]), Writes(items, offset, i + 1);
      WritesUnfold(items, offset, i);
      WritesInOrder(items, offset, i + 1);
      LeavesUnfold(items, i);
      match items[i]
      case Scalar(x) =>
        OneElement(offset + i + 1, x);
        Rearranged(before, [x], [(offset + i + 1, x)], tail);
      case PyList(inner) =>
        var ws := Writes(inner, |inner| * i, 0);
        WritesInOrder(inner, |inner| * i, 0);
        NoLeaves(inner);
        Rearranged(before, Leaves(inner), ws, tail);
    }
  }

  lemma {:induction false} Rearranged<T>(before: seq<T>, leaves: seq<T>, ws: seq<(nat, T)>, tail: seq<(nat, T)>)
    requires leaves == Elements(ws)
    ensures before + Elements(ws + tail) == before + leaves + Elements(tail)
  {
    hide Elements;
    ElementsTogether(ws, tail);
    assert before + (leaves + Elements(tail)) == before + leaves + Elements(tail);
  }

  lemma {:induction false} NoElements<T>()
    ensures Elements<T>([]) == []
  {
  }

  lemma {:induction false} OneElement<T>(id: nat, x: T)
    ensures Elements([(id, x)]) == [x]
  {
  }

  lemma {:induction false} NoLeaves<T>(items: seq<Nested<T>>)
    ensures items[..0] == [] && Leaves<T>([]) == [] && forall xs: seq<T> :: Leaves<T>([]) + xs == xs
  {
  }
}
