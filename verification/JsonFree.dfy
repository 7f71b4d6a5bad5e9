/**
 `json_value_free_ex`: a walk over a finished tree that needs no stack, only the parent links and the
 lengths, which it counts down as it enters the children.
 */
module JsonFree {
  import opened JsonText
  import opened JsonGrammar
  import opened JsonMachine
  import opened JsonLayout
  import opened JsonParser

  /** What the allocator handed out for node `i`: the node itself, and the block it owns. */
  datatype Allocation = NodeOf(i: int) | BlockOf(i: int)

  /** The walk reads the fields of a node, or releases an allocation. */
  datatype Event = Touch(i: int) | Free(a: Allocation)

  /** The child the walk enters when `length` children are left. */
  function ChildAt(node: Node, length: nat): int {
    match node.block
    case Pointers(pointers) => if length < |pointers| then pointers[length] else -1
    case Entries(entries, _) => if length < |entries| then entries[length].value else -1
    case _ => -1
  }

  /** The releases made on leaving node `i`; releasing a null block has no effect. */
  function Leave(node: Node, i: int): seq<Event> {
    (if node.block != NoBlock then [Free(BlockOf(i))] else []) + [Free(NodeOf(i))]
  }

  predicate Entering(node: Node) {
    IsContainer(node.kind) && node.length > 0
  }

  // ----- the walk -----

  function TotalLength(nodes: seq<Node>): nat {
    if nodes == [] then 0 else nodes[0].length + TotalLength(nodes[1..])
  }

  lemma {:induction false} TotalLengthUpdate(nodes: seq<Node>, i: nat, node: Node)
    requires i < |nodes|
    ensures TotalLength(nodes[i := node]) == TotalLength(nodes) - nodes[i].length + node.length
  {
    if i == 0 {
      assert nodes[i := node][1..] == nodes[1..];
    } else {
      TotalLengthUpdate(nodes[1..], i - 1, node);
      assert nodes[i := node][1..] == nodes[1..][i - 1 := node];
    }
  }

  ghost predicate ParentsBelow(nodes: seq<Node>) {
    forall i :: 0 <= i < |nodes| ==> nodes[i].parent < i
  }

  /** Everything the walk does from node `value` on; it ends at the null parent of the root. */
  ghost function Walk(nodes: seq<Node>, value: int): seq<Event>
    requires ParentsBelow(nodes)
    decreases TotalLength(nodes), value
  {
    if !(0 <= value < |nodes|) then []
    else
      var node := nodes[value];
      if Entering(node) then
        TotalLengthUpdate(nodes, value, node.(length := node.length - 1));
        [Touch(value)] + Walk(nodes[value := node.(length := node.length - 1)], ChildAt(node, node.length - 1))
      else [Touch(value)] + Leave(node, value) + Walk(nodes, node.parent)
  }

  /** One step of the walk: into the last child left, or out of the node. */
  lemma {:induction false} WalkStep(nodes: seq<Node>, value: nat)
    requires ParentsBelow(nodes) && value < |nodes|
    ensures var node := nodes[value];
            if Entering(node) then
              var entered := nodes[value := node.(length := node.length - 1)];
              ParentsBelow(entered) && Walk(nodes, value)
                == [Touch(value)] + Walk(entered, ChildAt(node, node.length - 1))
            else Walk(nodes, value) == [Touch(value)] + Leave(node, value) + Walk(nodes, node.parent)
  {
  }

  // ----- what it does on a finished tree -----

  predicate HasBlock(v: Value) {
    v.String? || (v.Array? && v.items != NoItems) || (v.Object? && v.members != NoMembers)
  }

  function LeaveValue(v: Value, k: int): seq<Event> {
    [Touch(k)] + (if HasBlock(v) then [Free(BlockOf(k))] else []) + [Free(NodeOf(k))]
  }

  /** The events for the value `v` at `k`: its children from the last to the first, then itself. */
  function Trace(v: Value, k: nat): seq<Event>
    decreases v
  {
    match v
    case Array(items) => TraceItems(items, k + 1, k) + LeaveValue(v, k)
    case Object(ms) => TraceMembers(ms, k + 1, k) + LeaveValue(v, k)
    case _ => LeaveValue(v, k)
  }

  function TraceItems(items: Items, k: nat, parent: nat): seq<Event>
    decreases items
  {
    match items
    case NoItems => []
    case Item(v, rest) => TraceItems(rest, k + Size(v), parent) + ([Touch(parent)] + Trace(v, k))
  }

  function TraceMembers(ms: Members, k: nat, parent: nat): seq<Event>
    decreases ms
  {
    match ms
    case NoMembers => []
    case Member(_, v, rest) => TraceMembers(rest, k + Size(v), parent) + ([Touch(parent)] + Trace(v, k))
  }

  /** `b` is `a` with only lengths changed, none outside `lo..hi`. */
  ghost predicate Counted(a: seq<Node>, b: seq<Node>, lo: nat, hi: nat) {
    && |a| == |b| && ParentsBelow(b)
    && (forall i :: 0 <= i < |a| && !(lo <= i < hi) ==> b[i] == a[i])
  }

  lemma {:induction false} Append3(a: seq<Event>, b: seq<Event>, c: seq<Event>, d: seq<Event>)
    ensures a + (b + c + d) == (a + b + c) + d
  {
  }

  lemma {:induction false} Regroup(a: seq<Event>, b: seq<Event>, c: seq<Event>, d: seq<Event>)
    ensures a + (b + (c + d)) == (a + (b + c)) + d
  {
  }

  /** Walking a value returns to its parent, having released exactly the value. */
  lemma {:induction false} WalkValue(nodes: seq<Node>, k: nat, parent: int, v: Value) returns (after: seq<Node>)
    requires ParentsBelow(nodes) && Built(nodes, k, parent, v)
    ensures Counted(nodes, after, k, k + Size(v))
    ensures Walk(nodes, k) == Trace(v, k) + Walk(after, parent)
    decreases v, 1
  {
    hide Walk, ParentsBelow, Built, Trace, Counted, Size, LeaveValue, FilledNode;
    if v.Array? {
      after := WalkArray(nodes, k, parent, v);
    } else if v.Object? {
      after := WalkObject(nodes, k, parent, v);
    } else {
      after := nodes;
      NothingCounted(nodes, k, k + Size(v));
      ScalarBuilt(nodes, k, parent, v);
      LeaveScalar(nodes, k, v, parent);
    }
  }

  lemma {:induction false} ScalarBuilt(nodes: seq<Node>, k: nat, parent: int, v: Value)
    requires Built(nodes, k, parent, v) && !v.Array? && !v.Object?
    ensures k < |nodes| && nodes[k] == FilledNode(v, k, parent) && Trace(v, k) == LeaveValue(v, k)
  {
  }

  lemma {:induction false} WalkArray(nodes: seq<Node>, k: nat, parent: int, v: Value) returns (after: seq<Node>)
    requires ParentsBelow(nodes) && Built(nodes, k, parent, v) && v.Array?
    ensures Counted(nodes, after, k, k + Size(v))
    ensures Walk(nodes, k) == Trace(v, k) + Walk(after, parent)
    decreases v, 0
  {
    hide Walk, ParentsBelow, Built, BuiltItems, FilledNode, Counted, Returned, ItemsLeft, LeaveValue, Trace, Size;
    hide ItemsSize, TraceItems;
    ArrayStarts(nodes, k, parent, v);
    after := WalkItems(nodes, k + 1, k, v.items, 0);
    ContainerReturned(nodes, after, k, parent, v);
    LeaveContainer(after, k, v, parent);
    Regroup(TraceItems(v.items, k + 1, k), LeaveValue(v, k), [], Walk(after, parent));
    assert LeaveValue(v, k) + [] == LeaveValue(v, k);
    assert [] + Walk(after, parent) == Walk(after, parent);
  }

  lemma {:induction false} WalkObject(nodes: seq<Node>, k: nat, parent: int, v: Value) returns (after: seq<Node>)
    requires ParentsBelow(nodes) && Built(nodes, k, parent, v) && v.Object?
    ensures Counted(nodes, after, k, k + Size(v))
    ensures Walk(nodes, k) == Trace(v, k) + Walk(after, parent)
    decreases v, 0
  {
    hide Walk, ParentsBelow, Built, BuiltMembers, FilledNode, Counted, Returned, MembersLeft, LeaveValue, Trace, Size;
    hide MembersSize, TraceMembers;
    ObjectStarts(nodes, k, parent, v);
    after := WalkMembers(nodes, k + 1, k, v.members, 0, 0);
    ContainerReturned(nodes, after, k, parent, v);
    LeaveContainer(after, k, v, parent);
    Regroup(TraceMembers(v.members, k + 1, k), LeaveValue(v, k), [], Walk(after, parent));
    assert LeaveValue(v, k) + [] == LeaveValue(v, k);
    assert [] + Walk(after, parent) == Walk(after, parent);
  }

  lemma {:induction false} ArrayStarts(nodes: seq<Node>, k: nat, parent: int, v: Value)
    requires Built(nodes, k, parent, v) && v.Array?
    ensures BuiltItems(nodes, k + 1, k, v.items) && ItemsLeft(nodes, k + 1, k, v.items, 0)
    ensures k + Size(v) == k + 1 + ItemsSize(v.items) && Trace(v, k) == TraceItems(v.items, k + 1, k) + LeaveValue(v, k)
  {
    hide BuiltItems;
    assert nodes[k].block.Pointers? ==> nodes[k].block.pointers[0..] == nodes[k].block.pointers;
  }

  lemma {:induction false} ObjectStarts(nodes: seq<Node>, k: nat, parent: int, v: Value)
    requires Built(nodes, k, parent, v) && v.Object?
    ensures BuiltMembers(nodes, k + 1, k, v.members) && MembersLeft(nodes, k + 1, k, v.members, 0, 0)
    ensures k + Size(v) == k + 1 + MembersSize(v.members)
    ensures Trace(v, k) == TraceMembers(v.members, k + 1, k) + LeaveValue(v, k)
  {
    hide BuiltMembers;
    assert nodes[k].block.Entries? ==> nodes[k].block.entries[0..] == nodes[k].block.entries;
  }

  lemma {:induction false} NothingCounted(nodes: seq<Node>, lo: nat, hi: nat)
    requires ParentsBelow(nodes)
    ensures Counted(nodes, nodes, lo, hi)
  {
  }

  /** With its children released, a container is the only node left of its value. */
  lemma {:induction false} ContainerReturned(nodes: seq<Node>, after: seq<Node>, k: nat, parent: int, v: Value)
    requires Built(nodes, k, parent, v) && (v.Array? || v.Object?)
    requires Returned(nodes, after, k, 0, k + 1, k + Size(v))
    ensures Counted(nodes, after, k, k + Size(v))
    ensures ParentsBelow(after) && k < |after| && after[k] == FilledNode(v, k, parent).(length := 0)
  {
    hide ParentsBelow, BuiltItems, BuiltMembers, FilledNode, Size;
  }

  lemma {:induction false} LeaveScalar(nodes: seq<Node>, k: nat, v: Value, parent: int)
    requires ParentsBelow(nodes) && k < |nodes| && !v.Array? && !v.Object? && nodes[k] == FilledNode(v, k, parent)
    ensures Walk(nodes, k) == LeaveValue(v, k) + Walk(nodes, parent)
  {
  }

  /** A container whose children are all released. */
  lemma {:induction false} LeaveContainer(nodes: seq<Node>, k: nat, v: Value, parent: int)
    requires ParentsBelow(nodes) && k < |nodes| && (v.Array? || v.Object?)
    requires nodes[k] == FilledNode(v, k, parent).(length := 0)
    ensures Walk(nodes, k) == LeaveValue(v, k) + Walk(nodes, parent)
  {
  }

  /** The array at `p` has the children `items`, laid out from `k`, left after its first `c`. */
  ghost predicate ItemsLeft(nodes: seq<Node>, k: nat, p: nat, items: Items, c: nat) {
    && p < k && p < |nodes| && nodes[p].kind == KArray && nodes[p].length == c + ItemCount(items)
    && (items == NoItems ||
        (nodes[p].block.Pointers? && |nodes[p].block.pointers| == c + ItemCount(items) &&
         nodes[p].block.pointers[c..] == ItemPointers(items, k)))
  }

  lemma {:induction false} ItemsLeftNext(nodes: seq<Node>, k: nat, p: nat, v: Value, rest: Items, c: nat)
    requires ItemsLeft(nodes, k, p, Item(v, rest), c)
    ensures ItemsLeft(nodes, k + Size(v), p, rest, c + 1) && ChildAt(nodes[p], c) == k
  {
    hide Size;
    var pointers := nodes[p].block.pointers;
    assert pointers[c..][0] == k && pointers[c + 1..] == pointers[c..][1..];
  }

  /** `after` is `nodes` with the children at `lo..hi` released, and `c` children left at `p`. */
  ghost predicate Returned(nodes: seq<Node>, after: seq<Node>, p: nat, c: nat, lo: nat, hi: nat) {
    && p < |nodes| == |after| && ParentsBelow(after) && after[p] == nodes[p].(length := c)
    && (forall i :: 0 <= i < |nodes| && i != p && !(lo <= i < hi) ==> after[i] == nodes[i])
  }

  lemma {:induction false} ReturnedNext(nodes: seq<Node>, mid: seq<Node>, after: seq<Node>, p: nat, c: nat, lo: nat,
                                        at: nat, hi: nat)
    requires p < lo <= at <= hi && Returned(nodes, mid, p, c + 1, at, hi)
    requires Counted(mid[p := mid[p].(length := c)], after, lo, at)
    ensures Returned(nodes, after, p, c, lo, hi)
  {
  }

  /** The first child is still as it was when the others are released. */
  lemma {:induction false} ChildIntact(nodes: seq<Node>, mid: seq<Node>, p: nat, c: nat, k: nat, hi: nat, v: Value)
    requires p < k && Built(nodes, k, p, v) && Returned(nodes, mid, p, c + 1, k + Size(v), hi)
    ensures Built(mid[p := mid[p].(length := c)], k, p, v)
  {
    var entered := mid[p := mid[p].(length := c)];
    hide Built;
    assert k + Size(v) <= |nodes| by { BuiltBound(nodes, k, p, v); }
    forall i | k <= i < k + Size(v) ensures entered[i] == nodes[i] {
    }
    BuiltFrame(nodes, entered, k, p, v);
  }

  /** Walking the items of the array at `p`, the first of them child `c`, until `c` children are left. */
  lemma {:induction false} WalkItems(nodes: seq<Node>, k: nat, p: nat, items: Items, c: nat) returns (after: seq<Node>)
    requires ParentsBelow(nodes) && ItemsLeft(nodes, k, p, items, c) && BuiltItems(nodes, k, p, items)
    ensures Returned(nodes, after, p, c, k, k + ItemsSize(items))
    ensures Walk(nodes, p) == TraceItems(items, k, p) + Walk(after, p)
    decreases items
  {
    hide Walk, ParentsBelow, Built, Trace, Size;
    after := nodes;
    match items
    case NoItems =>
    case Item(v, rest) =>
      ItemsLeftNext(nodes, k, p, v, rest, c);
      var mid := WalkItems(nodes, k + Size(v), p, rest, c + 1);
      WalkStep(mid, p);
      ChildIntact(nodes, mid, p, c, k, k + ItemsSize(items), v);
      var entered := mid[p := mid[p].(length := c)];
      after := WalkValue(entered, k, p, v);
      ReturnedNext(nodes, mid, after, p, c, k, k + Size(v), k + ItemsSize(items));
      Regroup(TraceItems(rest, k + Size(v), p), [Touch(p)], Trace(v, k), Walk(after, p));
  }

  /** The object at `p` has the members `ms`, laid out from `k`, left after its first `c`. */
  ghost predicate MembersLeft(nodes: seq<Node>, k: nat, p: nat, ms: Members, c: nat, offset: nat) {
    && p < k && p < |nodes| && nodes[p].kind == KObject && nodes[p].length == c + MemberCount(ms)
    && (ms == NoMembers ||
        (nodes[p].block.Entries? && |nodes[p].block.entries| == c + MemberCount(ms) &&
         nodes[p].block.entries[c..] == MemberEntries(ms, k, offset)))
  }

  lemma {:induction false} MembersLeftNext(nodes: seq<Node>, k: nat, p: nat, ms: Members, c: nat, offset: nat)
    requires MembersLeft(nodes, k, p, ms, c, offset) && ms.Member?
    ensures MembersLeft(nodes, k + Size(ms.value), p, ms.rest, c + 1, offset + |ms.name| + 1)
    ensures ChildAt(nodes[p], c) == k
  {
    hide Size;
    var entries := nodes[p].block.entries;
    assert entries[c..][0].value == k && entries[c + 1..] == entries[c..][1..];
  }

  lemma {:induction false} WalkMembers(nodes: seq<Node>, k: nat, p: nat, ms: Members, c: nat, offset: nat)
    returns (after: seq<Node>)
    requires ParentsBelow(nodes) && MembersLeft(nodes, k, p, ms, c, offset) && BuiltMembers(nodes, k, p, ms)
    ensures Returned(nodes, after, p, c, k, k + MembersSize(ms))
    ensures Walk(nodes, p) == TraceMembers(ms, k, p) + Walk(after, p)
    decreases ms
  {
    hide Walk, ParentsBelow, Built, Trace, Size;
    after := nodes;
    match ms
    case NoMembers =>
    case Member(name, v, rest) =>
      MembersLeftNext(nodes, k, p, ms, c, offset);
      var mid := WalkMembers(nodes, k + Size(v), p, rest, c + 1, offset + |name| + 1);
      WalkStep(mid, p);
      ChildIntact(nodes, mid, p, c, k, k + MembersSize(ms), v);
      var entered := mid[p := mid[p].(length := c)];
      after := WalkValue(entered, k, p, v);
      ReturnedNext(nodes, mid, after, p, c, k, k + Size(v), k + MembersSize(ms));
      Regroup(TraceMembers(rest, k + Size(v), p), [Touch(p)], Trace(v, k), Walk(after, p));
  }

  // ----- every allocation is released once, and nothing is read after its release -----

  /** How often `a` is released. */
  function Releases(events: seq<Event>, a: Allocation): nat {
    multiset(events)[Free(a)]
  }

  /** Does `a` belong to a node of `lo..hi`? */
  predicate Owned(nodes: seq<Node>, lo: nat, hi: nat, a: Allocation)
    requires hi <= |nodes|
  {
    lo <= a.i < hi && (a.NodeOf? || nodes[a.i].block != NoBlock)
  }

  function Once(b: bool): nat {
    if b then 1 else 0
  }

  lemma {:induction false} OwnedSplit(nodes: seq<Node>, lo: nat, mid: nat, hi: nat, a: Allocation)
    requires lo <= mid <= hi <= |nodes|
    ensures Once(Owned(nodes, lo, hi, a)) == Once(Owned(nodes, lo, mid, a)) + Once(Owned(nodes, mid, hi, a))
  {
  }

  lemma {:induction false} ReleasesAppend(a: seq<Event>, b: seq<Event>, x: Allocation)
    ensures Releases(a + b, x) == Releases(a, x) + Releases(b, x)
  {
  }

  lemma {:induction false} LeaveReleases(nodes: seq<Node>, k: nat, parent: int, v: Value, a: Allocation)
    requires k < |nodes| && nodes[k] == FilledNode(v, k, parent)
    ensures Releases(LeaveValue(v, k), a) == Once(Owned(nodes, k, k + 1, a))
  {
    assert LeaveValue(v, k) == if HasBlock(v) then [Touch(k), Free(BlockOf(k)), Free(NodeOf(k))]
           else [Touch(k), Free(NodeOf(k))];
  }

  lemma {:induction false} NothingReleased(nodes: seq<Node>, k: nat, a: Allocation)
    requires k <= |nodes|
    ensures Releases([], a) == Once(Owned(nodes, k, k, a))
  {
  }

  lemma {:induction false} NoTouchReleases(p: int, a: Allocation)
    ensures Releases([Touch(p)], a) == 0
  {
  }

  lemma {:induction false} TraceReleases(nodes: seq<Node>, k: nat, parent: int, v: Value, a: Allocation)
    requires Built(nodes, k, parent, v)
    ensures Releases(Trace(v, k), a) == Once(Owned(nodes, k, k + Size(v), a))
    decreases v
  {
    hide Releases, Owned, Once, LeaveValue, FilledNode, BuiltItems, BuiltMembers;
    LeaveReleases(nodes, k, parent, v, a);
    OwnedSplit(nodes, k, k + 1, k + Size(v), a);
    match v
    case Array(items) =>
      TraceItemsReleases(nodes, k + 1, k, items, a);
      ReleasesAppend(TraceItems(items, k + 1, k), LeaveValue(v, k), a);
    case Object(ms) =>
      TraceMembersReleases(nodes, k + 1, k, ms, a);
      ReleasesAppend(TraceMembers(ms, k + 1, k), LeaveValue(v, k), a);
    case _ =>
  }

  lemma {:induction false} TraceItemsReleases(nodes: seq<Node>, k: nat, p: nat, items: Items, a: Allocation)
    requires BuiltItems(nodes, k, p, items)
    ensures Releases(TraceItems(items, k, p), a) == Once(Owned(nodes, k, k + ItemsSize(items), a))
    decreases items
  {
    hide Releases, Owned, Once, Built, Trace, Size;
    match items
    case NoItems => NothingReleased(nodes, k, a);
    case Item(v, rest) =>
      OwnedSplit(nodes, k, k + Size(v), k + ItemsSize(items), a);
      NoTouchReleases(p, a);
      TraceReleases(nodes, k, p, v, a);
      TraceItemsReleases(nodes, k + Size(v), p, rest, a);
      ReleasesAppend([Touch(p)], Trace(v, k), a);
      ReleasesAppend(TraceItems(rest, k + Size(v), p), [Touch(p)] + Trace(v, k), a);
  }

  lemma {:induction false} TraceMembersReleases(nodes: seq<Node>, k: nat, p: nat, ms: Members, a: Allocation)
    requires BuiltMembers(nodes, k, p, ms)
    ensures Releases(TraceMembers(ms, k, p), a) == Once(Owned(nodes, k, k + MembersSize(ms), a))
    decreases ms
  {
    hide Releases, Owned, Once, Built, Trace, Size;
    match ms
    case NoMembers => NothingReleased(nodes, k, a);
    case Member(_, v, rest) =>
      OwnedSplit(nodes, k, k + Size(v), k + MembersSize(ms), a);
      NoTouchReleases(p, a);
      TraceReleases(nodes, k, p, v, a);
      TraceMembersReleases(nodes, k + Size(v), p, rest, a);
      ReleasesAppend([Touch(p)], Trace(v, k), a);
      ReleasesAppend(TraceMembers(rest, k + Size(v), p), [Touch(p)] + Trace(v, k), a);
  }

  /** Nothing of a node is read once any part of it is released. */
  ghost predicate Safe(events: seq<Event>) {
    forall x, y :: 0 <= x < y < |events| && events[x].Free? ==> events[y] != Touch(events[x].a.i)
  }

  /** The events release nodes of `lo..hi` only, and read these and `p`. */
  ghost predicate Within(events: seq<Event>, lo: int, hi: int, p: int) {
    forall e :: e in events ==>
      match e
      case Touch(i) => lo <= i < hi || i == p
      case Free(a) => lo <= a.i < hi
  }

  lemma {:induction false} SafeAppend(a: seq<Event>, b: seq<Event>, lo: int, hi: int, lo': int, hi': int, p: int)
    requires Safe(a) && Safe(b) && Within(a, lo, hi, p) && Within(b, lo', hi', p)
    requires (hi <= lo' || hi' <= lo) && !(lo <= p < hi)
    ensures Safe(a + b)
  {
    var s := a + b;
    forall x, y | 0 <= x < y < |s| && s[x].Free? ensures s[y] != Touch(s[x].a.i) {
      if x < |a| && y >= |a| {
        assert s[x] in a && s[y] in b;
      }
    }
  }

  lemma {:induction false} TraceSafe(v: Value, k: nat)
    ensures Safe(Trace(v, k)) && Within(Trace(v, k), k, k + Size(v), k)
    decreases v
  {
    match v
    case Array(items) =>
      TraceItemsSafe(items, k + 1, k);
      SafeAppend(TraceItems(items, k + 1, k), LeaveValue(v, k), k + 1, k + Size(v), k, k + 1, k);
    case Object(ms) =>
      TraceMembersSafe(ms, k + 1, k);
      SafeAppend(TraceMembers(ms, k + 1, k), LeaveValue(v, k), k + 1, k + Size(v), k, k + 1, k);
    case _ =>
  }

  lemma {:induction false} TraceItemsSafe(items: Items, k: nat, p: nat)
    requires p < k
    ensures Safe(TraceItems(items, k, p)) && Within(TraceItems(items, k, p), k, k + ItemsSize(items), p)
    decreases items
  {
    match items
    case NoItems =>
    case Item(v, rest) =>
      TraceSafe(v, k);
      TraceItemsSafe(rest, k + Size(v), p);
      SafeAppend([Touch(p)], Trace(v, k), k, k, k, k + Size(v), p);
      SafeAppend(TraceItems(rest, k + Size(v), p), [Touch(p)] + Trace(v, k), k + Size(v), k + ItemsSize(items), k,
                 k + Size(v), p);
  }

  lemma {:induction false} TraceMembersSafe(ms: Members, k: nat, p: nat)
    requires p < k
    ensures Safe(TraceMembers(ms, k, p)) && Within(TraceMembers(ms, k, p), k, k + MembersSize(ms), p)
    decreases ms
  {
    match ms
    case NoMembers =>
    case Member(_, v, rest) =>
      TraceSafe(v, k);
      TraceMembersSafe(rest, k + Size(v), p);
      SafeAppend([Touch(p)], Trace(v, k), k, k, k, k + Size(v), p);
      SafeAppend(TraceMembers(rest, k + Size(v), p), [Touch(p)] + Trace(v, k), k + Size(v), k + MembersSize(ms), k,
                 k + Size(v), p);
  }

  /** The parent of every node of a value lies below it. */
  lemma {:induction false} BuiltParents(nodes: seq<Node>, k: nat, parent: int, v: Value)
    requires Built(nodes, k, parent, v) && parent < k
    ensures forall i :: k <= i < k + Size(v) ==> nodes[i].parent < i
    decreases v
  {
    hide BuiltItems, BuiltMembers;
    match v
    case Array(items) => ItemParents(nodes, k + 1, k, items);
    case Object(ms) => MemberParents(nodes, k + 1, k, ms);
    case _ =>
  }

  lemma {:induction false} ItemParents(nodes: seq<Node>, k: nat, p: nat, items: Items)
    requires BuiltItems(nodes, k, p, items) && p < k
    ensures k + ItemsSize(items) <= |nodes| && forall i :: k <= i < k + ItemsSize(items) ==> nodes[i].parent < i
    decreases items
  {
    hide Built, Size;
    match items
    case NoItems =>
    case Item(v, rest) =>
      BuiltParents(nodes, k, p, v);
      ItemParents(nodes, k + Size(v), p, rest);
  }

  lemma {:induction false} MemberParents(nodes: seq<Node>, k: nat, p: nat, ms: Members)
    requires BuiltMembers(nodes, k, p, ms) && p < k
    ensures k + MembersSize(ms) <= |nodes| && forall i :: k <= i < k + MembersSize(ms) ==> nodes[i].parent < i
    decreases ms
  {
    hide Built, Size;
    match ms
    case NoMembers =>
    case Member(_, v, rest) =>
      BuiltParents(nodes, k, p, v);
      MemberParents(nodes, k + Size(v), p, rest);
  }

  lemma {:induction false} TreeParents(nodes: seq<Node>, v: Value)
    requires Built(nodes, 0, -1, v) && |nodes| == Size(v)
    ensures ParentsBelow(nodes)
  {
    hide Built, Size;
    BuiltParents(nodes, 0, -1, v);
  }

  /** On a finished tree the walk releases every node and block exactly once, and reads nothing released. */
  lemma {:induction false} WalkReleasesAll(nodes: seq<Node>, v: Value)
    requires Built(nodes, 0, -1, v) && |nodes| == Size(v)
    ensures ParentsBelow(nodes)
    ensures forall a :: Releases(Walk(nodes, 0), a) == Once(Owned(nodes, 0, |nodes|, a))
    ensures Safe(Walk(nodes, 0))
  {
    hide Releases, Owned, Walk, Trace, Safe, Within, Built, Once;
    TreeParents(nodes, v);
    var after := WalkValue(nodes, 0, -1, v);
    WalkEnds(after);
    assert Walk(nodes, 0) == Trace(v, 0);
    forall a ensures Releases(Walk(nodes, 0), a) == Once(Owned(nodes, 0, |nodes|, a)) {
      TraceReleases(nodes, 0, -1, v, a);
    }
    TraceSafe(v, 0);
  }

  // ----- the walk as the program runs it -----

  lemma {:induction false} WalkEnds(nodes: seq<Node>)
    requires ParentsBelow(nodes)
    ensures forall value :: !(0 <= value < |nodes|) ==> Walk(nodes, value) == []
  {
  }

  class Heap {
    var nodes: seq<Node>
    var events: seq<Event>

    constructor (nodes: seq<Node>)
      ensures this.nodes == nodes && events == []
    {
      this.nodes, events := nodes, [];
    }

    /** Releases the tree at `root`, counting lengths down in place. */
    method FreeValue(root: int)
      requires ParentsBelow(nodes) && 0 <= root < |nodes| && events == []
      modifies this
      ensures events == Walk(old(nodes)[root := old(nodes)[root].(parent := -1)], root)
    {
      hide Walk, TotalLength, ChildAt;
      nodes := nodes[root := nodes[root].(parent := -1)];
      ghost var all := Walk(nodes, root);
      var value := root;
      while 0 <= value < |nodes|
        invariant ParentsBelow(nodes) && all == events + Walk(nodes, value)
        decreases TotalLength(nodes), value
      {
        hide ParentsBelow;
        var node := nodes[value];
        WalkStep(nodes, value);
        if IsContainer(node.kind) && node.length > 0 {
          TotalLengthUpdate(nodes, value, node.(length := node.length - 1));
          events := events + [Touch(value)];
          nodes := nodes[value := node.(length := node.length - 1)];
          value := ChildAt(node, node.length - 1);
        } else {
          ghost var rest := Walk(nodes, node.parent);
          Append3(events, [Touch(value)], Leave(node, value), rest);
          ghost var before := events + [Touch(value)] + Leave(node, value);
          events := events + [Touch(value)];
          if node.block != NoBlock {
            events := events + [Free(BlockOf(value))];
          }
          events := events + [Free(NodeOf(value))];
          assert events == before;
          value := node.parent;
        }
      }
      WalkEnds(nodes);
    }

    /** Releasing the tree of a value: every allocation once, none read after its release. */
    method FreeTree(ghost v: Value)
      requires Built(nodes, 0, -1, v) && |nodes| == Size(v) && events == []
      modifies this
      ensures forall a :: Releases(events, a) == Once(Owned(old(nodes), 0, |old(nodes)|, a))
      ensures Safe(events)
    {
      WalkReleasesAll(nodes, v);
      assert nodes[0 := nodes[0].(parent := -1)] == nodes;
      FreeValue(0);
    }
  }

  /** A text is parsed and its tree released: all that was allocated for it, each once. */
  method ParseAndFree(t: string) returns (status: Status, events: seq<Event>, ghost tree: seq<Node>)
    ensures status == Accepted <==> Text(t).Some? && Fits(Text(t).value)
    ensures status == Accepted ==>
              && |tree| == Size(Text(t).value) && Built(tree, 0, -1, Text(t).value)
              && (forall a :: Releases(events, a) == Once(Owned(tree, 0, |tree|, a))) && Safe(events)
  {
    hide Built, Text, Fits, Size, Releases, Once, Owned, Safe;
    var parser := new Parser();
    var freed;
    status, freed := parser.Parse(t);
    events, tree := [], parser.nodes;
    if status == Accepted {
      var heap := new Heap(parser.nodes);
      heap.FreeTree(Text(t).value);
      events := heap.events;
    }
  }
}
