/**
 How a value lies in the arena: its node first, then its children in order, each followed by its
 own children.  `Sized` is the layout the first pass leaves, with counts and no blocks; `Built` is
 the layout the second pass leaves, with every block filled.
 */
module JsonLayout {
  import opened JsonText
  import opened JsonMachine

  /** The number of nodes of a value. */
  function Size(v: Value): (n: nat)
    ensures n >= 1
  {
    match v
    case Array(items) => 1 + ItemsSize(items)
    case Object(members) => 1 + MembersSize(members)
    case _ => 1
  }

  function ItemsSize(items: Items): nat {
    match items
    case NoItems => 0
    case Item(v, rest) => Size(v) + ItemsSize(rest)
  }

  function MembersSize(members: Members): nat {
    match members
    case NoMembers => 0
    case Member(_, v, rest) => Size(v) + MembersSize(rest)
  }

  /** The values whose objects all have an entry block that fits. */
  predicate Fits(v: Value) {
    match v
    case Array(items) => ItemsFit(items)
    case Object(ms) => MemberCount(ms) <= ENTRY_LIMIT && MembersFit(ms)
    case _ => true
  }

  predicate ItemsFit(items: Items) {
    match items
    case NoItems => true
    case Item(v, rest) => Fits(v) && ItemsFit(rest)
  }

  predicate MembersFit(ms: Members) {
    match ms
    case NoMembers => true
    case Member(_, v, rest) => Fits(v) && MembersFit(rest)
  }

  function KindOf(v: Value): Kind {
    match v
    case Null => KNull
    case Boolean(_) => KBoolean
    case Numeric(Integer(_)) => KInteger
    case Numeric(Double(_)) => KDouble
    case String(_) => KString
    case Array(_) => KArray
    case Object(_) => KObject
  }

  // ----- the first pass: counts -----

  /** The node of `v` once the first pass has counted it. */
  function CountedNode(v: Value, parent: int): Node {
    var node := NewNode(KindOf(v), parent);
    match v
    case Boolean(b) => node.(truth := b)
    case Numeric(n) => node.(number := n)
    case String(s) => node.(length := |s|)
    case Array(items) => node.(length := ItemCount(items))
    case Object(ms) => node.(length := MemberCount(ms), nameBytes := NameBytes(ms))
    case _ => node
  }

  ghost predicate Sized(nodes: seq<Node>, k: nat, parent: int, v: Value)
    decreases v
  {
    && k + Size(v) <= |nodes|
    && nodes[k] == CountedNode(v, parent)
    && match v
       case Array(items) => SizedItems(nodes, k + 1, k, items)
       case Object(ms) => SizedMembers(nodes, k + 1, k, ms)
       case _ => true
  }

  ghost predicate SizedItems(nodes: seq<Node>, k: nat, parent: int, items: Items)
    decreases items
  {
    k + ItemsSize(items) <= |nodes| && match items
    case NoItems => true
    case Item(v, rest) => Sized(nodes, k, parent, v) && SizedItems(nodes, k + Size(v), parent, rest)
  }

  ghost predicate SizedMembers(nodes: seq<Node>, k: nat, parent: int, members: Members)
    decreases members
  {
    k + MembersSize(members) <= |nodes| && match members
    case NoMembers => true
    case Member(_, v, rest) => Sized(nodes, k, parent, v) && SizedMembers(nodes, k + Size(v), parent, rest)
  }

  lemma {:induction false} SizedItemsCons(nodes: seq<Node>, k: nat, parent: int, v: Value, rest: Items)
    ensures SizedItems(nodes, k, parent, Item(v, rest)) <==>
            Sized(nodes, k, parent, v) && SizedItems(nodes, k + Size(v), parent, rest)
    ensures ItemsSize(Item(v, rest)) == Size(v) + ItemsSize(rest) && ItemCount(Item(v, rest)) == 1 + ItemCount(rest)
  {
    hide Sized, Size, ItemsSize;
    ItemsSizeCons(v, rest);
    SizedItemsFit(nodes, k + Size(v), parent, rest);
  }

  lemma {:induction false} ItemsSizeCons(v: Value, rest: Items)
    ensures ItemsSize(Item(v, rest)) == Size(v) + ItemsSize(rest)
  {
  }

  lemma {:induction false} MembersSizeCons(name: string, v: Value, rest: Members)
    ensures MembersSize(Member(name, v, rest)) == Size(v) + MembersSize(rest)
  {
  }

  lemma {:induction false} SizedItemsFit(nodes: seq<Node>, k: nat, parent: int, items: Items)
    ensures SizedItems(nodes, k, parent, items) ==> k + ItemsSize(items) <= |nodes|
  {
    hide Sized, Size, ItemsSize;
  }

  lemma {:induction false} SizedMembersCons(nodes: seq<Node>, k: nat, parent: int, name: string, v: Value,
                                            rest: Members)
    ensures var ms := Member(name, v, rest);
            && (SizedMembers(nodes, k, parent, ms) <==>
                Sized(nodes, k, parent, v) && SizedMembers(nodes, k + Size(v), parent, rest))
            && MembersSize(ms) == Size(v) + MembersSize(rest) && MemberCount(ms) == 1 + MemberCount(rest)
            && NameBytes(ms) == |name| + 1 + NameBytes(rest)
  {
    hide Sized, Size;
    assert SizedMembers(nodes, k + Size(v), parent, rest) ==> k + Size(v) + MembersSize(rest) <= |nodes|;
  }

  /** The layouts stay inside the arena. */
  lemma {:induction false} SizedBounds(nodes: seq<Node>, k: nat, parent: int)
    ensures forall items: Items :: SizedItems(nodes, k, parent, items) ==> k + ItemsSize(items) <= |nodes|
    ensures forall ms: Members :: SizedMembers(nodes, k, parent, ms) ==> k + MembersSize(ms) <= |nodes|
  {
  }

  /** The layouts depend only on the nodes they cover. */
  lemma {:induction false} SizedFrame(a: seq<Node>, b: seq<Node>, k: nat, parent: int, v: Value)
    requires Sized(a, k, parent, v) && k + Size(v) <= |b|
    requires forall i :: k <= i < k + Size(v) ==> a[i] == b[i]
    ensures Sized(b, k, parent, v)
    decreases v
  {
    hide SizedItems, SizedMembers, ItemsSize, MembersSize;
    match v
    case Array(items) => SizedItemsFrame(a, b, k + 1, k, items);
    case Object(ms) => SizedMembersFrame(a, b, k + 1, k, ms);
    case _ =>
  }

  lemma {:induction false} SizedItemsFrame(a: seq<Node>, b: seq<Node>, k: nat, parent: int, items: Items)
    requires SizedItems(a, k, parent, items) && k + ItemsSize(items) <= |b|
    requires forall i :: k <= i < k + ItemsSize(items) ==> a[i] == b[i]
    ensures SizedItems(b, k, parent, items)
    decreases items
  {
    hide Sized, Size;
    match items
    case NoItems =>
    case Item(v, rest) =>
      SizedFrame(a, b, k, parent, v);
      SizedItemsFrame(a, b, k + Size(v), parent, rest);
  }

  lemma {:induction false} SizedMembersFrame(a: seq<Node>, b: seq<Node>, k: nat, parent: int, ms: Members)
    requires SizedMembers(a, k, parent, ms) && k + MembersSize(ms) <= |b|
    requires forall i :: k <= i < k + MembersSize(ms) ==> a[i] == b[i]
    ensures SizedMembers(b, k, parent, ms)
    decreases ms
  {
    hide Sized, Size;
    match ms
    case NoMembers =>
    case Member(_, v, rest) =>
      SizedFrame(a, b, k, parent, v);
      SizedMembersFrame(a, b, k + Size(v), parent, rest);
  }

  // ----- the second pass: filled blocks -----

  /** The bytes of a string followed by its NUL, as stored cells. */
  function Terminated(s: string): seq<Cell> {
    seq(|s|, i requires 0 <= i < |s| => Byte(s[i])) + [Byte('\0')]
  }

  /** The whole name region of an object: every name with its NUL, in order. */
  function NameRegion(ms: Members): (cells: seq<Cell>)
    ensures |cells| == NameBytes(ms)
  {
    match ms
    case NoMembers => []
    case Member(name, _, rest) => Terminated(name) + NameRegion(rest)
  }

  /** The child pointers of items laid out from `k`. */
  function ItemPointers(items: Items, k: nat): (pointers: seq<int>)
    ensures |pointers| == ItemCount(items)
  {
    match items
    case NoItems => []
    case Item(v, rest) => [k] + ItemPointers(rest, k + Size(v))
  }

  /** The entries of members laid out from `k`, whose names start at `offset` of the name region. */
  function MemberEntries(ms: Members, k: nat, offset: nat): (entries: seq<Entry>)
    ensures |entries| == MemberCount(ms)
  {
    match ms
    case NoMembers => []
    case Member(name, v, rest) => [Entry(offset, |name|, k)] + MemberEntries(rest, k + Size(v), offset + |name| + 1)
  }

  /** The node of `v` at `k` once the second pass has filled it: no cell or entry is left raw. */
  function FilledNode(v: Value, k: nat, parent: int): Node {
    var node := CountedNode(v, parent);
    match v
    case String(s) => node.(block := Chars(Terminated(s)))
    case Array(items) =>
      node.(block := if items == NoItems then NoBlock else Pointers(ItemPointers(items, k + 1)))
    case Object(ms) =>
      node.(objectMem := NameBytes(ms),
            block := if ms == NoMembers then NoBlock else Entries(MemberEntries(ms, k + 1, 0), NameRegion(ms)))
    case _ => node
  }

  ghost predicate Built(nodes: seq<Node>, k: nat, parent: int, v: Value)
    decreases v
  {
    && k + Size(v) <= |nodes|
    && nodes[k] == FilledNode(v, k, parent)
    && match v
       case Array(items) => BuiltItems(nodes, k + 1, k, items)
       case Object(ms) => BuiltMembers(nodes, k + 1, k, ms)
       case _ => true
  }

  ghost predicate BuiltItems(nodes: seq<Node>, k: nat, parent: int, items: Items)
    decreases items
  {
    k + ItemsSize(items) <= |nodes| && match items
    case NoItems => true
    case Item(v, rest) => Built(nodes, k, parent, v) && BuiltItems(nodes, k + Size(v), parent, rest)
  }

  ghost predicate BuiltMembers(nodes: seq<Node>, k: nat, parent: int, members: Members)
    decreases members
  {
    k + MembersSize(members) <= |nodes| && match members
    case NoMembers => true
    case Member(_, v, rest) => Built(nodes, k, parent, v) && BuiltMembers(nodes, k + Size(v), parent, rest)
  }

  lemma {:induction false} BuiltBound(nodes: seq<Node>, k: nat, parent: int, v: Value)
    requires Built(nodes, k, parent, v)
    ensures k + Size(v) <= |nodes|
  {
  }

  lemma {:induction false} BuiltFrame(a: seq<Node>, b: seq<Node>, k: nat, parent: int, v: Value)
    requires Built(a, k, parent, v) && k + Size(v) <= |b|
    requires forall i :: k <= i < k + Size(v) ==> a[i] == b[i]
    ensures Built(b, k, parent, v)
    decreases v
  {
    hide BuiltItems, BuiltMembers, ItemsSize, MembersSize, FilledNode;
    match v
    case Array(items) => BuiltItemsFrame(a, b, k + 1, k, items);
    case Object(ms) => BuiltMembersFrame(a, b, k + 1, k, ms);
    case _ =>
  }

  lemma {:induction false} BuiltItemsFrame(a: seq<Node>, b: seq<Node>, k: nat, parent: int, items: Items)
    requires BuiltItems(a, k, parent, items) && k + ItemsSize(items) <= |b|
    requires forall i :: k <= i < k + ItemsSize(items) ==> a[i] == b[i]
    ensures BuiltItems(b, k, parent, items)
    decreases items
  {
    hide Built, Size;
    match items
    case NoItems =>
    case Item(v, rest) =>
      BuiltFrame(a, b, k, parent, v);
      BuiltItemsFrame(a, b, k + Size(v), parent, rest);
  }

  lemma {:induction false} BuiltMembersFrame(a: seq<Node>, b: seq<Node>, k: nat, parent: int, ms: Members)
    requires BuiltMembers(a, k, parent, ms) && k + MembersSize(ms) <= |b|
    requires forall i :: k <= i < k + MembersSize(ms) ==> a[i] == b[i]
    ensures BuiltMembers(b, k, parent, ms)
    decreases ms
  {
    hide Built, Size;
    match ms
    case NoMembers =>
    case Member(_, v, rest) =>
      BuiltFrame(a, b, k, parent, v);
      BuiltMembersFrame(a, b, k + Size(v), parent, rest);
  }

  // ----- the layout determines the value -----

  lemma {:induction false} StoredOnce(a: string, b: string, more: seq<Cell>, others: seq<Cell>)
    requires |a| == |b| && Terminated(a) + more == Terminated(b) + others
    ensures a == b && more == others
  {
    var left, right := Terminated(a) + more, Terminated(b) + others;
    assert forall i :: 0 <= i < |a| ==> left[i] == Byte(a[i]) && right[i] == Byte(b[i]);
    assert left[|a| + 1..] == more && right[|b| + 1..] == others;
  }

  lemma {:induction false} FilledTells(v: Value, w: Value, k: nat, parent: int)
    requires FilledNode(v, k, parent) == FilledNode(w, k, parent)
    ensures KindOf(v) == KindOf(w)
    ensures !v.Array? && !v.Object? ==> v == w
    ensures v.Array? ==> w.Array? && ItemCount(v.items) == ItemCount(w.items)
    ensures v.Object? ==>
      && w.Object? && MemberCount(v.members) == MemberCount(w.members)
      && MemberEntries(v.members, k + 1, 0) == MemberEntries(w.members, k + 1, 0)
      && NameRegion(v.members) == NameRegion(w.members)
  {
    if v.String? {
      assert Terminated(v.s) + [] == Terminated(v.s) && Terminated(w.s) + [] == Terminated(w.s);
      StoredOnce(v.s, w.s, [], []);
    }
  }

  /** Two values built at the same place are the same: the arena holds exactly one value. */
  lemma {:induction false} BuiltUnique(nodes: seq<Node>, k: nat, parent: int, v: Value, w: Value)
    requires Built(nodes, k, parent, v) && Built(nodes, k, parent, w)
    ensures v == w
    decreases v
  {
    hide FilledNode;
    FilledTells(v, w, k, parent);
    match v
    case Array(items) => BuiltItemsUnique(nodes, k + 1, k, items, w.items);
    case Object(ms) => BuiltMembersUnique(nodes, k + 1, k, ms, w.members, 0);
    case _ =>
  }

  lemma {:induction false} BuiltItemsUnique(nodes: seq<Node>, k: nat, parent: int, a: Items, b: Items)
    requires BuiltItems(nodes, k, parent, a) && BuiltItems(nodes, k, parent, b) && ItemCount(a) == ItemCount(b)
    ensures a == b
    decreases a
  {
    hide Built, Size, ItemsSize;
    match a
    case NoItems =>
    case Item(v, rest) =>
      BuiltUnique(nodes, k, parent, v, b.head);
      BuiltItemsUnique(nodes, k + Size(v), parent, rest, b.tail);
  }

  lemma {:induction false} BuiltMembersUnique(nodes: seq<Node>, k: nat, parent: int, a: Members, b: Members,
                                              offset: nat)
    requires BuiltMembers(nodes, k, parent, a) && BuiltMembers(nodes, k, parent, b)
    requires MemberCount(a) == MemberCount(b) && MemberEntries(a, k, offset) == MemberEntries(b, k, offset)
    requires NameRegion(a) == NameRegion(b)
    ensures a == b
    decreases a
  {
    hide Built, Size, MembersSize, Terminated;
    match a
    case NoMembers =>
    case Member(name, v, rest) =>
      BuiltUnique(nodes, k, parent, v, b.value);
      assert MemberEntries(a, k, offset)[0] == MemberEntries(b, k, offset)[0];
      StoredOnce(name, b.name, NameRegion(rest), NameRegion(b.rest));
      assert MemberEntries(a, k, offset)[1..] == MemberEntries(b, k, offset)[1..];
      BuiltMembersUnique(nodes, k + Size(v), parent, rest, b.rest, offset + |name| + 1);
  }
}
