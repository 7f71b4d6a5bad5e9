/**
 What the two passes owe each other: they stay in step from value to value, and the counts of the
 first are exactly what the second fills.
 */
module JsonSizing {
  import opened JsonText
  import opened JsonGrammar
  import opened JsonMachine
  import opened JsonTransitions
  import opened JsonLayout
  import First = JsonFirstPass
  import Second = JsonSecondPass

  // ----- exact sizing -----

  predicate Written(cells: seq<Cell>) {
    forall c :: 0 <= c < |cells| ==> cells[c] != Raw
  }

  /** Names lie one after the other, each followed by its NUL, from `offset` up to `end`. */
  predicate NamesInOrder(entries: seq<Entry>, names: seq<Cell>, offset: int, end: int) {
    if entries == [] then offset == end
    else
      && entries[0].name == offset && 0 <= offset && 0 <= entries[0].nameLength
      && offset + entries[0].nameLength < |names|
      && names[offset + entries[0].nameLength] == Byte('\0')
      && NamesInOrder(entries[1..], names, offset + entries[0].nameLength + 1, end)
  }

  /** Every cell of the block of a node is written, and the block has no cell more than its counts. */
  predicate ExactlyFull(node: Node) {
    match node.block
    case NoBlock => node.kind != KString && (IsContainer(node.kind) ==> node.length == 0)
    case Chars(cells) => |cells| == node.length + 1 && Written(cells) && cells[node.length] == Byte('\0')
    case Pointers(pointers) => |pointers| == node.length && forall c :: 0 <= c < |pointers| ==> pointers[c] >= 0
    case Entries(entries, names) =>
      && |entries| == node.length && |names| == node.nameBytes == node.objectMem && Written(names)
      && (forall c :: 0 <= c < |entries| ==> entries[c].value >= 0)
      && NamesInOrder(entries, names, 0, |names|)
  }

  lemma {:induction false} PointersSet(items: Items, k: nat)
    ensures forall c :: 0 <= c < |ItemPointers(items, k)| ==> ItemPointers(items, k)[c] >= 0
    decreases items
  {
    match items
    case NoItems =>
    case Item(v, rest) => PointersSet(rest, k + Size(v));
  }

  lemma {:induction false} EntriesSet(ms: Members, k: nat, offset: nat)
    ensures forall c :: 0 <= c < |MemberEntries(ms, k, offset)| ==> MemberEntries(ms, k, offset)[c].value >= 0
    decreases ms
  {
    match ms
    case NoMembers =>
    case Member(name, v, rest) => EntriesSet(rest, k + Size(v), offset + |name| + 1);
  }

  lemma {:induction false} RegionWritten(ms: Members)
    ensures Written(NameRegion(ms))
    decreases ms
  {
    match ms
    case NoMembers =>
    case Member(_, _, rest) => RegionWritten(rest);
  }

  lemma {:induction false} RegionOrdered(ms: Members, k: nat, before: seq<Cell>)
    ensures NamesInOrder(MemberEntries(ms, k, |before|), before + NameRegion(ms), |before|, |before| + NameBytes(ms))
    decreases ms
  {
    match ms
    case NoMembers =>
    case Member(name, v, rest) =>
      var next := before + Terminated(name);
      RegionOrdered(rest, k + Size(v), next);
      assert before + NameRegion(ms) == next + NameRegion(rest);
      assert (next + NameRegion(rest))[|before| + |name|] == Byte('\0');
      assert MemberEntries(ms, k, |before|)[1..] == MemberEntries(rest, k + Size(v), |next|);
  }

  lemma {:induction false} StringWritten(s: string)
    ensures Written(Terminated(s)) && |Terminated(s)| == |s| + 1 && Terminated(s)[|s|] == Byte('\0')
  {
  }

  lemma {:induction false} FilledIsFull(v: Value, k: nat, parent: int)
    ensures ExactlyFull(FilledNode(v, k, parent))
  {
    hide Written, NamesInOrder;
    match v
    case String(s) => StringWritten(s);
    case Array(items) => PointersSet(items, k + 1);
    case Object(ms) =>
      EntriesSet(ms, k + 1, 0);
      RegionWritten(ms);
      RegionOrdered(ms, k + 1, []);
      assert [] + NameRegion(ms) == NameRegion(ms);
    case _ =>
  }

  // ----- bytes -----

  /** The size type of the allocator. */
  const WORD: nat := 0x1_0000_0000_0000_0000

  /** The bytes that a block takes. */
  function BlockBytes(block: Block): nat {
    match block
    case NoBlock => 0
    case Chars(cells) => |cells|
    case Pointers(pointers) => 8 * |pointers|
    case Entries(entries, names) => ENTRY_BYTES * |entries| + |names|
  }

  /** The bytes that `new_value` asks for: those of the entries are computed in an int. */
  function RequestedBytes(node: Node): nat {
    match node.kind
    case KArray => 8 * node.length % WORD
    case KObject => (ValuesSize(node) + node.nameBytes) % WORD
    case KString => (node.length + 1) % 0x1_0000_0000
    case _ => 0
  }

  /** A product kept in an int is the product, less a multiple of 2^32. */
  lemma {:induction false} AsIntReduces(n: nat)
    ensures -0x8000_0000 <= AsInt(n) < 0x8000_0000 && AsInt(n) % 0x1_0000_0000 == n % 0x1_0000_0000
  {
    assert (n % 0x1_0000_0000 - 0x1_0000_0000) % 0x1_0000_0000 == n % 0x1_0000_0000;
  }

  /** The request is for the block of the counts if and only if the bytes of the entries fit an int. */
  lemma {:induction false} RequestIsExact(node: Node)
    requires node.length <= UINT_LIMIT && node.nameBytes < WORD / 2 && node.block == NoBlock
    requires (IsContainer(node.kind) && node.length > 0) || node.kind == KString
    ensures RequestedBytes(node) == BlockBytes(SizedBlock(node))
            <==> (node.kind == KObject ==> ENTRY_BYTES * node.length <= 0x7FFF_FFFF)
  {
    if node.kind == KObject {
      var asked, needed := ValuesSize(node), ENTRY_BYTES * node.length;
      assert needed < WORD / 2;
      assert -0x8000_0000 <= asked <= needed;
      if asked + node.nameBytes < 0 {
        assert (asked + node.nameBytes) % WORD == asked + node.nameBytes + WORD;
      } else {
        assert (asked + node.nameBytes) % WORD == asked + node.nameBytes;
      }
    }
  }

  /** One member too many gives a negative size, and twice as many give the bytes of a third of an entry. */
  lemma {:induction false} RequestExamples(node: Node)
    requires node.kind == KObject
    ensures node.length == ENTRY_LIMIT + 1 ==> ValuesSize(node) == -2_147_483_632
    ensures node.length == 178_956_971 ==> ValuesSize(node) == 8
  {
  }

  // ----- every node of a value -----

  /** The second pass leaves the counts of the first where they were. */
  predicate SameCounts(a: Node, b: Node) {
    && a.kind == b.kind && a.parent == b.parent && a.length == b.length && a.nameBytes == b.nameBytes
    && a.number == b.number && a.truth == b.truth
  }

  /** Node by node, what the second pass built is what the first pass sized, exactly full. */
  lemma {:induction false} BuiltAsSized(a: seq<Node>, b: seq<Node>, k: nat, parent: int, v: Value)
    requires Sized(a, k, parent, v) && Built(b, k, parent, v)
    ensures forall i :: k <= i < k + Size(v) ==> SameCounts(a[i], b[i]) && ExactlyFull(b[i])
    decreases v
  {
    hide ExactlyFull;
    FilledIsFull(v, k, parent);
    match v
    case Array(items) => ItemsAsSized(a, b, k + 1, k, items);
    case Object(ms) => MembersAsSized(a, b, k + 1, k, ms);
    case _ =>
  }

  lemma {:induction false} ItemsAsSized(a: seq<Node>, b: seq<Node>, k: nat, p: nat, items: Items)
    requires SizedItems(a, k, p, items) && BuiltItems(b, k, p, items)
    ensures forall i :: k <= i < k + ItemsSize(items) ==> SameCounts(a[i], b[i]) && ExactlyFull(b[i])
    decreases items
  {
    hide ExactlyFull, Sized, Built;
    match items
    case NoItems =>
    case Item(v, rest) =>
      BuiltAsSized(a, b, k, p, v);
      ItemsAsSized(a, b, k + Size(v), p, rest);
  }

  lemma {:induction false} MembersAsSized(a: seq<Node>, b: seq<Node>, k: nat, p: nat, ms: Members)
    requires SizedMembers(a, k, p, ms) && BuiltMembers(b, k, p, ms)
    ensures forall i :: k <= i < k + MembersSize(ms) ==> SameCounts(a[i], b[i]) && ExactlyFull(b[i])
    decreases ms
  {
    hide ExactlyFull, Sized, Built;
    match ms
    case NoMembers =>
    case Member(_, v, rest) =>
      BuiltAsSized(a, b, k, p, v);
      MembersAsSized(a, b, k + Size(v), p, rest);
  }

  /** Two arenas with the same counts, the second of them with every block exactly full. */
  ghost predicate SameAndFull(a: seq<Node>, b: seq<Node>) {
    |a| == |b| && forall i :: 0 <= i < |a| ==> SameCounts(a[i], b[i]) && ExactlyFull(b[i])
  }

  // ----- lockstep -----

  /** The passes stand at the same place, and the second takes next the node the first makes next. */
  ghost predicate InStep(m1: Machine, m2: Machine) {
    && m1.first && !m2.first
    && m1.ptr == m2.ptr && m1.flags == m2.flags && m1.top == m2.top
    && -1 <= m1.top < |m1.nodes| <= |m2.nodes| && m2.alloc == Second.AllocAt(m2, |m1.nodes|)
    && (m1.top >= 0 ==> m1.nodes[m1.top].kind == m2.nodes[m1.top].kind)
  }

  /**
   Passes that are in step before a value whose objects fit are in step after it, and took and made
   the same nodes.
   */
  lemma {:induction false} Lockstep(t: string, m1: Machine, m2: Machine, v: Value, j: nat)
    returns (n1: Machine, n2: Machine)
    requires InStep(m1, m2) && First.Seeking(t, m1) && !First.Full(m1)
    requires Second.Refilling(t, m2, v, j, |m1.nodes|) && Fits(v)
    ensures Valid(t, n1) && Valid(t, n2) && Run(t, m1) == Run(t, n1) && Run(t, m2) == Run(t, n2)
    ensures InStep(n1, n2) && n1.ptr == j && |n1.nodes| == |m1.nodes| + Size(v)
    ensures forall i :: |m1.nodes| <= i < |n1.nodes| ==>
              SameCounts(n1.nodes[i], n2.nodes[i]) && ExactlyFull(n2.nodes[i])
  {
    hide Run, ValidNodes, Chain, ValueAt, Sized, Built, ExactlyFull;
    n1 := First.ValueRun(t, m1);
    n2 := Second.ValueRun(t, m2, v, j, |m1.nodes|);
    BuiltAsSized(n1.nodes, n2.nodes, |m1.nodes|, m1.top, v);
    assert |m1.nodes| + Size(v) <= |n2.nodes| by { BuiltBound(n2.nodes, |m1.nodes|, m1.top, v); }
    if m1.top < 0 {
      assert SameCounts(n1.nodes[|m1.nodes|], n2.nodes[|m1.nodes|]);
    } else {
      assert n1.nodes[m1.top].kind == m1.nodes[m1.top].kind;
      assert n2.nodes[m1.top].kind == m2.nodes[m1.top].kind;
    }
  }

  /**
   The second pass accepts a text that the first accepted if and only if the entries of every object
   fit an int; then every node at its end is the first pass's node, exactly filled.
   */
  lemma {:induction false} PassesAgree(t: string)
    requires Text(t).Some?
    ensures var m1 := Start(true, TextStart(t), [], [], -1);
            && Valid(t, m1) && Run(t, m1).Accept?
            && var n1 := Run(t, m1).m;
            var m2 := Start(false, TextStart(t), n1.nodes, n1.links, 0);
            && Valid(t, m2) && (Run(t, m2).Accept? <==> Fits(Text(t).value)) && !Run(t, m2).Reject?
            && (Run(t, m2).Accept? ==>
                  var n2 := Run(t, m2).m;
                  SameAndFull(n1.nodes, n2.nodes) && n2.alloc == -1 && n1.root == n2.root == 0)
  {
    hide Run, ValidNodes, ValueAt, Sized, Built, ExactlyFull, Text, Fits;
    First.FirstPass(t);
    var n1 := Run(t, Start(true, TextStart(t), [], [], -1)).m;
    var m2 := Start(false, TextStart(t), n1.nodes, n1.links, 0);
    Second.SecondPass(t, Text(t).value, m2);
    if Fits(Text(t).value) {
      BuiltAsSized(n1.nodes, Run(t, m2).m.nodes, 0, -1, Text(t).value);
    }
  }
}
