/**
 The second pass, run over the counts of the first: on every text the grammar accepts it takes the
 node made for each value, never leaves a block, and fills every block exactly, up to the first
 object whose entry bytes do not fit an int.
 */
module JsonSecondPass {
  import opened Wrappers
  import opened JsonText
  import opened JsonGrammar
  import opened JsonMachine
  import opened JsonTransitions
  import opened JsonLayout

  // ----- bytes -----

  function Stored(s: string): seq<Cell> {
    seq(|s|, i requires 0 <= i < |s| => Byte(s[i]))
  }

  /** `cells` with `bytes` written from position `at`. */
  function Splice(cells: seq<Cell>, at: nat, bytes: seq<Cell>): seq<Cell>
    requires at + |bytes| <= |cells|
  {
    cells[..at] + bytes + cells[at + |bytes|..]
  }

  /** Where byte `offset` of the current string of `node` goes in its block, and the cells there. */
  function Region(node: Node): (seq<Cell>, nat) {
    match node.block
    case Chars(cells) => (cells, 0)
    case Entries(_, names) => (names, node.objectMem)
    case _ => ([], 0)
  }

  function Room(node: Node): int {
    |Region(node).0| - Region(node).1
  }

  /** The node after writing `bytes` from `offset` of its current string. */
  function WithBytes(node: Node, offset: nat, bytes: seq<Cell>): Node
    requires offset + |bytes| <= Room(node)
  {
    match node.block
    case Chars(cells) => node.(block := Chars(Splice(cells, offset, bytes)))
    case Entries(entries, names) => node.(block := Entries(entries, Splice(names, node.objectMem + offset, bytes)))
    case _ => node
  }

  lemma {:induction false} SpliceTwice(cells: seq<Cell>, at: nat, a: seq<Cell>, b: seq<Cell>)
    requires at + |a| + |b| <= |cells|
    ensures Splice(Splice(cells, at, a), at + |a|, b) == Splice(cells, at, a + b)
  {
  }

  lemma {:induction false} WithBytesTwice(node: Node, offset: nat, a: seq<Cell>, b: seq<Cell>)
    requires offset + |a| + |b| <= Room(node)
    ensures var n := WithBytes(node, offset, a);
            Room(n) == Room(node) && WithBytes(n, offset + |a|, b) == WithBytes(node, offset, a + b)
  {
    match node.block
    case Chars(cells) => SpliceTwice(cells, offset, a, b);
    case Entries(_, names) => SpliceTwice(names, node.objectMem + offset, a, b);
    case _ =>
  }

  lemma {:induction false} StoredAppend(a: string, b: string)
    ensures Stored(a + b) == Stored(a) + Stored(b)
  {
  }

  /** A store of one byte inside the block. */
  lemma {:induction false} StoreCharInside(node: Node, offset: nat, b: char)
    requires offset < Room(node) && (node.block.Chars? || node.block.Entries?)
    ensures StoreChar(node, offset, b) == Some(WithBytes(node, offset, [Byte(b)]))
  {
    match node.block
    case Chars(cells) => assert cells[offset := Byte(b)] == Splice(cells, offset, [Byte(b)]);
    case Entries(_, names) =>
      assert names[node.objectMem + offset := Byte(b)] == Splice(names, node.objectMem + offset, [Byte(b)]);
  }

  lemma {:induction false} StoreCharsInside(node: Node, offset: nat, s: string)
    requires offset + |s| <= Room(node) && (node.block.Chars? || node.block.Entries?)
    ensures StoreChars(node, offset, s) == Some(WithBytes(node, offset, Stored(s)))
    decreases |s|
  {
    if s == "" {
      assert WithBytes(node, offset, []) == node;
    } else {
      StoreCharInside(node, offset, s[0]);
      StoreCharsInside(WithBytes(node, offset, [Byte(s[0])]), offset + 1, s[1..]);
      WithBytesTwice(node, offset, [Byte(s[0])], Stored(s[1..]));
      assert [Byte(s[0])] + Stored(s[1..]) == Stored(s);
    }
  }

  /** The state at the closing quote before `j`, with `s` stored. */
  function AtQuote(m: Machine, s: string, j: nat): Machine
    requires 0 <= m.top < |m.nodes| && m.stringLength + |s| <= Room(m.nodes[m.top]) && 0 < j
  {
    m.(ptr := j - 1, stringLength := m.stringLength + |s|,
       nodes := m.nodes[m.top := WithBytes(m.nodes[m.top], m.stringLength, Stored(s))])
  }

  lemma {:induction false} AtQuoteTwice(m: Machine, a: string, next: nat, b: string, j: nat)
    requires 0 <= m.top < |m.nodes| && m.stringLength + |a| + |b| <= Room(m.nodes[m.top]) && 0 < j
    ensures var m1 := AtQuote(m, a, next + 1);
            Room(m1.nodes[m.top]) == Room(m.nodes[m.top]) && AtQuote(m1, b, j) == AtQuote(m, a + b, j)
  {
    hide WithBytes, Room;
    WithBytesTwice(m.nodes[m.top], m.stringLength, Stored(a), Stored(b));
    StoredAppend(a, b);
  }

  /** From inside a string to its closing quote, storing the bytes, when they all fit. */
  lemma {:induction false} StringRun(t: string, m: Machine)
    requires Valid(t, m) && !m.first && m.flags == OUTSIDE.(inString := true)
    requires StringBody(t, m.ptr).Some?
    requires var (s, _) := StringBody(t, m.ptr).value;
             m.stringLength + |s| <= UINT_LIMIT && m.stringLength + |s| < Room(m.nodes[m.top])
    ensures var (s, j) := StringBody(t, m.ptr).value;
            Valid(t, AtQuote(m, s, j)) && Run(t, m) == Run(t, AtQuote(m, s, j))
    decreases |t| - m.ptr
  {
    hide ValidNodes, Chain, Run, NumberStep, SeekStep, ReadEscape, UnicodeEscape, CloseString, WithBytes;
    if At(t, m.ptr) == '\\' {
      BackslashRun(t, m);
      var e := m.(flags := m.flags.(escaped := true), ptr := m.ptr + 1);
      RunStep(t, e);
      ReadEscapeIsEscape(t, e.ptr);
      var (bytes, next) := Escape(t, e.ptr).value;
      StringRest(t, m, e, bytes, next);
    } else if At(t, m.ptr) == '"' {
      NoBytes(m);
    } else {
      RunStep(t, m);
      StringRest(t, m, m, [At(t, m.ptr)], m.ptr + 1);
    }
  }

  lemma {:induction false} NoBytes(m: Machine)
    requires 0 <= m.top < |m.nodes| && m.stringLength <= Room(m.nodes[m.top])
    ensures m.nodes[m.top := WithBytes(m.nodes[m.top], m.stringLength, Stored(""))] == m.nodes
  {
    match m.nodes[m.top].block
    case Chars(cells) => assert Splice(cells, m.stringLength, []) == cells;
    case Entries(_, names) => assert Splice(names, m.nodes[m.top].objectMem + m.stringLength, []) == names;
    case _ =>
  }

  lemma {:induction false} AddInside(m: Machine, bytes: string, next: nat)
    requires !m.first && 0 <= m.top < |m.nodes| && m.stringLength + |bytes| <= Room(m.nodes[m.top])
    requires m.nodes[m.top].block.Chars? || m.nodes[m.top].block.Entries?
    ensures AddAndGo(m, bytes, next) ==
            Next(AtQuote(m, bytes, next + 1))
  {
    hide WithBytes, Room;
    StoreCharsInside(m.nodes[m.top], m.stringLength, bytes);
  }

  /** The string goes on at `next` once the step from `e` has stored `bytes`. */
  lemma {:induction false} StringRest(t: string, m: Machine, e: Machine, bytes: string, next: nat)
    requires Valid(t, m) && !m.first && m.flags == OUTSIDE.(inString := true) && m.ptr < next <= |t|
    requires Valid(t, e) && e == m.(flags := e.flags, ptr := e.ptr) && Run(t, m) == Run(t, e)
    requires Good(t, e, Step(t, e)) && Step(t, e) == AddAndGo(m, bytes, next) && Run(t, e) == Continue(t, Step(t, e))
    requires StringBody(t, m.ptr) == Prepend(bytes, StringBody(t, next)) && StringBody(t, next).Some?
    requires var (s, _) := StringBody(t, m.ptr).value;
             m.stringLength + |s| <= UINT_LIMIT && m.stringLength + |s| < Room(m.nodes[m.top])
    requires 0 <= m.top < |m.nodes| && (m.nodes[m.top].block.Chars? || m.nodes[m.top].block.Entries?)
    ensures var (s, j) := StringBody(t, m.ptr).value;
            Valid(t, AtQuote(m, s, j)) && Run(t, m) == Run(t, AtQuote(m, s, j))
    decreases |t| - m.ptr, 0
  {
    hide Valid, ValidNodes, Run, Step, AddAndGo, WithBytes, Room, Stored;
    var (rest, j) := StringBody(t, next).value;
    AddInside(m, bytes, next);
    AtQuoteTwice(m, bytes, next, rest, j);
    StringRun(t, AtQuote(m, bytes, next + 1));
  }

  // ----- numbers -----

  /** Every character of a number token is one the bulk skip takes. */
  lemma {:induction false} NumberTokenChars(t: string, i: nat)
    requires (IsDigit(At(t, i)) || At(t, i) == '-') && NumberToken(t, i).Some?
    ensures forall k :: i <= k < NumberToken(t, i).value.1 ==> IsNumberChar(At(t, k))
  {
    var start := if At(t, i) == '-' then i + 1 else i;
    var j := DigitsEnd(t, start);
    var (n, e) := Fraction(t, start, j).value;
    assert forall k :: i <= k < e ==> IsNumberChar(At(t, k));
  }

  /** The bulk skip of the second pass stops where the digit-by-digit reading of the first did. */
  lemma {:induction false} SkipsNumber(t: string, i: nat, j: nat)
    requires i <= j <= |t| && !IsNumberChar(At(t, j))
    requires forall k :: i <= k < j ==> IsNumberChar(At(t, k))
    ensures SkipNumberChars(t, i) == j
    decreases j - i
  {
    if i < j {
      assert IsNumberChar(At(t, i));
      SkipsNumber(t, i + 1, j);
    }
  }

  // ----- values -----

  /** The next node to take once those before `k` are taken. */
  function AllocAt(m: Machine, k: nat): int {
    if k < |m.nodes| then k else -1
  }

  /** `b` keeps the nodes of `a` outside `lo..hi`, and apart from the node at `top`. */
  ghost predicate Keeps(a: seq<Node>, b: seq<Node>, top: int, lo: nat, hi: nat) {
    |a| == |b| && forall i :: 0 <= i < |a| && i != top && !(lo <= i < hi) ==> b[i] == a[i]
  }

  /** The second pass is about to read the value `v`, which ends at `j`, with its counts at `k`. */
  ghost predicate Refilling(t: string, m: Machine, v: Value, j: nat, k: nat) {
    && Valid(t, m) && !m.first && m.flags == SEEK_VALUE
    && ValueAt(t, m.ptr) == Some((v, j)) && !IsNumberChar(At(t, j))
    && m.alloc == k && m.top < k && Sized(m.nodes, k, m.top, v)
    && (m.top >= 0 ==> StoreChild(m.nodes[m.top], k).Some? && m.nodes[m.top].length + 1 <= UINT_LIMIT)
  }

  /** The container of `m` with one more child. */
  function WithChild(node: Node, k: nat): Node
    requires StoreChild(node, k).Some?
  {
    var n := StoreChild(node, k).value;
    n.(length := n.length + 1)
  }

  /** Where the second pass stands after `v`: at `n`, with `v` filled, unless some object did not fit. */
  ghost predicate Filled(t: string, m: Machine, n: Machine, v: Value, j: nat, k: nat)
    requires Refilling(t, m, v, j, k)
  {
    if Fits(v) then FilledAt(t, m, n, v, j, k) else Run(t, m).Fault?
  }

  /** `n` is where the second pass stands after filling `v` from the state `m`. */
  ghost predicate FilledAt(t: string, m: Machine, n: Machine, v: Value, j: nat, k: nat)
    requires Refilling(t, m, v, j, k)
  {
    && Valid(t, n) && !n.first && Run(t, m) == Run(t, n)
    && n.ptr == j && n.flags == AfterFlags(m) && n.top == (if m.top < 0 then k else m.top)
    && n.alloc == AllocAt(m, k + Size(v)) && n.root == (if m.root < 0 then k else m.root)
    && Keeps(m.nodes, n.nodes, m.top, k, k + Size(v))
    && (m.top >= 0 ==> n.nodes[m.top] == WithChild(m.nodes[m.top], k))
    && Built(n.nodes, k, m.top, v)
  }

  /** `n` has taken the node of `v` and filled it, and finishes the value next. */
  ghost predicate Complete(t: string, m: Machine, n: Machine, v: Value, j: nat, k: nat)
    requires Refilling(t, m, v, j, k)
  {
    && Linked(n) && !n.first && n.flags == OUTSIDE && n.top == k
    && n.alloc == AllocAt(m, k + Size(v)) && n.root == (if m.root < 0 then k else m.root)
    && Keeps(m.nodes, n.nodes, -1, k, k + Size(v)) && Built(n.nodes, k, m.top, v)
    && n.nodes[k].parent < k && (var o := Finish(n, j); (o.Next? ==> Valid(t, o.m)) && Run(t, m) == Continue(t, o))
  }

  lemma {:induction false} FinishRun(t: string, m: Machine, n: Machine, v: Value, j: nat, k: nat) returns (r: Machine)
    requires Refilling(t, m, v, j, k) && Complete(t, m, n, v, j, k)
    ensures FilledAt(t, m, r, v, j, k)
  {
    hide ValidNodes, Chain, Run, ValueAt, Sized;
    assert n.nodes[k].parent == m.top by { assert n.nodes[k] == FilledNode(v, k, m.top); }
    r := Finish(n, j).m;
    assert Built(r.nodes, k, m.top, v) by { BuiltFrame(n.nodes, r.nodes, k, m.top, v); }
  }

  /** Taking the node of a value. */
  lemma {:induction false} TakeNode(m: Machine, v: Value, k: nat, kind: Kind) returns (n: Machine)
    requires Linked(m) && !m.first && m.alloc == k && Sized(m.nodes, k, m.top, v) && Suits(kind, KindOf(v))
    requires kind != KDouble
    requires m.top >= 0 ==> IsContainer(m.nodes[m.top].kind)
    requires v.Object? ==> MemberCount(v.members) <= ENTRY_LIMIT
    ensures NewValue(m, kind) == Some(n) && Linked(n)
    ensures n == m.(nodes := m.nodes[k := Prepared(CountedNode(v, m.top))], top := k, alloc := AllocAt(m, k + 1),
                    root := if m.root < 0 then k else m.root)
  {
    hide ValidNodes;
    NewValueGood(m, kind);
    n := NewValue(m, kind).value;
  }

  lemma {:induction false} WordRun(t: string, m: Machine, v: Value, j: nat, k: nat) returns (r: Machine)
    requires Refilling(t, m, v, j, k) && (At(t, m.ptr) == 't' || At(t, m.ptr) == 'f' || At(t, m.ptr) == 'n')
    ensures Filled(t, m, r, v, j, k)
  {
    hide ValidNodes, Chain, Run, Step, ValueAt, Finish;
    RunStep(t, m);
    WordStep(t, m);
    var n := TakeNode(m.(flags := OUTSIDE), v, k, KindOf(v));
    assert v == Boolean(true) ==> n.nodes[k := n.nodes[k].(truth := true)] == n.nodes;
    r := FinishRun(t, m, n, v, j, k);
  }

  lemma {:induction false} NumberValueRun(t: string, m: Machine, v: Value, j: nat, k: nat) returns (r: Machine)
    requires Refilling(t, m, v, j, k) && (IsDigit(At(t, m.ptr)) || At(t, m.ptr) == '-')
    ensures Filled(t, m, r, v, j, k)
  {
    hide ValidNodes, Chain, Run, NumberStep, StringStep, Finish, NumberToken;
    RunStep(t, m);
    NumberTokenChars(t, m.ptr);
    SkipsNumber(t, m.ptr, j);
    var n := TakeNode(m.(flags := OUTSIDE), v, k, KInteger);
    assert Step(t, m) == Finish(n, j);
    r := FinishRun(t, m, n, v, j, k);
  }

  lemma {:induction false} StringValueRun(t: string, m: Machine, v: Value, j: nat, k: nat) returns (r: Machine)
    requires Refilling(t, m, v, j, k) && At(t, m.ptr) == '"'
    ensures Filled(t, m, r, v, j, k)
  {
    hide ValidNodes, Chain, Run, Step, NewValue, StoreChild, StringBody;
    RunStep(t, m);
    var n := TakeNode(m.(flags := OUTSIDE), v, k, KString);
    OpenStep(t, m, n);
    var n1 := n.(flags := OUTSIDE.(inString := true), stringLength := 0, ptr := m.ptr + 1);
    StringRun(t, n1);
    var n2 := AtQuote(n1, v.s, j);
    RunStep(t, n2);
    r := CloseStringRun(t, m, n2, v, j, k);
  }

  /** The closing quote of a string value. */
  lemma {:induction false} CloseStringRun(t: string, m: Machine, n: Machine, v: Value, j: nat, k: nat)
    returns (r: Machine)
    requires Refilling(t, m, v, j, k) && v.String? && Valid(t, n) && !n.first && Run(t, m) == Run(t, n)
    requires n.ptr == j - 1 && At(t, j - 1) == '"' && n.flags == OUTSIDE.(inString := true) && n.top == k
    requires n.stringLength == |v.s| <= UINT_LIMIT && n.alloc == AllocAt(m, k + 1)
    requires n.root == (if m.root < 0 then k else m.root)
    requires n.nodes == m.nodes[k := WithBytes(Prepared(CountedNode(v, m.top)), 0, Stored(v.s))]
    ensures Filled(t, m, r, v, j, k)
  {
    hide ValidNodes, Chain, Run, NumberStep, Finish, ValueAt;
    RunStep(t, n);
    var node := n.nodes[k];
    StoreCharInside(node, |v.s|, '\0');
    assert node.block.cells[..|v.s|] == Stored(v.s);
    var stored := WithBytes(node, |v.s|, [Byte('\0')]);
    assert stored.block.cells == Terminated(v.s);
    UpdateKeepsNodes(n.nodes, k, stored.(length := |v.s|));
    var n1 := n.(flags := OUTSIDE, nodes := n.nodes[k := stored.(length := |v.s|)]);
    assert Step(t, n) == Finish(n1, j);
    assert n1.nodes[k] == FilledNode(v, k, m.top);
    r := FinishRun(t, m, n1, v, j, k);
  }

  // ----- arrays -----

  /** The array node `node` has a pointer left for each of `items`. */
  ghost predicate HasSlots(node: Node, items: Items) {
    node.kind == KArray && (items == NoItems ||
      (node.block.Pointers? && |node.block.pointers| == node.length + ItemCount(items) <= UINT_LIMIT))
  }

  /** The array node with `items`, laid out from `k`, stored in its remaining pointers. */
  function PutItems(node: Node, items: Items, k: nat): Node {
    if items == NoItems || !node.block.Pointers? || node.length > |node.block.pointers| then node
    else node.(length := node.length + ItemCount(items),
               block := Pointers(node.block.pointers[..node.length] + ItemPointers(items, k)))
  }

  lemma {:induction false} PutOne<T>(s: seq<T>, at: nat, x: T, rest: seq<T>)
    requires at < |s|
    ensures s[at := x][..at + 1] + rest == s[..at] + ([x] + rest)
    ensures at + 1 == |s| && rest == [] ==> s[at := x] == s[..at] + ([x] + rest)
  {
  }

  lemma {:induction false} PutItem(node: Node, v: Value, rest: Items, k: nat)
    requires HasSlots(node, Item(v, rest))
    ensures StoreChild(node, k).Some? && node.length + 1 <= UINT_LIMIT
    ensures HasSlots(WithChild(node, k), rest)
    ensures PutItems(WithChild(node, k), rest, k + Size(v)) == PutItems(node, Item(v, rest), k)
  {
    assert ItemCount(Item(v, rest)) == 1 + ItemCount(rest);
    PutOne(node.block.pointers, node.length, k, ItemPointers(rest, k + Size(v)));
    if rest == NoItems {
      assert ItemCount(rest) == 0 && ItemPointers(rest, k + Size(v)) == [];
    }
  }

  /** Where the second pass stands after `items`, unless some object did not fit. */
  ghost predicate ItemsFilled(t: string, m: Machine, n: Machine, items: Items, j: nat, k: nat)
    requires Valid(t, m)
  {
    if ItemsFit(items) then ItemsFilledAt(t, m, n, items, j, k) else Run(t, m).Fault?
  }

  /** `n` is where the second pass stands, at the closing bracket, after filling `items`. */
  ghost predicate ItemsFilledAt(t: string, m: Machine, n: Machine, items: Items, j: nat, k: nat)
    requires Valid(t, m)
  {
    && Valid(t, n) && !n.first && Run(t, m) == Run(t, n)
    && n.ptr == j - 1 && 0 <= n.top == m.top < k && (n.flags == SEEK_VALUE || n.flags == SEEK_VALUE.(needComma := true))
    && n.alloc == AllocAt(m, k + ItemsSize(items)) && n.root == m.root
    && Keeps(m.nodes, n.nodes, m.top, k, k + ItemsSize(items))
    && n.nodes[m.top] == PutItems(m.nodes[m.top], items, k)
    && BuiltItems(n.nodes, k, m.top, items)
  }

  /** The items still to be read, from `k` on, and the array that takes them. */
  ghost predicate ItemsReady(t: string, m: Machine, items: Items, k: nat) {
    && Valid(t, m) && !m.first && m.root >= 0 && m.flags == SEEK_VALUE && 0 <= m.top < k && m.alloc == AllocAt(m, k)
    && SizedItems(m.nodes, k, m.top, items) && HasSlots(m.nodes[m.top], items)
  }

  lemma {:induction false} ItemsRun(t: string, m: Machine, items: Items, j: nat, k: nat) returns (n: Machine)
    requires ItemsReady(t, m, items, k) && ItemsAt(t, m.ptr) == Some((items, j))
    ensures ItemsFilled(t, m, n, items, j, k)
    decreases |t| - m.ptr, 2
  {
    hide ValidNodes, Chain, Run, MoreItems, Sized, StoreChild;
    SkipRun(t, m);
    var m1 := m.(ptr := SkipWhitespace(t, m.ptr));
    n := m1;
    if At(t, m1.ptr) != ']' {
      var (v, j1) := ValueAt(t, m1.ptr).value;
      AfterItem(t, j1, v);
      PutItem(m.nodes[m.top], v, items.tail, k);
      var m2 := ValueRun(t, m1, v, j1, k);
      if Fits(v) {
        n := NextItemRun(t, m1, m2, v, items.tail, j, k);
      }
    }
  }

  /** The character after an item is not one the number skip would take. */
  lemma {:induction false} AfterItem(t: string, i: nat, v: Value)
    requires MoreItems(t, i, v).Some?
    ensures !IsNumberChar(At(t, i)) && MoreItems(t, i, v).value.0.Item? && MoreItems(t, i, v).value.0.head == v
  {
    hide ItemsAt;
  }

  lemma {:induction false} KindOfArray(node: Node, items: Items)
    requires HasSlots(node, items)
    ensures node.kind == KArray
  {
  }

  /** After the first item, the array is ready for the rest of them. */
  lemma {:induction false} ItemsReadyNext(a: seq<Node>, b: seq<Node>, top: nat, k: nat, v: Value, rest: Items)
    requires top < k && SizedItems(a, k, top, Item(v, rest)) && HasSlots(a[top], Item(v, rest))
    requires Keeps(a, b, top, k, k + Size(v)) && StoreChild(a[top], k).Some? && b[top] == WithChild(a[top], k)
    ensures SizedItems(b, k + Size(v), top, rest) && HasSlots(b[top], rest) && a[top].kind == KArray
    ensures ItemsSize(Item(v, rest)) == Size(v) + ItemsSize(rest) <= |a| - k
  {
    hide StoreChild, Sized, SizedItems, Size, ItemsSize, ItemCount, WithChild, HasSlots;
    SizedItemsCons(a, k, top, v, rest);
    SizedBounds(a, k + Size(v), top);
    assert a[top].kind == KArray by { KindOfArray(a[top], Item(v, rest)); }
    assert HasSlots(b[top], rest) by { PutItem(a[top], v, rest, k); }
    forall i | k + Size(v) <= i < k + Size(v) + ItemsSize(rest) ensures a[i] == b[i] {
    }
    SizedItemsFrame(a, b, k + Size(v), top, rest);
  }

  lemma {:induction false} KeepsJoin(a: seq<Node>, b: seq<Node>, c: seq<Node>, top: int, lo: nat, mid: nat, hi: nat)
    requires lo <= mid <= hi && Keeps(a, b, top, lo, mid) && Keeps(b, c, top, mid, hi)
    ensures Keeps(a, c, top, lo, hi)
  {
  }

  /** What was built stays built while what comes after it is filled. */
  lemma {:induction false} BuiltKept(b: seq<Node>, c: seq<Node>, top: nat, k: nat, v: Value, hi: nat)
    requires top < k && Built(b, k, top, v) && Keeps(b, c, top, k + Size(v), hi)
    ensures Built(c, k, top, v)
  {
    hide Built, Size;
    BuiltBound(b, k, top, v);
    BuiltFrame(b, c, k, top, v);
  }

  lemma {:induction false} BuiltItemsCons(nodes: seq<Node>, k: nat, top: int, v: Value, rest: Items)
    requires Built(nodes, k, top, v) && BuiltItems(nodes, k + Size(v), top, rest)
    requires k + ItemsSize(Item(v, rest)) <= |nodes|
    ensures BuiltItems(nodes, k, top, Item(v, rest))
  {
    hide Built, Size;
  }

  lemma {:induction false} BuiltMembersCons(nodes: seq<Node>, k: nat, top: int, name: string, v: Value, rest: Members)
    requires Built(nodes, k, top, v) && BuiltMembers(nodes, k + Size(v), top, rest)
    requires k + MembersSize(Member(name, v, rest)) <= |nodes|
    ensures BuiltMembers(nodes, k, top, Member(name, v, rest))
  {
    hide Built, Size;
  }

  /** Filling an item and then the rest fills them all. */
  lemma {:induction false} ItemsJoin(a: seq<Node>, b: seq<Node>, c: seq<Node>, top: nat, k: nat, v: Value, rest: Items)
    requires top < k && k + ItemsSize(Item(v, rest)) <= |a| && HasSlots(a[top], Item(v, rest))
    requires Keeps(a, b, top, k, k + Size(v)) && StoreChild(a[top], k).Some? && b[top] == WithChild(a[top], k)
    requires Built(b, k, top, v)
    requires Keeps(b, c, top, k + Size(v), k + Size(v) + ItemsSize(rest))
    requires c[top] == PutItems(b[top], rest, k + Size(v))
    requires BuiltItems(c, k + Size(v), top, rest)
    ensures Keeps(a, c, top, k, k + ItemsSize(Item(v, rest))) && c[top] == PutItems(a[top], Item(v, rest), k)
    ensures BuiltItems(c, k, top, Item(v, rest))
  {
    hide StoreChild, Built, PutItems, HasSlots, Size, WithChild, BuiltItems, ItemsSize, Keeps;
    PutItem(a[top], v, rest, k);
    ItemsSizeCons(v, rest);
    KeepsJoin(a, b, c, top, k, k + Size(v), k + Size(v) + ItemsSize(rest));
    BuiltKept(b, c, top, k, v, k + Size(v) + ItemsSize(rest));
    BuiltItemsCons(c, k, top, v, rest);
  }

  lemma {:induction false} NextItemRun(t: string, m: Machine, m2: Machine, v: Value, rest: Items, j: nat, k: nat)
    returns (n: Machine)
    requires ItemsReady(t, m, Item(v, rest), k) && m.ptr < m2.ptr
    requires Refilling(t, m, v, m2.ptr, k) && Fits(v) && FilledAt(t, m, m2, v, m2.ptr, k)
    requires MoreItems(t, m2.ptr, v) == Some((Item(v, rest), j))
    ensures ItemsFilled(t, m, n, Item(v, rest), j, k)
    decreases |t| - m.ptr, 0
  {
    hide ValidNodes, Chain, Run, ItemsAt, ValueAt, Sized, SizedItems, Built, BuiltItems, StoreChild, PutItems, HasSlots;
    hide Size, ItemsSize, Fits;
    assert ItemsFit(Item(v, rest)) <==> ItemsFit(rest);
    ItemsReadyNext(m.nodes, m2.nodes, m.top, k, v, rest);
    SkipRun(t, m2);
    var m3 := m2.(ptr := SkipWhitespace(t, m2.ptr));
    n := m3;
    if At(t, m3.ptr) == ',' {
      CommaRun(t, m3);
      var m4 := m3.(flags := SEEK_VALUE, ptr := m3.ptr + 1);
      n := ItemsRun(t, m4, rest, j, k + Size(v));
      if !ItemsFit(rest) {
        return;
      }
    } else {
      NoMoreItems(m2.nodes, m.top, k + Size(v));
    }
    ItemsJoin(m.nodes, m2.nodes, n.nodes, m.top, k, v, rest);
  }

  lemma {:induction false} NoMoreItems(nodes: seq<Node>, top: nat, k: nat)
    requires top < |nodes| && k <= |nodes|
    ensures PutItems(nodes[top], NoItems, k) == nodes[top] && ItemsSize(NoItems) == 0
    ensures BuiltItems(nodes, k, top, NoItems)
  {
  }

  /** A container just taken is ready for its children. */
  lemma {:induction false} ChildrenReady(a: seq<Node>, b: seq<Node>, parent: int, v: Value, k: nat)
    requires (v.Array? && ItemCount(v.items) <= UINT_LIMIT) || (v.Object? && MemberCount(v.members) <= UINT_LIMIT)
    requires Sized(a, k, parent, v) && b == a[k := Prepared(CountedNode(v, parent))]
    ensures k + Size(v) <= |a| && b[k].kind == KindOf(v)
    ensures if v.Array? then SizedItems(b, k + 1, k, v.items) && HasSlots(b[k], v.items)
            else SizedMembers(b, k + 1, k, v.members) && HasEntries(b[k], v.members)
  {
    if v.Array? {
      SizedItemsFrame(a, b, k + 1, k, v.items);
    } else {
      SizedMembersFrame(a, b, k + 1, k, v.members);
    }
  }

  lemma {:induction false} ArrayRun(t: string, m: Machine, v: Value, j: nat, k: nat) returns (r: Machine)
    requires Refilling(t, m, v, j, k) && At(t, m.ptr) == '['
    ensures Filled(t, m, r, v, j, k)
    decreases |t| - m.ptr, 0
  {
    hide ValidNodes, Chain, Run, Step, NewValue, StoreChild, ItemsAt, SizedItems, HasSlots, Prepared;
    RunStep(t, m);
    var n := TakeNode(m.(flags := OUTSIDE), v, k, KArray);
    OpenStep(t, m, n);
    var n1 := n.(flags := SEEK_VALUE, ptr := m.ptr + 1);
    ChildrenReady(m.nodes, n1.nodes, m.top, v, k);
    var n2 := ItemsRun(t, n1, v.items, j, k + 1);
    r := CloseArrayRun(t, m, n1, n2, v, j, k);
  }

  /** A prepared container with all its children stored is the filled container. */
  lemma {:induction false} WholeContainer(v: Value, parent: int, k: nat)
    requires v.Array? || v.Object?
    ensures var node := Prepared(CountedNode(v, parent));
            FilledNode(v, k, parent) == if v.Array? then PutItems(node, v.items, k + 1)
              else PutMembers(node, v.members, k + 1)
  {
    var node := Prepared(CountedNode(v, parent));
    if v.Array? && v.items != NoItems {
      assert node.block.pointers[..0] + ItemPointers(v.items, k + 1) == ItemPointers(v.items, k + 1);
    } else if v.Object? && v.members != NoMembers {
      assert node.block.entries[..0] + MemberEntries(v.members, k + 1, 0) == MemberEntries(v.members, k + 1, 0);
      assert node.block.names[..0] + NameRegion(v.members) == NameRegion(v.members);
    }
  }

  /** The closing bracket. */
  lemma {:induction false} CloseArrayRun(t: string, m: Machine, n1: Machine, n2: Machine, v: Value, j: nat, k: nat)
    returns (r: Machine)
    requires Refilling(t, m, v, j, k) && v.Array? && Valid(t, n1) && n1.top == k && Run(t, m) == Run(t, n1)
    requires n1.nodes == m.nodes[k := Prepared(CountedNode(v, m.top))] && n1.root == (if m.root < 0 then k else m.root)
    requires ItemsFilled(t, n1, n2, v.items, j, k + 1) && j <= |t| && t[j - 1] == ']'
    ensures Filled(t, m, r, v, j, k)
  {
    hide ValidNodes, Chain, Run, Step, Finish, StoreChild, ValueAt, PutItems, PutMembers, Prepared;
    r := m;
    if ItemsFit(v.items) {
      WholeContainer(v, m.top, k);
      RunStep(t, n2);
      CloseStep(t, n2);
      var n3 := n2.(flags := OUTSIDE);
      r := FinishRun(t, m, n3, v, j, k);
    }
  }

  /** Any value. */
  lemma {:induction false} ValueRun(t: string, m: Machine, v: Value, j: nat, k: nat) returns (r: Machine)
    requires Refilling(t, m, v, j, k)
    ensures Filled(t, m, r, v, j, k)
    decreases |t| - m.ptr, 1
  {
    hide Valid, Run, Sized, StoreChild;
    var b := At(t, m.ptr);
    if b == '{' {
      r := ObjectRun(t, m, v, j, k);
    } else if b == '[' {
      r := ArrayRun(t, m, v, j, k);
    } else if b == '"' {
      r := StringValueRun(t, m, v, j, k);
    } else if b == 't' || b == 'f' || b == 'n' {
      r := WordRun(t, m, v, j, k);
    } else {
      r := NumberValueRun(t, m, v, j, k);
    }
  }

  // ----- objects -----

  /** The object node `node` has an entry and name bytes left for each of `ms`. */
  ghost predicate HasEntries(node: Node, ms: Members) {
    node.kind == KObject && (ms == NoMembers ||
      (node.block.Entries? && |node.block.entries| == node.length + MemberCount(ms) <= UINT_LIMIT &&
       |node.block.names| == node.objectMem + NameBytes(ms)))
  }

  /** The object node with `ms`, laid out from `k`, stored in its remaining entries and name bytes. */
  function PutMembers(node: Node, ms: Members, k: nat): Node {
    if ms == NoMembers || !node.block.Entries? || node.length > |node.block.entries|
       || node.objectMem > |node.block.names| then node
    else node.(length := node.length + MemberCount(ms), objectMem := node.objectMem + NameBytes(ms),
               block := Entries(node.block.entries[..node.length] + MemberEntries(ms, k, node.objectMem),
                                node.block.names[..node.objectMem] + NameRegion(ms)))
  }

  /** The object node once a name has been stored and closed. */
  function WithName(node: Node, name: string): Node
    requires node.block.Entries? && node.length < |node.block.entries|
    requires node.objectMem + |name| + 1 <= |node.block.names|
  {
    var e := node.block.entries[node.length].(name := node.objectMem, nameLength := |name|);
    node.(block := Entries(node.block.entries[node.length := e],
                           Splice(node.block.names, node.objectMem, Terminated(name))),
          objectMem := node.objectMem + |name| + 1)
  }

  /** A name and then its value, stored in the next entry. */
  lemma {:induction false} NamedChild(node: Node, name: string, k: nat)
    requires node.kind == KObject && node.block.Entries? && node.length < |node.block.entries|
    requires node.objectMem + |name| + 1 <= |node.block.names|
    ensures var named := WithName(node, name);
            && named.length == node.length && StoreChild(named, k).Some?
            && WithChild(named, k) == node.(length := node.length + 1, objectMem := node.objectMem + |name| + 1,
                 block := Entries(node.block.entries[node.length := Entry(node.objectMem, |name|, k)],
                                  Splice(node.block.names, node.objectMem, Terminated(name))))
  {
    hide Splice, Terminated;
    var e := node.block.entries[node.length].(name := node.objectMem, nameLength := |name|);
    assert node.block.entries[node.length := e][node.length := e.(value := k)]
        == node.block.entries[node.length := Entry(node.objectMem, |name|, k)];
  }

  lemma {:induction false} PutMember(node: Node, name: string, v: Value, rest: Members, k: nat)
    requires HasEntries(node, Member(name, v, rest))
    ensures var named := WithName(node, name);
            && StoreChild(named, k).Some? && named.length + 1 <= UINT_LIMIT
            && HasEntries(WithChild(named, k), rest)
            && PutMembers(WithChild(named, k), rest, k + Size(v)) == PutMembers(node, Member(name, v, rest), k)
  {
    var ms := Member(name, v, rest);
    assert MemberCount(ms) == 1 + MemberCount(rest) && NameBytes(ms) == |name| + 1 + NameBytes(rest);
    NamedChild(node, name, k);
    RestEntries(node, name, v, rest, k);
  }

  lemma {:induction false} SpliceLength(names: seq<Cell>, at: nat, name: string)
    requires at + |name| + 1 <= |names|
    ensures |Terminated(name)| == |name| + 1 && |Splice(names, at, Terminated(name))| == |names|
  {
  }

  lemma {:induction false} RestEntries(node: Node, name: string, v: Value, rest: Members, k: nat)
    requires HasEntries(node, Member(name, v, rest)) && NameBytes(Member(name, v, rest)) == |name| + 1 + NameBytes(rest)
    requires MemberCount(Member(name, v, rest)) == 1 + MemberCount(rest)
    ensures var e := Entry(node.objectMem, |name|, k);
            var child := node.(length := node.length + 1, objectMem := node.objectMem + |name| + 1,
              block := Entries(node.block.entries[node.length := e],
                               Splice(node.block.names, node.objectMem, Terminated(name))));
            && HasEntries(child, rest)
            && PutMembers(child, rest, k + Size(v)) == PutMembers(node, Member(name, v, rest), k)
  {
    hide Splice, Terminated, Size;
    var e := Entry(node.objectMem, |name|, k);
    SpliceLength(node.block.names, node.objectMem, name);
    PutOne(node.block.entries, node.length, e, MemberEntries(rest, k + Size(v), node.objectMem + |name| + 1));
    PutRegion(node.block.names, node.objectMem, Terminated(name), NameRegion(rest));
    if rest == NoMembers {
      assert MemberCount(rest) == 0 && NameBytes(rest) == 0;
    }
  }

  lemma {:induction false} PutRegion(cells: seq<Cell>, at: nat, a: seq<Cell>, rest: seq<Cell>)
    requires at + |a| <= |cells|
    ensures Splice(cells, at, a)[..at + |a|] + rest == cells[..at] + (a + rest)
    ensures at + |a| == |cells| && rest == [] ==> Splice(cells, at, a) == cells[..at] + (a + rest)
  {
  }

  /** Where the second pass stands after `ms`, unless some object did not fit. */
  ghost predicate MembersFilled(t: string, m: Machine, n: Machine, ms: Members, j: nat, k: nat)
    requires Valid(t, m)
  {
    if MembersFit(ms) then MembersFilledAt(t, m, n, ms, j, k) else Run(t, m).Fault?
  }

  /** `n` is where the second pass stands, at the closing brace, after filling `ms`. */
  ghost predicate MembersFilledAt(t: string, m: Machine, n: Machine, ms: Members, j: nat, k: nat)
    requires Valid(t, m)
  {
    && Valid(t, n) && !n.first && Run(t, m) == Run(t, n)
    && n.ptr == j - 1 && 0 <= n.top == m.top < k && (n.flags == OUTSIDE || n.flags == OUTSIDE.(needComma := true))
    && n.alloc == AllocAt(m, k + MembersSize(ms)) && n.root == m.root
    && Keeps(m.nodes, n.nodes, m.top, k, k + MembersSize(ms))
    && n.nodes[m.top] == PutMembers(m.nodes[m.top], ms, k)
    && BuiltMembers(n.nodes, k, m.top, ms)
  }

  /** The members still to be read, from `k` on, and the object that takes them. */
  ghost predicate MembersReady(t: string, m: Machine, ms: Members, k: nat) {
    && Valid(t, m) && !m.first && m.root >= 0 && m.flags == OUTSIDE && 0 <= m.top < k && m.alloc == AllocAt(m, k)
    && SizedMembers(m.nodes, k, m.top, ms) && HasEntries(m.nodes[m.top], ms)
  }

  /** A member name and its colon, up to the start of the member's value. */
  lemma {:induction false} NameRun(t: string, m: Machine, name: string, s: nat) returns (n: Machine)
    requires Valid(t, m) && !m.first && m.flags == OUTSIDE && 0 <= m.top < |m.nodes|
    requires NameAt(t, m.ptr) == Some((name, s))
    requires m.nodes[m.top].kind == KObject && m.nodes[m.top].block.Entries?
    requires m.nodes[m.top].length < |m.nodes[m.top].block.entries|
    requires m.nodes[m.top].objectMem + |name| + 1 <= |m.nodes[m.top].block.names|
    ensures Valid(t, n) && Run(t, m) == Run(t, n)
    ensures n == m.(ptr := s, flags := SEEK_VALUE, nodes := m.nodes[m.top := WithName(m.nodes[m.top], name)],
                    stringLength := |name|)
  {
    hide ValidNodes, Chain, Run, NumberStep, StringBody, CloseString, SeekStep, WithName;
    OpenNameRun(t, m);
    var m1 := m.(flags := OUTSIDE.(inString := true), stringLength := 0, ptr := m.ptr + 1);
    StringRun(t, m1);
    var j := QuotedString(t, m.ptr + 1).value.1;
    var m2 := AtQuote(m1, name, j);
    var m3 := CloseNameRun(t, m, m2, name, j);
    SkipRun(t, m3);
    var m4 := m3.(ptr := SkipWhitespace(t, j));
    ColonRun(t, m4);
    n := m4.(flags := SEEK_VALUE, ptr := m4.ptr + 1);
    SkipRun(t, n);
    n := n.(ptr := s);
  }

  /** The closing quote of a name. */
  lemma {:induction false} CloseNameRun(t: string, m: Machine, n: Machine, name: string, j: nat) returns (r: Machine)
    requires Valid(t, n) && !n.first && 0 <= m.top < |m.nodes| && j <= |t| && 0 < j
    requires At(t, j - 1) == '"' && |name| <= UINT_LIMIT
    requires m.nodes[m.top].kind == KObject && m.nodes[m.top].block.Entries?
    requires m.nodes[m.top].length < |m.nodes[m.top].block.entries|
    requires m.nodes[m.top].objectMem + |name| + 1 <= |m.nodes[m.top].block.names|
    requires n == m.(ptr := j - 1, flags := OUTSIDE.(inString := true), stringLength := |name|,
                     nodes := m.nodes[m.top := WithBytes(m.nodes[m.top], 0, Stored(name))])
    ensures r == m.(ptr := j, flags := SEEK_VALUE.(needColon := true), stringLength := |name|,
                    nodes := m.nodes[m.top := WithName(m.nodes[m.top], name)])
    ensures Valid(t, r) && Run(t, n) == Run(t, r)
  {
    hide ValidNodes, Chain, Run, NumberStep, SeekStep;
    RunStep(t, n);
    var node := m.nodes[m.top];
    StoreCharInside(n.nodes[m.top], |name|, '\0');
    WithBytesTwice(node, 0, Stored(name), [Byte('\0')]);
    assert Stored(name) + [Byte('\0')] == Terminated(name);
    r := m.(ptr := j, flags := SEEK_VALUE.(needColon := true), stringLength := |name|,
            nodes := m.nodes[m.top := WithName(node, name)]);
    assert Step(t, n) == Next(r);
  }

  lemma {:induction false} MembersRun(t: string, m: Machine, ms: Members, j: nat, k: nat) returns (n: Machine)
    requires MembersReady(t, m, ms, k) && MembersAt(t, m.ptr) == Some((ms, j))
    ensures MembersFilled(t, m, n, ms, j, k)
    decreases |t| - m.ptr, 2
  {
    hide ValidNodes, Chain, Run, MoreMembers, NameAt, Sized, StoreChild, WithName;
    SkipRun(t, m);
    var m1 := m.(ptr := SkipWhitespace(t, m.ptr));
    n := m1;
    if At(t, m1.ptr) != '}' {
      var (name, s) := NameAt(t, m1.ptr).value;
      var (v, j1) := ValueAt(t, s).value;
      AfterMember(t, j1, name, v);
      n := MemberRun(t, m1, name, v, ms.rest, s, j1, j, k);
    }
  }

  /** The character after a member is not one the number skip would take. */
  lemma {:induction false} AfterMember(t: string, i: nat, name: string, v: Value)
    requires MoreMembers(t, i, name, v).Some?
    ensures !IsNumberChar(At(t, i))
    ensures var ms := MoreMembers(t, i, name, v).value.0; ms.Member? && ms.name == name && ms.value == v
  {
    hide MembersAt;
  }

  /** A member, and what follows it. */
  lemma {:induction false} MemberRun(t: string, m: Machine, name: string, v: Value, rest: Members, s: nat, j1: nat,
                                     j: nat, k: nat)
    returns (n: Machine)
    requires MembersReady(t, m, Member(name, v, rest), k) && m.ptr < s < j1
    requires NameAt(t, m.ptr) == Some((name, s)) && ValueAt(t, s) == Some((v, j1)) && !IsNumberChar(At(t, j1))
    requires MoreMembers(t, j1, name, v) == Some((Member(name, v, rest), j))
    ensures MembersFilled(t, m, n, Member(name, v, rest), j, k)
    decreases |t| - m.ptr, 1
  {
    hide ValidNodes, Chain, Run, MoreMembers, NameAt, ValueAt, Sized, StoreChild, WithName;
    var m2 := NameRun(t, m, name, s);
    PutMember(m.nodes[m.top], name, v, rest, k);
    SizedFrame(m.nodes, m2.nodes, k, m.top, v);
    var m3 := ValueRun(t, m2, v, j1, k);
    n := m;
    if Fits(v) {
      n := NextMemberRun(t, m, m2, m3, name, v, rest, j, k);
    }
  }

  lemma {:induction false} KindWithName(node: Node, ms: Members)
    requires ms.Member? && HasEntries(node, ms)
    ensures WithName(node, ms.name).kind == node.kind == KObject
  {
  }

  lemma {:induction false} MembersReadyNext(a: seq<Node>, b: seq<Node>, top: nat, k: nat, name: string, v: Value,
                                            rest: Members)
    requires top < k && SizedMembers(a, k, top, Member(name, v, rest)) && HasEntries(a[top], Member(name, v, rest))
    requires Keeps(a, b, top, k, k + Size(v))
    requires var named := WithName(a[top], name); StoreChild(named, k).Some? && b[top] == WithChild(named, k)
    ensures SizedMembers(b, k + Size(v), top, rest) && HasEntries(b[top], rest)
    ensures MembersSize(Member(name, v, rest)) == Size(v) + MembersSize(rest) <= |a| - k
  {
    hide StoreChild, Sized, SizedMembers, WithName, Size, MembersSize, MemberCount, NameBytes, WithChild, HasEntries;
    SizedMembersCons(a, k, top, name, v, rest);
    SizedBounds(a, k + Size(v), top);
    assert HasEntries(b[top], rest) by { PutMember(a[top], name, v, rest, k); }
    forall i | k + Size(v) <= i < k + Size(v) + MembersSize(rest) ensures a[i] == b[i] {
    }
    SizedMembersFrame(a, b, k + Size(v), top, rest);
  }

  lemma {:induction false} MembersJoin(a: seq<Node>, b: seq<Node>, c: seq<Node>, top: nat, k: nat, name: string,
                                       v: Value, rest: Members)
    requires top < k && k + MembersSize(Member(name, v, rest)) <= |a| && HasEntries(a[top], Member(name, v, rest))
    requires Keeps(a, b, top, k, k + Size(v)) && Built(b, k, top, v)
    requires var named := WithName(a[top], name); StoreChild(named, k).Some? && b[top] == WithChild(named, k)
    requires Keeps(b, c, top, k + Size(v), k + Size(v) + MembersSize(rest))
    requires c[top] == PutMembers(b[top], rest, k + Size(v))
    requires BuiltMembers(c, k + Size(v), top, rest)
    ensures var ms := Member(name, v, rest);
            Keeps(a, c, top, k, k + MembersSize(ms)) && c[top] == PutMembers(a[top], ms, k)
            && BuiltMembers(c, k, top, ms)
  {
    hide StoreChild, Built, PutMembers, HasEntries, Size, WithChild, WithName, BuiltMembers, MembersSize, Keeps;
    PutMember(a[top], name, v, rest, k);
    MembersSizeCons(name, v, rest);
    KeepsJoin(a, b, c, top, k, k + Size(v), k + Size(v) + MembersSize(rest));
    BuiltKept(b, c, top, k, v, k + Size(v) + MembersSize(rest));
    BuiltMembersCons(c, k, top, name, v, rest);
  }

  lemma {:induction false} NextMemberRun(t: string, m: Machine, m2: Machine, m3: Machine, name: string, v: Value,
                                         rest: Members, j: nat, k: nat)
    returns (n: Machine)
    requires MembersReady(t, m, Member(name, v, rest), k) && m.ptr < m3.ptr && m2.top == m.top && m2.root == m.root
    requires m2.nodes == m.nodes[m.top := WithName(m.nodes[m.top], name)] && Valid(t, m2) && Run(t, m) == Run(t, m2)
    requires Refilling(t, m2, v, m3.ptr, k) && Fits(v) && FilledAt(t, m2, m3, v, m3.ptr, k)
    requires MoreMembers(t, m3.ptr, name, v) == Some((Member(name, v, rest), j))
    ensures MembersFilled(t, m, n, Member(name, v, rest), j, k)
    decreases |t| - m.ptr, 0
  {
    hide ValidNodes, Chain, Run, MembersAt, ValueAt, Sized, SizedMembers, Built, BuiltMembers, StoreChild, WithName;
    hide PutMembers, HasEntries, Size, MembersSize, Fits;
    assert MembersFit(Member(name, v, rest)) <==> MembersFit(rest);
    assert m.nodes[m.top].kind == KObject && m2.nodes[m.top].kind == KObject by {
      KindWithName(m.nodes[m.top], Member(name, v, rest));
    }
    MembersReadyNext(m.nodes, m3.nodes, m.top, k, name, v, rest);
    SkipRun(t, m3);
    var m4 := m3.(ptr := SkipWhitespace(t, m3.ptr));
    n := m4;
    if At(t, m4.ptr) == ',' {
      CommaRun(t, m4);
      var m5 := m4.(flags := OUTSIDE, ptr := m4.ptr + 1);
      n := MembersRun(t, m5, rest, j, k + Size(v));
      if !MembersFit(rest) {
        return;
      }
    } else {
      NoMoreMembers(m3.nodes, m.top, k + Size(v));
    }
    MembersJoin(m.nodes, m3.nodes, n.nodes, m.top, k, name, v, rest);
  }

  lemma {:induction false} NoMoreMembers(nodes: seq<Node>, top: nat, k: nat)
    requires top < |nodes| && k <= |nodes|
    ensures PutMembers(nodes[top], NoMembers, k) == nodes[top] && MembersSize(NoMembers) == 0
    ensures BuiltMembers(nodes, k, top, NoMembers)
  {
  }

  /** The block of an object with too many members is asked for with a wrong size. */
  lemma {:induction false} TooManyEntries(t: string, m: Machine, v: Value, k: nat)
    requires Valid(t, m) && !m.first && m.flags == SEEK_VALUE && At(t, m.ptr) == '{' && m.alloc == k
    requires Sized(m.nodes, k, m.top, v) && v.Object? && MemberCount(v.members) > ENTRY_LIMIT
    ensures Step(t, m) == Fault
  {
    hide ValidNodes, Chain, SizedMembers;
  }

  lemma {:induction false} ObjectRun(t: string, m: Machine, v: Value, j: nat, k: nat) returns (r: Machine)
    requires Refilling(t, m, v, j, k) && At(t, m.ptr) == '{'
    ensures Filled(t, m, r, v, j, k)
    decreases |t| - m.ptr, 0
  {
    hide ValidNodes, Chain, Run, Step, NewValue, StoreChild, MembersAt, SizedMembers, HasEntries, Prepared;
    RunStep(t, m);
    r := m;
    if MemberCount(v.members) > ENTRY_LIMIT {
      TooManyEntries(t, m, v, k);
      return;
    }
    var n := TakeNode(m.(flags := OUTSIDE), v, k, KObject);
    OpenStep(t, m, n);
    var n1 := n.(ptr := m.ptr + 1);
    ChildrenReady(m.nodes, n1.nodes, m.top, v, k);
    var n2 := MembersRun(t, n1, v.members, j, k + 1);
    r := CloseObjectRun(t, m, n1, n2, v, j, k);
  }

  /** The closing brace. */
  lemma {:induction false} CloseObjectRun(t: string, m: Machine, n1: Machine, n2: Machine, v: Value, j: nat, k: nat)
    returns (r: Machine)
    requires Refilling(t, m, v, j, k) && v.Object? && MemberCount(v.members) <= ENTRY_LIMIT
    requires Valid(t, n1) && n1.top == k && Run(t, m) == Run(t, n1)
    requires n1.nodes == m.nodes[k := Prepared(CountedNode(v, m.top))] && n1.root == (if m.root < 0 then k else m.root)
    requires MembersFilled(t, n1, n2, v.members, j, k + 1) && j <= |t| && t[j - 1] == '}'
    ensures Filled(t, m, r, v, j, k)
  {
    hide ValidNodes, Chain, Run, Step, Finish, StoreChild, ValueAt, PutItems, PutMembers, Prepared;
    r := m;
    if MembersFit(v.members) {
      WholeContainer(v, m.top, k);
      RunStep(t, n2);
      CloseStep(t, n2);
      var n3 := n2.(flags := OUTSIDE);
      r := FinishRun(t, m, n3, v, j, k);
    }
  }

  // ----- the whole second pass -----

  /**
   Over the counts of the first pass, the second accepts and fills every block of the value, if and
   only if the entries of every object fit; otherwise it asks for a block of a wrong size.
   */
  lemma {:induction false} SecondPass(t: string, v: Value, m: Machine)
    requires Text(t) == Some(v) && ValidNodes(m.nodes) && m.links == Chain(|m.nodes|)
    requires |m.nodes| == Size(v) && Sized(m.nodes, 0, -1, v)
    requires m == Start(false, TextStart(t), m.nodes, m.links, 0)
                  .(numDigits := m.numDigits, numFraction := m.numFraction, numE := m.numE)
    ensures Valid(t, m) && if Fits(v) then Run(t, m).Accept? else Run(t, m).Fault?
    ensures Fits(v) ==>
              var n := Run(t, m).m;
              |n.nodes| == Size(v) && Built(n.nodes, 0, -1, v) && Linked(n) && n.root == 0 && n.alloc == -1
  {
    hide Run, ValidNodes, ValueAt, Sized, Built;
    SkipRun(t, m);
    var m1 := m.(ptr := SkipWhitespace(t, m.ptr));
    var j := ValueAt(t, m1.ptr).value.1;
    assert !IsNumberChar(At(t, j));
    var m2 := ValueRun(t, m1, v, j, 0);
    if Fits(v) {
      SkipRun(t, m2);
      RunStep(t, m2.(ptr := SkipWhitespace(t, m2.ptr)));
    }
  }
}
