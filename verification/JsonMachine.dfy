/**
 The flag-driven character machine of `json_parse_ex`, run twice over the text.  The first pass
 makes the nodes and counts; the second takes the same nodes from the `next_alloc` chain,
 allocates a block for each from its counts, and fills the blocks.

 Nodes live in an arena in the order they were allocated and refer to each other by index; -1 is
 the null pointer.  `Fault` stands for a step that leaves its object: popping a null node, popping
 a node of another kind than the token needs, storing outside a block, or asking for an object block
 of another size than its counts.
 */
module JsonMachine {
  import opened Wrappers
  import opened JsonText

  // ----- memory -----

  datatype Kind = KObject | KArray | KInteger | KDouble | KString | KBoolean | KNull

  /** A byte of a block that may not have been written yet. */
  datatype Cell = Raw | Byte(b: char)

  /** An entry of an object block: where its name starts in the name region, its length, its value. */
  datatype Entry = Entry(name: int, nameLength: int, value: int)

  const UNSET := Entry(-1, -1, -1)

  datatype Block =
    | NoBlock
    | Chars(cells: seq<Cell>)
    | Pointers(pointers: seq<int>)
    | Entries(entries: seq<Entry>, names: seq<Cell>)

  datatype Node = Node(
    kind: Kind,
    parent: int,
    length: nat,
    nameBytes: nat,   // first pass only: bytes the names of this object need
    objectMem: nat,   // second pass only: where the next name of this object goes
    number: Number,
    truth: bool,
    block: Block)

  /** A zeroed node as the first pass allocates it. */
  function NewNode(kind: Kind, parent: int): Node {
    Node(kind, parent, 0, 0, 0, Integer(0), false, NoBlock)
  }

  predicate IsContainer(kind: Kind) {
    kind == KArray || kind == KObject
  }

  predicate IsNumeric(kind: Kind) {
    kind == KInteger || kind == KDouble
  }

  // ----- state -----

  datatype Flags = Flags(needComma: bool, seekValue: bool, escaped: bool, inString: bool, needColon: bool, done: bool)

  datatype NumberFlags = NumberFlags(negative: bool, zero: bool, e: bool, eGotSign: bool, eNegative: bool)

  const SEEK_VALUE := Flags(false, true, false, false, false, false)
  const NO_NUMBER := NumberFlags(false, false, false, false, false)

  datatype Machine = Machine(
    first: bool,
    ptr: nat,
    flags: Flags,
    numberFlags: NumberFlags,
    nodes: seq<Node>,
    links: seq<int>,    // links[i] is the next_alloc field of node i
    root: int,
    top: int,
    alloc: int,         // the last node made (first pass), the next node to take (second pass)
    stringLength: nat,
    numDigits: nat,
    numFraction: int,
    numE: int)

  datatype Outcome = Next(m: Machine) | Accept(m: Machine) | Reject(m: Machine) | Fault

  /** The `next_alloc` fields of `n` nodes linked in allocation order. */
  function Chain(n: nat): (links: seq<int>)
    ensures |links| == n
  {
    seq(n, i => if i + 1 < n then i + 1 else -1)
  }

  ghost predicate ValidNodes(nodes: seq<Node>) {
    && (forall i {:trigger nodes[i].parent} :: 0 <= i < |nodes| ==>
         -1 <= nodes[i].parent < i && (nodes[i].parent >= 0 ==> IsContainer(nodes[nodes[i].parent].kind)))
    && (forall i {:trigger nodes[i].number} :: 0 <= i < |nodes| ==>
         (nodes[i].kind == KInteger ==> nodes[i].number.Integer?)
         && (nodes[i].kind == KDouble ==> nodes[i].number.Double?))
  }

  /** The arena is well formed and chained in allocation order. */
  ghost predicate Linked(m: Machine) {
    && ValidNodes(m.nodes)
    && m.links == Chain(|m.nodes|)
    && -1 <= m.top < |m.nodes|
    && -1 <= m.alloc < |m.nodes|
    && (m.first ==> m.alloc == |m.nodes| - 1 && m.root == if |m.nodes| == 0 then -1 else 0)
  }

  /** What holds of every state the machine passes through. */
  ghost predicate Valid(t: string, m: Machine) {
    && Linked(m)
    && m.ptr <= |t|
    && (m.top == -1 ==> m.flags.seekValue)
    && (m.flags.seekValue ==> !m.flags.inString && !m.flags.done && (m.top >= 0 ==> IsContainer(m.nodes[m.top].kind)))
    && (m.flags.inString ==> !m.flags.done && (m.nodes[m.top].kind == KString || m.nodes[m.top].kind == KObject))
    && (!m.flags.inString && !m.flags.done && !m.flags.seekValue ==>
         m.nodes[m.top].kind == KObject || InNumber(m))
  }

  predicate InNumber(m: Machine)
    requires 0 <= m.top < |m.nodes|
  {
    && IsNumeric(m.nodes[m.top].kind)
    && !m.flags.needComma
    && (m.numberFlags.e ==> m.nodes[m.top].kind == KDouble)
  }

  /** Orders the states at one position: reading a number start, inside a number, after it. */
  function Phase(m: Machine): nat {
    if m.flags.needComma || m.flags.done || m.flags.inString then 0
    else if m.flags.seekValue then 2
    else 1
  }

  ghost predicate Good(t: string, m: Machine, o: Outcome) {
    match o
    case Next(n) => Valid(t, n) && n.first == m.first && (n.ptr > m.ptr || (n.ptr == m.ptr && Phase(n) < Phase(m)))
    case Accept(n) => Valid(t, n) && n.first == m.first
    case Reject(n) => Linked(n) && n.first == m.first
    case Fault => !m.first
  }

  // ----- new_value -----

  /** The bytes of an object entry: a name pointer, a padded length and a value pointer. */
  const ENTRY_BYTES: nat := 24

  /** The most entries whose bytes fit an int. */
  const ENTRY_LIMIT: nat := 89_478_485

  /** The conversion of an unsigned size to a 32-bit int. */
  function AsInt(n: nat): int {
    var m := n % 0x1_0000_0000;
    if m < 0x8000_0000 then m else m - 0x1_0000_0000
  }

  /** `values_size`: the bytes of the entries of an object, computed in an int. */
  function ValuesSize(node: Node): int {
    AsInt(ENTRY_BYTES * node.length)
  }

  /** Is the block that `new_value` asks for as big as the counts of the node need it? */
  predicate BlockFits(node: Node) {
    node.kind == KObject ==> node.length <= ENTRY_LIMIT
  }

  /** It is exactly when the int holds the bytes of the entries. */
  lemma {:induction false} BlockFitsExactly(node: Node)
    ensures BlockFits(node) <==> (node.kind == KObject ==> ValuesSize(node) == ENTRY_BYTES * node.length)
  {
  }

  /** The block `new_value` allocates in the second pass, from the counts of the first. */
  function SizedBlock(node: Node): Block {
    match node.kind
    case KArray => if node.length == 0 then node.block else Pointers(seq(node.length, _ => -1))
    case KObject =>
      if node.length == 0 then node.block
      else Entries(seq(node.length, _ => UNSET), seq(node.nameBytes, _ => Raw))
    case KString => Chars(seq(node.length + 1, _ => Raw))
    case _ => node.block
  }

  /** The node as `new_value` leaves it in the second pass. */
  function Prepared(node: Node): Node {
    if IsContainer(node.kind) || node.kind == KString
    then node.(block := SizedBlock(node), length := 0)
    else node
  }

  /** May a token that needs a node of kind `kind` use a node made with kind `made`? */
  predicate Suits(kind: Kind, made: Kind) {
    kind == made || (kind == KInteger && made == KDouble)
  }

  /** `new_value`: None when the second pass cannot take a suitable node. */
  function NewValue(m: Machine, kind: Kind): (r: Option<Machine>)
    requires |m.links| == |m.nodes| && -1 <= m.alloc < |m.nodes|
    ensures m.first ==> r.Some?
  {
    if m.first then
      var n := |m.nodes|;
      Some(m.(nodes := m.nodes + [NewNode(kind, m.top)],
              links := (if m.alloc >= 0 then m.links[m.alloc := n] else m.links) + [-1],
              root := if m.root < 0 then n else m.root,
              top := n, alloc := n))
    else if m.alloc < 0 || !Suits(kind, m.nodes[m.alloc].kind) || !BlockFits(m.nodes[m.alloc]) then None
    else
      Some(m.(nodes := m.nodes[m.alloc := Prepared(m.nodes[m.alloc])],
              root := if m.root < 0 then m.alloc else m.root,
              top := m.alloc, alloc := m.links[m.alloc]))
  }

  // ----- strings -----

  /** `string[string_length] = b`, where `string` is the block of a string or the next name of an object. */
  function StoreChar(node: Node, offset: nat, b: char): Option<Node> {
    match node.block
    case Chars(cells) =>
      if offset < |cells| then Some(node.(block := Chars(cells[offset := Byte(b)]))) else None
    case Entries(entries, names) =>
      var at := node.objectMem + offset;
      if at < |names| then Some(node.(block := Entries(entries, names[at := Byte(b)]))) else None
    case _ => None
  }

  function StoreChars(node: Node, offset: nat, bytes: string): Option<Node>
    decreases |bytes|
  {
    if bytes == "" then Some(node)
    else match StoreChar(node, offset, bytes[0])
      case None => None
      case Some(node') => StoreChars(node', offset + 1, bytes[1..])
  }

  /** Counts the bytes, and stores them in the second pass. */
  function AddBytes(m: Machine, bytes: string): Option<Machine>
    requires 0 <= m.top < |m.nodes|
  {
    if m.first then Some(m.(stringLength := m.stringLength + |bytes|))
    else match StoreChars(m.nodes[m.top], m.stringLength, bytes)
      case None => None
      case Some(node) => Some(m.(nodes := m.nodes[m.top := node], stringLength := m.stringLength + |bytes|))
  }

  /** `\uXXXX`, read from the `u` at `i` with the length checks made before looking ahead. */
  function ReadUnicodeEscape(t: string, i: nat): Option<(string, nat)>
    requires i < |t|
  {
    if |t| - i < 4 then None
    else match Hex4(t, i + 1)
      case None => None
      case Some(u) =>
        if !IsSurrogate(u) then Some((EncodeCodePoint(u), i + 5))
        else if |t| - (i + 4) < 6 || At(t, i + 5) != '\\' || At(t, i + 6) != 'u' then None
        else match Hex4(t, i + 7)
          case None => None
          case Some(u2) => Some((EncodeCodePoint(CombineSurrogates(u, u2)), i + 11))
  }

  /** The character after a backslash: the bytes it stands for and the position after it. */
  function ReadEscape(t: string, i: nat): (r: Option<(string, nat)>)
    requires i < |t|
    ensures r.Some? ==> i < r.value.1 <= |t|
  {
    match At(t, i)
    case 'b' => Some(([8 as char], i + 1))
    case 'f' => Some(([12 as char], i + 1))
    case 'n' => Some(("\n", i + 1))
    case 'r' => Some(("\r", i + 1))
    case 't' => Some(("\t", i + 1))
    case 'u' => ReadUnicodeEscape(t, i)
    case c => Some(([c], i + 1))
  }

  function AddAndGo(m: Machine, bytes: string, next: nat): Outcome
    requires 0 <= m.top < |m.nodes|
  {
    match AddBytes(m, bytes)
    case None => Fault
    case Some(m') => Next(m'.(ptr := next))
  }

  /** The closing quote. */
  function CloseString(t: string, m: Machine): Outcome
    requires Valid(t, m) && m.flags.inString && m.ptr < |t|
  {
    match (if m.first then Some(m.nodes[m.top]) else StoreChar(m.nodes[m.top], m.stringLength, '\0'))
    case None => Fault
    case Some(node) =>
      if node.kind == KString then
        Finish(m.(flags := m.flags.(inString := false), nodes := m.nodes[m.top := node.(length := m.stringLength)]),
               m.ptr + 1)
      else
        match (if m.first then Some(node.(nameBytes := node.nameBytes + m.stringLength + 1))
               else EndName(node, m.stringLength))
        case None => Fault
        case Some(node') =>
          Next(m.(flags := m.flags.(inString := false, seekValue := true, needColon := true),
                  nodes := m.nodes[m.top := node'], ptr := m.ptr + 1))
  }

  /** Records the name just stored in the next entry of the object. */
  function EndName(node: Node, length: nat): Option<Node> {
    if node.block.Entries? && node.length < |node.block.entries| then
      var e := node.block.entries[node.length].(name := node.objectMem, nameLength := length);
      Some(node.(block := node.block.(entries := node.block.entries[node.length := e]),
                 objectMem := node.objectMem + length + 1))
    else None
  }

  function StringStep(t: string, m: Machine): Outcome
    requires Valid(t, m) && m.flags.inString
  {
    var b := At(t, m.ptr);
    if b == '\0' || m.stringLength > UINT_LIMIT then Reject(m)
    else if m.flags.escaped then
      var m' := m.(flags := m.flags.(escaped := false));
      match ReadEscape(t, m.ptr)
      case None => Reject(m')
      case Some((bytes, next)) => AddAndGo(m', bytes, next)
    else if b == '\\' then Next(m.(flags := m.flags.(escaped := true), ptr := m.ptr + 1))
    else if b == '"' then CloseString(t, m)
    else AddAndGo(m, [b], m.ptr + 1)
  }

  // ----- end of a value -----

  /** Stores `child` as the next child of a container, in the second pass. */
  function StoreChild(parent: Node, child: int): Option<Node> {
    match parent.block
    case Pointers(pointers) =>
      if parent.kind == KArray && parent.length < |pointers|
      then Some(parent.(block := Pointers(pointers[parent.length := child]))) else None
    case Entries(entries, names) =>
      if parent.kind == KObject && parent.length < |entries|
      then Some(parent.(block := Entries(entries[parent.length := entries[parent.length].(value := child)], names)))
        else None
    case _ => None
  }

  /** `flag_next`: the value at the top is complete, and `next` is the next position to read. */
  function Finish(m: Machine, next: nat): Outcome
    requires 0 <= m.top < |m.nodes| && -1 <= m.nodes[m.top].parent < m.top
  {
    var p := m.nodes[m.top].parent;
    var f := m.flags.(needComma := true);
    if p < 0 then Next(m.(flags := f.(done := true), ptr := next))
    else
      var f' := if m.nodes[p].kind == KArray then f.(seekValue := true) else f;
      match (if m.first then Some(m.nodes[p]) else StoreChild(m.nodes[p], m.top))
      case None => Fault
      case Some(parent) =>
        var m' := m.(flags := f', nodes := m.nodes[p := parent.(length := parent.length + 1)]);
        if parent.length + 1 > UINT_LIMIT then Reject(m') else Next(m'.(top := p, ptr := next))
  }

  // ----- seeking a value -----

  function NewAndFinish(m: Machine, kind: Kind, truth: bool, next: nat): Outcome
    requires ValidNodes(m.nodes) && |m.links| == |m.nodes|
    requires -1 <= m.alloc < |m.nodes| && -1 <= m.top < |m.nodes|
  {
    match NewValue(m, kind)
    case None => Fault
    case Some(m') =>
      Finish(if truth then m'.(nodes := m'.nodes[m'.top := m'.nodes[m'.top].(truth := true)]) else m', next)
  }

  /** Past every character that can occur in a number. */
  function SkipNumberChars(t: string, i: nat): (j: nat)
    ensures i <= j && (i <= |t| ==> j <= |t|)
    decreases |t| - i
  {
    if i < |t| && IsNumberChar(t[i]) then SkipNumberChars(t, i + 1) else i
  }

  function SeekStep(t: string, m: Machine): Outcome
    requires Valid(t, m) && m.flags.seekValue && !m.flags.inString && !m.flags.done
  {
    var b := At(t, m.ptr);
    if IsWhitespace(b) then Next(m.(ptr := m.ptr + 1))
    else if b == ']' then
      if m.top >= 0 && m.nodes[m.top].kind == KArray
      then Finish(m.(flags := m.flags.(needComma := false, seekValue := false)), m.ptr + 1)
      else Reject(m)
    else if m.flags.needComma then
      if b == ',' then Next(m.(flags := m.flags.(needComma := false), ptr := m.ptr + 1)) else Reject(m)
    else if m.flags.needColon then
      if b == ':' then Next(m.(flags := m.flags.(needColon := false), ptr := m.ptr + 1)) else Reject(m)
    else
      StartValue(t, m.(flags := m.flags.(seekValue := false)), b)
  }

  predicate Matches(t: string, i: nat, rest: string) {
    i + |rest| <= |t| && t[i..i + |rest|] == rest
  }

  /** The first character of a value, with `seekValue` already cleared. */
  function StartValue(t: string, m: Machine, b: char): Outcome
    requires ValidNodes(m.nodes) && |m.links| == |m.nodes|
    requires -1 <= m.alloc < |m.nodes| && -1 <= m.top < |m.nodes|
  {
    var next := m.ptr + 1;
    if b == '{' then
      match NewValue(m, KObject)
      case None => Fault
      case Some(m') => Next(m'.(ptr := next))
    else if b == '[' then
      match NewValue(m, KArray)
      case None => Fault
      case Some(m') => Next(m'.(flags := m.flags.(seekValue := true), ptr := next))
    else if b == '"' then
      match NewValue(m, KString)
      case None => Fault
      case Some(m') => Next(m'.(flags := m.flags.(inString := true), stringLength := 0, ptr := next))
    else if b == 't' then
      if Matches(t, next, "rue") then NewAndFinish(m, KBoolean, true, m.ptr + 4) else Reject(m)
    else if b == 'f' then
      if Matches(t, next, "alse") then NewAndFinish(m, KBoolean, false, m.ptr + 5) else Reject(m)
    else if b == 'n' then
      if Matches(t, next, "ull") then NewAndFinish(m, KNull, false, m.ptr + 4) else Reject(m)
    else if IsDigit(b) || b == '-' then
      if m.first then StartNumber(m, b)
      else NewAndFinish(m, KInteger, false, SkipNumberChars(t, m.ptr))
    else Reject(m)
  }

  /** The first pass re-reads a leading digit inside the number, and consumes a leading minus. */
  function StartNumber(m: Machine, b: char): Outcome
    requires m.first && |m.links| == |m.nodes| && -1 <= m.alloc < |m.nodes|
  {
    var m' := NewValue(m, KInteger).value;
    Next(m'.(numberFlags := NO_NUMBER.(negative := b == '-'), numDigits := 0, numFraction := 0, numE := 0,
             ptr := if b == '-' then m.ptr + 1 else m.ptr))
  }

  // ----- inside an object -----

  function ObjectStep(t: string, m: Machine): Outcome
    requires Valid(t, m) && m.top >= 0
  {
    var b := At(t, m.ptr);
    if IsWhitespace(b) then Next(m.(ptr := m.ptr + 1))
    else if b == '"' && !m.flags.needComma then
      Next(m.(flags := m.flags.(inString := true), stringLength := 0, ptr := m.ptr + 1))
    else if b == '}' then Finish(m.(flags := m.flags.(needComma := false)), m.ptr + 1)
    else if b == ',' && m.flags.needComma then Next(m.(flags := m.flags.(needComma := false), ptr := m.ptr + 1))
    else Reject(m)
  }

  // ----- inside a number -----

  function SetTop(m: Machine, kind: Kind, n: Number): Machine
    requires 0 <= m.top < |m.nodes|
  {
    m.(nodes := m.nodes[m.top := m.nodes[m.top].(kind := kind, number := n)])
  }

  function ExponentOf(m: Machine): int {
    if m.numberFlags.eNegative then -m.numE else m.numE
  }

  function DigitStep(m: Machine, b: char): Outcome
    requires IsDigit(b) && 0 <= m.top < |m.nodes|
    requires m.nodes[m.top].kind == KInteger ==> m.nodes[m.top].number.Integer?
  {
    var d := DigitValue(b);
    var m1 := m.(numDigits := m.numDigits + 1, ptr := m.ptr + 1);
    if m.numberFlags.e then
      Next(m1.(numberFlags := m.numberFlags.(eGotSign := true), numE := m.numE * 10 + d))
    else if m.nodes[m.top].kind == KInteger then
      if m.numberFlags.zero then Reject(m)
      else
        var m2 := SetTop(m1, KInteger, Integer(m.nodes[m.top].number.n * 10 + d));
        Next(m2.(numberFlags := m.numberFlags.(zero := m1.numDigits == 1 && b == '0')))
    else Next(m1.(numFraction := m.numFraction * 10 + d))
  }

  function NumberStep(t: string, m: Machine): Outcome
    requires Valid(t, m) && m.top >= 0 && IsNumeric(m.nodes[m.top].kind)
  {
    var b := At(t, m.ptr);
    var node := m.nodes[m.top];
    if IsDigit(b) then DigitStep(m, b)
    else if (b == '+' || b == '-') && m.numberFlags.e && !m.numberFlags.eGotSign then
      Next(m.(numberFlags := m.numberFlags.(eGotSign := true, eNegative := m.numberFlags.eNegative || b == '-'),
              ptr := m.ptr + 1))
    else if b == '.' && node.kind == KInteger then
      if m.numDigits == 0 then Reject(m)
      else Next(SetTop(m, KDouble, Double(AsReal(node.number))).(numDigits := 0, ptr := m.ptr + 1))
    else if m.numberFlags.e then
      if m.numDigits == 0 then Reject(m)
      else
        EndNumber(m, node.kind, Double(TimesPow10(AsReal(node.number), ExponentOf(m))))
    else if node.kind == KDouble && m.numDigits == 0 then Reject(m)
    else
      var n := if node.kind == KDouble
               then Double(PlusFraction(AsReal(node.number), m.numFraction, m.numDigits)) else node.number;
      if b == 'e' || b == 'E' then
        Next(SetTop(m, KDouble, Double(AsReal(n)))
             .(numberFlags := m.numberFlags.(e := true, zero := false), numDigits := 0, ptr := m.ptr + 1))
      else EndNumber(m, node.kind, n)
  }

  /** The character after a number: store the value and re-read the character outside the number. */
  function EndNumber(m: Machine, kind: Kind, n: Number): Outcome
    requires 0 <= m.top < |m.nodes| && -1 <= m.nodes[m.top].parent < m.top
  {
    var value := Negated(m.numberFlags.negative, n);
    Finish(SetTop(m, kind, value), m.ptr)
  }

  // ----- one iteration, and the whole pass -----

  function Step(t: string, m: Machine): Outcome
    requires Valid(t, m)
  {
    if m.flags.inString then StringStep(t, m)
    else if m.flags.done then
      if At(t, m.ptr) == '\0' then Accept(m)
      else if IsWhitespace(At(t, m.ptr)) then Next(m.(ptr := m.ptr + 1))
      else Reject(m)
    else if m.flags.seekValue then SeekStep(t, m)
    else if m.nodes[m.top].kind == KObject then ObjectStep(t, m)
    else NumberStep(t, m)
  }

  // ----- every step keeps the state valid and makes progress -----

  lemma {:induction false} ChainGrows(n: nat)
    ensures Chain(n + 1) == (if n > 0 then Chain(n)[n - 1 := n] else Chain(n)) + [-1]
  {
  }

  lemma {:induction false} NewValueGood(m: Machine, kind: Kind)
    requires Linked(m) && kind != KDouble
    requires m.top >= 0 ==> IsContainer(m.nodes[m.top].kind)
    ensures match NewValue(m, kind)
            case None => !m.first
            case Some(n) =>
              && n == m.(nodes := n.nodes, links := n.links, root := n.root, top := n.top, alloc := n.alloc)
              && Linked(n) && n.top >= 0 && Suits(kind, n.nodes[n.top].kind)
              && (m.first ==> n.nodes[n.top] == NewNode(kind, m.top))
  {
    hide BlockFits;
    if m.first {
      ChainGrows(|m.nodes|);
    }
  }

  predicate SameShape(a: Node, b: Node) {
    a.kind == b.kind && a.parent == b.parent && a.number == b.number && a.length == b.length
  }

  lemma {:induction false} StoreCharsShape(node: Node, offset: nat, bytes: string)
    ensures var r := StoreChars(node, offset, bytes); r.Some? ==> SameShape(node, r.value)
    decreases |bytes|
  {
    if bytes != "" && StoreChar(node, offset, bytes[0]).Some? {
      StoreCharsShape(StoreChar(node, offset, bytes[0]).value, offset + 1, bytes[1..]);
    }
  }

  lemma {:induction false} NodeFacts(nodes: seq<Node>, i: nat)
    requires ValidNodes(nodes) && i < |nodes|
    ensures -1 <= nodes[i].parent < i
    ensures nodes[i].parent >= 0 ==> IsContainer(nodes[nodes[i].parent].kind)
    ensures nodes[i].kind == KInteger ==> nodes[i].number.Integer?
    ensures nodes[i].kind == KDouble ==> nodes[i].number.Double?
  {
  }

  lemma {:induction false} UpdateKeepsNodes(nodes: seq<Node>, i: nat, node: Node)
    requires ValidNodes(nodes) && i < |nodes|
    requires node.parent == nodes[i].parent
    requires node.kind == nodes[i].kind || (IsNumeric(node.kind) && IsNumeric(nodes[i].kind))
    requires (node.kind == KInteger ==> node.number.Integer?) && (node.kind == KDouble ==> node.number.Double?)
    ensures ValidNodes(nodes[i := node])
  {
  }

  lemma {:induction false} FinishGood(t: string, m: Machine, next: nat)
    requires Linked(m) && m.top >= 0 && next <= |t|
    requires !m.flags.inString && !m.flags.seekValue && !m.flags.done
    ensures match Finish(m, next)
            case Next(n) => Valid(t, n) && n.first == m.first && n.ptr == next && Phase(n) == 0
            case Reject(n) => Linked(n) && n.first == m.first
            case Accept(_) => false
            case Fault => !m.first
  {
    var p := m.nodes[m.top].parent;
    if p >= 0 {
      var stored := if m.first then Some(m.nodes[p]) else StoreChild(m.nodes[p], m.top);
      if stored.Some? {
        UpdateKeepsNodes(m.nodes, p, stored.value.(length := stored.value.length + 1));
      }
    }
  }

  lemma {:induction false} AddAndGoGood(t: string, m: Machine, bytes: string, next: nat)
    requires Valid(t, m) && m.flags.inString && m.ptr < next <= |t|
    ensures Good(t, m, AddAndGo(m.(flags := m.flags.(escaped := false)), bytes, next))
  {
    hide ValidNodes, Chain;
    StoreCharsShape(m.nodes[m.top], m.stringLength, bytes);
    var stored := StoreChars(m.nodes[m.top], m.stringLength, bytes);
    if stored.Some? {
      UpdateKeepsNodes(m.nodes, m.top, stored.value);
    }
  }

  lemma {:induction false} StringStepGood(t: string, m: Machine)
    requires Valid(t, m) && m.flags.inString
    ensures Good(t, m, StringStep(t, m))
  {
    hide ValidNodes, Chain;
    if At(t, m.ptr) == '\0' {
    } else if m.flags.escaped {
      var r := ReadEscape(t, m.ptr);
      if r.Some? {
        AddAndGoGood(t, m, r.value.0, r.value.1);
      }
    } else if At(t, m.ptr) == '"' {
      CloseStringGood(t, m);
    } else {
      AddAndGoGood(t, m, [At(t, m.ptr)], m.ptr + 1);
    }
  }

  lemma {:induction false} CloseStringGood(t: string, m: Machine)
    requires Valid(t, m) && m.flags.inString && m.ptr < |t|
    ensures Good(t, m, CloseString(t, m))
  {
    hide ValidNodes, Chain;
    var stored := if m.first then Some(m.nodes[m.top]) else StoreChar(m.nodes[m.top], m.stringLength, '\0');
    if stored.Some? {
      var node := stored.value;
      NodeFacts(m.nodes, m.top);
      UpdateKeepsNodes(m.nodes, m.top, node.(length := m.stringLength));
      UpdateKeepsNodes(m.nodes, m.top, node.(nameBytes := node.nameBytes + m.stringLength + 1));
      var named := EndName(node, m.stringLength);
      if named.Some? {
        UpdateKeepsNodes(m.nodes, m.top, named.value);
      }
      if node.kind == KString {
        FinishGood(t, m.(flags := m.flags.(inString := false),
                         nodes := m.nodes[m.top := node.(length := m.stringLength)]), m.ptr + 1);
      }
    }
  }

  lemma {:induction false} NewAndFinishGood(t: string, m: Machine, kind: Kind, truth: bool, next: nat)
    requires Linked(m) && kind != KDouble && m.ptr < next <= |t|
    requires m.top >= 0 ==> IsContainer(m.nodes[m.top].kind)
    requires !m.flags.inString && !m.flags.seekValue && !m.flags.done
    ensures Good(t, m, NewAndFinish(m, kind, truth, next))
  {
    hide ValidNodes, Chain, NewValue, Finish;
    NewValueGood(m, kind);
    match NewValue(m, kind)
    case None =>
    case Some(n) =>
      NodeFacts(n.nodes, n.top);
      UpdateKeepsNodes(n.nodes, n.top, n.nodes[n.top].(truth := true));
      FinishGood(t, if truth then n.(nodes := n.nodes[n.top := n.nodes[n.top].(truth := true)]) else n, next);
  }

  /** The first character of a value that makes a node and goes on inside it. */
  lemma {:induction false} StartNodeGood(t: string, m: Machine, kind: Kind)
    requires Valid(t, m) && m.flags.seekValue && !m.flags.needComma
    requires match At(t, m.ptr)
             case '{' => kind == KObject
             case '[' => kind == KArray
             case '"' => kind == KString
             case b => m.first && kind == KInteger && (IsDigit(b) || b == '-')
    ensures Good(t, m, StartValue(t, m.(flags := m.flags.(seekValue := false)), At(t, m.ptr)))
  {
    hide ValidNodes, Chain, Finish, Matches;
    NewValueGood(m.(flags := m.flags.(seekValue := false)), kind);
  }

  lemma {:induction false} StartValueGood(t: string, m: Machine)
    requires Valid(t, m) && m.flags.seekValue && !m.flags.needComma
    ensures Good(t, m, StartValue(t, m.(flags := m.flags.(seekValue := false)), At(t, m.ptr)))
  {
    hide ValidNodes, Chain, NewValue, Finish;
    var b := At(t, m.ptr);
    var m0 := m.(flags := m.flags.(seekValue := false));
    if b == '{' {
      StartNodeGood(t, m, KObject);
    } else if b == '[' {
      StartNodeGood(t, m, KArray);
    } else if b == '"' {
      StartNodeGood(t, m, KString);
    } else if b == 't' && Matches(t, m.ptr + 1, "rue") {
      NewAndFinishGood(t, m0, KBoolean, true, m.ptr + 4);
    } else if b == 'f' && Matches(t, m.ptr + 1, "alse") {
      NewAndFinishGood(t, m0, KBoolean, false, m.ptr + 5);
    } else if b == 'n' && Matches(t, m.ptr + 1, "ull") {
      NewAndFinishGood(t, m0, KNull, false, m.ptr + 4);
    } else if IsDigit(b) || b == '-' {
      if m.first {
        StartNodeGood(t, m, KInteger);
      } else {
        NewAndFinishGood(t, m0, KInteger, false, SkipNumberChars(t, m.ptr));
      }
    }
  }

  lemma {:induction false} SeekStepGood(t: string, m: Machine)
    requires Valid(t, m) && m.flags.seekValue && !m.flags.inString && !m.flags.done
    ensures Good(t, m, SeekStep(t, m))
  {
    hide ValidNodes, Chain, StartValue, Finish;
    var b := At(t, m.ptr);
    if IsWhitespace(b) {
    } else if b == ']' {
      if m.top >= 0 && m.nodes[m.top].kind == KArray {
        FinishGood(t, m.(flags := m.flags.(needComma := false, seekValue := false)), m.ptr + 1);
      }
    } else if !m.flags.needComma && !m.flags.needColon {
      StartValueGood(t, m);
    }
  }

  lemma {:induction false} EndNumberGood(t: string, m: Machine, kind: Kind, n: Number)
    requires Valid(t, m) && m.top >= 0 && InNumber(m) && !m.flags.inString && !m.flags.done && !m.flags.seekValue
    requires (kind == KInteger && n.Integer?) || (kind == KDouble && n.Double?)
    ensures Good(t, m, EndNumber(m, kind, n))
  {
    var value := Negated(m.numberFlags.negative, n);
    UpdateKeepsNodes(m.nodes, m.top, m.nodes[m.top].(kind := kind, number := value));
    FinishGood(t, SetTop(m, kind, value), m.ptr);
  }

  lemma {:induction false} SetTopGood(m: Machine, kind: Kind, n: Number)
    requires Linked(m) && m.top >= 0 && IsNumeric(m.nodes[m.top].kind)
    requires (kind == KInteger && n.Integer?) || (kind == KDouble && n.Double?)
    ensures Linked(SetTop(m, kind, n))
  {
    UpdateKeepsNodes(m.nodes, m.top, m.nodes[m.top].(kind := kind, number := n));
  }

  lemma {:induction false} NumberStepGood(t: string, m: Machine)
    requires Valid(t, m) && m.top >= 0 && InNumber(m)
    requires !m.flags.inString && !m.flags.done && !m.flags.seekValue
    ensures Good(t, m, NumberStep(t, m))
  {
    hide ValidNodes, Chain;
    var b := At(t, m.ptr);
    var node := m.nodes[m.top];
    NodeFacts(m.nodes, m.top);
    if IsDigit(b) {
      if !m.numberFlags.e && node.kind == KInteger {
        SetTopGood(m, KInteger, Integer(node.number.n * 10 + DigitValue(b)));
      }
    } else if m.numberFlags.e {
      EndNumberGood(t, m, KDouble, Double(TimesPow10(AsReal(node.number), ExponentOf(m))));
    } else if b == '.' && node.kind == KInteger {
      SetTopGood(m, KDouble, Double(AsReal(node.number)));
    } else {
      var n := if node.kind == KDouble
               then Double(PlusFraction(AsReal(node.number), m.numFraction, m.numDigits)) else node.number;
      SetTopGood(m, KDouble, Double(AsReal(n)));
      EndNumberGood(t, m, node.kind, n);
    }
  }

  lemma {:induction false} ObjectStepGood(t: string, m: Machine)
    requires Valid(t, m) && m.top >= 0 && m.nodes[m.top].kind == KObject
    requires !m.flags.inString && !m.flags.done && !m.flags.seekValue
    ensures Good(t, m, ObjectStep(t, m))
  {
    hide ValidNodes, Chain, Finish;
    if At(t, m.ptr) == '}' {
      FinishGood(t, m.(flags := m.flags.(needComma := false)), m.ptr + 1);
    }
  }

  lemma {:induction false} StepGood(t: string, m: Machine)
    requires Valid(t, m)
    ensures Good(t, m, Step(t, m))
  {
    hide ValidNodes, Chain, StringStep, SeekStep, ObjectStep, NumberStep;
    if m.flags.inString {
      StringStepGood(t, m);
    } else if m.flags.done {
    } else if m.flags.seekValue {
      SeekStepGood(t, m);
    } else if m.nodes[m.top].kind == KObject {
      ObjectStepGood(t, m);
    } else {
      NumberStepGood(t, m);
    }
  }

  /** Runs a pass to its end. */
  ghost function Run(t: string, m: Machine): (o: Outcome)
    requires Valid(t, m)
    ensures !o.Next?
    decreases |t| - m.ptr, Phase(m)
  {
    StepGood(t, m);
    match Step(t, m)
    case Next(n) => Run(t, n)
    case o => o
  }
}
