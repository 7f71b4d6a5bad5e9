/**
 What a text says, written independently of any reading of it: concrete syntax trees with the
 characters they are spelled with and the values they stand for.  A text has a value in the grammar
 exactly if it is the spelling of a tree with that value.
 */
module JsonSyntax {
  import opened Wrappers
  import opened JsonText
  import opened JsonGrammar

  // ----- trees -----

  type Digit = d: nat | d < 10

  type HexDigit = d: nat | d < 16

  /** A hexadecimal digit, in lower or upper case. */
  datatype Hex = Hex(value: HexDigit, upper: bool)

  datatype Unit = Unit(a: Hex, b: Hex, c: Hex, d: Hex)

  datatype Piece = Raw(c: char) | Escaped(c: char) | Coded(unit: Unit) | Paired(first: Unit, second: Unit)

  datatype Sign = Unsigned | Plus | Minus

  datatype Power = Power(mark: char, sign: Sign, digits: seq<Digit>)

  datatype Numeral = Numeral(minus: bool, whole: seq<Digit>, fraction: Option<seq<Digit>>, power: Option<Power>)

  datatype Tree =
    | NullWord
    | TrueWord
    | FalseWord
    | NumberTree(numeral: Numeral)
    | StringTree(pieces: seq<Piece>)
    | ArrayTree(elements: Elements)
    | ObjectTree(fields: Fields)

  /** Elements up to the closing bracket, each after some white space; a comma may come before the bracket. */
  datatype Elements = CloseBracket(space: string) | Element(space: string, head: Tree, tail: ElementTail)

  datatype ElementTail = LastElement(space: string) | MoreElements(space: string, elements: Elements)

  datatype Fields =
    | CloseBrace(space: string)
    | Field(space: string, name: seq<Piece>, before: string, after: string, value: Tree, tail: FieldTail)

  datatype FieldTail = LastField(space: string) | MoreFields(space: string, fields: Fields)

  /** A whole text: an optional byte order mark, white space around a tree, and what a NUL cuts off. */
  datatype Document = Document(marked: bool, before: string, tree: Tree, after: string, cut: string)

  // ----- spelling -----

  function DigitsText(ds: seq<Digit>): (s: string)
    ensures |s| == |ds|
  {
    if ds == [] then "" else DigitsText(ds[..|ds| - 1]) + ["0123456789"[ds[|ds| - 1]]]
  }

  function HexText(h: Hex): char {
    (if h.upper then "0123456789ABCDEF" else "0123456789abcdef")[h.value]
  }

  function UnitText(u: Unit): string {
    [HexText(u.a), HexText(u.b), HexText(u.c), HexText(u.d)]
  }

  function PieceText(p: Piece): string {
    match p
    case Raw(c) => [c]
    case Escaped(c) => ['\\', c]
    case Coded(u) => ['\\', 'u'] + UnitText(u)
    case Paired(u, v) => ['\\', 'u'] + UnitText(u) + ['\\', 'u'] + UnitText(v)
  }

  function PiecesText(ps: seq<Piece>): string {
    if ps == [] then "\"" else PieceText(ps[0]) + PiecesText(ps[1..])
  }

  function SignText(s: Sign): string {
    match s
    case Unsigned => ""
    case Plus => "+"
    case Minus => "-"
  }

  function PowerText(p: Option<Power>): string {
    match p
    case None => ""
    case Some(p) => [p.mark] + (SignText(p.sign) + DigitsText(p.digits))
  }

  function FractionText(f: Option<seq<Digit>>): string {
    match f
    case None => ""
    case Some(ds) => "." + DigitsText(ds)
  }

  function NumeralText(n: Numeral): string {
    (if n.minus then "-" else "") + (DigitsText(n.whole) + (FractionText(n.fraction) + PowerText(n.power)))
  }

  function TreeText(tree: Tree): string {
    match tree
    case NullWord => "null"
    case TrueWord => "true"
    case FalseWord => "false"
    case NumberTree(n) => NumeralText(n)
    case StringTree(ps) => "\"" + PiecesText(ps)
    case ArrayTree(es) => "[" + ElementsText(es)
    case ObjectTree(fs) => "{" + FieldsText(fs)
  }

  function ElementsText(es: Elements): string {
    match es
    case CloseBracket(space) => space + "]"
    case Element(space, head, tail) => space + (TreeText(head) + ElementTailText(tail))
  }

  function ElementTailText(tail: ElementTail): string {
    match tail
    case LastElement(space) => space + "]"
    case MoreElements(space, es) => space + ("," + ElementsText(es))
  }

  function FieldsText(fs: Fields): string {
    match fs
    case CloseBrace(space) => space + "}"
    case Field(space, name, before, after, value, tail) =>
      space + ("\"" + (PiecesText(name) + (before + (":" + (after + (TreeText(value) + FieldTailText(tail)))))))
  }

  function FieldTailText(tail: FieldTail): string {
    match tail
    case LastField(space) => space + "}"
    case MoreFields(space, fs) => space + ("," + FieldsText(fs))
  }

  const BYTE_ORDER_MARK: string := [0xEF as char, 0xBB as char, 0xBF as char]

  function DocumentText(d: Document): string {
    (if d.marked then BYTE_ORDER_MARK else "") + (d.before + (TreeText(d.tree) + (d.after + d.cut)))
  }

  // ----- meaning -----

  function Ten(n: nat): (p: nat)
    ensures p > 0
  {
    if n == 0 then 1 else 10 * Ten(n - 1)
  }

  function WholeValue(ds: seq<Digit>): nat {
    if ds == [] then 0 else 10 * WholeValue(ds[..|ds| - 1]) + ds[|ds| - 1]
  }

  /** Each digit after the point counts for the power of ten of its place. */
  function FractionValue(ds: seq<Digit>): real {
    if ds == [] then 0.0
    else FractionValue(ds[..|ds| - 1]) + ds[|ds| - 1] as real / Ten(|ds|) as real
  }

  function Scaled(r: real, p: Power): real {
    var ten := Ten(WholeValue(p.digits)) as real;
    if p.sign == Minus then r / ten else r * ten
  }

  function NumeralValue(n: Numeral): Number {
    var whole: int := WholeValue(n.whole);
    if n.fraction == None && n.power == None then Integer(if n.minus then -whole else whole)
    else
      var r := whole as real + if n.fraction.Some? then FractionValue(n.fraction.value) else 0.0;
      var scaled := if n.power.Some? then Scaled(r, n.power.value) else r;
      Double(if n.minus then -scaled else scaled)
  }

  function UnitValue(u: Unit): (n: nat)
    ensures n < 0x1_0000
  {
    u.a.value * 0x1000 + u.b.value * 0x100 + u.c.value * 0x10 + u.d.value
  }

  const ESCAPES := "bfnrt"
  const ESCAPED_BYTES: seq<nat> := [8, 12, 10, 13, 9]

  function EscapedByte(c: char): char {
    if c == ESCAPES[0] then ESCAPED_BYTES[0] as char
    else if c == ESCAPES[1] then ESCAPED_BYTES[1] as char
    else if c == ESCAPES[2] then ESCAPED_BYTES[2] as char
    else if c == ESCAPES[3] then ESCAPED_BYTES[3] as char
    else if c == ESCAPES[4] then ESCAPED_BYTES[4] as char
    else c
  }

  function PieceBytes(p: Piece): string {
    match p
    case Raw(c) => [c]
    case Escaped(c) => [EscapedByte(c)]
    case Coded(u) => EncodeCodePoint(UnitValue(u))
    case Paired(u, v) => EncodeCodePoint(CombineSurrogates(UnitValue(u), UnitValue(v)))
  }

  function PiecesBytes(ps: seq<Piece>): string {
    if ps == [] then "" else PieceBytes(ps[0]) + PiecesBytes(ps[1..])
  }

  function TreeValue(tree: Tree): Value {
    match tree
    case NullWord => Null
    case TrueWord => Boolean(true)
    case FalseWord => Boolean(false)
    case NumberTree(n) => Numeric(NumeralValue(n))
    case StringTree(ps) => String(PiecesBytes(ps))
    case ArrayTree(es) => Array(ElementsValue(es))
    case ObjectTree(fs) => Object(FieldsValue(fs))
  }

  function ElementsValue(es: Elements): Items {
    match es
    case CloseBracket(_) => NoItems
    case Element(_, head, tail) => Item(TreeValue(head), ElementTailValue(tail))
  }

  function ElementTailValue(tail: ElementTail): Items {
    match tail
    case LastElement(_) => NoItems
    case MoreElements(_, es) => ElementsValue(es)
  }

  function FieldsValue(fs: Fields): Members {
    match fs
    case CloseBrace(_) => NoMembers
    case Field(_, name, _, _, value, tail) => Member(PiecesBytes(name), TreeValue(value), FieldTailValue(tail))
  }

  function FieldTailValue(tail: FieldTail): Members {
    match tail
    case LastField(_) => NoMembers
    case MoreFields(_, fs) => FieldsValue(fs)
  }

  // ----- which trees are meant -----

  predicate Space(s: string) {
    forall k :: 0 <= k < |s| ==> s[k] in " \t\r\n"
  }

  predicate GoodNumeral(n: Numeral) {
    && (|n.whole| >= 2 ==> n.whole[0] != 0) && (n.whole == [] ==> n.minus && n.fraction == None)
    && (n.fraction.Some? ==> n.fraction.value != [])
    && (n.power.Some? ==> n.power.value.digits != [] && n.power.value.mark in "eE")
  }

  /** A coded unit is no surrogate; what follows a surrogate is not looked at. */
  predicate GoodPiece(p: Piece) {
    match p
    case Raw(c) => c !in "\"\\\0"
    case Escaped(c) => c !in "u\0"
    case Coded(u) => !(0xD800 <= UnitValue(u) <= 0xDFFF)
    case Paired(u, _) => 0xD800 <= UnitValue(u) <= 0xDFFF
  }

  predicate GoodPieces(ps: seq<Piece>) {
    (forall k :: 0 <= k < |ps| ==> GoodPiece(ps[k])) && |PiecesBytes(ps)| <= 0xFFFF_FFF7
  }

  predicate GoodTree(tree: Tree) {
    match tree
    case NumberTree(n) => GoodNumeral(n)
    case StringTree(ps) => GoodPieces(ps)
    case ArrayTree(es) => GoodElements(es) && ItemCount(ElementsValue(es)) <= 0xFFFF_FFF7
    case ObjectTree(fs) => GoodFields(fs) && MemberCount(FieldsValue(fs)) <= 0xFFFF_FFF7
    case _ => true
  }

  predicate GoodElements(es: Elements) {
    match es
    case CloseBracket(space) => Space(space)
    case Element(space, head, tail) => Space(space) && GoodTree(head) && GoodElementTail(tail)
  }

  predicate GoodElementTail(tail: ElementTail) {
    match tail
    case LastElement(space) => Space(space)
    case MoreElements(space, es) => Space(space) && GoodElements(es)
  }

  predicate GoodFields(fs: Fields) {
    match fs
    case CloseBrace(space) => Space(space)
    case Field(space, name, before, after, value, tail) =>
      && Space(space) && GoodPieces(name) && Space(before) && Space(after) && GoodTree(value)
      && GoodFieldTail(tail)
  }

  predicate GoodFieldTail(tail: FieldTail) {
    match tail
    case LastField(space) => Space(space)
    case MoreFields(space, fs) => Space(space) && GoodFields(fs)
  }

  predicate GoodDocument(d: Document) {
    Space(d.before) && GoodTree(d.tree) && Space(d.after) && (d.cut == "" || d.cut[0] == '\0')
  }

  // ----- spelled at a position -----

  ghost predicate Spelled(t: string, i: nat, s: string) {
    i + |s| <= |t| && forall k :: 0 <= k < |s| ==> t[i + k] == s[k]
  }

  lemma {:induction false} Together(t: string, i: nat, a: string, b: string)
    ensures Spelled(t, i, a + b) <==> Spelled(t, i, a) && Spelled(t, i + |a|, b)
  {
    if Spelled(t, i, a + b) {
      forall k | 0 <= k < |b| ensures t[i + |a| + k] == b[k] {
        assert (a + b)[|a| + k] == b[k];
      }
      forall k | 0 <= k < |a| ensures t[i + k] == a[k] {
        assert (a + b)[k] == a[k];
      }
    }
    if Spelled(t, i, a) && Spelled(t, i + |a|, b) {
      forall k | 0 <= k < |a + b| ensures t[i + k] == (a + b)[k] {
        if k >= |a| {
          assert t[i + |a| + (k - |a|)] == b[k - |a|];
        }
      }
    }
  }

  lemma {:induction false} SpelledAt(t: string, i: nat, s: string, k: nat)
    requires Spelled(t, i, s) && k < |s|
    ensures At(t, i + k) == s[k]
  {
  }

  /** What may follow a value. */
  predicate EndsValue(c: char) {
    c in " \t\r\n,]}\0"
  }

  // ----- from trees to values: numbers -----

  lemma {:induction false} SpaceSkipped(t: string, i: nat, s: string)
    requires Space(s) && Spelled(t, i, s) && At(t, i + |s|) !in " \t\r\n"
    ensures SkipWhitespace(t, i) == i + |s|
    decreases |s|
  {
    if s != "" {
      SpelledAt(t, i, s, 0);
      assert forall k :: 0 <= k < |s[1..]| ==> s[1..][k] == s[k + 1];
      assert Spelled(t, i + 1, s[1..]);
      SpaceSkipped(t, i + 1, s[1..]);
    }
  }

  lemma {:induction false} DigitIs(d: Digit)
    ensures var c := "0123456789"[d]; IsDigit(c) && DigitValue(c) == d
  {
  }

  lemma {:induction false} DigitsRead(t: string, i: nat, ds: seq<Digit>)
    requires Spelled(t, i, DigitsText(ds))
    ensures forall k :: i <= k < i + |ds| ==> IsDigit(At(t, k))
    ensures Decimal(t, i, i + |ds|) == WholeValue(ds)
    decreases |ds|
  {
    if ds != [] {
      var front, last := ds[..|ds| - 1], ds[|ds| - 1];
      Together(t, i, DigitsText(front), ["0123456789"[last]]);
      DigitsRead(t, i, front);
      SpelledAt(t, i + |front|, ["0123456789"[last]], 0);
      DigitIs(last);
    }
  }

  lemma {:induction false} DigitsEndAt(t: string, i: nat, j: nat)
    requires i <= j && (forall k :: i <= k < j ==> IsDigit(At(t, k))) && !IsDigit(At(t, j))
    ensures DigitsEnd(t, i) == j
    decreases j - i
  {
    if i < j {
      DigitsEndAt(t, i + 1, j);
    }
  }

  lemma {:induction false} TenIs(n: nat)
    ensures Ten(n) as real == Pow10(n)
  {
    if n > 0 {
      TenIs(n - 1);
    }
  }

  /** Moving the decimal point to the left divides. */
  lemma {:induction false} DividesByTen(r: real, n: nat)
    ensures TimesPow10(r, 0 - n) == r / Ten(n) as real
  {
    TimesPow10Is(r, 0 - n);
    Pow10Inverse(n);
    TenIs(n);
    Quotient(r, Pow10(n), Pow10(0 - n));
  }

  lemma {:induction false} FractionIs(ds: seq<Digit>)
    ensures WholeValue(ds) as real / Ten(|ds|) as real == FractionValue(ds)
    decreases |ds|
  {
    if ds != [] {
      var front, last := ds[..|ds| - 1], ds[|ds| - 1];
      FractionIs(front);
      Splits(WholeValue(front) as real, last as real, Ten(|front|) as real);
    }
  }

  lemma {:induction false} Splits(a: real, b: real, p: real)
    requires p > 0.0
    ensures (10.0 * a + b) / (10.0 * p) == a / p + b / (10.0 * p)
  {
    var q := a / p;
    assert a == q * p;
    assert (10.0 * a + b) / (10.0 * p) == (q * (10.0 * p) + b) / (10.0 * p);
  }

  lemma {:induction false} FractionRead(t: string, start: nat, n: Numeral)
    requires Spelled(t, start, DigitsText(n.whole)) && GoodNumeral(n)
    requires Spelled(t, start + |n.whole|, FractionText(n.fraction))
    requires !IsDigit(At(t, start + |n.whole| + |FractionText(n.fraction)|))
    requires n.fraction == None ==> At(t, start + |n.whole|) != '.'
    ensures var j := start + |n.whole|;
            && DigitsEnd(t, start) == j
            && Fraction(t, start, j) ==
               Some((if n.fraction == None then Integer(WholeValue(n.whole))
                     else Double(WholeValue(n.whole) as real + FractionValue(n.fraction.value)),
                     j + |FractionText(n.fraction)|))
  {
    var j := start + |n.whole|;
    DigitsRead(t, start, n.whole);
    if n.fraction.Some? {
      var ds := n.fraction.value;
      Together(t, j, ".", DigitsText(ds));
      SpelledAt(t, j, ".", 0);
      DigitsEndAt(t, start, j);
      DigitsRead(t, j + 1, ds);
      DigitsEndAt(t, j + 1, j + 1 + |ds|);
      FractionIs(ds);
      DividesByTen(WholeValue(ds) as real, |ds|);
    } else {
      DigitsEndAt(t, start, j);
    }
  }

  lemma {:induction false} ScaledIs(r: real, p: Power)
    ensures var e: int := WholeValue(p.digits); TimesPow10(r, if p.sign == Minus then -e else e) == Scaled(r, p)
  {
    var e: int := WholeValue(p.digits);
    if p.sign == Minus {
      DividesByTen(r, e);
    } else {
      TimesPow10Is(r, e);
      TenIs(e);
    }
  }

  lemma {:induction false} SignRead(t: string, i: nat, p: Power)
    requires Spelled(t, i, [p.mark] + (SignText(p.sign) + DigitsText(p.digits))) && p.digits != []
    ensures var signed := At(t, i + 1) == '+' || At(t, i + 1) == '-';
            && At(t, i) == p.mark && (signed <==> p.sign != Unsigned)
            && (At(t, i + 1) == '-' <==> p.sign == Minus)
            && Spelled(t, if signed then i + 2 else i + 1, DigitsText(p.digits))
  {
    Together(t, i, [p.mark], SignText(p.sign) + DigitsText(p.digits));
    Together(t, i + 1, SignText(p.sign), DigitsText(p.digits));
    SpelledAt(t, i, [p.mark], 0);
    if p.sign == Unsigned {
      DigitsRead(t, i + 1, p.digits);
      assert IsDigit(At(t, i + 1));
    } else {
      SpelledAt(t, i + 1, SignText(p.sign), 0);
    }
  }

  lemma {:induction false} ExponentRead(t: string, n: Number, i: nat, power: Option<Power>)
    requires Spelled(t, i, PowerText(power)) && !IsDigit(At(t, i + |PowerText(power)|))
    requires power.Some? ==> power.value.digits != [] && power.value.mark in "eE"
    requires power == None ==> At(t, i) !in "eE"
    ensures Exponent(t, n, i) ==
            Some((if power == None then n else Double(Scaled(AsReal(n), power.value)), i + |PowerText(power)|))
  {
    if power.Some? {
      var p := power.value;
      SignRead(t, i, p);
      var start := if p.sign == Unsigned then i + 1 else i + 2;
      DigitsRead(t, start, p.digits);
      DigitsEndAt(t, start, start + |p.digits|);
      ScaledIs(AsReal(n), p);
    }
  }

  /** The next character does not go on with the number. */
  predicate Stops(n: Numeral, c: char) {
    && !IsDigit(c) && (n.power == None ==> c !in "eE")
    && (n.power == None && n.fraction == None ==> c != '.')
  }

  lemma {:induction false} AfterWhole(t: string, j: nat, n: Numeral)
    requires GoodNumeral(n) && Spelled(t, j, FractionText(n.fraction) + PowerText(n.power))
    requires Stops(n, At(t, j + |FractionText(n.fraction) + PowerText(n.power)|))
    ensures var k := j + |FractionText(n.fraction)|;
            && Spelled(t, j, FractionText(n.fraction)) && Spelled(t, k, PowerText(n.power))
            && !IsDigit(At(t, k)) && !IsDigit(At(t, k + |PowerText(n.power)|))
            && (n.fraction == None ==> At(t, j) != '.') && (n.power == None ==> At(t, k) !in "eE")
  {
    Together(t, j, FractionText(n.fraction), PowerText(n.power));
    var k := j + |FractionText(n.fraction)|;
    if n.power.Some? {
      SpelledAt(t, k, PowerText(n.power), 0);
    }
  }

  /** A numeral is read as the number it stands for. */
  lemma {:induction false} NumeralRead(t: string, i: nat, n: Numeral)
    requires GoodNumeral(n) && Spelled(t, i, NumeralText(n)) && Stops(n, At(t, i + |NumeralText(n)|))
    ensures (IsDigit(At(t, i)) || At(t, i) == '-') && At(t, i) in "-0123456789"
    ensures NumberToken(t, i) == Some((NumeralValue(n), i + |NumeralText(n)|))
  {
    hide Decimal, Fraction, Exponent, FractionText, PowerText, DigitsEnd, Stops, Spelled, DigitsText, GoodNumeral;
    hide WholeValue, FractionValue, Scaled, IsDigit;
    var sign := if n.minus then "-" else "";
    var rest := FractionText(n.fraction) + PowerText(n.power);
    var start := i + |sign|;
    var j := start + |n.whole|;
    Together(t, i, sign, DigitsText(n.whole) + rest);
    Together(t, start, DigitsText(n.whole), rest);
    AfterWhole(t, j, n);
    FractionRead(t, start, n);
    DigitsRead(t, start, n.whole);
    GoodParts(n);
    FirstChar(t, i, n);
    assert n.whole != [] || n.minus by {
      GoodParts(n);
    }
    if |n.whole| >= 2 {
      GoodParts(n);
      LeadingZero(t, start, n.whole);
    }
    var number := Fraction(t, start, j).value.0;
    GoodParts(n);
    ExponentRead(t, number, j + |FractionText(n.fraction)|, n.power);
  }

  lemma {:induction false} GoodParts(n: Numeral)
    requires GoodNumeral(n)
    ensures (n.whole != [] || n.minus) && (|n.whole| >= 2 ==> n.whole[0] != 0)
    ensures n.power.Some? ==> n.power.value.digits != [] && n.power.value.mark in "eE"
  {
  }

  lemma {:induction false} FirstChar(t: string, i: nat, n: Numeral)
    requires GoodNumeral(n) && Spelled(t, i, if n.minus then "-" else "")
    requires !n.minus ==> n.whole != [] && Spelled(t, i, DigitsText(n.whole))
    ensures (At(t, i) == '-' <==> n.minus) && (n.minus || IsDigit(At(t, i))) && At(t, i) in "-0123456789"
  {
    if n.minus {
      SpelledAt(t, i, "-", 0);
    } else {
      DigitsRead(t, i, n.whole);
    }
  }

  lemma {:induction false} LeadingZero(t: string, start: nat, ds: seq<Digit>)
    requires Spelled(t, start, DigitsText(ds)) && |ds| >= 2
    ensures At(t, start) == '0' <==> ds[0] == 0
    decreases |ds|
  {
    var front, last := ds[..|ds| - 1], ds[|ds| - 1];
    Together(t, start, DigitsText(front), ["0123456789"[last]]);
    if |ds| > 2 {
      LeadingZero(t, start, front);
    } else {
      assert front == [ds[0]] && DigitsText(front) == DigitsText([]) + ["0123456789"[ds[0]]];
      SpelledAt(t, start, DigitsText(front), 0);
    }
  }

  // ----- from trees to values: strings -----

  lemma {:induction false} HexIs(h: Hex)
    ensures HexValue(HexText(h)) == h.value
  {
  }

  lemma {:induction false} UnitRead(t: string, i: nat, u: Unit)
    requires Spelled(t, i, UnitText(u))
    ensures Hex4(t, i) == Some(UnitValue(u))
  {
    hide HexValue, HexText;
    SpelledAt(t, i, UnitText(u), 0);
    SpelledAt(t, i, UnitText(u), 1);
    SpelledAt(t, i, UnitText(u), 2);
    SpelledAt(t, i, UnitText(u), 3);
    HexIs(u.a);
    HexIs(u.b);
    HexIs(u.c);
    HexIs(u.d);
  }

  lemma {:induction false} IsSurrogateIs(u: nat)
    ensures IsSurrogate(u) <==> 0xD800 <= u <= 0xDFFF
  {
  }

  lemma {:induction false} EscapedRead(t: string, i: nat, c: char)
    requires GoodPiece(Escaped(c)) && Spelled(t, i, PieceText(Escaped(c)))
    ensures At(t, i) == '\\' && Escape(t, i + 1) == Some(([EscapedByte(c)], i + 2))
  {
    SpelledAt(t, i, ['\\', c], 0);
    SpelledAt(t, i, ['\\', c], 1);
  }

  lemma {:induction false} EscapeIsUnicode(t: string, i: nat)
    requires At(t, i) == 'u'
    ensures Escape(t, i) == UnicodeEscape(t, i + 1)
  {
    hide UnicodeEscape;
  }

  lemma {:induction false} PairedText(u: Unit, v: Unit)
    ensures PieceText(Paired(u, v)) == ['\\', 'u'] + UnitText(u) + (['\\', 'u'] + UnitText(v))
    ensures |PieceText(Paired(u, v))| == 12 && |PieceText(Coded(u))| == 6
  {
  }

  /** An escape is read as the bytes it stands for. */
  lemma {:induction false} EscapeRead(t: string, i: nat, p: Piece)
    requires GoodPiece(p) && !p.Raw? && Spelled(t, i, PieceText(p))
    ensures At(t, i) == '\\' && Escape(t, i + 1) == Some((PieceBytes(p), i + |PieceText(p)|))
  {
    hide Hex4, EncodeCodePoint, CombineSurrogates, UnitText, UnitValue, IsSurrogate, Spelled, Escape, EscapedByte;
    match p
    case Escaped(c) => EscapedRead(t, i, c);
    case Coded(u) =>
      PairedText(u, u);
      CodedRead(t, i, u, "");
      EscapeIsUnicode(t, i + 1);
      IsSurrogateIs(UnitValue(u));
    case Paired(u, v) =>
      PairedText(u, v);
      CodedRead(t, i, u, ['\\', 'u'] + UnitText(v));
      CodedRead(t, i + 6, v, "");
      EscapeIsUnicode(t, i + 1);
      IsSurrogateIs(UnitValue(u));
    case _ =>
  }

  lemma {:induction false} CodedRead(t: string, i: nat, u: Unit, more: string)
    requires || Spelled(t, i, ['\\', 'u'] + UnitText(u) + more)
             || (more == "" && Spelled(t, i, ['\\', 'u'] + UnitText(u)))
    ensures At(t, i) == '\\' && At(t, i + 1) == 'u' && Hex4(t, i + 2) == Some(UnitValue(u)) && |UnitText(u)| == 4
    ensures Spelled(t, i + 6, more)
  {
    hide UnitValue, Hex4;
    assert ['\\', 'u'] + UnitText(u) + "" == ['\\', 'u'] + UnitText(u);
    Together(t, i, ['\\', 'u'] + UnitText(u), more);
    Together(t, i, ['\\', 'u'], UnitText(u));
    SpelledAt(t, i, ['\\', 'u'], 0);
    SpelledAt(t, i, ['\\', 'u'], 1);
    UnitRead(t, i + 2, u);
  }

  ghost predicate GoodEach(ps: seq<Piece>) {
    forall k :: 0 <= k < |ps| ==> GoodPiece(ps[k])
  }

  lemma {:induction false} PiecesRead(t: string, i: nat, ps: seq<Piece>)
    requires GoodEach(ps) && Spelled(t, i, PiecesText(ps))
    ensures StringBody(t, i) == Some((PiecesBytes(ps), i + |PiecesText(ps)|))
    decreases |ps|
  {
    hide Escape, PieceBytes, PieceText, Spelled, GoodPiece;
    if ps == [] {
      SpelledAt(t, i, "\"", 0);
    } else {
      var p, rest := ps[0], ps[1..];
      Together(t, i, PieceText(p), PiecesText(rest));
      PiecesRead(t, i + |PieceText(p)|, rest);
      if p.Raw? {
        RawRead(p.c);
        SpelledAt(t, i, [p.c], 0);
      } else {
        EscapeRead(t, i, p);
      }
    }
  }

  lemma {:induction false} RawRead(c: char)
    ensures PieceBytes(Raw(c)) == [c] == PieceText(Raw(c))
    ensures GoodPiece(Raw(c)) ==> c != '"' && c != '\\' && c != '\0'
  {
  }

  lemma {:induction false} QuotedRead(t: string, i: nat, ps: seq<Piece>)
    requires GoodPieces(ps) && Spelled(t, i, PiecesText(ps))
    ensures QuotedString(t, i) == Some((PiecesBytes(ps), i + |PiecesText(ps)|))
  {
    hide PiecesText, PiecesBytes, StringBody, GoodPiece;
    PiecesRead(t, i, ps);
  }

  // ----- from trees to values -----

  lemma {:induction false} WordRead(t: string, i: nat, word: string)
    requires '\0' !in word && Spelled(t, i, word)
    ensures Literal(t, i, word) && (word != "" ==> At(t, i) == word[0])
  {
    forall k | 0 <= k < |word| ensures At(t, i + k) == word[k] {
      SpelledAt(t, i, word, k);
    }
  }

  lemma {:induction false} SpaceThen(t: string, i: nat, space: string, more: string)
    requires Space(space) && Spelled(t, i, space + more) && more != "" && more[0] !in " \t\r\n"
    ensures SkipWhitespace(t, i) == i + |space| && At(t, i + |space|) == more[0] && Spelled(t, i + |space|, more)
  {
    Together(t, i, space, more);
    SpelledAt(t, i + |space|, more, 0);
    SpaceSkipped(t, i, space);
  }

  /** The characters a value can begin with. */
  lemma {:induction false} TreeBegins(tree: Tree)
    requires GoodTree(tree)
    ensures TreeText(tree) != "" && TreeText(tree)[0] in "-0123456789\"[{ntf"
  {
    if tree.NumberTree? {
      var n := tree.numeral;
      var text := NumeralText(n);
      if !n.minus {
        var front := n.whole[..|n.whole| - 1];
        assert Spelled(text, 0, text);
        FirstDigit(n.whole);
        assert text[0] == DigitsText(n.whole)[0];
      }
    }
  }

  lemma {:induction false} FirstDigit(ds: seq<Digit>)
    requires ds != []
    ensures DigitsText(ds)[0] in "0123456789"
    decreases |ds|
  {
    if |ds| > 1 {
      FirstDigit(ds[..|ds| - 1]);
    }
  }

  lemma {:induction false} TailEnds(t: string, i: nat, space: string, more: string)
    requires Space(space) && Spelled(t, i, space + more) && more != "" && more[0] in ",]}"
    ensures EndsValue(At(t, i))
  {
    SpelledAt(t, i, space + more, 0);
  }

  lemma {:induction false} EndStops(n: Numeral, c: char)
    requires EndsValue(c)
    ensures Stops(n, c)
  {
  }

  lemma {:induction false} TreeRead(t: string, i: nat, tree: Tree)
    requires GoodTree(tree) && Spelled(t, i, TreeText(tree)) && EndsValue(At(t, i + |TreeText(tree)|))
    ensures ValueAt(t, i) == Some((TreeValue(tree), i + |TreeText(tree)|))
    decreases tree
  {
    hide EndsValue, NumberToken, NumeralText, NumeralValue, GoodNumeral, QuotedString, PiecesText, PiecesBytes;
    hide GoodPieces, Literal, Spelled;
    match tree
    case NullWord => WordRead(t, i, "null");
    case TrueWord => WordRead(t, i, "true");
    case FalseWord => WordRead(t, i, "false");
    case NumberTree(n) =>
      EndStops(n, At(t, i + |NumeralText(n)|));
      NumeralRead(t, i, n);
    case StringTree(ps) =>
      Together(t, i, "\"", PiecesText(ps));
      SpelledAt(t, i, "\"", 0);
      QuotedRead(t, i + 1, ps);
    case ArrayTree(es) =>
      Together(t, i, "[", ElementsText(es));
      SpelledAt(t, i, "[", 0);
      ElementsRead(t, i + 1, es);
    case ObjectTree(fs) =>
      Together(t, i, "{", FieldsText(fs));
      SpelledAt(t, i, "{", 0);
      FieldsRead(t, i + 1, fs);
  }

  /** How the items of an array begin. */
  lemma {:induction false} ItemsBegin(t: string, i: nat)
    ensures var k := SkipWhitespace(t, i);
            if At(t, k) == ']' then ItemsAt(t, i) == Some((NoItems, k + 1))
            else ValueAt(t, k).Some? ==> ItemsAt(t, i) == MoreItems(t, ValueAt(t, k).value.1, ValueAt(t, k).value.0)
  {
    hide SkipWhitespace, ValueAt, MoreItems;
  }

  /** How the members of an object begin. */
  lemma {:induction false} MembersBegin(t: string, i: nat)
    ensures var k := SkipWhitespace(t, i);
            if At(t, k) == '}' then MembersAt(t, i) == Some((NoMembers, k + 1))
            else NameAt(t, k).Some? && ValueAt(t, NameAt(t, k).value.1).Some? ==>
              var name, value := NameAt(t, k).value, ValueAt(t, NameAt(t, k).value.1).value;
              MembersAt(t, i) == MoreMembers(t, value.1, name.0, value.0)
  {
    hide SkipWhitespace, ValueAt, MoreMembers, NameAt;
  }

  lemma {:induction false} ElementsRead(t: string, i: nat, es: Elements)
    requires GoodElements(es) && Spelled(t, i, ElementsText(es))
    ensures ItemsAt(t, i) == Some((ElementsValue(es), i + |ElementsText(es)|))
    decreases es
  {
    hide Spelled, EndsValue, GoodTree, TreeText, TreeValue, ValueAt, SkipWhitespace, ItemsAt, MoreItems;
    ItemsBegin(t, i);
    match es
    case CloseBracket(space) => SpaceThen(t, i, space, "]");
    case Element(space, head, tail) =>
      TreeBegins(head);
      SpaceThen(t, i, space, TreeText(head) + ElementTailText(tail));
      Together(t, i + |space|, TreeText(head), ElementTailText(tail));
      var j := i + |space| + |TreeText(head)|;
      TailEnds(t, j, tail.space, if tail.LastElement? then "]" else "," + ElementsText(tail.elements));
      TreeRead(t, i + |space|, head);
      ElementTailRead(t, j, tail, TreeValue(head));
  }

  lemma {:induction false} ElementTailRead(t: string, i: nat, tail: ElementTail, v: Value)
    requires GoodElementTail(tail) && Spelled(t, i, ElementTailText(tail))
    ensures MoreItems(t, i, v) == Some((Item(v, ElementTailValue(tail)), i + |ElementTailText(tail)|))
    decreases tail
  {
    hide Spelled, SkipWhitespace, ElementsText, ElementsValue, ItemsAt;
    match tail
    case LastElement(space) => SpaceThen(t, i, space, "]");
    case MoreElements(space, es) =>
      SpaceThen(t, i, space, "," + ElementsText(es));
      Together(t, i + |space|, ",", ElementsText(es));
      ElementsRead(t, i + |space| + 1, es);
  }

  lemma {:induction false} FieldsRead(t: string, i: nat, fs: Fields)
    requires GoodFields(fs) && Spelled(t, i, FieldsText(fs))
    ensures MembersAt(t, i) == Some((FieldsValue(fs), i + |FieldsText(fs)|))
    decreases fs
  {
    hide Spelled, EndsValue, GoodTree, TreeText, TreeValue, ValueAt, SkipWhitespace, NameAt, PiecesText, PiecesBytes;
    hide GoodPieces, MembersAt, MoreMembers;
    MembersBegin(t, i);
    match fs
    case CloseBrace(space) => SpaceThen(t, i, space, "}");
    case Field(space, name, before, after, value, tail) =>
      var rest := TreeText(value) + FieldTailText(tail);
      SpaceThen(t, i, space, "\"" + (PiecesText(name) + (before + (":" + (after + rest)))));
      TreeBegins(value);
      var s := NameRead(t, i + |space|, name, before, after, rest);
      Together(t, s, TreeText(value), FieldTailText(tail));
      var j := s + |TreeText(value)|;
      TailEnds(t, j, tail.space, if tail.LastField? then "}" else "," + FieldsText(tail.fields));
      TreeRead(t, s, value);
      FieldTailRead(t, j, tail, PiecesBytes(name), TreeValue(value));
  }

  lemma {:induction false} NameRead(t: string, i: nat, name: seq<Piece>, before: string, after: string, rest: string)
    returns (s: nat)
    requires GoodPieces(name) && Space(before) && Space(after) && rest != "" && rest[0] !in " \t\r\n"
    requires Spelled(t, i, "\"" + (PiecesText(name) + (before + (":" + (after + rest)))))
    ensures NameAt(t, i) == Some((PiecesBytes(name), s)) && Spelled(t, s, rest)
    ensures s == i + 1 + |PiecesText(name)| + |before| + 1 + |after|
  {
    hide Spelled, SkipWhitespace, QuotedString, PiecesText, PiecesBytes, GoodPieces;
    var colon := before + (":" + (after + rest));
    Together(t, i, "\"", PiecesText(name) + colon);
    SpelledAt(t, i, "\"", 0);
    Together(t, i + 1, PiecesText(name), colon);
    QuotedRead(t, i + 1, name);
    var j := i + 1 + |PiecesText(name)|;
    SpaceThen(t, j, before, ":" + (after + rest));
    Together(t, j + |before|, ":", after + rest);
    SpaceThen(t, j + |before| + 1, after, rest);
    s := j + |before| + 1 + |after|;
  }

  lemma {:induction false} FieldTailRead(t: string, i: nat, tail: FieldTail, name: string, v: Value)
    requires GoodFieldTail(tail) && Spelled(t, i, FieldTailText(tail))
    ensures MoreMembers(t, i, name, v) == Some((Member(name, v, FieldTailValue(tail)), i + |FieldTailText(tail)|))
    decreases tail
  {
    hide Spelled, SkipWhitespace, FieldsText, FieldsValue, MembersAt;
    match tail
    case LastField(space) => SpaceThen(t, i, space, "}");
    case MoreFields(space, fs) =>
      SpaceThen(t, i, space, "," + FieldsText(fs));
      Together(t, i + |space|, ",", FieldsText(fs));
      FieldsRead(t, i + |space| + 1, fs);
  }

  // ----- from values to trees: numbers -----

  lemma {:induction false} SpaceFrom(t: string, i: nat) returns (space: string)
    requires i <= |t|
    ensures Space(space) && Spelled(t, i, space) && SkipWhitespace(t, i) == i + |space|
    decreases |t| - i
  {
    if IsWhitespace(At(t, i)) {
      var rest := SpaceFrom(t, i + 1);
      space := [t[i]] + rest;
      Together(t, i, [t[i]], rest);
    } else {
      space := "";
    }
  }

  lemma {:induction false} DigitsFrom(t: string, i: nat, j: nat) returns (ds: seq<Digit>)
    requires i <= j <= |t| && forall k :: i <= k < j ==> IsDigit(At(t, k))
    ensures |ds| == j - i && Spelled(t, i, DigitsText(ds))
    decreases j
  {
    if i == j {
      ds := [];
    } else {
      var front := DigitsFrom(t, i, j - 1);
      assert IsDigit(At(t, j - 1));
      var last: Digit := DigitValue(t[j - 1]);
      DigitIs(last);
      ds := front + [last];
      assert ds[..|ds| - 1] == front;
      Together(t, i, DigitsText(front), ["0123456789"[last]]);
    }
  }

  lemma {:induction false} FractionParts(t: string, start: nat, j: nat)
    requires start <= j <= |t| && (forall k :: start <= k < j ==> IsDigit(At(t, k))) && Fraction(t, start, j).Some?
    ensures if At(t, j) == '.' then
              start < j && j + 1 < DigitsEnd(t, j + 1) <= |t| && Fraction(t, start, j).value.1 == DigitsEnd(t, j + 1)
            else Fraction(t, start, j).value.1 == j
  {
    hide Decimal, PlusFraction;
  }

  lemma {:induction false} FractionSpelled(t: string, j: nat, ds: seq<Digit>)
    requires At(t, j) == '.' && Spelled(t, j + 1, DigitsText(ds))
    ensures Spelled(t, j, FractionText(Some(ds))) && |FractionText(Some(ds))| == 1 + |ds|
  {
    hide DigitsText;
    Together(t, j, ".", DigitsText(ds));
    assert Spelled(t, j, ".");
  }

  lemma {:induction false} FractionFrom(t: string, start: nat, j: nat) returns (f: Option<seq<Digit>>)
    requires start <= j <= |t| && (forall k :: start <= k < j ==> IsDigit(At(t, k))) && Fraction(t, start, j).Some?
    ensures Spelled(t, j, FractionText(f)) && Fraction(t, start, j).value.1 == j + |FractionText(f)|
    ensures (f.Some? ==> f.value != [] && start < j) && (f == None ==> At(t, j) != '.')
  {
    hide Fraction, Spelled, DigitsText;
    FractionParts(t, start, j);
    if At(t, j) == '.' {
      var ds := DigitsFrom(t, j + 1, DigitsEnd(t, j + 1));
      f := Some(ds);
      FractionSpelled(t, j, ds);
    } else {
      f := None;
      NothingSpelled(t, j);
    }
  }

  lemma {:induction false} NothingSpelled(t: string, i: nat)
    requires i <= |t|
    ensures Spelled(t, i, "")
  {
  }

  lemma {:induction false} CharSpelled(t: string, i: nat, c: char)
    requires At(t, i) == c && c != '\0'
    ensures Spelled(t, i, [c])
  {
  }

  lemma {:induction false} SignCharSpelled(t: string, i: nat, sign: Sign)
    requires i <= |t| && (sign != Unsigned ==> At(t, i) == SignText(sign)[0])
    ensures Spelled(t, i, SignText(sign))
  {
  }

  function SignOf(c: char): Sign {
    if c == '+' then Plus else if c == '-' then Minus else Unsigned
  }

  lemma {:induction false} ExponentParts(t: string, n: Number, i: nat)
    requires i <= |t| && Exponent(t, n, i).Some?
    ensures if At(t, i) in "eE" then
              var start := i + 1 + |SignText(SignOf(At(t, i + 1)))|;
              start < DigitsEnd(t, start) <= |t| && Exponent(t, n, i).value.1 == DigitsEnd(t, start) && i < |t|
            else Exponent(t, n, i).value.1 == i
  {
    hide Decimal, TimesPow10;
  }

  lemma {:induction false} PowerSpelled(t: string, i: nat, p: Power)
    requires i < |t| && t[i] == p.mark && p.mark in "eE" && p.sign == SignOf(At(t, i + 1))
    requires Spelled(t, i + 1 + |SignText(p.sign)|, DigitsText(p.digits))
    ensures Spelled(t, i, PowerText(Some(p))) && |PowerText(Some(p))| == 1 + |SignText(p.sign)| + |p.digits|
  {
    hide Spelled, DigitsText;
    SignCharSpelled(t, i + 1, p.sign);
    CharSpelled(t, i, t[i]);
    Together(t, i + 1, SignText(p.sign), DigitsText(p.digits));
    Together(t, i, [t[i]], SignText(p.sign) + DigitsText(p.digits));
  }

  lemma {:induction false} NoPowerSpelled(t: string, i: nat)
    requires i <= |t|
    ensures Spelled(t, i, PowerText(None)) && PowerText(None) == ""
  {
  }

  lemma {:induction false} ExponentFrom(t: string, n: Number, i: nat) returns (p: Option<Power>)
    requires i <= |t| && Exponent(t, n, i).Some?
    ensures Spelled(t, i, PowerText(p)) && Exponent(t, n, i).value.1 == i + |PowerText(p)|
    ensures p.Some? ==> p.value.digits != [] && p.value.mark in "eE"
    ensures p == None ==> At(t, i) !in "eE"
  {
    hide Exponent, Spelled, DigitsText, PowerText, SignText, IsDigit;
    ExponentParts(t, n, i);
    if At(t, i) in "eE" {
      var sign := SignOf(At(t, i + 1));
      var start := i + 1 + |SignText(sign)|;
      var ds := DigitsFrom(t, start, DigitsEnd(t, start));
      p := Some(Power(t[i], sign, ds));
      PowerSpelled(t, i, p.value);
    } else {
      p := None;
      NoPowerSpelled(t, i);
    }
  }

  /** What is read as a number is the spelling of a numeral that stands for it. */
  lemma {:induction false} NumeralFrom(t: string, i: nat) returns (n: Numeral)
    requires (IsDigit(At(t, i)) || At(t, i) == '-') && NumberToken(t, i).Some?
    ensures GoodNumeral(n) && Spelled(t, i, NumeralText(n))
    ensures NumberToken(t, i) == Some((NumeralValue(n), i + |NumeralText(n)|))
  {
    hide Decimal, Fraction, Exponent, FractionText, PowerText, Spelled, DigitsText, NumeralValue;
    var minus := At(t, i) == '-';
    var sign := if minus then "-" else "";
    var start := i + |sign|;
    var j := DigitsEnd(t, start);
    var whole := DigitsFrom(t, start, j);
    var f := FractionFrom(t, start, j);
    var k := j + |FractionText(f)|;
    var p := ExponentFrom(t, Fraction(t, start, j).value.0, k);
    n := Numeral(minus, whole, f, p);
    if |whole| >= 2 {
      LeadingZero(t, start, whole);
    }
    SignSpelled(t, i, sign);
    Together(t, j, FractionText(f), PowerText(p));
    Together(t, start, DigitsText(whole), FractionText(f) + PowerText(p));
    Together(t, i, sign, DigitsText(whole) + (FractionText(f) + PowerText(p)));
    NumeralStops(t, start, n);
    NumeralRead(t, i, n);
  }

  lemma {:induction false} SignSpelled(t: string, i: nat, sign: string)
    requires i <= |t| && (sign == "" || (sign == "-" && At(t, i) == '-'))
    ensures Spelled(t, i, sign)
  {
  }

  /** A token ends where nothing goes on with it. */
  lemma {:induction false} NumeralStops(t: string, start: nat, n: Numeral)
    requires var j := DigitsEnd(t, start);
             && |n.whole| == j - start && j <= |t| && Fraction(t, start, j).Some?
             && Fraction(t, start, j).value.1 == j + |FractionText(n.fraction)|
             && (n.fraction == None ==> At(t, j) != '.')
             && var k := j + |FractionText(n.fraction)|;
                && Exponent(t, Fraction(t, start, j).value.0, k).Some?
                && Exponent(t, Fraction(t, start, j).value.0, k).value.1 == k + |PowerText(n.power)|
                && (n.power == None ==> At(t, k) !in "eE")
    ensures Stops(n, At(t, DigitsEnd(t, start) + |FractionText(n.fraction)| + |PowerText(n.power)|))
  {
  }

  // ----- from values to trees: strings -----

  lemma {:induction false} HexFrom(c: char) returns (h: Hex)
    requires HexValue(c) != 255
    ensures HexText(h) == c
  {
    h := Hex(HexValue(c), 'A' <= c <= 'F');
  }

  lemma {:induction false} UnitFrom(t: string, i: nat) returns (u: Unit)
    requires Hex4(t, i).Some?
    ensures Spelled(t, i, UnitText(u))
  {
    hide HexValue, HexText;
    var a := HexFrom(At(t, i));
    var b := HexFrom(At(t, i + 1));
    var c := HexFrom(At(t, i + 2));
    var d := HexFrom(At(t, i + 3));
    u := Unit(a, b, c, d);
  }

  lemma {:induction false} CodedSpelled(t: string, i: nat, u: Unit)
    requires At(t, i) == '\\' && At(t, i + 1) == 'u' && Spelled(t, i + 2, UnitText(u))
    ensures Spelled(t, i, ['\\', 'u'] + UnitText(u)) && |UnitText(u)| == 4
  {
    Together(t, i, ['\\', 'u'], UnitText(u));
  }

  lemma {:induction false} PieceFrom(t: string, i: nat) returns (p: Piece)
    requires At(t, i) == '\\' && Escape(t, i + 1).Some?
    ensures GoodPiece(p) && !p.Raw? && Spelled(t, i, PieceText(p))
  {
    hide Hex4, EncodeCodePoint, CombineSurrogates, UnitText, UnitValue, IsSurrogate, Spelled;
    if At(t, i + 1) == 'u' {
      var u := UnitFrom(t, i + 2);
      CodedSpelled(t, i, u);
      UnitRead(t, i + 2, u);
      IsSurrogateIs(UnitValue(u));
      if IsSurrogate(UnitValue(u)) {
        var v := UnitFrom(t, i + 8);
        CodedSpelled(t, i + 6, v);
        p := Paired(u, v);
        Together(t, i, ['\\', 'u'] + UnitText(u), ['\\', 'u'] + UnitText(v));
        assert PieceText(p) == ['\\', 'u'] + UnitText(u) + (['\\', 'u'] + UnitText(v));
      } else {
        p := Coded(u);
      }
    } else {
      p := Escaped(At(t, i + 1));
      EscapedSpelled(t, i);
    }
  }

  lemma {:induction false} EscapedSpelled(t: string, i: nat)
    requires At(t, i) == '\\' && At(t, i + 1) != '\0'
    ensures Spelled(t, i, ['\\', At(t, i + 1)])
  {
  }

  /** What is read as a string is the spelling of pieces that stand for it. */
  lemma {:induction false} PiecesFrom(t: string, i: nat) returns (ps: seq<Piece>)
    requires StringBody(t, i).Some?
    ensures GoodEach(ps) && Spelled(t, i, PiecesText(ps))
    ensures StringBody(t, i) == Some((PiecesBytes(ps), i + |PiecesText(ps)|))
    decreases |t| - i
  {
    hide Escape, PieceBytes, PieceText, Spelled, GoodPiece, PiecesBytes;
    if At(t, i) == '"' {
      ps := [];
      QuoteSpelled(t, i);
    } else {
      var p;
      if At(t, i) == '\\' {
        p := PieceFrom(t, i);
        EscapeRead(t, i, p);
      } else {
        p := Raw(At(t, i));
        RawFrom(t, i);
      }
      var rest := PiecesFrom(t, i + |PieceText(p)|);
      ps := [p] + rest;
      assert ps[1..] == rest;
      Together(t, i, PieceText(p), PiecesText(rest));
    }
    PiecesRead(t, i, ps);
  }

  lemma {:induction false} QuoteSpelled(t: string, i: nat)
    requires At(t, i) == '"'
    ensures Spelled(t, i, "\"")
  {
  }

  lemma {:induction false} RawFrom(t: string, i: nat)
    requires At(t, i) != '"' && At(t, i) != '\\' && At(t, i) != '\0'
    ensures var p := Raw(At(t, i)); GoodPiece(p) && PieceText(p) == [At(t, i)] && Spelled(t, i, PieceText(p))
  {
  }

  lemma {:induction false} QuotedFrom(t: string, i: nat) returns (ps: seq<Piece>)
    requires QuotedString(t, i).Some?
    ensures GoodPieces(ps) && Spelled(t, i, PiecesText(ps))
    ensures QuotedString(t, i) == Some((PiecesBytes(ps), i + |PiecesText(ps)|))
  {
    hide PiecesText, PiecesBytes, StringBody, GoodPiece, Spelled;
    ps := PiecesFrom(t, i);
  }

  // ----- from values to trees -----

  lemma {:induction false} LiteralSpelled(t: string, i: nat, word: string)
    requires '\0' !in word && Literal(t, i, word) && word != ""
    ensures Spelled(t, i, word)
  {
    forall k | 0 <= k < |word| ensures t[i + k] == word[k] {
      assert At(t, i + k) == word[k];
    }
  }

  lemma {:induction false} SpaceAndChar(t: string, i: nat, c: char) returns (space: string)
    requires i <= |t| && At(t, SkipWhitespace(t, i)) == c && c != '\0'
    ensures Space(space) && SkipWhitespace(t, i) == i + |space| < |t|
    ensures Spelled(t, i, space) && Spelled(t, i + |space|, [c]) && Spelled(t, i, space + [c])
  {
    space := SpaceFrom(t, i);
    CharSpelled(t, i + |space|, c);
    Together(t, i, space, [c]);
  }

  /** What is read as a value is the spelling of a tree that stands for it. */
  lemma {:induction false} TreeFrom(t: string, i: nat) returns (tree: Tree)
    requires ValueAt(t, i).Some?
    ensures GoodTree(tree) && Spelled(t, i, TreeText(tree))
    ensures ValueAt(t, i) == Some((TreeValue(tree), i + |TreeText(tree)|))
    decreases |t| - i, 0
  {
    hide NumberToken, NumeralText, NumeralValue, GoodNumeral, QuotedString, PiecesText, PiecesBytes, GoodPieces;
    hide Literal, Spelled;
    var b := At(t, i);
    if b == '{' {
      var fs := FieldsFrom(t, i + 1);
      tree := ObjectTree(fs);
      CharSpelled(t, i, '{');
      Together(t, i, "{", FieldsText(fs));
    } else if b == '[' {
      var es := ElementsFrom(t, i + 1);
      tree := ArrayTree(es);
      CharSpelled(t, i, '[');
      Together(t, i, "[", ElementsText(es));
    } else if b == '"' {
      var ps := QuotedFrom(t, i + 1);
      tree := StringTree(ps);
      CharSpelled(t, i, '"');
      Together(t, i, "\"", PiecesText(ps));
    } else if b == 't' {
      tree := TrueWord;
      LiteralSpelled(t, i, "true");
    } else if b == 'f' {
      tree := FalseWord;
      LiteralSpelled(t, i, "false");
    } else if b == 'n' {
      tree := NullWord;
      LiteralSpelled(t, i, "null");
    } else {
      var n := NumeralFrom(t, i);
      tree := NumberTree(n);
    }
  }

  lemma {:induction false} ElementsFrom(t: string, i: nat) returns (es: Elements)
    requires i <= |t| && ItemsAt(t, i).Some?
    ensures GoodElements(es) && Spelled(t, i, ElementsText(es))
    ensures ItemsAt(t, i) == Some((ElementsValue(es), i + |ElementsText(es)|))
    decreases |t| - i, 1
  {
    hide Spelled, GoodTree, TreeText, TreeValue, ValueAt, SkipWhitespace, MoreItems;
    var k := SkipWhitespace(t, i);
    if At(t, k) == ']' {
      var space := SpaceAndChar(t, i, ']');
      es := CloseBracket(space);
    } else {
      var space := SpaceFrom(t, i);
      var head := TreeFrom(t, k);
      var j := k + |TreeText(head)|;
      var tail := ElementTailFrom(t, j, TreeValue(head));
      es := Element(space, head, tail);
      Together(t, k, TreeText(head), ElementTailText(tail));
      Together(t, i, space, TreeText(head) + ElementTailText(tail));
    }
  }

  lemma {:induction false} ElementTailFrom(t: string, i: nat, v: Value) returns (tail: ElementTail)
    requires i <= |t| && MoreItems(t, i, v).Some?
    ensures GoodElementTail(tail) && Spelled(t, i, ElementTailText(tail))
    ensures MoreItems(t, i, v) == Some((Item(v, ElementTailValue(tail)), i + |ElementTailText(tail)|))
    decreases |t| - i, 0
  {
    hide Spelled, SkipWhitespace, ElementsText, ElementsValue, ItemsAt, GoodElements;
    var e := SkipWhitespace(t, i);
    if At(t, e) == ']' {
      var space := SpaceAndChar(t, i, ']');
      tail := LastElement(space);
    } else {
      var space := SpaceAndChar(t, i, ',');
      var es := ElementsFrom(t, e + 1);
      tail := MoreElements(space, es);
      Together(t, e, ",", ElementsText(es));
      Together(t, i, space, "," + ElementsText(es));
    }
  }

  lemma {:induction false} NameFrom(t: string, i: nat) returns (name: seq<Piece>, before: string, after: string)
    requires NameAt(t, i).Some?
    ensures GoodPieces(name) && Space(before) && Space(after)
    ensures Spelled(t, i, "\"" + (PiecesText(name) + (before + (":" + after))))
    ensures NameAt(t, i) == Some((PiecesBytes(name), i + |"\"" + (PiecesText(name) + (before + (":" + after)))|))
  {
    hide Spelled, SkipWhitespace, QuotedString, PiecesText, PiecesBytes, GoodPieces;
    CharSpelled(t, i, '"');
    name := QuotedFrom(t, i + 1);
    var j := i + 1 + |PiecesText(name)|;
    before := SpaceAndChar(t, j, ':');
    after := SpaceFrom(t, j + |before| + 1);
    Together(t, j + |before|, ":", after);
    Together(t, j, before, ":" + after);
    Together(t, i + 1, PiecesText(name), before + (":" + after));
    Together(t, i, "\"", PiecesText(name) + (before + (":" + after)));
  }

  lemma {:induction false} FieldsFrom(t: string, i: nat) returns (fs: Fields)
    requires i <= |t| && MembersAt(t, i).Some?
    ensures GoodFields(fs) && Spelled(t, i, FieldsText(fs))
    ensures MembersAt(t, i) == Some((FieldsValue(fs), i + |FieldsText(fs)|))
    decreases |t| - i, 1
  {
    hide Spelled, GoodTree, TreeText, TreeValue, ValueAt, SkipWhitespace, NameAt, PiecesText, PiecesBytes, MoreMembers;
    hide GoodPieces;
    var k := SkipWhitespace(t, i);
    if At(t, k) == '}' {
      var space := SpaceAndChar(t, i, '}');
      fs := CloseBrace(space);
    } else {
      var space := SpaceFrom(t, i);
      var name, before, after := NameFrom(t, k);
      var head := "\"" + (PiecesText(name) + (before + (":" + after)));
      var s := k + |head|;
      var value := TreeFrom(t, s);
      var j := s + |TreeText(value)|;
      var tail := FieldTailFrom(t, j, PiecesBytes(name), TreeValue(value));
      fs := Field(space, name, before, after, value, tail);
      var rest := TreeText(value) + FieldTailText(tail);
      Together(t, s, TreeText(value), FieldTailText(tail));
      Together(t, k, head, rest);
      Together(t, i, space, head + rest);
      Regrouped(PiecesText(name), before, after, rest);
    }
  }

  lemma {:induction false} Regrouped(name: string, before: string, after: string, rest: string)
    ensures "\"" + (name + (before + (":" + after))) + rest == "\"" + (name + (before + (":" + (after + rest))))
  {
  }

  lemma {:induction false} FieldTailFrom(t: string, i: nat, name: string, v: Value) returns (tail: FieldTail)
    requires i <= |t| && MoreMembers(t, i, name, v).Some?
    ensures GoodFieldTail(tail) && Spelled(t, i, FieldTailText(tail))
    ensures MoreMembers(t, i, name, v) == Some((Member(name, v, FieldTailValue(tail)), i + |FieldTailText(tail)|))
    decreases |t| - i, 0
  {
    hide Spelled, SkipWhitespace, FieldsText, FieldsValue, MembersAt, GoodFields;
    var e := SkipWhitespace(t, i);
    if At(t, e) == '}' {
      var space := SpaceAndChar(t, i, '}');
      tail := LastField(space);
    } else {
      var space := SpaceAndChar(t, i, ',');
      var fs := FieldsFrom(t, e + 1);
      tail := MoreFields(space, fs);
      Together(t, e, ",", FieldsText(fs));
      Together(t, i, space, "," + FieldsText(fs));
    }
  }

  // ----- whole texts -----

  lemma {:induction false} WholeSpelled(t: string, s: string)
    ensures Spelled(t, 0, s) && |t| == |s| <==> t == s
  {
  }

  lemma {:induction false} DocumentParts(t: string, d: Document) returns (start: nat)
    requires t == DocumentText(d)
    ensures start == if d.marked then 3 else 0
    ensures d.marked ==> Spelled(t, 0, BYTE_ORDER_MARK)
    ensures Spelled(t, start, d.before) && Spelled(t, start + |d.before|, TreeText(d.tree))
    ensures var j := start + |d.before| + |TreeText(d.tree)|;
            Spelled(t, j, d.after) && Spelled(t, j + |d.after|, d.cut) && |t| == j + |d.after| + |d.cut|
  {
    hide TreeText, Spelled;
    var mark := if d.marked then BYTE_ORDER_MARK else "";
    start := |mark|;
    WholeSpelled(t, t);
    Together(t, 0, mark, d.before + (TreeText(d.tree) + (d.after + d.cut)));
    Together(t, start, d.before, TreeText(d.tree) + (d.after + d.cut));
    Together(t, start + |d.before|, TreeText(d.tree), d.after + d.cut);
    Together(t, start + |d.before| + |TreeText(d.tree)|, d.after, d.cut);
  }

  /** A text begins after its byte order mark. */
  lemma {:induction false} StartRead(t: string, d: Document)
    requires t == DocumentText(d) && GoodDocument(d)
    ensures TextStart(t) == if d.marked then 3 else 0
  {
    hide TreeText, Spelled;
    var start := DocumentParts(t, d);
    TreeBegins(d.tree);
    if d.marked {
      SpelledAt(t, 0, BYTE_ORDER_MARK, 0);
      SpelledAt(t, 0, BYTE_ORDER_MARK, 1);
      SpelledAt(t, 0, BYTE_ORDER_MARK, 2);
    } else if d.before != "" {
      SpelledAt(t, 0, d.before, 0);
    } else {
      SpelledAt(t, 0, TreeText(d.tree), 0);
    }
  }

  lemma {:induction false} AfterTree(t: string, j: nat, d: Document)
    requires GoodDocument(d) && Spelled(t, j, d.after) && Spelled(t, j + |d.after|, d.cut)
    requires |t| == j + |d.after| + |d.cut|
    ensures EndsValue(At(t, j)) && At(t, SkipWhitespace(t, j)) == '\0'
  {
    assert At(t, j + |d.after|) == '\0';
    if d.after != "" {
      SpelledAt(t, j, d.after, 0);
    }
    SpaceSkipped(t, j, d.after);
  }

  /** A document is read as the value it stands for. */
  lemma {:induction false} DocumentRead(d: Document)
    requires GoodDocument(d)
    ensures Text(DocumentText(d)) == Some(TreeValue(d.tree))
  {
    hide TreeText, TreeValue, Spelled, ValueAt, SkipWhitespace, DocumentText, EndsValue;
    var t := DocumentText(d);
    var start := DocumentParts(t, d);
    StartRead(t, d);
    TreeBegins(d.tree);
    Together(t, start, d.before, TreeText(d.tree));
    SpaceThen(t, start, d.before, TreeText(d.tree));
    var j := start + |d.before| + |TreeText(d.tree)|;
    AfterTree(t, j, d);
    TreeRead(t, start + |d.before|, d.tree);
  }

  lemma {:induction false} DocumentSpelled(t: string, d: Document)
    requires Spelled(t, 0, if d.marked then BYTE_ORDER_MARK else "")
    requires var start := if d.marked then 3 else 0;
             && Spelled(t, start, d.before) && Spelled(t, start + |d.before|, TreeText(d.tree))
             && var j := start + |d.before| + |TreeText(d.tree)|;
                Spelled(t, j, d.after) && Spelled(t, j + |d.after|, d.cut) && |t| == j + |d.after| + |d.cut|
    ensures t == DocumentText(d)
  {
    hide TreeText, Spelled;
    var mark, start := if d.marked then BYTE_ORDER_MARK else "", if d.marked then 3 else 0;
    var text := TreeText(d.tree);
    Together(t, start + |d.before| + |text|, d.after, d.cut);
    Together(t, start + |d.before|, text, d.after + d.cut);
    Together(t, start, d.before, text + (d.after + d.cut));
    Together(t, 0, mark, d.before + (text + (d.after + d.cut)));
    WholeSpelled(t, DocumentText(d));
  }

  lemma {:induction false} TextParts(t: string)
    requires Text(t).Some?
    ensures var r := ValueAt(t, SkipWhitespace(t, TextStart(t)));
            r.Some? && r.value.0 == Text(t).value && At(t, SkipWhitespace(t, r.value.1)) == '\0'
  {
    hide ValueAt, SkipWhitespace;
  }

  /** What is read as a text is a document that stands for the value. */
  lemma {:induction false} DocumentFrom(t: string) returns (d: Document)
    requires Text(t).Some?
    ensures GoodDocument(d) && DocumentText(d) == t && TreeValue(d.tree) == Text(t).value
  {
    hide TreeText, TreeValue, Spelled, ValueAt, SkipWhitespace, Text, DocumentText, GoodTree, Space;
    var start := TextStart(t);
    TextParts(t);
    var before := SpaceFrom(t, start);
    var tree := TreeFrom(t, start + |before|);
    var j := start + |before| + |TreeText(tree)|;
    var after := SpaceFrom(t, j);
    d := Document(start == 3, before, tree, after, t[j + |after|..]);
    RestSpelled(t, j + |after|);
    MarkSpelled(t);
    DocumentSpelled(t, d);
  }

  lemma {:induction false} RestSpelled(t: string, i: nat)
    requires i <= |t|
    ensures Spelled(t, i, t[i..]) && (t[i..] != "" ==> t[i..][0] == At(t, i))
  {
  }

  lemma {:induction false} MarkSpelled(t: string)
    ensures Spelled(t, 0, if TextStart(t) == 3 then BYTE_ORDER_MARK else "")
  {
  }

  /**
   A text is read as a value if and only if it is the spelling of a document that stands for the value:
   the grammar accepts no other text, and reads none otherwise.
   */
  lemma {:induction false} TextExactly(t: string, v: Value)
    ensures Text(t) == Some(v) <==>
            exists d :: GoodDocument(d) && DocumentText(d) == t && TreeValue(d.tree) == v
  {
    hide Text, GoodDocument, DocumentText, TreeValue;
    if Text(t) == Some(v) {
      var d := DocumentFrom(t);
      assert GoodDocument(d) && DocumentText(d) == t && TreeValue(d.tree) == v;
    }
    if d :| GoodDocument(d) && DocumentText(d) == t && TreeValue(d.tree) == v {
      DocumentRead(d);
    }
  }

  // ----- texts written out -----

  /** The decimal digits of a number, without leading zeros. */
  function DigitsOf(n: nat): (ds: seq<Digit>)
    ensures ds != [] && (|ds| >= 2 ==> ds[0] != 0)
    ensures n > 0 ==> ds[0] != 0
  {
    if n < 10 then [n] else DigitsOf(n / 10) + [n % 10]
  }

  lemma {:induction false} DigitsOfValue(n: nat)
    ensures WholeValue(DigitsOf(n)) == n
  {
    if n >= 10 {
      DigitsOfValue(n / 10);
      var ds := DigitsOf(n);
      assert ds[..|ds| - 1] == DigitsOf(n / 10);
    }
  }

  function Plain(tree: Tree): Document {
    Document(false, "", tree, "", "")
  }

  lemma {:induction false} PlainRead(tree: Tree)
    requires GoodTree(tree)
    ensures Text(TreeText(tree)) == Some(TreeValue(tree))
  {
    hide TreeText, TreeValue, Text;
    DocumentRead(Plain(tree));
    assert DocumentText(Plain(tree)) == TreeText(tree);
  }

  /** The decimal form of any whole number is read as that number. */
  lemma {:induction false} IntegerRead(n: int)
    ensures var digits := DigitsText(DigitsOf(if n < 0 then -n else n));
            Text((if n < 0 then "-" else "") + digits) == Some(Numeric(Integer(n)))
  {
    hide Text, DigitsText, WholeValue;
    var m := if n < 0 then -n else n;
    DigitsOfValue(m);
    var numeral := Numeral(n < 0, DigitsOf(m), None, None);
    PlainRead(NumberTree(numeral));
    assert NumeralText(numeral) == (if n < 0 then "-" else "") + DigitsText(DigitsOf(m));
  }

  lemma {:induction false} OneDigit(d: Digit)
    ensures DigitsText([d]) == ["0123456789"[d]] && WholeValue([d]) == d
    ensures FractionValue([d]) == d as real / 10.0
  {
    assert [d][..0] == [] && Ten(1) == 10 * Ten(0);
  }

  lemma {:induction false} TwoDigits(d: Digit, e: Digit)
    ensures DigitsText([d, e]) == ["0123456789"[d], "0123456789"[e]] && WholeValue([d, e]) == 10 * d + e
  {
    OneDigit(d);
    assert [d, e][..1] == [d];
  }

  /** Some numbers. */
  lemma {:induction false} NumberExamples()
    ensures Text("12") == Some(Numeric(Integer(12))) && Text("-90") == Some(Numeric(Integer(-90)))
    ensures Text("-2.5e1") == Some(Numeric(Double(-25.0))) && Text("3E-1") == Some(Numeric(Double(0.3)))
  {
    hide Text, DigitsText, WholeValue, FractionValue, TreeText;
    TwoDigits(1, 2);
    TwoDigits(9, 0);
    OneDigit(1);
    OneDigit(2);
    OneDigit(3);
    OneDigit(5);
    assert Ten(1) == 10 * Ten(0);
    NumberText(Numeral(false, [1, 2], None, None), "12");
    NumberText(Numeral(true, [9, 0], None, None), "-90");
    NumberText(Numeral(true, [2], Some([5]), Some(Power('e', Unsigned, [1]))), "-2.5e1");
    NumberText(Numeral(false, [3], None, Some(Power('E', Minus, [1]))), "3E-1");
  }

  lemma {:induction false} NumberText(n: Numeral, text: string)
    requires GoodNumeral(n) && NumeralText(n) == text
    ensures Text(text) == Some(Numeric(NumeralValue(n)))
  {
    hide Text, NumeralText, NumeralValue;
    PlainRead(NumberTree(n));
  }

  lemma {:induction false} PiecesUnfold(p: Piece, ps: seq<Piece>)
    ensures PiecesText([p] + ps) == PieceText(p) + PiecesText(ps)
    ensures PiecesBytes([p] + ps) == PieceBytes(p) + PiecesBytes(ps)
  {
    assert ([p] + ps)[1..] == ps;
  }

  lemma {:induction false} EscapeUnfold(c: char, ps: seq<Piece>)
    ensures PiecesText([Escaped(c)] + ps) == ['\\', c] + PiecesText(ps)
    ensures PiecesBytes([Escaped(c)] + ps) == [EscapedByte(c)] + PiecesBytes(ps)
  {
    PiecesUnfold(Escaped(c), ps);
  }

  /** A backspace, a form feed, a line feed, a carriage return and a tab; a quote and a backslash. */
  lemma {:induction false} EscapeExamples()
    ensures Text("\"\\b\\f\\n\\r\\t\"") == Some(String([8 as char, 12 as char, 10 as char, 13 as char, 9 as char]))
    ensures Text("\"\\\"\\\\\"") == Some(String("\"\\"))
  {
    hide Text, PiecesText, PiecesBytes;
    NoPieces();
    var t := [Escaped('t')];
    assert t == [Escaped('t')] + [];
    EscapeUnfold('t', []);
    EscapeUnfold('r', t);
    var r := [Escaped('r')] + t;
    EscapeUnfold('n', r);
    var n := [Escaped('n')] + r;
    EscapeUnfold('f', n);
    var f := [Escaped('f')] + n;
    EscapeUnfold('b', f);
    var b := [Escaped('b')] + f;
    assert "\"" + PiecesText(b) == "\"\\b\\f\\n\\r\\t\"";
    assert PiecesBytes(b) == [8 as char, 12 as char, 10 as char, 13 as char, 9 as char];
    StringText(b);
    var slash := [Escaped('\\')];
    assert slash == [Escaped('\\')] + [];
    EscapeUnfold('\\', []);
    EscapeUnfold('"', slash);
    var quote := [Escaped('"')] + slash;
    assert "\"" + PiecesText(quote) == "\"\\\"\\\\\"";
    assert PiecesBytes(quote) == "\"\\";
    StringText(quote);
  }

  /** U+00E9 in either case of its digits. */
  lemma {:induction false} CodedExamples()
    ensures Text("\"\\u00e9\"") == Some(String([0xC3 as char, 0xA9 as char])) == Text("\"\\u00E9\"")
  {
    hide Text, PiecesText, PiecesBytes;
    NoPieces();
    var zero, nine := Hex(0, false), Hex(9, false);
    var lower, upper := Coded(Unit(zero, zero, Hex(14, false), nine)), Coded(Unit(zero, zero, Hex(14, true), nine));
    PiecesUnfold(lower, []);
    PiecesUnfold(upper, []);
    assert [lower] + [] == [lower] && [upper] + [] == [upper];
    assert "\"" + PiecesText([lower]) == "\"\\u00e9\"" && "\"" + PiecesText([upper]) == "\"\\u00E9\"";
    assert PiecesBytes([lower]) == [0xC3 as char, 0xA9 as char] == PiecesBytes([upper]);
    StringText([lower]);
    StringText([upper]);
  }

  lemma {:induction false} NoPieces()
    ensures PiecesText([]) == "\"" && PiecesBytes([]) == ""
  {
  }

  lemma {:induction false} StringText(ps: seq<Piece>)
    requires GoodPieces(ps)
    ensures Text("\"" + PiecesText(ps)) == Some(String(PiecesBytes(ps)))
  {
    hide Text, PiecesText, PiecesBytes;
    PlainRead(StringTree(ps));
  }
}
