/**
 JSON texts, the values they denote, and the lexical parts both the grammar and the
 parser rely on.  A `char` stands for one byte of the C text, which is followed by a NUL.
 */
module JsonText {
  import opened Wrappers

  /** `uint_max` of the parser: UINT_MAX less the slack it subtracts at start-up. */
  const UINT_LIMIT: nat := 0xFFFF_FFFF - 8

  /** The byte the parser sees at position `i`: the NUL terminator from the end onwards. */
  function At(t: string, i: nat): char {
    if i < |t| then t[i] else '\0'
  }

  predicate IsWhitespace(b: char) {
    b == ' ' || b == '\t' || b == '\r' || b == '\n'
  }

  predicate IsDigit(b: char) {
    '0' <= b <= '9'
  }

  function DigitValue(b: char): int
    requires IsDigit(b)
  {
    b as int - '0' as int
  }

  /** The characters skipped in bulk by the second pass over a number. */
  predicate IsNumberChar(b: char) {
    IsDigit(b) || b == '+' || b == '-' || b == 'e' || b == 'E' || b == '.'
  }

  // ----- values -----

  datatype Number = Integer(n: int) | Double(r: real)

  datatype Value =
    | Null
    | Boolean(b: bool)
    | Numeric(number: Number)
    | String(s: string)
    | Array(items: Items)
    | Object(members: Members)

  datatype Items = NoItems | Item(head: Value, tail: Items)

  datatype Members = NoMembers | Member(name: string, value: Value, rest: Members)

  function ItemCount(items: Items): nat {
    match items
    case NoItems => 0
    case Item(_, tail) => 1 + ItemCount(tail)
  }

  function MemberCount(members: Members): nat {
    match members
    case NoMembers => 0
    case Member(_, _, rest) => 1 + MemberCount(rest)
  }

  /** Bytes needed to store every member name with its NUL. */
  function NameBytes(members: Members): nat {
    match members
    case NoMembers => 0
    case Member(name, _, rest) => |name| + 1 + NameBytes(rest)
  }

  // ----- numbers -----

  function DigitsEnd(t: string, i: nat): (j: nat)
    ensures i <= j && (i <= |t| ==> j <= |t|)
    ensures !IsDigit(At(t, j))
    ensures forall k :: i <= k < j ==> IsDigit(At(t, k))
    decreases |t| - i
  {
    if IsDigit(At(t, i)) then DigitsEnd(t, i + 1) else i
  }

  /** The number written by the digits of `t` from `i` up to `j`. */
  function Decimal(t: string, i: nat, j: nat): int
    requires i <= j
    requires forall k :: i <= k < j ==> IsDigit(At(t, k))
    decreases j
  {
    if i == j then 0 else Decimal(t, i, j - 1) * 10 + DigitValue(At(t, j - 1))
  }

  /** Ten to the power `n`, for any sign of `n`. */
  function Pow10(n: int): (p: real)
    ensures p > 0.0
    decreases if n < 0 then -n else n
  {
    if n == 0 then 1.0
    else if n > 0 then 10.0 * Pow10(n - 1)
    else Pow10(n + 1) / 10.0
  }

  function AsReal(n: Number): real {
    match n
    case Integer(v) => v as real
    case Double(r) => r
  }

  /** `r` with its decimal point moved by `e` places, which is what `r * pow(10, e)` is over the reals. */
  function TimesPow10(r: real, e: int): real
    decreases if e < 0 then -e else e
  {
    if e == 0 then r else if e > 0 then TimesPow10(10.0 * r, e - 1) else TimesPow10(r / 10.0, e + 1)
  }

  lemma {:induction false} TimesPow10Is(r: real, e: int)
    ensures TimesPow10(r, e) == r * Pow10(e)
    decreases if e < 0 then -e else e
  {
    if e > 0 {
      TimesPow10Is(10.0 * r, e - 1);
      Regroup(r, 10.0, Pow10(e - 1));
    } else if e < 0 {
      TimesPow10Is(r / 10.0, e + 1);
      Regroup(r, 0.1, Pow10(e + 1));
      assert Pow10(e) == 0.1 * Pow10(e + 1) && r / 10.0 == 0.1 * r;
    }
  }

  lemma {:induction false} Regroup(a: real, b: real, c: real)
    ensures b * a * c == a * (b * c)
  {
  }

  /** A number with the fraction written by `digits` digits. */
  function PlusFraction(whole: real, fraction: int, digits: nat): real {
    whole + TimesPow10(fraction as real, 0 - digits)
  }

  /** That is the division by a power of ten, as it is computed. */
  lemma {:induction false} PlusFractionIs(whole: real, fraction: int, digits: nat)
    ensures PlusFraction(whole, fraction, digits) == whole + fraction as real / Pow10(digits)
  {
    TimesPow10Is(fraction as real, 0 - digits);
    Pow10Inverse(digits);
    Quotient(fraction as real, Pow10(digits), Pow10(0 - digits));
  }

  lemma {:induction false} Pow10Inverse(n: nat)
    ensures Pow10(n) * Pow10(0 - n) == 1.0
  {
    if n > 0 {
      Pow10Inverse(n - 1);
      var p, q := Pow10(n - 1), Pow10(1 - n);
      assert Pow10(n) == 10.0 * p && Pow10(0 - n) == q / 10.0;
      assert q / 10.0 == 0.1 * q;
      assert (10.0 * p) * (0.1 * q) == p * q;
    }
  }

  lemma {:induction false} Quotient(a: real, p: real, q: real)
    requires p > 0.0 && p * q == 1.0
    ensures a * q == a / p
  {
    assert (a * q) * p == a * (p * q);
  }

  /** The number after a minus sign. */
  function Negated(negative: bool, n: Number): Number {
    if !negative then n
    else match n
      case Integer(v) => Integer(-v)
      case Double(r) => Double(-r)
  }

  // ----- string escapes -----

  /** `hex_value`: the value of a hexadecimal digit, or 255 for any other byte. */
  function HexValue(c: char): (v: nat)
    ensures v <= 15 || v == 255
    ensures v != 255 ==> c != '\0'
  {
    if IsDigit(c) then DigitValue(c)
    else match c
      case 'a' => 10 case 'A' => 10
      case 'b' => 11 case 'B' => 11
      case 'c' => 12 case 'C' => 12
      case 'd' => 13 case 'D' => 13
      case 'e' => 14 case 'E' => 14
      case 'f' => 15 case 'F' => 15
      case _ => 255
  }

  /** Four hexadecimal digits starting at `i`. */
  function Hex4(t: string, i: nat): (u: Option<nat>)
    ensures u.Some? ==> u.value < 0x1_0000 && i + 4 <= |t|
  {
    var h1, h2, h3, h4 := HexValue(At(t, i)), HexValue(At(t, i + 1)), HexValue(At(t, i + 2)), HexValue(At(t, i + 3));
    if h1 == 255 || h2 == 255 || h3 == 255 || h4 == 255 then None
    else Some(((h1 * 16 + h2) * 16 + h3) * 16 + h4)
  }

  /** `(u & 0xF800) == 0xD800` */
  predicate IsSurrogate(u: nat) {
    u / 0x800 == 0x1B
  }

  /** `0x10000 | x` for the 20-bit values it is applied to. */
  function OrBit16(x: nat): nat {
    if x / 0x1_0000 % 2 == 1 then x else x + 0x1_0000
  }

  /** The code point computed from two escaped units, the first of them a surrogate. */
  function CombineSurrogates(high: nat, low: nat): (u: nat)
    ensures 0x1_0000 <= u < 0x11_0000
  {
    OrBit16(high % 0x400 * 0x400 + low % 0x400)
  }

  /** The bytes stored for an escaped code point. */
  function EncodeCodePoint(u: nat): (bytes: string)
    requires u < 0x11_0000
    ensures 1 <= |bytes| <= 4
  {
    if u <= 0x7F then
      [u as char]
    else if u <= 0x7FF then
      [(0xC0 + u / 0x40) as char, (0x80 + u % 0x40) as char]
    else if u <= 0xFFFF then
      [(0xE0 + u / 0x1000) as char, (0x80 + u / 0x40 % 0x40) as char, (0x80 + u % 0x40) as char]
    else
      [(0xF0 + u / 0x4_0000) as char, (0x80 + u / 0x1000 % 0x40) as char,
       (0x80 + u / 0x40 % 0x40) as char, (0x80 + u % 0x40) as char]
  }
}
