/**
 What the bytes stored for `\u` escapes mean: a decoder written from section 3 of RFC 3629, and the
 code points that escapes denote according to section 7 of RFC 8259.
 */
module JsonUnicode {
  import opened Wrappers
  import opened JsonText
  import opened JsonGrammar

  // ----- RFC 3629 -----

  /** The value of the x bits of a byte whose high bits are `mark`, if it has them. */
  function Payload(c: char, mark: nat, size: nat): Option<nat> {
    var b := c as int;
    if mark <= b < mark + size then Some(b - mark) else None
  }

  function Tail(c: char): Option<nat> {
    Payload(c, 0x80, 0x40)
  }

  /** A code point that UTF-8 may encode: not a surrogate, at most U+10FFFF. */
  predicate IsScalar(u: nat) {
    u <= 0xD7FF || 0xE000 <= u <= 0x10FFFF
  }

  /** The code point of a well-formed UTF-8 sequence, in its only (shortest) form. */
  function DecodeUtf8(s: string): Option<nat> {
    if |s| == 1 then
      if s[0] as int <= 0x7F then Some(s[0] as int) else None
    else if |s| == 2 then
      match (Payload(s[0], 0xC0, 0x20), Tail(s[1]))
      case (Some(a), Some(b)) => Checked(a * 0x40 + b, 0x80)
      case _ => None
    else if |s| == 3 then
      match (Payload(s[0], 0xE0, 0x10), Tail(s[1]), Tail(s[2]))
      case (Some(a), Some(b), Some(c)) => Checked(a * 0x1000 + b * 0x40 + c, 0x800)
      case _ => None
    else if |s| == 4 then
      match (Payload(s[0], 0xF0, 8), Tail(s[1]), Tail(s[2]), Tail(s[3]))
      case (Some(a), Some(b), Some(c), Some(d)) => Checked(a * 0x4_0000 + b * 0x1000 + c * 0x40 + d, 0x1_0000)
      case _ => None
    else None
  }

  function Checked(u: nat, least: nat): Option<nat> {
    if least <= u && IsScalar(u) then Some(u) else None
  }

  lemma {:induction false} Digits64(a: nat, b: nat)
    requires b < 0x40
    ensures (a * 0x40 + b) / 0x40 == a && (a * 0x40 + b) % 0x40 == b
  {
  }

  lemma {:induction false} Nested64(u: nat)
    ensures u / 0x1000 == u / 0x40 / 0x40 && u / 0x4_0000 == u / 0x40 / 0x40 / 0x40
  {
  }

  lemma {:induction false} DecodesEncoding(u: nat)
    requires IsScalar(u)
    ensures DecodeUtf8(EncodeCodePoint(u)) == Some(u)
  {
    if u > 0xFFFF {
      DecodesFour(u);
    } else {
      Nested64(u);
      var q, r := u / 0x40, u / 0x40 / 0x40;
      if u > 0x7FF {
        assert q == r * 0x40 + q % 0x40 && u == q * 0x40 + u % 0x40;
      }
    }
  }

  lemma {:induction false} DecodesFour(u: nat)
    requires IsScalar(u) && u > 0xFFFF
    ensures DecodeUtf8(EncodeCodePoint(u)) == Some(u)
  {
    Nested64(u);
    var q, r := u / 0x40, u / 0x40 / 0x40;
    var a := r / 0x40;
    assert r == a * 0x40 + r % 0x40 && q == r * 0x40 + q % 0x40 && u == q * 0x40 + u % 0x40;
    assert u == a * 0x4_0000 + r % 0x40 * 0x1000 + q % 0x40 * 0x40 + u % 0x40;
  }

  lemma {:induction false} EncodesDecoding(s: string)
    requires DecodeUtf8(s).Some?
    ensures DecodeUtf8(s).value < 0x11_0000 && s == EncodeCodePoint(DecodeUtf8(s).value)
  {
    if |s| == 2 {
      Digits64(s[0] as int - 0xC0, s[1] as int - 0x80);
    } else if |s| == 3 {
      EncodesThree(s);
    } else if |s| == 4 {
      EncodesFour(s);
    }
  }

  lemma {:induction false} EncodesThree(s: string)
    requires DecodeUtf8(s).Some? && |s| == 3
    ensures DecodeUtf8(s).value < 0x11_0000 && s == EncodeCodePoint(DecodeUtf8(s).value)
  {
    var u := DecodeUtf8(s).value;
    Nested64(u);
    var a, b, c := s[0] as int - 0xE0, s[1] as int - 0x80, s[2] as int - 0x80;
    Digits64(a * 0x40 + b, c);
    Digits64(a, b);
    assert u / 0x40 == a * 0x40 + b && u % 0x40 == c;
  }

  lemma {:induction false} EncodesFour(s: string)
    requires DecodeUtf8(s).Some? && |s| == 4
    ensures DecodeUtf8(s).value < 0x11_0000 && s == EncodeCodePoint(DecodeUtf8(s).value)
  {
    var u := DecodeUtf8(s).value;
    Nested64(u);
    var a, b, c, d := s[0] as int - 0xF0, s[1] as int - 0x80, s[2] as int - 0x80, s[3] as int - 0x80;
    var abc := (a * 0x40 + b) * 0x40 + c;
    Digits64(abc, d);
    Digits64(a * 0x40 + b, c);
    Digits64(a, b);
    assert u / 0x40 == abc && u % 0x40 == d;
  }

  /** The stored bytes are the one UTF-8 form of the code point. */
  lemma {:induction false} EncodesUtf8(u: nat, s: string)
    requires IsScalar(u)
    ensures DecodeUtf8(s) == Some(u) <==> s == EncodeCodePoint(u)
  {
    hide DecodeUtf8, EncodeCodePoint;
    DecodesEncoding(u);
    if DecodeUtf8(s).Some? {
      EncodesDecoding(s);
    }
  }

  // ----- surrogate pairs -----

  predicate IsHigh(u: nat) {
    0xD800 <= u <= 0xDBFF
  }

  predicate IsLow(u: nat) {
    0xDC00 <= u <= 0xDFFF
  }

  /** The code point a surrogate pair stands for. */
  function PairScalar(high: nat, low: nat): (u: nat)
    requires IsHigh(high) && IsLow(low)
    ensures 0x1_0000 <= u <= 0x10FFFF
  {
    0x1_0000 + (high - 0xD800) * 0x400 + (low - 0xDC00)
  }

  predicate Bit6(u: nat) {
    u / 0x40 % 2 == 1
  }

  /** The `|` adds 0x10000 only when bit 6 of the high half is clear. */
  lemma {:induction false} CombinesPair(high: nat, low: nat)
    requires IsHigh(high) && IsLow(low)
    ensures CombineSurrogates(high, low) == if Bit6(high) then PairScalar(high, low) - 0x1_0000
            else PairScalar(high, low)
  {
    var x := (high - 0xD800) * 0x400 + (low - 0xDC00);
    assert high % 0x400 == high - 0xD800 && low % 0x400 == low - 0xDC00;
    assert x / 0x1_0000 == (high - 0xD800) / 0x40;
    assert high / 0x40 == 0xD800 / 0x40 + (high - 0xD800) / 0x40;
  }

  /** Of both units only the low ten bits count, whatever they are. */
  lemma {:induction false} LowBitsCount(first: nat, second: nat)
    ensures CombineSurrogates(first, second) == CombineSurrogates(0xD800 + first % 0x400, 0xDC00 + second % 0x400)
  {
    assert (0xD800 + first % 0x400) % 0x400 == first % 0x400 && (0xDC00 + second % 0x400) % 0x400 == second % 0x400;
  }

  // ----- escapes in a text -----

  /** An escape of a code point outside the surrogates stores the UTF-8 form of that code point. */
  lemma {:induction false} PlainEscape(t: string, i: nat, u: nat)
    requires Hex4(t, i) == Some(u) && !(0xD800 <= u <= 0xDFFF)
    ensures UnicodeEscape(t, i).Some? && DecodeUtf8(UnicodeEscape(t, i).value.0) == Some(u)
  {
    EncodesUtf8(u, EncodeCodePoint(u));
  }

  /**
   An escaped surrogate pair stores four bytes, and they are the UTF-8 form of the pair's code point
   exactly when bit 6 of the high half is clear.
   */
  lemma {:induction false} PairEscape(t: string, i: nat, high: nat, low: nat)
    requires Hex4(t, i) == Some(high) && IsHigh(high)
    requires At(t, i + 4) == '\\' && At(t, i + 5) == 'u' && Hex4(t, i + 6) == Some(low) && IsLow(low)
    ensures UnicodeEscape(t, i).Some?
    ensures var bytes := UnicodeEscape(t, i).value.0;
            && |bytes| == 4
            && (DecodeUtf8(bytes) == Some(PairScalar(high, low)) <==> !Bit6(high))
            && (Bit6(high) ==> DecodeUtf8(bytes) == Some(PairScalar(high, low) - 0x1_0000))
  {
    CombinesPair(high, low);
    var u := CombineSurrogates(high, low);
    EncodesUtf8(u, EncodeCodePoint(u));
  }

  /** U+10000 comes out right, and U+20000, which is written D840 DC00, comes out as U+10000. */
  lemma {:induction false} PairExamples()
    ensures CombineSurrogates(0xD800, 0xDC00) == PairScalar(0xD800, 0xDC00) == 0x1_0000
    ensures CombineSurrogates(0xD840, 0xDC00) == 0x1_0000 && PairScalar(0xD840, 0xDC00) == 0x2_0000
  {
  }

  // ----- the bitwise forms used by the program -----

  /** `OrBit16` is the OR of the program. */
  lemma {:induction false} OrBit16IsBitwise(x: bv32)
    ensures x <= 0xF_FFFF ==> (0x1_0000 | x) == if (x >> 16) & 1 == 1 then x else x + 0x1_0000
  {
  }

  /** `IsSurrogate` is the mask test of the program. */
  lemma {:induction false} IsSurrogateIsBitwise(u: bv16)
    ensures (u & 0xF800) == 0xD800 <==> u >> 11 == 0x1B
  {
  }

  /** The sums of `EncodeCodePoint` are the ORs of the program: the marks and the payloads share no bit. */
  lemma {:induction false} MarksAreBitwise(u: bv8)
    ensures (0x80 | (u & 0x3F)) == 0x80 + (u & 0x3F)
    ensures u < 0x20 ==> (0xC0 | u) == 0xC0 + u
    ensures u < 0x10 ==> (0xE0 | u) == 0xE0 + u
    ensures u < 0x08 ==> (0xF0 | u) == 0xF0 + u
  {
  }
}
