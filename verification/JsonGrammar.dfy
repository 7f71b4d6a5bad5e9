/**
 A recursive grammar for the texts the parser is meant to accept: RFC 8259, sections 2 to 7,
 together with what the parser tolerates (one trailing comma before a closing bracket, an empty
 integer part after a minus sign, unknown escapes taken literally, raw control characters in
 strings, an embedded NUL taken as the end of the text) and its size limits.
 Every function takes the position where its construct starts and gives the position after it.
 */
module JsonGrammar {
  import opened Wrappers
  import opened JsonText

  function SkipWhitespace(t: string, i: nat): (j: nat)
    ensures i <= j && (i <= |t| ==> j <= |t|)
    ensures !IsWhitespace(At(t, j))
    decreases |t| - i
  {
    if IsWhitespace(At(t, i)) then SkipWhitespace(t, i + 1) else i
  }

  // ----- strings -----

  /** `\uXXXX`, from the position after the `u`: the stored bytes and the position after the escape. */
  function UnicodeEscape(t: string, i: nat): (r: Option<(string, nat)>)
    ensures r.Some? ==> i < r.value.1 <= |t|
  {
    match Hex4(t, i)
    case None => None
    case Some(u) =>
      if !IsSurrogate(u) then Some((EncodeCodePoint(u), i + 4))
      else if At(t, i + 4) != '\\' || At(t, i + 5) != 'u' then None
      else match Hex4(t, i + 6)
        case None => None
        case Some(u2) => Some((EncodeCodePoint(CombineSurrogates(u, u2)), i + 10))
  }

  /** An escape, from the position after the backslash. */
  function Escape(t: string, i: nat): (r: Option<(string, nat)>)
    ensures r.Some? ==> i < r.value.1 <= |t|
  {
    match At(t, i)
    case '\0' => None
    case 'b' => Some(([8 as char], i + 1))
    case 'f' => Some(([12 as char], i + 1))
    case 'n' => Some(("\n", i + 1))
    case 'r' => Some(("\r", i + 1))
    case 't' => Some(("\t", i + 1))
    case 'u' => UnicodeEscape(t, i + 1)
    case c => Some(([c], i + 1))
  }

  /** The rest of a string, from any position inside it up to and including the closing quote. */
  function StringBody(t: string, i: nat): (r: Option<(string, nat)>)
    ensures r.Some? ==> i < r.value.1 <= |t| && t[r.value.1 - 1] == '"'
    decreases |t| - i
  {
    match At(t, i)
    case '\0' => None
    case '"' => Some(("", i + 1))
    case '\\' => (
      match Escape(t, i + 1)
      case None => None
      case Some((bytes, j)) => Prepend(bytes, StringBody(t, j)))
    case c => Prepend([c], StringBody(t, i + 1))
  }

  function Prepend(bytes: string, r: Option<(string, nat)>): Option<(string, nat)> {
    match r
    case None => None
    case Some((s, j)) => Some((bytes + s, j))
  }

  /** A string no longer than the parser can count, from the position after the opening quote. */
  function QuotedString(t: string, i: nat): (r: Option<(string, nat)>)
    ensures r.Some? ==> i < r.value.1 <= |t| && t[r.value.1 - 1] == '"' && |r.value.0| <= UINT_LIMIT
  {
    match StringBody(t, i)
    case None => None
    case Some((s, j)) => if |s| <= UINT_LIMIT then Some((s, j)) else None
  }

  // ----- numbers -----

  /** [ minus ] int [ frac ] [ exp ], where the integer part may be missing after a minus sign. */
  function NumberToken(t: string, i: nat): (r: Option<(Number, nat)>)
    requires IsDigit(At(t, i)) || At(t, i) == '-'
    ensures r.Some? ==> i < r.value.1 <= |t|
  {
    var negative := At(t, i) == '-';
    var start := if negative then i + 1 else i;
    var j := DigitsEnd(t, start);
    if j - start >= 2 && At(t, start) == '0' then None
    else match Fraction(t, start, j)
      case None => None
      case Some((n, k)) => match Exponent(t, n, k)
        case None => None
        case Some((n', e)) => Some((Negated(negative, n'), e))
  }

  /** [ frac ] after the integer digits of `t` from `start` up to `j`. */
  function Fraction(t: string, start: nat, j: nat): (r: Option<(Number, nat)>)
    requires start <= j <= |t|
    requires forall k :: start <= k < j ==> IsDigit(At(t, k))
    ensures r.Some? ==> j <= r.value.1 <= |t|
  {
    var whole := Decimal(t, start, j);
    if At(t, j) != '.' then Some((Integer(whole), j))
    else
      var k := DigitsEnd(t, j + 1);
      if j == start || k == j + 1 then None
      else Some((Double(PlusFraction(whole as real, Decimal(t, j + 1, k), k - (j + 1))), k))
  }

  /** [ exp ] applied to the number read so far. */
  function Exponent(t: string, n: Number, i: nat): (r: Option<(Number, nat)>)
    requires i <= |t|
    ensures r.Some? ==> i <= r.value.1 <= |t|
  {
    if At(t, i) != 'e' && At(t, i) != 'E' then Some((n, i))
    else
      var signed := At(t, i + 1) == '+' || At(t, i + 1) == '-';
      var start := if signed then i + 2 else i + 1;
      var j := DigitsEnd(t, start);
      if j == start then None
      else
        var e := Decimal(t, start, j);
        Some((Double(TimesPow10(AsReal(n), if At(t, i + 1) == '-' then -e else e)), j))
  }

  // ----- values -----

  predicate Literal(t: string, i: nat, word: string): (found: bool)
    requires '\0' !in word
    ensures found && |word| > 0 ==> i + |word| <= |t|
  {
    assert |word| > 0 ==> word[|word| - 1] in word;
    forall k :: 0 <= k < |word| ==> At(t, i + k) == word[k]
  }

  function ValueAt(t: string, i: nat): (r: Option<(Value, nat)>)
    ensures r.Some? ==> i < r.value.1 <= |t|
    decreases |t| - i, 0
  {
    var b := At(t, i);
    if b == '{' then
      match MembersAt(t, i + 1)
      case None => None
      case Some((ms, j)) => if MemberCount(ms) <= UINT_LIMIT then Some((Object(ms), j)) else None
    else if b == '[' then
      match ItemsAt(t, i + 1)
      case None => None
      case Some((items, j)) => if ItemCount(items) <= UINT_LIMIT then Some((Array(items), j)) else None
    else if b == '"' then
      match QuotedString(t, i + 1)
      case None => None
      case Some((s, j)) => Some((String(s), j))
    else if b == 't' then
      if Literal(t, i, "true") then Some((Boolean(true), i + 4)) else None
    else if b == 'f' then
      if Literal(t, i, "false") then Some((Boolean(false), i + 5)) else None
    else if b == 'n' then
      if Literal(t, i, "null") then Some((Null, i + 4)) else None
    else if IsDigit(b) || b == '-' then
      match NumberToken(t, i)
      case None => None
      case Some((n, j)) => Some((Numeric(n), j))
    else None
  }

  /** The items of an array, up to and including its closing bracket. */
  function ItemsAt(t: string, i: nat): (r: Option<(Items, nat)>)
    ensures r.Some? ==> i < r.value.1 <= |t| && t[r.value.1 - 1] == ']'
    decreases |t| - i, 1
  {
    var k := SkipWhitespace(t, i);
    if At(t, k) == ']' then Some((NoItems, k + 1))
    else match ValueAt(t, k)
      case None => None
      case Some((v, j)) => MoreItems(t, j, v)
  }

  /** What follows the item `v`: the closing bracket, or a comma and the remaining items. */
  function MoreItems(t: string, i: nat, v: Value): (r: Option<(Items, nat)>)
    ensures r.Some? ==> r.value.0.Item? && i < r.value.1 <= |t| && t[r.value.1 - 1] == ']'
    decreases |t| - i, 0
  {
    var e := SkipWhitespace(t, i);
    if At(t, e) == ']' then Some((Item(v, NoItems), e + 1))
    else if At(t, e) == ',' then
      match ItemsAt(t, e + 1)
      case None => None
      case Some((rest, j)) => Some((Item(v, rest), j))
    else None
  }

  /** A member name and its colon, from the opening quote: the name, and where the value starts. */
  function NameAt(t: string, i: nat): (r: Option<(string, nat)>)
    ensures r.Some? ==> i < r.value.1 <= |t|
  {
    if At(t, i) != '"' then None
    else match QuotedString(t, i + 1)
      case None => None
      case Some((name, j)) =>
        var c := SkipWhitespace(t, j);
        if At(t, c) == ':' then Some((name, SkipWhitespace(t, c + 1))) else None
  }

  /** The members of an object, up to and including its closing brace. */
  function MembersAt(t: string, i: nat): (r: Option<(Members, nat)>)
    ensures r.Some? ==> i < r.value.1 <= |t| && t[r.value.1 - 1] == '}'
    decreases |t| - i, 1
  {
    var k := SkipWhitespace(t, i);
    if At(t, k) == '}' then Some((NoMembers, k + 1))
    else match NameAt(t, k)
      case None => None
      case Some((name, s)) => match ValueAt(t, s)
        case None => None
        case Some((v, j)) => MoreMembers(t, j, name, v)
  }

  /** What follows a member: the closing brace, or a comma and the remaining members. */
  function MoreMembers(t: string, i: nat, name: string, v: Value): (r: Option<(Members, nat)>)
    ensures r.Some? ==> r.value.0.Member? && i < r.value.1 <= |t| && t[r.value.1 - 1] == '}'
    decreases |t| - i, 0
  {
    var e := SkipWhitespace(t, i);
    if At(t, e) == '}' then Some((Member(name, v, NoMembers), e + 1))
    else if At(t, e) == ',' then
      match MembersAt(t, e + 1)
      case None => None
      case Some((rest, j)) => Some((Member(name, v, rest), j))
    else None
  }

  /** Where parsing starts: after a UTF-8 byte order mark. */
  function TextStart(t: string): nat {
    if |t| >= 3 && t[0] as int == 0xEF && t[1] as int == 0xBB && t[2] as int == 0xBF then 3 else 0
  }

  /** The value of a whole text. */
  function Text(t: string): Option<Value> {
    match ValueAt(t, SkipWhitespace(t, TextStart(t)))
    case None => None
    case Some((v, j)) => if At(t, SkipWhitespace(t, j)) == '\0' then Some(v) else None
  }
}
