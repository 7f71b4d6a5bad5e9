/**
 The text of a sample line, `<field>=<value>,<field>=<value>,...`: trimming, the format check, the
 tokens of strtok over ',' and '=', and what splitting on ',' and then on '=' gives.
 */
module LineText {
  import opened Wrappers

  const NUL := '\0'

  /** The spaces of the C locale. */
  predicate IsSpace(c: char) {
    c == ' ' || c == '\n' || c == '\r' || c == '\t' || c as int == 11 || c as int == 12
  }

  function TrimRight(s: string): (r: string)
    ensures r <= s && (r != "" ==> !IsSpace(r[|r| - 1]))
  {
    if s == "" || !IsSpace(s[|s| - 1]) then s else TrimRight(s[..|s| - 1])
  }

  function TrimLeft(s: string): (r: string)
    ensures |r| <= |s| && (r != "" ==> !IsSpace(r[0]))
  {
    if s == "" || !IsSpace(s[0]) then s else TrimLeft(s[1..])
  }

  function Trim(s: string): string {
    TrimLeft(TrimRight(s))
  }

  /** A text without outer spaces. */
  predicate Tight(s: string) {
    s != "" && !IsSpace(s[0]) && !IsSpace(s[|s| - 1])
  }

  lemma {:induction false} TightTrims(s: string)
    requires Tight(s)
    ensures Trim(s) == s && Trim(s + "\n") == s
  {
    assert (s + "\n")[..|s|] == s;
    assert TrimRight(s + "\n") == TrimRight(s);
  }

  predicate IsDelimiter(c: char) {
    c == ',' || c == '='
  }

  predicate Plain(s: string) {
    forall i :: 0 <= i < |s| ==> !IsDelimiter(s[i])
  }

  // ----- the format check -----

  /** 0: a field begins; 1: in a field; 2: in a value.  None is an invalid line. */
  function Scan(s: string, state: nat): Option<nat>
    decreases |s|
  {
    if s == "" then Some(state)
    else if state == 0 then if IsDelimiter(s[0]) then None else Scan(s[1..], 1)
    else if state == 1 then
      if s[0] == '=' then Scan(s[1..], 2) else if s[0] == ',' then None else Scan(s[1..], 1)
    else
      if s[0] == ',' then Scan(s[1..], 0) else if s[0] == '=' then None else Scan(s[1..], 2)
  }

  predicate Validated(line: string) {
    Scan(line, 0) == Some(2)
  }

  // ----- pairs -----

  datatype Pair = Pair(field: string, value: string)

  predicate GoodPair(p: Pair) {
    p.field != "" && Plain(p.field) && Plain(p.value)
  }

  ghost predicate GoodPairs(pairs: seq<Pair>) {
    pairs != [] && forall i :: 0 <= i < |pairs| ==> GoodPair(pairs[i])
  }

  function Assignment(p: Pair): string {
    p.field + "=" + p.value
  }

  function Render(pairs: seq<Pair>): string {
    if pairs == [] then ""
    else if |pairs| == 1 then Assignment(pairs[0])
    else Assignment(pairs[0]) + "," + Render(pairs[1..])
  }

  /** The position of the first `c`, or the length. */
  function Find(s: string, c: char): (k: nat)
    ensures k <= |s| && (k < |s| ==> s[k] == c) && forall i :: 0 <= i < k ==> s[i] != c
  {
    if s == "" || s[0] == c then 0 else 1 + Find(s[1..], c)
  }

  function PairOf(piece: string): Pair {
    var k := Find(piece, '=');
    if k == |piece| then Pair(piece, "") else Pair(piece[..k], piece[k + 1..])
  }

  /** Splitting on ',' and then on the first '='. */
  function Split(line: string): seq<Pair>
    decreases |line|
  {
    var k := Find(line, ',');
    if k == |line| then [PairOf(line)] else [PairOf(line[..k])] + Split(line[k + 1..])
  }

  lemma {:induction false} ScanPlain(s: string, rest: string, state: nat)
    requires Plain(s) && 1 <= state <= 2
    ensures Scan(s + rest, state) == Scan(rest, state)
    decreases |s|
  {
    if s == "" {
      assert s + rest == rest;
    } else {
      assert (s + rest)[1..] == s[1..] + rest;
      ScanPlain(s[1..], rest, state);
    }
  }

  lemma {:induction false} ScanField(field: string, rest: string)
    requires field != "" && Plain(field)
    ensures Scan(field + rest, 0) == Scan(rest, 1)
  {
    assert (field + rest)[1..] == field[1..] + rest;
    ScanPlain(field[1..], rest, 1);
  }

  lemma {:induction false} ScanAssignment(p: Pair, rest: string)
    requires GoodPair(p)
    ensures Scan(Assignment(p) + rest, 0) == Scan(rest, 2)
  {
    assert Assignment(p) + rest == p.field + ("=" + (p.value + rest));
    ScanField(p.field, "=" + (p.value + rest));
    assert ("=" + (p.value + rest))[1..] == p.value + rest;
    ScanPlain(p.value, rest, 2);
  }

  /** What is written from good pairs is valid. */
  lemma {:induction false} RenderedIsValid(pairs: seq<Pair>)
    requires GoodPairs(pairs)
    ensures Validated(Render(pairs))
    decreases |pairs|
  {
    var first := pairs[0];
    if |pairs| == 1 {
      ScanAssignment(first, "");
      assert Assignment(first) + "" == Assignment(first);
    } else {
      var rest := Render(pairs[1..]);
      assert Assignment(first) + "," + rest == Assignment(first) + ("," + rest);
      ScanAssignment(first, "," + rest);
      assert ("," + rest)[1..] == rest;
      RenderedIsValid(pairs[1..]);
    }
  }

  lemma {:induction false} FindIs(s: string, c: char, k: nat)
    requires k <= |s| && (k < |s| ==> s[k] == c) && forall i :: 0 <= i < k ==> s[i] != c
    ensures Find(s, c) == k
  {
    hide Find;
    var found := Find(s, c);
  }

  lemma {:induction false} PlainJoins(c: char, s: string)
    requires !IsDelimiter(c) && Plain(s)
    ensures Plain([c] + s)
  {
  }

  lemma {:induction false} ScanFindsValue(s: string)
    requires Scan(s, 2) == Some(2)
    ensures var k := Find(s, ','); Plain(s[..k]) && (k < |s| ==> Scan(s[k + 1..], 0) == Some(2))
    decreases |s|
  {
    hide IsDelimiter, Plain;
    if s == "" || s[0] == ',' {
      assert s[..Find(s, ',')] == "";
      assert Plain("") by {
        NothingIsPlain();
      }
    } else {
      var rest := s[1..];
      ScanFindsValue(rest);
      var k := Find(rest, ',');
      assert s[..k + 1] == [s[0]] + rest[..k];
      assert !IsDelimiter(s[0]) by {
        NoDelimiter(s[0]);
      }
      PlainJoins(s[0], rest[..k]);
      assert k < |rest| ==> s[k + 2..] == rest[k + 1..];
    }
  }

  lemma {:induction false} NothingIsPlain()
    ensures Plain("")
  {
  }

  lemma {:induction false} NoDelimiter(c: char)
    ensures IsDelimiter(c) <==> c == ',' || c == '='
  {
  }

  lemma {:induction false} ScanFindsEquals(s: string)
    requires Scan(s, 1) == Some(2)
    ensures var e := Find(s, '='); e < |s| && Plain(s[..e]) && Scan(s[e + 1..], 2) == Some(2)
    decreases |s|
  {
    hide IsDelimiter, Plain;
    if s[0] == '=' {
      assert s[..Find(s, '=')] == "";
      NothingIsPlain();
    } else {
      var rest := s[1..];
      ScanFindsEquals(rest);
      var e := Find(rest, '=');
      assert s[..e + 1] == [s[0]] + rest[..e];
      NoDelimiter(s[0]);
      PlainJoins(s[0], rest[..e]);
      assert s[e + 2..] == rest[e + 1..];
    }
  }

  lemma {:induction false} ScanStarts(s: string)
    requires Validated(s)
    ensures s != "" && !IsDelimiter(s[0]) && Scan(s[1..], 1) == Some(2)
  {
  }

  /** What follows the first pair of a line: nothing, or a ',' and more pairs. */
  ghost predicate Follows(tail: string) {
    tail == "" || (tail[0] == ',' && Validated(tail[1..]))
  }

  /** A valid value runs up to the next ',' or the end. */
  lemma {:induction false} ValueEnds(s: string) returns (value: string, tail: string)
    requires Scan(s, 2) == Some(2)
    ensures s == value + tail && Plain(value) && Follows(tail)
  {
    hide Scan, Find;
    ScanFindsValue(s);
    var k := Find(s, ',');
    value, tail := s[..k], s[k..];
    assert k < |s| ==> tail[1..] == s[k + 1..];
  }

  /** A valid field runs up to an '='. */
  lemma {:induction false} FieldEnds(s: string) returns (field: string, rest: string)
    requires Validated(s)
    ensures s == field + "=" + rest && field != "" && Plain(field) && Scan(rest, 2) == Some(2)
  {
    hide Scan, Find, IsDelimiter, Plain;
    ScanStarts(s);
    ScanFindsEquals(s[1..]);
    var e := Find(s[1..], '=');
    field, rest := [s[0]] + s[1..][..e], s[1..][e + 1..];
    PlainJoins(s[0], s[1..][..e]);
    assert s[1..] == s[1..][..e] + "=" + rest;
    assert s == [s[0]] + s[1..];
  }

  /** A valid line begins with a good pair. */
  lemma {:induction false} FirstPair(s: string) returns (p: Pair, tail: string)
    requires Validated(s)
    ensures s == Assignment(p) + tail && GoodPair(p) && Follows(tail)
  {
    hide Scan, Plain, Follows;
    var field, rest := FieldEnds(s);
    var value, more := ValueEnds(rest);
    p, tail := Pair(field, value), more;
    assert field + "=" + (value + tail) == field + "=" + value + tail;
  }

  lemma {:induction false} SplitOne(p: Pair)
    requires GoodPair(p)
    ensures Split(Assignment(p)) == [p] && PairOf(Assignment(p)) == p && ',' !in Assignment(p)
  {
    var s := Assignment(p);
    assert forall i :: 0 <= i < |s| ==> s[i] != ',';
    FindIs(s, ',', |s|);
    FindIs(s, '=', |p.field|);
    assert s[..|p.field|] == p.field && s[|p.field| + 1..] == p.value;
  }

  lemma {:induction false} SplitFirst(p: Pair, rest: string)
    requires GoodPair(p)
    ensures Split(Assignment(p) + "," + rest) == [p] + Split(rest)
  {
    hide Find, PairOf, Assignment;
    SplitOne(p);
    var s, piece := Assignment(p) + "," + rest, Assignment(p);
    FindIs(s, ',', |piece|);
    assert s[..|piece|] == piece && s[|piece| + 1..] == rest;
  }

  /** A valid line is exactly what its pairs are written as. */
  lemma {:induction false} ValidIsRendered(line: string)
    requires Validated(line)
    ensures GoodPairs(Split(line)) && Render(Split(line)) == line
    decreases |line|
  {
    hide Scan, Split, GoodPair, Validated;
    var p, tail := FirstPair(line);
    SplitOne(p);
    if tail == "" {
      assert line == Assignment(p);
    } else {
      var rest := tail[1..];
      assert tail == "," + rest && line == Assignment(p) + "," + rest;
      SplitFirst(p, rest);
      ValidIsRendered(rest);
      assert Split(line)[1..] == Split(rest);
    }
  }

  // ----- tokens -----

  /** The part of `s` from its first character that is no delimiter. */
  function SkipDelimiters(s: string): (r: string)
    ensures |r| <= |s| && (r != "" ==> !IsDelimiter(r[0]))
    ensures Plain(s) ==> r == s
  {
    if s == "" || !IsDelimiter(s[0]) then s else SkipDelimiters(s[1..])
  }

  /** How many characters come before the next delimiter. */
  function TokenLength(s: string): (k: nat)
    ensures k <= |s| && Plain(s[..k]) && (k < |s| ==> IsDelimiter(s[k]))
  {
    if s == "" || IsDelimiter(s[0]) then 0
    else
      assert s[..1 + TokenLength(s[1..])] == [s[0]] + s[1..][..TokenLength(s[1..])];
      1 + TokenLength(s[1..])
  }

  /** What strtok leaves for its next call after a token of `k` characters. */
  function AfterToken(s: string, k: nat): string
    requires k <= |s|
  {
    if k < |s| then s[k + 1..] else ""
  }

  /** All tokens of strtok. */
  function Tokens(s: string): seq<string>
    decreases |s|
  {
    var t := SkipDelimiters(s);
    if t == "" then []
    else
      var k := TokenLength(t);
      [t[..k]] + Tokens(AfterToken(t, k))
  }

  lemma {:induction false} TokenLengthIs(s: string, k: nat)
    requires k <= |s| && Plain(s[..k]) && (k < |s| ==> IsDelimiter(s[k]))
    ensures TokenLength(s) == k
  {
    hide TokenLength;
    var found := TokenLength(s);
    assert forall i :: 0 <= i < k ==> !IsDelimiter(s[..k][i]);
    assert forall i :: 0 <= i < found ==> !IsDelimiter(s[..found][i]);
  }

  lemma {:induction false} TokenThen(token: string, d: char, rest: string)
    requires Plain(token) && IsDelimiter(d)
    ensures Tokens(token + [d] + rest) == (if token == "" then [] else [token]) + Tokens(rest)
  {
    var s := token + [d] + rest;
    if token == "" {
      assert s[0] == d && s[1..] == rest;
      assert SkipDelimiters(s) == SkipDelimiters(rest);
      assert Tokens(s) == Tokens(rest);
      assert [] + Tokens(rest) == Tokens(rest);
    } else {
      assert s[0] == token[0] && s[..|token|] == token && s[|token| + 1..] == rest;
      TokenLengthIs(s, |token|);
    }
  }

  lemma {:induction false} LastToken(token: string)
    requires Plain(token)
    ensures Tokens(token) == if token == "" then [] else [token]
  {
    if token != "" {
      assert token[..|token|] == token;
      TokenLengthIs(token, |token|);
      assert Tokens("") == [];
    }
  }

  function Flat(pairs: seq<Pair>): seq<string> {
    if pairs == [] then [] else [pairs[0].field, pairs[0].value] + Flat(pairs[1..])
  }

  /** The fields and the values that are not empty. */
  function FlatNonEmpty(pairs: seq<Pair>): seq<string> {
    if pairs == [] then []
    else [pairs[0].field] + (if pairs[0].value == "" then [] else [pairs[0].value]) + FlatNonEmpty(pairs[1..])
  }

  lemma {:induction false} AssignmentTokens(p: Pair, rest: string)
    requires GoodPair(p)
    ensures Tokens(Assignment(p) + "," + rest) == [p.field] + (if p.value == "" then [] else [p.value]) + Tokens(rest)
    ensures Tokens(Assignment(p)) == [p.field] + if p.value == "" then [] else [p.value]
  {
    hide Tokens;
    assert Assignment(p) + "," + rest == p.field + ['='] + (p.value + [','] + rest);
    TokenThen(p.field, '=', p.value + [','] + rest);
    TokenThen(p.value, ',', rest);
    var values := if p.value == "" then [] else [p.value];
    assert [p.field] + (values + Tokens(rest)) == [p.field] + values + Tokens(rest);
    assert Assignment(p) == p.field + ['='] + p.value;
    TokenThen(p.field, '=', p.value);
    LastToken(p.value);
  }

  lemma {:induction false} RenderedTokens(pairs: seq<Pair>)
    requires GoodPairs(pairs)
    ensures Tokens(Render(pairs)) == FlatNonEmpty(pairs)
    decreases |pairs|
  {
    hide Tokens, GoodPair;
    if |pairs| == 1 {
      AssignmentTokens(pairs[0], "");
      var all := [pairs[0].field] + if pairs[0].value == "" then [] else [pairs[0].value];
      assert FlatNonEmpty(pairs[1..]) == [] && all + [] == all;
    } else {
      AssignmentTokens(pairs[0], Render(pairs[1..]));
      RenderedTokens(pairs[1..]);
    }
  }

  ghost predicate NoEmptyValue(pairs: seq<Pair>) {
    forall i :: 0 <= i < |pairs| ==> pairs[i].value != ""
  }

  lemma {:induction false} FlatLength(pairs: seq<Pair>)
    ensures |Flat(pairs)| == 2 * |pairs| && |FlatNonEmpty(pairs)| <= 2 * |pairs|
    ensures FlatNonEmpty(pairs) == Flat(pairs) <==> NoEmptyValue(pairs)
    ensures |FlatNonEmpty(pairs)| == 2 * |pairs| ==> NoEmptyValue(pairs)
    decreases |pairs|
  {
    if pairs != [] {
      var first, rest := pairs[0], pairs[1..];
      FlatLength(rest);
      assert NoEmptyValue(pairs) <==> first.value != "" && NoEmptyValue(rest) by {
        assert forall i :: 0 <= i < |rest| ==> rest[i] == pairs[i + 1];
        if first.value != "" && NoEmptyValue(rest) {
          assert forall i :: 0 < i < |pairs| ==> pairs[i] == rest[i - 1];
        }
      }
      if first.value != "" {
        assert [first.field] + [first.value] + FlatNonEmpty(rest) == [first.field, first.value] + FlatNonEmpty(rest);
        assert Flat(pairs)[2..] == Flat(rest) && FlatNonEmpty(pairs)[2..] == FlatNonEmpty(rest);
      }
    }
  }

  /**
   On a valid line, strtok over both delimiters yields the same pairs as splitting on ',' and then
   on '=', exactly when no value is empty.
   */
  lemma {:induction false} TokensAreSplitExactly(line: string)
    requires Validated(line)
    ensures Tokens(line) == Flat(Split(line)) <==> NoEmptyValue(Split(line))
  {
    ValidIsRendered(line);
    RenderedTokens(Split(line));
    FlatLength(Split(line));
  }

  /** Splitting is the inverse of writing. */
  lemma {:induction false} SplitRendered(pairs: seq<Pair>)
    requires GoodPairs(pairs)
    ensures Split(Render(pairs)) == pairs
    decreases |pairs|
  {
    hide Split, GoodPair;
    var first := pairs[0];
    SplitOne(first);
    if |pairs| == 1 {
      assert [first] == pairs;
    } else {
      SplitFirst(first, Render(pairs[1..]));
      SplitRendered(pairs[1..]);
      assert [first] + pairs[1..] == pairs;
    }
  }
}
