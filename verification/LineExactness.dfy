/**
 Which samples a line keeps: exactly those whose texts and characters are clean.
 */
module LineExactness {
  import opened LineText
  import opened LineValues
  import opened Wrappers

  // ----- what a line can give a sample -----

  /** No delimiter and no line end inside. */
  ghost predicate Tame(s: string) {
    Plain(s) && '\n' !in s
  }

  /** A value that a token can stand for. */
  ghost predicate TameValue(v: Value) {
    (v.Words? ==> Tame(v.s)) && (v.Character? ==> Tame([v.c]))
  }

  ghost predicate Within(s: string, t: string) {
    exists i, j :: 0 <= i <= j <= |t| && s == t[i..j]
  }

  lemma {:induction false} WithinWithin(s: string, t: string, u: string)
    requires Within(s, t) && Within(t, u)
    ensures Within(s, u)
  {
    var i, j :| 0 <= i <= j <= |t| && s == t[i..j];
    var k, l :| 0 <= k <= l <= |u| && t == u[k..l];
    var a, b := k + i, k + j;
    assert 0 <= a <= b <= |u| && |s| == b - a;
    assert forall x :: 0 <= x < |s| ==> s[x] == t[i + x] == u[a + x];
    assert s == u[a..b];
  }

  lemma {:induction false} TameWithin(s: string, t: string)
    requires Within(s, t) && Tame(t)
    ensures Tame(s)
  {
  }

  lemma {:induction false} TrimLeftWithin(s: string)
    ensures Within(TrimLeft(s), s)
    decreases |s|
  {
    if s == "" || !IsSpace(s[0]) {
      assert s == s[0..|s|];
    } else {
      TrimLeftWithin(s[1..]);
      assert s[1..] == s[1..|s|];
      WithinWithin(TrimLeft(s), s[1..], s);
    }
  }

  lemma {:induction false} TrimWithin(s: string)
    ensures Within(Trim(s), s)
  {
    var r := TrimRight(s);
    assert r == s[0..|r|];
    TrimLeftWithin(r);
    WithinWithin(Trim(s), r, s);
  }

  lemma {:induction false} UnquoteWithin(s: string)
    ensures Within(Unquote(s), s)
  {
    var t := if s != "" && s[0] == '"' then s[1..] else s;
    assert t == s[|s| - |t|..|s|];
    assert Unquote(s) == t[0..|Unquote(s)|];
    WithinWithin(Unquote(s), t, s);
  }

  lemma {:induction false} TokenTame(token: string)
    requires Tame(token)
    ensures Tame(Trim(token)) && Tame(Unquote(Trim(token)))
  {
    hide Trim, Unquote, Tame, Within;
    TrimWithin(token);
    UnquoteWithin(Trim(token));
    TameWithin(Trim(token), token);
    TameWithin(Unquote(Trim(token)), Trim(token));
  }

  lemma {:induction false} SkippedWithin(s: string)
    ensures '\n' !in s ==> '\n' !in SkipDelimiters(s)
    decreases |s|
  {
    if s != "" && IsDelimiter(s[0]) {
      SkippedWithin(s[1..]);
    }
  }

  lemma {:induction false} TokensAreTame(s: string)
    requires '\n' !in s
    ensures forall i :: 0 <= i < |Tokens(s)| ==> Tame(Tokens(s)[i])
    decreases |s|
  {
    var t := SkipDelimiters(s);
    SkippedWithin(s);
    if t != "" {
      var k := TokenLength(t);
      TokensAreTame(AfterToken(t, k));
      assert Tokens(s) == [t[..k]] + Tokens(AfterToken(t, k));
    }
  }

  /** What fgets takes has its line end only last, and the trimmed line has none. */
  lemma {:induction false} TrimmedIsOneLine(file: string, size: nat)
    requires size > 0
    ensures '\n' !in Trim(CText(Fgets(file, size)))
  {
    var got := CText(Fgets(file, size));
    assert forall i :: 0 <= i < |got| - 1 ==> got[i] != '\n';
    var r := TrimRight(got);
    assert forall i :: 0 <= i < |r| - 1 ==> r[i] == got[i];
    assert '\n' !in r;
    TrimLeftWithin(r);
  }

  /** All that was not there at the start is tame. */
  ghost predicate TameSince(start: map<string, Value>, values: map<string, Value>) {
    forall name :: name in values && name !in start ==> TameValue(values[name])
  }

  lemma {:induction false} ParsedIsTame(kind: Kind, text: string)
    requires Tame(text)
    ensures Parse(kind, text).Some? ==> TameValue(Parse(kind, text).value)
  {
  }

  lemma {:induction false} AssignedAreTame(kinds: map<string, Kind>, start: map<string, Value>,
                                           values: map<string, Value>, tokens: seq<string>)
    requires TameSince(start, values) && forall i :: 0 <= i < |tokens| ==> Tame(tokens[i])
    ensures TameSince(start, AssignAll(kinds, values, tokens).1)
    decreases |tokens|
  {
    hide Trim, Unquote, Parse, Tame, TameValue;
    if |tokens| > 1 {
      TokenTame(tokens[1]);
      var field, text := Trim(tokens[0]), Unquote(Trim(tokens[1]));
      if field in kinds {
        ParsedIsTame(kinds[field], text);
      }
      var r := Assign(kinds, values, field, text);
      AssignedAreTame(kinds, start, r.1, tokens[2..]);
    }
  }

  // ----- how many fields a line can set -----

  lemma {:induction false} AssignsAtMost(kinds: map<string, Kind>, values: map<string, Value>, tokens: seq<string>)
    ensures var r := AssignAll(kinds, values, tokens);
            values.Keys <= r.1.Keys && 2 * |r.1.Keys| <= 2 * |values.Keys| + |tokens|
    decreases |tokens|
  {
    hide Trim, Unquote, Parse;
    if |tokens| > 1 {
      var field, text := Trim(tokens[0]), Unquote(Trim(tokens[1]));
      var r := Assign(kinds, values, field, text);
      assert r.1.Keys == values.Keys || r.1.Keys == values.Keys + {field};
      AssignsAtMost(kinds, r.1, tokens[2..]);
    }
  }

  function NamesOf(members: seq<Member>): set<string> {
    if members == [] then {} else {members[0].name} + NamesOf(members[1..])
  }

  lemma {:induction false} NamesAre(members: seq<Member>)
    ensures forall name :: name in NamesOf(members) <==> exists i :: 0 <= i < |members| && members[i].name == name
  {
    if members != [] {
      var rest := members[1..];
      NamesAre(rest);
      forall name ensures name in NamesOf(members) <==> exists i :: 0 <= i < |members| && members[i].name == name {
        if i :| 0 <= i < |members| && members[i].name == name {
          if i > 0 {
            assert rest[i - 1].name == name;
          }
        }
        if name in NamesOf(rest) {
          var i :| 0 <= i < |rest| && rest[i].name == name;
          assert members[i + 1].name == name;
        }
      }
    }
  }

  lemma {:induction false} CountNames(members: seq<Member>)
    requires Distinct(members)
    ensures |NamesOf(members)| == |members|
  {
    if members != [] {
      var rest := members[1..];
      assert forall i :: 0 <= i < |rest| ==> rest[i] == members[i + 1];
      CountNames(rest);
      NamesAre(rest);
      assert members[0].name !in NamesOf(rest);
    }
  }

  /** To set every member, a line needs two tokens for each. */
  lemma {:induction false} NeedsAllTokens(members: seq<Member>, kinds: map<string, Kind>, start: map<string, Value>,
                                          tokens: seq<string>)
    requires Distinct(members) && forall i :: 0 <= i < |members| ==> members[i].name !in start
    requires var r := AssignAll(kinds, start, tokens); forall i :: 0 <= i < |members| ==> members[i].name in r.1
    ensures |tokens| >= 2 * |members|
  {
    hide AssignAll;
    var end := AssignAll(kinds, start, tokens).1;
    AssignsAtMost(kinds, start, tokens);
    NamesAre(members);
    CountNames(members);
    var names := NamesOf(members);
    assert names !! start.Keys && names + start.Keys <= end.Keys;
    Subset(names + start.Keys, end.Keys);
    assert |names + start.Keys| == |names| + |start.Keys|;
  }

  lemma {:induction false} Subset(a: set<string>, b: set<string>)
    requires a <= b
    ensures |a| <= |b|
  {
    assert b == a + (b - a);
  }

  // ----- what it sets them to -----

  /** The text a value is read from. */
  function Heard(p: Pair): string {
    Unquote(Trim(p.value))
  }

  ghost predicate NamedAs(pairs: seq<Pair>, members: seq<Member>) {
    && |pairs| == |members|
    && forall i :: 0 <= i < |members| ==> pairs[i].field == members[i].name && GoodName(members[i].name)
  }

  lemma {:induction false} RestNamed(pairs: seq<Pair>, members: seq<Member>)
    requires NamedAs(pairs, members) && members != []
    ensures NamedAs(pairs[1..], members[1..])
  {
  }

  lemma {:induction false} FlatStep(kinds: map<string, Kind>, values: map<string, Value>, p: Pair, rest: seq<string>)
    requires Tight(p.field)
    ensures AssignAll(kinds, values, [p.field, p.value] + rest)
            == var r := Assign(kinds, values, p.field, Heard(p));
               if r.0 then AssignAll(kinds, r.1, rest) else r
  {
    hide Assign, Unquote;
    TightTrims(p.field);
    var tokens := [p.field, p.value] + rest;
    assert tokens[2..] == rest;
  }

  /** Assigning pairs leaves other fields alone. */
  lemma {:induction false} OthersStay(kinds: map<string, Kind>, members: seq<Member>, pairs: seq<Pair>,
                                      values: map<string, Value>, name: string)
    requires NamedAs(pairs, members) && forall i :: 0 <= i < |members| ==> members[i].name != name
    ensures var r := AssignAll(kinds, values, Flat(pairs)).1;
            (name in r <==> name in values) && (name in r ==> r[name] == values[name])
    decreases |members|
  {
    hide AssignAll, Heard, GoodName;
    if members == [] {
      NothingAssigned(kinds, values);
    } else {
      var p, m := pairs[0], members[0];
      assert Tight(m.name) by {
        GoodIsTight(m.name);
      }
      FlatStep(kinds, values, p, Flat(pairs[1..]));
      RestNamed(pairs, members);
      OthersStay(kinds, members[1..], pairs[1..], Assign(kinds, values, p.field, Heard(p)).1, name);
    }
  }

  lemma {:induction false} GoodIsTight(name: string)
    requires GoodName(name)
    ensures Tight(name)
  {
  }

  /** If all are assigned, each gets the value of its own text. */
  lemma {:induction false} EachIsHeard(kinds: map<string, Kind>, members: seq<Member>, pairs: seq<Pair>,
                                       values: map<string, Value>, i: nat)
    requires NamedAs(pairs, members) && Distinct(members) && i < |members|
    requires AssignAll(kinds, values, Flat(pairs)).0
    ensures var r := AssignAll(kinds, values, Flat(pairs)).1;
            && members[i].name in kinds && members[i].name in r
            && Parse(kinds[members[i].name], Heard(pairs[i])) == Some(r[members[i].name])
    decreases |members|
  {
    hide AssignAll, Heard, GoodName, Parse;
    var p, rest := pairs[0], members[1..];
    GoodIsTight(members[0].name);
    FlatStep(kinds, values, p, Flat(pairs[1..]));
    RestNamed(pairs, members);
    assert forall j :: 0 <= j < |rest| ==> rest[j] == members[j + 1];
    var next := Assign(kinds, values, p.field, Heard(p)).1;
    if i == 0 {
      OthersStay(kinds, rest, pairs[1..], next, p.field);
    } else {
      EachIsHeard(kinds, rest, pairs[1..], next, i - 1);
    }
  }

  // ----- the line of a sample -----

  /** The values a member of each kind can have; a text ends before its first NUL. */
  predicate Typed(kind: Kind, v: Value) {
    match (kind, v)
    case (Char, Character(c)) => c != NUL
    case (Text, Words(s)) => NUL !in s
    case _ => Keepable(kind, v)
  }

  ghost predicate TypedSample(members: seq<Member>, values: map<string, Value>) {
    forall i :: 0 <= i < |members| ==>
      && GoodName(members[i].name) && members[i].name in values
      && Typed(members[i].kind, values[members[i].name])
  }

  /** The text of a member's value. */
  function TextOf(m: Member, values: map<string, Value>): string {
    var text := if m.name in values then Print(m.kind, values[m.name]) else None;
    if text.Some? then text.value else ""
  }

  lemma {:induction false} PrintsTyped(kind: Kind, v: Value)
    requires Typed(kind, v)
    ensures Print(kind, v).Some? && NUL !in Print(kind, v).value
    ensures Keepable(kind, v) <==> Clean(Print(kind, v).value)
    ensures TameValue(v) ==> Tame(Print(kind, v).value)
  {
    if Keepable(kind, v) {
      ParseRestores(kind, v);
    }
  }

  lemma {:induction false} PairsWritten(members: seq<Member>, values: map<string, Value>)
    requires TypedSample(members, values)
    ensures var pairs := PairsOf(members, values);
            && NamedAs(pairs, members) && WriteLine(members, values) == (true, Render(pairs) + "\n")
            && forall i :: 0 <= i < |members| ==> pairs[i].value == TextOf(members[i], values)
    decreases |members|
  {
    hide GoodName, Typed, Print;
    var pairs := PairsOf(members, values);
    if members == [] {
      assert Render(pairs) + "\n" == "\n";
    } else {
      var m, rest := members[0], members[1..];
      PrintsTyped(m.kind, values[m.name]);
      assert TypedSample(rest, values);
      PairsWritten(rest, values);
      assert pairs == [pairs[0]] + PairsOf(rest, values);
      assert pairs[1..] == PairsOf(rest, values);
      RenderStep(pairs, rest == []);
    }
  }

  lemma {:induction false} RenderStep(pairs: seq<Pair>, last: bool)
    requires pairs != [] && last == (|pairs| == 1)
    ensures Render(pairs) + "\n" == pairs[0].field + "=" + pairs[0].value + (if last then "" else ",") +
                                    (if last then "\n" else Render(pairs[1..]) + "\n")
  {
    if last {
      assert pairs[0].field + "=" + pairs[0].value + "" == Assignment(pairs[0]);
    } else {
      assert Render(pairs) == Assignment(pairs[0]) + "," + Render(pairs[1..]);
    }
  }

  // ----- trimming the line trims its last value -----

  function TrimLast(pairs: seq<Pair>): seq<Pair>
    requires pairs != []
  {
    var last := |pairs| - 1;
    pairs[last := pairs[last].(value := TrimRight(pairs[last].value))]
  }

  lemma {:induction false} TrimRightJoins(a: string, b: string)
    requires a != "" && !IsSpace(a[|a| - 1])
    ensures TrimRight(a + b) == a + TrimRight(b)
    decreases |b|
  {
    if b == "" || !IsSpace(b[|b| - 1]) {
      assert b == "" ==> a + b == a;
    } else {
      assert (a + b)[..|a + b| - 1] == a + b[..|b| - 1];
      TrimRightJoins(a, b[..|b| - 1]);
    }
  }

  /** The text before the last value of a line, and all but that value. */
  lemma {:induction false} RenderTrims(pairs: seq<Pair>)
    requires pairs != [] && Tight(pairs[0].field)
    ensures TrimRight(Render(pairs)) == Render(TrimLast(pairs)) && Render(TrimLast(pairs)) != ""
    ensures Trim(Render(pairs)) == Render(TrimLast(pairs))
    decreases |pairs|
  {
    RenderTrimsRight(pairs);
    var line := Render(TrimLast(pairs));
    FieldFirst(TrimLast(pairs));
    assert TrimLast(pairs)[0].field == pairs[0].field;
    assert line[0] == pairs[0].field[0];
  }

  lemma {:induction false} FieldFirst(pairs: seq<Pair>)
    requires pairs != [] && pairs[0].field != ""
    ensures Render(pairs) != "" && Render(pairs)[0] == pairs[0].field[0]
  {
  }

  lemma {:induction false} RenderTrimsRight(pairs: seq<Pair>)
    requires pairs != []
    ensures TrimRight(Render(pairs)) == Render(TrimLast(pairs))
    decreases |pairs|
  {
    hide TrimRight;
    var first := pairs[0];
    if |pairs| == 1 {
      var a := first.field + "=";
      TrimRightJoins(a, first.value);
    } else {
      var a, rest := Assignment(first) + ",", pairs[1..];
      assert TrimLast(pairs)[1..] == TrimLast(rest) && TrimLast(pairs)[0] == first;
      TrimRightJoins(a, Render(rest));
      RenderTrimsRight(rest);
    }
  }

  // ----- the exact condition -----

  /** Reading the line written for a sample gives a sample to send, with every member restored. */
  ghost predicate Restores(members: seq<Member>, values: map<string, Value>, start: map<string, Value>,
                           more: string, size: nat)
    requires size > 0
  {
    var r := ReadLine(KindsOf(members), start, CText(Fgets(WriteLine(members, values).1 + more, size)));
    && r.0 == Send
    && forall i :: 0 <= i < |members| ==> Agrees(r.1, values, members[i].name)
  }

  lemma {:induction false} ReadIsTame(kinds: map<string, Kind>, start: map<string, Value>, file: string, size: nat)
    requires size > 0
    ensures TameSince(start, ReadLine(kinds, start, CText(Fgets(file, size))).1)
  {
    hide Fgets, CText, Trim, Tokens, AssignAll, Scan, TameValue, Tame;
    var line := CText(Fgets(file, size));
    TrimmedIsOneLine(file, size);
    TokensAreTame(Trim(line));
    AssignedAreTame(kinds, start, start, Tokens(Trim(line)));
  }

  /** A restored sample has no delimiter and no line end in its texts. */
  lemma {:induction false} RestoredIsTame(members: seq<Member>, values: map<string, Value>, start: map<string, Value>,
                                          more: string, size: nat)
    requires size > 0 && TypedSample(members, values) && Restores(members, values, start, more, size)
    requires forall i :: 0 <= i < |members| ==> members[i].name !in start
    ensures forall i :: 0 <= i < |members| ==> Tame(TextOf(members[i], values))
  {
    hide Fgets, CText, ReadLine, WriteLine, TameValue, Tame, Print, Typed, GoodName;
    ReadIsTame(KindsOf(members), start, WriteLine(members, values).1 + more, size);
    forall i | 0 <= i < |members| ensures Tame(TextOf(members[i], values)) {
      var m := members[i];
      var r := ReadLine(KindsOf(members), start, CText(Fgets(WriteLine(members, values).1 + more, size)));
      assert Agrees(r.1, values, m.name);
      PrintsTyped(m.kind, values[m.name]);
    }
  }

  ghost predicate TamePairs(pairs: seq<Pair>) {
    forall i :: 0 <= i < |pairs| ==>
      GoodName(pairs[i].field) && Tame(pairs[i].value) && NUL !in pairs[i].value
  }

  lemma {:induction false} TameLine(pairs: seq<Pair>)
    requires TamePairs(pairs)
    ensures OneLine(Render(pairs))
    decreases |pairs|
  {
    if |pairs| > 1 {
      TameLine(pairs[1..]);
    }
  }

  lemma {:induction false} TrimLastGood(pairs: seq<Pair>)
    requires pairs != [] && TamePairs(pairs)
    ensures GoodPairs(TrimLast(pairs))
  {
    var last := pairs[|pairs| - 1];
    assert TrimRight(last.value) <= last.value;
  }

  lemma {:induction false} TrimLineEnd(line: string)
    ensures Trim(line + "\n") == Trim(line)
  {
    assert (line + "\n")[..|line|] == line;
  }

  /** What reading a line of tame pairs does. */
  lemma {:induction false} ReadsPairs(kinds: map<string, Kind>, start: map<string, Value>, pairs: seq<Pair>,
                                      more: string, size: nat)
    requires pairs != [] && TamePairs(pairs) && |Render(pairs)| < size
    ensures var r := AssignAll(kinds, start, FlatNonEmpty(TrimLast(pairs)));
            ReadLine(kinds, start, CText(Fgets(Render(pairs) + "\n" + more, size)))
            == (if r.0 then Send else Error, r.1)
  {
    hide Fgets, CText, Trim, Tokens, AssignAll, Scan, Render, FlatNonEmpty;
    var line := Render(pairs);
    TameLine(pairs);
    FgetsTakesLine(line, more, size);
    TrimLineEnd(line);
    assert Tight(pairs[0].field) by {
      GoodIsTight(pairs[0].field);
    }
    RenderTrims(pairs);
    TrimLastGood(pairs);
    RenderedIsValid(TrimLast(pairs));
    RenderedTokens(TrimLast(pairs));
  }

  lemma {:induction false} UnquoteKeeps(s: string)
    ensures |Unquote(s)| <= |s| && (|Unquote(s)| == |s| > 0 ==> Unquote(s) == s && Unquoted(s))
  {
  }

  lemma {:induction false} TrimKeeps(s: string)
    ensures |Trim(s)| <= |s| && (|Trim(s)| == |s| > 0 ==> Trim(s) == s && Tight(s))
  {
    var r := TrimRight(s);
    if |Trim(s)| == |s| {
      assert r == s;
      assert TrimLeft(s) == s by {
        TrimLeftWithin(s);
      }
    }
  }

  /** A text that is heard as it was is clean. */
  lemma {:induction false} HeardIsClean(kind: Kind, v: Value, trimmed: string)
    requires Typed(kind, v) && Print(kind, v).Some? && Tame(Print(kind, v).value)
    requires trimmed == Print(kind, v).value || trimmed == TrimRight(Print(kind, v).value)
    requires trimmed != "" && Parse(kind, Unquote(Trim(trimmed))) == Some(v)
    ensures Keepable(kind, v)
  {
    hide Trim, Unquote, TrimRight, NumberText;
    var text := Print(kind, v).value;
    if kind == Text || kind == Char {
      assert |trimmed| <= |text| && (|trimmed| == |text| ==> trimmed == text) by {
        assert TrimRight(text) <= text;
      }
      UnquoteKeeps(Trim(trimmed));
      TrimKeeps(trimmed);
    }
  }

  /** A restored sample is one whose texts and characters are clean. */
  lemma {:induction false} RestoredIsKeepable(members: seq<Member>, values: map<string, Value>,
                                              start: map<string, Value>, more: string, size: nat)
    requires members != [] && Distinct(members) && TypedSample(members, values)
    requires 0 < size && |WriteLine(members, values).1| <= size && Restores(members, values, start, more, size)
    requires forall i :: 0 <= i < |members| ==> members[i].name !in start
    ensures KeepableSample(members, values)
  {
    hide Fgets, CText, ReadLine, WriteLine, Tame, Print, Parse, Typed, Keepable, GoodName, AssignAll, Render, Flat;
    hide FlatNonEmpty, Heard, TextOf, Trim, Unquote;
    var pairs, kinds := PairsOf(members, values), KindsOf(members);
    PairsWritten(members, values);
    RestoredIsTame(members, values, start, more, size);
    TextsAreTame(members, values, pairs);
    ReadsPairs(kinds, start, pairs, more, size);
    var heard := TrimLast(pairs);
    var tokens := FlatNonEmpty(heard);
    NeedsAllTokens(members, kinds, start, tokens);
    FlatLength(heard);
    forall i | 0 <= i < |members| ensures Keepable(members[i].kind, values[members[i].name]) {
      KindsAreTheirs(members, i);
      EachIsHeard(kinds, members, heard, start, i);
      assert Agrees(AssignAll(kinds, start, tokens).1, values, members[i].name);
      assert heard[i].value != "";
      TextPrinted(members[i], values);
      HeardIs(heard[i]);
      HeardIsClean(members[i].kind, values[members[i].name], heard[i].value);
    }
  }

  lemma {:induction false} TextsAreTame(members: seq<Member>, values: map<string, Value>, pairs: seq<Pair>)
    requires TypedSample(members, values) && NamedAs(pairs, members)
    requires forall i :: 0 <= i < |members| ==> pairs[i].value == TextOf(members[i], values) && Tame(pairs[i].value)
    ensures TamePairs(pairs)
  {
    hide Print, Typed, GoodName, Tame;
    forall i | 0 <= i < |pairs| ensures NUL !in pairs[i].value {
      PrintsTyped(members[i].kind, values[members[i].name]);
    }
  }

  lemma {:induction false} TextPrinted(m: Member, values: map<string, Value>)
    requires m.name in values && Typed(m.kind, values[m.name])
    ensures Print(m.kind, values[m.name]) == Some(TextOf(m, values))
  {
    PrintsTyped(m.kind, values[m.name]);
  }

  lemma {:induction false} HeardIs(p: Pair)
    ensures Heard(p) == Unquote(Trim(p.value))
  {
  }

  /** Every text and character of a sample is clean. */
  ghost predicate AllClean(members: seq<Member>, values: map<string, Value>)
    requires TypedSample(members, values)
  {
    forall i :: 0 <= i < |members| ==>
      match values[members[i].name]
      case Words(s) => Clean(s)
      case Character(c) => Clean([c])
      case _ => true
  }

  lemma {:induction false} CleanIsKeepable(members: seq<Member>, values: map<string, Value>)
    requires TypedSample(members, values)
    ensures KeepableSample(members, values) <==> AllClean(members, values)
  {
    hide Clean, GoodName;
    forall i | 0 <= i < |members|
      ensures Keepable(members[i].kind, values[members[i].name]) <==>
              match values[members[i].name]
              case Words(s) => Clean(s)
              case Character(c) => Clean([c])
              case _ => true
    {
      assert Typed(members[i].kind, values[members[i].name]);
    }
  }

  lemma {:induction false} KeepableRestores(members: seq<Member>, values: map<string, Value>,
                                            start: map<string, Value>, more: string, size: nat)
    requires members != [] && Distinct(members) && KeepableSample(members, values)
    requires 0 < size && |WriteLine(members, values).1| <= size
    ensures Restores(members, values, start, more, size)
  {
    hide Fgets, CText, ReadLine, WriteLine, GoodName, Keepable;
    LineRoundTrip(members, values, start, more, size);
  }

  /**
   The line written for a sample restores it, in a sample that does not hold its fields yet, if and
   only if every text and character is clean: not empty, without delimiters, line ends, outer spaces
   and outer quotes.
   */
  lemma {:induction false} RestoresExactly(members: seq<Member>, values: map<string, Value>, start: map<string, Value>,
                                           more: string, size: nat)
    requires members != [] && Distinct(members) && TypedSample(members, values)
    requires 0 < size && |WriteLine(members, values).1| <= size
    requires forall i :: 0 <= i < |members| ==> members[i].name !in start
    ensures Restores(members, values, start, more, size) <==> AllClean(members, values)
  {
    hide *;
    CleanIsKeepable(members, values);
    if KeepableSample(members, values) {
      KeepableRestores(members, values, start, more, size);
    }
    if Restores(members, values, start, more, size) {
      RestoredIsKeepable(members, values, start, more, size);
    }
  }

  /**
   Samples are used again, so what one held before matters: the line restores the sample whatever was
   held, if and only if every text and character is clean.
   */
  lemma {:induction false} RestoresFromEvery(members: seq<Member>, values: map<string, Value>, more: string, size: nat)
    requires members != [] && Distinct(members) && TypedSample(members, values)
    requires 0 < size && |WriteLine(members, values).1| <= size
    ensures (forall start :: Restores(members, values, start, more, size)) <==> AllClean(members, values)
  {
    hide *;
    CleanIsKeepable(members, values);
    if KeepableSample(members, values) {
      forall start ensures Restores(members, values, start, more, size) {
        KeepableRestores(members, values, start, more, size);
      }
    }
    if forall start :: Restores(members, values, start, more, size) {
      RestoresExactly(members, values, map[], more, size);
    }
  }

  lemma {:induction false} HeldWritten(members: seq<Member>, values: map<string, Value>)
    requires members == [Member("a", Text), Member("b", Text)]
    requires values == map["a" := Words(""), "b" := Words("a,\"\"=")]
    ensures WriteLine(members, values) == (true, "a=,b=a,\"\"=\n")
  {
    var second, last := members[1..], members[1..][1..];
    assert members[0] == Member("a", Text) && second[0] == Member("b", Text) && |second| == 1 && last == [];
    assert Print(Text, values["a"]) == Some("") && Print(Text, values["b"]) == Some("a,\"\"=");
    assert WriteLine(last, values) == (true, "\n");
    assert WriteLine(second, values) == (true, "b" + "=" + "a,\"\"=" + "" + "\n");
    assert WriteLine(members, values) == (true, "a" + "=" + "" + "," + WriteLine(second, values).1);
    assert "a" + "=" + "" + "," + ("b" + "=" + "a,\"\"=" + "" + "\n") == "a=,b=a,\"\"=\n";
  }

  lemma {:induction false} HeldRendered(pairs: seq<Pair>)
    requires pairs == [Pair("a", ""), Pair("b", "a"), Pair("\"\"", "")]
    ensures Render(pairs) == "a=,b=a,\"\"="
  {
    assert Render(pairs[1..][1..]) == "\"\"" + "=" + "";
    assert Render(pairs[1..]) == "b" + "=" + "a" + "," + Render(pairs[1..][1..]);
    assert Render(pairs) == "a" + "=" + "" + "," + Render(pairs[1..]);
    assert "a" + "=" + "" + "," + ("b" + "=" + "a" + "," + ("\"\"" + "=" + "")) == "a=,b=a,\"\"=";
  }

  lemma {:induction false} HeldPairs(pairs: seq<Pair>)
    requires pairs == [Pair("a", ""), Pair("b", "a"), Pair("\"\"", "")]
    ensures TamePairs(pairs)
  {
  }

  lemma {:induction false} HeldTokens(pairs: seq<Pair>)
    requires pairs == [Pair("a", ""), Pair("b", "a"), Pair("\"\"", "")]
    ensures FlatNonEmpty(TrimLast(pairs)) == ["a", "b", "a", "\"\""]
  {
    assert TrimLast(pairs) == pairs;
    assert FlatNonEmpty(pairs[1..][1..]) == ["\"\""];
    assert FlatNonEmpty(pairs[1..]) == ["b", "a", "\"\""];
  }

  lemma {:induction false} HeldFields(kinds: map<string, Kind>, values: map<string, Value>)
    requires "a" in kinds && kinds["a"] == Text
    ensures var r := AssignAll(kinds, values, ["a", "b", "a", "\"\""]);
            r.0 && r.1 == values["a" := Words("b")]["a" := Words("")]
  {
    var tokens := ["a", "b", "a", "\"\""];
    assert tokens[2..] == ["a", "\"\""] && tokens[2..][2..] == [];
    TightTrims("a");
    TightTrims("b");
    TightTrims("\"\"");
    assert Unquote("\"\"") == "";
  }

  lemma {:induction false} HeldUnclean(members: seq<Member>, values: map<string, Value>)
    requires members == [Member("a", Text), Member("b", Text)]
    requires values == map["a" := Words(""), "b" := Words("a,\"\"=")]
    ensures TypedSample(members, values) && !AllClean(members, values)
  {
    assert members[0].name == "a" && !Clean("");
  }

  /**
   A sample that already holds the fields can come back from a line that does not restore it: here the
   empty text of `a` makes the line name `a` twice, and `b` not at all.
   */
  lemma {:induction false} HeldFieldsHide(more: string, size: nat)
    requires size >= 11
    ensures var members := [Member("a", Text), Member("b", Text)];
            var values := map["a" := Words(""), "b" := Words("a,\"\"=")];
            && WriteLine(members, values) == (true, "a=,b=a,\"\"=\n")
            && Restores(members, values, values, more, size)
            && !Restores(members, values, map[], more, size)
  {
    var members := [Member("a", Text), Member("b", Text)];
    var values := map["a" := Words(""), "b" := Words("a,\"\"=")];
    hide Fgets, CText, ReadLine, WriteLine, Render, TamePairs, FlatNonEmpty, TrimLast, AssignAll, Clean;
    var kinds := KindsOf(members);
    var pairs := [Pair("a", ""), Pair("b", "a"), Pair("\"\"", "")];
    HeldWritten(members, values);
    HeldRendered(pairs);
    HeldPairs(pairs);
    ReadsPairs(kinds, values, pairs, more, size);
    HeldTokens(pairs);
    HeldFields(kinds, values);
    assert members[0].name == "a" && members[1].name == "b";
    assert "a=,b=a,\"\"=" + "\n" == "a=,b=a,\"\"=\n";
    var r := ReadLine(kinds, values, CText(Fgets(Render(pairs) + "\n" + more, size)));
    assert r == (Send, values["a" := Words("b")]["a" := Words("")]);
    assert Agrees(r.1, values, "a") && Agrees(r.1, values, "b");
    assert Restores(members, values, values, more, size);
    HeldUnclean(members, values);
    RestoresExactly(members, values, map[], more, size);
  }

  /** A text with a line end inside is cut there, and the cut sample is sent. */
  lemma {:induction false} LineEndCuts(name: string, start: map<string, Value>, more: string, size: nat)
    requires GoodName(name) && |name| + 5 <= size && name !in start
    ensures var members, values := [Member(name, Text)], map[name := Words("a\nb")];
            var r := ReadLine(KindsOf(members), start, CText(Fgets(WriteLine(members, values).1 + more, size)));
            && r.0 == Send && name in r.1 && r.1[name] == Words("a")
            && !Restores(members, values, start, more, size)
  {
    hide Fgets, CText, ReadLine;
    var members, cut, values := [Member(name, Text)], map[name := Words("a")], map[name := Words("a\nb")];
    assert WriteLine(members[1..], cut) == (true, "\n") == WriteLine(members[1..], values);
    assert WriteLine(members, cut).1 == name + "=" + "a" + "" + "\n";
    assert WriteLine(members, values).1 == name + "=" + "a\nb" + "" + "\n";
    assert WriteLine(members, values).1 + more == WriteLine(members, cut).1 + ("b\n" + more);
    LineRoundTrip(members, cut, start, "b\n" + more, size);
    var r := ReadLine(KindsOf(members), start, CText(Fgets(WriteLine(members, values).1 + more, size)));
    assert Agrees(r.1, cut, name) by {
      assert members[0].name == name;
    }
    assert "a"[0] != "a\nb"[1];
    assert members[0].name == name;
  }

  // ----- octets -----

  lemma {:induction false} AssignedSetNoOctet(kinds: map<string, Kind>, values: map<string, Value>,
                                              tokens: seq<string>, field: string)
    requires AssignAll(kinds, values, tokens).0 && field in kinds && kinds[field] == Octet
    ensures var r := AssignAll(kinds, values, tokens).1;
            (field in r <==> field in values) && (field in r ==> r[field] == values[field])
    decreases |tokens|
  {
    hide Trim, Unquote, Parse;
    if tokens != [] {
      var text := Unquote(Trim(tokens[1]));
      var r := Assign(kinds, values, Trim(tokens[0]), text);
      OctetNeverSent(kinds, values, field, text);
      AssignedSetNoOctet(kinds, r.1, tokens[2..], field);
    }
  }

  /** A line that is sent has set no octet: naming one anywhere in a line makes it an error. */
  lemma {:induction false} SentSetsNoOctet(kinds: map<string, Kind>, values: map<string, Value>, line: string,
                                           field: string)
    requires ReadLine(kinds, values, line).0 == Send && field in kinds && kinds[field] == Octet
    ensures var r := ReadLine(kinds, values, line).1;
            (field in r <==> field in values) && (field in r ==> r[field] == values[field])
  {
    hide Trim, Tokens, AssignAll, Scan;
    AssignedSetNoOctet(kinds, values, Tokens(Trim(line)), field);
  }

  /** So an octet is restored only where the sample already held its value. */
  lemma {:induction false} OctetNotRestored(members: seq<Member>, values: map<string, Value>,
                                            start: map<string, Value>, more: string, size: nat, i: nat)
    requires Distinct(members) && size > 0 && i < |members| && members[i].kind == Octet
    ensures Restores(members, values, start, more, size) ==> Agrees(start, values, members[i].name)
  {
    hide Fgets, CText, ReadLine, WriteLine;
    KindsAreTheirs(members, i);
    var line := CText(Fgets(WriteLine(members, values).1 + more, size));
    var r := ReadLine(KindsOf(members), start, line);
    if Restores(members, values, start, more, size) {
      SentSetsNoOctet(KindsOf(members), start, line, members[i].name);
      assert Agrees(r.1, values, members[i].name);
    }
  }
}
