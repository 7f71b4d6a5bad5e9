/**
 Samples and their lines: how each kind of member is written and read, what reading a whole line
 does to a sample, and the round trip.
 */
module LineValues {
  import opened LineText
  import opened Wrappers

  datatype Kind = Short | Long | Enum | UShort | ULong | Boolean | Char | Octet | Text | Unsupported

  datatype Value = Number(n: int) | Flag(on: bool) | Character(c: char) | Words(s: string)

  datatype Member = Member(name: string, kind: Kind)

  // ----- numbers -----

  predicate Unquoted(s: string) {
    s != "" && s[0] != '"' && s[|s| - 1] != '"'
  }

  predicate OneLine(s: string) {
    '\n' !in s && NUL !in s
  }

  /** A text that survives a line: no delimiters, line ends, outer spaces or outer quotes. */
  predicate Clean(s: string) {
    Tight(s) && Plain(s) && Unquoted(s) && OneLine(s)
  }

  predicate IsDigit(c: char) {
    '0' <= c <= '9'
  }

  function DigitOf(d: nat): char
    requires d < 10
  {
    "0123456789"[d]
  }

  function DigitValue(c: char): (d: nat)
    requires IsDigit(c)
    ensures d < 10
  {
    c as int - '0' as int
  }

  function DecimalText(n: nat): (s: string)
    ensures s != "" && forall i :: 0 <= i < |s| ==> IsDigit(s[i])
  {
    if n < 10 then [DigitOf(n)] else DecimalText(n / 10) + [DigitOf(n % 10)]
  }

  function NumberText(n: int): string {
    if n < 0 then "-" + DecimalText(-n) else DecimalText(n)
  }

  /** The digits at the start of a text, as a number. */
  function LeadingNumber(s: string): (n: int)
    ensures n >= 0
  {
    var k := DigitCount(s);
    if k == 0 then 0 else DigitsValue(s[..k])
  }

  function DigitCount(s: string): (k: nat)
    ensures k <= |s| && forall i :: 0 <= i < k ==> IsDigit(s[i])
    ensures (forall i :: 0 <= i < |s| ==> IsDigit(s[i])) ==> k == |s|
  {
    if s == "" || !IsDigit(s[0]) then 0 else 1 + DigitCount(s[1..])
  }

  function DigitsValue(s: string): nat
    requires forall i :: 0 <= i < |s| ==> IsDigit(s[i])
    decreases |s|
  {
    if s == "" then 0 else 10 * DigitsValue(s[..|s| - 1]) + DigitValue(s[|s| - 1])
  }

  /** The C library's atoi, on numbers that fit an int. */
  function Atoi(s: string): int {
    var t := TrimLeft(s);
    if t == "" then 0
    else if t[0] == '-' then -LeadingNumber(t[1..])
    else if t[0] == '+' then LeadingNumber(t[1..])
    else LeadingNumber(t)
  }

  lemma {:induction false} DecimalValue(n: nat)
    ensures DigitsValue(DecimalText(n)) == n
  {
    if n >= 10 {
      DecimalValue(n / 10);
      var s := DecimalText(n);
      assert s[..|s| - 1] == DecimalText(n / 10) && s[|s| - 1] == DigitOf(n % 10);
    }
  }

  lemma {:induction false} LeadingOfDecimal(n: nat)
    ensures LeadingNumber(DecimalText(n)) == n
  {
    DecimalValue(n);
    var s := DecimalText(n);
    assert s[..|s|] == s;
  }

  lemma {:induction false} DigitsAreClean(s: string)
    requires s != "" && forall i :: 0 <= i < |s| ==> IsDigit(s[i])
    ensures Clean(s) && TrimLeft(s) == s && Clean("-" + s) && TrimLeft("-" + s) == "-" + s
  {
    var t := "-" + s;
    assert forall i :: 0 < i < |t| ==> IsDigit(t[i]);
  }

  /** A number reads back as it was written. */
  lemma {:induction false} AtoiOfNumber(n: int)
    ensures Atoi(NumberText(n)) == n && Clean(NumberText(n))
  {
    hide DecimalText, LeadingNumber, Clean, TrimLeft;
    var m := if n < 0 then -n else n;
    LeadingOfDecimal(m);
    DigitsAreClean(DecimalText(m));
    if n < 0 {
      assert NumberText(n)[1..] == DecimalText(m);
    }
  }

  /** C casts to the signed types. */
  function Signed16(n: int): int {
    var m := n % 0x1_0000;
    if m < 0x8000 then m else m - 0x1_0000
  }

  function Signed32(n: int): int {
    var m := n % 0x1_0000_0000;
    if m < 0x8000_0000 then m else m - 0x1_0000_0000
  }

  // ----- values -----

  /** How a member is written; None for the kinds that are not. */
  function Print(kind: Kind, v: Value): Option<string> {
    match (kind, v)
    case (Short, Number(n)) => Some(NumberText(n))
    case (Long, Number(n)) => Some(NumberText(n))
    case (Enum, Number(n)) => Some(NumberText(n))
    case (UShort, Number(n)) => Some(NumberText(n))
    case (ULong, Number(n)) => Some(NumberText(n))
    case (Octet, Number(n)) => Some(NumberText(n))
    case (Boolean, Flag(on)) => Some(if on then "true" else "false")
    case (Char, Character(c)) => Some([c])
    case (Text, Words(s)) => Some(s)
    case _ => None
  }

  /** How a value text is read. */
  function Parse(kind: Kind, text: string): Option<Value> {
    match kind
    case Short => Some(Number(Signed16(Atoi(text))))
    case Long => Some(Number(Signed32(Atoi(text))))
    case Enum => Some(Number(Signed32(Atoi(text))))
    case UShort => Some(Number(Atoi(text) % 0x1_0000))
    case ULong => Some(Number(Atoi(text) % 0x1_0000_0000))
    case Octet => Some(Number(Atoi(text) % 0x100))
    case Boolean =>
      if text == "true" || text == "TRUE" then Some(Flag(true))
      else if text == "false" || text == "FALSE" then Some(Flag(false))
      else Some(Flag(Atoi(text) != 0))
    case Char => Some(Character(if text == "" then NUL else text[0]))
    case Text => Some(Words(text))
    case Unsupported => None
  }

  /** Quotes around a value are removed. */
  function Unquote(s: string): string {
    var t := if s != "" && s[0] == '"' then s[1..] else s;
    if t != "" && t[|t| - 1] == '"' then t[..|t| - 1] else t
  }

  /** Sets one field by name; an octet is set, and yet reported as an error. */
  function Assign(kinds: map<string, Kind>, values: map<string, Value>, field: string, text: string)
    : (bool, map<string, Value>)
  {
    if field !in kinds then (false, values)
    else
      match Parse(kinds[field], text)
      case None => (false, values)
      case Some(v) => (kinds[field] != Octet, values[field := v])
  }

  /** Assigns one token after another as field and value, up to the first error. */
  function AssignAll(kinds: map<string, Kind>, values: map<string, Value>, tokens: seq<string>)
    : (bool, map<string, Value>)
    decreases |tokens|
  {
    if tokens == [] then (true, values)
    else if |tokens| == 1 then (false, values)
    else
      var r := Assign(kinds, values, Trim(tokens[0]), Unquote(Trim(tokens[1])));
      if r.0 then AssignAll(kinds, r.1, tokens[2..]) else r
  }

  datatype Action = NotSent | Error | Send

  /** Reading a line into a sample. */
  function ReadLine(kinds: map<string, Kind>, values: map<string, Value>, line: string): (Action, map<string, Value>) {
    var trimmed := Trim(line);
    if trimmed == "" then (NotSent, values)
    else if !Validated(trimmed) then (Error, values)
    else
      var r := AssignAll(kinds, values, Tokens(trimmed));
      (if r.0 then Send else Error, r.1)
  }

  /** The C string at the start of a text. */
  function CText(s: string): string {
    s[..Find(s, NUL)]
  }

  /** The part of a file that one call of fgets takes. */
  function Fgets(file: string, size: nat): string
    requires size > 0
  {
    var k := Find(file, '\n');
    if k < |file| && k + 1 <= size - 1 then file[..k + 1]
    else if |file| <= size - 1 then file
    else file[..size - 1]
  }

  /** The line written for a sample, up to the first member that cannot be written. */
  function WriteLine(members: seq<Member>, values: map<string, Value>): (bool, string) {
    if members == [] then (true, "\n")
    else
      var m := members[0];
      if m.name !in values then (false, "")
      else
        match Print(m.kind, values[m.name])
        case None => (false, "")
        case Some(text) =>
          var rest := WriteLine(members[1..], values);
          (rest.0, m.name + "=" + text + (if |members| > 1 then "," else "") + rest.1)
  }

  // ----- the round trip -----

  predicate GoodName(s: string) {
    Tight(s) && Plain(s) && OneLine(s)
  }

  /** The values of each kind that a line keeps. */
  predicate Keepable(kind: Kind, v: Value) {
    match (kind, v)
    case (Short, Number(n)) => -0x8000 <= n < 0x8000
    case (Long, Number(n)) => -0x8000_0000 <= n < 0x8000_0000
    case (Enum, Number(n)) => -0x8000_0000 <= n < 0x8000_0000
    case (UShort, Number(n)) => 0 <= n < 0x1_0000
    case (ULong, Number(n)) => 0 <= n < 0x8000_0000
    case (Boolean, Flag(on)) => true
    case (Char, Character(c)) => Clean([c])
    case (Text, Words(s)) => Clean(s)
    case _ => false
  }

  /** Each kind reads back what it wrote. */
  lemma {:induction false} ParseRestores(kind: Kind, v: Value)
    requires Keepable(kind, v)
    ensures var text := Print(kind, v); text.Some? && Clean(text.value) && Parse(kind, text.value) == Some(v)
  {
    hide NumberText, Atoi;
    if v.Number? {
      AtoiOfNumber(v.n);
    }
  }

  lemma {:induction false} CleanReads(s: string)
    requires Clean(s)
    ensures Unquote(Trim(s)) == s
  {
    TightTrims(s);
  }

  ghost predicate KeepableSample(members: seq<Member>, values: map<string, Value>) {
    && (forall i :: 0 <= i < |members| ==>
          && GoodName(members[i].name) && members[i].name in values
          && Keepable(members[i].kind, values[members[i].name]))
  }

  function PairsOf(members: seq<Member>, values: map<string, Value>): seq<Pair> {
    if members == [] then []
    else
      var m := members[0];
      var text := if m.name in values then Print(m.kind, values[m.name]) else None;
      [Pair(m.name, if text.Some? then text.value else "")] + PairsOf(members[1..], values)
  }

  lemma {:induction false} PairsAreGood(members: seq<Member>, values: map<string, Value>)
    requires KeepableSample(members, values)
    ensures var pairs := PairsOf(members, values);
            && |pairs| == |members| && NoEmptyValue(pairs) && (members != [] ==> GoodPairs(pairs))
            && WriteLine(members, values) == (true, Render(pairs) + "\n")
            && OneLine(Render(pairs))
            && (members != [] ==> Tight(Render(pairs)))
    decreases |members|
  {
    var pairs := PairsOf(members, values);
    if members == [] {
      assert Render(pairs) + "\n" == "\n";
    } else {
      var m, rest := members[0], members[1..];
      ParseRestores(m.kind, values[m.name]);
      RestIsKeepable(members, values);
      PairsAreGood(rest, values);
      var first := pairs[0];
      assert pairs[1..] == PairsOf(rest, values);
      FirstIsGood(m, values[m.name], first);
      if rest == [] {
        assert pairs == [first];
        assert WriteLine(rest, values) == (true, "\n");
        assert m.name + "=" + first.value + "" + "\n" == Assignment(first) + "\n";
      } else {
        assert Render(pairs) == Assignment(first) + "," + Render(pairs[1..]);
        RestOfLine(first, Render(pairs[1..]));
      }
    }
  }

  lemma {:induction false} RestIsKeepable(members: seq<Member>, values: map<string, Value>)
    requires members != [] && KeepableSample(members, values)
    ensures KeepableSample(members[1..], values)
  {
  }

  lemma {:induction false} FirstIsGood(m: Member, v: Value, p: Pair)
    requires GoodName(m.name) && Clean(p.value) && p.field == m.name
    ensures GoodPair(p) && Tight(Assignment(p)) && OneLine(Assignment(p)) && p.value != ""
  {
    var s := Assignment(p);
    assert s[0] == p.field[0] && s[|s| - 1] == p.value[|p.value| - 1];
  }

  lemma {:induction false} RestOfLine(first: Pair, rest: string)
    requires Tight(Assignment(first)) && Tight(rest) && OneLine(Assignment(first)) && OneLine(rest)
    ensures var s := Assignment(first) + "," + rest;
            Tight(s) && OneLine(s) && s + "\n" == Assignment(first) + "," + (rest + "\n")
  {
    var s := Assignment(first) + "," + rest;
    assert s[0] == Assignment(first)[0] && s[|s| - 1] == rest[|rest| - 1];
  }

  ghost predicate Distinct(members: seq<Member>) {
    forall i, j :: 0 <= i < j < |members| ==> members[i].name != members[j].name
  }

  function KindsOf(members: seq<Member>): map<string, Kind> {
    if members == [] then map[] else KindsOf(members[1..])[members[0].name := members[0].kind]
  }

  lemma {:induction false} KindsAreTheirs(members: seq<Member>, i: nat)
    requires i < |members| && Distinct(members)
    ensures members[i].name in KindsOf(members) && KindsOf(members)[members[i].name] == members[i].kind
    decreases |members|
  {
    if i > 0 {
      var rest := members[1..];
      assert forall j :: 0 <= j < |rest| ==> rest[j] == members[j + 1];
      KindsAreTheirs(rest, i - 1);
    }
  }

  predicate Agrees(m: map<string, Value>, values: map<string, Value>, name: string) {
    name in m && name in values && m[name] == values[name]
  }

  lemma {:induction false} AssignsOne(kinds: map<string, Kind>, m: Member, values: map<string, Value>,
                                      start: map<string, Value>, rest: seq<string>)
    requires GoodName(m.name) && m.name in values && Keepable(m.kind, values[m.name])
    requires m.name in kinds && kinds[m.name] == m.kind
    ensures Print(m.kind, values[m.name]).Some?
    ensures AssignAll(kinds, start, [m.name, Print(m.kind, values[m.name]).value] + rest)
            == AssignAll(kinds, start[m.name := values[m.name]], rest)
  {
    hide Trim, Unquote, Parse, Print;
    ParseRestores(m.kind, values[m.name]);
    var text := Print(m.kind, values[m.name]).value;
    TightTrims(m.name);
    CleanReads(text);
    var tokens := [m.name, text] + rest;
    assert tokens[0] == m.name && tokens[1] == text && tokens[2..] == rest;
  }

  /** Assigning the written pairs gives every member its old value, and disturbs no other right one. */
  lemma {:induction false} AssignsAll(kinds: map<string, Kind>, members: seq<Member>, values: map<string, Value>,
                                      start: map<string, Value>)
    requires KeepableSample(members, values)
    requires forall i :: 0 <= i < |members| ==> members[i].name in kinds && kinds[members[i].name] == members[i].kind
    ensures var r := AssignAll(kinds, start, Flat(PairsOf(members, values)));
            && r.0
            && (forall name :: Agrees(start, values, name) ==> Agrees(r.1, values, name))
            && (forall i :: 0 <= i < |members| ==> Agrees(r.1, values, members[i].name))
    decreases |members|
  {
    hide AssignAll, Keepable, GoodName, Print;
    if members == [] {
      NothingAssigned(kinds, start);
    } else {
      var m, rest := members[0], members[1..];
      var next := start[m.name := values[m.name]];
      AssignsOne(kinds, m, values, start, Flat(PairsOf(rest, values)));
      var pairs := PairsOf(members, values);
      assert pairs[1..] == PairsOf(rest, values);
      assert Flat(pairs) == [m.name, Print(m.kind, values[m.name]).value] + Flat(PairsOf(rest, values));
      RestIsKeepable(members, values);
      AssignsAll(kinds, rest, values, next);
      assert forall name :: Agrees(start, values, name) ==> Agrees(next, values, name);
      assert Agrees(next, values, m.name);
      assert forall i :: 0 < i < |members| ==> members[i] == rest[i - 1];
    }
  }

  lemma {:induction false} NothingAssigned(kinds: map<string, Kind>, start: map<string, Value>)
    ensures AssignAll(kinds, start, []) == (true, start)
  {
  }

  lemma {:induction false} FgetsTakesLine(line: string, more: string, size: nat)
    requires OneLine(line) && |line| < size
    ensures var got := CText(Fgets(line + "\n" + more, size)); got == line || got == line + "\n"
  {
    var file := line + "\n" + more;
    FindIs(file, '\n', |line|);
    assert file[..|line|] == line && file[..|line| + 1] == line + "\n";
    FindIs(line, NUL, |line|);
    FindIs(line + "\n", NUL, |line| + 1);
    assert line[..|line|] == line && (line + "\n")[..|line| + 1] == line + "\n";
  }

  /**
   Reading the line written for a sample restores every field, for samples with at least one member
   whose values a line keeps, whatever comes after it in the file and whatever the sample held.
   */
  lemma {:induction false} LineRoundTrip(members: seq<Member>, values: map<string, Value>, start: map<string, Value>,
                                         more: string, size: nat)
    requires members != [] && Distinct(members) && KeepableSample(members, values)
    requires |WriteLine(members, values).1| <= size
    ensures WriteLine(members, values).0
    ensures var r := ReadLine(KindsOf(members), start, CText(Fgets(WriteLine(members, values).1 + more, size)));
            && r.0 == Send
            && forall i :: 0 <= i < |members| ==>
                 members[i].name in r.1 && r.1[members[i].name] == values[members[i].name]
  {
    hide WriteLine, Fgets, CText, Keepable, Tokens, Scan, AssignAll, Trim;
    var pairs, kinds := PairsOf(members, values), KindsOf(members);
    PairsAreGood(members, values);
    var line := Render(pairs);
    FgetsTakesLine(line, more, size);
    TightTrims(line);
    RenderedIsValid(pairs);
    RenderedTokens(pairs);
    FlatLength(pairs);
    forall i | 0 <= i < |members|
      ensures members[i].name in kinds && kinds[members[i].name] == members[i].kind
    {
      KindsAreTheirs(members, i);
    }
    AssignsAll(kinds, members, values, start);
  }

  /** A line that assigns an octet is never sent, though the octet is set. */
  lemma {:induction false} OctetNeverSent(kinds: map<string, Kind>, values: map<string, Value>, field: string,
                                          text: string)
    requires field in kinds && kinds[field] == Octet
    ensures var r := Assign(kinds, values, field, text);
            !r.0 && field in r.1 && r.1[field] == Number(Atoi(text) % 0x100)
  {
  }
}
