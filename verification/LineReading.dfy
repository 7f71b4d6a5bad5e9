/**
 What a line means to its reader, whoever wrote it: the number in any text, every kind's reading of a
 number, which pairs of a line set which field, and which lines are not sent.
 */
module LineReading {
  import opened LineText
  import opened LineValues
  import opened Wrappers

  // ----- numbers -----

  predicate Blank(s: string) {
    forall k :: 0 <= k < |s| ==> s[k] in " \t\n\r" || s[k] as int == 11 || s[k] as int == 12
  }

  predicate Zeros(s: string) {
    forall k :: 0 <= k < |s| ==> s[k] == '0'
  }

  predicate StopsNumber(rest: string) {
    rest == "" || rest[0] !in "0123456789"
  }

  lemma {:induction false} SkipsBlank(s: string, t: string)
    requires Blank(s)
    ensures TrimLeft(s + t) == TrimLeft(t)
    decreases |s|
  {
    if s == "" {
      assert s + t == t;
    } else {
      assert (s + t)[1..] == s[1..] + t;
      assert forall k :: 0 <= k < |s[1..]| ==> s[1..][k] == s[k + 1];
      assert IsSpace((s + t)[0]) by {
        assert (s + t)[0] == s[0];
      }
      SkipsBlank(s[1..], t);
    }
  }

  lemma {:induction false} CountsDigits(s: string, rest: string)
    requires (forall i :: 0 <= i < |s| ==> IsDigit(s[i])) && StopsNumber(rest)
    ensures DigitCount(s + rest) == |s|
    decreases |s|
  {
    if s == "" {
      assert s + rest == rest;
      assert rest != "" ==> !IsDigit(rest[0]);
    } else {
      assert (s + rest)[1..] == s[1..] + rest;
      assert forall i :: 0 <= i < |s[1..]| ==> s[1..][i] == s[i + 1];
      assert (s + rest)[0] == s[0];
      CountsDigits(s[1..], rest);
    }
  }

  lemma {:induction false} LeadingZerosCount(zeros: string, s: string)
    requires Zeros(zeros) && forall i :: 0 <= i < |s| ==> IsDigit(s[i])
    ensures forall i :: 0 <= i < |zeros + s| ==> IsDigit((zeros + s)[i])
    ensures DigitsValue(zeros + s) == DigitsValue(s)
    decreases |s|
  {
    if s == "" {
      assert zeros + s == zeros;
      ZerosAreZero(zeros);
    } else {
      var last := |s| - 1;
      assert (zeros + s)[..|zeros + s| - 1] == zeros + s[..last];
      LeadingZerosCount(zeros, s[..last]);
    }
  }

  lemma {:induction false} ZerosAreZero(zeros: string)
    requires Zeros(zeros)
    ensures (forall i :: 0 <= i < |zeros| ==> IsDigit(zeros[i])) && DigitsValue(zeros) == 0
    decreases |zeros|
  {
    if zeros != "" {
      ZerosAreZero(zeros[..|zeros| - 1]);
    }
  }

  lemma {:induction false} LeadsWithNumber(zeros: string, m: nat, rest: string)
    requires Zeros(zeros) && StopsNumber(rest)
    ensures LeadingNumber(zeros + DecimalText(m) + rest) == m
  {
    var digits := zeros + DecimalText(m);
    DecimalValue(m);
    LeadingZerosCount(zeros, DecimalText(m));
    CountsDigits(digits, rest);
    assert (digits + rest)[..|digits|] == digits;
  }

  /** A number with blanks and a sign before it, leading zeros and anything after it. */
  function NumberForm(blank: string, sign: string, zeros: string, m: nat, rest: string): string {
    blank + (sign + (zeros + DecimalText(m) + rest))
  }

  /** Its value is read from any such text. */
  lemma {:induction false} AtoiReads(blank: string, sign: string, zeros: string, m: nat, rest: string)
    requires Blank(blank) && sign in ["", "+", "-"] && Zeros(zeros) && StopsNumber(rest)
    ensures Atoi(NumberForm(blank, sign, zeros, m, rest)) == (m as int) * if sign == "-" then -1 else 1
  {
    hide LeadingNumber, DecimalText, TrimLeft;
    var digits := zeros + DecimalText(m);
    var number := digits + rest;
    LeadsWithNumber(zeros, m, rest);
    SkipsBlank(blank, sign + number);
    assert IsDigit(digits[0]) && digits[0] == number[0] by {
      assert zeros != "" ==> digits[0] == '0';
      assert zeros == "" ==> digits == DecimalText(m);
    }
    NoBlank(sign + number);
    assert sign != "" ==> (sign + number)[1..] == number;
    assert sign == "" ==> sign + number == number;
  }

  lemma {:induction false} NoBlank(s: string)
    requires s != "" && s[0] in "+-0123456789"
    ensures TrimLeft(s) == s
  {
  }

  /** A text without a number at its start is read as 0. */
  lemma {:induction false} AtoiOfOther(blank: string, sign: string, rest: string)
    requires Blank(blank) && sign in ["", "+", "-"] && StopsNumber(rest)
    requires sign == "" && rest != "" ==> rest[0] !in " \t\n\r+-" && rest[0] as int != 11 && rest[0] as int != 12
    ensures Atoi(blank + (sign + rest)) == 0
  {
    SkipsBlank(blank, sign + rest);
    var t := sign + rest;
    assert TrimLeft(t) == t;
    assert sign != "" ==> t[1..] == rest;
    assert sign == "" ==> t == rest;
    assert rest != "" ==> !IsDigit(rest[0]);
    assert DigitCount(rest) == 0;
  }

  // ----- what each kind makes of a text -----

  /** `r` is `n` in a type of `size` values from `least` on. */
  predicate Reduced(n: int, r: int, least: int, size: nat)
    requires size > 0
  {
    least <= r < least + size && n % size == r % size
  }

  lemma {:induction false} SignedReduced(n: int)
    ensures Reduced(n, Signed16(n), -0x8000, 0x1_0000) && Reduced(n, Signed32(n), -0x8000_0000, 0x1_0000_0000)
  {
    assert (n % 0x1_0000 - 0x1_0000) % 0x1_0000 == n % 0x1_0000;
    assert (n % 0x1_0000_0000 - 0x1_0000_0000) % 0x1_0000_0000 == n % 0x1_0000_0000;
  }

  lemma {:induction false} UnsignedReduced(n: int)
    ensures Reduced(n, n % 0x1_0000, 0, 0x1_0000) && Reduced(n, n % 0x1_0000_0000, 0, 0x1_0000_0000)
    ensures Reduced(n, n % 0x100, 0, 0x100)
  {
  }

  /**
   Every kind of number reads a text as its number, reduced to the width of the kind; a boolean is whether
   the number is not 0.
   */
  lemma {:induction false} NumbersRead(kind: Kind, text: string)
    requires kind in [Short, Long, Enum, UShort, ULong, Octet, Boolean]
    requires kind == Boolean ==> text !in ["true", "TRUE", "false", "FALSE"]
    ensures Parse(kind, text).Some?
    ensures var n, v := Atoi(text), Parse(kind, text).value;
            if kind == Boolean then v == Flag(n != 0)
            else
              && v.Number?
              && if kind == Short then Reduced(n, v.n, -0x8000, 0x1_0000)
                 else if kind == Long || kind == Enum then Reduced(n, v.n, -0x8000_0000, 0x1_0000_0000)
                 else Reduced(n, v.n, 0, if kind == UShort then 0x1_0000 else if kind == ULong then 0x1_0000_0000
                                         else 0x100)
  {
    hide Atoi, Reduced, Signed16, Signed32;
    var n := Atoi(text);
    SignedReduced(n);
    UnsignedReduced(n);
  }

  /** The four words of a boolean, and the numbers; `yes` is not one of them. */
  lemma {:induction false} BooleansRead(n: int)
    ensures Parse(Boolean, "true") == Parse(Boolean, "TRUE") == Some(Flag(true))
    ensures Parse(Boolean, "false") == Parse(Boolean, "FALSE") == Some(Flag(false))
    ensures Parse(Boolean, NumberText(n)) == Some(Flag(n != 0))
    ensures Parse(Boolean, "yes") == Some(Flag(false))
  {
    hide Atoi, NumberText;
    AtoiOfNumber(n);
    NumberIsNoWord(n);
    AtoiOfOther("", "", "yes");
    assert "" + ("" + "yes") == "yes";
  }

  lemma {:induction false} NumberIsNoWord(n: int)
    ensures NumberText(n) !in ["true", "TRUE", "false", "FALSE"]
  {
    assert NumberText(n)[0] in "-0123456789";
  }

  /** A string is read whole, a character is the first one, or a NUL where there is none. */
  lemma {:induction false} TextsRead(c: char, s: string)
    ensures Parse(Text, s) == Some(Words(s))
    ensures Parse(Char, [c] + s) == Some(Character(c)) && Parse(Char, "") == Some(Character('\0'))
  {
  }

  // ----- what is taken from a file, and written to it -----

  /**
   What fgets takes begins the file, has a line end only last, and is as long as it can be: it ends with the
   line, or the file, or the buffer, which keeps one place for the NUL.
   */
  lemma {:induction false} FgetsExactly(file: string, size: nat)
    requires size > 0
    ensures var got := Fgets(file, size);
            && got <= file && |got| < size && (forall i :: 0 <= i < |got| - 1 ==> got[i] != '\n')
            && (|got| == size - 1 || got == file || (got != "" && got[|got| - 1] == '\n'))
  {
  }

  /** A C string ends before its first NUL. */
  lemma {:induction false} CTextExactly(s: string)
    ensures var text := CText(s);
            text <= s && '\0' !in text && (|text| < |s| ==> s[|text|] == '\0')
  {
  }

  /** Numbers are written in decimal, whatever their kind. */
  lemma {:induction false} NumbersWritten(kind: Kind, n: int)
    requires kind in [Short, Long, Enum, UShort, ULong, Octet]
    ensures Print(kind, Number(n)) == Some(NumberText(n))
  {
    hide NumberText;
  }

  lemma {:induction false} OneMoreDigit(n: nat, d: nat)
    requires n > 0 && d < 10
    ensures DecimalText(10 * n + d) == DecimalText(n) + ["0123456789"[d]]
  {
    assert (10 * n + d) / 10 == n && (10 * n + d) % 10 == d;
  }

  lemma {:induction false} FirstDigit(d: nat)
    requires d < 10
    ensures DecimalText(d) == ["0123456789"[d]]
  {
  }

  lemma {:induction false} NumberExamples()
    ensures NumberText(0) == "0" && NumberText(-120) == "-120" && NumberText(34567) == "34567"
  {
    hide DecimalText;
    FirstDigit(0);
    FirstDigit(1);
    OneMoreDigit(1, 2);
    OneMoreDigit(12, 0);
    FirstDigit(3);
    OneMoreDigit(3, 4);
    OneMoreDigit(34, 5);
    OneMoreDigit(345, 6);
    OneMoreDigit(3456, 7);
  }

  /** The other kinds are written as they are, an unsupported one not at all. */
  lemma {:induction false} OthersWritten(on: bool, c: char, s: string, v: Value)
    ensures Print(Boolean, Flag(on)) == Some(if on then "true" else "false")
    ensures Print(Char, Character(c)) == Some([c]) && Print(Text, Words(s)) == Some(s)
    ensures Print(Unsupported, v) == None
  {
  }

  // ----- trimming and quotes -----

  /** Trimming takes off the blanks at both ends, and nothing else. */
  lemma {:induction false} TrimsExactly(before: string, s: string, after: string)
    requires Blank(before) && Blank(after)
    requires s != "" ==> !Blank(s[..1]) && !Blank(s[|s| - 1..])
    ensures Trim(before + s + after) == s
  {
    TrimsRight(before + s, after);
    if s == "" {
      assert before + s == before;
      TrimRightKeeps(before);
    } else {
      assert (before + s)[|before + s| - 1] == s[|s| - 1];
      assert !IsSpace(s[0]) by {
        assert s[..1] == [s[0]];
      }
      assert !IsSpace(s[|s| - 1]) by {
        assert s[|s| - 1..] == [s[|s| - 1]];
      }
      assert TrimRight(before + s) == before + s;
      SkipsBlank(before, s);
    }
  }

  lemma {:induction false} TrimsRight(s: string, after: string)
    requires Blank(after)
    ensures TrimRight(s + after) == TrimRight(s)
    decreases |after|
  {
    if after == "" {
      assert s + after == s;
    } else {
      var last := |after| - 1;
      assert (s + after)[..|s + after| - 1] == s + after[..last];
      assert (s + after)[|s + after| - 1] == after[last];
      TrimsRight(s, after[..last]);
    }
  }

  /** One quote is removed at each end, if it is there. */
  lemma {:induction false} UnquotesExactly(open: string, s: string, close: string)
    requires open in ["", "\""] && close in ["", "\""]
    requires (open == "" && s + close != "" ==> (s + close)[0] != '"') && (close == "" && s != "" ==> s[|s| - 1] != '"')
    ensures Unquote(open + s + close) == s
  {
    var text := open + s + close;
    var t := s + close;
    assert text == open + t;
    assert open != "" ==> text[1..] == t;
    assert open == "" ==> text == t;
    assert close != "" ==> t[..|t| - 1] == s;
    assert close == "" ==> t == s;
  }

  // ----- which pairs set which field -----

  function FieldOf(p: Pair): string {
    Trim(p.field)
  }

  function TextOfPair(p: Pair): string {
    Unquote(Trim(p.value))
  }

  /** A pair that ends the reading with an error. */
  predicate Wrong(kinds: map<string, Kind>, p: Pair) {
    FieldOf(p) !in kinds || kinds[FieldOf(p)] == Octet || kinds[FieldOf(p)] == Unsupported
  }

  /** The `i`-th pair sets the field: it names it, its kind can be set, and no pair before it is wrong. */
  ghost predicate Sets(kinds: map<string, Kind>, pairs: seq<Pair>, name: string, i: nat) {
    && i < |pairs| && FieldOf(pairs[i]) == name && name in kinds && kinds[name] != Unsupported
    && forall k :: 0 <= k < i ==> !Wrong(kinds, pairs[k])
  }

  ghost predicate SetsLast(kinds: map<string, Kind>, pairs: seq<Pair>, name: string, i: nat) {
    Sets(kinds, pairs, name, i) && forall k: nat :: k > i ==> !Sets(kinds, pairs, name, k)
  }

  ghost predicate NoneWrong(kinds: map<string, Kind>, pairs: seq<Pair>) {
    forall k :: 0 <= k < |pairs| ==> !Wrong(kinds, pairs[k])
  }

  lemma {:induction false} SetsShift(kinds: map<string, Kind>, pairs: seq<Pair>, name: string, i: nat)
    requires i > 0 && pairs != []
    ensures Sets(kinds, pairs, name, i) <==> !Wrong(kinds, pairs[0]) && Sets(kinds, pairs[1..], name, i - 1)
  {
    hide Wrong, FieldOf;
    var rest := pairs[1..];
    assert forall k :: 0 <= k < |rest| ==> rest[k] == pairs[k + 1];
    if !Wrong(kinds, pairs[0]) && Sets(kinds, rest, name, i - 1) {
      forall k | 0 <= k < i ensures !Wrong(kinds, pairs[k]) {
        assert k > 0 ==> rest[k - 1] == pairs[k];
      }
    }
  }

  lemma {:induction false} NoneWrongShift(kinds: map<string, Kind>, pairs: seq<Pair>)
    requires pairs != []
    ensures NoneWrong(kinds, pairs) <==> !Wrong(kinds, pairs[0]) && NoneWrong(kinds, pairs[1..])
  {
    hide Wrong;
    var rest := pairs[1..];
    assert forall k :: 0 <= k < |rest| ==> rest[k] == pairs[k + 1];
    if !Wrong(kinds, pairs[0]) && NoneWrong(kinds, rest) {
      forall k | 0 <= k < |pairs| ensures !Wrong(kinds, pairs[k]) {
        assert k > 0 ==> rest[k - 1] == pairs[k];
      }
    }
  }

  /** One pair. */
  lemma {:induction false} AssignsPair(kinds: map<string, Kind>, values: map<string, Value>, p: Pair, rest: seq<string>)
    ensures var r := Assign(kinds, values, FieldOf(p), TextOfPair(p));
            && AssignAll(kinds, values, [p.field, p.value] + rest) == (if r.0 then AssignAll(kinds, r.1, rest) else r)
            && (r.0 <==> !Wrong(kinds, p))
            && r.1 == (if FieldOf(p) in kinds && kinds[FieldOf(p)] != Unsupported
                       then values[FieldOf(p) := Parse(kinds[FieldOf(p)], TextOfPair(p)).value] else values)
  {
    hide Trim, Unquote, Atoi, AssignAll;
    var tokens := [p.field, p.value] + rest;
    assert tokens[0] == p.field && tokens[1] == p.value && tokens[2..] == rest;
    AssignAllUnfold(kinds, values, tokens);
  }

  lemma {:induction false} AssignAllUnfold(kinds: map<string, Kind>, values: map<string, Value>, tokens: seq<string>)
    requires |tokens| >= 2
    ensures AssignAll(kinds, values, tokens) ==
            var r := Assign(kinds, values, Trim(tokens[0]), Unquote(Trim(tokens[1])));
            if r.0 then AssignAll(kinds, r.1, tokens[2..]) else r
  {
  }

  /**
   Assigning pairs succeeds if and only if none is wrong.  Each field then holds what the last pair that
   sets it says, which may be the wrong one, if it names an octet; no pair after a wrong one sets anything.
   */
  lemma {:induction false} AssignedExactly(kinds: map<string, Kind>, values: map<string, Value>, pairs: seq<Pair>,
                                           name: string)
    ensures var r := AssignAll(kinds, values, Flat(pairs));
            && (r.0 <==> NoneWrong(kinds, pairs))
            && (forall i: nat :: SetsLast(kinds, pairs, name, i) ==>
                  name in r.1 && Parse(kinds[name], TextOfPair(pairs[i])) == Some(r.1[name]))
            && ((forall i: nat :: !Sets(kinds, pairs, name, i)) ==> Agreeing(r.1, values, name))
    decreases |pairs|
  {
    hide Trim, Unquote, Parse, AssignAll, Wrong, FieldOf, TextOfPair, Sets, Agreeing;
    if pairs == [] {
      NothingAssigned(kinds, values);
      NothingSet(kinds, pairs, name);
      AgreesWithItself(values, name);
    } else {
      var p, rest := pairs[0], pairs[1..];
      AssignsPair(kinds, values, p, Flat(rest));
      NoneWrongShift(kinds, pairs);
      var r := Assign(kinds, values, FieldOf(p), TextOfPair(p));
      AssignedExactly(kinds, r.1, rest, name);
      AssignedFirst(kinds, values, pairs, name);
    }
  }

  /** The two results agree on a field, present or not. */
  predicate Agreeing(a: map<string, Value>, b: map<string, Value>, name: string) {
    (name in a <==> name in b) && (name in a && name in b ==> a[name] == b[name])
  }

  lemma {:induction false} AgreesWithItself(a: map<string, Value>, name: string)
    ensures Agreeing(a, a, name)
  {
  }

  lemma {:induction false} NothingSet(kinds: map<string, Kind>, pairs: seq<Pair>, name: string)
    requires pairs == []
    ensures NoneWrong(kinds, pairs) && forall i: nat :: !Sets(kinds, pairs, name, i)
  {
  }

  /** The first pair, and what the others make of what it leaves. */
  lemma {:induction false} AssignedFirst(kinds: map<string, Kind>, values: map<string, Value>, pairs: seq<Pair>,
                                         name: string)
    requires pairs != []
    requires var left := Assign(kinds, values, FieldOf(pairs[0]), TextOfPair(pairs[0]));
             var r := AssignAll(kinds, left.1, Flat(pairs[1..]));
             && (forall i: nat :: SetsLast(kinds, pairs[1..], name, i) ==>
                   name in r.1 && Parse(kinds[name], TextOfPair(pairs[1..][i])) == Some(r.1[name]))
             && ((forall i: nat :: !Sets(kinds, pairs[1..], name, i)) ==> Agreeing(r.1, left.1, name))
    ensures var r := AssignAll(kinds, values, Flat(pairs));
            && (forall i: nat :: SetsLast(kinds, pairs, name, i) ==>
                  name in r.1 && Parse(kinds[name], TextOfPair(pairs[i])) == Some(r.1[name]))
            && ((forall i: nat :: !Sets(kinds, pairs, name, i)) ==> Agreeing(r.1, values, name))
  {
    hide Parse, AssignAll, Assign, FieldOf, TextOfPair, Sets, Agreeing, Wrong, Flat;
    var p, rest := pairs[0], pairs[1..];
    var left := Assign(kinds, values, FieldOf(p), TextOfPair(p));
    AssignsPair(kinds, values, p, Flat(rest));
    FlatUnfold(pairs);
    FirstSets(kinds, values, pairs, name);
    forall i: nat | i > 0
      ensures Sets(kinds, pairs, name, i) <==> left.0 && Sets(kinds, rest, name, i - 1)
    {
      SetsShift(kinds, pairs, name, i);
    }
    var r := AssignAll(kinds, values, Flat(pairs));
    forall i: nat | SetsLast(kinds, pairs, name, i) ensures i < |pairs| && name in kinds {
      InRange(kinds, pairs, name, i);
    }
    forall i: nat | i < |pairs| && name in kinds && SetsLast(kinds, pairs, name, i)
      ensures name in r.1 && Parse(kinds[name], TextOfPair(pairs[i])) == Some(r.1[name])
    {
      if i > 0 {
        LastShifts(kinds, pairs, name, i);
        SetsShift(kinds, pairs, name, i);
        InRange(kinds, rest, name, i - 1);
      } else if left.0 {
        forall k: nat ensures !Sets(kinds, rest, name, k) {
          SetsShift(kinds, pairs, name, k + 1);
        }
        AgreedValue(r.1, left.1, name);
      }
    }
    if forall i: nat :: !Sets(kinds, pairs, name, i) {
      if left.0 {
        forall k: nat ensures !Sets(kinds, rest, name, k) {
          SetsShift(kinds, pairs, name, k + 1);
        }
        AgreeingOn(r.1, left.1, values, name);
      }
    }
  }

  lemma {:induction false} FlatUnfold(pairs: seq<Pair>)
    requires pairs != []
    ensures Flat(pairs) == [pairs[0].field, pairs[0].value] + Flat(pairs[1..])
  {
  }

  lemma {:induction false} InRange(kinds: map<string, Kind>, pairs: seq<Pair>, name: string, i: nat)
    requires Sets(kinds, pairs, name, i)
    ensures i < |pairs| && name in kinds
  {
  }

  lemma {:induction false} LastShifts(kinds: map<string, Kind>, pairs: seq<Pair>, name: string, i: nat)
    requires pairs != [] && i > 0 && SetsLast(kinds, pairs, name, i)
    ensures SetsLast(kinds, pairs[1..], name, i - 1) && i < |pairs| && pairs[i] == pairs[1..][i - 1]
  {
    hide Sets, Wrong;
    SetsShift(kinds, pairs, name, i);
    InRange(kinds, pairs, name, i);
    forall k: nat | k > i - 1 ensures !Sets(kinds, pairs[1..], name, k) {
      SetsShift(kinds, pairs, name, k + 1);
    }
  }

  /** What the first pair does to a field. */
  lemma {:induction false} FirstSets(kinds: map<string, Kind>, values: map<string, Value>, pairs: seq<Pair>,
                                     name: string)
    requires pairs != []
    ensures var left := Assign(kinds, values, FieldOf(pairs[0]), TextOfPair(pairs[0]));
            if Sets(kinds, pairs, name, 0) then
              name in left.1 && name in kinds && Parse(kinds[name], TextOfPair(pairs[0])) == Some(left.1[name])
            else Agreeing(left.1, values, name)
  {
    hide Parse, FieldOf, TextOfPair;
    UnsupportedOnly(kinds, TextOfPair(pairs[0]));
  }

  lemma {:induction false} UnsupportedOnly(kinds: map<string, Kind>, text: string)
    ensures forall kind: Kind :: Parse(kind, text) == None <==> kind == Unsupported
  {
    hide Atoi;
  }

  lemma {:induction false} AgreedValue(a: map<string, Value>, b: map<string, Value>, name: string)
    requires Agreeing(a, b, name) && name in b
    ensures name in a && a[name] == b[name]
  {
  }

  lemma {:induction false} AgreeingOn(a: map<string, Value>, b: map<string, Value>, c: map<string, Value>, name: string)
    requires Agreeing(a, b, name) && Agreeing(b, c, name)
    ensures Agreeing(a, c, name)
  {
  }

  // ----- whole lines -----

  lemma {:induction false} TrimsBlank(line: string)
    ensures Trim(line) == "" <==> Blank(line)
  {
    TrimRightKeeps(line);
    TrimLeftKeeps(TrimRight(line));
  }

  lemma {:induction false} TrimRightKeeps(s: string)
    ensures Blank(s) ==> TrimRight(s) == ""
    ensures Blank(TrimRight(s)) ==> Blank(s)
    decreases |s|
  {
    if s != "" && IsSpace(s[|s| - 1]) {
      TrimRightKeeps(s[..|s| - 1]);
    }
  }

  lemma {:induction false} TrimLeftKeeps(s: string)
    ensures TrimLeft(s) == "" <==> Blank(s)
    decreases |s|
  {
    if s != "" && IsSpace(s[0]) {
      TrimLeftKeeps(s[1..]);
      assert forall k :: 0 < k < |s| ==> s[k] == s[1..][k - 1];
      assert forall k :: 0 <= k < |s[1..]| ==> s[1..][k] == s[k + 1];
    }
  }

  /** A line is not sent if and only if it is blank; a line in no format is an error; neither changes the sample. */
  lemma {:induction false} LineOutcomes(kinds: map<string, Kind>, values: map<string, Value>, line: string)
    ensures ReadLine(kinds, values, line).0 == NotSent <==> Blank(line)
    ensures Blank(line) ==> ReadLine(kinds, values, line) == (NotSent, values)
    ensures !Blank(line) && !Validated(Trim(line)) ==> ReadLine(kinds, values, line) == (Error, values)
  {
    hide Trim, AssignAll, Tokens, Validated;
    TrimsBlank(line);
  }

  /**
   Reading a line of pairs with values: it is sent if and only if no pair is wrong, and each field holds
   what the last pair that sets it says, or what it held.
   */
  lemma {:induction false} LineReadsExactly(kinds: map<string, Kind>, values: map<string, Value>, line: string,
                                            name: string)
    requires !Blank(line) && Validated(Trim(line)) && NoEmptyValue(Split(Trim(line)))
    ensures var pairs, r := Split(Trim(line)), ReadLine(kinds, values, line);
            && r.0 == (if NoneWrong(kinds, pairs) then Send else Error)
            && (forall i: nat :: SetsLast(kinds, pairs, name, i) ==>
                  name in r.1 && Parse(kinds[name], TextOfPair(pairs[i])) == Some(r.1[name]))
            && ((forall i: nat :: !Sets(kinds, pairs, name, i)) ==> Agreeing(r.1, values, name))
  {
    hide Trim, AssignAll, Tokens, Validated, Split, Sets, NoneWrong, Parse, Agreeing, Flat;
    TrimsBlank(line);
    TokensAreSplitExactly(Trim(line));
    AssignedExactly(kinds, values, Split(Trim(line)), name);
  }
}
