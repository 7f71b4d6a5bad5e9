/**
 Reading and writing sample lines in place: the line buffer is trimmed, checked and tokenised by
 writing NUL characters into it, and a sample's line is appended member by member.
 */
module LineConversion {
  import opened LineText
  import opened LineValues
  import opened Wrappers

  lemma {:induction false} TrimLeftStep(s: string)
    ensures TrimLeft(s) == if s == "" || !IsSpace(s[0]) then s else TrimLeft(s[1..])
    ensures !IsSpace(NUL)
  {
  }

  lemma {:induction false} SkipStep(s: string)
    ensures SkipDelimiters(s) == if s == "" || !IsDelimiter(s[0]) then s else SkipDelimiters(s[1..])
    ensures !IsDelimiter(NUL)
  {
  }

  class LineReader {
    const buffer: array<char>
    var saved: nat                    // where strtok goes on
    var values: map<string, Value>    // the sample

    constructor (size: nat)
      ensures fresh(buffer) && buffer.Length == size + 1 && values == map[]
    {
      buffer := new char[size + 1](_ => NUL);
      saved, values := 0, map[];
    }

    /** The buffer holds the C string `s` at position `at`. */
    ghost predicate Holds(at: nat, s: string)
      reads buffer
    {
      && at + |s| < buffer.Length && buffer[at + |s|] == NUL
      && forall i {:trigger s[i]} :: 0 <= i < |s| ==> buffer[at + i] == s[i] && s[i] != NUL
    }

    /** The first character of a string, or its NUL, and the string after it. */
    lemma {:induction false} HoldsFirst(at: nat, s: string)
      requires Holds(at, s)
      ensures at < buffer.Length && buffer[at] == (if s == "" then NUL else s[0]) && (s != "" ==> s[0] != NUL)
      ensures s != "" ==> Holds(at + 1, s[1..])
    {
      if s != "" {
        var rest := s[1..];
        assert buffer[at + 0] == s[0];
        forall i | 0 <= i < |rest|
          ensures buffer[at + 1 + i] == rest[i] && rest[i] != NUL
        {
          assert rest[i] == s[i + 1];
        }
      }
    }

    lemma {:induction false} HoldsLast(at: nat, s: string)
      requires Holds(at, s) && s != ""
      ensures at + |s| < buffer.Length && buffer[at + |s| - 1] == s[|s| - 1] && s[|s| - 1] != NUL
    {
    }

    method Length(at: nat, ghost s: string) returns (n: nat)
      requires Holds(at, s)
      ensures n == |s|
    {
      n := 0;
      while buffer[at + n] != NUL
        invariant n <= |s| && (n < |s| ==> buffer[at + n] == s[n] && s[n] != NUL)
        decreases |s| - n
      {
        n := n + 1;
      }
    }

    /** The C string at a position. */
    method Get(at: nat, ghost s: string) returns (r: string)
      requires Holds(at, s)
      ensures r == s
    {
      var n := Length(at, s);
      r := buffer[at..at + n];
      assert forall i :: 0 <= i < n ==> r[i] == s[i];
    }

    /** Cuts the last character off. */
    method CutLast(at: nat, n: nat, ghost s: string)
      requires Holds(at, s) && n == |s| > 0
      modifies buffer
      ensures Holds(at, s[..n - 1])
      ensures forall i :: 0 <= i < buffer.Length && i != at + n - 1 ==> buffer[i] == old(buffer[i])
    {
      buffer[at + n - 1] := NUL;
    }

    /** Cuts trailing spaces off by NUL characters. */
    method TrimEnd(at: nat, ghost s: string)
      requires Holds(at, s)
      modifies buffer
      ensures Holds(at, TrimRight(s))
      ensures forall i :: 0 <= i < buffer.Length && !(at <= i < at + |s|) ==> buffer[i] == old(buffer[i])
    {
      hide Holds;
      var n := Length(at, s);
      ghost var kept := s;
      if n > 0 {
        HoldsLast(at, kept);
      }
      while n > 0 && IsSpace(buffer[at + n - 1])
        invariant n == |kept| <= |s| && Holds(at, kept) && TrimRight(kept) == TrimRight(s)
        invariant n > 0 ==> at + n < buffer.Length && buffer[at + n - 1] == kept[n - 1]
        invariant forall i :: 0 <= i < buffer.Length && !(at <= i < at + |s|) ==> buffer[i] == old(buffer[i])
      {
        CutLast(at, n, kept);
        n := n - 1;
        kept := kept[..n];
        if n > 0 {
          HoldsLast(at, kept);
        }
      }
    }

    /** Steps over leading spaces. */
    method SkipSpaces(at: nat, ghost s: string) returns (first: nat)
      requires Holds(at, s)
      ensures Holds(first, TrimLeft(s)) && at <= first && first + |TrimLeft(s)| == at + |s|
    {
      hide Holds, TrimLeft, IsSpace;
      ghost var kept := s;
      first := at;
      HoldsFirst(first, kept);
      while IsSpace(buffer[first]) && buffer[first] != NUL
        invariant at <= first < buffer.Length && Holds(first, kept)
        invariant first + |kept| == at + |s| && TrimLeft(kept) == TrimLeft(s)
        invariant buffer[first] == (if kept == "" then NUL else kept[0]) && (kept != "" ==> kept[0] != NUL)
        decreases |kept|
      {
        HoldsFirst(first, kept);
        TrimLeftStep(kept);
        kept := kept[1..];
        first := first + 1;
        HoldsFirst(first, kept);
      }
      TrimLeftStep(kept);
    }

    /** Cuts trailing spaces off and steps over leading ones. */
    method Trim(at: nat, ghost s: string) returns (first: nat)
      requires Holds(at, s)
      modifies buffer
      ensures Holds(first, LineText.Trim(s)) && at <= first && first + |LineText.Trim(s)| <= at + |s|
      ensures forall i :: 0 <= i < buffer.Length && !(at <= i < at + |s|) ==> buffer[i] == old(buffer[i])
    {
      hide Holds, TrimLeft, TrimRight;
      TrimEnd(at, s);
      first := SkipSpaces(at, TrimRight(s));
    }

    /** Whether the string has the format of a sample line. */
    method Validate(at: nat, ghost s: string) returns (valid: bool)
      requires Holds(at, s)
      ensures valid <==> Validated(s)
    {
      var length := Length(at, s);
      var i, state := 0, 0;
      while i < length
        invariant 0 <= i <= length && state <= 2
        invariant Scan(s, 0) == Scan(s[i..], state)
      {
        var c := buffer[at + i];
        assert c == s[i] && s[i..][0] == c && s[i..][1..] == s[i + 1..];
        if state == 0 {
          if c == '=' || c == ',' {
            return false;
          }
          state := 1;
        } else if state == 1 {
          if c == '=' {
            state := 2;
          } else if c == ',' {
            return false;
          }
        } else {
          if c == ',' {
            state := 0;
          } else if c == '=' {
            return false;
          }
        }
        i := i + 1;
      }
      valid := state == 2;
    }

    /** The first half of strtok: on to the next character that is no delimiter. */
    method SkipAhead(ghost rest: string)
      requires Holds(saved, rest)
      modifies this`saved
      ensures saved >= old(saved) && Holds(saved, SkipDelimiters(rest))
      ensures buffer[saved] == NUL <==> SkipDelimiters(rest) == ""
    {
      hide Holds, SkipDelimiters, IsDelimiter;
      ghost var left := rest;
      HoldsFirst(saved, left);
      while IsDelimiter(buffer[saved])
        invariant old(saved) <= saved < buffer.Length && Holds(saved, left)
        invariant SkipDelimiters(left) == SkipDelimiters(rest)
        invariant buffer[saved] == (if left == "" then NUL else left[0]) && (left != "" ==> left[0] != NUL)
        decreases |left|
      {
        HoldsFirst(saved, left);
        SkipStep(left);
        left := left[1..];
        saved := saved + 1;
        HoldsFirst(saved, left);
      }
      SkipStep(left);
    }

    /** The second half: the token up to the next delimiter, which becomes a NUL. */
    method TakeToken(ghost t: string) returns (token: nat)
      requires Holds(saved, t) && t != ""
      modifies buffer, this`saved
      ensures saved >= old(saved) && token == old(saved)
      ensures var k := TokenLength(t);
              && Holds(token, t[..k]) && Holds(saved, AfterToken(t, k))
              && (token + k < saved || (token + k == saved && AfterToken(t, k) == ""))
      ensures forall i :: 0 <= i < old(saved) ==> buffer[i] == old(buffer[i])
    {
      token := saved;
      var k := 0;
      while buffer[token + k] != NUL && !IsDelimiter(buffer[token + k])
        invariant k <= |t| && Plain(t[..k]) && (k < |t| ==> buffer[token + k] == t[k] && t[k] != NUL)
        decreases |t| - k
      {
        assert t[..k + 1] == t[..k] + [t[k]];
        k := k + 1;
      }
      TokenLengthIs(t, k);
      if buffer[token + k] == NUL {
        saved := token + k;
      } else {
        buffer[token + k] := NUL;
        saved := token + k + 1;
        assert forall i {:trigger t[k + 1..][i]} :: 0 <= i < |t| - k - 1 ==> t[k + 1..][i] == t[k + 1 + i];
      }
    }

    /** One call of strtok: the position of the next token, or -1. */
    method NextToken(ghost rest: string) returns (token: int)
      requires Holds(saved, rest)
      modifies buffer, this`saved
      ensures saved >= old(saved)
      ensures var t := SkipDelimiters(rest);
              if t == "" then token == -1
              else
                var k := TokenLength(t);
                && token >= old(saved) && Holds(token, t[..k]) && Holds(saved, AfterToken(t, k))
                && (token + k < saved || (token + k == saved && AfterToken(t, k) == ""))
      ensures forall i :: 0 <= i < old(saved) && i < buffer.Length ==> buffer[i] == old(buffer[i])
    {
      hide TokenLength, AfterToken;
      SkipAhead(rest);
      if buffer[saved] == NUL {
        return -1;
      }
      token := TakeToken(SkipDelimiters(rest));
    }

    /** Steps over an opening quote and cuts off a closing one. */
    method Unquote(at: nat, ghost s: string) returns (first: nat)
      requires Holds(at, s)
      modifies buffer
      ensures Holds(first, LineValues.Unquote(s)) && at <= first && first + |LineValues.Unquote(s)| <= at + |s|
      ensures forall i :: 0 <= i < buffer.Length && !(at <= i < at + |s|) ==> buffer[i] == old(buffer[i])
    {
      first := at;
      ghost var kept := s;
      assert s != "" ==> buffer[at] == s[0];
      if buffer[first] == '"' {
        first := first + 1;
        kept := kept[1..];
      }
      var length := Length(first, kept);
      assert length > 0 ==> buffer[first + length - 1] == kept[length - 1];
      if length > 0 && buffer[first + length - 1] == '"' {
        buffer[first + length - 1] := NUL;
        kept := kept[..length - 1];
      }
    }

    /** Sets one field of the sample by name. */
    method Assign(kinds: map<string, Kind>, field: string, text: string) returns (ok: bool)
      modifies this`values
      ensures (ok, values) == LineValues.Assign(kinds, old(values), field, text)
    {
      if field !in kinds {
        return false;
      }
      var parsed := Parse(kinds[field], text);
      if parsed.None? {
        return false;
      }
      values := values[field := parsed.value];
      ok := kinds[field] != Octet;
    }

    /** One field and its value: two tokens, trimmed, the value without quotes. */
    method AssignNext(kinds: map<string, Kind>, token: nat, ghost t: string, ghost rest: string) returns (ok: bool)
      requires Holds(token, t) && Holds(saved, rest)
      requires token + |t| < saved || (token + |t| == saved && rest == "")
      modifies buffer, this`saved, this`values
      ensures var next := SkipDelimiters(rest);
              if next == "" then !ok && values == old(values)
              else
                var k := TokenLength(next);
                && (ok, values) == LineValues.Assign(kinds, old(values), LineText.Trim(t),
                                                     LineValues.Unquote(LineText.Trim(next[..k])))
                && Holds(saved, AfterToken(next, k))
    {
      hide LineText.Trim, LineValues.Unquote, SkipDelimiters, TokenLength, AfterToken, LineValues.Assign;
      var fieldAt := Trim(token, t);
      ghost var field, next := LineText.Trim(t), SkipDelimiters(rest);
      var valueAt := NextToken(rest);
      if valueAt < 0 {
        return false;
      }
      ghost var k := TokenLength(next);
      ok := AssignValue(kinds, fieldAt, field, valueAt, next[..k], AfterToken(next, k));
    }

    method AssignValue(kinds: map<string, Kind>, fieldAt: nat, ghost field: string, valueAt: nat, ghost value: string,
                       ghost rest: string) returns (ok: bool)
      requires Holds(fieldAt, field) && Holds(valueAt, value) && Holds(saved, rest)
      requires fieldAt + |field| < valueAt && valueAt + |value| <= saved
      modifies buffer, this`values
      ensures Holds(saved, rest)
      ensures (ok, values) == LineValues.Assign(kinds, old(values), field, LineValues.Unquote(LineText.Trim(value)))
    {
      hide LineText.Trim, LineValues.Unquote, LineValues.Assign;
      var trimmedAt := Trim(valueAt, value);
      var textAt := Unquote(trimmedAt, LineText.Trim(value));
      var name := Get(fieldAt, field);
      var text := Get(textAt, LineValues.Unquote(LineText.Trim(value)));
      ok := Assign(kinds, name, text);
    }

    /** What fgets leaves in the buffer: the characters, then a NUL. */
    method Load(text: string)
      requires |text| < buffer.Length
      modifies buffer
      ensures Holds(0, CText(text))
    {
      hide Find;
      var i := 0;
      while i < |text|
        invariant 0 <= i <= |text|
        invariant forall k :: 0 <= k < i ==> buffer[k] == text[k]
      {
        buffer[i] := text[i];
        i := i + 1;
      }
      buffer[|text|] := NUL;
    }

    /** The tokens of a line in pairs, up to the first error. */
    method AssignTokens(kinds: map<string, Kind>, ghost line: string) returns (ok: bool)
      requires Holds(saved, line)
      modifies buffer, this`saved, this`values
      ensures (ok, values) == AssignAll(kinds, old(values), Tokens(line))
    {
      hide Holds, Tokens, AssignAll, LineValues.Assign, SkipDelimiters, TokenLength, AfterToken;
      ghost var t, rest, result := "", line, AssignAll(kinds, values, Tokens(line));
      var token := NextToken(line);
      TokensStep(line);
      if token >= 0 {
        t, rest := FirstToken(line), AfterFirst(line);
      } else {
        AssignNone(kinds, values);
      }
      while token >= 0
        invariant token >= 0 ==>
          && Holds(token, t) && Holds(saved, rest) && (token + |t| < saved || (token + |t| == saved && rest == ""))
          && result == AssignAll(kinds, values, [t] + Tokens(rest))
        invariant token < 0 ==> result == (true, values)
        decreases if token < 0 then 0 else |rest| + 1
      {
        TokensStep(rest);
        ghost var before, next := values, SkipDelimiters(rest);
        ok := AssignNext(kinds, token, t, rest);
        if next == "" {
          AssignOdd(kinds, before, t);
        } else {
          AssignTwo(kinds, before, t, FirstToken(rest), Tokens(AfterFirst(rest)));
        }
        if !ok {
          return false;
        }
        ghost var more := AfterFirst(rest);
        AfterIsShorter(rest);
        TokensStep(more);
        token := NextToken(more);
        if token >= 0 {
          t, rest := FirstToken(more), AfterFirst(more);
          AfterIsShorter(more);
        } else {
          AssignNone(kinds, values);
        }
      }
      ok := true;
    }

    /** Reads one line of the file into the sample. */
    method ReadSample(file: string, size: nat, kinds: map<string, Kind>) returns (action: Action)
      requires 0 < size < buffer.Length
      modifies buffer, this`saved, this`values
      ensures (action, values) == ReadLine(kinds, old(values), CText(Fgets(file, size)))
    {
      hide Holds, Tokens, AssignAll, Scan, Fgets, CText, LineText.Trim;
      ghost var line := CText(Fgets(file, size));
      if file == "" {
        EndOfFile(size);
        return NotSent;
      }
      FgetsFits(file, size);
      Load(Fgets(file, size));
      var at := Trim(0, line);
      ghost var trimmed := LineText.Trim(line);
      HoldsFirst(at, trimmed);
      if buffer[at] == NUL {
        return NotSent;
      }
      var valid := Validate(at, trimmed);
      if !valid {
        return Error;
      }
      saved := at;
      var ok := AssignTokens(kinds, trimmed);
      action := if ok then Send else Error;
    }
  }

  /** The first token of a string that has one, and what strtok leaves after it. */
  ghost function FirstToken(s: string): string {
    var t := SkipDelimiters(s);
    t[..TokenLength(t)]
  }

  ghost function AfterFirst(s: string): string {
    var t := SkipDelimiters(s);
    AfterToken(t, TokenLength(t))
  }

  lemma {:induction false} TokensStep(s: string)
    ensures Tokens(s) == if SkipDelimiters(s) == "" then [] else [FirstToken(s)] + Tokens(AfterFirst(s))
  {
  }

  lemma {:induction false} AfterIsShorter(s: string)
    requires SkipDelimiters(s) != ""
    ensures |AfterFirst(s)| < |s|
  {
  }

  lemma {:induction false} AssignNone(kinds: map<string, Kind>, values: map<string, Value>)
    ensures AssignAll(kinds, values, []) == (true, values)
  {
  }

  lemma {:induction false} AssignOdd(kinds: map<string, Kind>, values: map<string, Value>, t: string)
    ensures AssignAll(kinds, values, [t]) == AssignAll(kinds, values, [t] + []) == (false, values)
  {
    assert [t] + [] == [t];
  }

  lemma {:induction false} AssignTwo(kinds: map<string, Kind>, values: map<string, Value>, t: string, u: string,
                                     more: seq<string>)
    ensures var r := LineValues.Assign(kinds, values, LineText.Trim(t), LineValues.Unquote(LineText.Trim(u)));
            AssignAll(kinds, values, [t] + ([u] + more)) == if r.0 then AssignAll(kinds, r.1, more) else r
  {
    hide LineValues.Assign, LineValues.Unquote, LineText.Trim;
    var tokens := [t] + ([u] + more);
    assert tokens[0] == t && tokens[1] == u && tokens[2..] == more;
  }

  lemma {:induction false} EndOfFile(size: nat)
    requires size > 0
    ensures LineText.Trim(CText(Fgets("", size))) == ""
  {
  }

  lemma {:induction false} FgetsFits(file: string, size: nat)
    requires size > 0
    ensures |Fgets(file, size)| < size
  {
  }

  /** Appends the lines of samples to a file. */
  class LineWriter {
    var output: string

    constructor ()
      ensures output == ""
    {
      output := "";
    }

    method WriteMember(m: Member, values: map<string, Value>) returns (ok: bool)
      modifies this
      ensures ok <==> m.name in values && Print(m.kind, values[m.name]).Some?
      ensures output == old(output) + if ok then m.name + "=" + Print(m.kind, values[m.name]).value else ""
    {
      if m.name !in values {
        return false;
      }
      var text := Print(m.kind, values[m.name]);
      if text.None? {
        return false;
      }
      output := output + (m.name + "=" + text.value);
      ok := true;
    }

    /** Every member, with separators between them and a line end. */
    method WriteSample(members: seq<Member>, values: map<string, Value>) returns (ok: bool)
      modifies this
      ensures ok == WriteLine(members, values).0
      ensures output == old(output) + WriteLine(members, values).1
    {
      hide Print;
      var i := 0;
      assert members[0..] == members;
      while i < |members|
        invariant 0 <= i <= |members|
        invariant old(output) + WriteLine(members, values).1 == output + WriteLine(members[i..], values).1
        invariant WriteLine(members, values).0 == WriteLine(members[i..], values).0
      {
        ghost var before, m, later := output, members[i..][0], members[i..][1..];
        assert members[i] == m && members[i + 1..] == later;
        ok := WriteMember(members[i], values);
        if !ok {
          return;
        }
        ghost var text, separator := output[|before|..], if |later| > 0 then "," else "";
        if i < |members| - 1 {
          output := output + ",";
        }
        assert before + (text + separator + WriteLine(later, values).1) == output + WriteLine(later, values).1;
        i := i + 1;
      }
      output := output + "\n";
      ok := true;
    }
  }
}
