/**
 The single moves of the machine that do not depend on the pass: each lemma says which state a run
 continues from after one character, or after a run of white space.
 */
module JsonTransitions {
  import opened Wrappers
  import opened JsonText
  import opened JsonGrammar
  import opened JsonMachine
  import opened JsonLayout

  const OUTSIDE := Flags(false, false, false, false, false, false)

  /** The state a pass starts from. */
  function Start(first: bool, ptr: nat, nodes: seq<Node>, links: seq<int>, alloc: int): Machine {
    Machine(first, ptr, SEEK_VALUE, NO_NUMBER, nodes, links, -1, -1, alloc, 0, 0, 0, 0)
  }

  /** What a pass does after one step. */
  ghost function Continue(t: string, o: Outcome): Outcome
    requires o.Next? ==> Valid(t, o.m)
  {
    match o
    case Next(n) => Run(t, n)
    case _ => o
  }

  /** The flags after a value whose container is the node at `top`. */
  function AfterFlags(m: Machine): Flags
    requires -1 <= m.top < |m.nodes|
  {
    if m.top < 0 then OUTSIDE.(needComma := true, done := true)
    else OUTSIDE.(needComma := true, seekValue := m.nodes[m.top].kind == KArray)
  }

  lemma {:induction false} RunStep(t: string, m: Machine)
    requires Valid(t, m)
    ensures Good(t, m, Step(t, m)) && Run(t, m) == Continue(t, Step(t, m))
  {
    hide Valid, Step;
    StepGood(t, m);
  }

  /** White space is skipped when seeking a value, inside an object, and after the root value. */
  ghost predicate Skips(m: Machine)
    requires m.top == -1 ==> m.flags.seekValue
    requires -1 <= m.top < |m.nodes|
  {
    !m.flags.inString && (m.flags.done || m.flags.seekValue || m.nodes[m.top].kind == KObject)
  }

  lemma {:induction false} SkipRun(t: string, m: Machine)
    requires Valid(t, m) && Skips(m)
    ensures Valid(t, m.(ptr := SkipWhitespace(t, m.ptr)))
    ensures Run(t, m) == Run(t, m.(ptr := SkipWhitespace(t, m.ptr)))
    decreases |t| - m.ptr
  {
    hide Linked, Run, NumberStep, StringStep;
    if IsWhitespace(At(t, m.ptr)) {
      RunStep(t, m);
      SkipRun(t, m.(ptr := m.ptr + 1));
    } else {
      assert m.(ptr := SkipWhitespace(t, m.ptr)) == m;
    }
  }

  lemma {:induction false} CommaRun(t: string, m: Machine)
    requires Valid(t, m) && Skips(m) && !m.flags.done && m.flags.needComma && At(t, m.ptr) == ','
    ensures var n := m.(flags := m.flags.(needComma := false), ptr := m.ptr + 1); Valid(t, n) && Run(t, m) == Run(t, n)
  {
    hide Linked, Run, NumberStep, StringStep;
    RunStep(t, m);
  }

  lemma {:induction false} ColonRun(t: string, m: Machine)
    requires Valid(t, m) && m.flags == SEEK_VALUE.(needColon := true) && At(t, m.ptr) == ':'
    ensures var n := m.(flags := SEEK_VALUE, ptr := m.ptr + 1); Valid(t, n) && Run(t, m) == Run(t, n)
  {
    hide Linked, Run, NumberStep, StringStep;
    RunStep(t, m);
  }

  lemma {:induction false} OpenNameRun(t: string, m: Machine)
    requires Valid(t, m) && m.flags == OUTSIDE && m.top >= 0 && m.nodes[m.top].kind == KObject && At(t, m.ptr) == '"'
    ensures var n := m.(flags := OUTSIDE.(inString := true), stringLength := 0, ptr := m.ptr + 1);
            Valid(t, n) && Run(t, m) == Run(t, n)
  {
    hide Linked, Run, NumberStep, StringStep;
    RunStep(t, m);
  }

  lemma {:induction false} BackslashRun(t: string, m: Machine)
    requires Valid(t, m) && m.flags.inString && !m.flags.escaped && At(t, m.ptr) == '\\' && m.stringLength <= UINT_LIMIT
    ensures var n := m.(flags := m.flags.(escaped := true), ptr := m.ptr + 1); Valid(t, n) && Run(t, m) == Run(t, n)
  {
    hide Linked, Run, NumberStep;
    RunStep(t, m);
  }

  /** The length checks made before looking ahead never reject what the NUL terminator would accept. */
  lemma {:induction false} ReadEscapeIsEscape(t: string, i: nat)
    requires i < |t| && At(t, i) != '\0'
    ensures ReadEscape(t, i) == Escape(t, i)
  {
    if t[i] == 'u' {
      assert |t| - i < 4 ==> HexValue(At(t, i + 4)) == 255;
      if |t| - i >= 4 {
        match Hex4(t, i + 1)
        case None =>
        case Some(u) =>
          assert |t| - (i + 4) < 6 ==> At(t, i + 5) == '\0' || At(t, i + 6) == '\0' || HexValue(At(t, i + 10)) == 255;
      }
    }
  }

  lemma {:induction false} MatchesIsLiteral(t: string, i: nat, word: string)
    requires '\0' !in word && |word| > 0 && At(t, i) == word[0]
    ensures Matches(t, i + 1, word[1..]) == Literal(t, i, word)
  {
    var rest := word[1..];
    if Matches(t, i + 1, rest) {
      forall k | 0 <= k < |word| ensures At(t, i + k) == word[k] {
        if k > 0 {
          assert t[i + 1..i + 1 + |rest|][k - 1] == rest[k - 1];
        }
      }
    }
    if Literal(t, i, word) {
      forall k | 0 <= k < |rest| ensures t[i + 1 + k] == rest[k] {
        assert At(t, i + (k + 1)) == word[k + 1];
      }
      assert t[i + 1..i + 1 + |rest|] == rest;
    }
  }

  /** The words `true`, `false` and `null` are read in one step, in either pass. */
  lemma {:induction false} WordStep(t: string, m: Machine)
    requires Valid(t, m) && m.flags == SEEK_VALUE && (At(t, m.ptr) == 't' || At(t, m.ptr) == 'f' || At(t, m.ptr) == 'n')
    ensures match ValueAt(t, m.ptr)
            case None => Step(t, m) == Reject(m.(flags := OUTSIDE))
            case Some((v, j)) =>
              (v == Null || v.Boolean?) && Step(t, m)
                == NewAndFinish(m.(flags := OUTSIDE), KindOf(v), v == Boolean(true), j)
  {
    hide ValidNodes, Chain, NumberStep, StringStep, Literal, Matches, Finish, NewAndFinish;
    if At(t, m.ptr) == 't' {
      MatchesIsLiteral(t, m.ptr, "true");
      assert "true"[1..] == "rue";
    } else if At(t, m.ptr) == 'f' {
      MatchesIsLiteral(t, m.ptr, "false");
      assert "false"[1..] == "alse";
    } else {
      MatchesIsLiteral(t, m.ptr, "null");
      assert "null"[1..] == "ull";
    }
  }

  /** The character that opens a container or a string, once the node `n` is made or taken. */
  lemma {:induction false} OpenStep(t: string, m: Machine, n: Machine)
    requires Valid(t, m) && m.flags == SEEK_VALUE
    requires var b := At(t, m.ptr);
             (b == '{' && NewValue(m.(flags := OUTSIDE), KObject) == Some(n)) ||
             (b == '[' && NewValue(m.(flags := OUTSIDE), KArray) == Some(n)) ||
             (b == '"' && NewValue(m.(flags := OUTSIDE), KString) == Some(n))
    ensures Step(t, m) == Next(
      if At(t, m.ptr) == '{' then n.(ptr := m.ptr + 1)
      else if At(t, m.ptr) == '[' then n.(flags := SEEK_VALUE, ptr := m.ptr + 1)
      else n.(flags := OUTSIDE.(inString := true), stringLength := 0, ptr := m.ptr + 1))
  {
    hide ValidNodes, Chain, NumberStep, StringStep, Matches, Finish;
  }

  /** The bracket or brace that closes the container at the top. */
  lemma {:induction false} CloseStep(t: string, m: Machine)
    requires Valid(t, m) && m.top >= 0
    requires
      || (At(t, m.ptr) == ']' && m.nodes[m.top].kind == KArray
         && (m.flags == SEEK_VALUE || m.flags == SEEK_VALUE.(needComma := true)))
      || (At(t, m.ptr) == '}' && m.nodes[m.top].kind == KObject
         && (m.flags == OUTSIDE || m.flags == OUTSIDE.(needComma := true)))
    ensures -1 <= m.nodes[m.top].parent < m.top && Step(t, m) == Finish(m.(flags := OUTSIDE), m.ptr + 1)
  {
    hide ValidNodes, Chain, NumberStep, StringStep, StartValue, Finish;
    NodeFacts(m.nodes, m.top);
  }
}
