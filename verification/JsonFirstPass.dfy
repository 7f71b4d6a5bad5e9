/**
 The first pass refines the grammar: reading a value, the machine rejects exactly when the grammar
 does, and otherwise goes on from the position after the value with the value counted in the arena.
 Lemmas that move the machine return the state the run continues from.
 */
module JsonFirstPass {
  import opened Wrappers
  import opened JsonText
  import opened JsonGrammar
  import opened JsonMachine
  import opened JsonTransitions
  import opened JsonLayout

  // ----- strings -----

  /** From inside a string to its closing quote, counting the bytes. */
  lemma {:induction false} StringRun(t: string, m: Machine)
    requires Valid(t, m) && m.first && m.flags == OUTSIDE.(inString := true)
    ensures match StringBody(t, m.ptr)
            case None => Run(t, m).Reject?
            case Some((s, j)) =>
              var n := m.(ptr := j - 1, stringLength := m.stringLength + |s|);
              Valid(t, n) && if n.stringLength > UINT_LIMIT then Run(t, m).Reject? else Run(t, m) == Run(t, n)
    decreases |t| - m.ptr
  {
    hide ValidNodes, Chain, Run, NumberStep, SeekStep, ReadEscape, UnicodeEscape, CloseString;
    RunStep(t, m);
    if At(t, m.ptr) == '\0' || m.stringLength > UINT_LIMIT {
    } else if At(t, m.ptr) == '\\' {
      BackslashRun(t, m);
      var e := m.(flags := m.flags.(escaped := true), ptr := m.ptr + 1);
      RunStep(t, e);
      if At(t, e.ptr) != '\0' {
        ReadEscapeIsEscape(t, e.ptr);
        var r := Escape(t, e.ptr);
        if r.Some? {
          StringRun(t, m.(stringLength := m.stringLength + |r.value.0|, ptr := r.value.1));
        }
      }
    } else if At(t, m.ptr) == '"' {
      assert m.(ptr := m.ptr, stringLength := m.stringLength + |""|) == m;
    } else {
      StringRun(t, m.(stringLength := m.stringLength + 1, ptr := m.ptr + 1));
    }
  }

  // ----- numbers -----

  /** The machine is reading the number at its top. */
  ghost predicate Reading(t: string, m: Machine) {
    Valid(t, m) && m.first && m.flags == OUTSIDE && 0 <= m.top < |m.nodes| && InNumber(m)
  }

  /** `n` differs from `m` only in what reading a number changes. */
  ghost predicate OnlyNumber(m: Machine, n: Machine) {
    && 0 <= m.top == n.top < |m.nodes| == |n.nodes|
    && n == m.(ptr := n.ptr, nodes := n.nodes, numberFlags := n.numberFlags,
               numDigits := n.numDigits, numFraction := n.numFraction, numE := n.numE)
    && n.nodes == m.nodes[m.top := n.nodes[m.top]]
    && n.nodes[m.top] == m.nodes[m.top].(kind := n.nodes[m.top].kind, number := n.nodes[m.top].number)
  }

  lemma {:induction false} OnlyNumberTransitive(a: Machine, b: Machine, c: Machine)
    requires OnlyNumber(a, b) && OnlyNumber(b, c)
    ensures OnlyNumber(a, c)
  {
  }

  predicate AllDigits(t: string, i: nat, j: nat) {
    i <= j && forall k :: i <= k < j ==> IsDigit(At(t, k))
  }

  lemma {:induction false} SetTopOnlyNumber(m: Machine, kind: Kind, n: Number)
    requires 0 <= m.top < |m.nodes|
    ensures OnlyNumber(m, SetTop(m, kind, n))
  {
  }

  /** One digit of the integer part. */
  lemma {:induction false} IntegerDigitRun(t: string, m: Machine) returns (n: Machine)
    requires Reading(t, m) && m.nodes[m.top].kind == KInteger && !m.numberFlags.e && IsDigit(At(t, m.ptr))
    requires m.nodes[m.top].number.Integer?
    ensures if m.numberFlags.zero then Run(t, m).Reject?
            else
              Reading(t, n) && Run(t, m) == Run(t, n) && OnlyNumber(m, n) &&
              n.ptr == m.ptr + 1 && n.numDigits == m.numDigits + 1 && n.nodes[n.top].kind == KInteger &&
              n.nodes[n.top].number == Integer(m.nodes[m.top].number.n * 10 + DigitValue(At(t, m.ptr))) &&
              n.numberFlags == m.numberFlags.(zero := m.numDigits == 0 && At(t, m.ptr) == '0') &&
              n.numFraction == m.numFraction && n.numE == m.numE
  {
    hide ValidNodes, Chain, Run, SeekStep, StringStep;
    RunStep(t, m);
    n := m;
    if !m.numberFlags.zero {
      n := Step(t, m).m;
    }
  }

  /** The digits of the integer part, which started at `start`. */
  lemma {:induction false} IntegerDigits(t: string, m: Machine, start: nat) returns (n: Machine)
    requires Reading(t, m) && m.nodes[m.top].kind == KInteger && !m.numberFlags.e
    requires AllDigits(t, start, m.ptr)
    requires m.numDigits == m.ptr - start && m.nodes[m.top].number == Integer(Decimal(t, start, m.ptr))
    requires m.numberFlags.zero <==> m.ptr > start && At(t, start) == '0'
    requires m.numberFlags.zero ==> m.ptr == start + 1
    ensures var j := DigitsEnd(t, m.ptr);
            if j - start >= 2 && At(t, start) == '0' then Run(t, m).Reject?
            else
              Reading(t, n) && Run(t, m) == Run(t, n) && OnlyNumber(m, n) &&
              n.ptr == j && n.numDigits == j - start && n.nodes[n.top].kind == KInteger &&
              n.nodes[n.top].number == Integer(Decimal(t, start, j)) &&
              n.numberFlags == m.numberFlags.(zero := n.numberFlags.zero) &&
              n.numFraction == m.numFraction && n.numE == m.numE
    decreases |t| - m.ptr
  {
    hide Valid, Linked, InNumber, Run;
    n := m;
    if IsDigit(At(t, m.ptr)) {
      var m1 := IntegerDigitRun(t, m);
      if !m.numberFlags.zero {
        n := IntegerDigits(t, m1, start);
        if !(DigitsEnd(t, m.ptr) - start >= 2 && At(t, start) == '0') {
          OnlyNumberTransitive(m, m1, n);
        }
      }
    } else {
      assert OnlyNumber(m, m);
    }
  }

  /** The digits of the fraction, which started at `start`. */
  lemma {:induction false} FractionDigits(t: string, m: Machine, start: nat) returns (n: Machine)
    requires Reading(t, m) && m.nodes[m.top].kind == KDouble && !m.numberFlags.e
    requires AllDigits(t, start, m.ptr) && m.numDigits == m.ptr - start && m.numFraction == Decimal(t, start, m.ptr)
    ensures var j := DigitsEnd(t, m.ptr);
            Reading(t, n) && Run(t, m) == Run(t, n) &&
            n == m.(ptr := j, numDigits := j - start, numFraction := Decimal(t, start, j))
    decreases |t| - m.ptr
  {
    hide ValidNodes, Chain, Run, SeekStep, StringStep;
    n := m;
    if IsDigit(At(t, m.ptr)) {
      RunStep(t, m);
      n := FractionDigits(t, m.(ptr := m.ptr + 1, numDigits := m.numDigits + 1,
                                numFraction := m.numFraction * 10 + DigitValue(At(t, m.ptr))), start);
    }
  }

  /** The digits of the exponent, which started at `start`. */
  lemma {:induction false} ExponentDigits(t: string, m: Machine, start: nat) returns (n: Machine)
    requires Reading(t, m) && m.nodes[m.top].kind == KDouble && m.numberFlags.e
    requires AllDigits(t, start, m.ptr) && m.numDigits == m.ptr - start && m.numE == Decimal(t, start, m.ptr)
    ensures var j := DigitsEnd(t, m.ptr);
            Reading(t, n) && Run(t, m) == Run(t, n) &&
            n == m.(ptr := j, numDigits := j - start, numE := Decimal(t, start, j),
                    numberFlags := m.numberFlags.(eGotSign := m.numberFlags.eGotSign || j > m.ptr))
    decreases |t| - m.ptr
  {
    hide ValidNodes, Chain, Run, SeekStep, StringStep;
    n := m;
    if IsDigit(At(t, m.ptr)) {
      RunStep(t, m);
      n := ExponentDigits(t, m.(ptr := m.ptr + 1, numDigits := m.numDigits + 1,
                                numE := m.numE * 10 + DigitValue(At(t, m.ptr)),
                                numberFlags := m.numberFlags.(eGotSign := true)), start);
    }
  }

  /** The number `v` at the top of `n` is complete, and the run goes on by finishing it at `j`. */
  ghost predicate Completes(t: string, m: Machine, n: Machine, v: Number, j: nat)
    requires Valid(t, m)
  {
    && OnlyNumber(m, n) && n.ptr == j && Linked(n)
    && n.nodes[n.top].number == v && n.nodes[n.top].kind == (if v.Integer? then KInteger else KDouble)
    && n.nodes[n.top].parent < n.top
    && (var o := Finish(n, j); (o.Next? ==> Valid(t, o.m)) && Run(t, m) == Continue(t, o))
  }

  /** The character after the digits of an exponent. */
  lemma {:induction false} ExponentEnd(t: string, m: Machine) returns (n: Machine)
    requires Reading(t, m) && m.numberFlags.e && !IsDigit(At(t, m.ptr))
    requires (At(t, m.ptr) == '+' || At(t, m.ptr) == '-') ==> m.numberFlags.eGotSign
    ensures if m.numDigits == 0 then Run(t, m).Reject?
            else
              Completes(t, m, n, Negated(m.numberFlags.negative,
                                         Double(TimesPow10(AsReal(m.nodes[m.top].number), ExponentOf(m)))), m.ptr)
  {
    hide ValidNodes, Chain, Run, SeekStep, StringStep, TimesPow10;
    RunStep(t, m);
    NodeFacts(m.nodes, m.top);
    n := m;
    if m.numDigits > 0 {
      var v := Negated(m.numberFlags.negative, Double(TimesPow10(AsReal(m.nodes[m.top].number), ExponentOf(m))));
      n := SetTop(m, KDouble, v);
      SetTopOnlyNumber(m, KDouble, v);
      SetTopGood(m, KDouble, v);
    }
  }

  /** A sign right after the `e`. */
  lemma {:induction false} SignRun(t: string, m: Machine)
    requires Reading(t, m) && m.numberFlags.e && !m.numberFlags.eGotSign && !m.numberFlags.eNegative
    requires At(t, m.ptr) == '+' || At(t, m.ptr) == '-'
    ensures var n := m.(ptr := m.ptr + 1,
                        numberFlags := m.numberFlags.(eGotSign := true, eNegative := At(t, m.ptr) == '-'));
            Reading(t, n) && Run(t, m) == Run(t, n)
  {
    hide ValidNodes, Chain, Run, SeekStep, StringStep, TimesPow10;
    RunStep(t, m);
  }

  lemma {:induction false} CompletesFrom(t: string, a: Machine, b: Machine, n: Machine, v: Number, j: nat)
    requires Valid(t, a) && Valid(t, b) && OnlyNumber(a, b) && Run(t, a) == Run(t, b)
    requires Completes(t, b, n, v, j)
    ensures Completes(t, a, n, v, j)
  {
    hide Valid, Run, Finish;
    OnlyNumberTransitive(a, b, n);
  }

  /** From just after the `e` to the end of the number. */
  lemma {:induction false} AfterE(t: string, m: Machine) returns (n: Machine)
    requires Reading(t, m) && m.numberFlags.e && !m.numberFlags.eGotSign && !m.numberFlags.eNegative
    requires m.numDigits == 0 && m.numE == 0
    ensures var signed := At(t, m.ptr) == '+' || At(t, m.ptr) == '-';
            var start := if signed then m.ptr + 1 else m.ptr;
            var j := DigitsEnd(t, start);
            if j == start then Run(t, m).Reject?
            else
              var e := Decimal(t, start, j);
              Completes(t, m, n, Negated(m.numberFlags.negative,
                Double(TimesPow10(AsReal(m.nodes[m.top].number), if At(t, m.ptr) == '-' then -e else e))), j)
  {
    hide Valid, Run, TimesPow10, Finish;
    var m1 := m;
    if At(t, m.ptr) == '+' || At(t, m.ptr) == '-' {
      SignRun(t, m);
      m1 := m.(ptr := m.ptr + 1, numberFlags := m.numberFlags.(eGotSign := true, eNegative := At(t, m.ptr) == '-'));
    }
    var m2 := ExponentDigits(t, m1, m1.ptr);
    n := ExponentEnd(t, m2);
    if m2.numDigits > 0 {
      assert OnlyNumber(m, m2);
      CompletesFrom(t, m, m2, n, n.nodes[n.top].number, m2.ptr);
    }
  }

  /** The exponent, if any, and the end of the number; `v` is the value read so far. */
  lemma {:induction false} ExponentRun(t: string, m: Machine, v: Number) returns (n: Machine)
    requires Reading(t, m) && !IsDigit(At(t, m.ptr)) && !m.numberFlags.e && !m.numberFlags.eGotSign
    requires !m.numberFlags.eNegative
    requires m.numE == 0
    requires if m.nodes[m.top].kind == KInteger then v == m.nodes[m.top].number && v.Integer? && At(t, m.ptr) != '.'
             else m.numDigits > 0 && v == Double(PlusFraction(AsReal(m.nodes[m.top].number), m.numFraction,
                                                              m.numDigits))
    ensures match Exponent(t, v, m.ptr)
            case None => Run(t, m).Reject?
            case Some((e, j)) => Completes(t, m, n, Negated(m.numberFlags.negative, e), j)
  {
    hide ValidNodes, Chain, Run, SeekStep, StringStep, PlusFraction, TimesPow10;
    RunStep(t, m);
    NodeFacts(m.nodes, m.top);
    var b := At(t, m.ptr);
    if b != 'e' && b != 'E' {
      var kind := m.nodes[m.top].kind;
      n := SetTop(m, kind, Negated(m.numberFlags.negative, v));
      SetTopOnlyNumber(m, kind, Negated(m.numberFlags.negative, v));
      SetTopGood(m, kind, Negated(m.numberFlags.negative, v));
    } else {
      n := ERun(t, m, v);
    }
  }

  /** The exponent, from its `e`. */
  lemma {:induction false} ERun(t: string, m: Machine, v: Number) returns (n: Machine)
    requires Reading(t, m) && (At(t, m.ptr) == 'e' || At(t, m.ptr) == 'E')
    requires !m.numberFlags.e && !m.numberFlags.eGotSign && !m.numberFlags.eNegative && m.numE == 0
    requires if m.nodes[m.top].kind == KInteger then v == m.nodes[m.top].number
             else m.numDigits > 0 && v == Double(PlusFraction(AsReal(m.nodes[m.top].number), m.numFraction,
                                                              m.numDigits))
    ensures match Exponent(t, v, m.ptr)
            case None => Run(t, m).Reject?
            case Some((e, j)) => Completes(t, m, n, Negated(m.numberFlags.negative, e), j)
  {
    hide ValidNodes, Chain, Run, SeekStep, StringStep, PlusFraction, TimesPow10, Finish;
    RunStep(t, m);
    var m0 := SetTop(m, KDouble, Double(AsReal(v)));
    var m1 := m0.(numberFlags := m.numberFlags.(e := true, zero := false), numDigits := 0, ptr := m.ptr + 1);
    assert Step(t, m) == Next(m1);
    SetTopOnlyNumber(m, KDouble, Double(AsReal(v)));
    n := AfterE(t, m1);
    if Exponent(t, v, m.ptr).Some? {
      CompletesFrom(t, m, m1, n, n.nodes[n.top].number, n.ptr);
    }
  }

  /** A whole number, from the position after its minus sign. */
  lemma {:induction false} NumberRun(t: string, m: Machine, i: nat) returns (n: Machine)
    requires Reading(t, m) && m.nodes[m.top].kind == KInteger && m.nodes[m.top].number == Integer(0)
    requires m.numberFlags == NO_NUMBER.(negative := At(t, i) == '-') && m.numDigits == 0 && m.numFraction == 0
    requires m.numE == 0
    requires IsDigit(At(t, i)) || At(t, i) == '-'
    requires m.ptr == if At(t, i) == '-' then i + 1 else i
    ensures match NumberToken(t, i)
            case None => Run(t, m).Reject?
            case Some((v, j)) => Completes(t, m, n, v, j)
  {
    hide Valid, Run, PlusFraction, TimesPow10, Exponent, Completes;
    var start := m.ptr;
    var j := DigitsEnd(t, start);
    var m1 := IntegerDigits(t, m, start);
    n := m1;
    if !(j - start >= 2 && At(t, start) == '0') {
      if At(t, j) == '.' {
        n := DotRun(t, m1, start);
      } else {
        n := ExponentRun(t, m1, Integer(Decimal(t, start, j)));
      }
      if NumberToken(t, i).Some? {
        var (v, e) := NumberToken(t, i).value;
        CompletesFrom(t, m, m1, n, v, e);
      }
    }
  }

  /** The fraction and what follows it, from the dot after integer digits that started at `start`. */
  lemma {:induction false} DotRun(t: string, m: Machine, start: nat) returns (n: Machine)
    requires Reading(t, m) && m.nodes[m.top].kind == KInteger && At(t, m.ptr) == '.' && start <= m.ptr
    requires AllDigits(t, start, m.ptr) && m.nodes[m.top].number == Integer(Decimal(t, start, m.ptr))
    requires m.numDigits == m.ptr - start
    requires !m.numberFlags.e && !m.numberFlags.eGotSign && !m.numberFlags.eNegative && m.numE == 0
    requires m.numFraction == 0
    ensures match Fraction(t, start, m.ptr)
            case None => Run(t, m).Reject?
            case Some((v, k)) => match Exponent(t, v, k)
              case None => Run(t, m).Reject?
              case Some((e, j)) => Completes(t, m, n, Negated(m.numberFlags.negative, e), j)
  {
    hide ValidNodes, Chain, Run, SeekStep, StringStep, PlusFraction, TimesPow10, Exponent, Completes;
    RunStep(t, m);
    n := m;
    if m.numDigits > 0 {
      var whole := Decimal(t, start, m.ptr) as real;
      var m1 := SetTop(m, KDouble, Double(whole)).(numDigits := 0, ptr := m.ptr + 1);
      assert Step(t, m) == Next(m1);
      SetTopOnlyNumber(m, KDouble, Double(whole));
      var m2 := FractionDigits(t, m1, m1.ptr);
      if m2.numDigits == 0 {
        RunStep(t, m2);
      } else {
        n := ExponentRun(t, m2, Double(PlusFraction(whole, m2.numFraction, m2.numDigits)));
        assert OnlyNumber(m, m2);
        var r := Fraction(t, start, m.ptr);
        var x := Exponent(t, r.value.0, r.value.1);
        if x.Some? {
          CompletesFrom(t, m, m2, n, Negated(m.numberFlags.negative, x.value.0), x.value.1);
        }
      }
    }
  }

  // ----- values -----

  /** `b` keeps the nodes of `a`, except that the node at `top` gained children and name bytes. */
  ghost predicate Extends(a: seq<Node>, b: seq<Node>, top: int, children: nat, names: nat) {
    && |a| <= |b|
    && (forall i :: 0 <= i < |a| && i != top ==> b[i] == a[i])
    && (0 <= top < |a| ==> b[top] == a[top].(length := a[top].length + children, nameBytes := a[top].nameBytes + names))
  }

  lemma {:induction false} ExtendsTransitive(a: seq<Node>, b: seq<Node>, c: seq<Node>, top: int, x: nat, y: nat,
                                             n: nat, k: nat)
    requires Extends(a, b, top, x, n) && Extends(b, c, top, y, k)
    ensures Extends(a, c, top, x + y, n + k)
  {
  }

  /** The machine is about to read a value, with no comma or colon missing. */
  ghost predicate Seeking(t: string, m: Machine) {
    && Valid(t, m) && m.flags == SEEK_VALUE
    && !IsWhitespace(At(t, m.ptr))
    && (At(t, m.ptr) == ']' ==> m.top < 0 || m.nodes[m.top].kind != KArray)
  }

  /** `n` is where the first pass stands after counting `v` from the state `m`. */
  ghost predicate Counted(t: string, m: Machine, n: Machine, v: Value, j: nat)
    requires Valid(t, m)
  {
    && Valid(t, n) && n.first && Run(t, m) == Run(t, n)
    && n.ptr == j && n.flags == AfterFlags(m) && n.top == (if m.top < 0 then |m.nodes| else m.top)
    && Extends(m.nodes, n.nodes, m.top, 1, 0)
    && |n.nodes| == |m.nodes| + Size(v) && Sized(n.nodes, |m.nodes|, m.top, v)
  }

  /** Would one more child be too many for the container of `m`? */
  predicate Full(m: Machine)
    requires -1 <= m.top < |m.nodes|
  {
    m.top >= 0 && m.nodes[m.top].length + 1 > UINT_LIMIT
  }

  /** Finishing the complete value at the top of `n`, whose node was made from the state `m`. */
  lemma {:induction false} FinishRun(t: string, m: Machine, n: Machine, v: Value, j: nat) returns (r: Machine)
    requires Seeking(t, m) && m.first && j <= |t|
    requires Linked(n) && n.first && n.top == |m.nodes| && n.flags == OUTSIDE
    requires Extends(m.nodes, n.nodes, -1, 0, 0)
    requires |n.nodes| == |m.nodes| + Size(v) && Sized(n.nodes, |m.nodes|, m.top, v)
    requires n.nodes[n.top].parent < n.top
    requires var o := Finish(n, j); (o.Next? ==> Valid(t, o.m)) && Run(t, m) == Continue(t, o)
    ensures if Full(m) then Run(t, m).Reject? else Counted(t, m, r, v, j)
  {
    hide ValidNodes, Chain, Run;
    r := n;
    assert n.nodes[n.top] == CountedNode(v, m.top);
    var o := Finish(n, j);
    if o.Next? {
      r := o.m;
      SizedFrame(n.nodes, r.nodes, |m.nodes|, m.top, v);
    }
  }

  /** A node made for a value, with the rest of the arena as it was. */
  lemma {:induction false} NewNodeRun(m: Machine, kind: Kind) returns (n: Machine)
    requires Linked(m) && m.first && kind != KDouble && (m.top >= 0 ==> IsContainer(m.nodes[m.top].kind))
    ensures NewValue(m, kind) == Some(n) && Linked(n)
    ensures n == m.(nodes := m.nodes + [NewNode(kind, m.top)], links := n.links, root := 0, top := |m.nodes|,
                    alloc := |m.nodes|)
  {
    hide ValidNodes, Chain;
    NewValueGood(m, kind);
    n := NewValue(m, kind).value;
  }

  lemma {:induction false} WordRun(t: string, m: Machine) returns (r: Machine)
    requires Seeking(t, m) && m.first && (At(t, m.ptr) == 't' || At(t, m.ptr) == 'f' || At(t, m.ptr) == 'n')
    ensures match ValueAt(t, m.ptr)
            case None => Run(t, m).Reject?
            case Some((v, j)) => if Full(m) then Run(t, m).Reject? else Counted(t, m, r, v, j)
  {
    hide ValidNodes, Chain, Run, Step, ValueAt, Finish;
    RunStep(t, m);
    WordStep(t, m);
    r := m;
    var value := ValueAt(t, m.ptr);
    if value.Some? {
      var (v, j) := value.value;
      var n := NewNodeRun(m.(flags := OUTSIDE), KindOf(v));
      if v == Boolean(true) {
        UpdateKeepsNodes(n.nodes, n.top, n.nodes[n.top].(truth := true));
        n := n.(nodes := n.nodes[n.top := n.nodes[n.top].(truth := true)]);
      }
      r := FinishRun(t, m, n, v, j);
    }
  }

  lemma {:induction false} StringValueRun(t: string, m: Machine) returns (r: Machine)
    requires Seeking(t, m) && m.first && At(t, m.ptr) == '"'
    ensures match ValueAt(t, m.ptr)
            case None => Run(t, m).Reject?
            case Some((v, j)) => if Full(m) then Run(t, m).Reject? else Counted(t, m, r, v, j)
  {
    hide ValidNodes, Chain, Run, NumberStep, Finish, StringBody;
    RunStep(t, m);
    r := m;
    var n := NewNodeRun(m.(flags := OUTSIDE), KString);
    var n1 := n.(flags := OUTSIDE.(inString := true), stringLength := 0, ptr := m.ptr + 1);
    assert Step(t, m) == Next(n1);
    StringRun(t, n1);
    if QuotedString(t, m.ptr + 1).Some? {
      var (s, j) := QuotedString(t, m.ptr + 1).value;
      var n2 := n1.(ptr := j - 1, stringLength := |s|);
      RunStep(t, n2);
      UpdateKeepsNodes(n2.nodes, n2.top, n2.nodes[n2.top].(length := |s|));
      var n3 := n2.(flags := OUTSIDE, nodes := n2.nodes[n2.top := n2.nodes[n2.top].(length := |s|)]);
      assert Step(t, n2) == Finish(n3, j);
      r := FinishRun(t, m, n3, String(s), j);
    }
  }

  lemma {:induction false} NumberValueRun(t: string, m: Machine) returns (r: Machine)
    requires Seeking(t, m) && m.first && (IsDigit(At(t, m.ptr)) || At(t, m.ptr) == '-')
    ensures match ValueAt(t, m.ptr)
            case None => Run(t, m).Reject?
            case Some((v, j)) => if Full(m) then Run(t, m).Reject? else Counted(t, m, r, v, j)
  {
    hide ValidNodes, Chain, Run, NumberStep, StringStep, Finish, NumberToken;
    RunStep(t, m);
    r := m;
    var n := NewNodeRun(m.(flags := OUTSIDE), KInteger);
    var b := At(t, m.ptr);
    var n1 := n.(numberFlags := NO_NUMBER.(negative := b == '-'), numDigits := 0, numFraction := 0, numE := 0,
                 ptr := if b == '-' then m.ptr + 1 else m.ptr);
    assert Step(t, m) == Next(n1);
    var n2 := NumberRun(t, n1, m.ptr);
    if NumberToken(t, m.ptr).Some? {
      var (v, j) := NumberToken(t, m.ptr).value;
      r := FinishRun(t, m, n2, Numeric(v), j);
    }
  }

  /** Any value. */
  lemma {:induction false} ValueRun(t: string, m: Machine) returns (r: Machine)
    requires Seeking(t, m) && m.first
    ensures match ValueAt(t, m.ptr)
            case None => Run(t, m).Reject?
            case Some((v, j)) => if Full(m) then Run(t, m).Reject? else Counted(t, m, r, v, j)
    decreases |t| - m.ptr, 1
  {
    hide Valid, Run;
    var b := At(t, m.ptr);
    r := m;
    if b == '{' {
      r := ObjectRun(t, m);
    } else if b == '[' {
      r := ArrayRun(t, m);
    } else if b == '"' {
      r := StringValueRun(t, m);
    } else if b == 't' || b == 'f' || b == 'n' {
      r := WordRun(t, m);
    } else if IsDigit(b) || b == '-' {
      r := NumberValueRun(t, m);
    } else {
      NoValueRun(t, m);
    }
  }

  /** A character no value starts with. */
  lemma {:induction false} NoValueRun(t: string, m: Machine)
    requires Seeking(t, m) && ValueAt(t, m.ptr).None?
    requires !IsDigit(At(t, m.ptr)) && At(t, m.ptr) !in "{[\"tfn-"
    ensures Run(t, m).Reject?
  {
    hide ValidNodes, Chain, Run, NumberStep, StringStep;
    RunStep(t, m);
  }

  lemma {:induction false} ArrayRun(t: string, m: Machine) returns (r: Machine)
    requires Seeking(t, m) && m.first && At(t, m.ptr) == '['
    ensures match ValueAt(t, m.ptr)
            case None => Run(t, m).Reject?
            case Some((v, j)) => if Full(m) then Run(t, m).Reject? else Counted(t, m, r, v, j)
    decreases |t| - m.ptr, 0
  {
    hide ValidNodes, Chain, Run, Step, NewValue;
    RunStep(t, m);
    r := m;
    var n := NewNodeRun(m.(flags := OUTSIDE), KArray);
    OpenStep(t, m, n);
    var n1 := n.(flags := SEEK_VALUE, ptr := m.ptr + 1);
    var n2 := ItemsRun(t, n1);
    var items := ItemsAt(t, m.ptr + 1);
    if items.Some? && ItemCount(items.value.0) <= UINT_LIMIT {
      r := CloseArrayRun(t, m, n1, n2, items.value.0, items.value.1);
    }
  }

  /** The closing bracket. */
  lemma {:induction false} CloseArrayRun(t: string, m: Machine, n1: Machine, n2: Machine, items: Items, j: nat)
    returns (r: Machine)
    requires Seeking(t, m) && m.first && Valid(t, n1) && n1.top == |m.nodes|
    requires n1.nodes == m.nodes + [NewNode(KArray, m.top)]
    requires ItemsCounted(t, n1, n2, items, j) && 0 < j <= |t| && t[j - 1] == ']' && Run(t, m) == Run(t, n1)
    ensures if Full(m) then Run(t, m).Reject? else Counted(t, m, r, Array(items), j)
  {
    hide ValidNodes, Chain, Run, Step, Finish;
    RunStep(t, n2);
    CloseStep(t, n2);
    var n3 := n2.(flags := OUTSIDE);
    r := FinishRun(t, m, n3, Array(items), j);
  }

  /** `n` is where the first pass stands, at the closing bracket, after the items of an array. */
  ghost predicate ItemsCounted(t: string, m: Machine, n: Machine, items: Items, j: nat)
    requires Valid(t, m)
  {
    && Valid(t, n) && n.first && Run(t, m) == Run(t, n)
    && n.ptr == j - 1 && n.top == m.top && (n.flags == SEEK_VALUE || n.flags == SEEK_VALUE.(needComma := true))
    && Extends(m.nodes, n.nodes, m.top, ItemCount(items), 0)
    && |n.nodes| == |m.nodes| + ItemsSize(items) && SizedItems(n.nodes, |m.nodes|, m.top, items)
  }

  lemma {:induction false} ItemsRun(t: string, m: Machine) returns (n: Machine)
    requires Valid(t, m) && m.first && m.flags == SEEK_VALUE && m.top >= 0 && m.nodes[m.top].kind == KArray
    requires m.nodes[m.top].length <= UINT_LIMIT
    ensures ItemsOutcome(t, m, n, ItemsAt(t, m.ptr))
    decreases |t| - m.ptr, 2
  {
    hide ValidNodes, Chain, Run;
    SkipRun(t, m);
    var m1 := m.(ptr := SkipWhitespace(t, m.ptr));
    n := m1;
    if At(t, m1.ptr) != ']' {
      var m2 := ValueRun(t, m1);
      var value := ValueAt(t, m1.ptr);
      if value.Some? && !Full(m1) {
        n := NextItemRun(t, m1, m2, value.value.0);
      }
    }
  }

  /** A rejection, or the items and the state at their closing bracket. */
  ghost predicate ItemsOutcome(t: string, m: Machine, n: Machine, r: Option<(Items, nat)>)
    requires Valid(t, m) && m.top >= 0
  {
    match r
    case None => Run(t, m).Reject?
    case Some((items, j)) =>
      if m.nodes[m.top].length + ItemCount(items) > UINT_LIMIT then Run(t, m).Reject?
      else ItemsCounted(t, m, n, items, j)
  }

  lemma {:induction false} ItemsAppend(a: seq<Node>, b: seq<Node>, c: seq<Node>, top: nat, v: Value, rest: Items)
    requires top < |a| && Extends(a, b, top, 1, 0) && |b| == |a| + Size(v) && Sized(b, |a|, top, v)
    requires Extends(b, c, top, ItemCount(rest), 0) && |c| == |b| + ItemsSize(rest) && SizedItems(c, |b|, top, rest)
    ensures Extends(a, c, top, ItemCount(Item(v, rest)), 0) && |c| == |a| + ItemsSize(Item(v, rest))
    ensures SizedItems(c, |a|, top, Item(v, rest))
  {
    hide Sized, SizedItems, Size, ItemsSize, ItemCount;
    SizedItemsCons(c, |a|, top, v, rest);
    ExtendsTransitive(a, b, c, top, 1, ItemCount(rest), 0, 0);
    SizedFrame(b, c, |a|, top, v);
  }

  /** After the item `v`, which took the machine from `m` to `m2`. */
  lemma {:induction false} NextItemRun(t: string, m: Machine, m2: Machine, v: Value) returns (n: Machine)
    requires Valid(t, m) && m.first && m.flags == SEEK_VALUE && m.top >= 0 && m.nodes[m.top].kind == KArray && !Full(m)
    requires m.ptr < m2.ptr && Counted(t, m, m2, v, m2.ptr)
    ensures ItemsOutcome(t, m, n, MoreItems(t, m2.ptr, v))
    decreases |t| - m.ptr, 0
  {
    hide ValidNodes, Chain, Run, Sized, ItemsAt;
    SkipRun(t, m2);
    var m3 := m2.(ptr := SkipWhitespace(t, m2.ptr));
    n := m3;
    if At(t, m3.ptr) == ',' {
      CommaRun(t, m3);
      var m4 := m3.(flags := SEEK_VALUE, ptr := m3.ptr + 1);
      n := ItemsRun(t, m4);
      var rest := ItemsAt(t, m4.ptr);
      if rest.Some? && m4.nodes[m4.top].length + ItemCount(rest.value.0) <= UINT_LIMIT {
        ItemsAppend(m.nodes, m2.nodes, n.nodes, m.top, v, rest.value.0);
      }
    } else if At(t, m3.ptr) != ']' {
      RejectItem(t, m3);
    } else {
      ItemsAppend(m.nodes, m2.nodes, m2.nodes, m.top, v, NoItems);
    }
  }

  lemma {:induction false} RejectItem(t: string, m: Machine)
    requires Valid(t, m) && m.flags == SEEK_VALUE.(needComma := true)
    requires !IsWhitespace(At(t, m.ptr)) && At(t, m.ptr) != ',' && At(t, m.ptr) != ']'
    ensures Run(t, m).Reject?
  {
    hide ValidNodes, Chain, Run, NumberStep, StringStep, StartValue;
    RunStep(t, m);
  }

  lemma {:induction false} ObjectRun(t: string, m: Machine) returns (r: Machine)
    requires Seeking(t, m) && m.first && At(t, m.ptr) == '{'
    ensures match ValueAt(t, m.ptr)
            case None => Run(t, m).Reject?
            case Some((v, j)) => if Full(m) then Run(t, m).Reject? else Counted(t, m, r, v, j)
    decreases |t| - m.ptr, 0
  {
    hide ValidNodes, Chain, Run, Step, NewValue;
    RunStep(t, m);
    r := m;
    var n := NewNodeRun(m.(flags := OUTSIDE), KObject);
    OpenStep(t, m, n);
    var n1 := n.(ptr := m.ptr + 1);
    var n2 := MembersRun(t, n1);
    var ms := MembersAt(t, m.ptr + 1);
    if ms.Some? && MemberCount(ms.value.0) <= UINT_LIMIT {
      r := CloseObjectRun(t, m, n1, n2, ms.value.0, ms.value.1);
    }
  }

  /** The closing brace. */
  lemma {:induction false} CloseObjectRun(t: string, m: Machine, n1: Machine, n2: Machine, ms: Members, j: nat)
    returns (r: Machine)
    requires Seeking(t, m) && m.first && Valid(t, n1) && n1.top == |m.nodes|
    requires n1.nodes == m.nodes + [NewNode(KObject, m.top)]
    requires MembersCounted(t, n1, n2, ms, j) && 0 < j <= |t| && t[j - 1] == '}' && Run(t, m) == Run(t, n1)
    ensures if Full(m) then Run(t, m).Reject? else Counted(t, m, r, Object(ms), j)
  {
    hide ValidNodes, Chain, Run, Step, Finish;
    RunStep(t, n2);
    CloseStep(t, n2);
    var n3 := n2.(flags := OUTSIDE);
    r := FinishRun(t, m, n3, Object(ms), j);
  }

  /** `n` is where the first pass stands, at the closing brace, after the members of an object. */
  ghost predicate MembersCounted(t: string, m: Machine, n: Machine, ms: Members, j: nat)
    requires Valid(t, m)
  {
    && Valid(t, n) && n.first && Run(t, m) == Run(t, n)
    && n.ptr == j - 1 && n.top == m.top && (n.flags == OUTSIDE || n.flags == OUTSIDE.(needComma := true))
    && Extends(m.nodes, n.nodes, m.top, MemberCount(ms), NameBytes(ms))
    && |n.nodes| == |m.nodes| + MembersSize(ms) && SizedMembers(n.nodes, |m.nodes|, m.top, ms)
  }

  /** A member name and its colon, up to the start of the member's value. */
  lemma {:induction false} NameRun(t: string, m: Machine) returns (n: Machine)
    requires Valid(t, m) && m.first && m.flags == OUTSIDE && m.top >= 0 && m.nodes[m.top].kind == KObject
    requires At(t, m.ptr) == '"'
    ensures match NameAt(t, m.ptr)
            case None => Run(t, m).Reject?
            case Some((name, s)) =>
              && Valid(t, n) && n.first && Run(t, m) == Run(t, n)
              && n.ptr == s && n.flags == SEEK_VALUE && n.top == m.top
              && |n.nodes| == |m.nodes| && Extends(m.nodes, n.nodes, m.top, 0, |name| + 1)
  {
    hide ValidNodes, Chain, Run, NumberStep, StartValue, StringBody;
    OpenNameRun(t, m);
    var m1 := m.(flags := OUTSIDE.(inString := true), stringLength := 0, ptr := m.ptr + 1);
    StringRun(t, m1);
    n := m1;
    if QuotedString(t, m.ptr + 1).Some? {
      var (name, j) := QuotedString(t, m.ptr + 1).value;
      var m2 := m1.(ptr := j - 1, stringLength := |name|);
      var node := m.nodes[m.top].(nameBytes := m.nodes[m.top].nameBytes + |name| + 1);
      var m3 := m2.(flags := SEEK_VALUE.(needColon := true), nodes := m.nodes[m.top := node], ptr := j);
      RunStep(t, m2);
      assert Step(t, m2) == Next(m3);
      SkipRun(t, m3);
      n := AfterNameRun(t, m3.(ptr := SkipWhitespace(t, j)));
    }
  }

  /** The colon after a name. */
  lemma {:induction false} AfterNameRun(t: string, m: Machine) returns (n: Machine)
    requires Valid(t, m) && m.flags == SEEK_VALUE.(needColon := true) && !IsWhitespace(At(t, m.ptr))
    requires m.top >= 0 && m.nodes[m.top].kind == KObject
    ensures if At(t, m.ptr) != ':' then Run(t, m).Reject?
            else
              && n == m.(flags := SEEK_VALUE, ptr := SkipWhitespace(t, m.ptr + 1))
              && Valid(t, n) && Run(t, m) == Run(t, n)
  {
    hide ValidNodes, Chain, Run, NumberStep, StringStep, StartValue;
    n := m;
    if At(t, m.ptr) == ':' {
      ColonRun(t, m);
      n := m.(flags := SEEK_VALUE, ptr := m.ptr + 1);
      SkipRun(t, n);
      n := n.(ptr := SkipWhitespace(t, n.ptr));
    } else {
      RunStep(t, m);
    }
  }

  /** A rejection, or the members and the state at their closing brace. */
  ghost predicate MembersOutcome(t: string, m: Machine, n: Machine, r: Option<(Members, nat)>)
    requires Valid(t, m) && m.top >= 0
  {
    match r
    case None => Run(t, m).Reject?
    case Some((ms, j)) =>
      if m.nodes[m.top].length + MemberCount(ms) > UINT_LIMIT then Run(t, m).Reject?
      else MembersCounted(t, m, n, ms, j)
  }

  lemma {:induction false} MembersRun(t: string, m: Machine) returns (n: Machine)
    requires Valid(t, m) && m.first && m.flags == OUTSIDE && m.top >= 0 && m.nodes[m.top].kind == KObject
    requires m.nodes[m.top].length <= UINT_LIMIT
    ensures MembersOutcome(t, m, n, MembersAt(t, m.ptr))
    decreases |t| - m.ptr, 2
  {
    hide ValidNodes, Chain, Run, MoreMembers;
    SkipRun(t, m);
    var m1 := m.(ptr := SkipWhitespace(t, m.ptr));
    n := m1;
    if At(t, m1.ptr) == '"' {
      var m2 := NameRun(t, m1);
      var name := NameAt(t, m1.ptr);
      if name.Some? {
        var m3 := ValueRun(t, m2);
        var value := ValueAt(t, m2.ptr);
        if value.Some? && !Full(m2) {
          n := NextMemberRun(t, m1, m2, m3, name.value.0, value.value.0);
        }
      }
    } else if At(t, m1.ptr) != '}' {
      RejectMember(t, m1);
    }
  }

  lemma {:induction false} MembersAppend(a: seq<Node>, b: seq<Node>, c: seq<Node>, top: nat, name: string, v: Value,
                                         rest: Members)
    requires top < |a| && Extends(a, b, top, 1, |name| + 1) && |b| == |a| + Size(v) && Sized(b, |a|, top, v)
    requires Extends(b, c, top, MemberCount(rest), NameBytes(rest)) && |c| == |b| + MembersSize(rest)
    requires SizedMembers(c, |b|, top, rest)
    ensures var ms := Member(name, v, rest);
            Extends(a, c, top, MemberCount(ms), NameBytes(ms)) && |c| == |a| + MembersSize(ms)
            && SizedMembers(c, |a|, top, ms)
  {
    hide Sized, SizedMembers, Size, MembersSize, MemberCount, NameBytes;
    SizedMembersCons(c, |a|, top, name, v, rest);
    ExtendsTransitive(a, b, c, top, 1, MemberCount(rest), |name| + 1, NameBytes(rest));
    SizedFrame(b, c, |a|, top, v);
  }

  /** After a member, whose name took the machine from `m` to `m2` and whose value took it to `m3`. */
  lemma {:induction false} NextMemberRun(t: string, m: Machine, m2: Machine, m3: Machine, name: string, v: Value)
    returns (n: Machine)
    requires Valid(t, m) && m.first && m.top >= 0 && m.nodes[m.top].kind == KObject
    requires m.nodes[m.top].length <= UINT_LIMIT
    requires Valid(t, m2) && m2.top == m.top && Run(t, m) == Run(t, m2) && |m2.nodes| == |m.nodes| && !Full(m2)
    requires Extends(m.nodes, m2.nodes, m.top, 0, |name| + 1)
    requires m.ptr < m3.ptr && Counted(t, m2, m3, v, m3.ptr)
    ensures MembersOutcome(t, m, n, MoreMembers(t, m3.ptr, name, v))
    decreases |t| - m.ptr, 0
  {
    hide ValidNodes, Chain, Run, Sized, MembersAt;
    ExtendsTransitive(m.nodes, m2.nodes, m3.nodes, m.top, 0, 1, |name| + 1, 0);
    SkipRun(t, m3);
    var m4 := m3.(ptr := SkipWhitespace(t, m3.ptr));
    n := m4;
    if At(t, m4.ptr) == ',' {
      CommaRun(t, m4);
      var m5 := m4.(flags := OUTSIDE, ptr := m4.ptr + 1);
      n := MembersRun(t, m5);
      var rest := MembersAt(t, m5.ptr);
      if rest.Some? && m5.nodes[m5.top].length + MemberCount(rest.value.0) <= UINT_LIMIT {
        MembersAppend(m.nodes, m3.nodes, n.nodes, m.top, name, v, rest.value.0);
      }
    } else if At(t, m4.ptr) != '}' {
      RejectMember(t, m4);
    } else {
      MembersAppend(m.nodes, m3.nodes, m3.nodes, m.top, name, v, NoMembers);
    }
  }

  lemma {:induction false} RejectMember(t: string, m: Machine)
    requires Valid(t, m) && m.top >= 0 && m.nodes[m.top].kind == KObject
    requires m.flags == OUTSIDE || m.flags == OUTSIDE.(needComma := true)
    requires !IsWhitespace(At(t, m.ptr)) && At(t, m.ptr) != '}'
    requires At(t, m.ptr) != if m.flags.needComma then ',' else '"'
    ensures Run(t, m).Reject?
  {
    hide ValidNodes, Chain, Run, NumberStep, StringStep, StartValue;
    RunStep(t, m);
  }

  // ----- the whole first pass -----

  /** The first pass accepts exactly the texts of the grammar, and leaves the counts of their value. */
  lemma {:induction false} FirstPass(t: string)
    ensures var m := Start(true, TextStart(t), [], [], -1);
            Valid(t, m) &&
            match Text(t)
            case None => Run(t, m).Reject?
            case Some(v) => Run(t, m).Accept? && (var n := Run(t, m).m;
              |n.nodes| == Size(v) && Sized(n.nodes, 0, -1, v) && Linked(n) && n.root == 0)
  {
    hide Run, ValueAt;
    var m := Start(true, TextStart(t), [], [], -1);
    SkipRun(t, m);
    var m1 := m.(ptr := SkipWhitespace(t, m.ptr));
    var m2 := ValueRun(t, m1);
    if ValueAt(t, m1.ptr).Some? {
      SkipRun(t, m2);
      RunStep(t, m2.(ptr := SkipWhitespace(t, m2.ptr)));
    }
  }

  /** A pass that rejects leaves its nodes chained in allocation order. */
  lemma {:induction false} RejectionKeepsChain(t: string, m: Machine)
    requires Valid(t, m) && Run(t, m).Reject?
    ensures Linked(Run(t, m).m) && Run(t, m).m.first == m.first
    decreases |t| - m.ptr, Phase(m)
  {
    hide Linked, ValidNodes, Step, Phase;
    StepGood(t, m);
    match Step(t, m)
    case Next(n) => RejectionKeepsChain(t, n);
    case _ =>
  }
}
