/**
 `json_parse_ex` as an object whose fields are the parser's variables.  Each method updates them in
 place and is tied to the machine of `JsonMachine`; `Parse` then has the grammar as its contract.
 */
module JsonParser {
  import opened Wrappers
  import opened JsonText
  import opened JsonGrammar
  import opened JsonMachine
  import opened JsonTransitions
  import opened JsonLayout
  import FirstPass = JsonFirstPass
  import SecondPass = JsonSecondPass

  datatype Status = Going | Accepted | Rejected | Faulted

  class Parser {
    var firstPass: bool
    var ptr: nat
    var flags: Flags
    var numberFlags: NumberFlags
    var nodes: seq<Node>
    var links: seq<int>
    var root: int
    var top: int
    var alloc: int
    var stringLength: nat
    var numDigits: nat
    var numFraction: int
    var numE: int

    constructor ()
      ensures nodes == [] && links == [] && alloc == -1
    {
      firstPass, ptr, flags, numberFlags := true, 0, SEEK_VALUE, NO_NUMBER;
      nodes, links, root, top, alloc := [], [], -1, -1, -1;
      stringLength, numDigits, numFraction, numE := 0, 0, 0, 0;
    }

    ghost function State(): Machine
      reads this
    {
      Machine(firstPass, ptr, flags, numberFlags, nodes, links, root, top, alloc, stringLength, numDigits, numFraction,
              numE)
    }

    /** The fields hold what a step of the machine gives. */
    ghost predicate Shows(status: Status, o: Outcome)
      reads this
    {
      match o
      case Next(m) => status == Going && State() == m
      case Accept(m) => status == Accepted && State() == m
      case Reject(m) => status == Rejected && State() == m
      case Fault => status == Faulted
    }

    /** The block of a node, from its counts, which begin again. */
    method AllocateBlock(counted: Node) returns (node: Node)
      ensures node == Prepared(counted)
    {
      node := counted;
      match node.kind {
        case KArray =>
          if node.length > 0 {
            node := node.(block := Pointers(seq(node.length, _ => -1)));
          }
          node := node.(length := 0);
        case KObject =>
          if node.length > 0 {
            node := node.(block := Entries(seq(node.length, _ => UNSET), seq(node.nameBytes, _ => Raw)));
          }
          node := node.(length := 0);
        case KString =>
          node := node.(block := Chars(seq(node.length + 1, _ => Raw)), length := 0);
        case _ =>
      }
    }

    method NewValue(kind: Kind) returns (ok: bool)
      requires |links| == |nodes| && -1 <= alloc < |nodes|
      modifies this`nodes, this`links, this`root, this`top, this`alloc
      ensures match JsonMachine.NewValue(old(State()), kind)
              case None => !ok
              case Some(m) => ok && State() == m
    {
      hide Suits, Prepared, BlockFits;
      if !firstPass {
        if alloc < 0 || !Suits(kind, nodes[alloc].kind) {
          return false;
        }
        BlockFitsExactly(nodes[alloc]);
        if nodes[alloc].kind == KObject {
          var valuesSize := AsInt(ENTRY_BYTES * nodes[alloc].length);
          if valuesSize != ENTRY_BYTES * nodes[alloc].length {
            return false;
          }
        }
        top := alloc;
        alloc := links[alloc];
        if root < 0 {
          root := top;
        }
        var node := AllocateBlock(nodes[top]);
        nodes := nodes[top := node];
        return true;
      }
      var value := |nodes|;
      nodes := nodes + [NewNode(kind, top)];
      if root < 0 {
        root := value;
      }
      if alloc >= 0 {
        links := links[alloc := value];
      }
      links := links + [-1];
      alloc, top := value, value;
      ok := true;
    }

    /** `string_add`, byte by byte. */
    method AddBytes(bytes: string) returns (ok: bool)
      requires 0 <= top < |nodes|
      modifies this`nodes, this`stringLength
      ensures match JsonMachine.AddBytes(old(State()), bytes)
              case None => !ok
              case Some(m) => ok && State() == m
    {
      assert bytes[0..] == bytes;
      for i := 0 to |bytes|
        invariant 0 <= top < |nodes|
        invariant State() == old(State()).(nodes := nodes, stringLength := stringLength)
        invariant JsonMachine.AddBytes(State(), bytes[i..]) == JsonMachine.AddBytes(old(State()), bytes)
      {
        AddByteFirst(State(), bytes[i..]);
        assert bytes[i..][1..] == bytes[i + 1..];
        if !firstPass {
          var stored := StoreChar(nodes[top], stringLength, bytes[i]);
          if stored.None? {
            return false;
          }
          nodes := nodes[top := stored.value];
        }
        stringLength := stringLength + 1;
      }
      ok := true;
    }

    /** `flag_next`: the value at the top is complete. */
    method Finish(next: nat) returns (status: Status)
      requires 0 <= top < |nodes| && -1 <= nodes[top].parent < top
      modifies this
      ensures Shows(status, JsonMachine.Finish(old(State()), next))
    {
      flags := flags.(needComma := true);
      var parent := nodes[top].parent;
      if parent < 0 {
        flags := flags.(done := true);
        ptr := next;
        return Going;
      }
      if nodes[parent].kind == KArray {
        flags := flags.(seekValue := true);
      }
      var node := nodes[parent];
      if !firstPass {
        var stored := StoreChild(node, top);
        if stored.None? {
          return Faulted;
        }
        node := stored.value;
      }
      nodes := nodes[parent := node.(length := node.length + 1)];
      if nodes[parent].length > UINT_LIMIT {
        return Rejected;
      }
      top := parent;
      ptr := next;
      status := Going;
    }

    /** The closing quote: the NUL, and then the string or the name is complete. */
    method CloseString(ghost t: string) returns (status: Status)
      requires Valid(t, State()) && flags.inString && ptr < |t|
      modifies this
      ensures Shows(status, JsonMachine.CloseString(t, old(State())))
    {
      hide ValidNodes, Chain, JsonMachine.Finish, StoreChar, EndName;
      NodeFacts(nodes, top);
      var node := nodes[top];
      if !firstPass {
        var stored := StoreChar(node, stringLength, '\0');
        if stored.None? {
          return Faulted;
        }
        StoreCharShape(node, stringLength, '\0');
        node := stored.value;
      }
      flags := flags.(inString := false);
      if node.kind == KString {
        nodes := nodes[top := node.(length := stringLength)];
        status := Finish(ptr + 1);
        return;
      }
      if firstPass {
        node := node.(nameBytes := node.nameBytes + stringLength + 1);
      } else {
        var named := EndName(node, stringLength);
        if named.None? {
          return Faulted;
        }
        node := named.value;
      }
      nodes := nodes[top := node];
      flags := flags.(seekValue := true, needColon := true);
      ptr := ptr + 1;
      status := Going;
    }

    method StringStep(t: string) returns (status: Status)
      requires Valid(t, State()) && flags.inString
      modifies this
      ensures Shows(status, JsonMachine.StringStep(t, old(State())))
    {
      var b := At(t, ptr);
      if b == '\0' || stringLength > UINT_LIMIT {
        return Rejected;
      }
      if flags.escaped {
        flags := flags.(escaped := false);
        var escape := ReadEscape(t, ptr);
        if escape.None? {
          return Rejected;
        }
        var ok := AddBytes(escape.value.0);
        if !ok {
          return Faulted;
        }
        ptr := escape.value.1;
        return Going;
      }
      if b == '\\' {
        flags := flags.(escaped := true);
        ptr := ptr + 1;
        return Going;
      }
      if b == '"' {
        status := CloseString(t);
        return;
      }
      var ok := AddBytes([b]);
      if !ok {
        return Faulted;
      }
      ptr := ptr + 1;
      status := Going;
    }

    method NewAndFinish(kind: Kind, truth: bool, next: nat) returns (status: Status)
      requires ValidNodes(nodes) && |links| == |nodes| && -1 <= alloc < |nodes| && -1 <= top < |nodes|
      modifies this
      ensures Shows(status, JsonMachine.NewAndFinish(old(State()), kind, truth, next))
    {
      var ok := NewValue(kind);
      if !ok {
        return Faulted;
      }
      if truth {
        nodes := nodes[top := nodes[top].(truth := true)];
      }
      status := Finish(next);
    }

    /** A bracket, a brace or a quote: a node that is filled later. */
    method OpenValue(t: string, b: char) returns (status: Status)
      requires |links| == |nodes| && -1 <= alloc < |nodes| && -1 <= top < |nodes| && ValidNodes(nodes)
      requires b == '{' || b == '[' || b == '"'
      modifies this
      ensures Shows(status, JsonMachine.StartValue(t, old(State()), b))
    {
      hide ValidNodes, Chain, JsonMachine.Finish, JsonMachine.NewValue, JsonMachine.NewAndFinish, StartNumber, Matches;
      var ok := NewValue(if b == '{' then KObject else if b == '[' then KArray else KString);
      if !ok {
        return Faulted;
      }
      if b == '[' {
        flags := flags.(seekValue := true);
      } else if b == '"' {
        flags := flags.(inString := true);
        stringLength := 0;
      }
      ptr := ptr + 1;
      status := Going;
    }

    /** A digit or a minus: read later in the first pass, skipped in the second. */
    method NumberValue(t: string, b: char) returns (status: Status)
      requires |links| == |nodes| && -1 <= alloc < |nodes| && -1 <= top < |nodes| && ValidNodes(nodes)
      requires IsDigit(b) || b == '-'
      modifies this
      ensures Shows(status, JsonMachine.StartValue(t, old(State()), b))
    {
      hide ValidNodes, Chain, JsonMachine.Finish, JsonMachine.NewValue, JsonMachine.NewAndFinish, Matches;
      if firstPass {
        var _ := NewValue(KInteger);
        numberFlags := NO_NUMBER;
        numDigits, numFraction, numE := 0, 0, 0;
        if b == '-' {
          numberFlags := numberFlags.(negative := true);
          ptr := ptr + 1;
        }
        return Going;
      }
      var next := ptr;
      while next < |t| && IsNumberChar(t[next])
        invariant SkipNumberChars(t, next) == SkipNumberChars(t, ptr)
      {
        next := next + 1;
      }
      status := NewAndFinish(KInteger, false, next);
    }

    /** The first character of a value. */
    method StartValue(t: string, b: char) returns (status: Status)
      requires |links| == |nodes| && -1 <= alloc < |nodes| && -1 <= top < |nodes| && ValidNodes(nodes)
      modifies this
      ensures Shows(status, JsonMachine.StartValue(t, old(State()), b))
    {
      if b == '{' || b == '[' || b == '"' {
        status := OpenValue(t, b);
      } else if IsDigit(b) || b == '-' {
        status := NumberValue(t, b);
      } else {
        status := WordValue(t, b);
      }
    }

    /** A word, or no value at all. */
    method WordValue(t: string, b: char) returns (status: Status)
      requires |links| == |nodes| && -1 <= alloc < |nodes| && -1 <= top < |nodes| && ValidNodes(nodes)
      requires b != '{' && b != '[' && b != '"' && !IsDigit(b) && b != '-'
      modifies this
      ensures Shows(status, JsonMachine.StartValue(t, old(State()), b))
    {
      hide ValidNodes, Chain, JsonMachine.Finish, JsonMachine.NewValue, JsonMachine.NewAndFinish, StartNumber, Matches;
      if b == 't' && Matches(t, ptr + 1, "rue") {
        status := NewAndFinish(KBoolean, true, ptr + 4);
      } else if b == 'f' && Matches(t, ptr + 1, "alse") {
        status := NewAndFinish(KBoolean, false, ptr + 5);
      } else if b == 'n' && Matches(t, ptr + 1, "ull") {
        status := NewAndFinish(KNull, false, ptr + 4);
      } else {
        status := Rejected;
      }
    }

    method SeekStep(t: string) returns (status: Status)
      requires Valid(t, State()) && flags.seekValue && !flags.inString && !flags.done
      modifies this
      ensures Shows(status, JsonMachine.SeekStep(t, old(State())))
    {
      hide ValidNodes, Chain, JsonMachine.Finish, JsonMachine.StartValue;
      var b := At(t, ptr);
      status := Going;
      if IsWhitespace(b) {
        ptr := ptr + 1;
      } else if b == ']' {
        if top >= 0 && nodes[top].kind == KArray {
          NodeFacts(nodes, top);
          flags := flags.(needComma := false, seekValue := false);
          status := Finish(ptr + 1);
        } else {
          status := Rejected;
        }
      } else if flags.needComma {
        if b == ',' {
          flags := flags.(needComma := false);
          ptr := ptr + 1;
        } else {
          status := Rejected;
        }
      } else if flags.needColon {
        if b == ':' {
          flags := flags.(needColon := false);
          ptr := ptr + 1;
        } else {
          status := Rejected;
        }
      } else {
        flags := flags.(seekValue := false);
        status := StartValue(t, b);
      }
    }

    method ObjectStep(t: string) returns (status: Status)
      requires Valid(t, State()) && top >= 0
      modifies this
      ensures Shows(status, JsonMachine.ObjectStep(t, old(State())))
    {
      hide ValidNodes, Chain, JsonMachine.Finish;
      var b := At(t, ptr);
      status := Going;
      if IsWhitespace(b) {
        ptr := ptr + 1;
      } else if b == '"' && !flags.needComma {
        flags := flags.(inString := true);
        stringLength := 0;
        ptr := ptr + 1;
      } else if b == '}' {
        NodeFacts(nodes, top);
        flags := flags.(needComma := false);
        status := Finish(ptr + 1);
      } else if b == ',' && flags.needComma {
        flags := flags.(needComma := false);
        ptr := ptr + 1;
      } else {
        status := Rejected;
      }
    }

    /** A digit inside a number. */
    method DigitStep(b: char) returns (status: Status)
      requires IsDigit(b) && 0 <= top < |nodes| && (nodes[top].kind == KInteger ==> nodes[top].number.Integer?)
      modifies this
      ensures Shows(status, JsonMachine.DigitStep(old(State()), b))
    {
      var d := DigitValue(b);
      if numberFlags.e {
        numberFlags := numberFlags.(eGotSign := true);
        numE := numE * 10 + d;
      } else if nodes[top].kind == KInteger {
        if numberFlags.zero {
          return Rejected;
        }
        if numDigits == 0 && b == '0' {
          numberFlags := numberFlags.(zero := true);
        }
        nodes := nodes[top := nodes[top].(number := Integer(nodes[top].number.n * 10 + d))];
      } else {
        numFraction := numFraction * 10 + d;
      }
      numDigits := numDigits + 1;
      ptr := ptr + 1;
      status := Going;
    }

    method NumberStep(t: string) returns (status: Status)
      requires Valid(t, State()) && top >= 0 && IsNumeric(nodes[top].kind)
      modifies this
      ensures Shows(status, JsonMachine.NumberStep(t, old(State())))
    {
      hide ValidNodes, Chain, JsonMachine.Finish, JsonMachine.DigitStep, TimesPow10, PlusFraction;
      NodeFacts(nodes, top);
      var b := At(t, ptr);
      if IsDigit(b) {
        status := DigitStep(b);
        return;
      }
      if (b == '+' || b == '-') && numberFlags.e && !numberFlags.eGotSign {
        numberFlags := numberFlags.(eGotSign := true, eNegative := numberFlags.eNegative || b == '-');
        ptr := ptr + 1;
        return Going;
      }
      if b == '.' && nodes[top].kind == KInteger {
        if numDigits == 0 {
          return Rejected;
        }
        nodes := nodes[top := nodes[top].(kind := KDouble, number := Double(AsReal(nodes[top].number)))];
        numDigits := 0;
        ptr := ptr + 1;
        return Going;
      }
      var number := nodes[top].number;
      if numberFlags.e {
        if numDigits == 0 {
          return Rejected;
        }
        number := Double(TimesPow10(AsReal(number), if numberFlags.eNegative then -numE else numE));
      } else {
        if nodes[top].kind == KDouble {
          if numDigits == 0 {
            return Rejected;
          }
          number := Double(PlusFraction(AsReal(number), numFraction, numDigits));
        }
        if b == 'e' || b == 'E' {
          numberFlags := numberFlags.(e := true, zero := false);
          nodes := nodes[top := nodes[top].(kind := KDouble, number := Double(AsReal(number)))];
          numDigits := 0;
          ptr := ptr + 1;
          return Going;
        }
      }
      nodes := nodes[top := nodes[top].(number := Negated(numberFlags.negative, number))];
      status := Finish(ptr);
    }

    /** One iteration of the character loop. */
    method Step(t: string) returns (status: Status)
      requires Valid(t, State())
      modifies this
      ensures Shows(status, JsonMachine.Step(t, old(State())))
    {
      if flags.inString {
        status := StringStep(t);
      } else if flags.done {
        if At(t, ptr) == '\0' {
          status := Accepted;
        } else if IsWhitespace(At(t, ptr)) {
          ptr := ptr + 1;
          status := Going;
        } else {
          status := Rejected;
        }
      } else if flags.seekValue {
        status := SeekStep(t);
      } else if nodes[top].kind == KObject {
        status := ObjectStep(t);
      } else {
        status := NumberStep(t);
      }
    }

    /** One pass over the text. */
    method RunPass(t: string) returns (status: Status)
      requires Valid(t, State())
      modifies this
      ensures Shows(status, Run(t, old(State())))
    {
      status := Going;
      while status == Going
        invariant status == Going ==> Valid(t, State()) && Run(t, State()) == Run(t, old(State()))
        invariant status != Going ==> Shows(status, Run(t, old(State())))
        decreases status == Going, |t| - ptr, Phase(State())
      {
        RunStep(t, State());
        status := Step(t);
      }
    }

    method ResetCounters()
      modifies this`stringLength, this`numDigits, this`numFraction, this`numE
      ensures stringLength == numDigits == 0 && numFraction == numE == 0
    {
      stringLength, numDigits, numFraction, numE := 0, 0, 0, 0;
    }

    /** The variables at the start of the first pass. */
    method StartFirst(t: string)
      modifies this
      ensures State() == Start(true, TextStart(t), [], [], -1)
    {
      hide TextStart;
      firstPass, ptr, flags, numberFlags := true, TextStart(t), SEEK_VALUE, NO_NUMBER;
      nodes, links, root, top, alloc := [], [], -1, -1, -1;
      ResetCounters();
    }

    /** The variables at the start of the second pass; the nodes stay, and so do the number counters. */
    method StartSecond(t: string)
      modifies this
      ensures State() == Start(false, TextStart(t), old(nodes), old(links), old(root))
                         .(numDigits := old(numDigits), numFraction := old(numFraction), numE := old(numE))
    {
      alloc := root;
      firstPass, ptr, flags, numberFlags := false, TextStart(t), SEEK_VALUE, NO_NUMBER;
      root, top, stringLength := -1, -1, 0;
    }

    /** The first pass, with the nodes sized and chained for the value, or released. */
    method SizeNodes(t: string) returns (accepted: bool, freed: seq<int>)
      modifies this
      ensures accepted <==> Text(t).Some?
      ensures accepted ==>
                && |nodes| == Size(Text(t).value) && Sized(nodes, 0, -1, Text(t).value) && root == 0
                && ValidNodes(nodes) && links == Chain(|nodes|) && freed == []
      ensures !accepted ==> freed == seq(|nodes|, i => i)
    {
      hide ValidNodes, Run, Sized, Text, Chain;
      StartFirst(t);
      FirstPass.FirstPass(t);
      ghost var start := State();
      var status := RunPass(t);
      accepted, freed := status == Accepted, [];
      if !accepted {
        FirstPass.RejectionKeepsChain(t, start);
        freed := FreeChain();
      }
    }

    /**
     Both passes.  The text is accepted exactly when it is in the grammar and the entries of every
     object fit an int; then the arena holds its value with every block filled.  On a rejection the
     nodes made so far are released by following `next_alloc` from the root; `freed` lists them.  A
     text of the grammar with an object that does not fit ends in a block of a wrong size.
     */
    method Parse(t: string) returns (status: Status, freed: seq<int>)
      modifies this
      ensures status == Accepted <==> Text(t).Some? && Fits(Text(t).value)
      ensures status == Rejected <==> Text(t).None?
      ensures status != Going
      ensures status == Accepted ==>
                && root == 0 && freed == [] && |nodes| == Size(Text(t).value)
                && Built(nodes, 0, -1, Text(t).value)
      ensures status == Rejected ==> freed == seq(|nodes|, i => i)
    {
      hide Valid, ValidNodes, Run, Sized, Built, Text, Fits, Chain, Size;
      var sized;
      sized, freed := SizeNodes(t);
      if !sized {
        return Rejected, freed;
      }
      StartSecond(t);
      SecondPass.SecondPass(t, Text(t).value, State());
      status := RunPass(t);
    }

    /** Releases every node made so far: from the root along `next_alloc`. */
    method FreeChain() returns (freed: seq<int>)
      requires Linked(State()) && firstPass
      ensures freed == seq(|nodes|, i => i)
    {
      freed := [];
      var next := root;
      while next >= 0
        invariant freed == seq(|freed|, i => i) && |freed| <= |nodes|
        invariant next == if |freed| < |nodes| then |freed| else -1
        decreases |nodes| - |freed|
      {
        freed := freed + [next];
        next := links[next];
      }
    }
  }

  lemma {:induction false} StoreCharShape(node: Node, offset: nat, b: char)
    requires StoreChar(node, offset, b).Some?
    ensures SameShape(node, StoreChar(node, offset, b).value)
  {
  }

  lemma {:induction false} AddByteFirst(m: Machine, bytes: string)
    requires 0 <= m.top < |m.nodes| && |bytes| > 0
    ensures if m.first then JsonMachine.AddBytes(m, bytes)
            == JsonMachine.AddBytes(m.(stringLength := m.stringLength + 1), bytes[1..])
            else match StoreChar(m.nodes[m.top], m.stringLength, bytes[0])
              case None => JsonMachine.AddBytes(m, bytes).None?
              case Some(node) =>
                JsonMachine.AddBytes(m, bytes)
                == JsonMachine.AddBytes(m.(nodes := m.nodes[m.top := node], stringLength := m.stringLength + 1),
                                        bytes[1..])
  {
    if !m.first {
      var stored := StoreChar(m.nodes[m.top], m.stringLength, bytes[0]);
      if stored.Some? {
        var rest := StoreChars(stored.value, m.stringLength + 1, bytes[1..]);
        if rest.Some? {
          assert m.nodes[m.top := stored.value][m.top := rest.value] == m.nodes[m.top := rest.value];
        }
      }
    }
  }
}
