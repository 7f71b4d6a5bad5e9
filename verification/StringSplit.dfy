/** Splitting a configuration string at ';' into the strings of a sequence. */
module StringSplit {
  const SEPARATOR := ';'

  /** The position of the first separator, or the length. */
  function FirstSeparator(s: string): (k: nat)
    ensures k <= |s| && (k < |s| ==> s[k] == SEPARATOR) && forall i :: 0 <= i < k ==> s[i] != SEPARATOR
  {
    if s == "" || s[0] == SEPARATOR then 0 else 1 + FirstSeparator(s[1..])
  }

  /** The pieces between separators; a separator at the very end begins no piece. */
  function Pieces(s: string): seq<string>
    decreases |s|
  {
    if s == "" then []
    else
      var k := FirstSeparator(s);
      if k == |s| then [s] else [s[..k]] + Pieces(s[k + 1..])
  }

  /** What becomes of a sequence: the pieces are added, of which an empty string has none. */
  function FromString(contents: seq<string>, s: string): seq<string> {
    contents + Pieces(s)
  }

  /** The return code that means success, and the truth values as the library's Booleans. */
  const RETCODE_OK: int := 0

  function AsNumber(flag: bool): int {
    if flag then 1 else 0
  }

  /** A sequence of strings: its slots, and how many of them are in use. */
  class StringSeq {
    var slots: seq<string>
    var length: nat

    ghost predicate Valid()
      reads this
    {
      length <= |slots|
    }

    ghost function Contents(): seq<string>
      reads this
      requires Valid()
    {
      slots[..length]
    }

    constructor ()
      ensures Valid() && Contents() == []
    {
      slots, length := [], 0;
    }

    /** The slots keep what they hold. */
    method SetLength(n: nat) returns (done: bool)
      modifies this
      ensures slots == old(slots) && done == (n <= |slots|) && length == if done then n else old(length)
    {
      done := n <= |slots|;
      if done {
        length := n;
      }
    }

    /** Makes room for one more and stores it. */
    method Append(s: string)
      requires Valid()
      modifies this
      ensures Valid() && Contents() == old(Contents()) + [s]
    {
      slots := slots[..length] + [s] + if length < |slots| then slots[length + 1..] else [];
      length := length + 1;
    }

    /**
     Consumes one piece and its separator in each round. For an empty string the Boolean that says the
     length was set to 0 is compared with the return code for success, so the call fails, and the
     length is set back.
     */
    method AddFrom(s: string) returns (ok: bool)
      requires Valid()
      modifies this
      ensures Valid() && ok == (s != "") && Contents() == FromString(old(Contents()), s)
    {
      hide Pieces;
      var before := length;
      if |s| == 0 {
        var done := SetLength(0);
        ok := true;
        if AsNumber(done) != RETCODE_OK {
          ok := false;
        }
        if !ok {
          done := SetLength(before);
        }
        NoPieces(Contents());
        return;
      }
      var consumed := 0;
      ghost var rest := s;
      assert s[0..] == s;
      while consumed < |s|
        invariant Valid() && rest == if consumed <= |s| then s[consumed..] else ""
        invariant Contents() + Pieces(rest) == old(Contents()) + Pieces(s)
      {
        var count := PieceLength(s, consumed);
        PiecesStep(rest, count, Contents());
        Append(s[consumed..consumed + count]);
        assert s[consumed..consumed + count] == rest[..count];
        rest := if count < |rest| then rest[count + 1..] else "";
        consumed := consumed + count + 1;
      }
      NoPieces(Contents());
      ok := true;
    }

    /** Counts the characters up to the next separator. */
    method PieceLength(s: string, consumed: nat) returns (count: nat)
      requires consumed < |s|
      ensures var rest := s[consumed..];
              && count <= |rest| && (count < |rest| ==> rest[count] == SEPARATOR)
              && forall i :: 0 <= i < count ==> rest[i] != SEPARATOR
    {
      count := 0;
      while consumed + count < |s| && s[consumed + count] != SEPARATOR
        invariant consumed + count <= |s|
        invariant forall i :: consumed <= i < consumed + count ==> s[i] != SEPARATOR
      {
        count := count + 1;
      }
    }
  }

  lemma {:induction false} NoPieces(before: seq<string>)
    ensures before + Pieces("") == before
  {
  }

  lemma {:induction false} FirstSeparatorIs(s: string, k: nat)
    requires k <= |s| && (k < |s| ==> s[k] == SEPARATOR) && forall i :: 0 <= i < k ==> s[i] != SEPARATOR
    ensures FirstSeparator(s) == k
  {
    hide FirstSeparator;
    var found := FirstSeparator(s);
  }

  lemma {:induction false} FirstPiece(s: string)
    requires s != ""
    ensures var k := FirstSeparator(s); Pieces(s) == [s[..k]] + Pieces(if k < |s| then s[k + 1..] else "")
  {
    hide FirstSeparator;
    var k := FirstSeparator(s);
    if k == |s| {
      assert s[..k] == s;
      assert Pieces("") == [];
      assert [s] + [] == [s];
    }
  }

  /** The first piece and the rest, behind some earlier contents. */
  lemma {:induction false} PiecesStep(s: string, k: nat, before: seq<string>)
    requires s != "" && k <= |s| && (k < |s| ==> s[k] == SEPARATOR) && forall i :: 0 <= i < k ==> s[i] != SEPARATOR
    ensures before + Pieces(s) == before + [s[..k]] + Pieces(if k < |s| then s[k + 1..] else "")
  {
    hide Pieces, FirstSeparator;
    FirstSeparatorIs(s, k);
    FirstPiece(s);
    var rest := Pieces(if k < |s| then s[k + 1..] else "");
    assert before + ([s[..k]] + rest) == before + [s[..k]] + rest;
  }

  function Join(pieces: seq<string>): string {
    if pieces == [] then "" else if |pieces| == 1 then pieces[0] else pieces[0] + ";" + Join(pieces[1..])
  }

  function FinalSeparator(s: string): string {
    if s != "" && s[|s| - 1] == ';' then ";" else ""
  }

  lemma {:induction false} PiecesAreClean(s: string, k: nat)
    requires k < |Pieces(s)|
    ensures ';' !in Pieces(s)[k]
    decreases |s|
  {
    var first := FirstSeparator(s);
    if k > 0 {
      PiecesAreClean(s[first + 1..], k - 1);
    }
  }

  lemma {:induction false} JoinFirst(first: string, rest: seq<string>)
    requires rest != []
    ensures Join([first] + rest) == first + ";" + Join(rest)
  {
    assert ([first] + rest)[1..] == rest;
  }

  lemma {:induction false} JoinRestores(s: string)
    ensures s == Join(Pieces(s)) + FinalSeparator(s)
    ensures Pieces(s) == [] <==> s == ""
    decreases |s|
  {
    hide FirstSeparator, Join;
    var k := FirstSeparator(s);
    if k == |s| {
      JoinOne(s);
    } else {
      var first, rest := s[..k], s[k + 1..];
      assert s == first + ";" + rest;
      JoinRestores(rest);
      if rest == "" {
        JoinOne(first);
        assert [first] + [] == [first];
      } else {
        JoinFirst(first, Pieces(rest));
        assert first + ";" + (Join(Pieces(rest)) + FinalSeparator(rest))
            == (first + ";" + Join(Pieces(rest))) + FinalSeparator(rest);
      }
    }
  }

  lemma {:induction false} JoinOne(s: string)
    ensures Join([s]) == s && Join([]) == ""
  {
  }

  /** Splitting undoes joining, for clean pieces of which the last is not empty. */
  lemma {:induction false} SplitRestores(pieces: seq<string>)
    requires pieces != [] && pieces[|pieces| - 1] != ""
    requires forall k :: 0 <= k < |pieces| ==> ';' !in pieces[k]
    ensures Pieces(Join(pieces)) == pieces
    decreases |pieces|
  {
    var first := pieces[0];
    if |pieces| == 1 {
      FirstSeparatorIs(first, |first|);
    } else {
      var s := first + ";" + Join(pieces[1..]);
      FirstSeparatorIs(s, |first|);
      assert s[..|first|] == first && s[|first| + 1..] == Join(pieces[1..]);
      SplitRestores(pieces[1..]);
    }
  }

  /**
   For every non-empty string: earlier contents are kept, the added pieces are clean, and joining
   them restores the string up to one final separator.
   */
  lemma {:induction false} SplittingIsFaithful(contents: seq<string>, s: string)
    requires s != ""
    ensures var all := FromString(contents, s);
            && |all| > |contents| && all[..|contents|] == contents
            && (forall k :: |contents| <= k < |all| ==> ';' !in all[k])
            && s == Join(all[|contents|..]) + FinalSeparator(s)
  {
    forall k | 0 <= k < |Pieces(s)|
      ensures ';' !in Pieces(s)[k]
    {
      PiecesAreClean(s, k);
    }
    assert FromString(contents, s)[|contents|..] == Pieces(s);
    JoinRestores(s);
  }
}
