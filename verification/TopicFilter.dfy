/**
 Topic filters of MQTT subscriptions: the two-cursor matcher, what it accepts character by character
 and level by level, and how that compares with section 4.7.1 of MQTT 3.1.1.
 */
module TopicFilter {
  import opened Wrappers

  const NUL := '\0'

  /** C strings hold no NUL; reading at the end gives one. */
  predicate CString(s: string) {
    NUL !in s
  }

  function At(s: string, i: nat): char {
    if i < |s| then s[i] else NUL
  }

  /** The first '/' at or after `i`, or the end. */
  function SlashAt(s: string, i: nat): (k: nat)
    requires i <= |s|
    ensures i <= k <= |s| && (k < |s| ==> s[k] == '/')
    ensures forall j :: i <= j < k ==> s[j] != '/'
    decreases |s| - i
  {
    if i == |s| || s[i] == '/' then i else SlashAt(s, i + 1)
  }

  // ----- what the matcher accepts, character by character -----

  /**
   The verdict from cursors `i` and `j` on; None is a rejected filter or topic.  The topic running
   out is a match wherever the filter is; after a final '+' the cursor steps past the end.
   */
  function Verdict(f: string, i: nat, v: string, j: nat): Option<bool>
    decreases |v| - j
  {
    if |f| <= i || |v| <= j then Some(j == |v|)
    else if f[i] == '#' || f[i] == '+' then
      if At(f, i + 1) != '/' && At(f, i + 1) != NUL then None
      else if v[j] == '/' then if f[i] == '#' then None else Some(false)
      else if At(f, i + 1) == NUL then Some(f[i] == '#')
      else
        var k := SlashAt(v, j);
        if k < |v| then Verdict(f, i + 2, v, k + 1) else Some(false)
    else if f[i] == v[j] then Verdict(f, i + 1, v, j + 1)
    else Some(false)
  }

  /** The matcher: cursors `fi` and `vi`, both moved once more at the end of each round. */
  method Match(filter: string, value: string) returns (verdict: Option<bool>)
    requires CString(filter) && CString(value)
    ensures verdict == Verdict(filter, 0, value, 0)
  {
    var fi, vi := 0, 0;
    var matched, done := true, false;
    while matched && !done && fi < |filter| && vi < |value|
      invariant matched && !done ==> Verdict(filter, 0, value, 0) == Verdict(filter, fi, value, vi)
      invariant !matched || done ==> Verdict(filter, 0, value, 0) == Some(matched && vi == |value|)
      decreases |value| - vi, matched && !done
    {
      var next, c := At(filter, fi + 1), value[vi];
      ghost var start := vi;
      if filter[fi] == '#' {
        if next != '/' && next != NUL {
          return None;
        }
        fi := fi + 1;
        if c == '/' {
          return None;
        }
        if next == NUL {
          vi, done := |value| - 1, true;
        } else {
          while c != '/' && vi + 1 < |value|
            invariant start <= vi < |value| && c == value[vi]
            invariant SlashAt(value, vi) == SlashAt(value, start)
            decreases |value| - vi
          {
            vi := vi + 1;
            c := value[vi];
          }
          matched := c == '/';
          done := !matched;
        }
      } else if filter[fi] == '+' {
        if next != '/' && next != NUL {
          return None;
        }
        fi := fi + 1;
        if c == '/' {
          matched, done := false, true;
        } else {
          while c != '/' && c != NUL
            invariant start <= vi <= |value| && c == At(value, vi)
            invariant SlashAt(value, vi) == SlashAt(value, start)
            decreases |value| - vi
          {
            vi := vi + 1;
            c := At(value, vi);
          }
          if next == NUL {
            matched, done := c == NUL, true;
          } else {
            matched := c == '/';
            done := !matched;
          }
        }
      } else {
        matched := filter[fi] == c;
        done := !matched;
      }
      fi, vi := fi + 1, vi + 1;
    }
    return Some(matched && vi == |value|);
  }

  // ----- levels -----

  /** The levels of `s` from position `i` on, separated by '/'. */
  function LevelsFrom(s: string, i: nat): (r: seq<string>)
    requires i <= |s|
    ensures r != []
    decreases |s| - i
  {
    var k := SlashAt(s, i);
    if k == |s| then [s[i..]] else [s[i..k]] + LevelsFrom(s, k + 1)
  }

  function Levels(s: string): seq<string> {
    LevelsFrom(s, 0)
  }

  predicate Literal(level: string) {
    '#' !in level && '+' !in level
  }

  /** Section 4.7.1: a wildcard is a whole level, and '#' is the last one. */
  ghost predicate ValidFilter(fs: seq<string>) {
    && (forall i :: 0 <= i < |fs| ==> Literal(fs[i]) || fs[i] == "+" || fs[i] == "#")
    && (forall i :: 0 <= i < |fs| - 1 ==> fs[i] != "#")
  }

  ghost predicate NonEmptyLevels(ts: seq<string>) {
    forall i :: 0 <= i < |ts| ==> ts[i] != ""
  }

  /** Sections 4.7.1.2 and 4.7.1.3: '#' stands for any number of levels, '+' for one. */
  predicate LevelsMatch(fs: seq<string>, ts: seq<string>) {
    if fs == [] then ts == []
    else if fs[0] == "#" then true
    else ts != [] && (fs[0] == "+" || fs[0] == ts[0]) && LevelsMatch(fs[1..], ts[1..])
  }

  /** Section 4.7.2: a filter starting with a wildcard does not match a topic starting with '$'. */
  predicate StandardMatch(filter: string, topic: string) {
    !(At(topic, 0) == '$' && (At(filter, 0) == '#' || At(filter, 0) == '+'))
    && LevelsMatch(Levels(filter), Levels(topic))
  }

  /** What the matcher accepts, level by level. */
  predicate LevelsAccepted(fs: seq<string>, ts: seq<string>)
    requires fs != [] && ts != []
  {
    if fs[0] == "#" then true
    else if fs[0] == "+" then |fs| > 1 && |ts| > 1 && LevelsAccepted(fs[1..], ts[1..])
    else if fs[0] == ts[0] then |ts| == 1 || (|fs| > 1 && LevelsAccepted(fs[1..], ts[1..]))
    else |ts| == 1 && ts[0] <= fs[0]
  }

  /** The same for any topic: an empty level at a '#' is rejected, and an empty last level matches anything. */
  function LevelsVerdict(fs: seq<string>, ts: seq<string>): Option<bool>
    requires fs != [] && ts != []
    decreases |ts|
  {
    if ts == [""] then Some(true)
    else if fs[0] == "#" then if ts[0] == "" then None else Some(true)
    else if fs[0] == "+" then
      if ts[0] != "" && |fs| > 1 && |ts| > 1 then LevelsVerdict(fs[1..], ts[1..]) else Some(false)
    else if fs[0] == ts[0] then
      if |ts| == 1 then Some(true) else if |fs| == 1 then Some(false) else LevelsVerdict(fs[1..], ts[1..])
    else Some(|ts| == 1 && ts[0] <= fs[0])
  }

  /** Inside a literal level the cursors move together up to the first difference. */
  lemma {:induction false} LiteralLevel(f: string, i: nat, v: string, j: nat)
    requires i <= |f| && j <= |v| && Literal(f[i..SlashAt(f, i)])
    ensures var k, l := SlashAt(f, i), SlashAt(v, j);
            Verdict(f, i, v, j) ==
              if f[i..k] != v[j..l] then Some(l == |v| && v[j..l] <= f[i..k])
              else if l == |v| then Some(true)
              else if k == |f| then Some(false)
              else Verdict(f, k + 1, v, l + 1)
    decreases |v| - j
  {
    var k, l := SlashAt(f, i), SlashAt(v, j);
    if i < k && j < l {
      assert f[i] == f[i..k][0] && v[j] == v[j..l][0];
      assert f[i..k] == [f[i]] + f[i + 1..k] && v[j..l] == [v[j]] + v[j + 1..l];
      assert f[i] in f[i..k];
      if f[i] == v[j] {
        assert Literal(f[i + 1..k]) by {
          assert forall c :: c in f[i + 1..k] ==> c in f[i..k];
        }
        LiteralLevel(f, i + 1, v, j + 1);
        if v[j + 1..l] <= f[i + 1..k] {
          assert v[j..l] <= f[i..k];
        }
      }
    } else if i < k {
      assert f[i] == f[i..k][0];
      assert v[j..l] == [];
    } else {
      assert f[i..k] == [];
      assert j < l ==> v[j..l][0] == v[j];
    }
  }

  lemma {:induction false} ValidRest(fs: seq<string>)
    requires ValidFilter(fs) && |fs| > 1
    ensures ValidFilter(fs[1..])
  {
  }

  lemma {:induction false} NonEmptyRest(ts: seq<string>)
    requires NonEmptyLevels(ts) && |ts| > 1
    ensures NonEmptyLevels(ts[1..])
  {
  }

  /** A wildcard level is one character, followed by '/' or the end. */
  lemma {:induction false} WildcardLevel(f: string, i: nat, c: char)
    requires i <= |f| && CString(f) && LevelsFrom(f, i)[0] == [c] && c != '/'
    ensures i < |f| && f[i] == c && SlashAt(f, i) == i + 1
    ensures At(f, i + 1) == (if |LevelsFrom(f, i)| == 1 then NUL else '/')
  {
    var k := SlashAt(f, i);
    assert |f[i..k]| == 1 && f[i..k][0] == f[i];
  }

  lemma {:induction false} LevelsHead(s: string, i: nat)
    requires i <= |s|
    ensures LevelsFrom(s, i)[0] == s[i..SlashAt(s, i)]
    ensures |LevelsFrom(s, i)| == 1 <==> SlashAt(s, i) == |s|
    ensures SlashAt(s, i) < |s| ==> LevelsFrom(s, i)[1..] == LevelsFrom(s, SlashAt(s, i) + 1)
  {
    hide SlashAt;
  }

  lemma {:induction false} FirstNonEmpty(ts: seq<string>)
    requires NonEmptyLevels(ts) && ts != []
    ensures ts[0] != ""
  {
  }

  lemma {:induction false} FirstValid(fs: seq<string>)
    requires ValidFilter(fs) && fs != []
    ensures if Literal(fs[0]) then fs[0] != "+" && fs[0] != "#" else fs[0] == "+" || (fs[0] == "#" && |fs| == 1)
  {
    assert '#' in "#" && '+' in "+";
  }

  /** What a wildcard level does to a non-empty topic level. */
  lemma {:induction false} WildcardStep(f: string, i: nat, v: string, j: nat)
    requires i < |f| && j < |v| && v[j] != '/' && CString(f)
    requires f[i] == '+' || (f[i] == '#' && i + 1 == |f|)
    requires SlashAt(f, i) == i + 1
    ensures Verdict(f, i, v, j) ==
              if i + 1 == |f| then Some(f[i] == '#')
              else if SlashAt(v, j) < |v| then Verdict(f, i + 2, v, SlashAt(v, j) + 1)
              else Some(false)
  {
  }

  /** Over level lists, for valid filters and any topic, the matcher is the recursion with its three verdicts. */
  lemma {:induction false} VerdictOfLevels(f: string, i: nat, v: string, j: nat)
    requires CString(f) && CString(v) && i <= |f| && j <= |v| && ValidFilter(LevelsFrom(f, i))
    ensures Verdict(f, i, v, j) == LevelsVerdict(LevelsFrom(f, i), LevelsFrom(v, j))
    decreases |v| - j
  {
    hide Verdict, SlashAt, LevelsFrom, ValidFilter, Literal;
    var fs, ts := LevelsFrom(f, i), LevelsFrom(v, j);
    var k, l := SlashAt(f, i), SlashAt(v, j);
    LevelsHead(f, i);
    LevelsHead(v, j);
    FirstValid(fs);
    if k < |f| {
      ValidRest(fs);
    }
    if k < |f| && l < |v| {
      VerdictOfLevels(f, k + 1, v, l + 1);
    }
    if Literal(fs[0]) {
      LiteralLevel(f, i, v, j);
    } else {
      WildcardLevel(f, i, if fs[0] == "+" then '+' else '#');
      if ts[0] == "" {
        EmptyStep(f, i, v, j);
      } else {
        WildcardStep(f, i, v, j);
      }
    }
  }

  /** A wildcard level and an empty topic level: the end of the topic, a refusal or a rejection. */
  lemma {:induction false} EmptyStep(f: string, i: nat, v: string, j: nat)
    requires i < |f| && j <= |v| && SlashAt(v, j) == j && CString(f)
    requires f[i] == '+' || (f[i] == '#' && i + 1 == |f|)
    requires SlashAt(f, i) == i + 1
    ensures Verdict(f, i, v, j) == if j == |v| then Some(true) else if f[i] == '#' then None else Some(false)
  {
  }

  lemma {:induction false} VerdictOfNonEmpty(fs: seq<string>, ts: seq<string>)
    requires fs != [] && ts != [] && NonEmptyLevels(ts)
    ensures LevelsVerdict(fs, ts) == Some(LevelsAccepted(fs, ts))
    decreases |ts|
  {
    hide NonEmptyLevels;
    FirstNonEmpty(ts);
    if |ts| > 1 && |fs| > 1 {
      NonEmptyRest(ts);
      VerdictOfNonEmpty(fs[1..], ts[1..]);
    }
  }

  /** On topics without empty levels it is the simple recursion, which rejects nothing. */
  lemma {:induction false} VerdictByLevels(f: string, i: nat, v: string, j: nat)
    requires CString(f) && CString(v) && i <= |f| && j <= |v|
    requires ValidFilter(LevelsFrom(f, i)) && NonEmptyLevels(LevelsFrom(v, j))
    ensures Verdict(f, i, v, j) == Some(LevelsAccepted(LevelsFrom(f, i), LevelsFrom(v, j)))
  {
    VerdictOfLevels(f, i, v, j);
    VerdictOfNonEmpty(LevelsFrom(f, i), LevelsFrom(v, j));
  }

  // ----- against the standard -----

  /**
   The topic is used up inside a literal level: the rest of the level, or anything but a lone '#',
   is left of the filter.
   */
  predicate StopsShort(fs: seq<string>, ts: seq<string>)
    requires fs != [] && ts != []
  {
    if fs[0] == "#" then false
    else if |ts| == 1 then
      fs[0] != "+" && ts[0] <= fs[0] && (ts[0] != fs[0] || (|fs| > 1 && fs[1] != "#"))
    else
      (fs[0] == "+" || fs[0] == ts[0]) && |fs| > 1 && StopsShort(fs[1..], ts[1..])
  }

  /** The last topic level meets a '+' that ends the filter, but for a final '#'. */
  predicate EndsOnPlus(fs: seq<string>, ts: seq<string>)
    requires fs != [] && ts != []
  {
    if |ts| == 1 then fs[0] == "+" && (|fs| == 1 || fs[1] == "#")
    else fs[0] != "#" && (fs[0] == "+" || fs[0] == ts[0]) && |fs| > 1 && EndsOnPlus(fs[1..], ts[1..])
  }

  /** The matcher differs from the standard exactly on topics used up too early or ending on a '+'. */
  lemma {:induction false} AgreesExactly(fs: seq<string>, ts: seq<string>)
    requires fs != [] && ts != [] && ValidFilter(fs)
    ensures LevelsAccepted(fs, ts) == LevelsMatch(fs, ts) <==> !StopsShort(fs, ts) && !EndsOnPlus(fs, ts)
    decreases |ts|
  {
    assert ts[1..] == [] <==> |ts| == 1;
    if |fs| > 1 {
      ValidRest(fs);
      if |ts| > 1 {
        AgreesExactly(fs[1..], ts[1..]);
      } else {
        assert fs[1..][0] == fs[1];
      }
    }
  }

  /** With a final '#', a topic with as many levels as the filter is never used up too early. */
  lemma {:induction false} EnoughLevels(fs: seq<string>, ts: seq<string>)
    requires fs != [] && |fs| <= |ts| && ValidFilter(fs) && fs[|fs| - 1] == "#"
    ensures !StopsShort(fs, ts) && !EndsOnPlus(fs, ts)
    decreases |ts|
  {
    if |fs| > 1 {
      ValidRest(fs);
      EnoughLevels(fs[1..], ts[1..]);
    }
  }

  /**
   For filters that are '#' or end in "/#", and topics with non-empty levels, no leading '$' and at
   least as many levels, the matcher gives the verdict of section 4.7 of MQTT 3.1.1.
   */
  lemma {:induction false} MatchesStandard(filter: string, topic: string)
    requires CString(filter) && CString(topic)
    requires var fs := Levels(filter); ValidFilter(fs) && fs[|fs| - 1] == "#" && |fs| <= |Levels(topic)|
    requires NonEmptyLevels(Levels(topic)) && At(topic, 0) != '$'
    ensures Verdict(filter, 0, topic, 0) == Some(StandardMatch(filter, topic))
  {
    VerdictByLevels(filter, 0, topic, 0);
    EnoughLevels(Levels(filter), Levels(topic));
    AgreesExactly(Levels(filter), Levels(topic));
  }

  /**
   For every valid filter and every topic with non-empty levels and no leading '$', the matcher
   agrees with the standard exactly when the topic neither stops short nor ends on a '+'.
   */
  lemma {:induction false} AgreesWithStandard(filter: string, topic: string)
    requires CString(filter) && CString(topic) && ValidFilter(Levels(filter))
    requires NonEmptyLevels(Levels(topic)) && At(topic, 0) != '$'
    ensures Verdict(filter, 0, topic, 0) == Some(StandardMatch(filter, topic)) <==>
            !StopsShort(Levels(filter), Levels(topic)) && !EndsOnPlus(Levels(filter), Levels(topic))
  {
    VerdictByLevels(filter, 0, topic, 0);
    AgreesExactly(Levels(filter), Levels(topic));
  }

  /**
   An empty topic level meets a wildcard: a '#' rejects the topic, and a '+' refuses it although the
   standard would go on and match.
   */
  predicate MeetsEmpty(fs: seq<string>, ts: seq<string>)
    requires fs != [] && ts != []
  {
    if |ts| == 1 then false
    else if fs[0] == "#" then ts[0] == ""
    else if fs[0] == "+" && ts[0] == "" then LevelsMatch(fs[1..], ts[1..])
    else (fs[0] == "+" || fs[0] == ts[0]) && |fs| > 1 && MeetsEmpty(fs[1..], ts[1..])
  }

  /** An empty last topic level matches any filter; the standard wants an empty level or a wildcard there. */
  predicate EndsEmpty(fs: seq<string>, ts: seq<string>)
    requires fs != [] && ts != []
  {
    if |ts| == 1 then ts[0] == "" && !LevelsMatch(fs, ts)
    else
      && fs[0] != "#" && (if fs[0] == "+" then ts[0] != "" else fs[0] == ts[0])
      && |fs| > 1 && EndsEmpty(fs[1..], ts[1..])
  }

  /** The other differences, on levels that are not empty. */
  predicate EndsEarly(fs: seq<string>, ts: seq<string>)
    requires fs != [] && ts != []
  {
    if |ts| == 1 then ts[0] != "" && (StopsShort(fs, ts) || EndsOnPlus(fs, ts))
    else
      && fs[0] != "#" && (if fs[0] == "+" then ts[0] != "" else fs[0] == ts[0])
      && |fs| > 1 && EndsEarly(fs[1..], ts[1..])
  }

  lemma {:induction false} DiffersExactly(fs: seq<string>, ts: seq<string>)
    requires fs != [] && ts != [] && ValidFilter(fs)
    ensures LevelsVerdict(fs, ts) == Some(LevelsMatch(fs, ts)) <==>
            !MeetsEmpty(fs, ts) && !EndsEmpty(fs, ts) && !EndsEarly(fs, ts)
    decreases |ts|
  {
    hide ValidFilter;
    assert ts[1..] == [] <==> |ts| == 1;
    if |fs| > 1 {
      ValidRest(fs);
      if |ts| > 1 {
        DiffersExactly(fs[1..], ts[1..]);
      } else {
        assert fs[1..][0] == fs[1];
      }
    }
  }

  /**
   For every valid filter and every topic to which the rule for '$' does not apply: the matcher agrees
   with the standard if and only if no empty level meets a wildcard, the topic does not end in an
   empty level that the standard would not match, and is not used up too early or on a '+'.
   */
  lemma {:induction false} AgreesEverywhere(filter: string, topic: string)
    requires CString(filter) && CString(topic) && ValidFilter(Levels(filter))
    requires At(topic, 0) == '$' ==> At(filter, 0) != '#' && At(filter, 0) != '+'
    ensures Verdict(filter, 0, topic, 0) == Some(StandardMatch(filter, topic)) <==>
            var fs, ts := Levels(filter), Levels(topic);
            !MeetsEmpty(fs, ts) && !EndsEmpty(fs, ts) && !EndsEarly(fs, ts)
  {
    VerdictOfLevels(filter, 0, topic, 0);
    DiffersExactly(Levels(filter), Levels(topic));
  }

  /** A topic that is rejected: an empty level, not the last one, meets a '#'. */
  predicate EmptyAtHash(fs: seq<string>, ts: seq<string>)
    requires fs != [] && ts != []
  {
    if |ts| == 1 then false
    else if fs[0] == "#" then ts[0] == ""
    else
      && (if fs[0] == "+" then ts[0] != "" else fs[0] == ts[0])
      && |fs| > 1 && EmptyAtHash(fs[1..], ts[1..])
  }

  predicate Differs(fs: seq<string>, ts: seq<string>)
    requires fs != [] && ts != []
  {
    MeetsEmpty(fs, ts) || EndsEmpty(fs, ts) || EndsEarly(fs, ts)
  }

  lemma {:induction false} RejectsExactly(fs: seq<string>, ts: seq<string>)
    requires fs != [] && ts != [] && ValidFilter(fs)
    ensures LevelsVerdict(fs, ts) == None <==> EmptyAtHash(fs, ts)
    decreases |ts|
  {
    if |fs| > 1 && |ts| > 1 {
      ValidRest(fs);
      RejectsExactly(fs[1..], ts[1..]);
    }
  }

  lemma {:induction false} RefusesExactly(fs: seq<string>, ts: seq<string>)
    requires fs != [] && ts != [] && ValidFilter(fs)
    ensures LevelsVerdict(fs, ts) == Some(false) <==>
            !EmptyAtHash(fs, ts) && (LevelsMatch(fs, ts) <==> Differs(fs, ts))
  {
    DiffersExactly(fs, ts);
    RejectsExactly(fs, ts);
    var verdict := LevelsVerdict(fs, ts);
    var matches := LevelsMatch(fs, ts);
    var differs := Differs(fs, ts);
    assert (verdict == Some(matches)) == !differs;
    assert (verdict == None) == EmptyAtHash(fs, ts);
    if verdict.Some? {
      assert matches ==> (verdict.value == !differs);
      assert !matches ==> (verdict.value == differs);
    }
  }

  /**
   Where the rule for '$' applies, the standard matches nothing.  The matcher has no such rule: it
   agrees if and only if the filter is a lone '+', or starts with one and the rest of it refuses the
   rest of the topic, as the standard without the rule would unless they differ there.
   */
  lemma {:induction false} DollarExactly(filter: string, topic: string)
    requires CString(filter) && CString(topic) && ValidFilter(Levels(filter))
    requires At(topic, 0) == '$' && (At(filter, 0) == '#' || At(filter, 0) == '+')
    ensures Verdict(filter, 0, topic, 0) == Some(StandardMatch(filter, topic)) <==>
            var fs, ts := Levels(filter), Levels(topic);
            && fs[0] == "+"
            && (|fs| == 1 || |ts| == 1 ||
                (var f, t := fs[1..], ts[1..]; !EmptyAtHash(f, t) && (LevelsMatch(f, t) <==> Differs(f, t))))
  {
    hide Differs, EmptyAtHash, LevelsMatch;
    VerdictOfLevels(filter, 0, topic, 0);
    var fs, ts := Levels(filter), Levels(topic);
    LevelsHead(filter, 0);
    LevelsHead(topic, 0);
    assert fs[0] != "" && fs[0][0] == filter[0] && ts[0] != "" && ts[0][0] == '$';
    if |fs| > 1 && |ts| > 1 {
      ValidRest(fs);
      RefusesExactly(fs[1..], ts[1..]);
    }
    FirstValid(fs);
    assert !Literal(fs[0]) by {
      assert filter[0] in fs[0];
    }
  }

  /** The levels of a topic are those of a filter up to its final '+'. */
  ghost predicate MatchesUpToPlus(fs: seq<string>, ts: seq<string>) {
    |fs| == |ts| &&
    forall i :: 0 <= i < |fs| - 1 ==> if fs[i] == "+" then ts[i] != "" else fs[i] == ts[i]
  }

  /** A filter that ends in '+', on a topic with at least as many levels: only an empty last level is accepted. */
  lemma {:induction false} FinalPlusLevels(fs: seq<string>, ts: seq<string>)
    requires fs != [] && |fs| <= |ts| && ValidFilter(fs) && fs[|fs| - 1] == "+"
    ensures LevelsVerdict(fs, ts) == Some(true) <==> MatchesUpToPlus(fs, ts) && ts[|ts| - 1] == ""
    decreases |fs|
  {
    if |fs| > 1 {
      ValidRest(fs);
      var f, t := fs[1..], ts[1..];
      FinalPlusLevels(f, t);
      var first := if fs[0] == "+" then ts[0] != "" else fs[0] == ts[0];
      assert MatchesUpToPlus(fs, ts) <==> first && MatchesUpToPlus(f, t) by {
        assert forall i :: 0 <= i < |f| ==> f[i] == fs[i + 1];
        assert forall i :: 0 <= i < |t| ==> t[i] == ts[i + 1];
        if first && MatchesUpToPlus(f, t) {
          forall i | 0 <= i < |fs| - 1 ensures if fs[i] == "+" then ts[i] != "" else fs[i] == ts[i] {
            if i > 0 {
              assert fs[i] == f[i - 1] && ts[i] == t[i - 1];
            }
          }
        }
      }
    }
  }

  /**
   A valid filter that ends in '+' accepts a topic with at least as many levels if and only if the topic
   has exactly as many, its last level is empty, and the others match.
   */
  lemma {:induction false} FinalPlusExactly(filter: string, topic: string)
    requires CString(filter) && CString(topic) && ValidFilter(Levels(filter))
    requires var fs := Levels(filter); fs[|fs| - 1] == "+" && |fs| <= |Levels(topic)|
    ensures Verdict(filter, 0, topic, 0) == Some(true) <==>
            var fs, ts := Levels(filter), Levels(topic);
            MatchesUpToPlus(fs, ts) && ts[|ts| - 1] == ""
  {
    VerdictOfLevels(filter, 0, topic, 0);
    FinalPlusLevels(Levels(filter), Levels(topic));
  }

  /** So it accepts no topic with enough levels of which none is empty. */
  lemma {:induction false} FinalPlusNeverAccepts(filter: string, topic: string)
    requires CString(filter) && CString(topic) && ValidFilter(Levels(filter)) && NonEmptyLevels(Levels(topic))
    requires var fs := Levels(filter); fs[|fs| - 1] == "+" && |fs| <= |Levels(topic)|
    ensures Verdict(filter, 0, topic, 0) == Some(false)
  {
    FinalPlusExactly(filter, topic);
    VerdictByLevels(filter, 0, topic, 0);
  }

  /** "a/+" does not match "a/b", and "abc" matches "ab"; a '#' inside a filter stands for one level. */
  lemma {:induction false} Examples()
    ensures Verdict("a/+", 0, "a/b", 0) == Some(false) && Verdict("abc", 0, "ab", 0) == Some(true)
    ensures Verdict("#/b", 0, "a/b", 0) == Some(true) && Verdict("#a", 0, "a", 0) == None
    ensures Verdict("a/+", 0, "a/", 0) == Some(true)
  {
    assert SlashAt("a/b", 2) == 3;
    assert SlashAt("a/b", 0) == 1;
  }
}
