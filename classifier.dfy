/**
 * The operation classifier of the report generator: turns a free-text
 * benchmark name into a canonical operation name by testing an ordered list
 * of patterns against the lower-cased name, with a textual fallback when no
 * pattern matches.
 */
module Classifier {
  import opened Wrappers
  import opened Text

  /** One entry of the pattern table: the regular expression
      `parts[0].*parts[1]` (or `parts[0].*parts[1].*parts[2]`), given by its
      literal parts, and the canonical name it stands for. */
  datatype Rule = Rule(parts: seq<string>, name: string)

  /** The pattern table, in the order in which it is searched. */
  const Rules: seq<Rule> := [
    Rule(["insert", "row"], "Insert row"),
    Rule(["undo", "insert", "row"], "Undo insert row"),
    Rule(["redo", "insert", "row"], "Redo insert row"),
    Rule(["remove", "row"], "Remove row"),
    Rule(["undo", "remove", "row"], "Undo remove row"),
    Rule(["redo", "remove", "row"], "Redo remove row"),
    Rule(["insert", "column"], "Insert column"),
    Rule(["undo", "insert", "column"], "Undo insert column"),
    Rule(["redo", "insert", "column"], "Redo insert column"),
    Rule(["remove", "column"], "Remove column"),
    Rule(["undo", "remove", "column"], "Undo remove column"),
    Rule(["redo", "remove", "column"], "Redo remove column"),
    Rule(["set", "cell"], "Set cell value"),
    Rule(["undo", "set", "cell"], "Undo set cell value"),
    Rule(["redo", "set", "cell"], "Redo set cell value")
  ]

  /** The canonical names of the Undo and Redo entries of the table. */
  const UndoRedoNames: set<string> := {
    "Undo insert row", "Redo insert row", "Undo remove row", "Redo remove row",
    "Undo insert column", "Redo insert column", "Undo remove column", "Redo remove column",
    "Undo set cell value", "Redo set cell value"
  }

  /** The rest of the pattern, `.*parts[0].*parts[1]...`, matches `s` from
      index `k` on: each literal part occurs later on the same line, since
      `.` does not match a line feed. */
  predicate FollowedBy(parts: seq<string>, s: string, k: int)
    decreases |parts|
  {
    parts == [] ||
    (0 <= k <= |s| &&
     exists j {:trigger OccursAt(parts[0], s, j)} :: k <= j <= |s| && NoNewline(s, k, j) && OccursAt(parts[0], s, j)
                 && FollowedBy(parts[1..], s, j + |parts[0]|))
  }

  /** `re.search` of the pattern with literal parts `parts` finds a match in `s`. */
  predicate Searches(parts: seq<string>, s: string) {
    parts == [] ||
    exists i {:trigger OccursAt(parts[0], s, i)} :: 0 <= i <= |s| && OccursAt(parts[0], s, i) && FollowedBy(parts[1..], s, i + |parts[0]|)
  }

  /** The loop over the pattern table: the name of the first rule whose
      pattern `s` matches, if any. */
  function FirstMatch(rules: seq<Rule>, s: string): Option<string> {
    if rules == [] then None
    else if Searches(rules[0].parts, s) then Some(rules[0].name)
    else FirstMatch(rules[1..], s)
  }

  /** `re.sub(r'^\w+\s+', '', s)`: drops a leading word and the whitespace after it. */
  function StripLeadingWord(s: string): (r: string)
    ensures |r| <= |s| && r == s[|s| - |r|..]
    ensures r != s <==> exists a, b :: 0 < a < b <= |s| && AllWord(s, 0, a) && AllSpace(s, a, b)
    ensures r != s ==> exists a :: 0 < a < |s| - |r| && AllWord(s, 0, a) && AllSpace(s, a, |s| - |r|)
    ensures r != s ==> r == [] || !IsSpace(r[0])
  {
    var w := WordRunEnd(s, 0);
    var e := SpaceRunEnd(s, w);
    LeadingWordSplit(s);
    if 0 < w < e then s[e..] else s
  }

  /** A leading word followed by whitespace can only end where the maximal
      word run ends, and the whitespace after it ends at most where the
      maximal whitespace run does. */
  lemma LeadingWordSplit(s: string)
    ensures forall a, b :: 0 < a < b <= |s| && AllWord(s, 0, a) && AllSpace(s, a, b) ==>
              a == WordRunEnd(s, 0) && b <= SpaceRunEnd(s, a)
  {
    forall a, b | 0 < a < b <= |s| && AllWord(s, 0, a) && AllSpace(s, a, b)
      ensures a == WordRunEnd(s, 0) && b <= SpaceRunEnd(s, a)
    {
      assert IsSpace(s[a]) && !IsWordChar(s[a]);
    }
  }

  /** Where `$` matches for a pattern that ends in a letter: the end of `s`,
      or just before a line feed that ends it. */
  function AnchorEnd(s: string): nat {
    if |s| > 0 && s[|s| - 1] == '\n' then |s| - 1 else |s|
  }

  /** `\s+\d+\s+times?` matches exactly `s[p..e]`. */
  predicate TimesSuffixAt(s: string, p: nat, e: nat)
    requires p <= e <= |s|
  {
    exists a, b, c :: p < a < b < c <= e && AllSpace(s, p, a) && AllDigits(s, a, b)
                      && AllSpace(s, b, c) && (s[c..e] == "time" || s[c..e] == "times")
  }

  /** The leftmost start at or after `p` from which `\s+\d+\s+times?` reaches `e`. */
  function FirstTimesSuffix(s: string, p: nat, e: nat): (r: Option<nat>)
    requires p <= e <= |s|
    ensures r.None? <==> forall q :: p <= q <= e ==> !TimesSuffixAt(s, q, e)
    ensures r.Some? ==> p <= r.value < e && TimesSuffixAt(s, r.value, e)
    ensures r.Some? ==> forall q :: p <= q < r.value ==> !TimesSuffixAt(s, q, e)
    decreases e - p
  {
    if p == e then None
    else if TimesSuffixAt(s, p, e) then Some(p)
    else FirstTimesSuffix(s, p + 1, e)
  }

  /** `re.sub(r'\s+\d+\s+times?$', '', s)`: drops a trailing repetition count. */
  function StripTimes(s: string): (r: string)
    ensures r != s <==> exists p :: 0 <= p <= AnchorEnd(s) && TimesSuffixAt(s, p, AnchorEnd(s))
    ensures r != s ==> exists p :: 0 <= p < AnchorEnd(s) && TimesSuffixAt(s, p, AnchorEnd(s))
                         && (forall q :: 0 <= q < p ==> !TimesSuffixAt(s, q, AnchorEnd(s)))
                         && r == s[..p] + s[AnchorEnd(s)..]
  {
    var e := AnchorEnd(s);
    match FirstTimesSuffix(s, 0, e)
    case Some(p) => s[..p] + s[e..]
    case None => s
  }

  /** The qualifier removed by the third substitution. */
  const Middle: string := "in the middle"

  /** `\s+in the middle` matches starting at index `p` of `s`. */
  predicate MiddleAt(s: string, p: nat) {
    exists q :: p < q <= |s| && AllSpace(s, p, q) && OccursAt(Middle, s, q)
  }

  /** `re.sub(r'\s+in the middle', '', s)`: removes every occurrence, scanning
      left to right. */
  function RemoveMiddle(s: string): (r: string)
    ensures |r| <= |s|
    decreases |s|
  {
    if s == [] then []
    else
      var q := SpaceRunEnd(s, 0);
      if 0 < q && OccursAt(Middle, s, q) then RemoveMiddle(s[q + |Middle|..])
      else [s[0]] + RemoveMiddle(s[1..])
  }

  /** The substitution leaves its input unchanged exactly when
      `\s+in the middle` matches nowhere in it. */
  lemma {:induction false} RemoveMiddleUnchanged(s: string)
    ensures RemoveMiddle(s) == s <==> forall p :: 0 <= p < |s| ==> !MiddleAt(s, p)
    decreases |s|
  {
    if s != [] {
      var q := SpaceRunEnd(s, 0);
      MiddleAtRunEnd(s, 0);
      if 0 < q && OccursAt(Middle, s, q) {
        assert |RemoveMiddle(s)| < |s|;
      } else {
        var rest := RemoveMiddle(s[1..]);
        assert RemoveMiddle(s) == [s[0]] + rest;
        RemoveMiddleUnchanged(s[1..]);
        MiddleShift(s);
        if rest == s[1..] {
          assert s == [s[0]] + s[1..];
          forall p | 0 <= p < |s|
            ensures !MiddleAt(s, p)
          {
            if p > 0 {
              assert !MiddleAt(s[1..], p - 1);
            }
          }
        } else {
          assert RemoveMiddle(s)[1..] == rest;
          var p :| 0 <= p < |s| - 1 && MiddleAt(s[1..], p);
          assert MiddleAt(s, p + 1);
        }
      }
    }
  }

  /** `\s+in the middle` matches at `p` exactly when the maximal whitespace
      run from `p` is non-empty and the qualifier follows it. */
  lemma MiddleAtRunEnd(s: string, p: nat)
    requires p <= |s|
    ensures MiddleAt(s, p) <==> p < SpaceRunEnd(s, p) && OccursAt(Middle, s, SpaceRunEnd(s, p))
  {
    var e := SpaceRunEnd(s, p);
    if MiddleAt(s, p) {
      var q :| p < q <= |s| && AllSpace(s, p, q) && OccursAt(Middle, s, q);
      assert s[q] == s[q..q + |Middle|][0] == 'i';
      assert q == e;
    }
    if p < e && OccursAt(Middle, s, e) {
      assert AllSpace(s, p, e);
    }
  }

  /** A match of `\s+in the middle` in `s[1..]` is one in `s`, one place later. */
  lemma MiddleShift(s: string)
    requires s != []
    ensures forall p :: 0 <= p < |s| - 1 ==> (MiddleAt(s[1..], p) <==> MiddleAt(s, p + 1))
  {
    forall p | 0 <= p < |s| - 1
      ensures MiddleAt(s[1..], p) <==> MiddleAt(s, p + 1)
    {
      if MiddleAt(s[1..], p) {
        var q :| p < q <= |s| - 1 && AllSpace(s[1..], p, q) && OccursAt(Middle, s[1..], q);
        assert s[1..][q..q + |Middle|] == s[q + 1..q + 1 + |Middle|];
        assert AllSpace(s, p + 1, q + 1) && OccursAt(Middle, s, q + 1);
      }
      if MiddleAt(s, p + 1) {
        var q :| p + 1 < q <= |s| && AllSpace(s, p + 1, q) && OccursAt(Middle, s, q);
        assert s[1..][q - 1..q - 1 + |Middle|] == s[q..q + |Middle|];
        assert AllSpace(s[1..], p, q - 1) && OccursAt(Middle, s[1..], q - 1);
      }
    }
  }

  /** The three substitutions of the fallback, in order, on the original name. */
  function Fallback(benchmarkName: string): string {
    RemoveMiddle(StripTimes(StripLeadingWord(benchmarkName)))
  }

  /** The classifier: the first pattern that the lower-cased name matches
      decides; otherwise the cleaned name, or the name itself when cleaning
      leaves nothing. */
  function Classify(benchmarkName: string): (operation: string)
    ensures benchmarkName != [] ==> operation != []
  {
    match FirstMatch(Rules, Lower(benchmarkName))
    case Some(n) =>
      RuleNamesNonEmpty();
      FirstMatchNamed(Rules, Lower(benchmarkName));
      n
    case None =>
      var clean := Fallback(benchmarkName);
      if clean != [] then clean else benchmarkName
  }

  /** The result of the table loop is the name of the rule at some index
      whose pattern matches, every earlier one failing; and there is none
      exactly when no rule matches. */
  lemma {:induction false} FirstMatchFound(rules: seq<Rule>, s: string)
    ensures FirstMatch(rules, s).None? <==> forall i :: 0 <= i < |rules| ==> !Searches(rules[i].parts, s)
    ensures FirstMatch(rules, s).Some? ==>
      exists i :: 0 <= i < |rules| && Searches(rules[i].parts, s) && FirstMatch(rules, s).value == rules[i].name
                  && forall j :: 0 <= j < i ==> !Searches(rules[j].parts, s)
  {
    if rules != [] && !Searches(rules[0].parts, s) {
      FirstMatchFound(rules[1..], s);
      if FirstMatch(rules[1..], s).Some? {
        var i :| 0 <= i < |rules| - 1 && Searches(rules[1..][i].parts, s)
                 && FirstMatch(rules[1..], s).value == rules[1..][i].name
                 && forall j :: 0 <= j < i ==> !Searches(rules[1..][j].parts, s);
        assert forall j :: 0 <= j < i + 1 ==> !Searches(rules[j].parts, s) by {
          forall j | 0 <= j < i + 1
            ensures !Searches(rules[j].parts, s)
          {
            if j > 0 { assert rules[j] == rules[1..][j - 1]; }
          }
        }
      } else {
        assert forall i :: 0 < i < |rules| ==> rules[i] == rules[1..][i - 1];
      }
    }
  }

  /** First match wins: a benchmarkName whose lower-cased text matches rule `i` and
      no earlier rule gets rule `i`'s name. */
  lemma ClassifyFirstMatch(benchmarkName: string, i: nat)
    requires i < |Rules| && Searches(Rules[i].parts, Lower(benchmarkName))
    requires forall j :: 0 <= j < i ==> !Searches(Rules[j].parts, Lower(benchmarkName))
    ensures Classify(benchmarkName) == Rules[i].name
  {
    FirstMatchFound(Rules, Lower(benchmarkName));
    var k :| 0 <= k < |Rules| && Searches(Rules[k].parts, Lower(benchmarkName))
             && FirstMatch(Rules, Lower(benchmarkName)).value == Rules[k].name
             && forall j :: 0 <= j < k ==> !Searches(Rules[j].parts, Lower(benchmarkName));
    assert k == i;
  }

  /** A benchmarkName that matches no rule gets the fallback, or itself when the
      fallback is empty. */
  lemma ClassifyFallback(benchmarkName: string)
    requires forall i :: 0 <= i < |Rules| ==> !Searches(Rules[i].parts, Lower(benchmarkName))
    ensures Classify(benchmarkName) == (if Fallback(benchmarkName) != [] then Fallback(benchmarkName) else benchmarkName)
  {
    FirstMatchFound(Rules, Lower(benchmarkName));
  }

  /** A pattern `x.*rest` matches only text that `rest` alone also matches. */
  lemma DropLeadingPart(x: string, rest: seq<string>, s: string)
    requires rest != []
    requires Searches([x] + rest, s)
    ensures Searches(rest, s)
  {
    var parts := [x] + rest;
    assert parts[0] == x && parts[1..] == rest;
    var i :| 0 <= i <= |s| && OccursAt(x, s, i) && FollowedBy(rest, s, i + |x|);
    assert FollowedBy(rest, s, i + |x|);
    var j :| i + |x| <= j <= |s| && OccursAt(rest[0], s, j) && FollowedBy(rest[1..], s, j + |rest[0]|);
    assert 0 <= j <= |s| && OccursAt(rest[0], s, j) && FollowedBy(rest[1..], s, j + |rest[0]|);
  }

  /** Each Undo or Redo entry sits two or one places after the generic entry
      of its group, whose pattern is its own without the leading part. */
  lemma UndoRedoShadowed(i: nat)
    requires i < |Rules| && i % 3 != 0
    ensures Rules[i].name in UndoRedoNames
    ensures Rules[i].parts == [Rules[i].parts[0]] + Rules[i - i % 3].parts
    ensures Rules[i - i % 3].name !in UndoRedoNames
  {
  }

  /** Every entry of the table has a non-empty name. */
  lemma RuleNamesNonEmpty()
    ensures forall i :: 0 <= i < |Rules| ==> Rules[i].name != []
  {
  }

  /** The name the table loop yields is one of the table's names. */
  lemma {:induction false} FirstMatchNamed(rules: seq<Rule>, s: string)
    requires forall i :: 0 <= i < |rules| ==> rules[i].name != []
    ensures FirstMatch(rules, s).Some? ==> FirstMatch(rules, s).value != []
  {
    if rules != [] && !Searches(rules[0].parts, s) {
      assert forall i :: 0 <= i < |rules| - 1 ==> rules[1..][i] == rules[i + 1];
      FirstMatchNamed(rules[1..], s);
    }
  }

  /** A table in which every entry named in `bad` is preceded by an entry
      that matches whatever it matches never yields a name in `bad`. */
  lemma {:induction false} FirstMatchAvoids(rules: seq<Rule>, s: string, bad: set<string>)
    requires forall i :: 0 <= i < |rules| && rules[i].name in bad && Searches(rules[i].parts, s) ==>
               exists g :: 0 <= g < i && Searches(rules[g].parts, s)
    ensures FirstMatch(rules, s).Some? ==> FirstMatch(rules, s).value !in bad
  {
    FirstMatchFound(rules, s);
    if FirstMatch(rules, s).Some? {
      var i :| 0 <= i < |rules| && Searches(rules[i].parts, s) && FirstMatch(rules, s).value == rules[i].name
               && forall j :: 0 <= j < i ==> !Searches(rules[j].parts, s);
    }
  }

  /** The table loop never yields an Undo or Redo name: any text such an
      entry matches, the generic entry before it matches first. */
  lemma FirstMatchNeverUndoRedo(s: string)
    ensures FirstMatch(Rules, s).Some? ==> FirstMatch(Rules, s).value !in UndoRedoNames
  {
    forall i | 0 <= i < |Rules| && Rules[i].name in UndoRedoNames && Searches(Rules[i].parts, s)
      ensures exists g :: 0 <= g < i && Searches(Rules[g].parts, s)
    {
      GenericNamesNotUndoRedo(i);
      UndoRedoShadowed(i);
      DropLeadingPart(Rules[i].parts[0], Rules[i - i % 3].parts, s);
      assert Searches(Rules[i - i % 3].parts, s);
    }
    FirstMatchAvoids(Rules, s, UndoRedoNames);
  }

  /** The entries at positions 0, 3, 6, 9 and 12 are the generic ones. */
  lemma GenericNamesNotUndoRedo(i: nat)
    requires i < |Rules| && Rules[i].name in UndoRedoNames
    ensures i % 3 != 0
  {
  }

  /** "Undo Insert Row" is classified as "Insert row", not "Undo insert row". */
  lemma UndoInsertRowIsInsertRow()
    ensures Classify("Undo Insert Row") == "Insert row"
  {
    var s := Lower("Undo Insert Row");
    assert s == "undo insert row" by {
      forall k | 0 <= k < |s|
        ensures s[k] == "undo insert row"[k]
      {
      }
    }
    assert OccursAt("insert", s, 5);
    assert NoNewline(s, 11, 12) && OccursAt("row", s, 12);
    assert FollowedBy([], s, 15);
    assert FollowedBy(["row"], s, 11);
    assert Searches(Rules[0].parts, s);
    ClassifyFirstMatch("Undo Insert Row", 0);
  }

  /** A name no pattern matches can still yield an Undo or Redo name through
      the fallback: "A Undo ins in the middleert row" has no "insert" in it,
      but losing its first word and " in the middle" leaves "Undo insert row". */
  const UndoByFallback: string := "A Undo ins in the middleert row"

  /** `Classify` gives that name an Undo name. */
  lemma UndoNameFromFallback()
    ensures Classify(UndoByFallback) == "Undo insert row"
    ensures Classify(UndoByFallback) in UndoRedoNames
  {
    FallbackTableMisses();
    FirstMatchFound(Rules, Lower(UndoByFallback));
    ClassifyFallback(UndoByFallback);
    FallbackCleaned();
  }

  /** No pattern of the table matches the lower-cased name: it holds no
      "se" and no "re", so none of "insert", "remove" and "set". */
  lemma FallbackTableMisses()
    ensures forall i :: 0 <= i < |Rules| ==> !Searches(Rules[i].parts, Lower(UndoByFallback))
  {
    var s := Lower(UndoByFallback);
    KeyWordsAbsent();
    forall i | 0 <= i < |Rules|
      ensures !Searches(Rules[i].parts, s)
    {
      SecondPartNeeded(Rules[i].parts, s);
    }
  }

  /** The lower-cased name holds none of "insert", "set" and "remove", one of
      which every pattern has as its first or second literal. */
  lemma KeyWordsAbsent()
    ensures forall j :: !OccursAt("insert", Lower(UndoByFallback), j)
    ensures forall j :: !OccursAt("set", Lower(UndoByFallback), j)
    ensures forall j :: !OccursAt("remove", Lower(UndoByFallback), j)
  {
    var s := Lower(UndoByFallback);
    PairsAbsent();
    OccursPair("insert", s, 2);
    OccursPair("set", s, 0);
    OccursPair("remove", s, 0);
  }

  /** In the lower-cased name no 's' and no 'r' is followed by 'e'. */
  lemma PairsAbsent()
    ensures var s := Lower(UndoByFallback);
      forall j :: 0 <= j < |s| - 1 ==> !(s[j] == 's' && s[j + 1] == 'e') && !(s[j] == 'r' && s[j + 1] == 'e')
  {
  }

  /** Where `p` occurs, its characters at `k` and `k + 1` stand side by side. */
  lemma OccursPair(p: string, s: string, k: nat)
    requires k + 1 < |p|
    ensures forall j :: OccursAt(p, s, j) ==> s[j + k] == p[k] && s[j + k + 1] == p[k + 1]
  {
    forall j | OccursAt(p, s, j)
      ensures s[j + k] == p[k] && s[j + k + 1] == p[k + 1]
    {
      assert s[j + k] == s[j..j + |p|][k] && s[j + k + 1] == s[j..j + |p|][k + 1];
    }
  }

  /** A match of a pattern with two or more parts contains its second literal. */
  lemma SecondPartNeeded(parts: seq<string>, s: string)
    requires |parts| >= 2
    ensures Searches(parts, s) ==> exists j :: OccursAt(parts[1], s, j)
  {
    if Searches(parts, s) {
      var i :| 0 <= i <= |s| && OccursAt(parts[0], s, i) && FollowedBy(parts[1..], s, i + |parts[0]|);
      var j :| i + |parts[0]| <= j <= |s| && OccursAt(parts[1..][0], s, j);
    }
  }

  /** The name after its first word, split where " in the middle" begins. */
  const FallbackHead: string := "Undo ins"
  const FallbackTail: string := " in the middleert row"

  /** The fallback turns the name into "Undo insert row". */
  lemma FallbackCleaned()
    ensures Fallback(UndoByFallback) == "Undo insert row"
  {
    LeadingWordDropped();
    TimesKept();
    NoMiddleIn();
    RemoveMiddleSkips(FallbackHead, FallbackTail);
    TailCleaned();
    HeadJoined();
  }

  /** The first substitution drops "A ". */
  lemma LeadingWordDropped()
    ensures StripLeadingWord(UndoByFallback) == FallbackHead + FallbackTail
  {
    LeadingRuns();
    LeadingRest();
  }

  /** The name starts with the one-letter word "A" and one space. */
  lemma LeadingRuns()
    ensures WordRunEnd(UndoByFallback, 0) == 1 && SpaceRunEnd(UndoByFallback, 1) == 2
  {
  }

  /** What follows "A ". */
  lemma LeadingRest()
    ensures UndoByFallback[2..] == FallbackHead + FallbackTail
  {
    assert UndoByFallback == "A " + (FallbackHead + FallbackTail);
  }

  /** The second substitution finds no repetition count. */
  lemma TimesKept()
    ensures StripTimes(FallbackHead + FallbackTail) == FallbackHead + FallbackTail
  {
    var t := FallbackHead + FallbackTail;
    assert forall k :: 0 <= k < |t| ==> !IsDigit(t[k]);
    NoTimesSuffix(t);
  }

  /** A text without digits has no repetition suffix. */
  lemma NoTimesSuffix(t: string)
    requires forall k :: 0 <= k < |t| ==> !IsDigit(t[k])
    ensures StripTimes(t) == t
  {
    forall p | 0 <= p <= AnchorEnd(t)
      ensures !TimesSuffixAt(t, p, AnchorEnd(t))
    {
      TimesHasDigit(t, p, AnchorEnd(t));
    }
  }

  /** A repetition suffix holds a digit. */
  lemma TimesHasDigit(s: string, p: nat, e: nat)
    requires p <= e <= |s|
    ensures TimesSuffixAt(s, p, e) ==> exists a :: p <= a < e && IsDigit(s[a])
  {
    if TimesSuffixAt(s, p, e) {
      var a, b, c :| p < a < b < c <= e && AllSpace(s, p, a) && AllDigits(s, a, b)
                      && AllSpace(s, b, c) && (s[c..e] == "time" || s[c..e] == "times");
      assert IsDigit(s[a]);
    }
  }

  /** `\s+in the middle` matches nowhere in the first part. */
  lemma NoMiddleIn()
    ensures forall p :: 0 <= p < |FallbackHead| ==> !MiddleAt(FallbackHead + FallbackTail, p)
  {
    var s := FallbackHead + FallbackTail;
    forall p | 0 <= p < |FallbackHead|
      ensures !MiddleAt(s, p)
    {
      if p == 4 {
        assert SpaceRunEnd(s, 4) == 5;
        assert s[5..5 + |Middle|][2] != Middle[2];
        MiddleAtRunEnd(s, 4);
      } else {
        assert !IsSpace(s[p]);
      }
    }
  }

  /** A match at the front is dropped whole, whitespace run and phrase, and
      the scan resumes right after it. */
  lemma RemoveMiddleDrops(w: string, y: string)
    requires 0 < |w| && forall k :: 0 <= k < |w| ==> IsSpace(w[k])
    ensures RemoveMiddle(w + Middle + y) == RemoveMiddle(y)
  {
    var s := w + Middle + y;
    assert s[|w|] == Middle[0];
    SpaceRunEndIs(s, 0, |w|);
    assert s[|w|..|w| + |Middle|] == Middle;
    assert s[|w| + |Middle|..] == y;
  }

  /** With no match starting in `x`, the substitution keeps `x` and goes on
      with `y`. */
  lemma {:induction false} RemoveMiddleSkips(x: string, y: string)
    requires forall p :: 0 <= p < |x| ==> !MiddleAt(x + y, p)
    ensures RemoveMiddle(x + y) == x + RemoveMiddle(y)
    decreases |x|
  {
    if x != [] {
      var s := x + y;
      assert !MiddleAt(s, 0);
      MiddleAtRunEnd(s, 0);
      assert RemoveMiddle(s) == [s[0]] + RemoveMiddle(s[1..]);
      assert s[1..] == x[1..] + y;
      MiddleShift(s);
      assert forall p :: 0 <= p < |x| - 1 ==> !MiddleAt(x[1..] + y, p);
      RemoveMiddleSkips(x[1..], y);
      assert s[0] == x[0];
      assert [x[0]] + (x[1..] + RemoveMiddle(y)) == ([x[0]] + x[1..]) + RemoveMiddle(y);
      assert x == [x[0]] + x[1..];
    } else {
      assert x + y == y;
    }
  }

  /** The head and what the substitution leaves of the tail make an Undo name. */
  lemma HeadJoined()
    ensures FallbackHead + "ert row" == "Undo insert row"
  {
  }

  /** The substitution drops the leading " in the middle" and keeps the rest. */
  lemma TailCleaned()
    ensures RemoveMiddle(FallbackTail) == "ert row"
  {
    var s := FallbackTail;
    assert SpaceRunEnd(s, 0) == 1;
    assert OccursAt(Middle, s, 1);
    assert RemoveMiddle(s) == RemoveMiddle(s[1 + |Middle|..]);
    assert s[1 + |Middle|..] == "ert row";
    assert forall p :: 0 <= p < |"ert row"| ==> !MiddleAt("ert row", p);
    RemoveMiddleUnchanged("ert row");
  }
}
