/**
 * The cell format of the report generator read back by the cell parser of
 * the chart scripts: parsing a formatted cell recovers both values, in
 * whichever order the two lines stand.
 */
module RoundTrip {
  import opened Wrappers
  import opened Text
  import opened CellParser
  import opened Report

  /** `render` writes `v` as a number `float` reads back exactly, using
      only `-`, digits and `.`. */
  predicate Renders(render: real -> string, v: real) {
    |render(v)| > 0 && AllNum(render(v), 0, |render(v)|) && ParseFloat(render(v)) == Some(v)
  }

  /** The two tags, in either order. */
  predicate Tags(t1: string, t2: string) {
    (t1 == "SM:" && t2 == "ST:") || (t1 == "ST:" && t2 == "SM:")
  }

  /** A run of number characters. */
  predicate Number(a: string) {
    |a| > 0 && AllNum(a, 0, |a|)
  }

  /** The run of number characters from `i` ends exactly at `i + n`. */
  lemma {:induction false} NumRunEndAt(s: string, i: nat, n: nat)
    requires i + n <= |s| && AllNum(s, i, i + n)
    requires i + n == |s| || !IsNumChar(s[i + n])
    ensures NumRunEnd(s, i) == i + n
    decreases n
  {
    if n > 0 {
      NumRunEndAt(s, i + 1, n - 1);
    }
  }

  /** A tag, one space and a number that runs to a line feed or the end
      match at `p`, and the group is the number. */
  lemma GroupAt(tag: string, s: string, p: nat, a: string)
    requires |tag| == 3 && OccursAt(tag, s, p) && Number(a)
    requires p + 4 + |a| <= |s| && s[p + 3] == ' ' && s[p + 4..p + 4 + |a|] == a
    requires p + 4 + |a| == |s| || s[p + 4 + |a|] == '\n'
    ensures MatchAt(tag, s, p) && Group(tag, s, p) == a
  {
    assert s[p + 4] == a[0];
    assert SpaceRunEnd(s, p + 3) == p + 4;
    assert AllNum(s, p + 4, p + 4 + |a|) by {
      forall k | p + 4 <= k < p + 4 + |a|
        ensures IsNumChar(s[k])
      {
        assert s[k] == a[k - p - 4];
      }
    }
    NumRunEndAt(s, p + 4, |a|);
  }

  /** The value of a tag is the group of its first match. */
  lemma ValueFirst(tag: string, s: string, p: nat)
    requires MatchAt(tag, s, p) && forall q :: 0 <= q < p ==> !MatchAt(tag, s, q)
    ensures Value(tag, s) == Some(Group(tag, s, p))
  {
    SearchLeftmost(tag, s, 0);
  }

  /** No tag starts at a character other than 'S'. */
  lemma NoTagAt(tag: string, s: string, p: nat)
    requires |tag| == 3 && tag[0] == 'S' && p < |s| && s[p] != 'S'
    ensures !MatchAt(tag, s, p)
  {
  }

  /** Inside a line made of a tag, a space and a number, no tag starts
      after the first character. */
  lemma NoTagInside(t1: string, t2: string, s: string, a: string, p: nat)
    requires Tags(t1, t2) && Number(a)
    requires |s| >= 4 + |a| && s[..4 + |a|] == t1 + " " + a
    requires 0 < p < 4 + |a|
    ensures !MatchAt(t1, s, p) && !MatchAt(t2, s, p)
  {
    assert s[p] == (t1 + " " + a)[p];
    if p >= 4 {
      assert s[p] == a[p - 4];
      assert IsNumChar(a[p - 4]);
    }
    NoTagAt(t1, s, p);
    NoTagAt(t2, s, p);
  }

  /** A one-line cell holds its own tag's value and not the other tag. */
  lemma OneLine(t1: string, t2: string, a: string)
    requires Tags(t1, t2) && Number(a)
    ensures Value(t1, t1 + " " + a) == Some(a)
    ensures Value(t2, t1 + " " + a) == None
  {
    var s := t1 + " " + a;
    assert s[..4 + |a|] == s;
    assert OccursAt(t1, s, 0) by {
      assert s[0..3] == t1;
    }
    assert s[4..4 + |a|] == a;
    GroupAt(t1, s, 0, a);
    ValueFirst(t1, s, 0);
    forall p | 0 <= p <= |s|
      ensures !MatchAt(t2, s, p)
    {
      if p == 0 {
        assert s[1] != t2[1];
        assert s[0..3] != t2 by {
          assert s[0..3][1] == s[1];
        }
      } else if p < |s| {
        NoTagInside(t1, t2, s, a, p);
      }
    }
    ValueLeftmost(t2, s);
  }

  /** A two-line cell holds each tag's value, whichever line comes first. */
  lemma TwoLines(t1: string, t2: string, a: string, b: string)
    requires Tags(t1, t2) && Number(a) && Number(b)
    ensures Value(t1, t1 + " " + a + "\n" + t2 + " " + b) == Some(a)
    ensures Value(t2, t1 + " " + a + "\n" + t2 + " " + b) == Some(b)
  {
    FirstLine(t1, t2, a, b);
    SecondLine(t1, t2, a, b);
  }

  lemma FirstLine(t1: string, t2: string, a: string, b: string)
    requires Tags(t1, t2) && Number(a) && Number(b)
    ensures Value(t1, t1 + " " + a + "\n" + t2 + " " + b) == Some(a)
  {
    var s := t1 + " " + a + "\n" + t2 + " " + b;
    assert OccursAt(t1, s, 0) by {
      assert s[0..3] == t1;
    }
    assert s[4..4 + |a|] == a;
    assert s[4 + |a|] == '\n';
    GroupAt(t1, s, 0, a);
    ValueFirst(t1, s, 0);
  }

  lemma SecondLine(t1: string, t2: string, a: string, b: string)
    requires Tags(t1, t2) && Number(a) && Number(b)
    ensures Value(t2, t1 + " " + a + "\n" + t2 + " " + b) == Some(b)
  {
    var s := t1 + " " + a + "\n" + t2 + " " + b;
    var n := 5 + |a|;
    assert OccursAt(t2, s, n) by {
      assert s[n..n + 3] == t2;
    }
    assert s[n + 4..n + 4 + |b|] == b;
    assert s[n + 3] == ' ';
    GroupAt(t2, s, n, b);
    assert s[..5 + |a|] == t1 + " " + a + "\n";
    NoTagInFirstLine(t1, t2, s, a);
    ValueFirst(t2, s, n);
  }

  /** The other tag does not start anywhere in a first line made of a tag,
      a space, a number and a line feed. */
  lemma NoTagInFirstLine(t1: string, t2: string, s: string, a: string)
    requires Tags(t1, t2) && Number(a)
    requires |s| >= 5 + |a| && s[..5 + |a|] == t1 + " " + a + "\n"
    ensures forall q :: 0 <= q < 5 + |a| ==> !MatchAt(t2, s, q)
  {
    assert s[..4 + |a|] == t1 + " " + a;
    assert s[4 + |a|] == '\n';
    forall q | 0 <= q < 5 + |a|
      ensures !MatchAt(t2, s, q)
    {
      if q == 0 {
        assert s[0..3][1] == s[1];
      } else if q < 4 + |a| {
        NoTagInside(t1, t2, s, a, q);
      } else {
        NoTagAt(t2, s, q);
      }
    }
  }

  /** A cell whose two searches convert gives the pair of converted values. */
  lemma ParseFromValues(s: string, sm: Option<real>, st: Option<real>)
    requires s != ""
    requires Convert(Value("SM:", s)) == Success(sm) && Convert(Value("ST:", s)) == Success(st)
    ensures ParseCell(Filled(s)) == Success((sm, st))
  {
  }

  /** The formatted line of a value converts back to the value. */
  lemma ConvertRendered(render: real -> string, v: real)
    requires Renders(render, v)
    ensures Convert(Some(render(v))) == Success(Some(v))
  {
  }

  /** Parsing a cell the report generator formatted recovers both values,
      an absent side as nothing, whenever each present value renders as a
      number `float` reads back. */
  lemma FormatParseRoundTrip(sm: Option<real>, st: Option<real>, render: real -> string)
    requires sm.Some? ==> Renders(render, sm.value)
    requires st.Some? ==> Renders(render, st.value)
    ensures ParseCell(Filled(FormatCell(sm, st, render))) == Success((sm, st))
  {
    if sm.Some? && st.Some? {
      BothLines(sm.value, st.value, render);
    } else if sm.Some? {
      SingleLine("SM: ", "SM:", "ST:", sm.value, render);
    } else if st.Some? {
      SingleLine("ST: ", "ST:", "SM:", st.value, render);
      assert ParseCell(Filled("ST: " + render(st.value))) == Success((None, st));
    }
  }

  lemma SingleLine(prefix: string, t1: string, t2: string, v: real, render: real -> string)
    requires Tags(t1, t2) && prefix == t1 + " " && Renders(render, v)
    ensures t1 == "SM:" ==> ParseCell(Filled(prefix + render(v))) == Success((Some(v), None))
    ensures t1 == "ST:" ==> ParseCell(Filled(prefix + render(v))) == Success((None, Some(v)))
  {
    var a := render(v);
    assert prefix + a == t1 + " " + a;
    OneLine(t1, t2, a);
    ConvertRendered(render, v);
    if t1 == "SM:" {
      ParseFromValues(prefix + a, Some(v), None);
    } else {
      ParseFromValues(prefix + a, None, Some(v));
    }
  }

  lemma BothLines(x: real, y: real, render: real -> string)
    requires Renders(render, x) && Renders(render, y)
    ensures ParseCell(Filled("SM: " + render(x) + "\n" + "ST: " + render(y))) == Success((Some(x), Some(y)))
  {
    var a, b := render(x), render(y);
    BothValues(a, b);
    ConvertRendered(render, x);
    ConvertRendered(render, y);
    ParseFromValues("SM: " + a + "\n" + "ST: " + b, Some(x), Some(y));
  }

  lemma BothValues(a: string, b: string)
    requires Number(a) && Number(b)
    ensures Value("SM:", "SM: " + a + "\n" + "ST: " + b) == Some(a)
    ensures Value("ST:", "SM: " + a + "\n" + "ST: " + b) == Some(b)
  {
    assert "SM: " + a + "\n" + "ST: " + b == "SM:" + " " + a + "\n" + "ST:" + " " + b;
    TwoLines("SM:", "ST:", a, b);
  }

  /** The parser does not depend on the SM line coming first: a cell with
      the ST line first gives the same pair. */
  lemma SwappedLines(x: real, y: real, render: real -> string)
    requires Renders(render, x) && Renders(render, y)
    ensures ParseCell(Filled("ST: " + render(y) + "\n" + "SM: " + render(x))) == Success((Some(x), Some(y)))
  {
    var a, b := render(x), render(y);
    SwappedValues(a, b);
    ConvertRendered(render, x);
    ConvertRendered(render, y);
    ParseFromValues("ST: " + b + "\n" + "SM: " + a, Some(x), Some(y));
  }

  lemma SwappedValues(a: string, b: string)
    requires Number(a) && Number(b)
    ensures Value("SM:", "ST: " + b + "\n" + "SM: " + a) == Some(a)
    ensures Value("ST:", "ST: " + b + "\n" + "SM: " + a) == Some(b)
  {
    assert "ST: " + b + "\n" + "SM: " + a == "ST:" + " " + b + "\n" + "SM:" + " " + a;
    TwoLines("ST:", "SM:", b, a);
  }

  /** A mean that `str` writes in exponent form does not survive the trip:
      the cell "SM: 5e-05", for a mean of 0.00005, reads back as 5.0,
      because the number class stops at the `e`. */
  lemma ExponentCut()
    ensures ParseCell(Filled("SM: 5e-05")) == Success((Some(5.0), None))
  {
    ExponentValues();
    FiveParses();
    ParseFromValues("SM: 5e-05", Some(5.0), None);
  }

  /** In "SM: 5e-05" the SM group is "5" and there is no ST value. */
  lemma ExponentValues()
    ensures Value("SM:", "SM: 5e-05") == Some("5")
    ensures Value("ST:", "SM: 5e-05") == None
  {
    var s := "SM: 5e-05";
    assert OccursAt("SM:", s, 0) by {
      assert s[0..3] == "SM:";
    }
    assert SpaceRunEnd(s, 3) == 4;
    NumRunEndAt(s, 4, 1);
    assert Group("SM:", s, 0) == "5" by {
      assert s[4..5] == "5";
    }
    ValueFirst("SM:", s, 0);
    forall p | 0 <= p <= |s|
      ensures !MatchAt("ST:", s, p)
    {
      if p == 0 {
        assert s[0..3] != "ST:" by {
          assert s[0..3][1] == 'M';
        }
      } else if p < |s| {
        NoTagAt("ST:", s, p);
      }
    }
    ValueAbsent("ST:", s);
  }

  /** `float("5")` is 5. */
  lemma FiveParses()
    ensures ParseFloat("5") == Some(5.0)
  {
    assert DotIndex("5") == 1;
    assert "5"[..1] == "5" && "5"[..0] == [];
    assert Natural("5") == 5;
    assert Decimal(5, 0, 0) == 5.0;
  }
}
