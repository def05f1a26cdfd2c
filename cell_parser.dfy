/**
 * `parse_multi_value_cell`, shared by both chart scripts: reads the SM and
 * ST numbers back out of a report cell with two regular-expression searches
 * and Python's `float`.
 */
module CellParser {
  import opened Wrappers
  import opened Text

  /** A cell as pandas hands it over: missing (NaN) or a piece of text. */
  datatype Cell = Missing | Filled(text: string)

  /** The exceptions the chart scripts let escape. */
  datatype ChartError = ValueError(literal: string) | KeyError(column: string)

  /** One character of the class `[-\d.]` (ASCII digits). */
  predicate IsNumChar(c: char) {
    c == '-' || IsDigit(c) || c == '.'
  }

  /** Every character of `s[a..b]` belongs to `[-\d.]`. */
  predicate AllNum(s: string, a: int, b: int)
    requires 0 <= a <= b <= |s|
  {
    forall k :: a <= k < b ==> IsNumChar(s[k])
  }

  /** End of the maximal run of `[-\d.]` characters of `s` from `i`. */
  function NumRunEnd(s: string, i: nat): (e: nat)
    requires i <= |s|
    ensures i <= e <= |s| && AllNum(s, i, e)
    ensures e == |s| || !IsNumChar(s[e])
    decreases |s| - i
  {
    if i < |s| && IsNumChar(s[i]) then NumRunEnd(s, i + 1) else i
  }

  /** `tag + r'\s*([-\d.]+)'` can match at index `p`: the tag is there and,
      after the whitespace that follows it, a character of the class. No
      space character belongs to the class, so a match needs exactly this. */
  predicate MatchAt(tag: string, s: string, p: int) {
    OccursAt(tag, s, p) && var q := SpaceRunEnd(s, p + |tag|); q < |s| && IsNumChar(s[q])
  }

  /** A match at `p` in the sense of the regular expression: some whitespace,
      then one or more class characters. */
  lemma MatchAtMeans(tag: string, s: string, p: int)
    ensures MatchAt(tag, s, p) <==>
              (OccursAt(tag, s, p) &&
               exists q, e :: p + |tag| <= q < e <= |s| && AllSpace(s, p + |tag|, q) && AllNum(s, q, e))
  {
    if OccursAt(tag, s, p) {
      var q0 := SpaceRunEnd(s, p + |tag|);
      if MatchAt(tag, s, p) {
        assert AllNum(s, q0, q0 + 1);
      }
      if exists q, e :: p + |tag| <= q < e <= |s| && AllSpace(s, p + |tag|, q) && AllNum(s, q, e) {
        var q, e :| p + |tag| <= q < e <= |s| && AllSpace(s, p + |tag|, q) && AllNum(s, q, e);
        assert IsNumChar(s[q]);
        assert q0 >= q;
        assert q0 <= q;
      }
    }
  }

  /** The text of group 1 of a match at `p`: the greedy `\s*` takes the whole
      whitespace run, the greedy group the whole run of class characters
      after it. */
  function Group(tag: string, s: string, p: int): (g: string)
    requires MatchAt(tag, s, p)
    ensures |g| > 0 && AllNum(g, 0, |g|)
    ensures var q := SpaceRunEnd(s, p + |tag|);
              q + |g| <= |s| && s[q..q + |g|] == g && (q + |g| == |s| || !IsNumChar(s[q + |g|]))
  {
    var q := SpaceRunEnd(s, p + |tag|);
    var e := NumRunEnd(s, q);
    assert AllNum(s[q..e], 0, e - q) by {
      forall k | 0 <= k < e - q
        ensures IsNumChar(s[q..e][k])
      {
        assert s[q..e][k] == s[q + k];
      }
    }
    s[q..e]
  }

  /** `re.search` from index `from`: the index where the leftmost match
      starts (`SearchLeftmost`). */
  function Search(tag: string, s: string, from: nat): (r: Option<nat>)
    requires from <= |s|
    ensures r.Some? ==> from <= r.value < |s| && MatchAt(tag, s, r.value)
    decreases |s| - from
  {
    if from == |s| then None
    else if MatchAt(tag, s, from) then Some(from)
    else Search(tag, s, from + 1)
  }

  /** The search fails only when no index matches, and otherwise finds the
      leftmost match. */
  lemma {:induction false} SearchLeftmost(tag: string, s: string, from: nat)
    requires from <= |s|
    ensures Search(tag, s, from).None? ==> forall p :: from <= p <= |s| ==> !MatchAt(tag, s, p)
    ensures Search(tag, s, from).Some? ==> forall p :: from <= p < Search(tag, s, from).value ==> !MatchAt(tag, s, p)
    decreases |s| - from
  {
    if from < |s| && !MatchAt(tag, s, from) {
      SearchLeftmost(tag, s, from + 1);
    }
  }

  /** `m.group(1)` of `re.search(tag + r'\s*([-\d.]+)', s)`, or nothing
      when the search fails. */
  function Value(tag: string, s: string): (v: Option<string>)
    ensures v.Some? ==> |v.value| > 0 && AllNum(v.value, 0, |v.value|)
  {
    match Search(tag, s, 0)
    case None => None
    case Some(p) => Some(Group(tag, s, p))
  }

  /** A tag has no value exactly when it matches nowhere. */
  lemma ValueAbsent(tag: string, s: string)
    ensures Value(tag, s).None? <==> forall p :: 0 <= p <= |s| ==> !MatchAt(tag, s, p)
  {
    SearchLeftmost(tag, s, 0);
  }

  /** The value is the group of the leftmost match, and there is none
      exactly when the tag never matches. */
  lemma ValueLeftmost(tag: string, s: string)
    ensures Value(tag, s).None? <==> forall p :: 0 <= p <= |s| ==> !MatchAt(tag, s, p)
    ensures Value(tag, s).Some? ==>
              exists p :: 0 <= p < |s| && MatchAt(tag, s, p) && Value(tag, s).value == Group(tag, s, p)
                          && forall p' :: 0 <= p' < p ==> !MatchAt(tag, s, p')
  {
    SearchLeftmost(tag, s, 0);
  }

  /** The index of the first '.' of `t`, or `|t|` when there is none. */
  function DotIndex(t: string): (d: nat)
    ensures d <= |t| && (d < |t| ==> t[d] == '.')
    ensures forall k :: 0 <= k < d ==> t[k] != '.'
  {
    if t == [] then 0
    else if t[0] == '.' then 0
    else 1 + DotIndex(t[1..])
  }

  /** The number an ASCII digit stands for. */
  function DigitValue(c: char): nat
    requires IsDigit(c)
  {
    c as int - '0' as int
  }

  /** The number written in decimal by the digits `ds`. */
  function Natural(ds: string): nat
    requires AllDigits(ds, 0, |ds|)
  {
    if ds == [] then 0 else Natural(ds[..|ds| - 1]) * 10 + DigitValue(ds[|ds| - 1])
  }

  function Pow10(n: nat): (p: nat)
    ensures p > 0
  {
    if n == 0 then 1 else 10 * Pow10(n - 1)
  }

  /** An unsigned decimal: digits, optionally a point and more digits, with
      at least one digit in all. */
  function Unsigned(t: string): Option<real> {
    var d := DotIndex(t);
    var whole := t[..d];
    var fraction := if d < |t| then t[d + 1..] else [];
    if AllDigits(whole, 0, |whole|) && AllDigits(fraction, 0, |fraction|) && |whole| + |fraction| > 0 then
      Some(Decimal(Natural(whole), Natural(fraction), |fraction|))
    else None
  }

  /** The value of whole part `whole` followed by the `places` digits of
      `fraction`. */
  function Decimal(whole: nat, fraction: nat, places: nat): real {
    whole as real + fraction as real / Pow10(places) as real
  }

  /** Python's `float` on a text made of `-`, digits and `.`: an optional
      minus sign and an unsigned decimal; anything else raises `ValueError`,
      here `None`. */
  function ParseFloat(t: string): Option<real> {
    if |t| > 0 && t[0] == '-' then
      match Unsigned(t[1..])
      case Some(v) => Some(-v)
      case None => None
    else Unsigned(t)
  }

  /** `float(m.group(1)) if m else None`. */
  function Convert(text: Option<string>): (r: Result<Option<real>, ChartError>)
    ensures text.None? ==> r == Success(None)
    ensures text.Some? && ParseFloat(text.value).Some? ==> r == Success(ParseFloat(text.value))
    ensures text.Some? && ParseFloat(text.value).None? ==> r == Failure(ValueError(text.value))
  {
    match text
    case None => Success(None)
    case Some(t) =>
      match ParseFloat(t)
      case Some(v) => Success(Some(v))
      case None => Failure(ValueError(t))
  }

  /** `parse_multi_value_cell`: the SM value and the ST value of a cell; a
      number that `float` refuses raises, the SM one first. */
  function ParseCell(c: Cell): (r: Result<(Option<real>, Option<real>), ChartError>)
    ensures c.Missing? || c == Filled("") ==> r == Success((None, None))
  {
    match c
    case Missing => Success((None, None))
    case Filled(s) =>
      if s == "" then Success((None, None))
      else
        var sm :- Convert(Value("SM:", s));
        var st :- Convert(Value("ST:", s));
        Success((sm, st))
  }

  /** The decimal digits of `n`, most significant first, no leading zero. */
  function Digits(n: nat): (ds: string)
    ensures |ds| > 0 && AllDigits(ds, 0, |ds|)
  {
    var last := ('0' as int + n % 10) as char;
    if n < 10 then [last] else Digits(n / 10) + [last]
  }

  lemma {:induction false} NaturalDigits(n: nat)
    ensures Natural(Digits(n)) == n
  {
    var ds := Digits(n);
    if n >= 10 {
      NaturalDigits(n / 10);
      assert ds[..|ds| - 1] == Digits(n / 10);
    }
  }

  /** What Python's `str` gives for a whole float below 10^16: its digits and
      ".0". */
  function WholeText(n: nat): string {
    Digits(n) + ".0"
  }

  lemma UnsignedWhole(n: nat)
    ensures Unsigned(WholeText(n)) == Some(n as real)
  {
    var t := WholeText(n);
    var ds := Digits(n);
    DotAfterDigits(ds, "0");
    assert t == ds + "." + "0";
    assert DotIndex(t) == |ds|;
    assert t[..|ds|] == ds;
    assert t[|ds| + 1..] == "0";
    assert Natural("0") == 0 by {
      assert "0"[..0] == [];
    }
    NaturalDigits(n);
  }

  lemma {:induction false} DotAfterDigits(ds: string, rest: string)
    requires AllDigits(ds, 0, |ds|)
    ensures DotIndex(ds + "." + rest) == |ds|
  {
    if ds != [] {
      assert (ds + "." + rest)[1..] == ds[1..] + "." + rest;
      DotAfterDigits(ds[1..], rest);
    }
  }

  /** `float` reads back the rendering of every whole value, positive or
      negative. */
  lemma ParseWholeText(n: nat)
    ensures ParseFloat(WholeText(n)) == Some(n as real)
    ensures ParseFloat("-" + WholeText(n)) == Some(-(n as real))
  {
    UnsignedWhole(n);
    assert ("-" + WholeText(n))[1..] == WholeText(n);
  }

  /** `float` on texts of the class that are not numbers. */
  lemma ParseFloatRejects()
    ensures ParseFloat("") == None
    ensures ParseFloat("-") == None
    ensures ParseFloat(".") == None
    ensures ParseFloat("--1") == None
    ensures ParseFloat("1-2") == None
    ensures ParseFloat("1.2.3") == None
  {
    assert "1.2.3"[2..] == "2.3";
    assert !IsDigit("2.3"[1]);
    assert "1-2"[..3] == "1-2";
    assert "--1"[1..] == "-1";
    assert "-1"[..2] == "-1";
  }

  /** Digits, a point and digits read as the whole part plus the fraction
      over its power of ten. */
  lemma UnsignedDecimal(ds: string, fs: string)
    requires AllDigits(ds, 0, |ds|) && AllDigits(fs, 0, |fs|) && |ds| + |fs| > 0
    ensures Unsigned(ds + "." + fs) == Some(Decimal(Natural(ds), Natural(fs), |fs|))
  {
    var t := ds + "." + fs;
    DotAfterDigits(ds, fs);
    var d := DotIndex(t);
    assert d == |ds| < |t|;
    assert t[..d] == ds;
    assert t[d + 1..] == fs;
  }

  /** `float` on decimals with a fractional part, a leading point or a
      trailing one. */
  lemma ParseFloatFraction()
    ensures ParseFloat("2.5") == Some(2.5)
  {
    assert "2.5" == "2" + "." + "5";
    UnsignedDecimal("2", "5");
    assert Natural("2") == 2 && Natural("5") == 5 by {
      assert "2"[..0] == [] && "5"[..0] == [];
    }
  }

  lemma ParseFloatNegative()
    ensures ParseFloat("-0.25") == Some(-0.25)
  {
    assert "-0.25"[1..] == "0" + "." + "25";
    UnsignedDecimal("0", "25");
    assert Natural("25") == 25 by {
      assert "25"[..1] == "2" && "2"[..0] == [];
    }
    assert Natural("0") == 0 by {
      assert "0"[..0] == [];
    }
    assert Pow10(2) == 100;
  }

  lemma ParseFloatPoints()
    ensures ParseFloat(".5") == Some(0.5)
    ensures ParseFloat("7.") == Some(7.0)
  {
    assert ".5"[..0] == [] && ".5"[1..] == "5";
    assert Natural("5") == 5 by {
      assert "5"[..0] == [];
    }
    assert "7."[..1] == "7" && "7."[2..] == [];
    assert Natural("7") == 7 by {
      assert "7"[..0] == [];
    }
  }

  /** Each side of a parsed cell comes from the leftmost match of its own
      tag alone: absent exactly when the tag never matches, and otherwise
      the number its group spells. */
  lemma ParseCellSides(s: string)
    requires ParseCell(Filled(s)).Success?
    ensures var (sm, st) := ParseCell(Filled(s)).value;
      && (sm.None? <==> forall p :: 0 <= p <= |s| ==> !MatchAt("SM:", s, p))
      && (st.None? <==> forall p :: 0 <= p <= |s| ==> !MatchAt("ST:", s, p))
      && (sm.Some? ==> sm == ParseFloat(Value("SM:", s).value))
      && (st.Some? ==> st == ParseFloat(Value("ST:", s).value))
  {
    if s == "" {
      assert !MatchAt("SM:", s, 0) && !MatchAt("ST:", s, 0);
    } else {
      ParseCellValue(s);
      ValueAbsent("SM:", s);
      ValueAbsent("ST:", s);
    }
  }

  /** A parsed non-empty cell holds the two converted values. */
  lemma ParseCellValue(s: string)
    requires s != "" && ParseCell(Filled(s)).Success?
    ensures Convert(Value("SM:", s)).Success? && Convert(Value("ST:", s)).Success?
    ensures ParseCell(Filled(s)).value == (Convert(Value("SM:", s)).value, Convert(Value("ST:", s)).value)
  {
  }

  /** A number `float` refuses makes the whole cell raise, whichever side it
      is on, and the SM side is converted first. */
  lemma ParseCellRaises(s: string)
    requires s != ""
    ensures Convert(Value("SM:", s)).Failure? ==> ParseCell(Filled(s)) == Failure(ValueError(Value("SM:", s).value))
    ensures Convert(Value("SM:", s)).Success? && Convert(Value("ST:", s)).Failure? ==>
              ParseCell(Filled(s)) == Failure(ValueError(Value("ST:", s).value))
    ensures ParseCell(Filled(s)).Success? <==> Convert(Value("SM:", s)).Success? && Convert(Value("ST:", s)).Success?
  {
  }
}
