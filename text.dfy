/**
 * Character classes and string relations that the Python regular expressions
 * and `sorted` of the original rely on, restricted to ASCII.
 */
module Text {

  /** Python's `\s` on ASCII: tab, line feed, vertical tab, form feed, carriage
      return, the separators 0x1C-0x1F and space. */
  predicate IsSpace(c: char) {
    var n := c as int;
    n == 32 || 9 <= n <= 13 || 28 <= n <= 31
  }

  /** Python's `\d` on ASCII. */
  predicate IsDigit(c: char) {
    '0' <= c <= '9'
  }

  /** Python's `\w` on ASCII: letters, digits and the underscore. */
  predicate IsWordChar(c: char) {
    'a' <= c <= 'z' || 'A' <= c <= 'Z' || IsDigit(c) || c == '_'
  }

  /** Python's `str.lower` on one ASCII character. */
  function LowerChar(c: char): char {
    if 'A' <= c <= 'Z' then (c as int + 32) as char else c
  }

  /** Python's `str.lower` on ASCII text. */
  function Lower(s: string): string {
    seq(|s|, i requires 0 <= i < |s| => LowerChar(s[i]))
  }

  /** `p` occurs in `s` starting at index `i`. */
  predicate OccursAt(p: string, s: string, i: int) {
    0 <= i && i + |p| <= |s| && s[i..i + |p|] == p
  }

  /** Every character of `s[a..b]` is whitespace. */
  predicate AllSpace(s: string, a: int, b: int)
    requires 0 <= a <= b <= |s|
  {
    forall k :: a <= k < b ==> IsSpace(s[k])
  }

  /** Every character of `s[a..b]` is a digit. */
  predicate AllDigits(s: string, a: int, b: int)
    requires 0 <= a <= b <= |s|
  {
    forall k :: a <= k < b ==> IsDigit(s[k])
  }

  /** Every character of `s[a..b]` is a word character. */
  predicate AllWord(s: string, a: int, b: int)
    requires 0 <= a <= b <= |s|
  {
    forall k :: a <= k < b ==> IsWordChar(s[k])
  }

  /** No line feed in `s[a..b]`: what the regular expression `.*` may skip. */
  predicate NoNewline(s: string, a: int, b: int)
    requires 0 <= a <= b <= |s|
  {
    forall k :: a <= k < b ==> s[k] != '\n'
  }

  /** End of the maximal run of whitespace of `s` that starts at `i`. */
  function SpaceRunEnd(s: string, i: nat): (e: nat)
    requires i <= |s|
    ensures i <= e <= |s| && AllSpace(s, i, e)
    ensures e == |s| || !IsSpace(s[e])
    decreases |s| - i
  {
    if i < |s| && IsSpace(s[i]) then SpaceRunEnd(s, i + 1) else i
  }

  /** A whitespace run from `i` that stops before a non-space (or at the end)
      is the maximal one. */
  lemma {:induction false} SpaceRunEndIs(s: string, i: nat, e: nat)
    requires i <= e <= |s| && AllSpace(s, i, e)
    requires e == |s| || !IsSpace(s[e])
    ensures SpaceRunEnd(s, i) == e
    decreases e - i
  {
    if i < e {
      SpaceRunEndIs(s, i + 1, e);
    }
  }

  /** End of the maximal run of word characters of `s` that starts at `i`. */
  function WordRunEnd(s: string, i: nat): (e: nat)
    requires i <= |s|
    ensures i <= e <= |s| && AllWord(s, i, e)
    ensures e == |s| || !IsWordChar(s[e])
    decreases |s| - i
  {
    if i < |s| && IsWordChar(s[i]) then WordRunEnd(s, i + 1) else i
  }

  /** Python's `a < b` on strings: lexicographic order of code points, a proper
      prefix coming first. */
  predicate Below(a: string, b: string) {
    if a == [] then b != []
    else b != [] && (a[0] < b[0] || (a[0] == b[0] && Below(a[1..], b[1..])))
  }

  lemma {:induction false} BelowIrreflexive(a: string)
    ensures !Below(a, a)
  {
    if a != [] {
      BelowIrreflexive(a[1..]);
    }
  }

  lemma {:induction false} BelowTransitive(a: string, b: string, c: string)
    requires Below(a, b) && Below(b, c)
    ensures Below(a, c)
  {
    if a != [] && a[0] == b[0] && b[0] == c[0] {
      BelowTransitive(a[1..], b[1..], c[1..]);
    }
  }

  lemma {:induction false} BelowTotal(a: string, b: string)
    ensures a == b || Below(a, b) || Below(b, a)
  {
    if a != [] && b != [] && a[0] == b[0] {
      BelowTotal(a[1..], b[1..]);
      if a[1..] == b[1..] {
        assert a == [a[0]] + a[1..] && b == [b[0]] + b[1..];
      }
    }
  }

  /** Every finite non-empty set of strings has a least element. */
  lemma {:induction false} LeastExists(s: set<string>)
    requires s != {}
    ensures exists m :: m in s && forall o :: o in s && o != m ==> Below(m, o)
    decreases |s|
  {
    var x :| x in s;
    var rest := s - {x};
    if rest == {} {
      forall o | o in s
        ensures o == x
      {
        assert o !in rest;
      }
    } else {
      LeastExists(rest);
      var m :| m in rest && forall o :: o in rest && o != m ==> Below(m, o);
      BelowTotal(m, x);
      if Below(m, x) {
        assert forall o :: o in s && o != m ==> Below(m, o);
      } else {
        forall o | o in s && o != x
          ensures Below(x, o)
        {
          if o != m {
            BelowTransitive(x, m, o);
          }
        }
      }
    }
  }
}
