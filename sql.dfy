/**
 * The pieces of MySQL's behaviour the queries depend on: reading a number out of a string
 * compared with a numeric column, LIKE patterns, and lexicographic ORDER BY keys.
 */
module Sql {
  import opened Common
  import opened PhpBuiltins

  // ---------------------------------------------------------------------------------------
  // String-to-number conversion
  // ---------------------------------------------------------------------------------------

  /** End and value of an optional exponent [eE][+-]?digits at i; (i, 0) when there is none. */
  function ExponentAt(s: string, i: nat): (r: (nat, int))
    requires i <= |s|
    ensures r.0 == ExponentEnd(s, i)
  {
    if i < |s| && (s[i] == 'e' || s[i] == 'E') then
      var signed := i + 1 < |s| && (s[i + 1] == '+' || s[i + 1] == '-');
      var k := if signed then i + 2 else i + 1;
      var m := SkipDigits(s, k);
      var v: int := if m > k then Value(s[k..m]) else 0;
      if m > k then (m, if signed && s[i + 1] == '-' then -v else v)
      else (i, 0)
    else (i, 0)
  }

  /** m * 10^x for a possibly negative exponent x. */
  function Scale(m: real, x: int): real {
    if x >= 0 then m * Pow10(x) as real else m / Pow10(-x) as real
  }

  /**
   * The number at the start of s: optional leading whitespace, a sign, digits with an optional
   * fraction and an optional exponent; 0 when s starts with no number. This is how MySQL reads
   * a string compared with a numeric column, and, on the strings is_numeric() accepts, the value
   * PHP compares with a number.
   */
  function LeadingNumber(s: string): real {
    var a := SkipSpaces(s, 0);
    var b := if a < |s| && (s[a] == '+' || s[a] == '-') then a + 1 else a;
    var c := SkipDigits(s, b);
    var d := if c < |s| && s[c] == '.' then SkipDigits(s, c + 1) else c;
    var fraction := if d > c then Value(s[c + 1..d]) as real / Pow10(d - c - 1) as real else 0.0;
    var magnitude := Scale(Value(s[b..c]) as real + fraction, ExponentAt(s, d).1);
    if b > a && s[a] == '-' then -magnitude else magnitude
  }

  lemma SkipDigitsToEnd(s: string, i: nat)
    requires i <= |s|
    requires forall k :: i <= k < |s| ==> IsDigit(s[k])
    ensures SkipDigits(s, i) == |s|
  {
  }

  /** A string of one optional '-' followed by digits denotes what the digits say, signed. */
  lemma LeadingNumberOfSignedDigits(s: string, b: nat)
    requires b < |s| && (b == 0 || (b == 1 && s[0] == '-'))
    requires forall k :: b <= k < |s| ==> IsDigit(s[k])
    ensures IsNumeric(s)
    ensures LeadingNumber(s) == if b == 1 then -(Value(s[b..]) as real) else Value(s[b..]) as real
  {
    assert !IsNumericSpace(s[0]);
    assert SkipSpaces(s, 0) == 0;
    SkipDigitsToEnd(s, b);
    assert ExponentAt(s, |s|) == (|s|, 0);
    assert s[b..|s|] == s[b..];
    assert Scale(Value(s[b..]) as real + 0.0, 0) == Value(s[b..]) as real;
  }

  /** The decimal text of an integer is numeric and denotes that integer. */
  lemma LeadingNumberOfIntText(n: int)
    ensures IsNumeric(IntText(n))
    ensures LeadingNumber(IntText(n)) == n as real
  {
    if n < 0 {
      LeadingNumberOfNegativeText(n);
    } else {
      var s := IntText(n);
      assert s[0..] == NatText(n);
      NatTextValue(n);
      LeadingNumberOfSignedDigits(s, 0);
    }
  }

  lemma LeadingNumberOfNegativeText(n: int)
    requires n < 0
    ensures IsNumeric(IntText(n))
    ensures LeadingNumber(IntText(n)) == n as real
  {
    var s := IntText(n);
    assert s == "-" + NatText(-n);
    assert s[1..] == NatText(-n);
    NatTextValue(-n);
    LeadingNumberOfMinusDigits(s, -n);
  }

  /** A minus sign followed by the digits of m reads as -m. */
  lemma LeadingNumberOfMinusDigits(s: string, m: nat)
    requires |s| >= 2 && s[0] == '-' && AllDigits(s[1..]) && Value(s[1..]) == m
    ensures IsNumeric(s) && LeadingNumber(s) == -(m as real)
  {
    forall k | 1 <= k < |s|
      ensures IsDigit(s[k])
    {
      assert s[k] == s[1..][k - 1];
    }
    LeadingNumberOfSignedDigits(s, 1);
  }

  /** A numeric prefix is read and the rest ignored, as MySQL does with '5abc'. */
  lemma LeadingNumberIgnoresTail()
    ensures LeadingNumber("5abc") == 5.0
    ensures LeadingNumber("abc") == 0.0
  {
    var s := "5abc";
    assert SkipSpaces(s, 0) == 0;
    assert SkipDigits(s, 0) == 1;
    assert ExponentAt(s, 1) == (1, 0);
    assert s[0..1] == "5";
    assert Value("5") == 5;
    assert Scale(5.0 + 0.0, 0) == 5.0;
    assert SkipSpaces("abc", 0) == 0;
    assert SkipDigits("abc", 0) == 0;
    assert ExponentAt("abc", 0) == (0, 0);
    assert "abc"[0..0] == "";
  }

  // ---------------------------------------------------------------------------------------
  // LIKE
  // ---------------------------------------------------------------------------------------

  /**
   * `text LIKE pattern` with '%' for any run of characters, '_' for one character and '\'
   * escaping the character after it (a trailing '\' stands for itself).
   */
  predicate LikeMatch(pattern: string, text: string)
    decreases |pattern| + |text|
  {
    if pattern == [] then text == []
    else if pattern[0] == '%' then
      LikeMatch(pattern[1..], text) || (text != [] && LikeMatch(pattern, text[1..]))
    else if pattern[0] == '_' then
      text != [] && LikeMatch(pattern[1..], text[1..])
    else if pattern[0] == '\\' && |pattern| >= 2 then
      text != [] && text[0] == pattern[1] && LikeMatch(pattern[2..], text[1..])
    else
      text != [] && text[0] == pattern[0] && LikeMatch(pattern[1..], text[1..])
  }

  /** No character of s means anything special to LIKE. */
  predicate IsLiteral(s: string) {
    forall i :: 0 <= i < |s| ==> s[i] != '%' && s[i] != '_' && s[i] != '\\'
  }

  predicate IsSubstring(t: string, s: string) {
    exists i, j :: 0 <= i <= j <= |s| && s[i..j] == t
  }

  lemma {:induction false} PercentMatchesAll(s: string)
    ensures LikeMatch("%", s)
  {
    if s != [] {
      PercentMatchesAll(s[1..]);
    }
  }

  lemma {:induction false} LiteralPrefix(p: string, s: string)
    requires IsLiteral(p)
    ensures LikeMatch(p + "%", s) <==> |p| <= |s| && s[..|p|] == p
  {
    if p == [] {
      PercentMatchesAll(s);
      assert p + "%" == "%";
    } else {
      assert (p + "%")[1..] == p[1..] + "%";
      if s != [] {
        LiteralPrefix(p[1..], s[1..]);
        if |p| <= |s| && s[0] == p[0] {
          assert s[..|p|] == [s[0]] + s[1..][..|p| - 1];
        }
      }
    }
  }

  lemma {:induction false} LeadingPercent(q: string, s: string)
    ensures LikeMatch("%" + q, s) <==> exists k :: 0 <= k <= |s| && LikeMatch(q, s[k..])
  {
    assert ("%" + q)[1..] == q;
    if s == [] {
      assert s[0..] == s;
    } else {
      LeadingPercent(q, s[1..]);
      assert s[0..] == s;
      if exists k :: 0 <= k <= |s| && LikeMatch(q, s[k..]) {
        var k :| 0 <= k <= |s| && LikeMatch(q, s[k..]);
        if k > 0 {
          assert s[1..][k - 1..] == s[k..];
        }
      }
      if exists k :: 0 <= k <= |s[1..]| && LikeMatch(q, s[1..][k..]) {
        var k :| 0 <= k <= |s[1..]| && LikeMatch(q, s[1..][k..]);
        assert s[1..][k..] == s[k + 1..];
      }
    }
  }

  /** With no wildcard or escape in the term, LIKE '%term%' is exactly substring search. */
  lemma LikeContains(term: string, s: string)
    requires IsLiteral(term)
    ensures LikeMatch("%" + term + "%", s) <==> IsSubstring(term, s)
  {
    assert "%" + term + "%" == "%" + (term + "%");
    LeadingPercent(term + "%", s);
    if LikeMatch("%" + term + "%", s) {
      var k :| 0 <= k <= |s| && LikeMatch(term + "%", s[k..]);
      LiteralPrefix(term, s[k..]);
      assert s[k..k + |term|] == term;
    }
    if IsSubstring(term, s) {
      var i, j :| 0 <= i <= j <= |s| && s[i..j] == term;
      LiteralPrefix(term, s[i..]);
      assert s[i..][..|term|] == s[i..j];
    }
  }

  /** '_' in a search term is a wildcard: '%a_c%' matches "abc", which does not contain "a_c". */
  lemma UnderscoreIsWildcard()
    ensures LikeMatch("%a_c%", "abc")
    ensures !IsSubstring("a_c", "abc")
  {
    PercentMatchesAll("");
    assert LikeMatch("c%", "c");
    assert LikeMatch("_c%", "bc");
    assert LikeMatch("a_c%", "abc");
    assert "%a_c%"[1..] == "a_c%";
  }

  // ---------------------------------------------------------------------------------------
  // ORDER BY on lists of integer sort values
  // ---------------------------------------------------------------------------------------

  /** a sorts no later than b: lexicographic comparison of the sort values, column by column. */
  predicate LexLe(a: seq<int>, b: seq<int>) {
    a == [] || (b != [] && (a[0] < b[0] || (a[0] == b[0] && LexLe(a[1..], b[1..]))))
  }

  lemma {:induction false} LexLeTotal(a: seq<int>, b: seq<int>)
    requires |a| == |b|
    ensures LexLe(a, b) || LexLe(b, a)
  {
    if a != [] && a[0] == b[0] {
      LexLeTotal(a[1..], b[1..]);
    }
  }

  lemma {:induction false} LexLeTrans(a: seq<int>, b: seq<int>, c: seq<int>)
    requires |a| == |b| == |c|
    requires LexLe(a, b) && LexLe(b, c)
    ensures LexLe(a, c)
  {
    if a != [] && a[0] == b[0] && b[0] == c[0] {
      LexLeTrans(a[1..], b[1..], c[1..]);
    }
  }

  /** The ORDER BY meaning of two-column and three-column keys. */
  lemma LexLe3(a: seq<int>, b: seq<int>)
    requires |a| == |b| == 3
    ensures LexLe(a, b) <==>
      a[0] < b[0] || (a[0] == b[0] && (a[1] < b[1] || (a[1] == b[1] && a[2] <= b[2])))
  {
    LexLe2(a[1..], b[1..]);
  }

  lemma LexLe2(a: seq<int>, b: seq<int>)
    requires |a| == |b| == 2
    ensures LexLe(a, b) <==> a[0] < b[0] || (a[0] == b[0] && a[1] <= b[1])
  {
    LexLe1(a[1..], b[1..]);
  }

  lemma LexLe1(a: seq<int>, b: seq<int>)
    requires |a| == |b| == 1
    ensures LexLe(a, b) <==> a[0] <= b[0]
  {
    assert a[1..] == [];
  }
}
