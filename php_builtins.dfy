/**
 * The PHP runtime functions the server code leans on, on strings of characters:
 * trim, empty, strtolower, stripslashes, htmlspecialchars(ENT_QUOTES) and is_numeric.
 */
module PhpBuiltins {
  import opened Common

  /** The characters trim() strips by default: space, tab, newline, carriage return, NUL and vertical tab. */
  predicate IsTrimChar(c: char) {
    c == ' ' || c == '\t' || c == '\n' || c == '\r' || c == '\0' || c == 11 as char
  }

  function TrimLeft(s: string): (r: string)
    ensures |r| <= |s| && r == s[|s| - |r|..]
    ensures forall k :: 0 <= k < |s| - |r| ==> IsTrimChar(s[k])
    ensures r != [] ==> !IsTrimChar(r[0])
  {
    if s != [] && IsTrimChar(s[0]) then
      var r := TrimLeft(s[1..]);
      assert forall k :: 1 <= k < |s| - |r| ==> s[k] == s[1..][k - 1];
      r
    else s
  }

  function TrimRight(s: string): (r: string)
    ensures |r| <= |s| && r == s[..|r|]
    ensures forall k :: |r| <= k < |s| ==> IsTrimChar(s[k])
    ensures r != [] ==> !IsTrimChar(r[|r| - 1])
  {
    if s != [] && IsTrimChar(s[|s| - 1]) then
      var r := TrimRight(s[..|s| - 1]);
      assert forall k :: |r| <= k < |s| - 1 ==> s[k] == s[..|s| - 1][k];
      r
    else s
  }

  /** trim($s): s without its leading and trailing trim characters. */
  function Trim(s: string): (r: string)
    ensures r != [] ==> !IsTrimChar(r[0]) && !IsTrimChar(r[|r| - 1])
    ensures exists i, j :: (0 <= i <= j <= |s| && r == s[i..j]
      && (forall k :: 0 <= k < i ==> IsTrimChar(s[k]))
      && (forall k :: j <= k < |s| ==> IsTrimChar(s[k])))
  {
    var l := TrimLeft(s);
    var r := TrimRight(l);
    var i := |s| - |l|;
    assert r == s[i..i + |r|];
    r
  }

  lemma TrimIdempotent(s: string)
    ensures Trim(Trim(s)) == Trim(s)
  {
  }

  lemma TrimNoOp(s: string)
    requires s == [] || (!IsTrimChar(s[0]) && !IsTrimChar(s[|s| - 1]))
    ensures Trim(s) == s
  {
  }

  /** empty($s) for a string: true exactly for "" and "0". */
  predicate Empty(s: string) {
    s == "" || s == "0"
  }

  /** empty() of a value that may be absent (null or a missing key). */
  predicate EmptyOpt(o: Option<string>) {
    o.None? || Empty(o.value)
  }

  function LowerChar(c: char): char {
    if 'A' <= c <= 'Z' then (c as int + 32) as char else c
  }

  /** strtolower($s): ASCII upper-case letters to lower case, every other character kept. */
  function ToLower(s: string): (r: string)
    ensures |r| == |s|
    ensures forall i :: 0 <= i < |s| ==> r[i] == LowerChar(s[i])
  {
    seq(|s|, i requires 0 <= i < |s| => LowerChar(s[i]))
  }

  /**
   * stripslashes($s): a backslash is dropped and the character after it kept, except that
   * a backslash before '0' yields a NUL character and a trailing lone backslash disappears.
   */
  function StripSlashes(s: string): (r: string)
    ensures |r| <= |s|
  {
    if s == [] then []
    else if s[0] == '\\' then
      (if |s| == 1 then [] else (if s[1] == '0' then ['\0'] else [s[1]]) + StripSlashes(s[2..]))
    else [s[0]] + StripSlashes(s[1..])
  }

  lemma {:induction false} StripSlashesNoBackslash(s: string)
    requires forall i :: 0 <= i < |s| ==> s[i] != '\\'
    ensures StripSlashes(s) == s
  {
    if s != [] {
      StripSlashesNoBackslash(s[1..]);
    }
  }

  function EscapeChar(c: char): string {
    if c == '&' then "&amp;"
    else if c == '"' then "&quot;"
    else if c == '\'' then "&#039;"
    else if c == '<' then "&lt;"
    else if c == '>' then "&gt;"
    else [c]
  }

  /** htmlspecialchars($s, ENT_QUOTES, 'UTF-8') with its default double encoding. */
  function HtmlSpecialChars(s: string): string {
    if s == [] then [] else EscapeChar(s[0]) + HtmlSpecialChars(s[1..])
  }

  predicate IsEntity(e: string) {
    e == "&amp;" || e == "&quot;" || e == "&#039;" || e == "&lt;" || e == "&gt;"
  }

  /** s[i..] starts with one of the five entities htmlspecialchars writes. */
  predicate EntityAt(s: string, i: nat)
    requires i <= |s|
  {
    exists j :: i <= j <= |s| && IsEntity(s[i..j])
  }

  /** No raw markup character, and every '&' starts an entity. */
  predicate HtmlSafe(s: string) {
    forall i :: 0 <= i < |s| ==>
      s[i] != '<' && s[i] != '>' && s[i] != '"' && s[i] != '\'' && (s[i] == '&' ==> EntityAt(s, i))
  }

  lemma HtmlSafeConcat(a: string, b: string)
    requires HtmlSafe(a) && HtmlSafe(b)
    ensures HtmlSafe(a + b)
  {
    var s := a + b;
    forall i | 0 <= i < |s| && s[i] == '&'
      ensures EntityAt(s, i)
    {
      if i < |a| {
        var e :| i <= e <= |a| && IsEntity(a[i..e]);
        assert s[i..e] == a[i..e];
      } else {
        var i' := i - |a|;
        assert b[i'] == '&';
        var e :| i' <= e <= |b| && IsEntity(b[i'..e]);
        assert s[i..|a| + e] == b[i'..e];
      }
    }
  }

  lemma EscapeCharSafe(c: char)
    ensures HtmlSafe(EscapeChar(c))
  {
    var e := EscapeChar(c);
    if c == '&' || c == '"' || c == '\'' || c == '<' || c == '>' {
      assert e[0..|e|] == e;
      assert EntityAt(e, 0);
    }
  }

  lemma {:induction false} HtmlSpecialCharsSafe(s: string)
    ensures HtmlSafe(HtmlSpecialChars(s))
  {
    if s != [] {
      EscapeCharSafe(s[0]);
      HtmlSpecialCharsSafe(s[1..]);
      HtmlSafeConcat(EscapeChar(s[0]), HtmlSpecialChars(s[1..]));
    }
  }

  /** The whitespace is_numeric() accepts around a number: space, \t, \n, \r, \v and \f. */
  predicate IsNumericSpace(c: char) {
    c == ' ' || c == '\t' || c == '\n' || c == '\r' || c == 11 as char || c == 12 as char
  }

  function SkipSpaces(s: string, i: nat): (j: nat)
    requires i <= |s|
    ensures i <= j <= |s|
    ensures forall k :: i <= k < j ==> IsNumericSpace(s[k])
    ensures j < |s| ==> !IsNumericSpace(s[j])
    decreases |s| - i
  {
    if i < |s| && IsNumericSpace(s[i]) then SkipSpaces(s, i + 1) else i
  }

  function SkipDigits(s: string, i: nat): (j: nat)
    requires i <= |s|
    ensures i <= j <= |s|
    ensures forall k :: i <= k < j ==> IsDigit(s[k])
    ensures j < |s| ==> !IsDigit(s[j])
    decreases |s| - i
  {
    if i < |s| && IsDigit(s[i]) then SkipDigits(s, i + 1) else i
  }

  /** End of an optional exponent [eE][+-]?digits starting at i, or i itself when there is none. */
  function ExponentEnd(s: string, i: nat): (j: nat)
    requires i <= |s|
    ensures i <= j <= |s|
  {
    if i < |s| && (s[i] == 'e' || s[i] == 'E') then
      var k := if i + 1 < |s| && (s[i + 1] == '+' || s[i + 1] == '-') then i + 2 else i + 1;
      var m := SkipDigits(s, k);
      if m > k then m else i
    else i
  }

  /**
   * is_numeric($s) as of PHP 8: optional surrounding whitespace, an optional sign,
   * digits with an optional fraction (or a fraction alone), and an optional exponent.
   */
  predicate IsNumeric(s: string) {
    var a := SkipSpaces(s, 0);
    var b := if a < |s| && (s[a] == '+' || s[a] == '-') then a + 1 else a;
    var c := SkipDigits(s, b);
    var d := if c < |s| && s[c] == '.' then SkipDigits(s, c + 1) else c;
    var fraction := if d > c then d - c - 1 else 0;
    (c - b) + fraction > 0 && SkipSpaces(s, ExponentEnd(s, d)) == |s|
  }
}
