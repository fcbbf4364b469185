/** Shared values: an Option type and decimal digit strings. */
module Common {

  datatype Option<T> = None | Some(value: T) {
    function GetOr(default: T): T {
      match this
      case Some(v) => v
      case None => default
    }
  }

  /**
   * The JSON envelope every server endpoint answers with (sendResponse): a success flag, a
   * message, and the operation's data when there is any.
   */
  datatype Response<T> = Response(success: bool, message: string, data: Option<T>)

  function Min(a: int, b: int): (m: int)
    ensures m <= a && m <= b && (m == a || m == b)
  {
    if a <= b then a else b
  }

  predicate IsDigit(c: char) {
    '0' <= c <= '9'
  }

  predicate AllDigits(s: string) {
    forall i :: 0 <= i < |s| ==> IsDigit(s[i])
  }

  function DigitValue(c: char): (n: nat)
    requires IsDigit(c)
    ensures n < 10
  {
    c as int - '0' as int
  }

  function DigitChar(n: nat): (c: char)
    requires n < 10
    ensures IsDigit(c) && DigitValue(c) == n
  {
    ('0' as int + n) as char
  }

  /** The number a string of decimal digits denotes (leading zeros allowed). */
  function Value(s: string): nat
    requires AllDigits(s)
  {
    if s == [] then 0 else Value(s[..|s| - 1]) * 10 + DigitValue(s[|s| - 1])
  }

  function Pow10(k: nat): (p: nat)
    ensures p >= 1
  {
    if k == 0 then 1 else 10 * Pow10(k - 1)
  }

  /** The last w decimal digits of n, zero-padded on the left to exactly w characters. */
  function DigitsOf(n: nat, w: nat): (r: string)
    ensures |r| == w && AllDigits(r)
  {
    if w == 0 then "" else DigitsOf(n / 10, w - 1) + [DigitChar(n % 10)]
  }

  lemma {:induction false} ValueBound(s: string)
    requires AllDigits(s)
    ensures Value(s) < Pow10(|s|)
  {
    if s != [] {
      ValueBound(s[..|s| - 1]);
    }
  }

  lemma {:induction false} ValueOfDigitsOf(n: nat, w: nat)
    requires n < Pow10(w)
    ensures Value(DigitsOf(n, w)) == n
  {
    if w > 0 {
      var r := DigitsOf(n, w);
      assert r[..w - 1] == DigitsOf(n / 10, w - 1);
      ValueOfDigitsOf(n / 10, w - 1);
    }
  }

  lemma {:induction false} DigitsOfValue(s: string)
    requires AllDigits(s)
    ensures DigitsOf(Value(s), |s|) == s
  {
    if s != [] {
      var init := s[..|s| - 1];
      DigitsOfValue(init);
      assert s == init + [s[|s| - 1]];
    }
  }

  /** Number of decimal digits needed to write n. */
  function Width(n: nat): (w: nat)
    ensures 1 <= w && n < Pow10(w)
    ensures n >= 10 ==> w >= 2
  {
    if n < 10 then 1 else 1 + Width(n / 10)
  }

  /** Decimal rendering of a natural number, as PHP's string interpolation and JavaScript's String() write it. */
  function NatText(n: nat): (r: string)
    ensures AllDigits(r) && |r| >= 1
  {
    DigitsOf(n, Width(n))
  }

  /** The digits NatText writes denote the number. */
  lemma NatTextValue(n: nat)
    ensures Value(NatText(n)) == n
  {
    ValueOfDigitsOf(n, Width(n));
  }

  /** Decimal rendering of an integer, with a leading '-' when negative. */
  function IntText(i: int): string {
    if i < 0 then "-" + NatText(-i) else NatText(i)
  }

  lemma {:induction false} WidthOfFourDigits(n: nat)
    requires 1000 <= n <= 9999
    ensures Width(n) == 4
  {
    assert Width(n / 1000) == 1;
    assert Width(n / 100) == 2;
    assert Width(n / 10) == 3;
  }
}
