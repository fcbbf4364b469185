/**
 * The two helpers of server/config/database.php that carry logic: validateDate, a
 * parse-then-format round trip through PHP's DateTime, and sanitizeInput.
 */
module Database {
  import opened Common
  import opened Gregorian
  import opened PhpBuiltins

  // ---------------------------------------------------------------------------------------
  // validateDate($date): DateTime::createFromFormat('Y-m-d', $date) and ->format('Y-m-d') === $date
  // ---------------------------------------------------------------------------------------

  /** End of the run of at most max digits starting at i (the parser reads digits greedily). */
  function DigitRun(s: string, i: nat, max: nat): (j: nat)
    requires i <= |s|
    ensures i <= j <= |s| && j - i <= max
    ensures forall k :: i <= k < j ==> IsDigit(s[k])
    ensures j < |s| && j - i < max ==> !IsDigit(s[j])
    decreases max
  {
    if max > 0 && i < |s| && IsDigit(s[i]) then DigitRun(s, i + 1, max - 1) else i
  }

  /**
   * createFromFormat('Y-m-d', s): up to four year digits, '-', one or two month digits, '-',
   * one or two day digits, and nothing after. The numbers are not range-checked here.
   */
  function ParseYmd(s: string): (r: Option<Date>)
    ensures r.Some? ==> 0 <= r.value.year <= 9999 && 0 <= r.value.month <= 99 && 0 <= r.value.day <= 99
  {
    var a := DigitRun(s, 0, 4);
    if a == 0 || a >= |s| || s[a] != '-' then None
    else
      var b := DigitRun(s, a + 1, 2);
      if b == a + 1 || b >= |s| || s[b] != '-' then None
      else
        var c := DigitRun(s, b + 1, 2);
        if c == b + 1 || c != |s| then None
        else
          RunValueBound(s, 0, a, 4);
          RunValueBound(s, a + 1, b, 2);
          RunValueBound(s, b + 1, c, 2);
          assert s[0..a] == s[..a];
          Some(Date(Value(s[..a]), Value(s[a + 1..b]), Value(s[b + 1..c])))
  }

  /** A run of at most max digits has a value below 10^max. */
  lemma RunValueBound(s: string, i: nat, j: nat, max: nat)
    requires i <= j <= |s| && j - i <= max && max <= 4
    requires forall k :: i <= k < j ==> IsDigit(s[k])
    ensures AllDigits(s[i..j]) && Value(s[i..j]) < (if max == 4 then 10000 else Pow10(max))
  {
    ValueBound(s[i..j]);
    Pow10Monotone(j - i, max);
    assert Pow10(4) == 10000;
  }

  lemma {:induction false} Pow10Monotone(a: nat, b: nat)
    requires a <= b
    ensures Pow10(a) <= Pow10(b)
    decreases b
  {
    if a < b {
      Pow10Monotone(a, b - 1);
    }
  }

  /**
   * What DateTime makes of out-of-range fields: months beyond 12 (or 0) roll into the next
   * (previous) year, then days beyond the month's length (or 0) roll into the next (previous) month.
   */
  function Normalize(raw: Date): (d: Date)
    ensures IsValid(d)
  {
    var m0 := raw.month - 1;
    AddDays(Date(raw.year + m0 / 12, m0 % 12 + 1, 1), raw.day - 1)
  }

  lemma NormalizeKeepsValid(d: Date)
    requires IsValid(d)
    ensures Normalize(d) == d
  {
    AddDaysInMonth(d.year, d.month, d.day - 1);
  }

  /** format('Y'): at least four digits, with a '-' in front of negative years. */
  function YearText(y: int): string {
    if 0 <= y <= 9999 then DigitsOf(y, 4)
    else if y > 9999 then NatText(y)
    else "-" + DigitsOf(-y, if Width(-y) < 4 then 4 else Width(-y))
  }

  /** format('Y-m-d') of a real date. */
  function FormatYmd(d: Date): string
    requires IsValid(d)
  {
    YearText(d.year) + "-" + DigitsOf(d.month, 2) + "-" + DigitsOf(d.day, 2)
  }

  /** validateDate($date) with its default format 'Y-m-d'. */
  predicate ValidateDate(s: string) {
    match ParseYmd(s)
    case None => false
    case Some(raw) => FormatYmd(Normalize(raw)) == s
  }

  /** The layout YYYY-MM-DD: ten characters, digits everywhere except '-' at positions 4 and 7. */
  predicate IsoShape(s: string) {
    |s| == 10 && AllDigits(s[..4]) && s[4] == '-' && AllDigits(s[5..7]) && s[7] == '-' && AllDigits(s[8..])
  }

  /** The fields an IsoShape string spells, read as numbers. */
  function IsoFields(s: string): Date
    requires IsoShape(s)
  {
    Date(Value(s[..4]), Value(s[5..7]), Value(s[8..]))
  }

  /** Calendar date in the ISO 8601 extended format YYYY-MM-DD (section 4.1.2.2 of ISO 8601:2004). */
  predicate IsoCalendarDate(s: string) {
    IsoShape(s) && IsValid(IsoFields(s))
  }

  lemma DigitRunFull(s: string, i: nat, max: nat)
    requires i + max <= |s|
    requires forall k :: i <= k < i + max ==> IsDigit(s[k])
    ensures DigitRun(s, i, max) == i + max
  {
  }

  /** Formatting a real date and parsing it back gives the date, for years the parser can read. */
  lemma ParseFormat(d: Date)
    requires IsValid(d)
    ensures ParseYmd(FormatYmd(d)) == if 0 <= d.year <= 9999 then Some(d) else None
  {
    if 0 <= d.year <= 9999 {
      ParseFormatFourDigits(d);
    } else if d.year > 9999 {
      ParseFormatLongYear(d);
    } else {
      assert FormatYmd(d)[0] == '-';
    }
  }

  lemma ParseFormatFourDigits(d: Date)
    requires IsValid(d) && 0 <= d.year <= 9999
    ensures ParseYmd(FormatYmd(d)) == Some(d)
  {
    var s := FormatYmd(d);
    var y, m, dd := DigitsOf(d.year, 4), DigitsOf(d.month, 2), DigitsOf(d.day, 2);
    assert s == y + "-" + m + "-" + dd;
    DashedPieces(y, m, dd);
    assert IsoShape(s);
    IsoParses(s);
    assert Pow10(2) == 100 && Pow10(4) == 10000;
    ValueOfDigitsOf(d.year, 4);
    ValueOfDigitsOf(d.month, 2);
    ValueOfDigitsOf(d.day, 2);
    assert IsoFields(s) == d;
  }

  lemma ParseFormatLongYear(d: Date)
    requires IsValid(d) && d.year > 9999
    ensures ParseYmd(FormatYmd(d)).None?
  {
    var s := FormatYmd(d);
    var y := YearText(d.year);
    assert s == y + "-" + DigitsOf(d.month, 2) + "-" + DigitsOf(d.day, 2);
    assert Width(d.year) >= 5 by {
      assert Width(d.year / 10) >= 2;
      assert Width(d.year / 100) >= 2;
      assert Width(d.year / 1000) >= 2;
    }
    assert |y| >= 5 && y == s[..|y|];
    DigitRunFull(s, 0, 4);
    assert IsDigit(s[4]);
  }

  lemma IsoParses(s: string)
    requires IsoShape(s)
    ensures ParseYmd(s) == Some(IsoFields(s))
  {
    assert s[0..4] == s[..4] && s[8..10] == s[8..];
    SliceDigits(s, 0, 4);
    SliceDigits(s, 5, 7);
    SliceDigits(s, 8, 10);
    DigitRunFull(s, 0, 4);
    DigitRunFull(s, 5, 2);
    DigitRunFull(s, 8, 2);
  }

  lemma SliceDigits(s: string, i: nat, j: nat)
    requires i <= j <= |s| && AllDigits(s[i..j])
    ensures forall k :: i <= k < j ==> IsDigit(s[k])
  {
    forall k | i <= k < j
      ensures IsDigit(s[k])
    {
      assert s[i..j][k - i] == s[k];
    }
  }

  lemma IsoFormats(s: string)
    requires IsoCalendarDate(s)
    ensures FormatYmd(IsoFields(s)) == s
  {
    var y, m, d := s[..4], s[5..7], s[8..];
    assert Pow10(4) == 10000;
    ValueBound(y);
    DigitsOfValue(y);
    DigitsOfValue(m);
    DigitsOfValue(d);
    assert YearText(Value(y)) == y;
    assert FormatYmd(IsoFields(s)) == y + "-" + m + "-" + d;
    assert s == y + "-" + m + "-" + d;
  }

  /** A strict YYYY-MM-DD spelling of a real date passes validateDate. */
  lemma IsoIsValidated(s: string)
    requires IsoCalendarDate(s)
    ensures ValidateDate(s)
  {
    IsoParses(s);
    NormalizeKeepsValid(IsoFields(s));
    IsoFormats(s);
  }

  /** Whatever validateDate accepts is such a spelling. */
  lemma ValidatedIsIso(s: string)
    requires ValidateDate(s)
    ensures IsoCalendarDate(s)
  {
    var raw := ParseYmd(s).value;
    var n := Normalize(raw);
    assert FormatYmd(n) == s;
    ParseFormat(n);
    assert n == raw && 0 <= n.year <= 9999;
    var y, m, d := DigitsOf(n.year, 4), DigitsOf(n.month, 2), DigitsOf(n.day, 2);
    assert s == y + "-" + m + "-" + d;
    DashedPieces(y, m, d);
    assert Pow10(2) == 100 && Pow10(4) == 10000;
    ValueOfDigitsOf(n.year, 4);
    ValueOfDigitsOf(n.month, 2);
    ValueOfDigitsOf(n.day, 2);
    assert IsoFields(s) == n;
  }

  /** The pieces of y-m-d sit at the positions IsoShape reads. */
  lemma DashedPieces(y: string, m: string, d: string)
    requires |y| == 4 && |m| == 2 && |d| == 2
    ensures var s := y + "-" + m + "-" + d;
      |s| == 10 && s[..4] == y && s[4] == '-' && s[5..7] == m && s[7] == '-' && s[8..] == d
  {
  }

  /** A validated date has digits at both ends, so trim leaves it alone, and it is not empty(). */
  lemma ValidatedIsTrimmed(s: string)
    requires ValidateDate(s)
    ensures Trim(s) == s && !Empty(s)
  {
    ValidatedHasEnds(s);
    DigitEndsTrimmed(s);
    LongNotEmpty(s);
  }

  lemma LongNotEmpty(s: string)
    requires |s| >= 2
    ensures !Empty(s)
  {
  }

  lemma ValidatedHasEnds(s: string)
    requires ValidateDate(s)
    ensures |s| == 10 && IsDigit(s[0]) && IsDigit(s[9])
  {
    ValidatedIsIso(s);
    IsoShapeEnds(s);
  }

  lemma IsoShapeEnds(s: string)
    requires IsoShape(s)
    ensures |s| == 10 && IsDigit(s[0]) && IsDigit(s[9])
  {
    assert s[..4][0] == s[0] && s[8..][1] == s[9];
  }

  lemma DigitEndsTrimmed(s: string)
    requires |s| >= 1 && IsDigit(s[0]) && IsDigit(s[|s| - 1])
    ensures Trim(s) == s
  {
    TrimNoOp(s);
  }

  /** validateDate holds exactly of the strict YYYY-MM-DD spellings of real Gregorian dates. */
  lemma ValidateDateIsIso(s: string)
    ensures ValidateDate(s) <==> IsoCalendarDate(s)
  {
    if IsoCalendarDate(s) {
      IsoIsValidated(s);
    }
    if ValidateDate(s) {
      ValidatedIsIso(s);
    }
  }

  /** Formatting any real date of years 0..9999 gives a string validateDate accepts. */
  lemma FormattedIsValidated(d: Date)
    requires IsValid(d) && 0 <= d.year <= 9999
    ensures ValidateDate(FormatYmd(d))
  {
    ParseFormat(d);
    NormalizeKeepsValid(d);
  }

  lemma ValidateLeapDay()
    ensures ValidateDate("2024-02-29")
  {
    assert FormatYmd(Date(2024, 2, 29)) == "2024-02-29";
    FormattedIsValidated(Date(2024, 2, 29));
  }

  lemma ValidateMayFirst()
    ensures ValidateDate("2024-05-01")
  {
    assert FormatYmd(Date(2024, 5, 1)) == "2024-05-01";
    FormattedIsValidated(Date(2024, 5, 1));
  }

  /** The ten-character spelling of three field values, even when they are no real date. */
  function Spelling(y: nat, m: nat, d: nat): string {
    DigitsOf(y, 4) + "-" + DigitsOf(m, 2) + "-" + DigitsOf(d, 2)
  }

  lemma SpellingFields(y: nat, m: nat, d: nat)
    requires y < 10000 && m < 100 && d < 100
    ensures IsoShape(Spelling(y, m, d)) && IsoFields(Spelling(y, m, d)) == Date(y, m, d)
  {
    var s := Spelling(y, m, d);
    assert Pow10(2) == 100 && Pow10(4) == 10000;
    assert s[..4] == DigitsOf(y, 4) && s[5..7] == DigitsOf(m, 2) && s[8..] == DigitsOf(d, 2);
    ValueOfDigitsOf(y, 4);
    ValueOfDigitsOf(m, 2);
    ValueOfDigitsOf(d, 2);
  }

  /** The overflowed date 2023-03-01 formats differently, so the round trip fails. */
  lemma RejectNonLeapDay()
    ensures !ValidateDate("2023-02-29")
  {
    SpellingFields(2023, 2, 29);
    assert Spelling(2023, 2, 29) == "2023-02-29";
    ValidateDateIsIso("2023-02-29");
  }

  /** Single-digit months parse but do not survive the zero-padding format. */
  lemma RejectUnpaddedMonth()
    ensures !ValidateDate("2024-2-05")
  {
    ValidateDateIsIso("2024-2-05");
  }

  /** The calendar date a stored or submitted date string denotes, when validateDate accepts it. */
  function DateOf(s: string): (r: Option<Date>)
    ensures r.Some? <==> ValidateDate(s)
    ensures r.Some? ==> IsValid(r.value) && FormatYmd(r.value) == s
  {
    if ValidateDate(s) then
      var raw := ParseYmd(s).value;
      ParseFormat(Normalize(raw));
      Some(raw)
    else None
  }

  /** Distinct valid date strings denote distinct dates. */
  lemma DateOfInjective(s: string, t: string)
    requires ValidateDate(s) && ValidateDate(t)
    ensures DateOf(s) == DateOf(t) <==> s == t
  {
  }

  // ---------------------------------------------------------------------------------------
  // sanitizeInput($data)
  // ---------------------------------------------------------------------------------------

  /** sanitizeInput on a string: trim, then stripslashes, then htmlspecialchars(ENT_QUOTES). */
  function SanitizeText(s: string): string {
    HtmlSpecialChars(StripSlashes(Trim(s)))
  }

  /** A PHP value as sanitizeInput sees it: a string, or an array of key/value entries in order. */
  datatype PhpValue = Text(text: string) | List(entries: seq<(string, PhpValue)>)

  /** sanitizeInput($data): array_map over arrays (keys kept), the string chain on strings. */
  function SanitizeInput(v: PhpValue): (r: PhpValue)
    ensures v.Text? <==> r.Text?
    ensures v.List? ==> (|r.entries| == |v.entries|
      && forall i :: 0 <= i < |v.entries| ==> r.entries[i].0 == v.entries[i].0)
  {
    match v
    case Text(s) => Text(SanitizeText(s))
    case List(es) => List(seq(|es|, i requires 0 <= i < |es| => (es[i].0, SanitizeInput(es[i].1))))
  }

  /** Every string inside a sanitised value is HTML-safe. */
  predicate AllTextSafe(v: PhpValue) {
    match v
    case Text(s) => HtmlSafe(s)
    case List(es) => forall i :: 0 <= i < |es| ==> AllTextSafe(es[i].1)
  }

  lemma SanitizeTextSafe(s: string)
    ensures HtmlSafe(SanitizeText(s))
  {
    HtmlSpecialCharsSafe(StripSlashes(Trim(s)));
  }

  lemma {:induction false} SanitizeInputSafe(v: PhpValue)
    ensures AllTextSafe(SanitizeInput(v))
  {
    match v
    case Text(s) => SanitizeTextSafe(s);
    case List(es) =>
      forall i | 0 <= i < |es|
        ensures AllTextSafe(SanitizeInput(v).entries[i].1)
      {
        SanitizeInputSafe(es[i].1);
      }
  }

  /** Leading and trailing whitespace is gone before anything is escaped. */
  lemma SanitizeTrimsFirst(s: string)
    ensures SanitizeText(s) == SanitizeText(Trim(s))
  {
    TrimIdempotent(s);
  }

  /** A string with nothing for trim to remove is only unslashed and escaped. */
  lemma SanitizeUntrimmed(s: string)
    requires |s| >= 1 && !IsTrimChar(s[0]) && !IsTrimChar(s[|s| - 1])
    ensures SanitizeText(s) == HtmlSpecialChars(StripSlashes(s))
  {
    TrimNoOp(s);
  }

  /** A title of blanks sanitises to the empty string. */
  lemma SanitizeBlank()
    ensures SanitizeText("   ") == ""
  {
    BlanksTrimmed();
  }

  lemma BlanksTrimmed()
    ensures Trim("   ") == ""
  {
    assert TrimLeft("   ") == TrimLeft("  ") == TrimLeft(" ") == "";
  }

  /** A backslash escape disappears, and the quote it protected is then HTML-escaped. */
  lemma SanitizeStripsBeforeEscaping()
    ensures SanitizeText("\\'") == "&#039;"
  {
    SanitizeUntrimmed("\\'");
    assert StripSlashes("\\'") == "'";
    assert HtmlSpecialChars("'") == "&#039;";
  }

  /** Trimming comes first, so a space freed by stripslashes survives at the start. */
  lemma SanitizeCanStartWithSpace()
    ensures SanitizeText("\\ x") == " x"
  {
    SanitizeUntrimmed("\\ x");
    assert StripSlashes("\\ x") == " x";
  }

  /** Sanitising is not idempotent: an ampersand is encoded again each time. */
  lemma SanitizeNotIdempotent()
    ensures SanitizeText("&") == "&amp;"
    ensures SanitizeText(SanitizeText("&")) == "&amp;amp;"
    ensures SanitizeText(SanitizeText("&")) != SanitizeText("&")
  {
    SanitizeAmpersand();
    SanitizeEntity();
  }

  lemma SanitizeAmpersand()
    ensures SanitizeText("&") == "&amp;"
  {
    SanitizeUntrimmed("&");
    assert StripSlashes("&") == "&";
  }

  lemma SanitizeEntity()
    ensures SanitizeText("&amp;") == "&amp;amp;"
  {
    SanitizeUntrimmed("&amp;");
    StripSlashesNoBackslash("&amp;");
    assert HtmlSpecialChars("&amp;") == "&amp;" + HtmlSpecialChars("amp;");
  }
}
