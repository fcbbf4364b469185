/**
 * The pure helpers of client/js/utils.js: formatDate, the month and day name tables,
 * the shape check of validateDateFormat and validateTaskData; and the JavaScript Date and
 * String operations the client code calls on the way.
 */
module ClientUtils {
  import opened Common
  import opened Gregorian
  import opened PhpBuiltins
  import opened Database
  import opened TaskModel
  import opened TasksApi

  // ---------------------------------------------------------------------------------------
  // JavaScript strings and dates
  // ---------------------------------------------------------------------------------------

  /** The characters String.prototype.trim removes: ECMAScript WhiteSpace and LineTerminator. */
  predicate IsJsSpace(c: char) {
    || c == '\t' || c == '\n' || c == 11 as char || c == 12 as char || c == '\r' || c == ' '
    || c == 0xA0 as char || c == 0x1680 as char || (0x2000 as char <= c <= 0x200A as char)
    || c == 0x2028 as char || c == 0x2029 as char || c == 0x202F as char || c == 0x205F as char
    || c == 0x3000 as char || c == 0xFEFF as char
  }

  function JsTrimLeft(s: string): (r: string)
    ensures |r| <= |s| && r == s[|s| - |r|..]
    ensures forall k :: 0 <= k < |s| - |r| ==> IsJsSpace(s[k])
    ensures r != [] ==> !IsJsSpace(r[0])
  {
    if s != [] && IsJsSpace(s[0]) then
      var r := JsTrimLeft(s[1..]);
      assert forall k :: 1 <= k < |s| - |r| ==> s[k] == s[1..][k - 1];
      r
    else s
  }

  function JsTrimRight(s: string): (r: string)
    ensures |r| <= |s| && r == s[..|r|]
    ensures forall k :: |r| <= k < |s| ==> IsJsSpace(s[k])
    ensures r != [] ==> !IsJsSpace(r[|r| - 1])
  {
    if s != [] && IsJsSpace(s[|s| - 1]) then
      var r := JsTrimRight(s[..|s| - 1]);
      assert forall k :: |r| <= k < |s| - 1 ==> s[k] == s[..|s| - 1][k];
      r
    else s
  }

  /** s.trim(): s without its leading and trailing whitespace. */
  function JsTrim(s: string): (r: string)
    ensures r != [] ==> !IsJsSpace(r[0]) && !IsJsSpace(r[|r| - 1])
    ensures exists i, j :: (0 <= i <= j <= |s| && r == s[i..j]
      && (forall k :: 0 <= k < i ==> IsJsSpace(s[k]))
      && (forall k :: j <= k < |s| ==> IsJsSpace(s[k])))
  {
    var l := JsTrimLeft(s);
    var r := JsTrimRight(l);
    var i := |s| - |l|;
    assert l == s[i..];
    assert r == s[i..i + |r|];
    r
  }

  /** trim() gives '' exactly for strings made of whitespace only. */
  lemma JsTrimEmpty(s: string)
    ensures JsTrim(s) == "" <==> forall k :: 0 <= k < |s| ==> IsJsSpace(s[k])
  {
  }

  lemma JsTrimIdempotent(s: string)
    ensures JsTrim(JsTrim(s)) == JsTrim(s)
  {
  }

  /** A character beyond U+FFFF, which a JavaScript string stores as a surrogate pair. */
  predicate IsAstral(c: char) {
    c as int >= 0x10000
  }

  /** s.length: UTF-16 code units, two for each character beyond U+FFFF. */
  function JsLength(s: string): (n: nat)
    ensures |s| <= n <= 2 * |s|
  {
    if s == [] then 0 else (if IsAstral(s[0]) then 2 else 1) + JsLength(s[1..])
  }

  /** Without characters beyond U+FFFF, length counts characters. */
  lemma {:induction false} JsLengthBasic(s: string)
    requires forall k :: 0 <= k < |s| ==> !IsAstral(s[k])
    ensures JsLength(s) == |s|
  {
    if s != [] {
      assert forall k :: 0 <= k < |s[1..]| ==> s[1..][k] == s[k + 1];
      JsLengthBasic(s[1..]);
    }
  }

  /** length >= 2 holds for two characters or more, and for one character beyond U+FFFF. */
  lemma JsLengthAtLeastTwo(s: string)
    ensures JsLength(s) >= 2 <==> |s| >= 2 || (|s| == 1 && IsAstral(s[0]))
  {
    if |s| == 1 {
      assert s[1..] == [];
    }
  }

  /** A JavaScript value read from a form or a JSON field: a string, or undefined/null. */
  predicate Truthy(v: Option<string>) {
    v.Some? && v.value != ""
  }

  /** The year `new Date(y, m, d)` means: 0..99 stand for 1900..1999. */
  function JsYear(y: int): int {
    if 0 <= y <= 99 then 1900 + y else y
  }

  /**
   * `new Date(y, m, d)` with a month index m counted from 0: months and days outside their
   * ranges roll over into neighbouring months and years.
   */
  function JsNewDate(y: int, m: int, d: int): (r: Date)
    ensures IsValid(r)
  {
    Normalize(Date(JsYear(y), m + 1, d))
  }

  /** `date.setDate(n)`: day n of date's month, rolling over when n is outside the month. */
  function SetDate(date: Date, n: int): (r: Date)
    ensures IsValid(r)
  {
    Normalize(Date(date.year, date.month, n))
  }

  /** `new Date(y, m, 1)` is the first of month m + 1. */
  lemma FirstOfMonth(y: int, m: int)
    requires 0 <= m <= 11
    ensures JsNewDate(y, m, 1) == Date(JsYear(y), m + 1, 1)
  {
    NormalizeKeepsValid(Date(JsYear(y), m + 1, 1));
  }

  /** `new Date(y, m + 1, 0)` is the last day of month m + 1, also for December. */
  lemma DayZeroOfNextMonth(y: int, m: int)
    requires 0 <= m <= 11
    ensures JsNewDate(y, m + 1, 0) == Date(JsYear(y), m + 1, DaysInMonth(JsYear(y), m + 1))
  {
    var year := JsYear(y);
    var next := if m < 11 then Date(year, m + 2, 1) else Date(year + 1, 1, 1);
    assert Normalize(Date(year, m + 2, 0)) == AddDays(next, -1);
    assert AddDays(next, -1) == PrevDay(next);
  }

  /** `d.setDate(d.getDate() + k)` moves d by k days, across month and year ends. */
  lemma SetDateMoves(d: Date, k: int)
    requires IsValid(d)
    ensures SetDate(d, d.day + k) == AddDays(d, k)
  {
    var first := Date(d.year, d.month, 1);
    var m0 := d.month - 1;
    assert m0 / 12 == 0 && m0 % 12 + 1 == d.month;
    assert SetDate(d, d.day + k) == AddDays(first, d.day - 1 + k);
    AddDaysInMonth(d.year, d.month, d.day - 1);
    AddDaysAdd(first, d.day - 1, k);
  }

  // ---------------------------------------------------------------------------------------
  // formatDate, getMonthName, getDayName
  // ---------------------------------------------------------------------------------------

  /**
   * formatDate(date): the year as String() writes it, then the month number (getMonth() + 1)
   * and the day, both padded to two digits.
   */
  function FormatDate(d: Date): string
    requires IsValid(d)
  {
    IntText(d.year) + "-" + DigitsOf(d.month, 2) + "-" + DigitsOf(d.day, 2)
  }

  /**
   * For four-digit years formatDate writes what the server's date check accepts, and the
   * date it denotes is the one formatted.
   */
  lemma FormatDateIsServerDate(d: Date)
    requires IsValid(d) && 1000 <= d.year <= 9999
    ensures FormatDate(d) == FormatYmd(d)
    ensures ValidateDate(FormatDate(d)) && DateOf(FormatDate(d)) == Some(d)
  {
    WidthOfFourDigits(d.year);
    FormattedIsValidated(d);
    ParseFormat(d);
  }

  /** Years below 1000 are not padded, so the server refuses what formatDate writes. */
  lemma ShortYearRefused()
    ensures !ValidateDate(FormatDate(Date(999, 1, 1)))
  {
    var s := FormatDate(Date(999, 1, 1));
    assert |NatText(999)| == 3 by {
      assert Width(999) == 1 + Width(99) == 2 + Width(9) == 3;
    }
    assert |s| == 9;
    ValidateDateIsIso(s);
  }

  const MonthNames: seq<string> := ["January", "February", "March", "April", "May", "June",
    "July", "August", "September", "October", "November", "December"]

  const DayNames: seq<string> := ["Sunday", "Monday", "Tuesday", "Wednesday", "Thursday",
    "Friday", "Saturday"]

  /** getMonthName(m): the name of month index m; undefined outside 0..11. */
  function GetMonthName(m: int): (r: Option<string>)
    ensures r.Some? <==> 0 <= m < 12
    ensures r.Some? ==> r.value == MonthNames[m] && forall k :: 0 <= k < 12 && k != m ==> MonthNames[k] != r.value
  {
    if 0 <= m < |MonthNames| then Some(MonthNames[m]) else None
  }

  /** getDayName(d): the name of weekday d, Sunday first; undefined outside 0..6. */
  function GetDayName(d: int): (r: Option<string>)
    ensures r.Some? <==> 0 <= d < 7
    ensures r.Some? ==> r.value == DayNames[d] && forall k :: 0 <= k < 7 && k != d ==> DayNames[k] != r.value
  {
    if 0 <= d < |DayNames| then Some(DayNames[d]) else None
  }

  /** The weekday getDay() gives a date has a name; 1970-01-01 was a Thursday. */
  lemma DayNameOfDate(d: Date)
    requires IsValid(d)
    ensures GetDayName(Weekday(d)).Some?
    ensures GetDayName(Weekday(Date(1970, 1, 1))) == Some("Thursday")
  {
    WeekdayCalibration();
  }

  // ---------------------------------------------------------------------------------------
  // validateDateFormat
  // ---------------------------------------------------------------------------------------

  /** One position of a regular expression without repetition: \d or a literal character. */
  datatype CharClass = AnyDigit | Literal(c: char)

  /** /^\d{4}-\d{2}-\d{2}$/ spelled out position by position. */
  const DatePattern: seq<CharClass> := [AnyDigit, AnyDigit, AnyDigit, AnyDigit, Literal('-'),
    AnyDigit, AnyDigit, Literal('-'), AnyDigit, AnyDigit]

  predicate ClassMatches(k: CharClass, c: char) {
    match k
    case AnyDigit => IsDigit(c)
    case Literal(l) => c == l
  }

  /** regex.test(s) for an anchored pattern: same length, every character in its class. */
  predicate PatternMatches(pattern: seq<CharClass>, s: string) {
    |s| == |pattern| && forall i :: 0 <= i < |s| ==> ClassMatches(pattern[i], s[i])
  }

  /**
   * The `new Date(s)` half of validateDateFormat, on a string the pattern accepted: the
   * date-only form of the ECMAScript Date Time String Format of ECMA-262
   * has months 01..12 and days 01..31, and a text with an element out of those bounds is an
   * invalid Date in every engine.
   */
  predicate ElementsLegal(s: string)
    requires PatternMatches(DatePattern, s)
  {
    var month := 10 * DigitValue(s[5]) + DigitValue(s[6]);
    var day := 10 * DigitValue(s[8]) + DigitValue(s[9]);
    1 <= month <= 12 && 1 <= day <= 31
  }

  /** A two-digit text denotes ten times its first digit plus its second. */
  lemma TwoDigitValue(t: string)
    requires |t| == 2 && AllDigits(t)
    ensures Value(t) == 10 * DigitValue(t[0]) + DigitValue(t[1])
  {
    assert t[..1] == [t[0]] && [t[0]][..0] == [];
    assert Value([t[0]]) == DigitValue(t[0]);
  }

  /** validateDateFormat: exactly YYYY-MM-DD in digits, then a Date that is not NaN. */
  predicate ValidateDateFormat(s: string) {
    PatternMatches(DatePattern, s) && ElementsLegal(s)
  }

  /** Month and day within the bounds the ECMAScript date-only form allows. */
  predicate LegalElements(d: Date) {
    1 <= d.month <= 12 && 1 <= d.day <= 31
  }

  /** The client accepts the server's YYYY-MM-DD layout with a month 1..12 and a day 1..31. */
  lemma DateFormatMeaning(s: string)
    ensures ValidateDateFormat(s) <==> IsoShape(s) && LegalElements(IsoFields(s))
  {
    if |s| == 10 {
      assert AllDigits(s[..4]) <==> IsDigit(s[0]) && IsDigit(s[1]) && IsDigit(s[2]) && IsDigit(s[3]) by {
        assert s[..4][0] == s[0] && s[..4][1] == s[1] && s[..4][2] == s[2] && s[..4][3] == s[3];
      }
      assert AllDigits(s[5..7]) <==> IsDigit(s[5]) && IsDigit(s[6]) by {
        assert s[5..7][0] == s[5] && s[5..7][1] == s[6];
      }
      assert AllDigits(s[8..]) <==> IsDigit(s[8]) && IsDigit(s[9]) by {
        assert s[8..][0] == s[8] && s[8..][1] == s[9];
      }
      if IsoShape(s) {
        TwoDigitValue(s[5..7]);
        TwoDigitValue(s[8..]);
      }
    }
  }

  /** Every date the server accepts passes the client's check. */
  lemma ServerDatesPassShape(s: string)
    requires ValidateDate(s)
    ensures ValidateDateFormat(s)
  {
    ValidateDateIsIso(s);
    DateFormatMeaning(s);
  }

  /** The spelling of fields within the legal bounds passes the client's check. */
  lemma SpelledAccepted(y: nat, m: nat, d: nat)
    requires y < 10000 && 1 <= m <= 12 && 1 <= d <= 31
    ensures ValidateDateFormat(Spelling(y, m, d))
  {
    SpellingFields(y, m, d);
    DateFormatMeaning(Spelling(y, m, d));
  }

  /** The spelling of fields outside those bounds has the shape and fails the check. */
  lemma SpelledRefused(y: nat, m: nat, d: nat)
    requires y < 10000 && m < 100 && d < 100 && !(1 <= m <= 12 && 1 <= d <= 31)
    ensures IsoShape(Spelling(y, m, d)) && !ValidateDateFormat(Spelling(y, m, d))
  {
    SpellingFields(y, m, d);
    DateFormatMeaning(Spelling(y, m, d));
  }

  /** The client's check alone lets through a day that the month does not have. */
  lemma ShapeIsNotCalendar()
    ensures ValidateDateFormat("2023-02-30") && !ValidateDate("2023-02-30")
  {
    FebThirtiethShaped();
    FebThirtiethNoDate();
  }

  lemma FebThirtiethShaped()
    ensures ValidateDateFormat("2023-02-30")
  {
  }

  lemma FebThirtiethNoDate()
    ensures !ValidateDate("2023-02-30")
  {
    SpellingFields(2023, 2, 30);
    assert Spelling(2023, 2, 30) == "2023-02-30";
    ValidateDateIsIso("2023-02-30");
  }

  /** A thirteenth month has the right shape and is still refused. */
  lemma MonthThirteenRefused()
    ensures IsoShape("2023-13-01") && !ValidateDateFormat("2023-13-01")
  {
    assert "2023-13-01"[5..7] == "13";
    assert DigitValue('1') == 1 && DigitValue('3') == 3;
  }

  // ---------------------------------------------------------------------------------------
  // validateTaskData
  // ---------------------------------------------------------------------------------------

  /** The form values validateTaskData looks at; None for undefined or null. */
  datatype TaskForm = TaskForm(
    title: Option<string>,
    taskDate: Option<string>,
    dueDate: Option<string>,
    priority: Option<string>,
    status: Option<string>)

  /** A check of the form: whether it fails, and the message it then adds. */
  datatype Check = Check(fails: bool, message: string)

  /** `!data.title || data.title.trim() === ''` */
  predicate TitleMissing(data: TaskForm) {
    !Truthy(data.title) || JsTrim(data.title.value) == ""
  }

  /** `!data.task_date || !validateDateFormat(data.task_date)` */
  predicate TaskDateBad(data: TaskForm) {
    !Truthy(data.taskDate) || !ValidateDateFormat(data.taskDate.value)
  }

  /** `data.due_date && !validateDateFormat(data.due_date)` */
  predicate DueDateBad(data: TaskForm) {
    Truthy(data.dueDate) && !ValidateDateFormat(data.dueDate.value)
  }

  /** `data.priority && !validPriorities.includes(data.priority)` */
  predicate PriorityBad(data: TaskForm) {
    Truthy(data.priority) && data.priority.value !in ["Low", "Medium", "High"]
  }

  /** `data.status && !validStatuses.includes(data.status)` */
  predicate StatusBad(data: TaskForm) {
    Truthy(data.status) && data.status.value !in ["Pending", "In Progress", "Completed"]
  }

  /** The five checks, in the order validateTaskData makes them. */
  function Checks(data: TaskForm): seq<Check> {
    [Check(TitleMissing(data), "Title is required"),
     Check(TaskDateBad(data), "Valid task date is required"),
     Check(DueDateBad(data), "Due date format is invalid"),
     Check(PriorityBad(data), "Invalid priority value"),
     Check(StatusBad(data), "Invalid status value")]
  }

  /** The messages of the failing checks, in check order. */
  function Failing(checks: seq<Check>): (r: seq<string>)
    ensures |r| <= |checks|
  {
    if checks == [] then []
    else (if checks[0].fails then [checks[0].message] else []) + Failing(checks[1..])
  }

  /**
   * The body of validateTaskData over its five checks in order: each failing check adds its
   * message, and the data is valid exactly when none failed.
   */
  method ReportChecks(c: seq<Check>) returns (valid: bool, errors: seq<string>)
    requires |c| == 5
    ensures errors == Failing(c)
    ensures valid <==> forall i :: 0 <= i < 5 ==> !c[i].fails
  {
    errors := [];
    if c[0].fails {
      errors := errors + [c[0].message];
    }
    assert errors == FailingUpTo(c, 1);
    if c[1].fails {
      errors := errors + [c[1].message];
    }
    assert errors == FailingUpTo(c, 2);
    if c[2].fails {
      errors := errors + [c[2].message];
    }
    assert errors == FailingUpTo(c, 3);
    if c[3].fails {
      errors := errors + [c[3].message];
    }
    assert errors == FailingUpTo(c, 4);
    if c[4].fails {
      errors := errors + [c[4].message];
    }
    assert errors == FailingUpTo(c, 5);
    assert errors == Failing(c) by {
      FailingUpToPrefix(c, 5);
      assert c[..5] == c;
    }
    valid := |errors| == 0;
    assert valid <==> forall i :: 0 <= i < 5 ==> !c[i].fails by {
      FailingNone(c);
    }
  }

  /** validateTaskData: the list of problems, and valid exactly when there is none. */
  method ValidateTaskData(data: TaskForm) returns (valid: bool, errors: seq<string>)
    ensures errors == Failing(Checks(data))
    ensures valid <==> forall i :: 0 <= i < 5 ==> !Checks(data)[i].fails
  {
    valid, errors := ReportChecks(Checks(data));
  }


  /** No message is listed exactly when no check fails. */
  lemma {:induction false} FailingNone(c: seq<Check>)
    ensures Failing(c) == [] <==> forall i :: 0 <= i < |c| ==> !c[i].fails
  {
    if c != [] {
      FailingNone(c[1..]);
      assert forall i :: 1 <= i < |c| ==> c[i] == c[1..][i - 1];
    }
  }

  lemma {:induction false} FailingAppend(a: seq<Check>, b: seq<Check>)
    ensures Failing(a + b) == Failing(a) + Failing(b)
  {
    if a != [] {
      var head: seq<string> := if a[0].fails then [a[0].message] else [];
      assert (a + b)[0] == a[0];
      assert (a + b)[1..] == a[1..] + b;
      FailingAppend(a[1..], b);
      calc {
        Failing(a + b);
        head + Failing(a[1..] + b);
        head + (Failing(a[1..]) + Failing(b));
        (head + Failing(a[1..])) + Failing(b);
        Failing(a) + Failing(b);
      }
    } else {
      assert a + b == b;
    }
  }

  /** One more check adds its message when it fails. */
  lemma FailingPrefix(c: seq<Check>, k: nat)
    requires k < |c|
    ensures Failing(c[..k + 1]) == Failing(c[..k]) + (if c[k].fails then [c[k].message] else [])
  {
    assert c[..k + 1] == c[..k] + [c[k]];
    FailingAppend(c[..k], [c[k]]);
  }

  /** The messages of the failing checks among the first k, in check order. */
  function FailingUpTo(c: seq<Check>, k: nat): seq<string>
    requires k <= |c|
  {
    if k == 0 then [] else FailingUpTo(c, k - 1) + (if c[k - 1].fails then [c[k - 1].message] else [])
  }

  lemma {:induction false} FailingUpToPrefix(c: seq<Check>, k: nat)
    requires k <= |c|
    ensures FailingUpTo(c, k) == Failing(c[..k])
  {
    if k > 0 {
      FailingUpToPrefix(c, k - 1);
      FailingPrefix(c, k - 1);
    } else {
      assert c[..0] == [];
    }
  }

  /** Every message listed comes from a failing check. */
  lemma {:induction false} FailingFrom(c: seq<Check>, m: string)
    requires m in Failing(c)
    ensures exists i :: 0 <= i < |c| && c[i].fails && c[i].message == m
  {
    if !(c[0].fails && c[0].message == m) {
      FailingFrom(c[1..], m);
      var i :| 0 <= i < |c[1..]| && c[1..][i].fails && c[1..][i].message == m;
      assert c[i + 1] == c[1..][i];
    }
  }

  /** A title that is missing, empty or whitespace only is reported first, whatever else is wrong. */
  lemma BlankTitleReportedFirst(data: TaskForm)
    requires data.title.None? || forall k :: 0 <= k < |data.title.value| ==> IsJsSpace(data.title.value[k])
    ensures Failing(Checks(data)) != [] && Failing(Checks(data))[0] == "Title is required"
  {
    if data.title.Some? {
      JsTrimEmpty(data.title.value);
    }
  }

  /** A check that fails has its message listed. */
  lemma {:induction false} FailingHas(c: seq<Check>, i: nat)
    requires i < |c| && c[i].fails
    ensures c[i].message in Failing(c)
  {
    if i > 0 {
      FailingHas(c[1..], i - 1);
      assert c[1..][i - 1] == c[i];
    }
  }

  /** A message no failing check carries is not listed. */
  lemma FailingLacks(c: seq<Check>, m: string)
    requires forall i :: 0 <= i < |c| && c[i].fails ==> c[i].message != m
    ensures m !in Failing(c)
  {
    if m in Failing(c) {
      FailingFrom(c, m);
    }
  }

  /** An empty or absent priority and status are never errors. */
  lemma EmptyEnumsAccepted(data: TaskForm)
    requires !Truthy(data.priority) && !Truthy(data.status)
    ensures "Invalid priority value" !in Failing(Checks(data))
    ensures "Invalid status value" !in Failing(Checks(data))
  {
    var c := Checks(data);
    assert !c[3].fails && !c[4].fails;
    assert c[0].message != "Invalid priority value" && c[0].message != "Invalid status value";
    assert c[1].message != "Invalid priority value" && c[1].message != "Invalid status value";
    assert c[2].message != "Invalid priority value" && c[2].message != "Invalid status value";
    FailingLacks(c, "Invalid priority value");
    FailingLacks(c, "Invalid status value");
  }

  /** A priority the server would turn into Medium is an error on the client. */
  lemma ClientRejectsWhereServerDefaults(data: TaskForm)
    requires data.priority == Some("Urgent")
    ensures "Invalid priority value" in Failing(Checks(data))
    ensures PriorityOrDefault(data.priority) == Medium
  {
    var c := Checks(data);
    assert c[3].fails;
    FailingHas(c, 3);
  }

  /** Five checks of which none fails list nothing. */
  lemma FailingNoneOfFive(c: seq<Check>)
    requires |c| == 5 && !c[0].fails && !c[1].fails && !c[2].fails && !c[3].fails && !c[4].fails
    ensures Failing(c) == []
  {
    FailingNone(c);
  }

  /** "0" is a truthy title that trimming leaves alone. */
  lemma ZeroTitlePresent(data: TaskForm)
    requires data.title == Some("0")
    ensures !TitleMissing(data)
  {
    JsTrimEmpty(data.title.value);
    assert !IsJsSpace(data.title.value[0]);
  }

  /** A date the server accepts passes the client's task-date check. */
  lemma ServerDateNotBad(data: TaskForm)
    requires data.taskDate.Some? && ValidateDate(data.taskDate.value)
    ensures !TaskDateBad(data)
  {
    ServerDatesPassShape(data.taskDate.value);
  }

  /** The title "0" is truthy and not blank: with a well-formed task date the client reports nothing. */
  lemma ZeroTitleAccepted(date: string)
    requires ValidateDate(date)
    ensures Failing(Checks(TaskForm(Some("0"), Some(date), None, None, None))) == []
  {
    var data := TaskForm(Some("0"), Some(date), None, None, None);
    ZeroTitlePresent(data);
    ServerDateNotBad(data);
    FailingNoneOfFive(Checks(data));
  }

  /**
   * The title "0" is fine for JavaScript but empty() for PHP: the server refuses the request
   * the client let through.
   */
  lemma ZeroTitleRefused(date: string)
    requires ValidateDate(date)
    ensures PrepareFields(TaskInput(None, Some("0"), None, Some(date), None, None, None, None), false)
      == Rejected("Task title is required")
  {
  }
}
