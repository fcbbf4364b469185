/**
 * The proleptic Gregorian calendar, with astronomical year numbering (year 0 exists).
 * Both PHP's DateTime and JavaScript's Date compute in this calendar.
 */
module Gregorian {

  datatype Date = Date(year: int, month: int, day: int)

  predicate IsLeapYear(y: int) {
    y % 4 == 0 && (y % 100 != 0 || y % 400 == 0)
  }

  function DaysInMonth(y: int, m: int): (n: int)
    requires 1 <= m <= 12
    ensures 28 <= n <= 31
    ensures n == 29 <==> m == 2 && IsLeapYear(y)
  {
    if m == 2 then (if IsLeapYear(y) then 29 else 28)
    else if m == 4 || m == 6 || m == 9 || m == 11 then 30
    else 31
  }

  /** A real calendar day: a month 1..12 and a day within that month. */
  predicate IsValid(d: Date) {
    1 <= d.month <= 12 && 1 <= d.day <= DaysInMonth(d.year, d.month)
  }

  function NextDay(d: Date): (r: Date)
    requires IsValid(d)
    ensures IsValid(r)
  {
    if d.day < DaysInMonth(d.year, d.month) then d.(day := d.day + 1)
    else if d.month < 12 then Date(d.year, d.month + 1, 1)
    else Date(d.year + 1, 1, 1)
  }

  function PrevDay(d: Date): (r: Date)
    requires IsValid(d)
    ensures IsValid(r)
  {
    if d.day > 1 then d.(day := d.day - 1)
    else if d.month > 1 then Date(d.year, d.month - 1, DaysInMonth(d.year, d.month - 1))
    else Date(d.year - 1, 12, 31)
  }

  /** The day n days after d (before d when n is negative), as Date.setDate and PHP's overflow both roll over. */
  function AddDays(d: Date, n: int): (r: Date)
    requires IsValid(d)
    ensures IsValid(r)
    decreases if n < 0 then -n else n
  {
    if n == 0 then d
    else if n > 0 then AddDays(NextDay(d), n - 1)
    else AddDays(PrevDay(d), n + 1)
  }

  /** Days from 0000-01-01 to the first day of year y. */
  function DaysBeforeYear(y: int): int {
    365 * y + (y + 3) / 4 - (y + 99) / 100 + (y + 399) / 400
  }

  function DaysBeforeMonth(y: int, m: int): int
    requires 1 <= m <= 12
  {
    var table := [0, 31, 59, 90, 120, 151, 181, 212, 243, 273, 304, 334];
    table[m - 1] + (if m > 2 && IsLeapYear(y) then 1 else 0)
  }

  /** Days from 0000-01-01 to d; 1970-01-01 is day 719528. */
  function DayNumber(d: Date): int
    requires 1 <= d.month <= 12
  {
    DaysBeforeYear(d.year) + DaysBeforeMonth(d.year, d.month) + d.day - 1
  }

  /** Day of the week as JavaScript's getDay() numbers it: 0 is Sunday, 6 is Saturday. */
  function Weekday(d: Date): (w: int)
    requires 1 <= d.month <= 12
    ensures 0 <= w < 7
  {
    (DayNumber(d) + 6) % 7
  }

  /** Calibration: 1970-01-01 was a Thursday and 2024-01-01 a Monday. */
  lemma WeekdayCalibration()
    ensures Weekday(Date(1970, 1, 1)) == 4
    ensures Weekday(Date(2024, 1, 1)) == 1
  {
  }

  /** a falls on an earlier day than b. */
  predicate Precedes(a: Date, b: Date) {
    a.year < b.year || (a.year == b.year && (a.month < b.month || (a.month == b.month && a.day < b.day)))
  }

  /** A sort value that orders real dates chronologically. */
  function Ordinal(d: Date): int {
    d.year * 10000 + d.month * 100 + d.day
  }

  lemma OrdinalIsChronological(a: Date, b: Date)
    requires IsValid(a) && IsValid(b)
    ensures Ordinal(a) < Ordinal(b) <==> Precedes(a, b)
    ensures Ordinal(a) == Ordinal(b) <==> a == b
  {
  }

  /** (y + 3) / 4 grows by one from year y to y + 1 exactly when 4 divides y. */
  lemma FourStep(y: int)
    ensures (y + 4) / 4 - (y + 3) / 4 == (if y % 4 == 0 then 1 else 0)
  {
    assert y == 4 * (y / 4) + y % 4;
  }

  /** (y + 99) / 100 grows by one from year y to y + 1 exactly when 100 divides y. */
  lemma HundredStep(y: int)
    ensures (y + 100) / 100 - (y + 99) / 100 == (if y % 100 == 0 then 1 else 0)
  {
    assert y == 100 * (y / 100) + y % 100;
  }

  /** (y + 399) / 400 grows by one from year y to y + 1 exactly when 400 divides y. */
  lemma FourHundredStep(y: int)
    ensures (y + 400) / 400 - (y + 399) / 400 == (if y % 400 == 0 then 1 else 0)
  {
    assert y == 400 * (y / 400) + y % 400;
  }

  /** Multiples of 400 are multiples of 100. */
  lemma HundredDividesFourHundred(y: int)
    requires y % 400 == 0
    ensures y % 100 == 0
  {
    var q := y / 400;
    assert y == 100 * (4 * q) + 0;
  }

  /** Multiples of 100 are multiples of 4. */
  lemma FourDividesHundred(y: int)
    requires y % 100 == 0
    ensures y % 4 == 0
  {
    var q := y / 100;
    assert y == 4 * (25 * q) + 0;
  }

  lemma YearLength(y: int)
    ensures DaysBeforeYear(y + 1) == DaysBeforeYear(y) + (if IsLeapYear(y) then 366 else 365)
  {
    FourStep(y);
    HundredStep(y);
    FourHundredStep(y);
    if y % 400 == 0 {
      HundredDividesFourHundred(y);
    }
    if y % 100 == 0 {
      FourDividesHundred(y);
    }
  }

  lemma NextDayNumber(d: Date)
    requires IsValid(d)
    ensures DayNumber(NextDay(d)) == DayNumber(d) + 1
  {
    if d.day == DaysInMonth(d.year, d.month) && d.month == 12 {
      YearLength(d.year);
    }
  }

  lemma PrevDayNumber(d: Date)
    requires IsValid(d)
    ensures DayNumber(PrevDay(d)) == DayNumber(d) - 1
  {
    if d.day == 1 && d.month == 1 {
      YearLength(d.year - 1);
    }
  }

  lemma {:induction false} AddDaysNumber(d: Date, n: int)
    requires IsValid(d)
    ensures DayNumber(AddDays(d, n)) == DayNumber(d) + n
    decreases if n < 0 then -n else n
  {
    if n > 0 {
      NextDayNumber(d);
      AddDaysNumber(NextDay(d), n - 1);
    } else if n < 0 {
      PrevDayNumber(d);
      AddDaysNumber(PrevDay(d), n + 1);
    }
  }

  lemma ModShift(x: int, n: int)
    ensures (x + n) % 7 == (x % 7 + n) % 7
  {
    var q := x / 7;
    assert x == 7 * q + x % 7;
    assert (7 * q + (x % 7 + n)) % 7 == (x % 7 + n) % 7;
  }

  lemma WeekdayAfter(d: Date, n: int)
    requires IsValid(d)
    ensures Weekday(AddDays(d, n)) == (Weekday(d) + n) % 7
  {
    AddDaysNumber(d, n);
    ModShift(DayNumber(d) + 6, n);
  }

  /** Counting forward from the first of a month stays inside that month. */
  lemma {:induction false} AddDaysInMonth(y: int, m: int, k: int)
    requires 1 <= m <= 12 && 0 <= k < DaysInMonth(y, m)
    ensures AddDays(Date(y, m, 1), k) == Date(y, m, 1 + k)
  {
    if k > 0 {
      AddDaysInMonth(y, m, k - 1);
      AddDaysShift(Date(y, m, 1), k - 1);
    }
  }

  /** Day k of a month whose first day falls on weekday w falls on weekday (w + k - 1) % 7. */
  lemma ColumnOfDay(y: int, m: int, k: int, w: int)
    requires 1 <= m <= 12 && 1 <= k <= DaysInMonth(y, m) && w == Weekday(Date(y, m, 1))
    ensures (w + k - 1) % 7 == Weekday(Date(y, m, k))
  {
    AddDaysInMonth(y, m, k - 1);
    WeekdayAfter(Date(y, m, 1), k - 1);
  }

  /** AddDays(d, k + 1) is the day after AddDays(d, k), for k >= 0. */
  lemma {:induction false} AddDaysShift(d: Date, k: nat)
    requires IsValid(d)
    ensures AddDays(d, k + 1) == NextDay(AddDays(d, k))
    decreases k
  {
    if k > 0 {
      AddDaysShift(NextDay(d), k - 1);
    }
  }

  lemma PrevOfNext(d: Date)
    requires IsValid(d)
    ensures PrevDay(NextDay(d)) == d
  {
  }

  lemma NextOfPrev(d: Date)
    requires IsValid(d)
    ensures NextDay(PrevDay(d)) == d
  {
  }

  /** Starting one day later is counting one day more. */
  lemma AddDaysFromNext(d: Date, n: int)
    requires IsValid(d)
    ensures AddDays(NextDay(d), n) == AddDays(d, n + 1)
  {
    if n < 0 {
      PrevOfNext(d);
    }
  }

  /** Starting one day earlier is counting one day less. */
  lemma AddDaysFromPrev(d: Date, n: int)
    requires IsValid(d)
    ensures AddDays(PrevDay(d), n) == AddDays(d, n - 1)
  {
    if n > 0 {
      NextOfPrev(d);
    }
  }

  /** Counting a days and then b days is counting a + b days. */
  lemma {:induction false} AddDaysAdd(d: Date, a: int, b: int)
    requires IsValid(d)
    ensures AddDays(AddDays(d, a), b) == AddDays(d, a + b)
    decreases if a < 0 then -a else a
  {
    if a > 0 {
      AddDaysAdd(NextDay(d), a - 1, b);
      AddDaysFromNext(d, a - 1 + b);
    } else if a < 0 {
      AddDaysAdd(PrevDay(d), a + 1, b);
      AddDaysFromPrev(d, a + 1 + b);
    }
  }
}
