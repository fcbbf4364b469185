/**
 * The month view of the browser client: the month and year it shows, how the arrows move
 * between months, the month it asks the server for, the grid of day cells it draws and the
 * priority dots each cell carries.
 */
module ClientCalendar {
  import opened Common
  import opened Gregorian
  import opened PhpBuiltins
  import opened Database
  import opened TaskModel
  import opened Sql
  import opened Query
  import opened Store
  import opened TasksApi
  import opened ClientUtils

  // ---------------------------------------------------------------------------------------
  // Moving between months
  // ---------------------------------------------------------------------------------------

  /**
   * The month index (0 = January) and year after changeMonth(delta): past December it wraps
   * to January of the next year, before January to December of the previous one.
   */
  function Shifted(month: int, year: int, delta: int): (r: (int, int))
    ensures 0 <= r.0 <= 11
    ensures 0 <= month <= 11 && -1 <= delta <= 1 ==> r.1 * 12 + r.0 == year * 12 + month + delta
  {
    var m := month + delta;
    if m > 11 then (0, year + 1)
    else if m < 0 then (11, year - 1)
    else (m, year)
  }

  /** A step forward and a step back return to the month shown before. */
  lemma ShiftedInverse(month: int, year: int)
    requires 0 <= month <= 11
    ensures var f := Shifted(month, year, 1); Shifted(f.0, f.1, -1) == (month, year)
    ensures var b := Shifted(month, year, -1); Shifted(b.0, b.1, 1) == (month, year)
  {
    var f := Shifted(month, year, 1);
    assert f.1 * 12 + f.0 == year * 12 + month + 1;
    var g := Shifted(f.0, f.1, -1);
    assert g.1 * 12 + g.0 == year * 12 + month;
    var b := Shifted(month, year, -1);
    assert b.1 * 12 + b.0 == year * 12 + month - 1;
    var h := Shifted(b.0, b.1, 1);
    assert h.1 * 12 + h.0 == year * 12 + month;
  }

  /** A jump of more than one month at a time is not exact: two steps from December land on January. */
  lemma LongStepLosesMonths(year: int)
    ensures Shifted(11, year, 2) == (0, year + 1)
    ensures Shifted(0, year, -2) == (11, year - 1)
  {
  }

  // ---------------------------------------------------------------------------------------
  // The month parameter of loadCalendar
  // ---------------------------------------------------------------------------------------

  /**
   * The query strings loadCalendar sends for month index m and year y: `month` is m + 1 and
   * `year` the year, both written as String() writes numbers.
   */
  function MonthQuery(month: int, year: int): (q: (string, string))
    requires 0 <= month <= 11
    ensures NumberInRange(q.0, 1.0, 12.0) && LeadingNumber(q.0) == (month + 1) as real
    ensures IsNumeric(q.1) && LeadingNumber(q.1) == year as real
    ensures NumberInRange(q.1, 2000.0, 2100.0) <==> 2000 <= year <= 2100
  {
    LeadingNumberOfIntText(month + 1);
    LeadingNumberOfIntText(year);
    (IntText(month + 1), IntText(year))
  }

  /**
   * The server accepts the month the calendar asks for exactly when the year lies in
   * 2000..2100 and the query runs, and then answers with the tasks of that month.
   */
  lemma MonthQueryAnswered(month: int, year: int, store: TaskStore, today: Date, col: PriorityColumn, ok: bool)
    requires 0 <= month <= 11 && store.Valid() && IsValid(today)
    ensures var q := MonthQuery(month, year);
      var r := GetTasks(store, Some(q.0), Some(q.1), today, col, ok);
      && (r.success <==> ok && 2000 <= year <= 2100)
      && (r.success ==> MonthAnswer(store.table, col, q.0, q.1, r.data.value)
                        && r.data.value.month == month + 1 && r.data.value.year == year)
  {
    var q := MonthQuery(month, year);
    assert MonthParam(Some(q.0), today) == q.0;
    assert YearParam(Some(q.1), today) == q.1;
    assert ((month + 1) as real).Floor == month + 1;
    assert (year as real).Floor == year;
  }

  // ---------------------------------------------------------------------------------------
  // The grid
  // ---------------------------------------------------------------------------------------

  /** `new Date(y, m, 1).getDay()`: the column of the month's first day, 0 = Sunday. */
  function FirstWeekday(year: int, month: int): (w: int)
    requires 0 <= month <= 11
    ensures 0 <= w < 7
    ensures w == Weekday(Date(JsYear(year), month + 1, 1))
  {
    FirstOfMonth(year, month);
    Weekday(JsNewDate(year, month, 1))
  }

  /** `new Date(y, m + 1, 0).getDate()`: the number of days of month index m. */
  function MonthLength(year: int, month: int): (n: int)
    requires 0 <= month <= 11
    ensures n == DaysInMonth(JsYear(year), month + 1)
    ensures 28 <= n <= 31
  {
    DayZeroOfNextMonth(year, month);
    JsNewDate(year, month + 1, 0).day
  }

  /** The date a day cell stands for: the shown year, then month and day padded to two digits. */
  function CellDate(year: int, month: int, day: int): string
    requires 0 <= month <= 11 && 1 <= day <= 31
  {
    IntText(year) + "-" + DigitsOf(month + 1, 2) + "-" + DigitsOf(day, 2)
  }

  /** Priority class of a dot: "priority-" and the priority name in lower case. */
  function DotClass(p: Priority): (c: string)
    ensures c == "priority-" + ToLower(PriorityName(p))
  {
    "priority-" + ToLower(PriorityName(p))
  }

  lemma DotClassNames()
    ensures DotClass(Low) == "priority-low"
    ensures DotClass(Medium) == "priority-medium"
    ensures DotClass(High) == "priority-high"
  {
    assert ToLower("Low") == "low";
    assert ToLower("Medium") == "medium";
    assert ToLower("High") == "high";
  }

  /** What renderTaskDots draws: one dot per shown task and, when some are not shown, a "+k" badge. */
  datatype Dots = Dots(classes: seq<string>, badge: Option<int>)

  const MaxDots := 3

  /** renderTaskDots(tasks): the first three tasks get a dot, the rest are counted in the badge. */
  function TaskDots(tasks: seq<Task>): (r: Dots)
    ensures |r.classes| == Min(|tasks|, MaxDots)
    ensures forall i :: 0 <= i < |r.classes| ==> r.classes[i] == DotClass(tasks[i].fields.priority)
    ensures r.badge.Some? <==> |tasks| > MaxDots
    ensures |r.classes| + r.badge.GetOr(0) == |tasks|
  {
    if |tasks| == 0 then Dots([], None)
    else
      var visible := tasks[..Min(|tasks|, MaxDots)];
      var remaining := |tasks| - MaxDots;
      Dots(seq(|visible|, i requires 0 <= i < |visible| => DotClass(visible[i].fields.priority)),
           if remaining > 0 then Some(remaining) else None)
  }

  /**
   * `allTasks.filter(task => task.task_date === date)`: the tasks dated `date`, in the order
   * they were loaded.
   */
  function DayTasks(tasks: seq<Task>, date: string): (r: seq<Task>)
    ensures |r| <= |tasks|
  {
    if tasks == [] then []
    else
      var init := DayTasks(tasks[..|tasks| - 1], date);
      var last := tasks[|tasks| - 1];
      if last.fields.taskDate == date then init + [last] else init
  }

  /** The selection holds exactly the loaded tasks of that date. */
  lemma {:induction false} DayTasksMembers(tasks: seq<Task>, date: string)
    ensures forall t :: t in DayTasks(tasks, date) <==> t in tasks && t.fields.taskDate == date
  {
    if tasks != [] {
      var init := tasks[..|tasks| - 1];
      DayTasksMembers(init, date);
      assert tasks == init + [tasks[|tasks| - 1]];
    }
  }

  /** No task of the date, no selection. */
  lemma NoDayTasks(tasks: seq<Task>, date: string)
    requires forall i :: 0 <= i < |tasks| ==> tasks[i].fields.taskDate != date
    ensures DayTasks(tasks, date) == []
  {
    DayTasksMembers(tasks, date);
  }

  /** Filtering a concatenation filters each part: the selection keeps the input order. */
  lemma {:induction false} DayTasksAppend(a: seq<Task>, b: seq<Task>, date: string)
    ensures DayTasks(a + b, date) == DayTasks(a, date) + DayTasks(b, date)
    decreases |b|
  {
    if b == [] {
      assert a + b == a;
    } else {
      var b' := b[..|b| - 1];
      var last := b[|b| - 1];
      assert (a + b)[..|a + b| - 1] == a + b';
      assert (a + b)[|a + b| - 1] == last;
      DayTasksAppend(a, b', date);
    }
  }

  /** One cell of the grid: an empty filler before the first day, or a day; its dots are TaskDots(tasks). */
  datatype Cell =
    | Filler
    | DayCell(day: int, date: string, selected: bool, isToday: bool, tasks: seq<Task>)

  /** createDayCell(day, date, today) with the selected date and the loaded tasks. */
  function MakeDayCell(day: int, date: string, selectedDate: string, today: string, allTasks: seq<Task>): (c: Cell)
  {
    var dayTasks := DayTasks(allTasks, date);
    DayCell(day, date, date == selectedDate, date == today, dayTasks)
  }

  /**
   * A day cell is selected and marked as today by string equality with those dates, lists
   * exactly the loaded tasks of its date, and its dots account for each of them by a dot or
   * the badge.
   */
  lemma DayCellMeaning(day: int, date: string, selectedDate: string, today: string, allTasks: seq<Task>)
    ensures var c := MakeDayCell(day, date, selectedDate, today, allTasks);
      && c.DayCell? && c.day == day && c.date == date
      && (c.selected <==> date == selectedDate)
      && (c.isToday <==> date == today)
      && (forall t :: t in c.tasks <==> t in allTasks && t.fields.taskDate == date)
      && var dots := TaskDots(c.tasks);
         |dots.classes| + dots.badge.GetOr(0) == |c.tasks| && (dots.badge.Some? <==> |c.tasks| > MaxDots)
  {
    DayTasksMembers(allTasks, date);
  }

  lemma AppendAssoc<T>(a: seq<T>, b: seq<T>, c: seq<T>)
    ensures (a + b) + c == a + (b + c)
  {
  }

  /** n empty cells. */
  function Fillers(n: nat): (r: seq<Cell>)
    ensures |r| == n && forall i :: 0 <= i < n ==> r[i] == Filler
  {
    if n == 0 then [] else Fillers(n - 1) + [Filler]
  }

  /** The cells of days 1..n of a month, in order. */
  function DayCells(year: int, month: int, n: nat, selectedDate: string, today: string, allTasks: seq<Task>): (r: seq<Cell>)
    requires 0 <= month <= 11 && n <= 31
    ensures |r| == n
  {
    if n == 0 then []
    else DayCells(year, month, n - 1, selectedDate, today, allTasks)
         + [MakeDayCell(n, CellDate(year, month, n), selectedDate, today, allTasks)]
  }

  /** The whole grid of a month: firstDay fillers, then the days. */
  function Grid(year: int, month: int, selectedDate: string, today: string, allTasks: seq<Task>): seq<Cell>
    requires 0 <= month <= 11
  {
    Fillers(FirstWeekday(year, month)) + DayCells(year, month, MonthLength(year, month), selectedDate, today, allTasks)
  }

  /** Day k of the month sits at position k - 1 among the day cells. */
  lemma {:induction false} DayCellsAt(year: int, month: int, n: nat, selectedDate: string, today: string,
                                      allTasks: seq<Task>, k: int)
    requires 0 <= month <= 11 && n <= 31 && 1 <= k <= n
    ensures DayCells(year, month, n, selectedDate, today, allTasks)[k - 1]
      == MakeDayCell(k, CellDate(year, month, k), selectedDate, today, allTasks)
  {
    if k < n {
      DayCellsAt(year, month, n - 1, selectedDate, today, allTasks, k);
    }
  }

  /**
   * The grid has firstDay fillers, then the cell of day k at position firstDay + k - 1, for
   * every day of the month, and nothing else.
   */
  lemma GridShape(year: int, month: int, selectedDate: string, today: string, allTasks: seq<Task>)
    requires 0 <= month <= 11
    ensures var g, first, n := Grid(year, month, selectedDate, today, allTasks), FirstWeekday(year, month), MonthLength(year, month);
      && |g| == first + n
      && (forall i :: 0 <= i < first ==> g[i] == Filler)
      && (forall k :: 1 <= k <= n ==> g[first + k - 1] == MakeDayCell(k, CellDate(year, month, k), selectedDate, today, allTasks))
  {
    var first, n := FirstWeekday(year, month), MonthLength(year, month);
    var g := Grid(year, month, selectedDate, today, allTasks);
    forall k | 1 <= k <= n
      ensures g[first + k - 1] == MakeDayCell(k, CellDate(year, month, k), selectedDate, today, allTasks)
    {
      DayCellsAt(year, month, n, selectedDate, today, allTasks, k);
    }
  }

  /** The days of a shown month sit in the weekday columns of their dates. */
  lemma GridColumns(year: int, month: int, k: int)
    requires 0 <= month <= 11 && 1 <= k <= MonthLength(year, month)
    ensures (FirstWeekday(year, month) + k - 1) % 7 == Weekday(Date(JsYear(year), month + 1, k))
  {
    ColumnOfDay(JsYear(year), month + 1, k, FirstWeekday(year, month));
  }

  /**
   * For four-digit years the cell dates are the server's own date strings, and they increase
   * strictly with the day in the server's date order.
   */
  lemma CellDatesAreServerDates(year: int, month: int, k: int)
    requires 1000 <= year <= 9999 && 0 <= month <= 11 && 1 <= k <= MonthLength(year, month)
    ensures ValidateDate(CellDate(year, month, k))
    ensures DateOf(CellDate(year, month, k)) == Some(Date(year, month + 1, k))
    ensures k > 1 ==> DateKey(CellDate(year, month, k - 1)) < DateKey(CellDate(year, month, k))
  {
    var d := Date(year, month + 1, k);
    FormatDateIsServerDate(d);
    if k > 1 {
      var p := Date(year, month + 1, k - 1);
      FormatDateIsServerDate(p);
      OrdinalIsChronological(p, d);
    }
  }

  /** Different days of the shown month get different date strings, whatever the year. */
  lemma CellDatesDistinct(year: int, month: int, j: int, k: int)
    requires 0 <= month <= 11 && 1 <= j <= 31 && 1 <= k <= 31 && j != k
    ensures CellDate(year, month, j) != CellDate(year, month, k)
  {
    var a, b := CellDate(year, month, j), CellDate(year, month, k);
    assert a[|a| - 2..] == DigitsOf(j, 2);
    assert b[|b| - 2..] == DigitsOf(k, 2);
    ValueOfDigitsOf(j, 2);
    ValueOfDigitsOf(k, 2);
  }

  /** So a loaded task is listed in the cell of its own date and in no other cell. */
  lemma TaskInOneCell(year: int, month: int, j: int, k: int, selectedDate: string, today: string,
                      allTasks: seq<Task>, t: Task)
    requires 0 <= month <= 11 && 1 <= j <= 31 && 1 <= k <= 31
    requires t in MakeDayCell(j, CellDate(year, month, j), selectedDate, today, allTasks).tasks
    requires t in MakeDayCell(k, CellDate(year, month, k), selectedDate, today, allTasks).tasks
    ensures j == k && t in allTasks && t.fields.taskDate == CellDate(year, month, k)
  {
    DayCellMeaning(j, CellDate(year, month, j), selectedDate, today, allTasks);
    DayCellMeaning(k, CellDate(year, month, k), selectedDate, today, allTasks);
    if j != k {
      CellDatesDistinct(year, month, j, k);
    }
  }

  // ---------------------------------------------------------------------------------------
  // The calendar's state
  // ---------------------------------------------------------------------------------------

  /**
   * The drawing loops of renderCalendar(): firstDay empty cells, then one cell per day of the
   * month, each built for the padded date of that day.
   */
  method DrawGrid(year: int, month: int, selected: string, todayText: string, tasks: seq<Task>)
    returns (cells: seq<Cell>)
    requires 0 <= month <= 11
    ensures cells == Grid(year, month, selected, todayText, tasks)
  {
    var firstDay := FirstWeekday(year, month);
    var daysInMonth := MonthLength(year, month);
    cells := [];
    var i := 0;
    while i < firstDay
      invariant 0 <= i <= firstDay
      invariant cells == Fillers(i)
    {
      cells := cells + [Filler];
      i := i + 1;
    }
    var day := 1;
    while day <= daysInMonth
      invariant 1 <= day <= daysInMonth + 1
      invariant cells == Fillers(firstDay) + DayCells(year, month, day - 1, selected, todayText, tasks)
    {
      var date := CellDate(year, month, day);
      var cell := MakeDayCell(day, date, selected, todayText, tasks);
      AppendAssoc(Fillers(firstDay), DayCells(year, month, day - 1, selected, todayText, tasks), [cell]);
      cells := cells + [cell];
      day := day + 1;
    }
  }

  class Calendar {
    /** Month index shown, 0 = January. */
    var currentMonth: int
    var currentYear: int
    var selectedDate: string
    /** Tasks of the shown month, as the last successful loadCalendar received them. */
    var allTasks: seq<Task>

    ghost predicate Valid()
      reads this
    {
      0 <= currentMonth <= 11
    }

    /** The page opens on today's month with today selected and nothing loaded. */
    constructor (today: Date)
      requires IsValid(today)
      ensures Valid()
      ensures currentMonth == today.month - 1 && currentYear == today.year
      ensures selectedDate == FormatDate(today) && allTasks == []
    {
      currentMonth := today.month - 1;
      currentYear := today.year;
      selectedDate := FormatDate(today);
      allTasks := [];
    }

    /** changeMonth(delta), before it reloads. */
    method ChangeMonth(delta: int)
      requires Valid()
      modifies this
      ensures Valid()
      ensures (currentMonth, currentYear) == Shifted(old(currentMonth), old(currentYear), delta)
      ensures selectedDate == old(selectedDate) && allTasks == old(allTasks)
    {
      currentMonth := currentMonth + delta;
      if currentMonth > 11 {
        currentMonth := 0;
        currentYear := currentYear + 1;
      } else if currentMonth < 0 {
        currentMonth := 11;
        currentYear := currentYear - 1;
      }
    }

    /** goToToday(), before it reloads: today's month, with today selected. */
    method GoToToday(today: Date)
      requires IsValid(today)
      modifies this
      ensures Valid()
      ensures currentMonth == today.month - 1 && currentYear == today.year
      ensures selectedDate == FormatDate(today) && allTasks == old(allTasks)
    {
      currentMonth := today.month - 1;
      currentYear := today.year;
      selectedDate := FormatDate(today);
    }

    /** selectDate(date), before it redraws. */
    method SelectDate(date: string)
      requires Valid()
      modifies this
      ensures Valid() && selectedDate == date
      ensures currentMonth == old(currentMonth) && currentYear == old(currentYear) && allTasks == old(allTasks)
    {
      selectedDate := date;
    }

    /** renderCalendar(): the grid of the shown month. */
    method RenderCalendar(today: Date) returns (cells: seq<Cell>)
      requires Valid() && IsValid(today)
      ensures cells == Grid(currentYear, currentMonth, selectedDate, FormatDate(today), allTasks)
    {
      cells := DrawGrid(currentYear, currentMonth, selectedDate, FormatDate(today), allTasks);
    }

    /**
     * loadCalendar() once the month's reply is in: on success the tasks are kept (none when the
     * reply carries none) and the grid is redrawn; on failure nothing changes.
     */
    method LoadCalendar(reply: Response<MonthResult>, today: Date) returns (grid: Option<seq<Cell>>)
      requires Valid() && IsValid(today)
      modifies this`allTasks
      ensures Valid()
      ensures reply.success ==> allTasks == (if reply.data.Some? then reply.data.value.tasks else [])
      ensures !reply.success ==> allTasks == old(allTasks) && grid == None
      ensures reply.success ==>
        grid == Some(Grid(currentYear, currentMonth, selectedDate, FormatDate(today), allTasks))
    {
      if reply.success {
        allTasks := if reply.data.Some? then reply.data.value.tasks else [];
        var cells := RenderCalendar(today);
        grid := Some(cells);
      } else {
        grid := None;
      }
    }
  }
}
