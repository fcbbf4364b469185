/**
 * The filter panel of the browser client: the parameters applyFilters and searchTasks send to
 * filter.php, the heading labels, the grouping of a filtered answer into date sections, and
 * the date ranges of the quick presets.
 */
module ClientFilters {
  import opened Common
  import opened Gregorian
  import opened PhpBuiltins
  import opened Database
  import opened TaskModel
  import opened Query
  import opened FilterApi
  import opened ClientUtils
  import opened ClientCalendar

  // ---------------------------------------------------------------------------------------
  // Grouping an answer by date
  // ---------------------------------------------------------------------------------------

  /** The task dates in order of first appearance, each once. */
  function FirstDates(tasks: seq<Task>): (r: seq<string>)
    ensures |r| <= |tasks|
  {
    if tasks == [] then []
    else
      var init := FirstDates(tasks[..|tasks| - 1]);
      var d := tasks[|tasks| - 1].fields.taskDate;
      if d in init then init else init + [d]
  }

  /** Every date of the input is listed, nothing else is, and none twice. */
  lemma {:induction false} FirstDatesMeaning(tasks: seq<Task>)
    ensures forall d :: d in FirstDates(tasks) <==> exists i :: 0 <= i < |tasks| && tasks[i].fields.taskDate == d
    ensures forall i, j :: 0 <= i < j < |FirstDates(tasks)| ==> FirstDates(tasks)[i] != FirstDates(tasks)[j]
  {
    if tasks != [] {
      var init := tasks[..|tasks| - 1];
      var last := tasks[|tasks| - 1].fields.taskDate;
      FirstDatesMeaning(init);
      var r0 := FirstDates(init);
      assert FirstDates(tasks) == if last in r0 then r0 else r0 + [last];
      forall d | d in FirstDates(tasks)
        ensures exists i :: 0 <= i < |tasks| && tasks[i].fields.taskDate == d
      {
        if d in r0 {
          var i :| 0 <= i < |init| && init[i].fields.taskDate == d;
          assert tasks[i] == init[i];
        } else {
          assert tasks[|tasks| - 1].fields.taskDate == d;
        }
      }
      forall i | 0 <= i < |tasks|
        ensures tasks[i].fields.taskDate in FirstDates(tasks)
      {
        if i < |init| {
          assert init[i] == tasks[i];
        }
      }
    }
  }

  /**
   * groupTasksByDate(tasks): a dictionary from each date to the tasks of that date, pushed in
   * input order; its keys come out in insertion order, that is, by first appearance.
   */
  method GroupTasksByDate(tasks: seq<Task>) returns (keys: seq<string>, groups: map<string, seq<Task>>)
    ensures keys == FirstDates(tasks)
    ensures forall d :: d in groups <==> d in keys
    ensures forall d :: d in groups ==> groups[d] == DayTasks(tasks, d)
  {
    keys := [];
    groups := map[];
    var i := 0;
    while i < |tasks|
      invariant 0 <= i <= |tasks|
      invariant keys == FirstDates(tasks[..i])
      invariant forall d :: d in groups <==> d in keys
      invariant forall d :: d in groups ==> groups[d] == DayTasks(tasks[..i], d)
    {
      var task := tasks[i];
      var date := task.fields.taskDate;
      assert tasks[..i + 1][..i] == tasks[..i];
      if date !in groups {
        assert DayTasks(tasks[..i], date) == [] by {
          FirstDatesMeaning(tasks[..i]);
          NoDayTasks(tasks[..i], date);
        }
        groups := groups[date := []];
        keys := keys + [date];
      }
      groups := groups[date := groups[date] + [task]];
      i := i + 1;
    }
    assert tasks[..i] == tasks;
  }

  /** The total size of the groups listed under keys. */
  function GroupSizes(tasks: seq<Task>, keys: seq<string>): nat {
    if keys == [] then 0
    else GroupSizes(tasks, keys[..|keys| - 1]) + |DayTasks(tasks, keys[|keys| - 1])|
  }

  /** One more task adds one to the group of its date, if that date is listed, and to no other. */
  lemma {:induction false} GroupSizesGrow(tasks: seq<Task>, t: Task, keys: seq<string>)
    requires forall i, j :: 0 <= i < j < |keys| ==> keys[i] != keys[j]
    ensures GroupSizes(tasks + [t], keys) == GroupSizes(tasks, keys) + (if t.fields.taskDate in keys then 1 else 0)
  {
    if keys != [] {
      var init, last := keys[..|keys| - 1], keys[|keys| - 1];
      GroupSizesGrow(tasks, t, init);
      DayTasksAppend(tasks, [t], last);
      assert DayTasks([t], last) == DayTasks([], last) + (if t.fields.taskDate == last then [t] else []) by {
        assert [t][..0] == [];
      }
      assert t.fields.taskDate in keys <==> t.fields.taskDate in init || t.fields.taskDate == last by {
        assert keys == init + [last];
      }
      assert last !in init;
    }
  }

  /** The groups partition the answer: their sizes add up to the number of tasks. */
  lemma {:induction false} GroupsPartition(tasks: seq<Task>)
    ensures GroupSizes(tasks, FirstDates(tasks)) == |tasks|
  {
    if tasks != [] {
      var init := tasks[..|tasks| - 1];
      var t := tasks[|tasks| - 1];
      assert tasks == init + [t];
      GroupsPartition(init);
      var keys := FirstDates(init);
      FirstDatesMeaning(init);
      var d := t.fields.taskDate;
      GroupSizesGrow(init, t, keys);
      if d !in keys {
        NoDayTasks(init, d);
        assert DayTasks(tasks, d) == [t];
        assert (keys + [d])[..|keys|] == keys;
      }
    }
  }

  /**
   * For any sort key that tells dates apart: on an answer whose keys never increase, the
   * sections come out with strictly decreasing keys.
   */
  lemma {:induction false} FirstDatesDescend(tasks: seq<Task>, key: string -> int)
    requires forall i, j :: 0 <= i < j < |tasks| ==> key(tasks[i].fields.taskDate) >= key(tasks[j].fields.taskDate)
    requires forall i, j :: 0 <= i < |tasks| && 0 <= j < |tasks| && tasks[i].fields.taskDate != tasks[j].fields.taskDate ==>
      key(tasks[i].fields.taskDate) != key(tasks[j].fields.taskDate)
    ensures forall i, j :: 0 <= i < j < |FirstDates(tasks)| ==> key(FirstDates(tasks)[i]) > key(FirstDates(tasks)[j])
  {
    if tasks != [] {
      var init := tasks[..|tasks| - 1];
      var n := |tasks| - 1;
      var d := tasks[n].fields.taskDate;
      assert forall i :: 0 <= i < |init| ==> init[i] == tasks[i];
      FirstDatesDescend(init, key);
      var keys := FirstDates(init);
      if d !in keys {
        FirstDatesMeaning(init);
        forall i | 0 <= i < |keys|
          ensures key(keys[i]) > key(d)
        {
          assert keys[i] in FirstDates(init);
          var m :| 0 <= m < |init| && init[m].fields.taskDate == keys[i];
          assert tasks[m].fields.taskDate == keys[i];
        }
        var r := keys + [d];
        assert FirstDates(tasks) == r;
        assert forall i :: 0 <= i < |keys| ==> r[i] == keys[i];
      }
    }
  }

  /**
   * filterTasks answers latest date first, so the sections of its answer come out strictly
   * latest date first too.
   */
  lemma SectionsDescending(tasks: seq<Task>)
    requires forall i :: 0 <= i < |tasks| ==> ValidateDate(tasks[i].fields.taskDate)
    requires forall i, j :: 0 <= i < j < |tasks| ==> FilterBefore(tasks[i], tasks[j])
    ensures forall i, j :: 0 <= i < j < |FirstDates(tasks)| ==>
      DateKey(FirstDates(tasks)[i]) > DateKey(FirstDates(tasks)[j])
  {
    forall i, j | 0 <= i < |tasks| && 0 <= j < |tasks| && tasks[i].fields.taskDate != tasks[j].fields.taskDate
      ensures DateKey(tasks[i].fields.taskDate) != DateKey(tasks[j].fields.taskDate)
    {
      DateKeyMeaning(tasks[i].fields.taskDate, tasks[j].fields.taskDate);
    }
    FirstDatesDescend(tasks, DateKey);
  }

  // ---------------------------------------------------------------------------------------
  // applyFilters and the heading labels
  // ---------------------------------------------------------------------------------------

  /** The non-empty values, in order. */
  function NonEmptyValues(values: seq<string>): (r: seq<string>)
    ensures |r| <= |values|
  {
    if values == [] then []
    else
      var last := values[|values| - 1];
      NonEmptyValues(values[..|values| - 1]) + (if last != "" then [last] else [])
  }

  /** Exactly the non-empty values are kept. */
  lemma {:induction false} NonEmptyValuesMembers(values: seq<string>)
    ensures forall x :: x in NonEmptyValues(values) <==> x in values && x != ""
  {
    if values != [] {
      NonEmptyValuesMembers(values[..|values| - 1]);
      assert values == values[..|values| - 1] + [values[|values| - 1]];
    }
  }

  /** The three selections, one after the other. */
  lemma NonEmptyThree(a: string, b: string, c: string)
    ensures NonEmptyValues([a, b, c]) ==
      (if a != "" then [a] else []) + (if b != "" then [b] else []) + (if c != "" then [c] else [])
  {
    assert [a, b, c][..2] == [a, b];
    assert [a, b][..1] == [a];
    assert [a][..0] == [];
    assert NonEmptyValues([a]) == (if a != "" then [a] else []);
    assert NonEmptyValues([a, b]) == NonEmptyValues([a]) + (if b != "" then [b] else []);
  }

  /** The query applyFilters sends: only the non-empty selections. */
  function FilterParams(priority: string, category: string, status: string): (q: FilterQuery)
    ensures q.search.None? && q.dateFrom.None? && q.dateTo.None?
    ensures Defaulted(q) == FilterInput(priority, category, status, "", "", "")
  {
    FilterQuery(if priority != "" then Some(priority) else None,
                if category != "" then Some(category) else None,
                if status != "" then Some(status) else None,
                None, None, None)
  }

  /**
   * The server applies a selection from the panel exactly as chosen, except that a category
   * or status of "0" is empty to PHP and so filters nothing, while the heading still shows it.
   */
  lemma ZeroCategoryShownNotApplied(priority: string, status: string)
    ensures var q := FilterParams(priority, "0", status);
      q.category == Some("0") && EffectiveCriteria(Defaulted(q)).category.None?
      && "0" in NonEmptyValues([priority, "0", status])
  {
    NonEmptyValuesMembers([priority, "0", status]);
  }

  /**
   * The heading lists one label per non-empty selection; filter.php counts one active filter
   * per selection that is not PHP-empty, so the two counts differ by the selections equal to "0".
   */
  lemma {:induction false} LabelsAgreeWithSummary(priority: string, category: string, status: string)
    ensures |NonEmptyValues([priority, category, status])| ==
      |ActiveLabels(Labelled(FilterInput(priority, category, status, "", "", "")))|
      + (if priority == "0" then 1 else 0) + (if category == "0" then 1 else 0) + (if status == "0" then 1 else 0)
  {
    NonEmptyThree(priority, category, status);
    var p := FilterInput(priority, category, status, "", "", "");
    LabelledSummary(p);
    var e := Labelled(p);
    assert |LabelOf(e[3]) + LabelOf(e[4]) + LabelOf(e[5])| == 0;
  }

  /** The panel's current filters (currentFilters). */
  class FilterPanel {
    var priority: string
    var category: string
    var status: string

    constructor ()
      ensures priority == "" && category == "" && status == ""
    {
      priority, category, status := "", "", "";
    }

    /**
     * applyFilters() with the three select values: nothing happens when all are empty;
     * otherwise they become the current filters and the non-empty ones are sent.
     */
    method ApplyFilters(p: string, c: string, s: string) returns (sent: Option<FilterQuery>)
      modifies this
      ensures p == "" && c == "" && s == "" ==>
        sent == None && priority == old(priority) && category == old(category) && status == old(status)
      ensures !(p == "" && c == "" && s == "") ==>
        sent == Some(FilterParams(p, c, s)) && priority == p && category == c && status == s
    {
      if p == "" && c == "" && s == "" {
        return None;
      }
      priority, category, status := p, c, s;
      var params := FilterQuery(None, None, None, None, None, None);
      if p != "" { params := params.(priority := Some(p)); }
      if c != "" { params := params.(category := Some(c)); }
      if s != "" { params := params.(status := Some(s)); }
      sent := Some(params);
    }

    /** clearFilters(): all three back to empty. */
    method ClearFilters()
      modifies this
      ensures priority == "" && category == "" && status == ""
    {
      priority, category, status := "", "", "";
    }

    /** The labels displayFilteredTasks puts in the heading: the non-empty current filters. */
    method FilterLabels() returns (labels: seq<string>)
      ensures labels == NonEmptyValues([priority, category, status])
    {
      NonEmptyThree(priority, category, status);
      labels := [];
      if priority != "" { labels := labels + [priority]; }
      if category != "" { labels := labels + [category]; }
      if status != "" { labels := labels + [status]; }
    }
  }

  // ---------------------------------------------------------------------------------------
  // searchTasks and filterByDateRange
  // ---------------------------------------------------------------------------------------

  /**
   * searchTasks(term): refused when absent or when the trimmed term is shorter than two UTF-16
   * code units, so one character beyond U+FFFF is long enough.
   */
  function SearchQuery(term: Option<string>): (q: Option<FilterQuery>)
    ensures q.Some? <==> term.Some? && var t := JsTrim(term.value); |t| >= 2 || (|t| == 1 && IsAstral(t[0]))
    ensures q.Some? ==> q.value == FilterQuery(None, None, None, Some(JsTrim(term.value)), None, None)
  {
    if term.None? || term.value == "" then None
    else
      JsLengthAtLeastTwo(JsTrim(term.value));
      if JsLength(JsTrim(term.value)) < 2 then None
      else Some(FilterQuery(None, None, None, Some(JsTrim(term.value)), None, None))
  }

  /** A single emoji is searched for, and a single letter is not. */
  lemma SearchAstral()
    ensures SearchQuery(Some("\U{1F600}")).Some?
    ensures SearchQuery(Some("a")).None?
  {
    assert JsTrim("\U{1F600}") == "\U{1F600}";
  }

  /**
   * With the search condition as written, every search the client sends makes the server's
   * statement repeat the `:search` marker, so the request fails (see FilterTasksAsWritten).
   */
  lemma SearchFailsAsWritten(term: Option<string>)
    requires SearchQuery(term).Some?
    ensures var p := Defaulted(SearchQuery(term).value);
      && !Empty(p.search)
      && !NativePrepareAccepts(Markers(EffectiveCriteria(p), SearchAsWritten))
  {
    var t := JsTrim(term.value);
    if |t| == 1 {
      assert t != "0" by {
        assert IsAstral(t[0]);
      }
    }
    AsWrittenPrepares(EffectiveCriteria(Defaulted(SearchQuery(term).value)));
  }

  /**
   * A search the client sends is the only criterion the server applies, with the trimmed term,
   * once the search condition has a marker per use (FilterTasks).
   */
  lemma SearchReachesServer(term: Option<string>)
    requires SearchQuery(term).Some?
    ensures EffectiveCriteria(Defaulted(SearchQuery(term).value))
      == Criteria(None, None, None, Some(JsTrim(term.value)), None, None)
  {
  }

  /** filterByDateRange(start, end): refused unless both pass validateDateFormat. */
  function DateRangeQuery(start: string, end: string): (q: Option<FilterQuery>)
    ensures q.Some? <==>
      IsoShape(start) && LegalElements(IsoFields(start)) && IsoShape(end) && LegalElements(IsoFields(end))
    ensures q.Some? ==> q.value == FilterQuery(None, None, None, None, Some(start), Some(end))
  {
    DateFormatMeaning(start);
    DateFormatMeaning(end);
    if !ValidateDateFormat(start) || !ValidateDateFormat(end) then None
    else Some(FilterQuery(None, None, None, None, Some(start), Some(end)))
  }

  /**
   * A range of real dates is sent, and the server keeps exactly the tasks dated from the first
   * to the last day.
   */
  lemma RangeReachesServer(a: Date, b: Date, t: Task)
    requires IsValid(a) && IsValid(b) && 1000 <= a.year <= 9999 && 1000 <= b.year <= 9999
    requires ValidateDate(t.fields.taskDate)
    ensures var q := DateRangeQuery(FormatDate(a), FormatDate(b));
      && q.Some?
      && (CriteriaHold(EffectiveCriteria(Defaulted(q.value)), t) <==>
            !Precedes(DateOf(t.fields.taskDate).value, a) && !Precedes(b, DateOf(t.fields.taskDate).value))
  {
    FormatDateIsServerDate(a);
    FormatDateIsServerDate(b);
    ServerDatesPassShape(FormatDate(a));
    ServerDatesPassShape(FormatDate(b));
    var q := DateRangeQuery(FormatDate(a), FormatDate(b));
    FilterMeaning(Defaulted(q.value), t);
    assert FormatDate(a) != "" && FormatDate(a) != "0";
    assert FormatDate(b) != "" && FormatDate(b) != "0";
  }

  /** A bound of the right shape that is no calendar day passes the client's check and is then ignored by the server. */
  lemma ShapedNonDateIgnored(start: string, end: string)
    requires ValidateDateFormat(start) && ValidateDateFormat(end) && !ValidateDate(start)
    ensures var q := DateRangeQuery(start, end);
      q.Some? && EffectiveCriteria(Defaulted(q.value)).dateFrom.None?
  {
    DateFormatMeaning(start);
    DateFormatMeaning(end);
  }

  /** For instance 2023-02-30. */
  lemma ImpossibleBoundIgnored()
    ensures var q := DateRangeQuery("2023-02-30", "2023-03-01");
      q.Some? && EffectiveCriteria(Defaulted(q.value)).dateFrom.None?
  {
    ShapeIsNotCalendar();
    MarchFirstShaped();
    ShapedNonDateIgnored("2023-02-30", "2023-03-01");
  }

  lemma MarchFirstShaped()
    ensures ValidateDateFormat("2023-03-01")
  {
  }

  // ---------------------------------------------------------------------------------------
  // Presets
  // ---------------------------------------------------------------------------------------

  datatype Preset = Today | ThisWeek | ThisMonth | Overdue | Upcoming

  /**
   * thisWeek: setDate(getDate() - getDay()) goes back to the Sunday of today's week, and
   * setDate(getDate() + 6) from there to the Saturday; both cross month ends as days do.
   */
  function WeekRange(today: Date): (r: (Date, Date))
    requires IsValid(today)
    ensures r.0 == AddDays(today, -Weekday(today)) && r.1 == AddDays(r.0, 6)
  {
    var w := Weekday(today);
    var start := SetDate(today, today.day - w);
    WeekMoves(today, w);
    (start, SetDate(start, start.day + 6))
  }

  /** Going back w days, then forward 6, with setDate. */
  lemma WeekMoves(today: Date, w: int)
    requires IsValid(today)
    ensures var start := SetDate(today, today.day - w);
      start == AddDays(today, -w) && SetDate(start, start.day + 6) == AddDays(start, 6)
  {
    SetDateMoves(today, -w);
    SetDateMoves(SetDate(today, today.day - w), 6);
  }

  /**
   * thisMonth: new Date(year, month, 1) and new Date(year, month + 1, 0), the first and the
   * last day of today's month for years past 99.
   */
  function MonthRange(today: Date): (r: (Date, Date))
    requires IsValid(today)
    ensures !(0 <= today.year <= 99) ==>
      r == (Date(today.year, today.month, 1), Date(today.year, today.month, DaysInMonth(today.year, today.month)))
  {
    FirstOfMonth(today.year, today.month - 1);
    DayZeroOfNextMonth(today.year, today.month - 1);
    (JsNewDate(today.year, today.month - 1, 1), JsNewDate(today.year, today.month, 0))
  }

  /** upcoming: today, and setDate(getDate() + 7), a week later. */
  function UpcomingRange(today: Date): (r: (Date, Date))
    requires IsValid(today)
    ensures r == (today, AddDays(today, 7))
  {
    SetDateMoves(today, 7);
    (today, SetDate(today, today.day + 7))
  }

  /** The first and last day each preset asks for; Overdue only announces itself. */
  function PresetRange(p: Preset, today: Date): (r: Option<(Date, Date)>)
    requires IsValid(today)
    ensures r.Some? <==> !p.Overdue?
    ensures r.Some? ==> IsValid(r.value.0) && IsValid(r.value.1)
  {
    match p
    case Today => Some((today, today))
    case ThisWeek => Some(WeekRange(today))
    case ThisMonth => Some(MonthRange(today))
    case Overdue => None
    case Upcoming => Some(UpcomingRange(today))
  }

  /** The query a preset sends: its two days written by formatDate. */
  function PresetQuery(p: Preset, today: Date): (q: Option<FilterQuery>)
    requires IsValid(today)
    ensures q.Some? ==> PresetRange(p, today).Some?
  {
    match PresetRange(p, today)
    case None => None
    case Some(range) => DateRangeQuery(FormatDate(range.0), FormatDate(range.1))
  }

  /** The week range starts on a Sunday: going back Weekday(today) days lands on weekday 0. */
  lemma WeekStartsSunday(today: Date)
    requires IsValid(today)
    ensures Weekday(AddDays(today, -Weekday(today))) == 0
  {
    WeekdayAfter(today, -Weekday(today));
  }

  /** ... and ends on a Saturday. */
  lemma WeekEndsSaturday(today: Date)
    requires IsValid(today)
    ensures Weekday(AddDays(AddDays(today, -Weekday(today)), 6)) == 6
  {
    var start := AddDays(today, -Weekday(today));
    WeekStartsSunday(today);
    WeekdayAfter(start, 6);
    SundayPlus(Weekday(start), 6);
  }

  lemma SundayPlus(w: int, n: int)
    requires w == 0 && 0 <= n < 7
    ensures (w + n) % 7 == n
  {
  }

  /** Today is day Weekday(today) of its week range. */
  lemma WeekHoldsToday(today: Date)
    requires IsValid(today)
    ensures AddDays(AddDays(today, -Weekday(today)), Weekday(today)) == today
  {
    BackThenForward(today, Weekday(today));
  }

  lemma BackThenForward(d: Date, w: int)
    requires IsValid(d)
    ensures AddDays(AddDays(d, -w), w) == d
  {
    AddDaysAdd(d, -w, w);
    assert -w + w == 0;
  }

  /** With four-digit years at both ends, every preset but Overdue reaches the server as a date range. */
  lemma PresetSent(p: Preset, today: Date)
    requires IsValid(today) && !p.Overdue?
    requires var r := PresetRange(p, today).value; 1000 <= r.0.year <= 9999 && 1000 <= r.1.year <= 9999
    ensures var r := PresetRange(p, today).value;
      PresetQuery(p, today) == Some(FilterQuery(None, None, None, None, Some(FormatDate(r.0)), Some(FormatDate(r.1))))
  {
    var r := PresetRange(p, today).value;
    FormatDateIsServerDate(r.0);
    FormatDateIsServerDate(r.1);
    ServerDatesPassShape(FormatDate(r.0));
    ServerDatesPassShape(FormatDate(r.1));
    DateFormatMeaning(FormatDate(r.0));
    DateFormatMeaning(FormatDate(r.1));
  }
}
