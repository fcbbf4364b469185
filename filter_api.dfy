/**
 * server/api/filter.php: filterTasks turns up to six request parameters into a WHERE clause
 * and a fixed ORDER BY, and buildFilterSummary echoes what was asked for.
 */
module FilterApi {
  import opened Common
  import opened Gregorian
  import opened PhpBuiltins
  import opened Database
  import opened TaskModel
  import opened Sql
  import opened Query
  import opened Store

  /** The six query-string parameters; None where the key is missing. */
  datatype FilterQuery = FilterQuery(
    priority: Option<string>,
    category: Option<string>,
    status: Option<string>,
    search: Option<string>,
    dateFrom: Option<string>,
    dateTo: Option<string>)

  /** The parameters after `?? ''`. */
  datatype FilterInput = FilterInput(
    priority: string,
    category: string,
    status: string,
    search: string,
    dateFrom: string,
    dateTo: string)

  function Defaulted(q: FilterQuery): FilterInput {
    FilterInput(q.priority.GetOr(""), q.category.GetOr(""), q.status.GetOr(""),
      q.search.GetOr(""), q.dateFrom.GetOr(""), q.dateTo.GetOr(""))
  }

  // ---------------------------------------------------------------------------------------
  // The WHERE clause
  // ---------------------------------------------------------------------------------------

  /**
   * The criteria the WHERE clause ends up with: an enum value only when non-empty and one of
   * its names, category and search when non-empty, a date bound when non-empty and valid.
   */
  function EffectiveCriteria(p: FilterInput): (c: Criteria)
    ensures c.priority.Some? <==> !Empty(p.priority) && ParsePriority(p.priority).Some?
    ensures c.status.Some? <==> !Empty(p.status) && ParseStatus(p.status).Some?
    ensures c.dateFrom.Some? ==> ValidateDate(c.dateFrom.value)
    ensures c.dateTo.Some? ==> ValidateDate(c.dateTo.value)
  {
    Criteria(
      if !Empty(p.priority) then ParsePriority(p.priority) else None,
      if !Empty(p.category) then Some(p.category) else None,
      if !Empty(p.status) then ParseStatus(p.status) else None,
      if !Empty(p.search) then Some(p.search) else None,
      if !Empty(p.dateFrom) && ValidateDate(p.dateFrom) then Some(p.dateFrom) else None,
      if !Empty(p.dateTo) && ValidateDate(p.dateTo) then Some(p.dateTo) else None)
  }

  /**
   * The named markers of the statement, in the order the conditions are appended; the
   * search condition contributes `searchMarkers`, one per LIKE.
   */
  function Markers(c: Criteria, searchMarkers: seq<string>): seq<string> {
    MarkerOf(c.priority.Some?, [":priority"])
    + MarkerOf(c.category.Some?, [":category"])
    + MarkerOf(c.status.Some?, [":status"])
    + MarkerOf(c.search.Some?, searchMarkers)
    + MarkerOf(c.dateFrom.Some?, [":date_from"])
    + MarkerOf(c.dateTo.Some?, [":date_to"])
  }

  /** The markers of one condition when it is appended, none otherwise. */
  function MarkerOf(applied: bool, markers: seq<string>): seq<string> {
    if applied then markers else []
  }

  /** `title LIKE :search OR description LIKE :search`, as server/api/filter.php:62 has it. */
  const SearchAsWritten: seq<string> := [":search", ":search"]

  /** One marker per use: `title LIKE :search1 OR description LIKE :search2`. */
  const SearchDistinct: seq<string> := [":search1", ":search2"]

  /**
   * With PDO::ATTR_EMULATE_PREPARES off (server/config/database.php:23) the statement is
   * prepared natively, and a named marker that occurs twice makes execute throw
   * (SQLSTATE HY093): no marker may repeat.
   */
  predicate NativePrepareAccepts(markers: seq<string>) {
    forall i, j :: 0 <= i < j < |markers| ==> markers[i] != markers[j]
  }

  /**
   * filterTasks' SQL assembly: starting from `WHERE 1=1`, each parameter that passes its
   * check appends one `AND` condition and one bound value.
   */
  method BuildCriteria(p: FilterInput) returns (c: Criteria)
    ensures c == EffectiveCriteria(p)
  {
    c := Criteria(None, None, None, None, None, None);
    if !Empty(p.priority) {
      var parsed := ParsePriority(p.priority);
      if parsed.Some? {
        c := c.(priority := parsed);
      }
    }
    if !Empty(p.category) {
      c := c.(category := Some(p.category));
    }
    if !Empty(p.status) {
      var parsed := ParseStatus(p.status);
      if parsed.Some? {
        c := c.(status := parsed);
      }
    }
    if !Empty(p.search) {
      c := c.(search := Some(p.search));
    }
    if !Empty(p.dateFrom) && ValidateDate(p.dateFrom) {
      c := c.(dateFrom := Some(p.dateFrom));
    }
    if !Empty(p.dateTo) && ValidateDate(p.dateTo) {
      c := c.(dateTo := Some(p.dateTo));
    }
  }

  /**
   * The rows filterTasks selects, read straight off the request: each clause applies exactly
   * when its parameter passes the check guarding it; a date bound compares calendar days.
   */
  ghost predicate Matches(p: FilterInput, t: Task)
    requires ValidateDate(t.fields.taskDate)
  {
    var f := t.fields;
    var day := DateOf(f.taskDate).value;
    && (!Empty(p.priority) && p.priority in ["Low", "Medium", "High"] ==> PriorityName(f.priority) == p.priority)
    && (!Empty(p.category) ==> f.category == p.category)
    && (!Empty(p.status) && p.status in ["Pending", "In Progress", "Completed"] ==> StatusName(f.status) == p.status)
    && (!Empty(p.search) ==> SearchHolds(p.search, t))
    && (!Empty(p.dateFrom) && ValidateDate(p.dateFrom) ==> !Precedes(day, DateOf(p.dateFrom).value))
    && (!Empty(p.dateTo) && ValidateDate(p.dateTo) ==> !Precedes(DateOf(p.dateTo).value, day))
  }

  /** On a stored row, the applied criteria hold exactly when the row matches the request. */
  lemma FilterMeaning(p: FilterInput, t: Task)
    requires ValidateDate(t.fields.taskDate)
    ensures CriteriaHold(EffectiveCriteria(p), t) <==> Matches(p, t)
  {
    var c := EffectiveCriteria(p);
    EnumNames(p.priority, p.status);
    if c.dateFrom.Some? {
      DateKeyMeaning(t.fields.taskDate, p.dateFrom);
    }
    if c.dateTo.Some? {
      DateKeyMeaning(p.dateTo, t.fields.taskDate);
    }
  }

  /** in_array against the name lists is the enum parse succeeding. */
  lemma EnumNames(priority: string, status: string)
    ensures priority in ["Low", "Medium", "High"] <==> ParsePriority(priority).Some?
    ensures status in ["Pending", "In Progress", "Completed"] <==> ParseStatus(status).Some?
  {
  }

  /** A priority or status outside its enumeration, or an invalid date bound, is ignored. */
  lemma InvalidValuesIgnored(p: FilterInput)
    ensures ParsePriority(p.priority).None? ==> EffectiveCriteria(p) == EffectiveCriteria(p.(priority := ""))
    ensures ParseStatus(p.status).None? ==> EffectiveCriteria(p) == EffectiveCriteria(p.(status := ""))
    ensures !ValidateDate(p.dateFrom) ==> EffectiveCriteria(p) == EffectiveCriteria(p.(dateFrom := ""))
    ensures !ValidateDate(p.dateTo) ==> EffectiveCriteria(p) == EffectiveCriteria(p.(dateTo := ""))
  {
  }

  /** empty("0") holds in PHP, so "0" is no filter at all, for every parameter. */
  lemma ZeroIsAbsent(p: FilterInput)
    ensures EffectiveCriteria(p.(priority := "0")) == EffectiveCriteria(p.(priority := ""))
    ensures EffectiveCriteria(p.(category := "0")) == EffectiveCriteria(p.(category := ""))
    ensures EffectiveCriteria(p.(status := "0")) == EffectiveCriteria(p.(status := ""))
    ensures EffectiveCriteria(p.(search := "0")) == EffectiveCriteria(p.(search := ""))
    ensures EffectiveCriteria(p.(dateFrom := "0")) == EffectiveCriteria(p.(dateFrom := ""))
    ensures EffectiveCriteria(p.(dateTo := "0")) == EffectiveCriteria(p.(dateTo := ""))
  {
  }

  /** With no parameter at all, every row is selected. */
  lemma NoParametersSelectAll(t: Task)
    ensures CriteriaHold(EffectiveCriteria(Defaulted(FilterQuery(None, None, None, None, None, None))), t)
  {
  }

  /** A search term without '%', '_' or '\' selects the rows containing it in title or description. */
  lemma SearchIsSubstring(term: string, t: Task)
    requires IsLiteral(term)
    ensures SearchHolds(term, t) <==> IsSubstring(term, t.fields.title) || IsSubstring(term, t.fields.description)
  {
    LikeContains(term, t.fields.title);
    LikeContains(term, t.fields.description);
  }

  // ---------------------------------------------------------------------------------------
  // buildFilterSummary
  // ---------------------------------------------------------------------------------------

  datatype Summary = Summary(
    activeFilters: seq<string>,
    filterCount: int,
    priority: string,
    category: string,
    status: string,
    search: string,
    dateFrom: string,
    dateTo: string)

  /** The six parameters with their label prefixes, in the order the summary lists them. */
  function Labelled(p: FilterInput): seq<(string, string)> {
    [("Priority: ", p.priority), ("Category: ", p.category), ("Status: ", p.status),
     ("Search: ", p.search), ("From: ", p.dateFrom), ("To: ", p.dateTo)]
  }

  /** The label followed by the value when the value is not PHP-empty, nothing otherwise. */
  function LabelOf(entry: (string, string)): seq<string> {
    if Empty(entry.1) then [] else [entry.0 + entry.1]
  }

  /** The labels of the entries, in order. */
  function ActiveLabels(entries: seq<(string, string)>): (r: seq<string>)
    ensures |r| <= |entries|
  {
    if entries == [] then [] else LabelOf(entries[0]) + ActiveLabels(entries[1..])
  }

  /** How many entries carry a value that is not PHP-empty. */
  function NonEmptyCount(entries: seq<(string, string)>): nat {
    if entries == [] then 0
    else (if Empty(entries[0].1) then 0 else 1) + NonEmptyCount(entries[1..])
  }

  /** One label per non-empty value. */
  lemma {:induction false} ActiveLabelsCount(entries: seq<(string, string)>)
    ensures |ActiveLabels(entries)| == NonEmptyCount(entries)
  {
    if entries != [] {
      ActiveLabelsCount(entries[1..]);
    }
  }

  /**
   * buildFilterSummary: one label per non-empty raw parameter, valid or not, the count of
   * labels, and the six raw values.
   */
  method BuildFilterSummary(p: FilterInput) returns (s: Summary)
    ensures s.activeFilters == ActiveLabels(Labelled(p))
    ensures s.filterCount == |s.activeFilters| == NonEmptyCount(Labelled(p))
    ensures s == Summary(s.activeFilters, s.filterCount, p.priority, p.category, p.status, p.search, p.dateFrom, p.dateTo)
  {
    ghost var e := Labelled(p);
    var filters: seq<string> := [];
    if !Empty(p.priority) { filters := filters + ["Priority: " + p.priority]; }
    assert filters == LabelOf(e[0]);
    if !Empty(p.category) { filters := filters + ["Category: " + p.category]; }
    assert filters == LabelOf(e[0]) + LabelOf(e[1]);
    if !Empty(p.status) { filters := filters + ["Status: " + p.status]; }
    assert filters == LabelOf(e[0]) + LabelOf(e[1]) + LabelOf(e[2]);
    if !Empty(p.search) { filters := filters + ["Search: " + p.search]; }
    assert filters == LabelOf(e[0]) + LabelOf(e[1]) + LabelOf(e[2]) + LabelOf(e[3]);
    if !Empty(p.dateFrom) { filters := filters + ["From: " + p.dateFrom]; }
    assert filters == LabelOf(e[0]) + LabelOf(e[1]) + LabelOf(e[2]) + LabelOf(e[3]) + LabelOf(e[4]);
    if !Empty(p.dateTo) { filters := filters + ["To: " + p.dateTo]; }
    LabelledSummary(p);
    ActiveLabelsCount(e);
    s := Summary(filters, |filters|, p.priority, p.category, p.status, p.search, p.dateFrom, p.dateTo);
  }

  /** The label list, parameter by parameter. */
  lemma LabelledSummary(p: FilterInput)
    ensures var e := Labelled(p);
      ActiveLabels(e) == LabelOf(e[0]) + LabelOf(e[1]) + LabelOf(e[2]) + LabelOf(e[3]) + LabelOf(e[4]) + LabelOf(e[5])
  {
    SixLabels(Labelled(p));
  }

  lemma SixLabels(e: seq<(string, string)>)
    requires |e| == 6
    ensures ActiveLabels(e) == LabelOf(e[0]) + LabelOf(e[1]) + LabelOf(e[2]) + LabelOf(e[3]) + LabelOf(e[4]) + LabelOf(e[5])
  {
    assert e[0..] == e;
    assert [] + LabelOf(e[0]) == LabelOf(e[0]);
    LabelsSplit(e, 0, []);
    LabelsSplit(e, 1, LabelOf(e[0]));
    LabelsSplit(e, 2, LabelOf(e[0]) + LabelOf(e[1]));
    LabelsSplit(e, 3, LabelOf(e[0]) + LabelOf(e[1]) + LabelOf(e[2]));
    LabelsSplit(e, 4, LabelOf(e[0]) + LabelOf(e[1]) + LabelOf(e[2]) + LabelOf(e[3]));
    LabelsSplit(e, 5, LabelOf(e[0]) + LabelOf(e[1]) + LabelOf(e[2]) + LabelOf(e[3]) + LabelOf(e[4]));
    assert e[6..] == [];
  }

  /** Moving the split point one entry to the right. */
  lemma LabelsSplit(e: seq<(string, string)>, k: nat, done: seq<string>)
    requires k < |e| && ActiveLabels(e) == done + ActiveLabels(e[k..])
    ensures ActiveLabels(e) == (done + LabelOf(e[k])) + ActiveLabels(e[k + 1..])
  {
    LabelsFrom(e, k);
    LabelsAssoc(done, LabelOf(e[k]), ActiveLabels(e[k + 1..]));
  }

  lemma LabelsFrom(e: seq<(string, string)>, k: nat)
    requires k < |e|
    ensures ActiveLabels(e[k..]) == LabelOf(e[k]) + ActiveLabels(e[k + 1..])
  {
    assert e[k..][1..] == e[k + 1..];
  }

  lemma LabelsAssoc(a: seq<string>, b: seq<string>, c: seq<string>)
    ensures a + (b + c) == (a + b) + c
  {
  }

  /** An ignored invalid priority still shows in the summary. */
  lemma SummaryEchoesInvalidPriority()
    ensures var p := FilterInput("Urgent", "", "", "", "", "");
      EffectiveCriteria(p).priority.None? && ActiveLabels(Labelled(p)) == ["Priority: Urgent"]
  {
    var p := FilterInput("Urgent", "", "", "", "", "");
    LabelledSummary(p);
    assert "Priority: " + "Urgent" == "Priority: Urgent";
  }

  // ---------------------------------------------------------------------------------------
  // filterTasks
  // ---------------------------------------------------------------------------------------

  datatype FilterResult = FilterResult(tasks: seq<Task>, count: int, filters: Summary)

  /**
   * What filterTasks promises about its rows: exactly the stored rows matching the request,
   * each once, latest task_date first, then High, Medium, Low, then newest first.
   */
  ghost predicate FilterAnswer(table: map<int, Task>, p: FilterInput, tasks: seq<Task>)
    requires forall k :: k in table ==> ValidateDate(table[k].fields.taskDate)
  {
    && (forall k :: k in table ==> (table[k] in tasks <==> Matches(p, table[k])))
    && (forall t :: t in tasks ==> t in table.Values)
    && DistinctIds(tasks)
    && (forall i, j :: 0 <= i < j < |tasks| ==> FilterBefore(tasks[i], tasks[j]))
  }

  /** The SELECT filterTasks runs returns exactly the answer FilterAnswer describes. */
  lemma FilteredRowsAnswer(store: TaskStore, p: FilterInput)
    requires store.Valid()
    ensures FilterAnswer(store.table, p, store.Rows(Filtered(EffectiveCriteria(p)), FilterOrder))
  {
    var tasks := store.Rows(Filtered(EffectiveCriteria(p)), FilterOrder);
    SortedMeaning(FilterOrder, tasks);
    forall k | k in store.table
      ensures store.table[k] in tasks <==> Matches(p, store.table[k])
    {
      FilterMeaning(p, store.table[k]);
    }
  }

  /**
   * filterTasks with the search condition written with `searchMarkers`. `ok` says whether
   * the database runs a statement it accepts; a statement whose markers repeat never runs.
   */
  method Filter(store: TaskStore, q: FilterQuery, ok: bool, searchMarkers: seq<string>)
    returns (r: Response<FilterResult>)
    requires store.Valid()
    ensures var runs := ok && NativePrepareAccepts(Markers(EffectiveCriteria(Defaulted(q)), searchMarkers));
      && (r.success <==> runs)
      && (!runs ==> r == Response(false, "Failed to filter tasks", None))
      && (runs ==> r.message == "Tasks filtered successfully" && r.data.Some?)
    ensures r.success && r.data.Some? ==>
      (&& FilterAnswer(store.table, Defaulted(q), r.data.value.tasks)
       && r.data.value.count == |r.data.value.tasks|
       && r.data.value.filters.activeFilters == ActiveLabels(Labelled(Defaulted(q)))
       && r.data.value.filters.filterCount == NonEmptyCount(Labelled(Defaulted(q)))
       && var p := Defaulted(q);
          r.data.value.filters == Summary(r.data.value.filters.activeFilters, r.data.value.filters.filterCount,
            p.priority, p.category, p.status, p.search, p.dateFrom, p.dateTo))
  {
    var p := Defaulted(q);
    var c := BuildCriteria(p);
    if !ok || !NativePrepareAccepts(Markers(c, searchMarkers)) {
      return Response(false, "Failed to filter tasks", None);
    }
    var tasks := store.Rows(Filtered(c), FilterOrder);
    FilteredRowsAnswer(store, p);
    var summary := BuildFilterSummary(p);
    r := Response(true, "Tasks filtered successfully", Some(FilterResult(tasks, |tasks|, summary)));
  }

  /** The statement as written prepares exactly when no search condition is appended. */
  lemma AsWrittenPrepares(c: Criteria)
    ensures NativePrepareAccepts(Markers(c, SearchAsWritten)) <==> c.search.None?
  {
    var m := Markers(c, SearchAsWritten);
    if c.search.Some? {
      var before := MarkerOf(c.priority.Some?, [":priority"]) + MarkerOf(c.category.Some?, [":category"])
        + MarkerOf(c.status.Some?, [":status"]);
      var i := |before|;
      assert m[i] == ":search" && m[i + 1] == ":search";
    } else {
      DistinctMarkers(c, SearchAsWritten);
    }
  }

  /** With one marker per use, every statement filterTasks builds prepares. */
  lemma DistinctPrepares(c: Criteria)
    ensures NativePrepareAccepts(Markers(c, SearchDistinct))
  {
    DistinctMarkers(c, SearchDistinct);
  }

  /** The markers are distinct when the search markers are distinct and none of the others. */
  lemma DistinctMarkers(c: Criteria, searchMarkers: seq<string>)
    requires c.search.Some? ==> searchMarkers == SearchDistinct
    ensures NativePrepareAccepts(Markers(c, searchMarkers))
  {
    MarkerRanks();
    var m1 := MarkerOf(c.priority.Some?, [":priority"]);
    var m2 := m1 + MarkerOf(c.category.Some?, [":category"]);
    var m3 := m2 + MarkerOf(c.status.Some?, [":status"]);
    var m4 := m3 + MarkerOf(c.search.Some?, searchMarkers);
    var m5 := m4 + MarkerOf(c.dateFrom.Some?, [":date_from"]);
    SingleRanked(c.priority.Some?, ":priority", 0);
    SingleRanked(c.category.Some?, ":category", 1);
    AppendRanked(m1, MarkerOf(c.category.Some?, [":category"]), 1, 2);
    SingleRanked(c.status.Some?, ":status", 2);
    AppendRanked(m2, MarkerOf(c.status.Some?, [":status"]), 2, 3);
    SearchRanked(c.search.Some?, searchMarkers);
    AppendRanked(m3, MarkerOf(c.search.Some?, searchMarkers), 3, 5);
    SingleRanked(c.dateFrom.Some?, ":date_from", 5);
    AppendRanked(m4, MarkerOf(c.dateFrom.Some?, [":date_from"]), 5, 6);
    SingleRanked(c.dateTo.Some?, ":date_to", 6);
    AppendRanked(m5, MarkerOf(c.dateTo.Some?, [":date_to"]), 6, 7);
  }

  lemma MarkerRanks()
    ensures Position(":priority") == 0 && Position(":category") == 1 && Position(":status") == 2
    ensures Position(":search1") == 3 && Position(":search2") == 4
    ensures Position(":date_from") == 5 && Position(":date_to") == 6
  {
  }

  lemma SingleRanked(applied: bool, marker: string, k: int)
    requires Position(marker) == k
    ensures Increasing(MarkerOf(applied, [marker])) && Ranked(MarkerOf(applied, [marker]), k, k + 1)
  {
  }

  lemma SearchRanked(applied: bool, searchMarkers: seq<string>)
    requires applied ==> searchMarkers == SearchDistinct
    requires Position(":search1") == 3 && Position(":search2") == 4
    ensures Increasing(MarkerOf(applied, searchMarkers)) && Ranked(MarkerOf(applied, searchMarkers), 3, 5)
  {
  }

  /** The position of a marker in the order the conditions are appended; -1 for no marker of the statement. */
  function Position(marker: string): int {
    if marker == ":priority" then 0
    else if marker == ":category" then 1
    else if marker == ":status" then 2
    else if marker == ":search1" then 3
    else if marker == ":search2" then 4
    else if marker == ":date_from" then 5
    else if marker == ":date_to" then 6
    else -1
  }

  /** Positions strictly increase along m, so no marker repeats. */
  predicate Increasing(m: seq<string>) {
    forall i, j :: 0 <= i < j < |m| ==> Position(m[i]) < Position(m[j])
  }

  /** Every marker of m has a position in lo..hi-1. */
  predicate Ranked(m: seq<string>, lo: int, hi: int) {
    forall i :: 0 <= i < |m| ==> lo <= Position(m[i]) < hi
  }

  lemma AppendRanked(a: seq<string>, b: seq<string>, k: int, hi: int)
    requires 0 <= k <= hi
    requires Increasing(a) && Ranked(a, 0, k) && Increasing(b) && Ranked(b, k, hi)
    ensures Increasing(a + b) && Ranked(a + b, 0, hi)
  {
    var m := a + b;
    forall i, j | 0 <= i < j < |m|
      ensures Position(m[i]) < Position(m[j])
    {
      if j < |a| {
        assert m[i] == a[i] && m[j] == a[j];
      } else if i < |a| {
        assert m[i] == a[i] && m[j] == b[j - |a|];
      } else {
        assert m[i] == b[i - |a|] && m[j] == b[j - |a|];
      }
    }
    forall i | 0 <= i < |m|
      ensures 0 <= Position(m[i]) < hi
    {
      if i < |a| {
        assert m[i] == a[i];
      } else {
        assert m[i] == b[i - |a|];
      }
    }
  }

  /** filterTasks as written: a request with a non-empty search always fails. */
  method FilterTasksAsWritten(store: TaskStore, q: FilterQuery, ok: bool) returns (r: Response<FilterResult>)
    requires store.Valid()
    ensures !Empty(Defaulted(q).search) ==> r == Response(false, "Failed to filter tasks", None)
    ensures r.success <==> ok && Empty(Defaulted(q).search)
  {
    AsWrittenPrepares(EffectiveCriteria(Defaulted(q)));
    r := Filter(store, q, ok, SearchAsWritten);
  }

  /** filterTasks with a marker per use of the search term: `ok` alone decides. */
  method FilterTasks(store: TaskStore, q: FilterQuery, ok: bool) returns (r: Response<FilterResult>)
    requires store.Valid()
    ensures r.success <==> ok
    ensures !ok ==> r == Response(false, "Failed to filter tasks", None)
    ensures ok ==> r.message == "Tasks filtered successfully" && r.data.Some?
    ensures ok && r.data.Some? ==>
      (&& FilterAnswer(store.table, Defaulted(q), r.data.value.tasks)
       && r.data.value.count == |r.data.value.tasks|
       && r.data.value.filters.activeFilters == ActiveLabels(Labelled(Defaulted(q)))
       && r.data.value.filters.filterCount == NonEmptyCount(Labelled(Defaulted(q)))
       && var p := Defaulted(q);
          r.data.value.filters == Summary(r.data.value.filters.activeFilters, r.data.value.filters.filterCount,
            p.priority, p.category, p.status, p.search, p.dateFrom, p.dateTo))
  {
    DistinctPrepares(EffectiveCriteria(Defaulted(q)));
    r := Filter(store, q, ok, SearchDistinct);
  }
}
