/**
 * The SELECT statements of the server as values: a WHERE condition over one task row, the
 * ORDER BY clauses as integer sort keys, and a query result as a sorted sequence of rows.
 */
module Query {
  import opened Common
  import opened Gregorian
  import opened Database
  import opened TaskModel
  import opened Sql

  /** Sort value of a task_date; chronological on the strings validateDate accepts. */
  function DateKey(s: string): int {
    match DateOf(s)
    case Some(d) => Ordinal(d)
    case None => 0
  }

  /** On valid date strings, the sort value is chronological and identifies the string. */
  lemma DateKeyMeaning(s: string, t: string)
    requires ValidateDate(s) && ValidateDate(t)
    ensures DateKey(s) == DateKey(t) <==> s == t
    ensures DateKey(s) < DateKey(t) <==> Precedes(DateOf(s).value, DateOf(t).value)
  {
    OrdinalIsChronological(DateOf(s).value, DateOf(t).value);
    DateKeyIdentifies(s, t);
  }

  lemma DateKeyIdentifies(s: string, t: string)
    requires ValidateDate(s) && ValidateDate(t)
    ensures DateKey(s) == DateKey(t) <==> s == t
  {
    OrdinalIsChronological(DateOf(s).value, DateOf(t).value);
    DateOfInjective(s, t);
  }

  // ---------------------------------------------------------------------------------------
  // WHERE
  // ---------------------------------------------------------------------------------------

  /**
   * The conditions filterTasks actually adds to its WHERE clause; None where it adds none.
   * Date bounds are strings that passed validateDate.
   */
  datatype Criteria = Criteria(
    priority: Option<Priority>,
    category: Option<string>,
    status: Option<Status>,
    search: Option<string>,
    dateFrom: Option<string>,
    dateTo: Option<string>)

  /** `title LIKE '%term%' OR description LIKE '%term%'`. */
  predicate SearchHolds(term: string, t: Task) {
    LikeMatch("%" + term + "%", t.fields.title) || LikeMatch("%" + term + "%", t.fields.description)
  }

  /** The AND of the applied criteria; an absent criterion holds of every row. */
  predicate CriteriaHold(c: Criteria, t: Task) {
    && (c.priority.Some? ==> t.fields.priority == c.priority.value)
    && (c.category.Some? ==> t.fields.category == c.category.value)
    && (c.status.Some? ==> t.fields.status == c.status.value)
    && (c.search.Some? ==> SearchHolds(c.search.value, t))
    && (c.dateFrom.Some? ==> DateKey(t.fields.taskDate) >= DateKey(c.dateFrom.value))
    && (c.dateTo.Some? ==> DateKey(t.fields.taskDate) <= DateKey(c.dateTo.value))
  }

  /** The WHERE clauses of the queries. */
  datatype Where =
    | Everything                                                  // exportTasks
    | Filtered(criteria: Criteria)                                // filterTasks
    | Columns(priority: Option<string>, category: Option<string>, status: Option<string>)  // exportFiltered
    | InMonth(month: real, year: real)                            // getTasks
    | OnDate(date: string)                                        // getTasksByDate

  predicate Holds(w: Where, t: Task) {
    match w
    case Everything => true
    case Filtered(c) => CriteriaHold(c, t)
    case Columns(p, c, s) =>
      && (p.Some? ==> PriorityName(t.fields.priority) == p.value)
      && (c.Some? ==> t.fields.category == c.value)
      && (s.Some? ==> StatusName(t.fields.status) == s.value)
    case InMonth(m, y) =>
      DateOf(t.fields.taskDate).Some?
      && DateOf(t.fields.taskDate).value.month as real == m
      && DateOf(t.fields.taskDate).value.year as real == y
    case OnDate(d) => DateKey(t.fields.taskDate) == DateKey(d)
  }

  /** On valid dates, `task_date = :date` compares the date strings themselves. */
  lemma OnDateMeaning(d: string, t: Task)
    requires ValidateDate(d) && ValidateDate(t.fields.taskDate)
    ensures Holds(OnDate(d), t) <==> t.fields.taskDate == d
  {
    HoldsOnDate(d, t);
    DateKeyIdentifies(t.fields.taskDate, d);
  }

  lemma HoldsOnDate(d: string, t: Task)
    ensures Holds(OnDate(d), t) <==> DateKey(t.fields.taskDate) == DateKey(d)
  {
  }

  // ---------------------------------------------------------------------------------------
  // ORDER BY
  // ---------------------------------------------------------------------------------------

  /**
   * What `ORDER BY priority` sorts by: the table definition is not part of this model, so the
   * column's sort value for each priority is a parameter.
   */
  datatype PriorityColumn = PriorityColumn(low: int, medium: int, high: int)

  /** An ENUM('Low', 'Medium', 'High') column sorts by declaration index. */
  const EnumColumn := PriorityColumn(1, 2, 3)

  /** A character column sorts alphabetically: High, Low, Medium. */
  const TextColumn := PriorityColumn(2, 3, 1)

  function ColumnValue(col: PriorityColumn, p: Priority): int {
    match p
    case Low => col.low
    case Medium => col.medium
    case High => col.high
  }

  datatype Ordering =
    | FilterOrder              // task_date DESC, FIELD(priority, 'High', 'Medium', 'Low'), created_at DESC
    | MonthOrder(col: PriorityColumn)  // task_date ASC, priority DESC, created_at DESC
    | DayOrder                 // FIELD(priority, 'High', 'Medium', 'Low'), created_at DESC
    | ExportOrder              // task_date DESC, created_at DESC
    | DateDescOrder            // task_date DESC

  function KeyLength(o: Ordering): nat {
    match o
    case FilterOrder => 3
    case MonthOrder(_) => 3
    case DayOrder => 2
    case ExportOrder => 2
    case DateDescOrder => 1
  }

  /** The row's sort values, one per ORDER BY column, negated for DESC columns. */
  function Key(o: Ordering, t: Task): (k: seq<int>)
    ensures |k| == KeyLength(o)
  {
    var date := DateKey(t.fields.taskDate);
    match o
    case FilterOrder => [-date, Rank(t.fields.priority), -t.createdAt]
    case MonthOrder(col) => [date, -ColumnValue(col, t.fields.priority), -t.createdAt]
    case DayOrder => [Rank(t.fields.priority), -t.createdAt]
    case ExportOrder => [-date, -t.createdAt]
    case DateDescOrder => [-date]
  }

  /** Every row sorts no later than every row after it. */
  predicate Sorted(o: Ordering, s: seq<Task>) {
    forall i, j :: 0 <= i < j < |s| ==> LexLe(Key(o, s[i]), Key(o, s[j]))
  }

  predicate DistinctIds(s: seq<Task>) {
    forall i, j :: 0 <= i < j < |s| ==> s[i].id != s[j].id
  }

  /** a may precede b in filterTasks' order. */
  predicate FilterBefore(a: Task, b: Task) {
    var da, db := DateKey(a.fields.taskDate), DateKey(b.fields.taskDate);
    da > db || (da == db && (Rank(a.fields.priority) < Rank(b.fields.priority)
      || (a.fields.priority == b.fields.priority && a.createdAt >= b.createdAt)))
  }

  /** a may precede b in getTasks' order for the given priority column. */
  predicate MonthBefore(col: PriorityColumn, a: Task, b: Task) {
    var da, db := DateKey(a.fields.taskDate), DateKey(b.fields.taskDate);
    var pa, pb := ColumnValue(col, a.fields.priority), ColumnValue(col, b.fields.priority);
    da < db || (da == db && (pa > pb || (pa == pb && a.createdAt >= b.createdAt)))
  }

  /** a may precede b in getTasksByDate's order. */
  predicate DayBefore(a: Task, b: Task) {
    Rank(a.fields.priority) < Rank(b.fields.priority)
    || (a.fields.priority == b.fields.priority && a.createdAt >= b.createdAt)
  }

  /** a may precede b in exportTasks' order. */
  predicate ExportBefore(a: Task, b: Task) {
    var da, db := DateKey(a.fields.taskDate), DateKey(b.fields.taskDate);
    da > db || (da == db && a.createdAt >= b.createdAt)
  }

  /** a may precede b under the ordering, stated column by column as the ORDER BY clause reads. */
  predicate Before(o: Ordering, a: Task, b: Task) {
    match o
    case FilterOrder => FilterBefore(a, b)
    case MonthOrder(col) => MonthBefore(col, a, b)
    case DayOrder => DayBefore(a, b)
    case ExportOrder => ExportBefore(a, b)
    case DateDescOrder => DateKey(a.fields.taskDate) >= DateKey(b.fields.taskDate)
  }

  /** Each key comparison is the column-by-column ORDER BY rule it encodes. */
  lemma KeyMeaning(o: Ordering, a: Task, b: Task)
    ensures LexLe(Key(o, a), Key(o, b)) <==> Before(o, a, b)
  {
    match o
    case FilterOrder => FilterKeyMeaning(a, b);
    case MonthOrder(col) => MonthKeyMeaning(col, a, b);
    case DayOrder => DayKeyMeaning(a, b);
    case ExportOrder => LexLe2(Key(o, a), Key(o, b));
    case DateDescOrder => LexLe1(Key(o, a), Key(o, b));
  }

  lemma FilterKeyMeaning(a: Task, b: Task)
    ensures LexLe(Key(FilterOrder, a), Key(FilterOrder, b)) <==> FilterBefore(a, b)
  {
    RankOrder();
    LexLe3(Key(FilterOrder, a), Key(FilterOrder, b));
  }

  lemma MonthKeyMeaning(col: PriorityColumn, a: Task, b: Task)
    ensures LexLe(Key(MonthOrder(col), a), Key(MonthOrder(col), b)) <==> MonthBefore(col, a, b)
  {
    LexLe3(Key(MonthOrder(col), a), Key(MonthOrder(col), b));
  }

  lemma DayKeyMeaning(a: Task, b: Task)
    ensures LexLe(Key(DayOrder, a), Key(DayOrder, b)) <==> DayBefore(a, b)
  {
    RankOrder();
    LexLe2(Key(DayOrder, a), Key(DayOrder, b));
  }

  /** A sequence is sorted exactly when every row may precede every later row. */
  lemma SortedMeaning(o: Ordering, s: seq<Task>)
    ensures Sorted(o, s) <==> forall i, j :: 0 <= i < j < |s| ==> Before(o, s[i], s[j])
  {
    forall i, j | 0 <= i < j < |s|
      ensures LexLe(Key(o, s[i]), Key(o, s[j])) <==> Before(o, s[i], s[j])
    {
      KeyMeaning(o, s[i], s[j]);
    }
  }

  /** ORDER BY priority DESC: High, Medium, Low for an ENUM column, Medium, Low, High for text. */
  lemma PriorityDescending()
    ensures ColumnValue(EnumColumn, High) > ColumnValue(EnumColumn, Medium) > ColumnValue(EnumColumn, Low)
    ensures ColumnValue(TextColumn, Medium) > ColumnValue(TextColumn, Low) > ColumnValue(TextColumn, High)
  {
  }

  // ---------------------------------------------------------------------------------------
  // Evaluating a query
  // ---------------------------------------------------------------------------------------

  /** Every row is stored under its own id, and ids lie in 1..bound-1. */
  predicate TableShape(table: map<int, Task>, bound: nat) {
    forall k :: k in table ==> table[k].id == k && 0 < k < bound
  }

  /** The rows with id below n, by ascending id. */
  function RowsById(table: map<int, Task>, n: nat): (r: seq<Task>)
    requires forall k :: k in table ==> table[k].id == k
    ensures forall t :: t in r <==> t in table.Values && 0 <= t.id < n
    ensures forall t :: t in r ==> t.id in table && table[t.id] == t
    ensures forall i, j :: 0 <= i < j < |r| ==> r[i].id < r[j].id
  {
    if n == 0 then []
    else
      var prev := RowsById(table, n - 1);
      var k := n - 1;
      prev + (if k in table then [table[k]] else [])
  }

  lemma DistinctCons(x: Task, s: seq<Task>)
    requires DistinctIds(s) && forall y :: y in s ==> y.id != x.id
    ensures DistinctIds([x] + s)
  {
    var r := [x] + s;
    forall i, j | 0 <= i < j < |r|
      ensures r[i].id != r[j].id
    {
      if i > 0 {
        assert r[i] == s[i - 1] && r[j] == s[j - 1];
      } else {
        assert r[j] in s;
      }
    }
  }

  /** A distinct id at the head is distinct from every id after it. */
  lemma HeadIdFresh(s: seq<Task>)
    requires DistinctIds(s) && s != []
    ensures DistinctIds(s[1..])
    ensures forall y :: y in s[1..] ==> y.id != s[0].id
  {
    forall y | y in s[1..]
      ensures y.id != s[0].id
    {
      var k :| 0 <= k < |s[1..]| && s[1..][k] == y;
      assert s[k + 1] == y;
    }
  }

  function FilterRows(w: Where, s: seq<Task>): (r: seq<Task>)
    ensures forall t :: t in r <==> t in s && Holds(w, t)
    ensures DistinctIds(s) ==> DistinctIds(r)
  {
    if s == [] then []
    else
      var rest := FilterRows(w, s[1..]);
      if Holds(w, s[0]) then
        if DistinctIds(s) then
          HeadIdFresh(s);
          DistinctCons(s[0], rest);
          [s[0]] + rest
        else [s[0]] + rest
      else rest
  }

  /** Putting in front an element no later than any other keeps a sequence ordered by le. */
  lemma ConsKeepsOrder<T>(le: (T, T) -> bool, x: T, s: seq<T>)
    requires forall i, j :: 0 <= i < j < |s| ==> le(s[i], s[j])
    requires forall y :: y in s ==> le(x, y)
    ensures forall i, j :: 0 <= i < j < |s| + 1 ==> le(([x] + s)[i], ([x] + s)[j])
  {
    var r := [x] + s;
    forall i, j | 0 <= i < j < |r|
      ensures le(r[i], r[j])
    {
      if i > 0 {
        assert r[i] == s[i - 1] && r[j] == s[j - 1];
      } else {
        assert r[j] in s;
      }
    }
  }

  lemma SortedCons(o: Ordering, x: Task, s: seq<Task>)
    requires Sorted(o, s)
    requires forall y :: y in s ==> LexLe(Key(o, x), Key(o, y))
    ensures Sorted(o, [x] + s)
  {
    ConsKeepsOrder((a, b) => LexLe(Key(o, a), Key(o, b)), x, s);
  }

  lemma BelowHead(o: Ordering, x: Task, s: seq<Task>)
    requires Sorted(o, s) && s != [] && LexLe(Key(o, x), Key(o, s[0]))
    ensures forall y :: y in s ==> LexLe(Key(o, x), Key(o, y))
  {
    forall y | y in s
      ensures LexLe(Key(o, x), Key(o, y))
    {
      var k :| 0 <= k < |s| && s[k] == y;
      if k > 0 {
        LexLeTrans(Key(o, x), Key(o, s[0]), Key(o, y));
      }
    }
  }

  lemma HeadBelowTail(o: Ordering, s: seq<Task>)
    requires Sorted(o, s) && s != []
    ensures Sorted(o, s[1..])
    ensures forall y :: y in s[1..] ==> LexLe(Key(o, s[0]), Key(o, y))
  {
    forall y | y in s[1..]
      ensures LexLe(Key(o, s[0]), Key(o, y))
    {
      var k :| 0 <= k < |s[1..]| && s[1..][k] == y;
      assert s[k + 1] == y;
    }
  }

  /** Insertion into a sorted sequence. */
  function Insert(o: Ordering, t: Task, s: seq<Task>): (r: seq<Task>)
    requires Sorted(o, s)
    ensures |r| == |s| + 1
    ensures forall x :: x in r <==> x == t || x in s
    ensures Sorted(o, r)
    ensures DistinctIds(s) && (forall x :: x in s ==> x.id != t.id) ==> DistinctIds(r)
  {
    if s == [] then [t]
    else if LexLe(Key(o, t), Key(o, s[0])) then
      BelowHead(o, t, s);
      SortedCons(o, t, s);
      if DistinctIds(s) && (forall x :: x in s ==> x.id != t.id) then
        DistinctCons(t, s);
        [t] + s
      else [t] + s
    else
      LexLeTotal(Key(o, t), Key(o, s[0]));
      HeadBelowTail(o, s);
      var rest := Insert(o, t, s[1..]);
      SortedCons(o, s[0], rest);
      if DistinctIds(s) && (forall x :: x in s ==> x.id != t.id) then
        HeadIdFresh(s);
        DistinctCons(s[0], rest);
        [s[0]] + rest
      else [s[0]] + rest
  }

  /** Insertion sort by the ordering's keys. */
  function SortRows(o: Ordering, s: seq<Task>): (r: seq<Task>)
    ensures |r| == |s|
    ensures forall x :: x in r <==> x in s
    ensures Sorted(o, r)
    ensures DistinctIds(s) ==> DistinctIds(r)
  {
    if s == [] then []
    else
      var rest := SortRows(o, s[1..]);
      if DistinctIds(s) then
        HeadIdFresh(s);
        Insert(o, s[0], rest)
      else Insert(o, s[0], rest)
  }

  /**
   * `SELECT ... WHERE w ORDER BY o`: exactly the matching rows, each once, in the order.
   * MySQL leaves the order of rows with equal sort keys open; this model fixes one.
   */
  function Select(table: map<int, Task>, bound: nat, w: Where, o: Ordering): (r: seq<Task>)
    requires TableShape(table, bound)
    ensures forall t :: t in r <==> t in table.Values && Holds(w, t)
    ensures forall t :: t in r ==> t.id in table && table[t.id] == t
    ensures DistinctIds(r)
    ensures Sorted(o, r)
  {
    var all := RowsById(table, bound);
    assert DistinctIds(all);
    SortRows(o, FilterRows(w, all))
  }
}
