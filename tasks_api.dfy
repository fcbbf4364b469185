/**
 * The operations of server/api/tasks.php: add, update, delete and toggle a task, and the
 * month and exact-date queries. Request values arrive as strings, None where the key is
 * missing or null; `now` and `today` stand for the server clock.
 */
module TasksApi {
  import opened Common
  import opened Gregorian
  import opened PhpBuiltins
  import opened Database
  import opened TaskModel
  import opened Sql
  import opened Query
  import opened Store

  /** The decoded JSON body of addTask and updateTask. */
  datatype TaskInput = TaskInput(
    id: Option<string>,
    title: Option<string>,
    description: Option<string>,
    taskDate: Option<string>,
    dueDate: Option<string>,
    priority: Option<string>,
    category: Option<string>,
    status: Option<string>)

  datatype Checked = Rejected(message: string) | Accepted(fields: Fields)

  /** The five request checks, in the order addTask (no id check) and updateTask make them. */
  predicate IdMissing(input: TaskInput, isUpdate: bool) { isUpdate && EmptyOpt(input.id) }

  predicate BadDueDate(input: TaskInput) {
    !EmptyOpt(input.dueDate) && !ValidateDate(input.dueDate.value)
  }

  /**
   * The validation and normalisation addTask and updateTask share: the first failing check
   * decides the message; otherwise the row to write, with sanitised text, defaulted enums and
   * is_completed derived from the status.
   */
  function PrepareFields(input: TaskInput, isUpdate: bool): (r: Checked)
    ensures IdMissing(input, isUpdate) ==> r == Rejected("Task ID is required")
    ensures !IdMissing(input, isUpdate) && EmptyOpt(input.title) ==> r == Rejected("Task title is required")
    ensures (!IdMissing(input, isUpdate) && !EmptyOpt(input.title) && EmptyOpt(input.taskDate)) ==>
      r == Rejected("Task date is required")
    ensures (!IdMissing(input, isUpdate) && !EmptyOpt(input.title) && !EmptyOpt(input.taskDate)
             && !ValidateDate(input.taskDate.value)) ==>
      r == Rejected("Invalid task date format")
    ensures (!IdMissing(input, isUpdate) && !EmptyOpt(input.title) && !EmptyOpt(input.taskDate)
             && ValidateDate(input.taskDate.value) && BadDueDate(input)) ==>
      r == Rejected("Invalid due date format")
    ensures r.Accepted? <==>
      (!IdMissing(input, isUpdate) && !EmptyOpt(input.title) && !EmptyOpt(input.taskDate)
       && ValidateDate(input.taskDate.value) && !BadDueDate(input))
    ensures r.Accepted? ==> var f := r.fields;
      && CompletionAgrees(f)
      && f.taskDate == input.taskDate.value && ValidateDate(f.taskDate)
      && f.dueDate == input.dueDate
      && f.priority == PriorityOrDefault(input.priority)
      && f.status == StatusOrDefault(input.status)
      && f.title == SanitizeText(input.title.value)
      && f.description == SanitizeText(input.description.GetOr(""))
      && f.category == SanitizeText(input.category.GetOr(""))
      && HtmlSafe(f.title) && HtmlSafe(f.description) && HtmlSafe(f.category)
  {
    if IdMissing(input, isUpdate) then Rejected("Task ID is required")
    else if EmptyOpt(input.title) then Rejected("Task title is required")
    else if EmptyOpt(input.taskDate) then Rejected("Task date is required")
    else if !ValidateDate(input.taskDate.value) then Rejected("Invalid task date format")
    else if BadDueDate(input) then Rejected("Invalid due date format")
    else
      var title := SanitizeText(input.title.value);
      var description := SanitizeText(input.description.GetOr(""));
      var category := SanitizeText(input.category.GetOr(""));
      SanitizeTextSafe(input.title.value);
      SanitizeTextSafe(input.description.GetOr(""));
      SanitizeTextSafe(input.category.GetOr(""));
      var status := StatusOrDefault(input.status);
      Accepted(Fields(title, description, input.taskDate.value, input.dueDate,
        PriorityOrDefault(input.priority), category, status, status == Completed))
  }

  /**
   * The title check looks at the raw value and sanitising trims afterwards, so a title of
   * spaces passes and is stored as the empty string.
   */
  lemma BlankTitleStoredEmpty(date: string)
    requires ValidateDate(date)
    ensures var input := TaskInput(None, Some("   "), None, Some(date), None, None, None, None);
      PrepareFields(input, false).Accepted? && PrepareFields(input, false).fields.title == ""
  {
    BlankTitleAccepted(date);
    SanitizeBlank();
  }

  lemma BlankTitleAccepted(date: string)
    requires ValidateDate(date)
    ensures var input := TaskInput(None, Some("   "), None, Some(date), None, None, None, None);
      PrepareFields(input, false).Accepted? && PrepareFields(input, false).fields.title == SanitizeText("   ")
  {
    var input := TaskInput(None, Some("   "), None, Some(date), None, None, None, None);
    ValidatedIsTrimmed(date);
    assert !EmptyOpt(input.title) && !EmptyOpt(input.taskDate) && !BadDueDate(input);
  }

  /** addTask: validate, then INSERT; the reply carries the new id. */
  method AddTask(store: TaskStore, input: TaskInput, now: int, outcome: Outcome) returns (reply: Response<int>)
    requires store.Valid()
    modifies store
    ensures store.Valid()
    ensures PrepareFields(input, false).Rejected? ==>
      reply == Response(false, PrepareFields(input, false).message, None)
    ensures PrepareFields(input, false).Accepted? && outcome != Done ==>
      reply == Response(false, "Failed to add task", None)
    ensures !(PrepareFields(input, false).Accepted? && outcome == Done) ==>
      store.table == old(store.table) && store.nextId == old(store.nextId)
    ensures PrepareFields(input, false).Accepted? && outcome == Done ==>
      var id := old(store.nextId);
      && reply == Response(true, "Task added successfully", Some(id))
      && store.table == old(store.table)[id := Task(id, PrepareFields(input, false).fields, now, now)]
  {
    var checked := PrepareFields(input, false);
    if checked.Rejected? {
      return Response(false, checked.message, None);
    }
    if outcome != Done {
      return Response(false, "Failed to add task", None);
    }
    var id := store.Insert(checked.fields, now);
    reply := Response(true, "Task added successfully", Some(id));
  }

  /**
   * updateTask: validate, then UPDATE every caller-settable column of the row whose id equals
   * the given id as MySQL compares them. The row count is not looked at, so an id that selects
   * no row still reports success.
   */
  method UpdateTask(store: TaskStore, input: TaskInput, now: int, outcome: Outcome) returns (reply: Response<()>)
    requires store.Valid()
    modifies store
    ensures store.Valid() && store.nextId == old(store.nextId)
    ensures PrepareFields(input, true).Rejected? ==>
      reply == Response(false, PrepareFields(input, true).message, None)
    ensures PrepareFields(input, true).Accepted? && outcome != Done ==>
      reply == Response(false, "Failed to update task", None)
    ensures !(PrepareFields(input, true).Accepted? && outcome == Done) ==> store.table == old(store.table)
    ensures PrepareFields(input, true).Accepted? && outcome == Done ==>
      reply == Response(true, "Task updated successfully", None)
    ensures PrepareFields(input, true).Accepted? && outcome == Done
            && RowFor(old(store.table), LeadingNumber(input.id.value)).None? ==>
      store.table == old(store.table)
    ensures PrepareFields(input, true).Accepted? && outcome == Done
            && RowFor(old(store.table), LeadingNumber(input.id.value)).Some? ==>
      var k := RowFor(old(store.table), LeadingNumber(input.id.value)).value;
      var t, f := old(store.table)[k], PrepareFields(input, true).fields;
      store.table == old(store.table)[k := t.(fields := f, updatedAt := if f == t.fields then t.updatedAt else now)]
  {
    var checked := PrepareFields(input, true);
    if checked.Rejected? {
      return Response(false, checked.message, None);
    }
    if outcome != Done {
      return Response(false, "Failed to update task", None);
    }
    var _ := store.Replace(LeadingNumber(input.id.value), checked.fields, now);
    reply := Response(true, "Task updated successfully", None);
  }

  /** The id check of deleteTask and toggleComplete: present, not "0", and numeric. */
  predicate IdAccepted(id: Option<string>) {
    !EmptyOpt(id) && IsNumeric(id.value)
  }

  /** A task id as the client sends it, its decimal text, passes the id check unless it is 0. */
  lemma IdTextAccepted(k: int)
    ensures IdAccepted(Some(IntText(k))) <==> k != 0
  {
    LeadingNumberOfIntText(k);
    if k == 0 {
      assert IntText(0) == DigitsOf(0, 1);
    } else if k > 0 {
      assert IntText(k) != "0" by {
        NatTextValue(k);
        assert Value("0") == 0;
      }
    } else {
      assert IntText(k)[0] == '-';
    }
  }

  /** The row such an id selects is the row stored under that id. */
  lemma IdTextSelects(table: map<int, Task>, k: int)
    ensures RowFor(table, LeadingNumber(IntText(k))) == if k in table then Some(k) else None
  {
    LeadingNumberOfIntText(k);
    assert (k as real).Floor == k;
  }

  /** deleteTask: succeeds exactly when a row with the id existed, which is then gone. */
  method DeleteTask(store: TaskStore, id: Option<string>, outcome: Outcome) returns (reply: Response<()>)
    requires store.Valid()
    modifies store
    ensures store.Valid() && store.nextId == old(store.nextId)
    ensures !IdAccepted(id) ==> reply == Response(false, "Valid task ID is required", None)
    ensures IdAccepted(id) && outcome == ReturnedFalse ==>
      reply == Response(false, "Task not found or already deleted", None)
    ensures IdAccepted(id) && outcome.Threw? ==> reply == Response(false, "Failed to delete task", None)
    ensures !(IdAccepted(id) && outcome == Done) ==> store.table == old(store.table)
    ensures IdAccepted(id) && outcome == Done && RowFor(old(store.table), LeadingNumber(id.value)).None? ==>
      reply == Response(false, "Task not found or already deleted", None) && store.table == old(store.table)
    ensures IdAccepted(id) && outcome == Done && RowFor(old(store.table), LeadingNumber(id.value)).Some? ==>
      var k := RowFor(old(store.table), LeadingNumber(id.value)).value;
      reply == Response(true, "Task deleted successfully", None) && store.table == old(store.table) - {k}
  {
    if !IdAccepted(id) {
      return Response(false, "Valid task ID is required", None);
    }
    match outcome
    case ReturnedFalse => reply := Response(false, "Task not found or already deleted", None);
    case Threw(_) => reply := Response(false, "Failed to delete task", None);
    case Done =>
      var deleted := store.Delete(LeadingNumber(id.value));
      if deleted > 0 {
        reply := Response(true, "Task deleted successfully", None);
      } else {
        reply := Response(false, "Task not found or already deleted", None);
      }
  }

  /** toggleComplete: flips completion of the selected row; reports not-found when none matched. */
  method ToggleComplete(store: TaskStore, id: Option<string>, now: int, outcome: Outcome) returns (reply: Response<()>)
    requires store.Valid()
    modifies store
    ensures store.Valid() && store.nextId == old(store.nextId)
    ensures !IdAccepted(id) ==> reply == Response(false, "Valid task ID is required", None)
    ensures IdAccepted(id) && outcome == ReturnedFalse ==> reply == Response(false, "Task not found", None)
    ensures IdAccepted(id) && outcome.Threw? ==> reply == Response(false, "Failed to update task status", None)
    ensures !(IdAccepted(id) && outcome == Done) ==> store.table == old(store.table)
    ensures IdAccepted(id) && outcome == Done && RowFor(old(store.table), LeadingNumber(id.value)).None? ==>
      reply == Response(false, "Task not found", None) && store.table == old(store.table)
    ensures IdAccepted(id) && outcome == Done && RowFor(old(store.table), LeadingNumber(id.value)).Some? ==>
      var k := RowFor(old(store.table), LeadingNumber(id.value)).value;
      var t := old(store.table)[k];
      reply == Response(true, "Task status updated successfully", None)
      && store.table == old(store.table)[k := t.(fields := Toggled(t.fields), updatedAt := now)]
  {
    if !IdAccepted(id) {
      return Response(false, "Valid task ID is required", None);
    }
    match outcome
    case ReturnedFalse => reply := Response(false, "Task not found", None);
    case Threw(_) => reply := Response(false, "Failed to update task status", None);
    case Done =>
      var matched := store.Toggle(LeadingNumber(id.value), now);
      if matched > 0 {
        reply := Response(true, "Task status updated successfully", None);
      } else {
        reply := Response(false, "Task not found", None);
      }
  }

  // ---------------------------------------------------------------------------------------
  // Queries
  // ---------------------------------------------------------------------------------------

  /** is_numeric(s) and lo <= s <= hi, compared as numbers the way PHP compares them. */
  predicate NumberInRange(s: string, lo: real, hi: real) {
    IsNumeric(s) && lo <= LeadingNumber(s) <= hi
  }

  datatype MonthResult = MonthResult(tasks: seq<Task>, count: int, month: int, year: int)

  /** The month parameter, defaulting to date('m'): today's month, two digits. */
  function MonthParam(month: Option<string>, today: Date): string
    requires IsValid(today)
  {
    month.GetOr(DigitsOf(today.month, 2))
  }

  /** The year parameter, defaulting to date('Y'). */
  function YearParam(year: Option<string>, today: Date): string {
    year.GetOr(YearText(today.year))
  }

  /**
   * What getTasks promises about its answer: exactly the rows whose task_date falls in month
   * m of year y, each once, task_date ascending, then priority descending as the column sorts,
   * then newest first; and the two numbers echoed as (int) casts.
   */
  ghost predicate MonthAnswer(table: map<int, Task>, col: PriorityColumn, m: string, y: string, res: MonthResult) {
    && (forall t :: t in res.tasks <==> t in table.Values && Holds(InMonth(LeadingNumber(m), LeadingNumber(y)), t))
    && DistinctIds(res.tasks)
    && (forall i, j :: 0 <= i < j < |res.tasks| ==> MonthBefore(col, res.tasks[i], res.tasks[j]))
    && res.count == |res.tasks|
    && res.month == LeadingNumber(m).Floor && res.year == LeadingNumber(y).Floor
  }

  /** getTasks. `ok` says whether the SELECT ran. */
  function GetTasks(store: TaskStore, month: Option<string>, year: Option<string>, today: Date,
                    col: PriorityColumn, ok: bool): (r: Response<MonthResult>)
    reads store
    requires store.Valid() && IsValid(today)
    ensures var m, y := MonthParam(month, today), YearParam(year, today);
      && (!NumberInRange(m, 1.0, 12.0) ==> r == Response(false, "Invalid month", None))
      && (NumberInRange(m, 1.0, 12.0) && !NumberInRange(y, 2000.0, 2100.0) ==> r == Response(false, "Invalid year", None))
      && (NumberInRange(m, 1.0, 12.0) && NumberInRange(y, 2000.0, 2100.0) && !ok ==>
            r == Response(false, "Failed to retrieve tasks", None))
      && (r.success <==> NumberInRange(m, 1.0, 12.0) && NumberInRange(y, 2000.0, 2100.0) && ok)
      && (r.success ==> r.data.Some? && MonthAnswer(store.table, col, m, y, r.data.value))
  {
    var m, y := MonthParam(month, today), YearParam(year, today);
    if !NumberInRange(m, 1.0, 12.0) then Response(false, "Invalid month", None)
    else if !NumberInRange(y, 2000.0, 2100.0) then Response(false, "Invalid year", None)
    else if !ok then Response(false, "Failed to retrieve tasks", None)
    else
      var o := MonthOrder(col);
      var tasks := store.Rows(InMonth(LeadingNumber(m), LeadingNumber(y)), o);
      SortedMeaning(o, tasks);
      Response(true, "Tasks retrieved successfully",
        Some(MonthResult(tasks, |tasks|, LeadingNumber(m).Floor, LeadingNumber(y).Floor)))
  }

  datatype DayResult = DayResult(tasks: seq<Task>, count: int, date: string)

  /** On valid stored dates, `task_date = :date` selects the rows whose date string is d. */
  lemma OnDateIsEquality(table: map<int, Task>, d: string, tasks: seq<Task>)
    requires ValidateDate(d)
    requires forall k :: k in table ==> ValidateDate(table[k].fields.taskDate)
    requires forall t :: t in tasks <==> t in table.Values && Holds(OnDate(d), t)
    requires forall t :: t in tasks ==> t.id in table && table[t.id] == t
    ensures forall t :: t in tasks <==> t in table.Values && t.fields.taskDate == d
  {
    forall t | t in tasks
      ensures t.fields.taskDate == d
    {
      OnDateMeaning(d, t);
    }
  }

  /**
   * What getTasksByDate promises: exactly the rows dated d, each once, High before Medium
   * before Low, then newest first.
   */
  ghost predicate DayAnswer(table: map<int, Task>, d: string, res: DayResult) {
    && (forall t :: t in res.tasks <==> t in table.Values && t.fields.taskDate == d)
    && DistinctIds(res.tasks)
    && (forall i, j :: 0 <= i < j < |res.tasks| ==> DayBefore(res.tasks[i], res.tasks[j]))
    && res.count == |res.tasks| && res.date == d
  }

  /** getTasksByDate, with the date defaulting to date('Y-m-d'). */
  function GetTasksByDate(store: TaskStore, date: Option<string>, today: Date, ok: bool): (r: Response<DayResult>)
    reads store
    requires store.Valid() && IsValid(today)
    ensures var d := date.GetOr(FormatYmd(today));
      && (!ValidateDate(d) ==> r == Response(false, "Invalid date format. Use Y-m-d format.", None))
      && (ValidateDate(d) && !ok ==> r == Response(false, "Failed to retrieve tasks", None))
      && (r.success <==> ValidateDate(d) && ok)
      && (r.success ==> r.data.Some? && DayAnswer(store.table, d, r.data.value))
  {
    var d := date.GetOr(FormatYmd(today));
    if !ValidateDate(d) then Response(false, "Invalid date format. Use Y-m-d format.", None)
    else if !ok then Response(false, "Failed to retrieve tasks", None)
    else
      var tasks := store.Rows(OnDate(d), DayOrder);
      SortedMeaning(DayOrder, tasks);
      OnDateIsEquality(store.table, d, tasks);
      Response(true, "Tasks retrieved successfully", Some(DayResult(tasks, |tasks|, d)))
  }
}
