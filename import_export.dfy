/**
 * server/api/import-export.php: the two CSV exports and the CSV import. A CSV file is a
 * sequence of records, each a sequence of cells; the byte-level quoting of fputcsv and
 * fgetcsv is not modelled.
 */
module ImportExport {
  import opened Common
  import opened Gregorian
  import opened PhpBuiltins
  import opened Database
  import opened TaskModel
  import opened Sql
  import opened Query
  import opened Store

  type Row = seq<string>

  // ---------------------------------------------------------------------------------------
  // Export
  // ---------------------------------------------------------------------------------------

  const FullHeader: Row := ["ID", "Title", "Description", "Task Date", "Due Date",
    "Priority", "Category", "Status", "Completed", "Created At", "Updated At"]

  const FilteredHeader: Row := ["ID", "Title", "Description", "Task Date", "Due Date",
    "Priority", "Category", "Status", "Completed"]

  function CompletedCell(done: bool): string {
    if done then "Yes" else "No"
  }

  /** The nine cells exportFiltered writes for a row; a NULL due date is written as ''. */
  function FilteredRow(t: Task): (r: Row)
    ensures |r| == |FilteredHeader|
  {
    var f := t.fields;
    [IntText(t.id), f.title, f.description, f.taskDate, f.dueDate.GetOr(""),
     PriorityName(f.priority), f.category, StatusName(f.status), CompletedCell(f.isCompleted)]
  }

  /** The eleven cells exportTasks writes: the nine above, then the two timestamps. */
  function FullRow(t: Task): (r: Row)
    ensures |r| == |FullHeader|
    ensures r[..|FilteredHeader|] == FilteredRow(t)
  {
    FilteredRow(t) + [IntText(t.createdAt), IntText(t.updatedAt)]
  }

  /** What an export sends: the CSV records, or the JSON failure when the SELECT threw. */
  datatype Export = Csv(records: seq<Row>) | ExportFailed(reply: Response<()>)

  /** The record written for a fetched row: the eleven cells of exportTasks or the nine of exportFiltered. */
  function Record(full: bool, t: Task): (r: Row)
    ensures |r| == if full then |FullHeader| else |FilteredHeader|
  {
    if full then FullRow(t) else FilteredRow(t)
  }

  /** The fetch loop of both exports: the header, then one record per fetched row, in fetch order. */
  method WriteRecords(header: Row, tasks: seq<Task>, full: bool) returns (out: seq<Row>)
    ensures |out| == |tasks| + 1 && out[0] == header
    ensures forall i :: 0 <= i < |tasks| ==> out[i + 1] == Record(full, tasks[i])
  {
    out := [header];
    var i := 0;
    while i < |tasks|
      invariant 0 <= i <= |tasks|
      invariant |out| == i + 1 && out[0] == header
      invariant forall k :: 0 <= k < i ==> out[k + 1] == Record(full, tasks[k])
    {
      out := out + [Record(full, tasks[i])];
      i := i + 1;
    }
  }

  /**
   * exportTasks: the header, then one record per row of
   * `SELECT ... ORDER BY task_date DESC, created_at DESC`.
   */
  method ExportTasks(store: TaskStore, ok: bool) returns (e: Export)
    requires store.Valid()
    ensures !ok ==> e == ExportFailed(Response(false, "Failed to export tasks", None))
    ensures ok ==> e.Csv?
    ensures e.Csv? ==>
      var tasks := store.Rows(Everything, ExportOrder);
      && |e.records| == |tasks| + 1 && e.records[0] == FullHeader
      && forall i :: 0 <= i < |tasks| ==> e.records[i + 1] == FullRow(tasks[i])
  {
    if !ok {
      return ExportFailed(Response(false, "Failed to export tasks", None));
    }
    var tasks := store.Rows(Everything, ExportOrder);
    var out := WriteRecords(FullHeader, tasks, true);
    e := Csv(out);
  }

  /** A filter value of exportFiltered: applied when not PHP-empty, without any validation. */
  function Applied(v: string): (r: Option<string>)
    ensures r.Some? <==> !Empty(v)
    ensures r.Some? ==> r.value == v
  {
    if Empty(v) then None else Some(v)
  }

  /**
   * exportFiltered: the nine-column header, then one record per row matching the non-empty
   * filters, latest task_date first. Missing parameters are ''.
   */
  method ExportFiltered(store: TaskStore, priority: Option<string>, category: Option<string>,
                        status: Option<string>, ok: bool) returns (e: Export)
    requires store.Valid()
    ensures !ok ==> e == ExportFailed(Response(false, "Failed to export filtered tasks", None))
    ensures ok ==> e.Csv?
    ensures e.Csv? ==>
      var w := Columns(Applied(priority.GetOr("")), Applied(category.GetOr("")), Applied(status.GetOr("")));
      var tasks := store.Rows(w, DateDescOrder);
      && |e.records| == |tasks| + 1 && e.records[0] == FilteredHeader
      && forall i :: 0 <= i < |tasks| ==> e.records[i + 1] == FilteredRow(tasks[i])
  {
    var p, c, s := priority.GetOr(""), category.GetOr(""), status.GetOr("");
    var w := Columns(None, None, None);
    if !Empty(p) {
      w := w.(priority := Some(p));
    }
    if !Empty(c) {
      w := w.(category := Some(c));
    }
    if !Empty(s) {
      w := w.(status := Some(s));
    }
    if !ok {
      return ExportFailed(Response(false, "Failed to export filtered tasks", None));
    }
    var tasks := store.Rows(w, DateDescOrder);
    var out := WriteRecords(FilteredHeader, tasks, false);
    e := Csv(out);
  }

  /**
   * Unlike filterTasks, exportFiltered does not check the enumerations: a priority or status
   * that names no value selects no row at all.
   */
  lemma UncheckedFilterSelectsNothing(p: string, s: string, t: Task)
    ensures !Empty(p) && ParsePriority(p).None? ==> !Holds(Columns(Applied(p), None, None), t)
    ensures !Empty(s) && ParseStatus(s).None? ==> !Holds(Columns(None, None, Applied(s)), t)
  {
    NamesParse(t.fields.priority, t.fields.status);
  }

  // ---------------------------------------------------------------------------------------
  // Import: one CSV record
  // ---------------------------------------------------------------------------------------

  /** `$data[i] ?? $data[j] ?? default`: the first of the two cells the record has. */
  function Pick(data: Row, i: nat, j: nat, default: string): string {
    if i < |data| then data[i] else if j < |data| then data[j] else default
  }

  /** The eight values a record yields, each trimmed, before any check. */
  datatype Mapped = Mapped(
    title: string,
    description: string,
    taskDate: string,
    dueDate: string,
    priority: string,
    category: string,
    status: string,
    completed: string)

  function MapRow(data: Row): Mapped {
    Mapped(
      Trim(Pick(data, 1, 0, "")),
      Trim(Pick(data, 2, 1, "")),
      Trim(Pick(data, 3, 2, "")),
      Trim(Pick(data, 4, 3, "")),
      Trim(Pick(data, 5, 4, "Medium")),
      Trim(Pick(data, 6, 5, "")),
      Trim(Pick(data, 7, 6, "Pending")),
      Trim(Pick(data, 8, 7, "No")))
  }

  /**
   * On a record of at least four cells every field takes the highest of its candidate
   * indices the record has: title, description and task date are always cells 1, 2 and 3.
   */
  lemma ColumnMapping(data: Row)
    requires |data| >= 4
    ensures var m, n := MapRow(data), |data|;
      && m.title == Trim(data[1])
      && m.description == Trim(data[2])
      && m.taskDate == Trim(data[3])
      && m.dueDate == Trim(if n > 4 then data[4] else data[3])
      && m.priority == Trim(if n > 5 then data[5] else if n > 4 then data[4] else "Medium")
      && m.category == Trim(if n > 6 then data[6] else if n > 5 then data[5] else "")
      && m.status == Trim(if n > 7 then data[7] else if n > 6 then data[6] else "Pending")
      && m.completed == Trim(if n > 8 then data[8] else if n > 7 then data[7] else "No")
  {
  }

  /** A four-cell record reads its due date from the task-date cell; the last four fields take their defaults. */
  lemma FourCellsMapping(data: Row)
    requires |data| == 4
    ensures var m := MapRow(data);
      && m.dueDate == m.taskDate
      && m.priority == "Medium" && m.category == "" && m.status == "Pending" && m.completed == "No"
  {
    ColumnMapping(data);
    DefaultsTrimmed();
  }

  /** The defaults of the last three fields have nothing for trim to remove. */
  lemma DefaultsTrimmed()
    ensures Trim("Medium") == "Medium" && Trim("Pending") == "Pending" && Trim("No") == "No"
    ensures Trim("") == ""
  {
    MediumTrimmed();
    PendingTrimmed();
    NoTrimmed();
    TrimNoOp("");
  }

  // One literal per lemma: checking several literals' preconditions in one proof is costly.

  lemma MediumTrimmed()
    ensures Trim("Medium") == "Medium"
  {
    TrimNoOp("Medium");
  }

  lemma PendingTrimmed()
    ensures Trim("Pending") == "Pending"
  {
    TrimNoOp("Pending");
  }

  lemma NoTrimmed()
    ensures Trim("No") == "No"
  {
    TrimNoOp("No");
  }

  /** count(array_filter($data)) === 0: every cell is PHP-falsy ("" or "0"). */
  predicate IsBlank(data: Row) {
    forall i :: 0 <= i < |data| ==> Empty(data[i])
  }

  /**
   * in_array(strtolower($completed), ['yes', 'true', '1', 'completed']) with PHP's loose
   * comparison, under which a numeric string equal to 1 ("01", "1.0", "1e0") matches '1'.
   */
  predicate CompletedFlag(s: string) {
    var l := ToLower(s);
    l == "yes" || l == "true" || l == "completed" || (IsNumeric(l) && LeadingNumber(l) == 1.0)
  }

  /** What the loop body makes of one record. */
  datatype Verdict = Blank | Skip(reason: string) | Insertable(fields: Fields)

  /**
   * The checks of a record of at least four cells, on its trimmed values, in the order the
   * loop makes them: an empty title, an empty task date and an invalid task date skip the
   * record; an empty or invalid due date becomes NULL and an unknown priority or status takes
   * its default.
   */
  function Classify(m: Mapped): (v: Verdict)
    ensures !v.Blank?
    ensures v.Insertable? <==> !Empty(m.title) && !Empty(m.taskDate) && ValidateDate(m.taskDate)
    ensures Empty(m.title) ==> v == Skip("Missing title")
    ensures !Empty(m.title) && Empty(m.taskDate) ==> v == Skip("Missing task date")
    ensures !Empty(m.title) && !Empty(m.taskDate) && !ValidateDate(m.taskDate) ==>
      v == Skip("Invalid task date format")
    ensures v.Insertable? ==>
      var f := v.fields;
      && !Empty(f.title) && f.title == m.title && f.description == m.description
      && ValidateDate(f.taskDate) && f.taskDate == m.taskDate
      && (f.dueDate.Some? <==> !Empty(m.dueDate) && ValidateDate(m.dueDate))
      && (f.dueDate.Some? ==> f.dueDate.value == m.dueDate)
      && f.priority == ParsePriority(m.priority).GetOr(Medium)
      && f.category == m.category
      && f.status == ParseStatus(m.status).GetOr(Pending)
      && f.isCompleted == CompletedFlag(m.completed)
  {
    if Empty(m.title) then Skip("Missing title")
    else if Empty(m.taskDate) then Skip("Missing task date")
    else if !ValidateDate(m.taskDate) then Skip("Invalid task date format")
    else
      var due := if !Empty(m.dueDate) && ValidateDate(m.dueDate) then Some(m.dueDate) else None;
      Insertable(Fields(m.title, m.description, m.taskDate, due,
        ParsePriority(m.priority).GetOr(Medium), m.category,
        ParseStatus(m.status).GetOr(Pending), CompletedFlag(m.completed)))
  }

  /**
   * What the loop body makes of one record: a blank record is passed over, one of fewer than
   * four cells is skipped, and the others are checked on their mapped values.
   */
  function ClassifyRow(data: Row): (v: Verdict)
    ensures v.Blank? <==> IsBlank(data)
    ensures !IsBlank(data) && |data| < 4 ==> v == Skip("Insufficient data")
    ensures !IsBlank(data) && |data| >= 4 ==> v == Classify(MapRow(data))
    ensures v.Insertable? ==> ValidateDate(v.fields.taskDate) && !Empty(v.fields.title)
  {
    if IsBlank(data) then Blank
    else if |data| < 4 then Skip("Insufficient data")
    else Classify(MapRow(data))
  }

  /**
   * A record whose cells are only blanks is not blank to array_filter (" " is truthy), so it
   * is skipped as too short instead of passed over.
   */
  lemma WhitespaceRecordIsSkipped()
    ensures ClassifyRow([" "]) == Skip("Insufficient data")
    ensures ClassifyRow(["", "0"]) == Blank
  {
    var d: Row := [" "];
    assert d[0] == " " && !Empty(d[0]);
    assert !IsBlank(d);
    var e: Row := ["", "0"];
    assert Empty(e[0]) && Empty(e[1]);
    assert IsBlank(e);
  }

  /**
   * A four-column record title,task_date,priority,status without an id is read with its task
   * date as the title and its status as the task date, so it is skipped as an invalid date.
   */
  lemma {:induction false} FourColumnsWithoutId(title: string, date: string, p: Priority, s: Status)
    requires ValidateDate(date)
    ensures ClassifyRow([title, date, PriorityName(p), StatusName(s)]) == Skip("Invalid task date format")
  {
    var data: Row := [title, date, PriorityName(p), StatusName(s)];
    var m := MapRow(data);
    assert !IsBlank(data) && m.title == date && m.taskDate == StatusName(s) by {
      ValidatedIsTrimmed(date);
      FourColumnsMapped(data);
      StatusIsNoDate(s);
    }
    assert !Empty(m.title) by {
      ValidatedIsTrimmed(date);
    }
    assert !Empty(m.taskDate) && !ValidateDate(m.taskDate) by {
      StatusIsNoDate(s);
      LongNotEmpty(m.taskDate);
    }
  }

  lemma FourColumnsMapped(data: Row)
    requires |data| == 4 && !Empty(data[1])
    ensures !IsBlank(data) && MapRow(data).title == Trim(data[1]) && MapRow(data).taskDate == Trim(data[3])
  {
    ColumnMapping(data);
  }

  /** No status name is a date: its first character is a letter. */
  lemma StatusIsNoDate(s: Status)
    ensures !ValidateDate(StatusName(s)) && Trim(StatusName(s)) == StatusName(s)
    ensures |StatusName(s)| >= 2
  {
    var n := StatusName(s);
    assert !IsDigit(n[0]) && !IsTrimChar(n[0]) && !IsTrimChar(n[|n| - 1]);
    LetterFirstIsNoDate(n);
    TrimNoOp(n);
  }

  lemma LetterFirstIsNoDate(n: string)
    requires |n| >= 1 && !IsDigit(n[0])
    ensures !ValidateDate(n)
  {
    assert DigitRun(n, 0, 4) == 0;
  }

  // ---------------------------------------------------------------------------------------
  // Import: the loop over all records
  // ---------------------------------------------------------------------------------------

  /** The loop's variables after some records: the counters, the messages and the rows written. */
  datatype Tally = Tally(imported: nat, skipped: nat, errors: seq<string>, inserted: seq<Fields>)

  /** "Line N: " */
  function LinePrefix(line: nat): string {
    "Line " + NatText(line) + ": "
  }

  /** One pass of the loop body for the record on the given line, whose INSERT had outcome o. */
  function Step(s: Tally, line: nat, v: Verdict, o: Outcome): Tally {
    match v
    case Blank => s
    case Skip(reason) => s.(skipped := s.skipped + 1, errors := s.errors + [LinePrefix(line) + reason])
    case Insertable(f) =>
      match o
      case Done => s.(imported := s.imported + 1, inserted := s.inserted + [f])
      case ReturnedFalse => s.(skipped := s.skipped + 1, errors := s.errors + [LinePrefix(line) + "Failed to insert"])
      case Threw(message) => s.(skipped := s.skipped + 1, errors := s.errors + [LinePrefix(line) + message])
  }

  /** The verdicts of the data records, in file order. */
  function Verdicts(rows: seq<Row>): (vs: seq<Verdict>)
    ensures |vs| == |rows|
    ensures forall k :: 0 <= k < |rows| ==> vs[k] == ClassifyRow(rows[k])
  {
    seq(|rows|, k requires 0 <= k < |rows| => ClassifyRow(rows[k]))
  }

  /**
   * The loop after the records with verdicts vs: the k-th of them, counting from 0, is on
   * line k + 2 (the header is line 1) and its INSERT has outcome outcomes(k).
   */
  function Run(vs: seq<Verdict>, outcomes: nat -> Outcome): Tally
    decreases |vs|
  {
    if vs == [] then Tally(0, 0, [], [])
    else
      var k := |vs| - 1;
      Step(Run(vs[..k], outcomes), k + 2, vs[k], outcomes(k))
  }

  /** Run over one more record is one more Step. */
  lemma RunStep(vs: seq<Verdict>, i: nat, outcomes: nat -> Outcome)
    requires i < |vs|
    ensures Run(vs[..i + 1], outcomes) == Step(Run(vs[..i], outcomes), i + 2, vs[i], outcomes(i))
  {
    assert vs[..i + 1][..i] == vs[..i];
  }

  /** How many of the verdicts are not Blank. */
  function NonBlank(vs: seq<Verdict>): nat
    decreases |vs|
  {
    if vs == [] then 0
    else NonBlank(vs[..|vs| - 1]) + (if vs[|vs| - 1].Blank? then 0 else 1)
  }

  /**
   * Every record that is not blank adds one to exactly one of imported and skipped, every skip
   * leaves one message, and every import writes one row.
   */
  lemma {:induction false} RunAccounting(vs: seq<Verdict>, outcomes: nat -> Outcome)
    ensures Run(vs, outcomes).imported + Run(vs, outcomes).skipped == NonBlank(vs)
    ensures Run(vs, outcomes).skipped == |Run(vs, outcomes).errors|
    ensures Run(vs, outcomes).imported == |Run(vs, outcomes).inserted|
    decreases |vs|
  {
    if vs != [] {
      RunAccounting(vs[..|vs| - 1], outcomes);
    }
  }

  /** Later records do not change what earlier ones produced. */
  lemma {:induction false} RunExtends(vs: seq<Verdict>, more: seq<Verdict>, outcomes: nat -> Outcome)
    ensures Run(vs, outcomes).errors <= Run(vs + more, outcomes).errors
    ensures Run(vs, outcomes).inserted <= Run(vs + more, outcomes).inserted
    ensures Run(vs, outcomes).imported <= Run(vs + more, outcomes).imported
    ensures Run(vs, outcomes).skipped <= Run(vs + more, outcomes).skipped
    decreases |more|
  {
    if more == [] {
      assert vs + more == vs;
    } else {
      var all := vs + more;
      var shorter := more[..|more| - 1];
      assert all[..|all| - 1] == vs + shorter;
      RunExtends(vs, shorter, outcomes);
    }
  }

  /** Every row written is the fields of an insertable record whose INSERT succeeded. */
  lemma {:induction false} RunInsertsOnlyVerdicts(vs: seq<Verdict>, outcomes: nat -> Outcome)
    ensures forall f :: f in Run(vs, outcomes).inserted ==>
      exists k :: 0 <= k < |vs| && vs[k] == Insertable(f) && outcomes(k) == Done
    decreases |vs|
  {
    if vs != [] {
      var n := |vs| - 1;
      RunInsertsOnlyVerdicts(vs[..n], outcomes);
      forall f | f in Run(vs, outcomes).inserted
        ensures exists k :: 0 <= k < |vs| && vs[k] == Insertable(f) && outcomes(k) == Done
      {
        if f in Run(vs[..n], outcomes).inserted {
          var k :| 0 <= k < n && vs[..n][k] == Insertable(f) && outcomes(k) == Done;
          assert vs[k] == vs[..n][k];
        } else {
          assert vs[n] == Insertable(f) && outcomes(n) == Done;
        }
      }
    }
  }

  /** Outcomes of records that are not there change nothing. */
  lemma {:induction false} SameOutcomesSameRun(vs: seq<Verdict>, a: nat -> Outcome, b: nat -> Outcome)
    requires forall k: nat :: k < |vs| ==> a(k) == b(k)
    ensures Run(vs, a) == Run(vs, b)
    decreases |vs|
  {
    if vs != [] {
      SameOutcomesSameRun(vs[..|vs| - 1], a, b);
    }
  }

  /**
   * Isolation: when the INSERT of one record fails instead of succeeding, that record moves
   * from imported to skipped and every other record is processed the same.
   */
  lemma {:induction false} FailureIsolated(vs: seq<Verdict>, outcomes: nat -> Outcome, j: nat, failure: Outcome)
    requires failure != Done
    requires j < |vs| && vs[j].Insertable? && outcomes(j) == Done
    ensures var bad := (k: nat) => if k == j then failure else outcomes(k);
      && Run(vs, bad).imported + 1 == Run(vs, outcomes).imported
      && Run(vs, bad).skipped == Run(vs, outcomes).skipped + 1
    decreases |vs|
  {
    var bad := (k: nat) => if k == j then failure else outcomes(k);
    var n := |vs| - 1;
    if j < n {
      FailureIsolated(vs[..n], outcomes, j, failure);
      assert vs[..n][j] == vs[j];
      assert bad(n) == outcomes(n);
    } else {
      SameOutcomesSameRun(vs[..n], outcomes, bad);
    }
  }

  /** Every record insertable and every INSERT successful: all are imported, none skipped. */
  lemma {:induction false} AllInserted(vs: seq<Verdict>, outcomes: nat -> Outcome)
    requires forall k :: 0 <= k < |vs| ==> vs[k].Insertable?
    requires forall k: nat :: k < |vs| ==> outcomes(k) == Done
    ensures Run(vs, outcomes).imported == |vs|
    ensures Run(vs, outcomes).skipped == 0 && Run(vs, outcomes).errors == []
    decreases |vs|
  {
    if vs != [] {
      var n := |vs| - 1;
      assert forall k :: 0 <= k < n ==> vs[..n][k] == vs[k];
      AllInserted(vs[..n], outcomes);
    }
  }

  /**
   * A batch in which every record is insertable and every INSERT but the one of record j
   * succeeds: all others are imported, one is skipped, and the only message names line j + 2.
   */
  lemma {:induction false} OneFailingInsert(vs: seq<Verdict>, outcomes: nat -> Outcome, j: nat, message: string)
    requires forall k :: 0 <= k < |vs| ==> vs[k].Insertable?
    requires j < |vs| && outcomes(j) == Threw(message)
    requires forall k: nat :: k < |vs| && k != j ==> outcomes(k) == Done
    ensures Run(vs, outcomes).imported == |vs| - 1
    ensures Run(vs, outcomes).skipped == 1
    ensures Run(vs, outcomes).errors == [LinePrefix(j + 2) + message]
    decreases |vs|
  {
    var n := |vs| - 1;
    assert forall k :: 0 <= k < n ==> vs[..n][k] == vs[k];
    if j < n {
      OneFailingInsert(vs[..n], outcomes, j, message);
    } else {
      AllInserted(vs[..n], outcomes);
    }
  }

  /** Five records, the third failing: four imported, one skipped, the message names line 4. */
  lemma ThirdOfFiveFails(vs: seq<Verdict>, outcomes: nat -> Outcome, message: string)
    requires |vs| == 5 && forall k :: 0 <= k < 5 ==> vs[k].Insertable?
    requires outcomes(2) == Threw(message) && forall k: nat :: k < 5 && k != 2 ==> outcomes(k) == Done
    ensures Run(vs, outcomes).imported == 4 && Run(vs, outcomes).skipped == 1
    ensures Run(vs, outcomes).errors == ["Line 4: " + message]
  {
    OneFailingInsert(vs, outcomes, 2, message);
    LineFour();
  }

  lemma LineFour()
    ensures LinePrefix(4) == "Line 4: "
  {
    assert NatText(4) == "4" by {
      assert Width(4) == 1;
      assert DigitsOf(4, 1) == [DigitChar(4)];
      assert DigitChar(4) == '4';
    }
    var p := LinePrefix(4);
    assert p == "Line " + "4" + ": ";
    assert |p| == 8;
    assert forall k :: 0 <= k < 8 ==> p[k] == "Line 4: "[k];
  }

  // ---------------------------------------------------------------------------------------
  // Import: the endpoint
  // ---------------------------------------------------------------------------------------

  datatype ImportData = ImportData(imported: nat, skipped: nat, totalLines: int, errors: seq<string>)

  /** The rows written by consecutive INSERTs, starting at AUTO_INCREMENT value first. */
  function Appended(table: map<int, Task>, first: int, fs: seq<Fields>, now: int): map<int, Task>
    decreases |fs|
  {
    if fs == [] then table
    else
      var n := |fs| - 1;
      Appended(table, first, fs[..n], now)[first + n := Task(first + n, fs[n], now, now)]
  }

  lemma AppendedStep(table: map<int, Task>, first: int, fs: seq<Fields>, f: Fields, now: int)
    ensures Appended(table, first, fs + [f], now)
      == Appended(table, first, fs, now)[first + |fs| := Task(first + |fs|, f, now, now)]
  {
    assert (fs + [f])[..|fs|] == fs;
  }

  /** The table after one more record: one more row exactly when the record was inserted. */
  lemma AppendedAfter(table0: map<int, Task>, first: int, before: seq<Fields>, after: seq<Fields>,
                      v: Verdict, o: Outcome, now: int, tableBefore: map<int, Task>, tableAfter: map<int, Task>,
                      nextBefore: int, nextAfter: int)
    requires tableBefore == Appended(table0, first, before, now) && nextBefore == first + |before|
    requires after == if v.Insertable? && o == Done then before + [v.fields] else before
    requires v.Insertable? && o == Done ==>
      tableAfter == tableBefore[nextBefore := Task(nextBefore, v.fields, now, now)] && nextAfter == nextBefore + 1
    requires !(v.Insertable? && o == Done) ==> tableAfter == tableBefore && nextAfter == nextBefore
    ensures tableAfter == Appended(table0, first, after, now) && nextAfter == first + |after|
  {
    if v.Insertable? && o == Done {
      AppendedStep(table0, first, before, v.fields, now);
    }
  }

  /** "$imported task(s) imported successfully", with ", $skipped skipped" when any were. */
  function ImportMessage(imported: nat, skipped: nat): string {
    NatText(imported) + " task(s) imported successfully"
      + (if skipped > 0 then ", " + NatText(skipped) + " skipped" else "")
  }

  /**
   * The rest of importTasks' loop body once the record on the given line has verdict v: count
   * the skip, or INSERT the fields (with outcome o). `inserted` is the rows written so far.
   */
  method ImportRecord(store: TaskStore, v: Verdict, line: nat, o: Outcome, now: int,
                      imported: nat, skipped: nat, errors: seq<string>, ghost inserted: seq<Fields>)
    returns (imported': nat, skipped': nat, errors': seq<string>, ghost inserted': seq<Fields>)
    requires store.Valid() && (v.Insertable? ==> ValidateDate(v.fields.taskDate))
    modifies store
    ensures store.Valid()
    ensures Tally(imported', skipped', errors', inserted')
      == Step(Tally(imported, skipped, errors, inserted), line, v, o)
    ensures inserted' == if v.Insertable? && o == Done then inserted + [v.fields] else inserted
    ensures v.Insertable? && o == Done ==>
      && store.table == old(store.table)[old(store.nextId) := Task(old(store.nextId), v.fields, now, now)]
      && store.nextId == old(store.nextId) + 1
    ensures !(v.Insertable? && o == Done) ==> store.table == old(store.table) && store.nextId == old(store.nextId)
  {
    imported', skipped', errors', inserted' := imported, skipped, errors, inserted;
    match v {
      case Blank =>
      case Skip(reason) =>
        skipped' := skipped + 1;
        errors' := errors + [LinePrefix(line) + reason];
      case Insertable(f) =>
        match o {
          case Done =>
            var _ := store.Insert(f, now);
            imported' := imported + 1;
            inserted' := inserted + [f];
          case ReturnedFalse =>
            skipped' := skipped + 1;
            errors' := errors + [LinePrefix(line) + "Failed to insert"];
          case Threw(message) =>
            skipped' := skipped + 1;
            errors' := errors + [LinePrefix(line) + message];
        }
    }
  }

  /**
   * importTasks' loop over the data records (the header already read): each is classified and
   * either passed over, skipped with a message, or inserted with timestamp `now`; the k-th
   * INSERT attempt of the batch, counting records from 0, has outcome outcomes(k).
   */
  method ImportRows(store: TaskStore, rows: seq<Row>, outcomes: nat -> Outcome, now: int)
    returns (imported: nat, skipped: nat, errors: seq<string>, ghost inserted: seq<Fields>)
    requires store.Valid()
    modifies store
    ensures store.Valid()
    ensures Tally(imported, skipped, errors, inserted) == Run(Verdicts(rows), outcomes)
    ensures store.table == Appended(old(store.table), old(store.nextId), inserted, now)
    ensures store.nextId == old(store.nextId) + |inserted|
  {
    ghost var vs := Verdicts(rows);
    imported, skipped := 0, 0;
    errors := [];
    inserted := [];
    var lineNumber := 1;
    var i := 0;
    while i < |rows|
      invariant 0 <= i <= |rows| && lineNumber == i + 1
      invariant store.Valid()
      invariant Tally(imported, skipped, errors, inserted) == Run(vs[..i], outcomes)
      invariant store.table == Appended(old(store.table), old(store.nextId), inserted, now)
      invariant store.nextId == old(store.nextId) + |inserted|
    {
      RunStep(vs, i, outcomes);
      lineNumber := lineNumber + 1;
      var v := ClassifyRow(rows[i]);
      assert v == vs[i];
      ghost var before, tableBefore, nextBefore := inserted, store.table, store.nextId;
      ghost var t0 := Tally(imported, skipped, errors, inserted);
      imported, skipped, errors, inserted := ImportRecord(store, v, lineNumber, outcomes(i), now,
        imported, skipped, errors, inserted);
      assert Tally(imported, skipped, errors, inserted) == Step(t0, i + 2, vs[i], outcomes(i));
      AppendedAfter(old(store.table), old(store.nextId), before, inserted, v, outcomes(i), now,
        tableBefore, store.table, nextBefore, store.nextId);
      i := i + 1;
    }
    assert vs[..i] == vs;
  }

  /**
   * importTasks after the upload checks: `csv` is every record fgetcsv reads, the header first.
   * An empty file is refused; otherwise the reply counts the imported and skipped records,
   * the data records read, and carries the first ten messages.
   */
  method ImportTasks(store: TaskStore, csv: seq<Row>, outcomes: nat -> Outcome, now: int)
    returns (reply: Response<ImportData>)
    requires store.Valid()
    modifies store
    ensures store.Valid()
    ensures csv == [] ==>
      reply == Response(false, "Empty CSV file", None) && store.table == old(store.table) && store.nextId == old(store.nextId)
    ensures csv != [] ==>
      var t := Run(Verdicts(csv[1..]), outcomes);
      && reply.success && reply.message == ImportMessage(t.imported, t.skipped)
      && reply.data == Some(ImportData(t.imported, t.skipped, |csv| - 1, t.errors[..Min(10, |t.errors|)]))
      && store.table == Appended(old(store.table), old(store.nextId), t.inserted, now)
      && store.nextId == old(store.nextId) + |t.inserted|
  {
    if csv == [] {
      return Response(false, "Empty CSV file", None);
    }
    var imported, skipped, errors, inserted := ImportRows(store, csv[1..], outcomes, now);
    reply := Response(true, ImportMessage(imported, skipped),
      Some(ImportData(imported, skipped, |csv| - 1, errors[..Min(10, |errors|)])));
  }

  // ---------------------------------------------------------------------------------------
  // Export, then import
  // ---------------------------------------------------------------------------------------

  /** The enumeration names have nothing for trim to remove. */
  lemma NamesTrimmed(p: Priority, s: Status)
    ensures Trim(PriorityName(p)) == PriorityName(p)
    ensures Trim(StatusName(s)) == StatusName(s)
  {
    TrimNoOp(PriorityName(p));
    TrimNoOp(StatusName(s));
  }

  /** A cell starting with a letter is not numeric. */
  lemma LetterNotNumeric(s: string)
    requires |s| > 0 && 'a' <= s[0] <= 'z'
    ensures !IsNumeric(s)
  {
    assert SkipSpaces(s, 0) == 0 && SkipDigits(s, 0) == 0;
  }

  lemma YesCompleted()
    ensures CompletedFlag("Yes")
  {
    var l := ToLower("Yes");
    assert l[0] == 'y' && l[1] == 'e' && l[2] == 's';
    assert l == "yes";
  }

  lemma NoNotCompleted()
    ensures !CompletedFlag("No")
  {
    var l := ToLower("No");
    assert l[0] == 'n' && l[1] == 'o';
    assert l == "no";
    LetterNotNumeric(l);
  }

  /** The completion cell reads back as the completion it was written from. */
  lemma CompletedCellRoundTrip(done: bool)
    ensures Trim(CompletedCell(done)) == CompletedCell(done)
    ensures CompletedFlag(CompletedCell(done)) == done
  {
    TrimNoOp(CompletedCell(done));
    if done {
      YesCompleted();
    } else {
      NoNotCompleted();
    }
  }

  /** The text columns import reads back exactly: no surrounding whitespace and a title. */
  predicate Exportable(f: Fields) {
    && !Empty(f.title) && Trim(f.title) == f.title
    && Trim(f.description) == f.description
    && Trim(f.category) == f.category
    && ValidateDate(f.taskDate)
    && (f.dueDate.None? || ValidateDate(f.dueDate.value))
  }

  /** The cells of the full export of t, by position. */
  lemma FullCells(t: Task)
    ensures var r, f := FullRow(t), t.fields;
      && |r| == 11
      && r[1] == f.title && r[2] == f.description && r[3] == f.taskDate && r[4] == f.dueDate.GetOr("")
      && r[5] == PriorityName(f.priority) && r[6] == f.category && r[7] == StatusName(f.status)
      && r[8] == CompletedCell(f.isCompleted)
  {
    assert FullRow(t)[..9] == FilteredRow(t);
  }

  /** Importing a record of the full export writes the row's eight fields back unchanged. */
  lemma FullExportRoundTrip(t: Task)
    requires Exportable(t.fields)
    ensures ClassifyRow(FullRow(t)) == Insertable(t.fields)
  {
    FullCells(t);
    RoundTripCells(t.fields, FullRow(t));
  }

  /** Importing a record of the filtered export writes the row's eight fields back unchanged. */
  lemma FilteredExportRoundTrip(t: Task)
    requires Exportable(t.fields)
    ensures ClassifyRow(FilteredRow(t)) == Insertable(t.fields)
  {
    FullCells(t);
    assert FilteredRow(t) == FullRow(t)[..9];
    RoundTripCells(t.fields, FilteredRow(t));
  }

  /** A record carrying the nine exported cells of f in cells 0..8 imports as f. */
  lemma RoundTripCells(f: Fields, r: Row)
    requires Exportable(f) && |r| >= 9
    requires r[1] == f.title && r[2] == f.description && r[3] == f.taskDate && r[4] == f.dueDate.GetOr("")
    requires r[5] == PriorityName(f.priority) && r[6] == f.category && r[7] == StatusName(f.status)
    requires r[8] == CompletedCell(f.isCompleted)
    ensures ClassifyRow(r) == Insertable(f)
  {
    assert !IsBlank(r) by {
      assert !Empty(r[1]);
    }
    ColumnMapping(r);
    ValidatedIsTrimmed(f.taskDate);
    if f.dueDate.Some? {
      ValidatedIsTrimmed(f.dueDate.value);
    } else {
      DefaultsTrimmed();
    }
    NamesTrimmed(f.priority, f.status);
    CompletedCellRoundTrip(f.isCompleted);
    assert MapRow(r) == ExportedValues(f);
    ClassifyExported(f);
  }

  /** The trimmed values a record of the exports yields for f. */
  function ExportedValues(f: Fields): Mapped {
    Mapped(f.title, f.description, f.taskDate, f.dueDate.GetOr(""), PriorityName(f.priority),
      f.category, StatusName(f.status), CompletedCell(f.isCompleted))
  }

  /** The due-date cell of an exportable f is kept exactly when f has a due date. */
  lemma DueCell(f: Fields)
    requires f.dueDate.None? || ValidateDate(f.dueDate.value)
    ensures var c := f.dueDate.GetOr("");
      && (f.dueDate.Some? <==> !Empty(c) && ValidateDate(c))
      && (f.dueDate.Some? ==> f.dueDate.value == c)
  {
    if f.dueDate.Some? {
      ValidatedIsTrimmed(f.dueDate.value);
    } else {
      assert Empty("");
    }
  }

  /** The exported values of f pass every check and give back f. */
  lemma ClassifyExported(f: Fields)
    requires Exportable(f)
    ensures Classify(ExportedValues(f)) == Insertable(f)
  {
    var m := ExportedValues(f);
    ValidatedIsTrimmed(f.taskDate);
    DueCell(f);
    NamesParse(f.priority, f.status);
    CompletedCellRoundTrip(f.isCompleted);
    var v := Classify(m);
    assert v.Insertable?;
    assert v.fields == f;
  }
}
