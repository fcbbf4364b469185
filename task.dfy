/**
 * The task record the whole system passes around: eight caller-settable fields, the
 * identifier and the two timestamps the store keeps, and the two enumerations.
 */
module TaskModel {
  import opened Common

  datatype Priority = Low | Medium | High

  datatype Status = Pending | InProgress | Completed

  function PriorityName(p: Priority): string {
    match p
    case Low => "Low"
    case Medium => "Medium"
    case High => "High"
  }

  function StatusName(s: Status): string {
    match s
    case Pending => "Pending"
    case InProgress => "In Progress"
    case Completed => "Completed"
  }

  /** in_array($s, ['Low', 'Medium', 'High']): exact, case-sensitive membership. */
  function ParsePriority(s: string): (r: Option<Priority>)
    ensures forall p :: r == Some(p) <==> s == PriorityName(p)
  {
    if s == "Low" then Some(Low)
    else if s == "Medium" then Some(Medium)
    else if s == "High" then Some(High)
    else None
  }

  /** in_array($s, ['Pending', 'In Progress', 'Completed']): exact, case-sensitive membership. */
  function ParseStatus(s: string): (r: Option<Status>)
    ensures forall st :: r == Some(st) <==> s == StatusName(st)
  {
    if s == "Pending" then Some(Pending)
    else if s == "In Progress" then Some(InProgress)
    else if s == "Completed" then Some(Completed)
    else None
  }

  lemma NamesParse(p: Priority, s: Status)
    ensures ParsePriority(PriorityName(p)) == Some(p)
    ensures ParseStatus(StatusName(s)) == Some(s)
  {
  }

  /** A priority that is missing or not one of the three names becomes Medium. */
  function PriorityOrDefault(s: Option<string>): (p: Priority)
    ensures s.Some? && ParsePriority(s.value).Some? ==> p == ParsePriority(s.value).value
    ensures (s.None? || ParsePriority(s.value).None?) ==> p == Medium
  {
    if s.Some? then ParsePriority(s.value).GetOr(Medium) else Medium
  }

  /** A status that is missing or not one of the three names becomes Pending. */
  function StatusOrDefault(s: Option<string>): (st: Status)
    ensures s.Some? && ParseStatus(s.value).Some? ==> st == ParseStatus(s.value).value
    ensures (s.None? || ParseStatus(s.value).None?) ==> st == Pending
  {
    if s.Some? then ParseStatus(s.value).GetOr(Pending) else Pending
  }

  /** FIELD(priority, 'High', 'Medium', 'Low'): the position in that list, so High sorts first. */
  function Rank(p: Priority): (n: int)
    ensures 1 <= n <= 3
  {
    match p
    case High => 1
    case Medium => 2
    case Low => 3
  }

  lemma RankOrder()
    ensures Rank(High) < Rank(Medium) < Rank(Low)
    ensures forall p, q :: Rank(p) == Rank(q) ==> p == q
  {
  }

  /**
   * The caller-settable columns of a row. task_date and due_date keep the text that was
   * written; a due date is None where the column is NULL.
   */
  datatype Fields = Fields(
    title: string,
    description: string,
    taskDate: string,
    dueDate: Option<string>,
    priority: Priority,
    category: string,
    status: Status,
    isCompleted: bool)

  /** created_at and updated_at are abstract, totally ordered timestamps. */
  datatype Task = Task(id: int, fields: Fields, createdAt: int, updatedAt: int)

  /** What add and update promise about every row they write: completion mirrors the status. */
  predicate CompletionAgrees(f: Fields) {
    f.isCompleted <==> f.status == Completed
  }

  // ---------------------------------------------------------------------------------------
  // toggleComplete's UPDATE:  SET is_completed = NOT is_completed,
  //                               status = CASE WHEN is_completed = 0 THEN 'Completed' ELSE 'Pending' END
  // ---------------------------------------------------------------------------------------

  /**
   * The UPDATE as MySQL runs it: single-table SET assignments are evaluated left to right,
   * so the CASE reads the is_completed value the first assignment has just written.
   */
  function ToggledAsWritten(f: Fields): (g: Fields)
    ensures g.isCompleted == !f.isCompleted
    ensures g == f.(isCompleted := g.isCompleted, status := g.status)
  {
    var flipped := !f.isCompleted;
    f.(isCompleted := flipped, status := if !flipped then Completed else Pending)
  }

  /** As written, a toggled row never has completion and status in agreement. */
  lemma ToggleAsWrittenDisagrees(f: Fields)
    ensures !CompletionAgrees(ToggledAsWritten(f))
    ensures ToggledAsWritten(f).isCompleted ==> ToggledAsWritten(f).status == Pending
  {
  }

  /** A pending task, once toggled, is marked done yet still says Pending. */
  lemma ToggleAsWrittenExample()
    ensures var f := Fields("Pay rent", "", "2024-05-01", None, Medium, "", Pending, false);
      CompletionAgrees(f)
      && ToggledAsWritten(f).isCompleted && ToggledAsWritten(f).status == Pending
  {
  }

  /** The evidently intended UPDATE: the status follows the new completion value. */
  function Toggled(f: Fields): (g: Fields)
    ensures g.isCompleted == !f.isCompleted
    ensures g.status == (if g.isCompleted then Completed else Pending)
    ensures g == f.(isCompleted := g.isCompleted, status := g.status)
  {
    var flipped := !f.isCompleted;
    f.(isCompleted := flipped, status := if flipped then Completed else Pending)
  }

  /** Toggling keeps completion and status in agreement, whatever the row held before. */
  lemma ToggledAgrees(f: Fields)
    ensures CompletionAgrees(Toggled(f))
  {
  }

  /** Toggling twice restores completion always, and the whole row unless it was In Progress. */
  lemma ToggleTwice(f: Fields)
    ensures Toggled(Toggled(f)).isCompleted == f.isCompleted
    ensures CompletionAgrees(f) && f.status != InProgress ==> Toggled(Toggled(f)) == f
  {
  }
}
