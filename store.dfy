/**
 * The tasks table as an object: rows keyed by their auto-increment id, and the four
 * statements that change it. Whether the database carries out a statement is decided
 * outside the model and passed in as an Outcome.
 */
module Store {
  import opened Common
  import opened Database
  import opened TaskModel
  import opened Query

  /** What PDOStatement::execute did: ran, returned false, or threw a PDOException. */
  datatype Outcome = Done | ReturnedFalse | Threw(message: string)

  /** The row a `WHERE id = :id` with the bound value idv selects, if there is one. */
  function RowFor(table: map<int, Task>, idv: real): (k: Option<int>)
    ensures k.Some? <==> exists j :: j in table && j as real == idv
    ensures k.Some? ==> k.value in table && k.value as real == idv
  {
    var j := idv.Floor;
    if j as real == idv && j in table then Some(j) else None
  }

  /** Overwriting a row with a task of the same id and a valid date keeps the table's shape. */
  lemma RowUpdateKeepsShape(table: map<int, Task>, bound: nat, k: int, u: Task, after: map<int, Task>)
    requires TableShape(table, bound) && (forall j :: j in table ==> ValidateDate(table[j].fields.taskDate))
    requires k in table && u.id == k && ValidateDate(u.fields.taskDate) && after == table[k := u]
    ensures TableShape(after, bound)
    ensures forall j :: j in after ==> ValidateDate(after[j].fields.taskDate)
  {
  }

  class TaskStore {
    var table: map<int, Task>
    /** The next AUTO_INCREMENT value. */
    var nextId: int

    /** Ids are positive, keys are the rows' ids, and every task_date passed validateDate. */
    predicate Valid()
      reads this
    {
      && nextId >= 1
      && TableShape(table, nextId)
      && (forall k :: k in table ==> ValidateDate(table[k].fields.taskDate))
    }

    constructor()
      ensures Valid() && table == map[] && nextId == 1
    {
      table := map[];
      nextId := 1;
    }

    /** `SELECT ... FROM tasks WHERE w ORDER BY o`. */
    function Rows(w: Where, o: Ordering): (r: seq<Task>)
      reads this
      requires Valid()
      ensures forall t :: t in r <==> t in table.Values && Holds(w, t)
      ensures forall t :: t in r ==> t.id in table && table[t.id] == t
      ensures DistinctIds(r) && Sorted(o, r)
    {
      Select(table, nextId, w, o)
    }

    /** INSERT: the new row gets the next id and both timestamps are `now`. */
    method Insert(f: Fields, now: int) returns (id: int)
      requires Valid() && ValidateDate(f.taskDate)
      modifies this
      ensures Valid()
      ensures id == old(nextId) && id !in old(table)
      ensures table == old(table)[id := Task(id, f, now, now)]
      ensures nextId == old(nextId) + 1
    {
      id := nextId;
      table := table[id := Task(id, f, now, now)];
      nextId := nextId + 1;
    }

    /**
     * `UPDATE tasks SET <all eight fields> WHERE id = :id`; returns the number of rows matched.
     * updated_at (ON UPDATE CURRENT_TIMESTAMP) moves to `now` only when some value changes.
     */
    method Replace(idv: real, f: Fields, now: int) returns (matched: nat)
      requires Valid() && ValidateDate(f.taskDate)
      modifies this
      ensures Valid() && nextId == old(nextId)
      ensures matched == (if RowFor(old(table), idv).Some? then 1 else 0)
      ensures RowFor(old(table), idv).None? ==> table == old(table)
      ensures RowFor(old(table), idv).Some? ==>
        var k := RowFor(old(table), idv).value;
        var t := old(table)[k];
        table == old(table)[k := t.(fields := f, updatedAt := if f == t.fields then t.updatedAt else now)]
    {
      var k := RowFor(table, idv);
      if k.Some? {
        var t := table[k.value];
        var u := t.(fields := f, updatedAt := if f == t.fields then t.updatedAt else now);
        RowUpdateKeepsShape(table, nextId, k.value, u, table[k.value := u]);
        table := table[k.value := u];
        matched := 1;
      } else {
        matched := 0;
      }
    }

    /** `DELETE FROM tasks WHERE id = :id`; returns the number of rows deleted. */
    method Delete(idv: real) returns (deleted: nat)
      requires Valid()
      modifies this
      ensures Valid() && nextId == old(nextId)
      ensures deleted == (if RowFor(old(table), idv).Some? then 1 else 0)
      ensures RowFor(old(table), idv).None? ==> table == old(table)
      ensures RowFor(old(table), idv).Some? ==> table == old(table) - {RowFor(old(table), idv).value}
    {
      var k := RowFor(table, idv);
      if k.Some? {
        table := table - {k.value};
        deleted := 1;
      } else {
        deleted := 0;
      }
    }

    /** toggleComplete's UPDATE, with the status following the new completion value (see Toggled). */
    method Toggle(idv: real, now: int) returns (matched: nat)
      requires Valid()
      modifies this
      ensures Valid() && nextId == old(nextId)
      ensures matched == (if RowFor(old(table), idv).Some? then 1 else 0)
      ensures RowFor(old(table), idv).None? ==> table == old(table)
      ensures RowFor(old(table), idv).Some? ==>
        var k := RowFor(old(table), idv).value;
        table == old(table)[k := old(table)[k].(fields := Toggled(old(table)[k].fields), updatedAt := now)]
    {
      var k := RowFor(table, idv);
      if k.Some? {
        var t := table[k.value];
        table := table[k.value := t.(fields := Toggled(t.fields), updatedAt := now)];
        matched := 1;
      } else {
        matched := 0;
      }
    }
  }
}
