/** `DBTaskOutputTarget`: rows of the `task_outputs` table, looked up by task
    id and holding the task family, its serialised parameters and an opaque
    output value. `write` always appends a row, so a task can have several;
    `upsert` never adds a second one. The table is modelled as the sequence of its rows;
    the database session's query, commit and rollback are reduced to what
    they do to that sequence. */
module TaskOutputs {
  import opened Wrappers
  import opened Frames

  datatype TaskOutput = TaskOutput(taskId: string, taskFamily: string, params: string, value: Value)

  /** The parts of a workflow task that `create` reads. */
  datatype Task = Task(taskId: string, taskFamily: string, strParams: string)

  /** The exceptions raised by `.one()` and `.one_or_none()`. */
  datatype LookupError = NoResultFound | MultipleResultsFound

  /** The rows filed under `id`, in table order: `query(...).filter(task_id == id)`. */
  function Matching(rows: seq<TaskOutput>, id: string): (r: seq<TaskOutput>)
    ensures |r| <= |rows|
    ensures forall k :: 0 <= k < |r| ==> r[k].taskId == id
    decreases |rows|
  {
    if rows == [] then []
    else
      var last := rows[|rows| - 1];
      Matching(rows[..|rows| - 1], id) + (if last.taskId == id then [last] else [])
  }

  /** The rows filed under any other id, in table order. */
  function Others(rows: seq<TaskOutput>, id: string): (r: seq<TaskOutput>)
    ensures |r| <= |rows|
    ensures forall k :: 0 <= k < |r| ==> r[k].taskId != id
    decreases |rows|
  {
    if rows == [] then []
    else
      var last := rows[|rows| - 1];
      Others(rows[..|rows| - 1], id) + (if last.taskId != id then [last] else [])
  }

  ghost predicate HasRow(rows: seq<TaskOutput>, id: string) {
    exists i :: 0 <= i < |rows| && rows[i].taskId == id
  }

  lemma {:induction false} MatchingEmptyIff(rows: seq<TaskOutput>, id: string)
    ensures Matching(rows, id) == [] <==> !HasRow(rows, id)
    decreases |rows|
  {
    if rows != [] {
      var init := rows[..|rows| - 1];
      MatchingEmptyIff(init, id);
      if HasRow(init, id) {
        var i :| 0 <= i < |init| && init[i].taskId == id;
        assert rows[i] == init[i];
      }
      if HasRow(rows, id) && rows[|rows| - 1].taskId != id {
        var i :| 0 <= i < |rows| && rows[i].taskId == id;
        assert init[i] == rows[i];
      }
    }
  }

  lemma MatchingAppend(rows: seq<TaskOutput>, row: TaskOutput, id: string)
    ensures Matching(rows + [row], id) == Matching(rows, id) + (if row.taskId == id then [row] else [])
    ensures Others(rows + [row], id) == Others(rows, id) + (if row.taskId != id then [row] else [])
  {
  }

  /** Changing the value of a row changes no row's membership under any id. */
  lemma {:induction false} MatchingSetValue(rows: seq<TaskOutput>, i: nat, v: Value, id: string)
    requires i < |rows|
    ensures var rows' := rows[i := rows[i].(value := v)];
      && |Matching(rows', id)| == |Matching(rows, id)|
      && (rows[i].taskId != id ==> Matching(rows', id) == Matching(rows, id))
    decreases |rows|
  {
    var rows' := rows[i := rows[i].(value := v)];
    var n := |rows| - 1;
    if i < n {
      MatchingSetValue(rows[..n], i, v, id);
      assert rows'[..n] == rows[..n][i := rows[i].(value := v)];
    } else {
      assert rows'[..n] == rows[..n];
    }
  }

  /** Reading a task's output: exactly one row must be filed under it. */
  function ReadRows(rows: seq<TaskOutput>, id: string): (r: Result<Value, LookupError>)
    ensures r.Ok? <==> |Matching(rows, id)| == 1
    ensures r == Err(NoResultFound) <==> !HasRow(rows, id)
    ensures r.Ok? ==> r.value == Matching(rows, id)[0].value
  {
    MatchingEmptyIff(rows, id);
    var m := Matching(rows, id);
    if |m| == 0 then Err(NoResultFound)
    else if |m| > 1 then Err(MultipleResultsFound)
    else Ok(m[0].value)
  }

  /** The position of the first row filed under `id`. */
  function FirstIndex(rows: seq<TaskOutput>, id: string): (i: nat)
    requires HasRow(rows, id)
    ensures i < |rows| && rows[i].taskId == id
    ensures forall j :: 0 <= j < i ==> rows[j].taskId != id
  {
    if rows[0].taskId == id then 0
    else
      assert HasRow(rows[1..], id) by {
        var k :| 0 <= k < |rows| && rows[k].taskId == id;
        assert rows[1..][k - 1] == rows[k];
      }
      1 + FirstIndex(rows[1..], id)
  }

  /** `upsert`: insert the record when no row is filed under its task, set
      the value of the one row that is, and fail (changing nothing) when
      several are. */
  function UpsertRows(rows: seq<TaskOutput>, record: TaskOutput): (r: Result<seq<TaskOutput>, LookupError>)
    ensures r.Err? <==> |Matching(rows, record.taskId)| > 1
    ensures r.Err? ==> r.error == MultipleResultsFound
  {
    var n := |Matching(rows, record.taskId)|;
    if n == 0 then Ok(rows + [record])
    else if n > 1 then Err(MultipleResultsFound)
    else
      MatchingEmptyIff(rows, record.taskId);
      var i := FirstIndex(rows, record.taskId);
      Ok(rows[i := rows[i].(value := record.value)])
  }

  /** Upsert on a task with no row adds exactly that row, at the end. */
  lemma UpsertInserts(rows: seq<TaskOutput>, record: TaskOutput)
    requires !HasRow(rows, record.taskId)
    ensures UpsertRows(rows, record) == Ok(rows + [record])
    ensures ReadRows(rows + [record], record.taskId) == Ok(record.value)
  {
    MatchingEmptyIff(rows, record.taskId);
    MatchingAppend(rows, record, record.taskId);
  }

  /** Upsert on a task with one row sets that row's value, keeps its family
      and parameters, and touches no other row. */
  lemma UpsertUpdates(rows: seq<TaskOutput>, record: TaskOutput)
    requires |Matching(rows, record.taskId)| == 1
    ensures UpsertRows(rows, record).Ok?
    ensures var r := UpsertRows(rows, record).value;
      && |r| == |rows|
      && (exists i :: 0 <= i < |rows| && rows[i].taskId == record.taskId
                      && r == rows[i := rows[i].(value := record.value)])
      && ReadRows(r, record.taskId) == Ok(record.value)
  {
    var id := record.taskId;
    MatchingEmptyIff(rows, id);
    var i := FirstIndex(rows, id);
    var r := rows[i := rows[i].(value := record.value)];
    MatchingSetValue(rows, i, record.value, id);
    MatchingValueAt(r, i, id);
  }

  /** When exactly one row is filed under `id`, it is the one at any position that carries `id`. */
  lemma {:induction false} MatchingValueAt(rows: seq<TaskOutput>, i: nat, id: string)
    requires i < |rows| && rows[i].taskId == id && |Matching(rows, id)| == 1
    ensures Matching(rows, id)[0] == rows[i]
    decreases |rows|
  {
    var n := |rows| - 1;
    if i < n {
      var m := Matching(rows[..n], id);
      MatchingEmptyIff(rows[..n], id);
      assert rows[..n][i] == rows[i];
      MatchingValueAt(rows[..n], i, id);
    } else {
      MatchingEmptyIff(rows[..n], id);
    }
  }

  /** A second upsert with the same record changes nothing. */
  lemma UpsertIdempotent(rows: seq<TaskOutput>, record: TaskOutput)
    requires UpsertRows(rows, record).Ok?
    ensures UpsertRows(UpsertRows(rows, record).value, record) == UpsertRows(rows, record)
  {
    var id := record.taskId;
    MatchingEmptyIff(rows, id);
    if HasRow(rows, id) {
      var i := FirstIndex(rows, id);
      var r := rows[i := rows[i].(value := record.value)];
      assert UpsertRows(rows, record) == Ok(r);
      MatchingSetValue(rows, i, record.value, id);
      MatchingEmptyIff(r, id);
      assert r[i].taskId == id;
      var j := FirstIndex(r, id);
      assert j == i by {
        assert forall k :: 0 <= k < |r| ==> r[k].taskId == rows[k].taskId;
      }
      assert r[i := r[i].(value := record.value)] == r;
    } else {
      var r := rows + [record];
      assert UpsertRows(rows, record) == Ok(r);
      MatchingAppend(rows, record, id);
      MatchingEmptyIff(r, id);
      assert r[|rows|].taskId == id;
      var j := FirstIndex(r, id);
      assert j == |rows| by {
        assert forall k :: 0 <= k < |rows| ==> r[k] == rows[k];
      }
      assert r[j := r[j].(value := record.value)] == r;
    }
  }

  /** Upsert leaves every other task's rows as they were. */
  lemma UpsertKeepsOtherTasks(rows: seq<TaskOutput>, record: TaskOutput, other: string)
    requires UpsertRows(rows, record).Ok? && other != record.taskId
    ensures Matching(UpsertRows(rows, record).value, other) == Matching(rows, other)
  {
    MatchingEmptyIff(rows, record.taskId);
    if HasRow(rows, record.taskId) {
      UpsertUpdates(rows, record);
      var i :| 0 <= i < |rows| && rows[i].taskId == record.taskId
               && UpsertRows(rows, record).value == rows[i := rows[i].(value := record.value)];
      MatchingSetValue(rows, i, record.value, other);
    } else {
      UpsertInserts(rows, record);
      MatchingAppend(rows, record, other);
    }
  }

  /** After `remove` no row is filed under the task, so a read finds nothing. */
  lemma RemoveClears(rows: seq<TaskOutput>, id: string)
    ensures !HasRow(Others(rows, id), id)
    ensures ReadRows(Others(rows, id), id) == Err(NoResultFound)
  {
  }

  /** `remove` leaves every other task's rows in place and in order. */
  lemma {:induction false} RemoveKeepsOtherTasks(rows: seq<TaskOutput>, id: string, other: string)
    requires other != id
    ensures Matching(Others(rows, id), other) == Matching(rows, other)
    decreases |rows|
  {
    if rows != [] {
      var n := |rows| - 1;
      RemoveKeepsOtherTasks(rows[..n], id, other);
      if rows[n].taskId != id {
        MatchingAppend(Others(rows[..n], id), rows[n], other);
      } else {
        assert Others(rows, id) == Others(rows[..n], id) + [] == Others(rows[..n], id);
        assert Matching(rows, other) == Matching(rows[..n], other) + [] == Matching(rows[..n], other);
      }
    }
  }

  /** `write` never replaces: after a write, a read succeeds only if the task had no row. */
  lemma WriteThenRead(rows: seq<TaskOutput>, record: TaskOutput)
    ensures ReadRows(rows + [record], record.taskId)
         == if HasRow(rows, record.taskId) then Err(MultipleResultsFound) else Ok(record.value)
  {
    MatchingEmptyIff(rows, record.taskId);
    MatchingAppend(rows, record, record.taskId);
  }

  /** The session-backed table. */
  class TaskOutputTable {
    var rows: seq<TaskOutput>

    constructor ()
      ensures rows == []
    {
      rows := [];
    }
  }

  class DBTaskOutputTarget {
    const session: TaskOutputTable
    const taskId: string
    const taskFamily: string
    const params: string

    constructor (session: TaskOutputTable, taskId: string, taskFamily: string, params: string)
      ensures this.session == session && this.taskId == taskId
      ensures this.taskFamily == taskFamily && this.params == params
    {
      this.session := session;
      this.taskId := taskId;
      this.taskFamily := taskFamily;
      this.params := params;
    }

    /** `create(task)`: a target keyed by the task's id, family and string parameters. */
    static method Create(task: Task, session: TaskOutputTable) returns (t: DBTaskOutputTarget)
      ensures fresh(t) && t.session == session
      ensures t.taskId == task.taskId && t.taskFamily == task.taskFamily && t.params == task.strParams
    {
      t := new DBTaskOutputTarget(session, task.taskId, task.taskFamily, task.strParams);
    }

    /** The row this target files for `value`. */
    function Record(value: Value): TaskOutput {
      TaskOutput(taskId, taskFamily, params, value)
    }

    method Write(value: Value)
      modifies session
      ensures session.rows == old(session.rows) + [Record(value)]
    {
      session.rows := session.rows + [Record(value)];
    }

    /** `touch` is `write(None)`. */
    method Touch()
      modifies session
      ensures session.rows == old(session.rows) + [Record(NoneValue)]
    {
      Write(NoneValue);
    }

    /** `read`: `.one().value` of the task's rows. */
    method Read() returns (r: Result<Value, LookupError>)
      ensures r == ReadRows(session.rows, taskId)
    {
      var rows := session.rows;
      var found: seq<TaskOutput> := [];
      for i := 0 to |rows|
        invariant found == Matching(rows[..i], taskId)
      {
        assert rows[..i + 1][..i] == rows[..i];
        if rows[i].taskId == taskId {
          found := found + [rows[i]];
        }
      }
      assert rows[..|rows|] == rows;
      if |found| == 0 {
        r := Err(NoResultFound);
      } else if |found| > 1 {
        r := Err(MultipleResultsFound);
      } else {
        r := Ok(found[0].value);
      }
    }

    /** `exists`: whether some row is filed under the task. */
    method Exists() returns (b: bool)
      ensures b <==> HasRow(session.rows, taskId)
    {
      var rows := session.rows;
      b := false;
      var i := 0;
      while i < |rows| && !b
        invariant 0 <= i <= |rows|
        invariant b <==> exists j :: 0 <= j < i && rows[j].taskId == taskId
      {
        b := rows[i].taskId == taskId;
        i := i + 1;
      }
    }

    /** `remove`: delete every row filed under the task. */
    method Remove()
      modifies session
      ensures session.rows == Others(old(session.rows), taskId)
    {
      var rows := session.rows;
      var kept: seq<TaskOutput> := [];
      for i := 0 to |rows|
        invariant kept == Others(rows[..i], taskId)
      {
        assert rows[..i + 1][..i] == rows[..i];
        if rows[i].taskId != taskId {
          kept := kept + [rows[i]];
        }
      }
      assert rows[..|rows|] == rows;
      session.rows := kept;
    }

    /** `upsert(value)`: insert or update in one transaction; when the lookup
        fails the transaction rolls back and the table is unchanged. */
    method Upsert(value: Value) returns (r: Outcome<LookupError>)
      modifies session
      ensures r.Pass? ==> UpsertRows(old(session.rows), Record(value)) == Ok(session.rows)
      ensures r.Fail? ==> UpsertRows(old(session.rows), Record(value)) == Err(r.error)
      ensures r.Fail? ==> session.rows == old(session.rows)
    {
      var rows := session.rows;
      var count := 0;
      var first := 0;
      for i := 0 to |rows|
        invariant session.rows == rows
        invariant count == |Matching(rows[..i], taskId)|
        invariant count == 0 ==> !HasRow(rows[..i], taskId)
        invariant count > 0 ==> first < i && rows[first].taskId == taskId
        invariant count > 0 ==> forall j :: 0 <= j < first ==> rows[j].taskId != taskId
      {
        assert rows[..i + 1][..i] == rows[..i];
        MatchingEmptyIff(rows[..i], taskId);
        if rows[i].taskId == taskId {
          if count == 0 {
            first := i;
          }
          count := count + 1;
        }
        MatchingEmptyIff(rows[..i + 1], taskId);
      }
      assert rows[..|rows|] == rows;
      if count == 0 {
        session.rows := rows + [Record(value)];
        r := Pass;
      } else if count > 1 {
        r := Fail(MultipleResultsFound);
      } else {
        MatchingEmptyIff(rows, taskId);
        assert FirstIndex(rows, taskId) == first;
        session.rows := rows[first := rows[first].(value := value)];
        r := Pass;
      }
    }
  }
}
