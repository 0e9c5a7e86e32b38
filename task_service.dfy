/**
 * The task service over an in-memory `tasks` table: creating a task and
 * changing its status are the two operations that write to the table.
 * The read-only queries are the functions of module TaskQueries applied to
 * the table's rows.
 */
module TaskService {
  import opened Common
  import opened TaskModel
  import opened TaskQueries

  /** No two rows share a store-assigned id. */
  predicate UniqueIds(rows: seq<Task>)
  {
    forall i, j :: 0 <= i < j < |rows| ==> rows[i].id != rows[j].id
  }

  /**
   * The `tasks` table. `nextId` stands for the store's id sequence: every id
   * handed out so far is below it.
   */
  class TaskTable {
    var rows: seq<Task>
    var nextId: nat

    /** The store's constraints: unique external ids, unique internal ids, all below `nextId`. */
    ghost predicate Valid()
      reads this
    {
      UniqueStrIds(rows) && UniqueIds(rows) &&
      forall i :: 0 <= i < |rows| ==> rows[i].id < nextId
    }

    constructor ()
      ensures Valid() && rows == [] && nextId == 0
    {
      rows := [];
      nextId := 0;
    }

    /**
     * Inserts a pending task submitted at time `now`, unless a row already
     * has the same `task_str_id`; then nothing is written.
     */
    method CreateTask(taskStrId: string, description: string, estimatedTimeMinutes: int, now: int)
      returns (r: Result<CreatedTask, TaskError>)
      requires Valid()
      modifies this
      ensures Valid()
      ensures HasStrId(old(rows), taskStrId) ==>
                r == Failure(AlreadyExists) && rows == old(rows) && nextId == old(nextId)
      ensures !HasStrId(old(rows), taskStrId) ==>
                var t := Task(old(nextId), taskStrId, description, estimatedTimeMinutes, Pending, now);
                && rows == old(rows) + [t]
                && nextId == old(nextId) + 1
                && r == Success(CreatedTask(t.id, taskStrId, Pending))
                && GetTaskByStrId(rows, taskStrId) == Some(t)
      ensures forall sid :: sid != taskStrId ==> GetTaskByStrId(rows, sid) == GetTaskByStrId(old(rows), sid)
    {
      if GetTaskByStrId(rows, taskStrId).Some? {
        return Failure(AlreadyExists);
      }
      var t := Task(nextId, taskStrId, description, estimatedTimeMinutes, Pending, now);
      forall sid {
        LookupAfterAppend(rows, t, sid);
      }
      rows := rows + [t];
      nextId := nextId + 1;
      r := Success(CreatedTask(t.id, t.taskStrId, t.status));
    }

    /**
     * Moves the task with external id `taskStrId` to `newStatus` when the
     * transition table allows it. An unknown id gives Success(None) and an
     * illegal move an InvalidTransition error, both before any write.
     */
    method UpdateTaskStatus(taskStrId: string, newStatus: string) returns (r: Result<Option<Task>, TaskError>)
      requires Valid()
      modifies this
      ensures Valid() && nextId == old(nextId)
      ensures !HasStrId(old(rows), taskStrId) ==> r == Success(None) && rows == old(rows)
      ensures HasStrId(old(rows), taskStrId) && !AllowsName(GetTaskByStrId(old(rows), taskStrId).value.status, newStatus) ==>
                r == Failure(InvalidTransition(GetTaskByStrId(old(rows), taskStrId).value.status, newStatus)) &&
                rows == old(rows)
      ensures HasStrId(old(rows), taskStrId) && AllowsName(GetTaskByStrId(old(rows), taskStrId).value.status, newStatus) ==>
                var current := GetTaskByStrId(old(rows), taskStrId).value;
                && ParseStatus(newStatus).Some?
                && CanTransition(current.status, ParseStatus(newStatus).value)
                && r == Success(Some(current.(status := ParseStatus(newStatus).value)))
                && GetTaskByStrId(rows, taskStrId) == r.value
                && |rows| == |old(rows)|
                && forall i :: 0 <= i < |rows| ==>
                     rows[i] == if old(rows)[i].taskStrId == taskStrId
                                then old(rows)[i].(status := ParseStatus(newStatus).value)
                                else old(rows)[i]
    {
      var current := GetTaskByStrId(rows, taskStrId);
      if current.None? {
        return Success(None);
      }
      var from := current.value.status;
      if !AllowsName(from, newStatus) {
        return Failure(InvalidTransition(from, newStatus));
      }
      AllowsNameIffCanTransition(from, newStatus);
      var status := ParseStatus(newStatus).value;
      var before := rows;
      ghost var k :| 0 <= k < |before| && before[k] == current.value;
      rows := seq(|before|, i requires 0 <= i < |before| =>
                if before[i].taskStrId == taskStrId then before[i].(status := status) else before[i]);
      assert forall i :: 0 <= i < |rows| ==> rows[i].taskStrId == before[i].taskStrId && rows[i].id == before[i].id;
      assert rows[k] == current.value.(status := status);
      LookupUnique(rows, k);
      r := Success(Some(current.value.(status := status)));
    }
  }

  /** Two tasks of estimates 10 and 5 are created; the shorter one is next to process. */
  method ScenarioShorterFirst()
  {
    var table := new TaskTable();
    var a := table.CreateTask("A", "long job", 10, 1);
    var b := table.CreateTask("B", "short job", 5, 2);
    assert a.Success? && b.Success?;
    ShorterTaskIsNext(table.rows[0], table.rows[1]);
    assert GetNextTaskToProcess(table.rows).value.taskStrId == "B";
  }

  /** A completed task cannot go back to pending, and an unknown id is not found. */
  method ScenarioCompletedStaysOffPending()
  {
    var table := new TaskTable();
    var a := table.CreateTask("A", "job", 10, 1);
    assert a.Success?;
    var again := table.CreateTask("A", "duplicate", 3, 2);
    assert again == Failure(AlreadyExists);
    assert GetTaskByStrId(table.rows, "A").value.status == Pending;
    assert StatusName(ValidTransitions(Pending)[1]) == "completed";
    var done := table.UpdateTaskStatus("A", "completed");
    assert done.Success? && done.value.Some?;
    assert GetTaskByStrId(table.rows, "A").value.status == Completed;
    var back := table.UpdateTaskStatus("A", "pending");
    assert back == Failure(InvalidTransition(Completed, "pending"));
    var missing := table.UpdateTaskStatus("C", "processing");
    assert missing == Success(None);
  }
}
