/**
 * The task record, its status lifecycle and the errors of the task service.
 *
 * A task's status is one of three names; the service keeps a fixed table of
 * the statuses each status may move to, and a status change is legal exactly
 * when the requested name is listed for the task's current status.
 */
module TaskModel {
  import opened Common

  /** The three values of the `status` column. */
  datatype Status = Pending | Processing | Completed

  /** The string stored for a status, and the one clients send. */
  function StatusName(s: Status): string
  {
    match s
    case Pending => "pending"
    case Processing => "processing"
    case Completed => "completed"
  }

  /** Reads a status name back; every other string is no status at all. */
  function ParseStatus(name: string): (r: Option<Status>)
    ensures forall s :: r == Some(s) <==> name == StatusName(s)
  {
    if name == "pending" then Some(Pending)
    else if name == "processing" then Some(Processing)
    else if name == "completed" then Some(Completed)
    else None
  }

  /** A row of the `tasks` table. Times are whole numbers on one clock. */
  datatype Task = Task(
    id: nat,
    taskStrId: string,
    description: string,
    estimatedTimeMinutes: int,
    status: Status,
    submittedAt: int)

  /** What a successful create returns: the new row's id, external id and status. */
  datatype CreatedTask = CreatedTask(internalDbId: nat, taskStrId: string, status: Status)

  /** The transition table: the statuses a task in status `from` may move to, in table order. */
  function ValidTransitions(from: Status): seq<Status>
  {
    match from
    case Pending => [Processing, Completed]
    case Processing => [Completed, Pending]
    case Completed => [Processing]
  }

  /** A move from `from` to `to` is listed in the transition table. */
  predicate CanTransition(from: Status, to: Status)
  {
    to in ValidTransitions(from)
  }

  /** The table's membership test on the raw requested name. */
  predicate AllowsName(from: Status, newStatus: string)
  {
    exists i :: 0 <= i < |ValidTransitions(from)| && StatusName(ValidTransitions(from)[i]) == newStatus
  }

  /**
   * The table allows every move between two different statuses except
   * completed to pending; in particular no status may move to itself.
   */
  lemma TransitionTable(from: Status, to: Status)
    ensures CanTransition(from, to) <==> from != to && !(from == Completed && to == Pending)
  {
  }

  /** The name test accepts exactly the names of the statuses the table lists. */
  lemma {:induction false} AllowsNameIffCanTransition(from: Status, newStatus: string)
    ensures AllowsName(from, newStatus) <==>
              ParseStatus(newStatus).Some? && CanTransition(from, ParseStatus(newStatus).value)
  {
    var ts := ValidTransitions(from);
    if AllowsName(from, newStatus) {
      var i :| 0 <= i < |ts| && StatusName(ts[i]) == newStatus;
      assert ParseStatus(newStatus) == Some(ts[i]);
    }
    if ParseStatus(newStatus).Some? && CanTransition(from, ParseStatus(newStatus).value) {
      var i :| 0 <= i < |ts| && ts[i] == ParseStatus(newStatus).value;
      assert StatusName(ts[i]) == newStatus;
    }
  }

  /** No status is terminal: every status can be left, and every status can be reached back within two moves. */
  lemma NoTerminalStatus(from: Status, to: Status)
    ensures exists next :: CanTransition(from, next)
    ensures from == to || CanTransition(from, to) ||
            exists mid :: CanTransition(from, mid) && CanTransition(mid, to)
  {
    assert CanTransition(from, ValidTransitions(from)[0]);
    if from != to && !CanTransition(from, to) {
      assert CanTransition(from, Processing) && CanTransition(Processing, to);
    }
  }

  /** The service's own errors; the store's failures are outside the model. */
  datatype TaskError =
    | AlreadyExists
    | InvalidTransition(from: Status, requested: string)

  /** The message text, which the router inspects to choose a 400 response. */
  function Message(e: TaskError): (m: string)
    ensures e.AlreadyExists? ==> |m| >= 14 && m[|m| - 14..] == "already exists"
    ensures e.InvalidTransition? ==> "Invalid status transition" <= m
  {
    match e
    case AlreadyExists => "Task with this task_str_id already exists"
    case InvalidTransition(from, requested) =>
      "Invalid status transition from '" + StatusName(from) + "' to '" + requested + "'"
  }
}
