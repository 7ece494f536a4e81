/** The Manager's task table, which doubles as the offline queue. */
module Tasks {
  import opened Protocol
  import opened Executors

  datatype State = Queued | Sent | Succeeded | Failed | Expired | TimedOut

  predicate Finished(st: State) {
    st == Succeeded || st == Failed || st == TimedOut
  }

  /** What is to be run: a shell command, or a predefined one by name with its arguments. */
  datatype Command = Command(kind: string, command: string, name: string, argsJson: string)

  /** The columns a result fills in. */
  datatype Columns = Columns(finishedAt: int, exitCode: int, stdout: string, stderr: string, truncated: bool, durationMs: int)

  const NO_REPORT := Columns(0, 0, "", "", false, 0)

  datatype Task = Task(
    taskId: Id,
    nodeId: NodeId,
    command: Command,
    state: State,
    createdAt: int,
    sentAt: int,
    deadline: int,
    report: Columns)

  type Table = map<Id, Task>

  /** The row an INSERT leaves: the columns it does not name take their defaults. */
  function Inserted(t: Task): Task {
    t.(sentAt := 0, report := NO_REPORT)
  }

  /** The effect of UpdateTaskState on one row: only `Sent` has a time column. */
  function WithState(t: Task, st: State, at: int): Task {
    if st == Sent then t.(state := Sent, sentAt := at) else t.(state := st)
  }

  function SetState(rows: Table, id: Id, st: State, at: int): Table {
    if id in rows then rows[id := WithState(rows[id], st, at)] else rows
  }

  /** How a reported result is recorded: a timeout first, then the exit code. */
  function StateFor(r: Result): State {
    if r.timedOut then TimedOut else if r.exitCode != 0 then Failed else Succeeded
  }

  /** The row of a task before and after a result: a timeout is told first, then the exit code. */
  predicate TellsResult(before: Task, after: Task, r: Result, at: int) {
    && (after.state == TimedOut <==> r.timedOut)
    && (after.state == Failed <==> !r.timedOut && r.exitCode != 0)
    && (after.state == Succeeded <==> !r.timedOut && r.exitCode == 0)
    && after.report.finishedAt == at && after.report.exitCode == r.exitCode && after.report.durationMs == r.durationMs
    && after.report.stdout == r.stdout && after.report.stderr == r.stderr && after.report.truncated == r.truncated
    && after == before.(state := after.state, report := after.report)
  }

  function Completed(t: Task, r: Result, at: int): Task {
    t.(state := StateFor(r), report := Columns(at, r.exitCode, r.stdout, r.stderr, r.truncated, r.durationMs))
  }

  function Complete(rows: Table, r: Result, at: int): Table {
    if r.refId in rows then rows[r.refId := Completed(rows[r.refId], r, at)] else rows
  }

  /** What is sent for a task. The timeout the task was created with is not carried. */
  function InstructionFor(t: Task): Instruction {
    Instruction(t.command.kind, t.command.name, t.command.argsJson, t.command.command, 0, t.deadline)
  }

  /** What a Node is told of a task, field by field. */
  predicate Carries(e: Envelope, t: Task) {
    && e.id == t.taskId && e.payload.Instruct?
    && var i := e.payload.instruction;
       && i.kind == t.command.kind && i.command == t.command.command
       && i.name == t.command.name && i.argsJson == t.command.argsJson
       && i.deadline == t.deadline && i.timeoutSec == 0
  }

  function EnvelopeFor(t: Task): Envelope {
    Envelope(t.taskId, Instruct(InstructionFor(t)))
  }

  ghost predicate WellKeyed(rows: Table) {
    forall id <- rows :: rows[id].taskId == id
  }

  ghost predicate ByCreation(ts: seq<Task>) {
    forall i, j :: 0 <= i < j < |ts| ==> ts[i].createdAt <= ts[j].createdAt && ts[i].taskId != ts[j].taskId
  }

  /** `ts` is a listing of the queued rows of `node` among `ids`, oldest first; equal ages in any order. */
  ghost predicate ListingAmong(rows: Table, node: NodeId, ids: set<Id>, ts: seq<Task>) {
    && ByCreation(ts)
    && (forall t <- ts :: t.taskId in ids && t.taskId in rows && rows[t.taskId] == t && t.nodeId == node && t.state == Queued)
    && (forall id <- ids :: id in rows && rows[id].nodeId == node && rows[id].state == Queued ==> rows[id] in ts)
  }

  ghost predicate Listing(rows: Table, node: NodeId, ts: seq<Task>) {
    ListingAmong(rows, node, rows.Keys, ts)
  }

  function InsertByCreation(ts: seq<Task>, t: Task): (r: seq<Task>)
    requires ByCreation(ts)
    requires forall u <- ts :: u.taskId != t.taskId
    ensures ByCreation(r)
    ensures forall u :: u in r <==> u == t || u in ts
  {
    if ts == [] || t.createdAt < ts[0].createdAt then [t] + ts
    else
      var rest := InsertByCreation(ts[1..], t);
      assert forall u <- rest :: ts[0].createdAt <= u.createdAt && ts[0].taskId != u.taskId;
      [ts[0]] + rest
  }

  class TaskTable {
    var rows: Table

    constructor ()
      ensures rows == map[]
    {
      rows := map[];
    }

    /** False on a primary key conflict. */
    method CreateTask(t: Task) returns (ok: bool)
      modifies this
      ensures ok == (t.taskId !in old(rows))
      ensures rows == if ok then old(rows)[t.taskId := Inserted(t)] else old(rows)
      ensures ok ==>
                && rows[t.taskId] == t.(sentAt := rows[t.taskId].sentAt, report := rows[t.taskId].report)
                && rows[t.taskId].sentAt == 0 && rows[t.taskId].report == Columns(0, 0, "", "", false, 0)
    {
      ok := t.taskId !in rows;
      if ok {
        rows := rows[t.taskId := Inserted(t)];
      }
    }

    method GetTask(id: Id) returns (t: Option<Task>)
      ensures t == if id in rows then Some(rows[id]) else None
    {
      t := if id in rows then Some(rows[id]) else None;
    }

    method QueuedTasks(node: NodeId) returns (ts: seq<Task>)
      requires WellKeyed(rows)
      ensures Listing(rows, node, ts)
      ensures forall t :: t in ts <==> t.taskId in rows && rows[t.taskId] == t && t.nodeId == node && t.state == Queued
      ensures forall i, j :: 0 <= i < j < |ts| ==> ts[i].createdAt <= ts[j].createdAt && ts[i].taskId != ts[j].taskId
    {
      ts := [];
      var left := rows.Keys;
      while left != {}
        invariant left <= rows.Keys
        invariant ListingAmong(rows, node, rows.Keys - left, ts)
      {
        var id :| id in left;
        left := left - {id};
        if rows[id].nodeId == node && rows[id].state == Queued {
          ts := InsertByCreation(ts, rows[id]);
        }
      }
    }

    /** False when no row has the id. */
    method UpdateTaskState(id: Id, st: State, at: int) returns (found: bool)
      modifies this
      ensures found == (id in rows)
      ensures rows == SetState(old(rows), id, st, at)
      ensures rows.Keys == old(rows).Keys && forall other <- rows :: other != id ==> rows[other] == old(rows)[other]
      ensures id in rows ==> rows[id] == old(rows)[id].(state := st, sentAt := if st == Sent then at else old(rows)[id].sentAt)
    {
      found := id in rows;
      if found {
        rows := rows[id := WithState(rows[id], st, at)];
      }
    }

    /** False when no row has the id. */
    method CompleteTask(r: Result, at: int) returns (found: bool)
      modifies this
      ensures found == (r.refId in rows)
      ensures rows == Complete(old(rows), r, at)
      ensures rows.Keys == old(rows).Keys && forall other <- rows :: other != r.refId ==> rows[other] == old(rows)[other]
      ensures r.refId in rows ==> TellsResult(old(rows)[r.refId], rows[r.refId], r, at)
    {
      found := r.refId in rows;
      if found {
        rows := rows[r.refId := Completed(rows[r.refId], r, at)];
      }
    }
  }
}
