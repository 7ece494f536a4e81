/** The six-state task machine over runs of whole handlers, each taken as one step. */
module Lifecycle {
  import opened Protocol
  import opened Windows
  import opened Executors
  import opened Tasks
  import opened Dispatchers

  /** `delivered` lists the ids connections have accepted, in order, over the Manager's lifetime. */
  datatype Manager = Manager(rows: Table, window: Window<Id>, delivered: seq<Id>, clock: int)

  const INIT := Manager(map[], Window({}, []), [], 0)

  datatype Handler =
    | CreateTask(task: Task, accepted: bool, at: int)
    | FlushQueue(node: NodeId, listing: seq<Task>, now: int, sent: seq<Task>, sentAt: map<Id, int>, end: int)
    | HandleResult(result: Result, at: int)

  /**
   One handler call. The clock does not go back, and an honest node only reports on tasks that were
   delivered.
   */
  ghost predicate Handles(m: Manager, h: Handler, n: Manager) {
    m.clock <= n.clock &&
    match h
    case CreateTask(task, accepted, at) =>
      && n.clock == at && n.window == m.window
      && if task.taskId in m.rows then
           n.rows == m.rows && n.delivered == m.delivered
         else
           && n.rows == Created(m.rows, task, accepted, at)
           && n.delivered == m.delivered + if accepted then [task.taskId] else []
    case FlushQueue(node, listing, now, sent, sentAt, end) =>
      && n.clock == end && n.window == m.window
      && Listing(m.rows, node, listing)
      && m.clock <= now <= end && (forall id <- sentAt :: now <= sentAt[id] <= end)
      && Partition(m.rows, n.rows, listing, now, sent, sentAt)
      && n.delivered == m.delivered + TaskIds(sent)
    case HandleResult(r, at) =>
      && n.clock == at && n.delivered == m.delivered
      && r.refId in m.delivered
      && (n.rows, n.window) == Handled(m.rows, m.window, r, at, DEDUP_WINDOW)
  }

  function TaskIds(ts: seq<Task>): seq<Id> {
    seq(|ts|, i requires 0 <= i < |ts| => ts[i].taskId)
  }

  /** Where one handler call can take a row. */
  predicate Follows(a: State, b: State) {
    match a
    case Queued => b in {Queued, Sent, Expired}
    case Sent => b == Sent || Finished(b)
    case Expired => b == Expired
    case _ => Finished(b)
  }

  /** Where a row can be later, given where it is. */
  predicate Forward(a: State, b: State) {
    match a
    case Queued => true
    case Sent => b == Sent || Finished(b)
    case Expired => b == Expired
    case _ => Finished(b)
  }

  ghost predicate RowOrdered(t: Task, delivered: bool, clock: int) {
    && (delivered <==> t.state != Queued && t.state != Expired)
    && (delivered ==> t.sentAt <= clock)
    && (Finished(t.state) ==> t.sentAt <= t.report.finishedAt <= clock)
  }

  ghost predicate Ordered(m: Manager) {
    && WellKeyed(m.rows)
    && Distinct(m.delivered)
    && (forall id <- m.delivered :: id in m.rows)
    && (forall id <- m.rows :: RowOrdered(m.rows[id], id in m.delivered, m.clock))
  }

  ghost predicate RowsFollow(before: Table, after: Table) {
    forall id <- before :: id in after && Follows(before[id].state, after[id].state)
  }

  /** Rows move forward, and keep what they were created with. */
  ghost predicate RowsForward(before: Table, after: Table) {
    forall id <- before ::
      && id in after
      && Forward(before[id].state, after[id].state)
      && after[id] == before[id].(state := after[id].state, sentAt := after[id].sentAt, report := after[id].report)
  }

  lemma CreateMoves(m: Manager, h: Handler, n: Manager)
    requires Ordered(m) && Handles(m, h, n) && h.CreateTask?
    ensures Ordered(n) && RowsForward(m.rows, n.rows) && RowsFollow(m.rows, n.rows)
  {
    var id := h.task.taskId;
    if id !in m.rows {
      assert id !in m.delivered;
      forall other <- m.rows
        ensures RowOrdered(n.rows[other], other in n.delivered, n.clock)
      {
        assert RowOrdered(m.rows[other], other in m.delivered, m.clock);
      }
    } else {
      forall other <- m.rows
        ensures RowOrdered(n.rows[other], other in n.delivered, n.clock)
      {
        assert RowOrdered(m.rows[other], other in m.delivered, m.clock);
      }
    }
  }

  lemma ResultMoves(m: Manager, h: Handler, n: Manager)
    requires Ordered(m) && Handles(m, h, n) && h.HandleResult?
    ensures Ordered(n) && RowsForward(m.rows, n.rows) && RowsFollow(m.rows, n.rows)
  {
    forall other <- m.rows
      ensures RowOrdered(n.rows[other], other in n.delivered, n.clock)
    {
      assert RowOrdered(m.rows[other], other in m.delivered, m.clock);
    }
  }

  /** A listing's live tasks are queued rows, each listed once. */
  lemma SentAreQueued(rows: Table, node: NodeId, listing: seq<Task>, now: int, sent: seq<Task>)
    requires Listing(rows, node, listing) && sent <= Live(listing, now)
    ensures forall t <- sent :: t.taskId in rows && rows[t.taskId] == t && t.state == Queued && !PastDeadline(t.deadline, now)
    ensures Distinct(TaskIds(sent))
  {
    forall t <- sent
      ensures t in listing && !PastDeadline(t.deadline, now)
    {
      LiveMembers(listing, now, t);
    }
    LiveOrdered(listing, now);
  }

  /** What a flush leaves in one row. */
  lemma FlushedRow(m: Manager, h: Handler, n: Manager, id: Id)
    requires Ordered(m) && Handles(m, h, n) && h.FlushQueue? && id in m.rows
    ensures id in n.rows && RowOrdered(n.rows[id], id in n.delivered, n.clock)
    ensures Follows(m.rows[id].state, n.rows[id].state)
    ensures n.rows[id] == m.rows[id].(state := n.rows[id].state, sentAt := n.rows[id].sentAt)
    ensures id in h.sentAt ==> id !in m.delivered
  {
    assert RowOrdered(m.rows[id], id in m.delivered, m.clock);
    SentAreQueued(m.rows, h.node, h.listing, h.now, h.sent);
    DeliveredGrows(m.delivered, h.sent, id);
    assert id in Overdue(h.listing, h.now) ==> m.rows[id].state == Queued && PastDeadline(m.rows[id].deadline, h.now);
    assert id in h.sentAt ==> m.rows[id].state == Queued && !PastDeadline(m.rows[id].deadline, h.now);
  }

  lemma DeliveredGrows(delivered: seq<Id>, sent: seq<Task>, id: Id)
    ensures id in delivered + TaskIds(sent) <==> id in delivered || id in Ids(sent)
  {
    if id in Ids(sent) {
      var k :| 0 <= k < |sent| && sent[k].taskId == id;
      assert TaskIds(sent)[k] == id;
    }
  }

  lemma FlushForwards(m: Manager, h: Handler, n: Manager)
    requires Ordered(m) && Handles(m, h, n) && h.FlushQueue?
    ensures RowsForward(m.rows, n.rows) && RowsFollow(m.rows, n.rows)
  {
    forall id <- m.rows
      ensures id in n.rows && Follows(m.rows[id].state, n.rows[id].state)
      ensures n.rows[id] == m.rows[id].(state := n.rows[id].state, sentAt := n.rows[id].sentAt)
    {
      FlushedRow(m, h, n, id);
    }
  }

  lemma FlushMoves(m: Manager, h: Handler, n: Manager)
    requires Ordered(m) && Handles(m, h, n) && h.FlushQueue?
    ensures Ordered(n) && RowsForward(m.rows, n.rows) && RowsFollow(m.rows, n.rows)
  {
    FlushForwards(m, h, n);
    forall id <- m.rows
      ensures RowOrdered(n.rows[id], id in n.delivered, n.clock)
    {
      FlushedRow(m, h, n, id);
    }
    SentAreQueued(m.rows, h.node, h.listing, h.now, h.sent);
    forall id <- TaskIds(h.sent)
      ensures id in m.rows && id !in m.delivered
    {
      var k :| 0 <= k < |h.sent| && TaskIds(h.sent)[k] == id;
      assert h.sent[k] in h.sent && id in Ids(h.sent);
      FlushedRow(m, h, n, id);
    }
  }

  ghost predicate IsRun(ms: seq<Manager>, hs: seq<Handler>) {
    && |ms| == |hs| + 1
    && ms[0] == INIT
    && forall k :: 0 <= k < |hs| ==> Handles(ms[k], hs[k], ms[k + 1])
  }

  lemma HandlerMoves(m: Manager, h: Handler, n: Manager)
    requires Ordered(m) && Handles(m, h, n)
    ensures Ordered(n) && RowsForward(m.rows, n.rows) && RowsFollow(m.rows, n.rows)
  {
    match h
    case CreateTask(_, _, _) => CreateMoves(m, h, n);
    case FlushQueue(_, _, _, _, _, _) => FlushMoves(m, h, n);
    case HandleResult(_, _) => ResultMoves(m, h, n);
  }

  /**
   In every reachable state no id was delivered twice, exactly the rows that are neither queued nor
   expired were delivered, and no row was finished before it was sent.
   */
  lemma {:induction false} RunsAreOrdered(ms: seq<Manager>, hs: seq<Handler>, k: nat)
    requires IsRun(ms, hs) && k < |ms|
    ensures Ordered(ms[k])
  {
    if k > 0 {
      RunsAreOrdered(ms, hs, k - 1);
      HandlerMoves(ms[k - 1], hs[k - 1], ms[k]);
    }
  }

  lemma StepMoves(ms: seq<Manager>, hs: seq<Handler>, k: nat)
    requires IsRun(ms, hs) && k < |hs|
    ensures RowsForward(ms[k].rows, ms[k + 1].rows) && RowsFollow(ms[k].rows, ms[k + 1].rows)
  {
    RunsAreOrdered(ms, hs, k);
    HandlerMoves(ms[k], hs[k], ms[k + 1]);
  }

  lemma ForwardOn(a: Table, b: Table, c: Table)
    requires RowsForward(a, b) && RowsForward(b, c)
    ensures RowsForward(a, c)
  {
  }

  /** Rows only move forward: queued, then sent or expired; sent, then finished; and there they stay. */
  lemma {:induction false} RunsMoveForward(ms: seq<Manager>, hs: seq<Handler>, i: nat, j: nat)
    requires IsRun(ms, hs) && i <= j < |ms|
    ensures RowsForward(ms[i].rows, ms[j].rows)
  {
    if i < j {
      RunsMoveForward(ms, hs, i, j - 1);
      StepMoves(ms, hs, j - 1);
      ForwardOn(ms[i].rows, ms[j - 1].rows, ms[j].rows);
    }
  }

  /** A row that was queued and is finished has been sent in between. */
  lemma {:induction false} FinishedWasSent(ms: seq<Manager>, hs: seq<Handler>, i: nat, j: nat, id: Id) returns (k: nat)
    requires IsRun(ms, hs) && i <= j < |ms| && id in ms[i].rows && ms[i].rows[id].state == Queued
    requires id in ms[j].rows && Finished(ms[j].rows[id].state)
    ensures i < k < j && id in ms[k].rows && ms[k].rows[id].state == Sent
  {
    RunsMoveForward(ms, hs, i, j - 1);
    StepMoves(ms, hs, j - 1);
    if ms[j - 1].rows[id].state == Sent {
      k := j - 1;
    } else {
      k := FinishedWasSent(ms, hs, i, j - 1, id);
    }
  }
}
