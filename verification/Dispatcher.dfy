/** The Manager's half of the protocol: task creation, delivery, the queue flush, and result pairing. */
module Dispatchers {
  import opened Protocol
  import opened Windows
  import opened Executors
  import opened Tasks
  import opened Registries

  const DEDUP_WINDOW: nat := 4096

  /** A clock that never goes back. */
  class Clock {
    var last: int

    method Now() returns (t: int)
      modifies this
      ensures old(last) <= t == last
    {
      var d :| 0 <= d;
      last := last + d;
      t := last;
    }
  }

  /** A buffered channel with room for one task. */
  class Chan {
    var value: Option<Task>

    constructor ()
      ensures value == None
    {
      value := None;
    }

    method Put(t: Task)
      requires value.None?
      modifies this
      ensures value == Some(t)
    {
      value := Some(t);
    }
  }

  /** The tasks a flush tries to send, in order. */
  function Live(ts: seq<Task>, now: int): seq<Task> {
    if ts == [] then [] else
    var n := |ts| - 1;
    Live(ts[..n], now) + if PastDeadline(ts[n].deadline, now) then [] else [ts[n]]
  }

  function Overdue(ts: seq<Task>, now: int): set<Id> {
    set t | t in ts && PastDeadline(t.deadline, now) :: t.taskId
  }

  function Ids(ts: seq<Task>): set<Id> {
    set t | t in ts :: t.taskId
  }

  /** The table after a flush: the overdue rows expired, the delivered ones sent, all others as before. */
  function Flushed(rows: Table, overdue: set<Id>, sentAt: map<Id, int>): Table {
    map id | id in rows ::
      if id in overdue then WithState(rows[id], Expired, 0)
      else if id in sentAt then WithState(rows[id], Sent, sentAt[id])
      else rows[id]
  }

  function Envelopes(ts: seq<Task>): seq<Envelope> {
    seq(|ts|, i requires 0 <= i < |ts| => EnvelopeFor(ts[i]))
  }

  /** The table after a task is stored, and after its delivery when a connection takes it. */
  function Created(rows: Table, t: Task, delivered: bool, at: int): Table {
    var stored := rows[t.taskId := Inserted(t.(state := Queued))];
    if delivered then SetState(stored, t.taskId, Sent, at) else stored
  }

  /** What one HandleResult call does to the window and the table. */
  function Handled(rows: Table, win: Window<Id>, r: Result, at: int, w: nat): (Table, Window<Id>) {
    if r.refId == "" || r.refId in win.seen then (rows, win)
    else (Complete(rows, r, at), Mark(win, r.refId, w))
  }

  /**
   The flush has dealt with `done`: the overdue rows are expired, the rows of `sent`, a first part
   of the others, are sent, and every other row is as it was.
   */
  ghost predicate Partition(rows0: Table, rows: Table, done: seq<Task>, now: int, sent: seq<Task>, sentAt: map<Id, int>) {
    && sent <= Live(done, now)
    && sentAt.Keys == Ids(sent)
    && rows == Flushed(rows0, Overdue(done, now), sentAt)
  }

  lemma LiveStep(done: seq<Task>, t: Task, now: int)
    ensures Live(done + [t], now) == Live(done, now) + if PastDeadline(t.deadline, now) then [] else [t]
    ensures Overdue(done + [t], now) == Overdue(done, now) + if PastDeadline(t.deadline, now) then {t.taskId} else {}
  {
    assert (done + [t])[..|done|] == done;
  }

  lemma PartitionExpires(rows0: Table, rows: Table, done: seq<Task>, t: Task, now: int, sent: seq<Task>, sentAt: map<Id, int>)
    requires Partition(rows0, rows, done, now, sent, sentAt)
    requires PastDeadline(t.deadline, now) && t.taskId !in sentAt
    ensures Partition(rows0, SetState(rows, t.taskId, Expired, now), done + [t], now, sent, sentAt)
  {
    LiveStep(done, t, now);
  }

  lemma PartitionSends(rows0: Table, rows: Table, done: seq<Task>, t: Task, now: int,
                       sent: seq<Task>, sentAt: map<Id, int>, at: int)
    requires Partition(rows0, rows, done, now, sent, sentAt)
    requires !PastDeadline(t.deadline, now) && t.taskId !in Overdue(done, now) && sent == Live(done, now)
    ensures Partition(rows0, SetState(rows, t.taskId, Sent, at), done + [t], now, sent + [t], sentAt[t.taskId := at])
  {
    LiveStep(done, t, now);
    assert Ids(sent + [t]) == Ids(sent) + {t.taskId};
    FlushedSent(rows0, Overdue(done, now), sentAt, t.taskId, at);
  }

  lemma FlushedSent(rows0: Table, overdue: set<Id>, sentAt: map<Id, int>, id: Id, at: int)
    requires id !in overdue
    ensures SetState(Flushed(rows0, overdue, sentAt), id, Sent, at) == Flushed(rows0, overdue, sentAt[id := at])
  {
  }

  lemma PartitionSkips(rows0: Table, rows: Table, done: seq<Task>, t: Task, now: int, sent: seq<Task>, sentAt: map<Id, int>)
    requires Partition(rows0, rows, done, now, sent, sentAt)
    requires !PastDeadline(t.deadline, now)
    ensures Partition(rows0, rows, done + [t], now, sent, sentAt)
    ensures sent != Live(done + [t], now)
  {
    LiveStep(done, t, now);
  }

  lemma {:induction false} LiveMembers(ts: seq<Task>, now: int, t: Task)
    ensures t in Live(ts, now) <==> t in ts && !(0 < t.deadline < now)
  {
    if ts != [] {
      LiveMembers(ts[..|ts| - 1], now, t);
      assert ts == ts[..|ts| - 1] + [ts[|ts| - 1]];
    }
  }

  lemma NotYetHandled(ts: seq<Task>, i: nat, now: int, sent: seq<Task>, sentAt: map<Id, int>)
    requires ByCreation(ts) && i < |ts|
    requires sent <= Live(ts[..i], now) && sentAt.Keys == Ids(sent)
    ensures ts[i].taskId !in Overdue(ts[..i], now) && ts[i].taskId !in sentAt
    ensures ts[..i + 1] == ts[..i] + [ts[i]]
  {
    forall t <- sent
      ensures t.taskId != ts[i].taskId
    {
      LiveMembers(ts[..i], now, t);
    }
  }

  /**
   What the node's connection took while the flush dealt with `done`: `sent`, in order and at times
   from `now` to `last`. `dead` says that the node is out of reach, `dead0` that it was from the start.
   */
  ghost predicate Taken(accepted0: seq<Envelope>, accepted: seq<Envelope>, dead0: bool, dead: bool,
                        done: seq<Task>, now: int, last: int, sent: seq<Task>, sentAt: map<Id, int>) {
    && now <= last && (forall id <- sentAt :: now <= sentAt[id] <= last)
    && accepted == accepted0 + Envelopes(sent)
    && (sent != Live(done, now) ==> dead)
    && (dead0 ==> sent == [] && dead)
  }

  lemma TakenSkips(accepted0: seq<Envelope>, accepted: seq<Envelope>, dead0: bool, dead: bool, deadNow: bool,
                   done: seq<Task>, t: Task, now: int, last: int, end: int, sent: seq<Task>, sentAt: map<Id, int>)
    requires Taken(accepted0, accepted, dead0, dead, done, now, last, sent, sentAt)
    requires last <= end && (dead ==> deadNow) && (PastDeadline(t.deadline, now) || deadNow)
    ensures Taken(accepted0, accepted, dead0, deadNow, done + [t], now, end, sent, sentAt)
  {
    LiveStep(done, t, now);
  }

  lemma TakenSends(accepted0: seq<Envelope>, accepted: seq<Envelope>, dead: bool,
                   done: seq<Task>, t: Task, now: int, last: int, end: int, sent: seq<Task>, sentAt: map<Id, int>)
    requires Taken(accepted0, accepted, false, false, done, now, last, sent, sentAt)
    requires last <= end && !PastDeadline(t.deadline, now)
    ensures Taken(accepted0, accepted + [EnvelopeFor(t)], false, dead, done + [t], now, end, sent + [t], sentAt[t.taskId := end])
  {
    LiveStep(done, t, now);
    assert Envelopes(sent + [t]) == Envelopes(sent) + [EnvelopeFor(t)];
  }

  /**
   What a flush leaves, row by row: of the node's queued rows those whose deadline is set and over are
   expired, those of `sent` are sent, and the others are still queued. `sent` is in order of creation,
   and whatever else could have been sent is no older. Every other row is as it was.
   */
  ghost predicate FlushTells(rows0: Table, rows: Table, node: NodeId, now: int, sent: seq<Task>, sentAt: map<Id, int>) {
    && rows.Keys == rows0.Keys
    && (forall id <- rows0 :: rows0[id].nodeId != node || rows0[id].state != Queued ==> rows[id] == rows0[id])
    && (forall id <- rows0 :: rows0[id].nodeId == node && rows0[id].state == Queued ==>
          && (rows[id].state == Expired <==> 0 < rows0[id].deadline < now)
          && (rows[id].state == Sent <==> id in sentAt)
          && (rows[id].state in {Queued, Sent, Expired})
          && rows[id] == rows0[id].(state := rows[id].state, sentAt := if id in sentAt then sentAt[id] else rows0[id].sentAt))
    && (forall id :: id in sentAt <==> exists k :: 0 <= k < |sent| && sent[k].taskId == id)
    && (forall k :: 0 <= k < |sent| ==>
          sent[k].taskId in rows0 && rows0[sent[k].taskId] == sent[k] && sent[k].nodeId == node && sent[k].state == Queued)
    && (forall i, j :: 0 <= i < j < |sent| ==> sent[i].createdAt <= sent[j].createdAt && sent[i].taskId != sent[j].taskId)
    && (forall k, id :: 0 <= k < |sent| && id in rows0 && rows0[id].nodeId == node && rows[id].state == Queued ==>
          sent[k].createdAt <= rows0[id].createdAt)
  }

  lemma {:induction false} LiveOrdered(ts: seq<Task>, now: int)
    requires ByCreation(ts)
    ensures ByCreation(Live(ts, now))
  {
    if ts != [] {
      var n := |ts| - 1;
      LiveOrdered(ts[..n], now);
      forall k | 0 <= k < |Live(ts[..n], now)|
        ensures Live(ts[..n], now)[k].createdAt <= ts[n].createdAt && Live(ts[..n], now)[k].taskId != ts[n].taskId
      {
        LiveMembers(ts[..n], now, Live(ts[..n], now)[k]);
      }
    }
  }

  /** The rows that are sent, and those that could have been. */
  lemma SentInOrder(rows0: Table, node: NodeId, listing: seq<Task>, now: int, sent: seq<Task>)
    requires Listing(rows0, node, listing) && sent <= Live(listing, now)
    ensures ByCreation(sent)
    ensures forall t <- sent :: t in listing && !(0 < t.deadline < now)
    ensures forall k, t :: 0 <= k < |sent| && t in listing && !(0 < t.deadline < now) && t !in sent ==>
              sent[k].createdAt <= t.createdAt
  {
    LiveOrdered(listing, now);
    var live := Live(listing, now);
    forall t <- sent
      ensures t in listing && !(0 < t.deadline < now)
    {
      LiveMembers(listing, now, t);
    }
    forall k, t | 0 <= k < |sent| && t in listing && !(0 < t.deadline < now) && t !in sent
      ensures sent[k].createdAt <= t.createdAt
    {
      LiveMembers(listing, now, t);
      var j :| 0 <= j < |live| && live[j] == t;
      assert live[k] == sent[k];
    }
  }

  lemma FlushedRow(rows0: Table, rows: Table, node: NodeId, listing: seq<Task>, now: int,
                   sent: seq<Task>, sentAt: map<Id, int>, id: Id)
    requires Listing(rows0, node, listing) && Partition(rows0, rows, listing, now, sent, sentAt) && id in rows0
    requires WellKeyed(rows0)
    ensures id in rows
    ensures id in sentAt <==> rows0[id] in sent
    ensures if rows0[id].nodeId == node && rows0[id].state == Queued then
              rows[id] == if 0 < rows0[id].deadline < now then rows0[id].(state := Expired)
                          else if id in sentAt then rows0[id].(state := Sent, sentAt := sentAt[id]) else rows0[id]
            else rows[id] == rows0[id]
    ensures id in sentAt ==> rows0[id] in listing && !(0 < rows0[id].deadline < now)
  {
    SentInOrder(rows0, node, listing, now, sent);
    if rows0[id].nodeId == node && rows0[id].state == Queued {
      assert rows0[id] in listing;
    }
    if id in Overdue(listing, now) {
      var t :| t in listing && PastDeadline(t.deadline, now) && t.taskId == id;
      assert t == rows0[id];
    }
    if id in sentAt {
      var t :| t in sent && t.taskId == id;
      assert t in listing && t == rows0[id];
    }
  }

  lemma FlushTold(rows0: Table, rows: Table, node: NodeId, listing: seq<Task>, now: int, sent: seq<Task>, sentAt: map<Id, int>)
    requires WellKeyed(rows0) && Listing(rows0, node, listing) && Partition(rows0, rows, listing, now, sent, sentAt)
    ensures FlushTells(rows0, rows, node, now, sent, sentAt)
  {
    SentInOrder(rows0, node, listing, now, sent);
    forall id <- rows0
      ensures id in rows
      ensures id in sentAt <==> rows0[id] in sent
      ensures if rows0[id].nodeId == node && rows0[id].state == Queued then
                rows[id] == if 0 < rows0[id].deadline < now then rows0[id].(state := Expired)
                            else if id in sentAt then rows0[id].(state := Sent, sentAt := sentAt[id]) else rows0[id]
              else rows[id] == rows0[id]
      ensures id in sentAt ==> rows0[id] in listing && !(0 < rows0[id].deadline < now)
    {
      FlushedRow(rows0, rows, node, listing, now, sent, sentAt, id);
    }
  }

  /** Beyond `accepted0`, the connection has accepted one envelope for each task, in order. */
  ghost predicate CarriesAll(accepted0: seq<Envelope>, accepted: seq<Envelope>, sent: seq<Task>) {
    && accepted0 <= accepted && |accepted| == |accepted0| + |sent|
    && forall k :: 0 <= k < |sent| ==> Carries(accepted[|accepted0| + k], sent[k])
  }

  ghost predicate SomeQueued(rows: Table, node: NodeId) {
    exists id :: id in rows && rows[id].nodeId == node && rows[id].state == Queued
  }

  lemma FlushEnds(rows0: Table, rows: Table, node: NodeId, listing: seq<Task>, now: int, sent: seq<Task>, sentAt: map<Id, int>,
                  accepted0: seq<Envelope>, accepted: seq<Envelope>, dead0: bool, dead: bool, last: int)
    requires WellKeyed(rows0) && Listing(rows0, node, listing) && Partition(rows0, rows, listing, now, sent, sentAt)
    requires Taken(accepted0, accepted, dead0, dead, listing, now, last, sent, sentAt)
    ensures FlushTells(rows0, rows, node, now, sent, sentAt)
    ensures CarriesAll(accepted0, accepted, sent)
    ensures SomeQueued(rows, node) ==> dead
  {
    FlushTold(rows0, rows, node, listing, now, sent, sentAt);
    EnvelopesCarry(accepted0, accepted, sent);
    LeftMeansCut(rows0, rows, node, listing, now, sent, sentAt);
  }

  lemma EnvelopesCarry(accepted0: seq<Envelope>, accepted: seq<Envelope>, sent: seq<Task>)
    requires accepted == accepted0 + Envelopes(sent)
    ensures CarriesAll(accepted0, accepted, sent)
  {
    assert forall k :: 0 <= k < |sent| ==> accepted[|accepted0| + k] == EnvelopeFor(sent[k]);
  }

  /** A row that is left queued could have been sent. */
  lemma LeftMeansCut(rows0: Table, rows: Table, node: NodeId, listing: seq<Task>, now: int, sent: seq<Task>, sentAt: map<Id, int>)
    requires WellKeyed(rows0) && Listing(rows0, node, listing) && Partition(rows0, rows, listing, now, sent, sentAt)
    ensures SomeQueued(rows, node) ==> sent != Live(listing, now)
  {
    if id :| id in rows && rows[id].nodeId == node && rows[id].state == Queued {
      FlushedRow(rows0, rows, node, listing, now, sent, sentAt, id);
      LiveMembers(listing, now, rows0[id]);
    }
  }

  /** The table after one listed task has been dealt with. */
  function AfterOne(rows: Table, t: Task, now: int, accepted: bool, at: int): Table {
    if PastDeadline(t.deadline, now) then SetState(rows, t.taskId, Expired, now)
    else if accepted then SetState(rows, t.taskId, Sent, at)
    else rows
  }

  lemma FlushStep(rows0: Table, rows: Table, rows': Table, done: seq<Task>, t: Task, now: int,
                  sent: seq<Task>, sentAt: map<Id, int>, took: bool,
                  accepted0: seq<Envelope>, accepted: seq<Envelope>, accepted': seq<Envelope>,
                  dead0: bool, dead: bool, dead': bool, last: int, end: int)
    requires Partition(rows0, rows, done, now, sent, sentAt)
    requires Taken(accepted0, accepted, dead0, dead, done, now, last, sent, sentAt)
    requires t.taskId !in Overdue(done, now) && t.taskId !in sentAt && last <= end
    requires took ==> !dead && !PastDeadline(t.deadline, now)
    requires dead || (!took && !PastDeadline(t.deadline, now)) ==> dead'
    requires rows' == AfterOne(rows, t, now, took, end)
    requires accepted' == accepted + if took then [EnvelopeFor(t)] else []
    ensures var (sent', sentAt') := if took then (sent + [t], sentAt[t.taskId := end]) else (sent, sentAt);
            && Partition(rows0, rows', done + [t], now, sent', sentAt')
            && Taken(accepted0, accepted', dead0, dead', done + [t], now, end, sent', sentAt')
  {
    if took {
      PartitionSends(rows0, rows, done, t, now, sent, sentAt, end);
      TakenSends(accepted0, accepted, dead', done, t, now, last, end, sent, sentAt);
    } else {
      if PastDeadline(t.deadline, now) {
        PartitionExpires(rows0, rows, done, t, now, sent, sentAt);
      } else {
        PartitionSkips(rows0, rows, done, t, now, sent, sentAt);
      }
      TakenSkips(accepted0, accepted, dead0, dead, dead', done, t, now, last, end, sent, sentAt);
    }
  }

  /**
   Result spacing: between two results applied for one id, at least as many other ids are applied
   as the filter remembers.
   */
  lemma ResultSpacing(before: seq<Id>, id: Id, between: seq<Id>)
    requires Serial(before + [id] + between + [id], DEDUP_WINDOW)
    ensures |Elements(between) - {id}| >= 4096
  {
    SerialIffSpaced(before + [id] + between + [id], DEDUP_WINDOW);
    SpacingDistinct(before, id, between, DEDUP_WINDOW);
  }

  class Dispatcher {
    const store: TaskTable
    const registry: Registry
    const clock: Clock
    var seen: set<Id>
    var seenOrder: seq<Id>
    var waiters: map<Id, Chan>
    ghost var marked: seq<Id>

    /** Each registered waiter has its own channel, and nothing has been put in it yet. */
    ghost predicate WaitersValid()
      reads this, waiters.Values
    {
      && (forall id <- waiters :: waiters[id].value.None?)
      && (forall a, b :: a in waiters && b in waiters && a != b ==> waiters[a] != waiters[b])
    }

    /** The filter is the last ids marked, and no id was marked while the filter held it. */
    ghost predicate Valid()
      reads this, waiters.Values
    {
      Holds(Window(seen, seenOrder), marked, DEDUP_WINDOW) && WaitersValid()
    }

    constructor (store: TaskTable, registry: Registry, clock: Clock)
      ensures Valid() && marked == [] && waiters == map[]
      ensures this.store == store && this.registry == registry && this.clock == clock
    {
      this.store, this.registry, this.clock := store, registry, clock;
      seen, seenOrder := {}, [];
      waiters := map[];
      marked := [];
    }

    ghost function LiveConn(node: NodeId): set<Conn>
      reads registry
    {
      if node in registry.sessions then {registry.sessions[node].conn} else {}
    }

    /** The envelopes the node's current connection has accepted. */
    ghost function AcceptedBy(node: NodeId): seq<Envelope>
      reads registry, LiveConn(node)
    {
      if node in registry.sessions then registry.sessions[node].conn.accepted else []
    }

    /** The node has no session, or its connection has terminated. */
    ghost predicate Unreachable(node: NodeId)
      reads registry, LiveConn(node)
    {
      node in registry.sessions ==> !registry.sessions[node].conn.open
    }

    /** Hands the task to the node's connection, and only then marks its row sent. */
    method Send(t: Task) returns (ok: bool, ghost accepted: bool)
      modifies store, clock, LiveConn(t.nodeId)
      ensures old(clock.last) <= clock.last
      ensures ok == (accepted && t.taskId in old(store.rows))
      ensures accepted ==> !old(Unreachable(t.nodeId))
      ensures accepted ==> store.rows == SetState(old(store.rows), t.taskId, Sent, clock.last)
      ensures accepted ==> AcceptedBy(t.nodeId) == old(AcceptedBy(t.nodeId)) + [EnvelopeFor(t)]
      ensures accepted ==>
                && |AcceptedBy(t.nodeId)| == |old(AcceptedBy(t.nodeId))| + 1
                && var e := AcceptedBy(t.nodeId)[|old(AcceptedBy(t.nodeId))|];
                   && e.id == t.taskId && e.payload.Instruct?
                   && e.payload.instruction.kind == t.command.kind && e.payload.instruction.command == t.command.command
                   && e.payload.instruction.name == t.command.name && e.payload.instruction.argsJson == t.command.argsJson
                   && e.payload.instruction.deadline == t.deadline && e.payload.instruction.timeoutSec == 0
      ensures !accepted ==> store.rows == old(store.rows)
      ensures !accepted ==> Unreachable(t.nodeId) && AcceptedBy(t.nodeId) == old(AcceptedBy(t.nodeId))
    {
      if t.nodeId !in registry.sessions {
        return false, false;
      }
      var conn := registry.sessions[t.nodeId].conn;
      ok := conn.Send(EnvelopeFor(t));
      accepted := ok;
      if ok {
        var at := clock.Now();
        ok := store.UpdateTaskState(t.taskId, Sent, at);
      }
    }

    /** Stores the task as queued, and tries to deliver it when the node has a session. */
    method CreateTask(task: Task) returns (created: Option<Task>)
      modifies store, clock, LiveConn(task.nodeId)
      ensures created.None? <==> task.taskId in old(store.rows)
      ensures created.None? ==> store.rows == old(store.rows)
      ensures old(clock.last) <= clock.last
      ensures created.Some? ==>
                && created.value.state in {Queued, Sent}
                && var t := created.value;
                   && t == task.(state := t.state, createdAt := t.createdAt)
                   && (task.createdAt != 0 ==> t.createdAt == task.createdAt)
                   && store.rows == Created(old(store.rows), t, t.state == Sent, clock.last)
      ensures created.Some? ==>
                && task.taskId in store.rows
                && var row := store.rows[task.taskId];
                   && row == task.(state := created.value.state, createdAt := created.value.createdAt,
                                   sentAt := row.sentAt, report := row.report)
                   && row.sentAt == (if row.state == Sent then clock.last else 0)
                   && row.report == Columns(0, 0, "", "", false, 0)
      ensures created.Some? ==> store.rows.Keys == old(store.rows).Keys + {task.taskId}
      ensures forall id <- old(store.rows) :: id in store.rows && store.rows[id] == old(store.rows)[id]
      ensures created.Some? && created.value.state == Sent ==>
                && AcceptedBy(task.nodeId) == old(AcceptedBy(task.nodeId)) + [EnvelopeFor(created.value)]
                && Carries(EnvelopeFor(created.value), task)
      ensures created.Some? && created.value.state == Queued ==>
                Unreachable(task.nodeId) && AcceptedBy(task.nodeId) == old(AcceptedBy(task.nodeId))
    {
      var t := task.(state := Queued);
      if t.createdAt == 0 {
        var now := clock.Now();
        t := t.(createdAt := now);
      }
      var ok := store.CreateTask(t);
      if !ok {
        return None;
      }
      if t.nodeId in registry.sessions {
        var sent, _ := Send(t);
        if sent {
          t := t.(state := Sent);
        }
      }
      created := Some(t);
    }

    /** One listed task: expired when overdue, else sent. */
    method FlushOne(t: Task, t0: int) returns (ghost accepted: bool)
      requires t0 <= clock.last
      modifies store, clock, LiveConn(t.nodeId)
      ensures old(clock.last) <= clock.last
      ensures old(Unreachable(t.nodeId)) ==> Unreachable(t.nodeId) && !accepted
      ensures accepted ==> !PastDeadline(t.deadline, t0)
      ensures store.rows == AfterOne(old(store.rows), t, t0, accepted, clock.last)
      ensures accepted ==> !(0 < t.deadline < t0)
      ensures t.taskId in old(store.rows) ==>
                && t.taskId in store.rows
                && store.rows[t.taskId] ==
                   if 0 < t.deadline < t0 then old(store.rows)[t.taskId].(state := Expired)
                   else if accepted then old(store.rows)[t.taskId].(state := Sent, sentAt := clock.last)
                   else old(store.rows)[t.taskId]
      ensures !PastDeadline(t.deadline, t0) && !accepted ==> Unreachable(t.nodeId)
      ensures AcceptedBy(t.nodeId) == old(AcceptedBy(t.nodeId)) + if accepted then [EnvelopeFor(t)] else []
    {
      accepted := false;
      if PastDeadline(t.deadline, t0) {
        var _ := store.UpdateTaskState(t.taskId, Expired, t0);
      } else {
        var _, taken := Send(t);
        accepted := taken;
      }
    }

    /** One more task of a listing of which `done` has been dealt with. */
    method FlushNext(t: Task, t0: int, ghost rows0: Table, ghost accepted0: seq<Envelope>, ghost dead0: bool,
                     ghost done: seq<Task>, ghost sent: seq<Task>, ghost sentAt: map<Id, int>)
      returns (ghost sent': seq<Task>, ghost sentAt': map<Id, int>)
      requires Partition(rows0, store.rows, done, t0, sent, sentAt)
      requires Taken(accepted0, AcceptedBy(t.nodeId), dead0, Unreachable(t.nodeId), done, t0, clock.last, sent, sentAt)
      requires t.taskId !in Overdue(done, t0) && t.taskId !in sentAt
      modifies store, clock, LiveConn(t.nodeId)
      ensures Partition(rows0, store.rows, done + [t], t0, sent', sentAt')
      ensures Taken(accepted0, AcceptedBy(t.nodeId), dead0, Unreachable(t.nodeId), done + [t], t0, clock.last, sent', sentAt')
    {
      ghost var rows, accepted, dead, last := store.rows, AcceptedBy(t.nodeId), Unreachable(t.nodeId), clock.last;
      ghost var took := FlushOne(t, t0);
      FlushStep(rows0, rows, store.rows, done, t, t0, sent, sentAt, took,
                accepted0, accepted, AcceptedBy(t.nodeId), dead0, dead, Unreachable(t.nodeId), last, clock.last);
      sent', sentAt' := if took then sent + [t] else sent, if took then sentAt[t.taskId := clock.last] else sentAt;
    }

    /** The flush's loop over a listing. */
    method FlushListing(node: NodeId, tasks: seq<Task>, t0: int) returns (ghost sent: seq<Task>, ghost sentAt: map<Id, int>)
      requires Listing(store.rows, node, tasks) && t0 <= clock.last
      modifies store, clock, LiveConn(node)
      ensures Partition(old(store.rows), store.rows, tasks, t0, sent, sentAt)
      ensures Taken(old(AcceptedBy(node)), AcceptedBy(node), old(Unreachable(node)), Unreachable(node),
                    tasks, t0, clock.last, sent, sentAt)
    {
      ghost var rows0, accepted0, dead0 := store.rows, AcceptedBy(node), Unreachable(node);
      sent, sentAt := [], map[];
      assert store.rows == Flushed(rows0, {}, sentAt);
      ghost var done: seq<Task> := [];
      var i := 0;
      while i < |tasks|
        invariant 0 <= i <= |tasks| && done == tasks[..i]
        invariant Partition(rows0, store.rows, done, t0, sent, sentAt)
        invariant Taken(accepted0, AcceptedBy(node), dead0, Unreachable(node), done, t0, clock.last, sent, sentAt)
      {
        var t := tasks[i];
        NotYetHandled(tasks, i, t0, sent, sentAt);
        assert t in tasks && t.nodeId == node;
        sent, sentAt := FlushNext(t, t0, rows0, accepted0, dead0, done, sent, sentAt);
        i, done := i + 1, done + [t];
      }
      assert done == tasks;
    }

    /**
     Delivers the node's queued tasks, oldest first. The listing splits into the overdue, which
     expire; a first part of the others, which the connection accepts in order; and the rest,
     which stay queued because the node has no session or its connection has failed.
     */
    method FlushQueue(node: NodeId)
      returns (ghost listing: seq<Task>, ghost now: int, ghost sent: seq<Task>, ghost sentAt: map<Id, int>)
      requires WellKeyed(store.rows)
      modifies store, clock, LiveConn(node)
      ensures Listing(old(store.rows), node, listing)
      ensures old(clock.last) <= now <= clock.last
      ensures Partition(old(store.rows), store.rows, listing, now, sent, sentAt)
      ensures FlushTells(old(store.rows), store.rows, node, now, sent, sentAt)
      ensures forall id <- sentAt :: now <= sentAt[id] <= clock.last
      ensures AcceptedBy(node) == old(AcceptedBy(node)) + Envelopes(sent)
      ensures CarriesAll(old(AcceptedBy(node)), AcceptedBy(node), sent)
      ensures sent != Live(listing, now) ==> Unreachable(node)
      ensures SomeQueued(store.rows, node) ==> Unreachable(node)
      ensures old(Unreachable(node)) ==> sent == [] && Unreachable(node)
    {
      ghost var rows0, accepted0, dead0 := store.rows, AcceptedBy(node), Unreachable(node);
      var tasks := store.QueuedTasks(node);
      listing := tasks;
      var t0 := clock.Now();
      now := t0;
      sent, sentAt := FlushListing(node, tasks, t0);
      FlushEnds(rows0, store.rows, node, listing, now, sent, sentAt,
                accepted0, AcceptedBy(node), dead0, Unreachable(node), clock.last);
    }

    method SeenRecently(id: Id) returns (known: bool)
      ensures known == (id in seen)
    {
      known := id in seen;
    }

    method MarkSeen(id: Id)
      modifies this`seen, this`seenOrder, this`marked
      ensures marked == old(marked) + [id]
      ensures Window(seen, seenOrder) == Mark(Window(old(seen), old(seenOrder)), id, DEDUP_WINDOW)
    {
      seen := seen + {id};
      seenOrder := seenOrder + [id];
      if |seenOrder| > DEDUP_WINDOW {
        var oldest := seenOrder[0];
        seenOrder := seenOrder[1..];
        seen := seen - {oldest};
      }
      marked := marked + [id];
    }

    ghost predicate Applies(id: Id)
      reads this
    {
      id != "" && id !in seen
    }

    ghost predicate Wakes(id: Id)
      reads this, store
    {
      Applies(id) && id in store.rows && id in waiters
    }

    /** Pairs a result with its task. Fails only when no row has the id. */
    method HandleResult(r: Result) returns (ok: bool)
      requires Valid()
      modifies this, store, clock, waiters.Values
      ensures Valid()
      ensures old(clock.last) <= clock.last
      ensures (store.rows, Window(seen, seenOrder)) ==
              Handled(old(store.rows), Window(old(seen), old(seenOrder)), r, clock.last, DEDUP_WINDOW)
      ensures marked == old(marked) + if old(Applies(r.refId)) then [r.refId] else []
      ensures !ok <==> old(Applies(r.refId)) && r.refId !in old(store.rows)
      ensures store.rows.Keys == old(store.rows).Keys
      ensures forall id <- store.rows :: id != r.refId ==> store.rows[id] == old(store.rows)[id]
      ensures r.refId in store.rows ==>
                if r.refId != "" && r.refId !in old(seen) then
                  TellsResult(old(store.rows)[r.refId], store.rows[r.refId], r, clock.last)
                else store.rows[r.refId] == old(store.rows)[r.refId]
      ensures if r.refId != "" && r.refId !in old(seen) then r.refId in seen else seen == old(seen) && seenOrder == old(seenOrder)
      ensures waiters == if old(Wakes(r.refId)) then old(waiters) - {r.refId} else old(waiters)
      ensures old(Wakes(r.refId)) ==> old(waiters[r.refId]).value == Some(store.rows[r.refId])
      ensures forall id <- waiters :: waiters[id].value == old(waiters[id].value)
    {
      ok := true;
      var known := r.refId == "";
      if !known {
        known := SeenRecently(r.refId);
      }
      if !known {
        MarkSlides(Window(seen, seenOrder), marked, DEDUP_WINDOW, r.refId);
        MarkSeen(r.refId);
        var at := clock.Now();
        ok := store.CompleteTask(r, at);
        if ok {
          var full := store.GetTask(r.refId);
          NotifyWaiter(r.refId, full.value);
        }
      }
    }

    method Wait(id: Id) returns (ch: Chan)
      requires WaitersValid()
      modifies this`waiters
      ensures WaitersValid()
      ensures fresh(ch) && ch.value.None? && waiters == old(waiters)[id := ch]
    {
      ch := new Chan();
      waiters := waiters[id := ch];
    }

    method CancelWait(id: Id)
      requires WaitersValid()
      modifies this`waiters
      ensures WaitersValid()
      ensures waiters == old(waiters) - {id}
    {
      waiters := waiters - {id};
    }

    /** Takes the waiter out and hands it the task; the channel has room, so this does not block. */
    method NotifyWaiter(id: Id, t: Task)
      requires WaitersValid()
      modifies this`waiters, waiters.Values
      ensures WaitersValid()
      ensures waiters == old(waiters) - {id}
      ensures id in old(waiters) ==> old(waiters[id]).value == Some(t)
      ensures forall other <- waiters :: waiters[other].value == old(waiters[other].value)
    {
      if id in waiters {
        var ch := waiters[id];
        waiters := waiters - {id};
        ch.Put(t);
      }
    }
  }
}
