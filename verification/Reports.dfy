/** What the Manager does with the frames of one connection, from its start to its end. */
module Reporting {
  import opened Protocol
  import opened Windows
  import opened Executors
  import opened Tasks
  import opened Registries
  import opened Dispatchers

  /** What notifications act on. */
  datatype Snapshot = Snapshot(rows: Table, window: Window<Id>, sessions: map<NodeId, Session>, clock: int)

  /** Any notification is a sign of life; only a heartbeat is kept. */
  function Touched(sessions: map<NodeId, Session>, node: NodeId, n: Notification, now: int): map<NodeId, Session> {
    if node !in sessions then sessions
    else
      var s := sessions[node].(lastSeen := now);
      sessions[node := if n.Heartbeat? then s.(lastHeartbeat := Some(n)) else s]
  }

  ghost predicate FlushedFor(node: NodeId, a: Snapshot, b: Snapshot) {
    exists listing, now, sent, sentAt ::
      && Listing(a.rows, node, listing) && a.clock <= now <= b.clock && Partition(a.rows, b.rows, listing, now, sent, sentAt)
      && FlushTells(a.rows, b.rows, node, now, sent, sentAt)
  }

  /** Registering flushes the queue unless it fails, a result is paired, and nothing else moves a task. */
  ghost predicate Routed(node: NodeId, n: Notification, ok: bool, a: Snapshot, b: Snapshot) {
    match n
    case Register => b.window == a.window && if ok then FlushedFor(node, a, b) else b.rows == a.rows
    case Report(r) => (b.rows, b.window) == Handled(a.rows, a.window, r, b.clock, DEDUP_WINDOW)
    case _ => b.rows == a.rows && b.window == a.window
  }

  /** What one notification changes, session by session and row by row. */
  ghost predicate Tells(node: NodeId, n: Notification, ok: bool, a: Snapshot, b: Snapshot) {
    && a.clock <= b.clock
    && b.sessions.Keys == a.sessions.Keys && (forall other <- a.sessions :: other != node ==> b.sessions[other] == a.sessions[other])
    && (node in a.sessions ==>
          && b.sessions[node].conn == a.sessions[node].conn
          && a.clock <= b.sessions[node].lastSeen <= b.clock
          && b.sessions[node].lastHeartbeat == if n == Heartbeat then Some(n) else a.sessions[node].lastHeartbeat)
    && (n == Register ==>
          && b.window == a.window
          && if ok then exists now, sent, sentAt :: a.clock <= now <= b.clock && FlushTells(a.rows, b.rows, node, now, sent, sentAt)
             else b.rows == a.rows)
    && (n.Report? ==>
          var id := n.result.refId;
          if id != "" && id !in a.window.seen then
            && b.window.order != [] && b.window.order[|b.window.order| - 1] == id && b.rows.Keys == a.rows.Keys
            && (forall other <- a.rows :: other != id ==> b.rows[other] == a.rows[other])
            && (id in a.rows ==> TellsResult(a.rows[id], b.rows[id], n.result, b.clock))
          else b.rows == a.rows && b.window == a.window)
    && (n != Register && !n.Report? ==> b.rows == a.rows && b.window == a.window)
  }

  ghost predicate Took(node: NodeId, n: Notification, ok: bool, a: Snapshot, b: Snapshot) {
    && Tells(node, n, ok, a, b)
    && exists now ::
         && a.clock <= now <= b.clock
         && b.sessions == Touched(a.sessions, node, n, now) && Routed(node, n, ok, a.(clock := now), b)
  }

  /**
   `at` are the places of the notifications among the frames, all of them and in order. Acks,
   instructions and malformed payloads are passed over.
   */
  ghost predicate Picks(frames: seq<Envelope>, at: seq<nat>) {
    && (forall j, k :: 0 <= j < k < |at| ==> at[j] < at[k])
    && (forall k :: 0 <= k < |at| ==> at[k] < |frames| && frames[at[k]].payload.Notify?)
    && (forall i :: 0 <= i < |frames| && frames[i].payload.Notify? ==> i in at)
  }

  /** `ss` runs from a first snapshot to a last one, one notification at a time, and `oks` says which went well. */
  ghost predicate TookAll(node: NodeId, frames: seq<Envelope>, at: seq<nat>, oks: seq<bool>, ss: seq<Snapshot>)
    requires Picks(frames, at)
  {
    && |ss| == |at| + 1 && |oks| == |at|
    && forall k :: 0 <= k < |at| ==> Took(node, frames[at[k]].payload.notification, oks[k], ss[k], ss[k + 1])
  }

  class Manager {
    const dispatcher: Dispatcher
    const registry: Registry

    ghost predicate Valid()
      reads this, dispatcher, dispatcher.store, dispatcher.waiters.Values, registry, registry.closed
    {
      && dispatcher.registry == registry
      && dispatcher.Valid() && registry.Valid() && WellKeyed(dispatcher.store.rows)
    }

    ghost function Now(): Snapshot
      reads dispatcher, dispatcher.store, dispatcher.clock, registry
    {
      Snapshot(dispatcher.store.rows, Window(dispatcher.seen, dispatcher.seenOrder), registry.sessions, dispatcher.clock.last)
    }

    constructor (dispatcher: Dispatcher)
      requires dispatcher.Valid() && dispatcher.registry.Valid() && WellKeyed(dispatcher.store.rows)
      ensures Valid() && this.dispatcher == dispatcher && Now().rows == dispatcher.store.rows
    {
      this.dispatcher := dispatcher;
      this.registry := dispatcher.registry;
    }

    /** Stores the node's row and, unless that fails, delivers the instructions that piled up while it was away. */
    method HandleRegister(node: NodeId) returns (ok: bool)
      requires Valid()
      modifies dispatcher.store, dispatcher.clock, dispatcher.LiveConn(node)
      ensures Valid() && if ok then FlushedFor(node, old(Now()), Now()) else Now().rows == old(Now().rows)
      ensures Now().window == old(Now().window) && Now().sessions == old(Now().sessions) && old(Now().clock) <= Now().clock
    {
      ok := *;
      if ok {
        ghost var listing, now, sent, sentAt := dispatcher.FlushQueue(node);
      }
    }

    method Route(node: NodeId, n: Notification, now: int) returns (ok: bool)
      requires Valid()
      modifies dispatcher, dispatcher.store, dispatcher.clock, dispatcher.waiters.Values
      modifies registry`sessions, dispatcher.LiveConn(node)
      ensures Valid() && Routed(node, n, ok, old(Now()), Now()) && old(Now().clock) <= Now().clock
      ensures registry.sessions ==
        if n.Heartbeat? && node in old(registry.sessions) then
          old(registry.sessions)[node := old(registry.sessions[node]).(lastSeen := now, lastHeartbeat := Some(n))]
        else old(registry.sessions)
      ensures dispatcher.waiters.Values <= old(dispatcher.waiters.Values)
    {
      ok := true;
      match n {
        case Register =>
          ok := HandleRegister(node);
        case Heartbeat =>
          registry.SetHeartbeat(node, n, now);
        case Report(r) =>
          ok := dispatcher.HandleResult(r);
        case _ =>
      }
    }

    /** Routes one notification of an authenticated node. */
    method Handle(node: NodeId, n: Notification) returns (ok: bool)
      requires Valid()
      modifies dispatcher, dispatcher.store, dispatcher.clock, dispatcher.waiters.Values
      modifies registry`sessions, dispatcher.LiveConn(node)
      ensures Valid() && Took(node, n, ok, old(Now()), Now())
      ensures dispatcher.waiters.Values <= old(dispatcher.waiters.Values)
    {
      ghost var a := Now();
      var now := dispatcher.clock.Now();
      registry.Touch(node, now);
      ghost var b := Now();
      ok := Route(node, n, now);
      TouchThenRoute(node, n, ok, a, b, Now());
    }

    /** One frame: a notification is handled, anything else passed over. */
    method ReadFrame(node: NodeId, conn: Conn, frames: seq<Envelope>, i: nat,
                     ghost at: seq<nat>, ghost oks: seq<bool>, ghost ss: seq<Snapshot>)
      returns (ghost at': seq<nat>, ghost oks': seq<bool>, ghost ss': seq<Snapshot>)
      requires Valid() && node in registry.sessions && registry.sessions[node].conn == conn
      requires i < |frames| && Picks(frames[..i], at) && TookAll(node, frames[..i], at, oks, ss) && ss[|ss| - 1] == Now()
      modifies dispatcher, dispatcher.store, dispatcher.clock, dispatcher.waiters.Values
      modifies registry`sessions, conn
      ensures Valid() && node in registry.sessions && registry.sessions[node].conn == conn
      ensures Picks(frames[..i + 1], at') && TookAll(node, frames[..i + 1], at', oks', ss')
      ensures ss'[0] == ss[0] && ss'[|ss'| - 1] == Now()
      ensures dispatcher.waiters.Values <= old(dispatcher.waiters.Values)
    {
      at', oks', ss' := at, oks, ss;
      var p := frames[i].payload;
      if p.Notify? {
        var ok := Handle(node, p.notification);
        at', oks', ss' := at + [i], oks + [ok], ss + [Now()];
        PicksOne(node, frames, i, at, oks, ss, ok, Now());
      } else {
        PassesOver(node, frames, i, at, oks, ss);
      }
    }

    /** Reads a connection to its end, one frame at a time. */
    method ReadFrames(node: NodeId, conn: Conn, frames: seq<Envelope>)
      returns (ghost at: seq<nat>, ghost oks: seq<bool>, ghost ss: seq<Snapshot>)
      requires Valid() && node in registry.sessions && registry.sessions[node].conn == conn
      modifies dispatcher, dispatcher.store, dispatcher.clock, dispatcher.waiters.Values
      modifies registry`sessions, conn
      ensures Valid() && Picks(frames, at) && TookAll(node, frames, at, oks, ss)
      ensures ss[0] == old(Now()) && ss[|ss| - 1] == Now()
    {
      at, oks, ss := [], [], [Now()];
      var i := 0;
      while i < |frames|
        invariant 0 <= i <= |frames|
        invariant Valid() && Picks(frames[..i], at) && TookAll(node, frames[..i], at, oks, ss)
        invariant ss[0] == old(Now()) && ss[|ss| - 1] == Now()
        invariant node in registry.sessions && registry.sessions[node].conn == conn
        invariant dispatcher.waiters.Values <= old(dispatcher.waiters.Values)
      {
        at, oks, ss := ReadFrame(node, conn, frames, i, at, oks, ss);
        i := i + 1;
      }
      assert frames[..i] == frames;
    }

    /**
     The whole life of a connection: bound on arrival, read to its end, and unbound at the end.
     `ss` is what the notifications made of the Manager, one after the other; `at` are their places.
     */
    method HandleConn(node: NodeId, conn: Conn, frames: seq<Envelope>)
      returns (ghost at: seq<nat>, ghost oks: seq<bool>, ghost ss: seq<Snapshot>)
      requires Valid() && conn !in registry.added
      modifies dispatcher, dispatcher.store, dispatcher.clock, dispatcher.waiters.Values
      modifies registry, conn, dispatcher.LiveConn(node)
      ensures Valid() && Picks(frames, at) && TookAll(node, frames, at, oks, ss)
      ensures |ss| == |at| + 1 && forall j, k :: 0 <= j < k < |at| ==> at[j] < at[k]
      ensures forall i :: i in at <==> 0 <= i < |frames| && frames[i].payload.Notify?
      ensures forall k :: 0 <= k < |at| ==> Tells(node, frames[at[k]].payload.notification, oks[k], ss[k], ss[k + 1])
      ensures ss[0].rows == old(Now().rows) && ss[0].window == old(Now().window)
      ensures node in ss[0].sessions && ss[0].sessions[node].conn == conn
      ensures Now() == ss[|ss| - 1].(sessions := ss[|ss| - 1].sessions - {node})
    {
      var now := dispatcher.clock.Now();
      registry.Add(node, conn, now);
      at, oks, ss := ReadFrames(node, conn, frames);
      registry.Remove(node);
    }
  }

  lemma TouchThenRoute(node: NodeId, n: Notification, ok: bool, a: Snapshot, b: Snapshot, c: Snapshot)
    requires a.clock <= b.clock <= c.clock && b.rows == a.rows && b.window == a.window && Routed(node, n, ok, b, c)
    requires b.sessions ==
      if node in a.sessions then a.sessions[node := a.sessions[node].(lastSeen := b.clock)] else a.sessions
    requires c.sessions ==
      if n.Heartbeat? && node in b.sessions then
        b.sessions[node := b.sessions[node].(lastSeen := b.clock, lastHeartbeat := Some(n))]
      else b.sessions
    ensures Took(node, n, ok, a, c)
  {
    assert c.sessions == Touched(a.sessions, node, n, b.clock);
    assert Routed(node, n, ok, a.(clock := b.clock), c);
    RoutedTells(node, n, ok, b, c);
  }

  /** What a routed notification does to the rows. */
  lemma RoutedTells(node: NodeId, n: Notification, ok: bool, a: Snapshot, b: Snapshot)
    requires Routed(node, n, ok, a, b)
    ensures n == Register ==>
              && b.window == a.window
              && if ok then exists now, sent, sentAt :: a.clock <= now <= b.clock && FlushTells(a.rows, b.rows, node, now, sent, sentAt)
                 else b.rows == a.rows
    ensures n.Report? ==>
              var id := n.result.refId;
              if id != "" && id !in a.window.seen then
                && b.window.order != [] && b.window.order[|b.window.order| - 1] == id && b.rows.Keys == a.rows.Keys
                && (forall other <- a.rows :: other != id ==> b.rows[other] == a.rows[other])
                && (id in a.rows ==> TellsResult(a.rows[id], b.rows[id], n.result, b.clock))
              else b.rows == a.rows && b.window == a.window
    ensures n != Register && !n.Report? ==> b.rows == a.rows && b.window == a.window
  {
    match n
    case Register =>
      if ok {
        var listing, now, sent, sentAt :|
          && Listing(a.rows, node, listing) && a.clock <= now <= b.clock && Partition(a.rows, b.rows, listing, now, sent, sentAt)
          && FlushTells(a.rows, b.rows, node, now, sent, sentAt);
      }
    case _ =>
  }

  lemma PicksOne(node: NodeId, frames: seq<Envelope>, i: nat, at: seq<nat>, oks: seq<bool>, ss: seq<Snapshot>,
                 ok: bool, s: Snapshot)
    requires i < |frames| && frames[i].payload.Notify?
    requires Picks(frames[..i], at) && TookAll(node, frames[..i], at, oks, ss)
    requires Took(node, frames[i].payload.notification, ok, ss[|ss| - 1], s)
    ensures Picks(frames[..i + 1], at + [i]) && TookAll(node, frames[..i + 1], at + [i], oks + [ok], ss + [s])
  {
    var more := at + [i];
    assert forall j :: 0 <= j < i ==> frames[..i + 1][j] == frames[..i][j];
    forall j | 0 <= j < |frames[..i + 1]| && frames[..i + 1][j].payload.Notify?
      ensures j in more
    {
      assert j == i ==> more[|at|] == i;
      assert j < i ==> j in at;
    }
  }

  lemma PassesOver(node: NodeId, frames: seq<Envelope>, i: nat, at: seq<nat>, oks: seq<bool>, ss: seq<Snapshot>)
    requires i < |frames| && !frames[i].payload.Notify?
    requires Picks(frames[..i], at) && TookAll(node, frames[..i], at, oks, ss)
    ensures Picks(frames[..i + 1], at) && TookAll(node, frames[..i + 1], at, oks, ss)
  {
    assert forall j :: 0 <= j < i ==> frames[..i + 1][j] == frames[..i][j];
  }

  /** The session is stale once 90 s have passed since its last notification; other frames do not count. */
  lemma {:induction false} OnlyNotificationsKeepAlive(node: NodeId, frames: seq<Envelope>, at: seq<nat>, oks: seq<bool>,
                                                      ss: seq<Snapshot>, k: nat)
    requires Picks(frames, at) && TookAll(node, frames, at, oks, ss) && k < |ss| && node in ss[0].sessions
    ensures node in ss[k].sessions
    ensures k > 0 ==> ss[k - 1].clock <= ss[k].sessions[node].lastSeen <= ss[k].clock
    ensures k == 0 ==> ss[k].sessions[node].lastSeen == ss[0].sessions[node].lastSeen
  {
    if k > 0 {
      OnlyNotificationsKeepAlive(node, frames, at, oks, ss, k - 1);
      assert Took(node, frames[at[k - 1]].payload.notification, oks[k - 1], ss[k - 1], ss[k]);
    }
  }
}
