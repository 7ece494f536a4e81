/**
 Which connection the registry holds while the handlers of one node's connections come and go, and
 the reaper removes sessions. A handler registers its connection when it starts, and when it ends
 removes whatever is registered for its node. Replacing a connection closes it, and that ends its
 handler, so in the ordinary course the handler of a replaced connection ends after its successor has
 started.
 */
module Handlers {
  import opened Protocol
  import opened Registries

  datatype Event = Start(node: NodeId, conn: Conn) | End(node: NodeId, conn: Conn) | Reap(node: NodeId)

  /** The connections registered after some events. */
  function Bound(h: seq<Event>): map<NodeId, Conn> {
    if h == [] then map[] else After(Bound(h[..|h| - 1]), h[|h| - 1])
  }

  function After(bound: map<NodeId, Conn>, e: Event): map<NodeId, Conn> {
    match e
    case Start(n, c) => bound[n := c]
    case End(n, _) => bound - {n}
    case Reap(n) => bound - {n}
  }

  /** Each connection has one handler, which ends at most once, after it has started. */
  ghost predicate History(h: seq<Event>) {
    && (forall i, j :: 0 <= i < j < |h| && !h[i].Reap? && !h[j].Reap? && h[i].conn == h[j].conn ==>
          h[i].Start? && h[j] == End(h[i].node, h[i].conn))
    && (forall j :: 0 <= j < |h| && h[j].End? ==> exists i :: 0 <= i < j && h[i] == Start(h[j].node, h[j].conn))
  }

  /** A node's last event decides: it has a registered connection exactly when that is a start. */
  lemma {:induction false} BoundIsLast(h: seq<Event>, node: NodeId, p: nat)
    requires p < |h| && h[p].node == node
    requires forall q :: p < q < |h| ==> h[q].node != node
    ensures if h[p].Start? then node in Bound(h) && Bound(h)[node] == h[p].conn else node !in Bound(h)
  {
    if p < |h| - 1 {
      BoundIsLast(h[..|h| - 1], node, p);
    }
  }

  /** Event `p` starts the node's newest handler, which is still running. */
  ghost predicate NewestRuns(h: seq<Event>, node: NodeId, p: nat) {
    && p < |h| && h[p].Start? && h[p].node == node
    && (forall q :: p < q < |h| && h[q].Start? ==> h[q].node != node)
    && (forall q :: p < q < |h| && !h[q].Reap? ==> h[q].conn != h[p].conn)
  }

  /** A handler of the same node that had started before event `p` ended after it. */
  ghost predicate EarlierEndedAfter(h: seq<Event>, p: nat)
    requires p < |h| && h[p].Start?
  {
    exists o, q :: 0 <= o < p < q < |h| && h[o].Start? && h[o].node == h[p].node && h[q] == End(h[p].node, h[o].conn)
  }

  ghost predicate ReapedAfter(h: seq<Event>, p: nat)
    requires p < |h|
  {
    exists q :: p < q < |h| && h[q] == Reap(h[p].node)
  }

  lemma {:induction false} LastAbout(h: seq<Event>, node: NodeId, q: nat) returns (p: nat)
    requires q < |h| && h[q].node == node
    ensures q <= p < |h| && h[p].node == node
    ensures forall r :: p < r < |h| ==> h[r].node != node
    decreases |h| - q
  {
    p := q;
    if r :| q < r < |h| && h[r].node == node {
      p := LastAbout(h, node, r);
    }
  }

  /**
   For every history: while its handler runs, a node's newest connection is registered exactly when,
   since it was added, no earlier handler of the node has ended and the node has not been reaped.
   */
  lemma {:induction false} NewestIsBoundExactly(h: seq<Event>, node: NodeId, p: nat)
    requires History(h) && NewestRuns(h, node, p)
    ensures (node in Bound(h) && Bound(h)[node] == h[p].conn) <==> !EarlierEndedAfter(h, p) && !ReapedAfter(h, p)
  {
    var last := LastAbout(h, node, p);
    BoundIsLast(h, node, last);
    if h[last].End? {
      var o :| 0 <= o < last && h[o] == Start(h[last].node, h[last].conn);
      assert o != p;
      assert EarlierEndedAfter(h, p);
    }
  }

  ghost function Conns(h: seq<Event>): set<Conn> {
    set e | e in h && !e.Reap? :: e.conn
  }

  ghost predicate Shows(sessions: map<NodeId, Session>, bound: map<NodeId, Conn>) {
    sessions.Keys == bound.Keys && forall n <- sessions :: sessions[n].conn == bound[n]
  }

  method Take(registry: Registry, e: Event, now: int, ghost bound: map<NodeId, Conn>)
    requires registry.Valid() && Shows(registry.sessions, bound)
    requires e.Start? ==> e.conn !in registry.added
    modifies registry, bound.Values
    ensures registry.Valid() && Shows(registry.sessions, After(bound, e))
    ensures registry.added <= old(registry.added) + Conns([e])
  {
    match e {
      case Start(n, c) => registry.Add(n, c, now);
      case End(n, _) => registry.Remove(n);
      case Reap(n) =>
        if n in registry.sessions {
          registry.Reap(n);
        }
    }
  }

  /** The registry does what `Bound` says: a history of handlers, played on it. */
  method Play(registry: Registry, h: seq<Event>, now: int)
    requires registry.Valid() && registry.sessions == map[] && registry.added == {}
    requires History(h)
    modifies registry, Conns(h)
    ensures registry.Valid() && Shows(registry.sessions, Bound(h))
  {
    var i := 0;
    while i < |h|
      invariant 0 <= i <= |h|
      invariant registry.Valid() && registry.added <= Conns(h[..i])
      invariant Shows(registry.sessions, Bound(h[..i]))
    {
      OneMore(h, i);
      Take(registry, h[i], now, Bound(h[..i]));
      i := i + 1;
    }
    assert h[..i] == h;
  }

  lemma OneMore(h: seq<Event>, i: nat)
    requires History(h) && i < |h|
    ensures Bound(h[..i + 1]) == After(Bound(h[..i]), h[i])
    ensures Conns(h[..i + 1]) == Conns(h[..i]) + Conns([h[i]])
    ensures h[i].Start? ==> h[i].conn !in Conns(h[..i])
    ensures Bound(h[..i]).Values <= Conns(h)
  {
    assert h[..i + 1][..i] == h[..i];
    assert h[..i + 1] == h[..i] + [h[i]];
    forall n | n in Bound(h[..i])
      ensures Bound(h[..i])[n] in Conns(h)
    {
      BoundWasStarted(h[..i], n);
    }
  }

  lemma {:induction false} BoundWasStarted(h: seq<Event>, node: NodeId)
    requires node in Bound(h)
    ensures exists j :: 0 <= j < |h| && h[j] == Start(node, Bound(h)[node])
  {
    var n := |h| - 1;
    if h[n].node == node {
      assert h[n] == Start(node, Bound(h)[node]);
    } else {
      BoundWasStarted(h[..n], node);
    }
  }
}
