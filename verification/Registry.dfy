/** Connections as the two ends use them, and the Manager's table of live sessions. */
module Registries {
  import opened Protocol
  import opened Executors

  const OFFLINE_TIMEOUT_MS := 90_000

  /**
   One end of a connection. It can fail at any moment, and then stays failed; `accepted` records
   the envelopes it took for sending.
   */
  class Conn {
    var open: bool
    ghost var accepted: seq<Envelope>

    constructor ()
      ensures open && accepted == []
    {
      open := true;
      accepted := [];
    }

    /**
     Fails only when the connection has terminated. When it terminates while the call waits for room,
     the envelope may be accepted all the same.
     */
    method Send(e: Envelope) returns (ok: bool)
      modifies this
      ensures ok ==> old(open) && accepted == old(accepted) + [e]
      ensures !ok ==> !open && accepted == old(accepted)
    {
      if !open {
        return false;
      }
      var lost: bool, taken: bool := *, *;
      if lost {
        open := false;
      }
      ok := !lost || taken;
      if ok {
        accepted := accepted + [e];
      }
    }

    method Close()
      modifies this`open
      ensures !open
    {
      open := false;
    }
  }

  datatype Session = Session(conn: Conn, lastSeen: int, lastHeartbeat: Option<Notification>)

  predicate Stale(s: Session, now: int) {
    now - s.lastSeen > OFFLINE_TIMEOUT_MS
  }

  class Registry {
    var sessions: map<NodeId, Session>
    ghost var added: set<Conn>
    ghost var closed: set<Conn>
    ghost var released: set<Conn>

    ghost function Conns(): set<Conn>
      reads this
    {
      set id | id in sessions :: sessions[id].conn
    }

    /**
     Every connection ever added is in exactly one of three places: bound to one node, closed here
     by replacement or reaping, or released by Remove.
     */
    ghost predicate Valid()
      reads this, closed
    {
      && added == Conns() + closed + released
      && Conns() !! closed !! released
      && (forall a, b :: a in sessions && b in sessions && a != b ==> sessions[a].conn != sessions[b].conn)
      && (forall c <- closed :: !c.open)
    }

    constructor ()
      ensures Valid() && sessions == map[] && added == {}
    {
      sessions := map[];
      added, closed, released := {}, {}, {};
    }

    /** Binds a connection, closing the one it replaces. */
    method Add(node: NodeId, conn: Conn, now: int)
      requires Valid() && conn !in added
      modifies this, if node in sessions then {sessions[node].conn} else {}
      ensures Valid()
      ensures sessions == old(sessions)[node := Session(conn, now, None)]
      ensures added == old(added) + {conn} && released == old(released)
      ensures closed == old(closed) + if node in old(sessions) then {old(sessions[node].conn)} else {}
    {
      if node in sessions {
        var previous := sessions[node].conn;
        previous.Close();
        closed := closed + {previous};
      }
      sessions := sessions[node := Session(conn, now, None)];
      added := added + {conn};
      assert sessions[node].conn == conn;
      forall c | c in old(Conns())
        ensures c in Conns() + closed
      {
        var id :| id in old(sessions) && old(sessions[id].conn) == c;
        assert id != node ==> id in sessions && sessions[id].conn == c;
      }
      assert old(Conns()) + {conn} == Conns() + (closed - old(closed));
    }

    /** Drops whatever session the node has, without closing its connection. */
    method Remove(node: NodeId)
      requires Valid()
      modifies this
      ensures Valid()
      ensures sessions == old(sessions) - {node}
      ensures added == old(added) && closed == old(closed)
      ensures released == old(released) + if node in old(sessions) then {old(sessions[node].conn)} else {}
    {
      if node in sessions {
        released := released + {sessions[node].conn};
      }
      sessions := sessions - {node};
      forall c | c in old(Conns())
        ensures c in Conns() + released
      {
        var id :| id in old(sessions) && old(sessions[id].conn) == c;
        assert id != node ==> id in sessions && sessions[id].conn == c;
      }
      assert old(Conns()) == Conns() + (released - old(released));
    }

    method Touch(node: NodeId, now: int)
      requires Valid()
      modifies this`sessions
      ensures Valid()
      ensures sessions ==
        if node in old(sessions) then old(sessions)[node := old(sessions[node]).(lastSeen := now)] else old(sessions)
    {
      if node in sessions {
        sessions := sessions[node := sessions[node].(lastSeen := now)];
        assert Conns() == old(Conns()) by {
          forall c | c in old(Conns())
            ensures c in Conns()
          {
            var id :| id in old(sessions) && old(sessions[id].conn) == c;
            assert id in sessions && sessions[id].conn == c;
          }
        }
      }
    }

    method SetHeartbeat(node: NodeId, hb: Notification, now: int)
      requires Valid()
      modifies this`sessions
      ensures Valid()
      ensures sessions ==
        if node in old(sessions) then
          old(sessions)[node := old(sessions[node]).(lastSeen := now, lastHeartbeat := Some(hb))]
        else old(sessions)
    {
      if node in sessions {
        sessions := sessions[node := sessions[node].(lastSeen := now, lastHeartbeat := Some(hb))];
        assert Conns() == old(Conns()) by {
          forall c | c in old(Conns())
            ensures c in Conns()
          {
            var id :| id in old(sessions) && old(sessions[id].conn) == c;
            assert id in sessions && sessions[id].conn == c;
          }
        }
      }
    }

    /** Closes and removes exactly the sessions silent for longer than the timeout. */
    method ReapStale(now: int) returns (reaped: seq<NodeId>)
      requires Valid()
      modifies this, Conns()
      ensures Valid()
      ensures sessions == map id | id in old(sessions) && now - old(sessions[id]).lastSeen <= 90_000 :: old(sessions[id])
      ensures forall id :: id in reaped <==> id in old(sessions) && now - old(sessions[id]).lastSeen > 90_000
      ensures forall i, j :: 0 <= i < j < |reaped| ==> reaped[i] != reaped[j]
      ensures added == old(added) && released == old(released)
      ensures closed == old(closed) + (old(Conns()) - Conns())
      ensures forall c <- Conns() :: c.open == old(c.open)
    {
      reaped := [];
      ghost var dead: set<NodeId>, gone: set<Conn> := {}, {};
      var left := sessions.Keys;
      while left != {}
        invariant left <= sessions.Keys && sessions == old(sessions) - dead
        invariant forall id :: id in dead <==> id in old(sessions) && id !in left && Stale(old(sessions[id]), now)
        invariant forall id :: id in reaped <==> id in dead
        invariant forall i, j :: 0 <= i < j < |reaped| ==> reaped[i] != reaped[j]
        invariant added == old(added) && released == old(released)
        invariant gone <= old(Conns()) && Conns() == old(Conns()) - gone && closed == old(closed) + gone
        invariant Valid()
        invariant forall c <- Conns() :: c.open == old(c.open)
      {
        var id :| id in left;
        left := left - {id};
        if Stale(sessions[id], now) {
          dead, gone := dead + {id}, gone + {sessions[id].conn};
          Reap(id);
          reaped := reaped + [id];
        }
      }
    }

    /** Closes and deletes one session. */
    method Reap(id: NodeId)
      requires Valid() && id in sessions
      modifies this`sessions, this`closed, sessions[id].conn`open
      ensures Valid()
      ensures sessions == old(sessions) - {id}
      ensures old(sessions[id].conn) in old(Conns()) && Conns() == old(Conns()) - {old(sessions[id].conn)}
      ensures closed == old(closed) + {old(sessions[id].conn)}
      ensures forall c <- Conns() :: c.open == old(c.open)
    {
      var conn := sessions[id].conn;
      conn.Close();
      closed := closed + {conn};
      sessions := sessions - {id};
      forall c | c in old(Conns())
        ensures c in Conns() + closed
      {
        var other :| other in old(sessions) && old(sessions[other].conn) == c;
        assert other != id ==> other in sessions && sessions[other].conn == c;
      }
      assert old(Conns()) == Conns() + {conn};
    }
  }

  /**
   The registry can lose a live session: a handler leaves by removing whatever session its node
   has, so the handler of a replaced connection removes the one that replaced it.
   */
  method OldHandlerDropsNewSession(node: NodeId, now: int) returns (online: bool, newOpen: bool)
    ensures !online && newOpen
  {
    var registry := new Registry();
    var first := new Conn();
    var second := new Conn();
    registry.Add(node, first, now);
    registry.Add(node, second, now);
    registry.Remove(node);
    online := node in registry.sessions;
    newOpen := second.open;
  }
}
