/** What a session that has come to rest has computed. */
module SessionTheorems {
  import opened Protocol
  import opened Windows
  import opened Executors
  import opened Tasks
  import opened Dispatchers
  import opened Sessions
  import opened SessionProof

  lemma QuietIsDone(env: Env, s: SessionState)
    requires RegistersFirst(env, s) && TasksFlow(env, s) && Quiet(s)
    ensures s.todo == [] && s.ran == Goes(env, env.listing)
  {
    assert Upstream(s) == [];
    assert s.ran + [] + [] + [] + [] + [] + [] == s.ran;
  }

  lemma QuietIsAnswered(env: Env, s: SessionState)
    requires RepliesFlow(env, s) && Quiet(s)
    ensures s.received == Answered(env, s.ran)
  {
    assert s.received + [] + [] + [] + [] + [] == s.received;
  }

  /** A session with nothing left to do has run every task that goes, in order, and its table is the final one. */
  lemma QuietIsFinal(env: Env, s: SessionState)
    requires Ready(env) && Inv(env, s) && Quiet(s)
    ensures s.rows == FinalTable(env)
    ensures s.ran == Goes(env, env.listing)
  {
    QuietIsDone(env, s);
    QuietIsAnswered(env, s);
    assert Ids(s.todo) + Unmarked(s.handler) == {};
    assert s.rows == View(env, {}, Elements(s.received));
    ViewIsFinal(env, s.received);
  }

  lemma ViewIsFinal(env: Env, received: seq<Id>)
    requires Ready(env) && received == Answered(env, Goes(env, env.listing))
    ensures View(env, {}, Elements(received)) == FinalTable(env)
  {
    forall id | id in env.rows0 && id in Ids(env.listing)
      ensures View(env, {}, Elements(received))[id] == FinalTable(env)[id]
    {
      FinalRow(env, received, id);
    }
  }

  lemma FinalRow(env: Env, received: seq<Id>, id: Id)
    requires Ready(env) && id in env.rows0 && id in Ids(env.listing)
    requires received == Answered(env, Goes(env, env.listing))
    ensures var t := env.rows0[id];
            RowAfter(env, t, id in Elements(received)) == RowAfter(env, t, env.fits(t) && env.reportFits(ResultOf(env, t)))
  {
    var t := env.rows0[id];
    ListedTasks(env);
    assert t in env.listing;
    GoesMembers(env, env.listing, t);
    AnsweredMembers(env, Goes(env, env.listing), id);
    if u :| u in Goes(env, env.listing) && u.taskId == id && env.reportFits(ResultOf(env, u)) {
      GoesMembers(env, env.listing, u);
    }
  }

  /**
   The sequential table, row by row. A listed task whose deadline was set and over at the flush is
   expired; any other is sent, and completed with what its own run reported when the frames of its
   instruction and of its result could be encoded. Every other row is as it was.
   */
  ghost predicate SequentialTable(env: Env, rows: Table) {
    && rows.Keys == env.rows0.Keys
    && (forall id <- env.rows0 :: env.rows0[id].nodeId != env.node || env.rows0[id].state != Queued ==> rows[id] == env.rows0[id])
    && (forall id <- env.rows0 :: env.rows0[id].nodeId == env.node && env.rows0[id].state == Queued ==>
          SequentialRow(env, env.rows0[id], rows[id]))
  }

  ghost predicate SequentialRow(env: Env, t: Task, row: Task) {
    var c := t.command;
    var r := Outcome(env.known, t.taskId, Instruction(c.kind, c.name, c.argsJson, c.command, 0, t.deadline), env.world(t.taskId));
    if 0 < t.deadline < env.now then row == t.(state := Expired)
    else if env.fits(t) && env.reportFits(r) then TellsResult(t.(sentAt := env.sentAt(t.taskId)), row, r, env.doneAt(t.taskId))
    else row == t.(state := Sent, sentAt := env.sentAt(t.taskId))
  }

  lemma FinalTells(env: Env)
    requires Ready(env)
    ensures SequentialTable(env, FinalTable(env))
  {
    forall id | id in env.rows0
      ensures id in Ids(env.listing) <==> env.rows0[id].nodeId == env.node && env.rows0[id].state == Queued
    {
      if id in Ids(env.listing) {
        var t :| t in env.listing && t.taskId == id;
        assert env.rows0[id] == t;
      }
      if env.rows0[id].nodeId == env.node && env.rows0[id].state == Queued {
        assert env.rows0[id] in env.listing;
      }
    }
    forall id | id in env.rows0 && id in Ids(env.listing)
      ensures SequentialRow(env, env.rows0[id], FinalTable(env)[id])
    {
      RowTells(env, env.rows0[id]);
    }
  }

  lemma RowTells(env: Env, t: Task)
    ensures SequentialRow(env, t, RowAfter(env, t, env.fits(t) && env.reportFits(ResultOf(env, t))))
  {
  }

  lemma {:induction false} GoesInOrder(env: Env, ts: seq<Task>)
    requires ByCreation(ts)
    ensures ByCreation(Goes(env, ts))
  {
    if ts != [] {
      var n := |ts| - 1;
      GoesInOrder(env, ts[..n]);
      var gone := Goes(env, ts[..n]);
      forall k | 0 <= k < |gone|
        ensures gone[k].createdAt <= ts[n].createdAt && gone[k].taskId != ts[n].taskId
      {
        GoesMembers(env, ts[..n], gone[k]);
      }
    }
  }
}
