/**
 When a finished row can become unfinished again. A send marks its row, and a flush expires it,
 without looking at it again, so a row that was planned for either while it was queued is
 overwritten when that plan is carried out late.
 */
module LateMarks {
  import opened Protocol
  import opened Executors
  import opened Tasks
  import opened Delivery

  /** How many plans and pending marks of a task there are. */
  function Outstanding(s: System, id: Id): nat {
    s.plans[id] + s.marks[id]
  }

  predicate Writes(step: Step, id: Id) {
    (step.MarkSent? || step.Expire?) && step.id == id
  }

  ghost predicate Done(s: System, id: Id) {
    id in s.rows && Finished(s.rows[id].state)
  }

  ghost predicate Planned(s: System, id: Id) {
    id in s.rows && s.rows[id].state != Queued
  }

  /** What a step does to a task's row and to what is outstanding for it. */
  lemma RowAfter(s: System, step: Step, id: Id)
    requires Enabled(s, step) && id in s.rows
    ensures var t := Next(s, step);
            && id in t.rows
            && t.rows[id] == (match step
                              case MarkSent(i, at) => if i == id then WithState(s.rows[id], Sent, at) else s.rows[id]
                              case Expire(i, now) => if i == id then WithState(s.rows[id], Expired, now) else s.rows[id]
                              case Store(c, at) =>
                                if s.storing[c].refId == id then Completed(s.rows[id], s.storing[c], at) else s.rows[id]
                              case _ => s.rows[id])
  {
    match step
    case Replay(_) =>
    case End(_, _, _) =>
    case Store(_, _) =>
    case _ =>
  }

  lemma OutstandingAfter(s: System, step: Step, id: Id)
    requires Enabled(s, step)
    ensures Outstanding(Next(s, step), id) <= Outstanding(s, id) || step == Plan(id)
    ensures Writes(step, id) ==> Outstanding(Next(s, step), id) < Outstanding(s, id)
  {
    match step
    case Replay(_) =>
    case End(_, _, _) =>
    case Store(_, _) =>
    case _ =>
  }

  /** Once a row is no longer queued it is planned no more, so what is outstanding is used up. */
  lemma WritesUseUp(s: System, step: Step, id: Id)
    requires Enabled(s, step) && Planned(s, id)
    ensures var t := Next(s, step);
            Planned(t, id) && Outstanding(t, id) + (if Writes(step, id) then 1 else 0) <= Outstanding(s, id)
  {
    RowAfter(s, step, id);
    OutstandingAfter(s, step, id);
  }

  lemma DoneUnlessWritten(s: System, step: Step, id: Id)
    requires Enabled(s, step) && Done(s, id)
    ensures Done(Next(s, step), id) <==> !Writes(step, id)
  {
    RowAfter(s, step, id);
  }

  /** How often the task's row is marked or expired by some steps. */
  function Written(steps: seq<Step>, id: Id): nat {
    if steps == [] then 0
    else Written(steps[..|steps| - 1], id) + if Writes(steps[|steps| - 1], id) then 1 else 0
  }

  lemma {:induction false} WrittenExactly(steps: seq<Step>, id: Id)
    ensures Written(steps, id) > 0 <==> exists k :: 0 <= k < |steps| && Writes(steps[k], id)
  {
    if steps != [] {
      var before := steps[..|steps| - 1];
      WrittenExactly(before, id);
      assert forall k :: 0 <= k < |before| ==> before[k] == steps[k];
    }
  }

  lemma {:induction false} PathUsesUp(ss: seq<System>, steps: seq<Step>, id: Id)
    requires IsPath(ss, steps) && Planned(ss[0], id)
    ensures Planned(ss[|steps|], id)
    ensures Outstanding(ss[|steps|], id) + Written(steps, id) <= Outstanding(ss[0], id)
  {
    if steps != [] {
      var n := |steps| - 1;
      PathUsesUp(ss[..|steps|], steps[..n], id);
      WritesUseUp(ss[n], steps[n], id);
    }
  }

  lemma {:induction false} DoneThroughout(ss: seq<System>, steps: seq<Step>, id: Id, j: nat)
    requires IsPath(ss, steps) && Done(ss[0], id) && j <= |steps|
    requires forall k :: 0 <= k < |steps| ==> !Writes(steps[k], id)
    ensures Done(ss[j], id)
  {
    if j > 0 {
      DoneThroughout(ss, steps, id, j - 1);
      DoneUnlessWritten(ss[j - 1], steps[j - 1], id);
    }
  }

  lemma {:induction false} FirstWrite(ss: seq<System>, steps: seq<Step>, id: Id, k: nat) returns (j: nat)
    requires IsPath(ss, steps) && Done(ss[0], id) && k < |steps| && Writes(steps[k], id)
    ensures j <= |steps| && !Done(ss[j], id)
  {
    if Done(ss[k], id) {
      DoneUnlessWritten(ss[k], steps[k], id);
      j := k + 1;
    } else {
      j := k;
    }
  }

  /**
   For every run from a state in which the row is finished: it stays finished in every later state
   exactly when no mark or expiry of it is carried out. Each that is was outstanding at the start.
   */
  lemma UnfinishedExactly(ss: seq<System>, steps: seq<Step>, id: Id)
    requires IsPath(ss, steps) && Done(ss[0], id)
    ensures (forall j :: 0 <= j <= |steps| ==> Done(ss[j], id)) <==> Written(steps, id) == 0
    ensures Written(steps, id) <= Outstanding(ss[0], id)
  {
    WrittenExactly(steps, id);
    PathUsesUp(ss, steps, id);
    if k :| 0 <= k < |steps| && Writes(steps[k], id) {
      var j := FirstWrite(ss, steps, id, k);
    } else {
      forall j | 0 <= j <= |steps|
        ensures Done(ss[j], id)
      {
        DoneThroughout(ss, steps, id, j);
      }
    }
  }

  /** However things go on from here, the row stays finished. */
  ghost predicate Settled(s: System, id: Id) {
    forall ss, steps :: IsPath(ss, steps) && ss[0] == s ==> Done(ss[|steps|], id)
  }

  /** A finished row is settled exactly when nothing is outstanding for it. */
  lemma SettledExactly(s: System, id: Id)
    requires Done(s, id)
    ensures Settled(s, id) <==> Outstanding(s, id) == 0
  {
    if Outstanding(s, id) == 0 {
      forall ss, steps | IsPath(ss, steps) && ss[0] == s
        ensures Done(ss[|steps|], id)
      {
        UnfinishedExactly(ss, steps, id);
      }
    } else {
      var ss, steps := LatePath(s, id);
      assert !Done(ss[|steps|], id);
    }
  }

  lemma LatePath(s: System, id: Id) returns (ss: seq<System>, steps: seq<Step>)
    requires Done(s, id) && Outstanding(s, id) > 0
    ensures IsPath(ss, steps) && ss[0] == s && !Done(ss[|steps|], id)
  {
    var mark := MarkSent(id, 0);
    if id in s.marks {
      DoneUnlessWritten(s, mark, id);
      ss, steps := [s, Next(s, mark)], [mark];
    } else {
      var send := Accept(id);
      var t := Next(s, send);
      DoneUnlessWritten(s, send, id);
      DoneUnlessWritten(t, mark, id);
      ss, steps := [s, t, Next(t, mark)], [send, mark];
    }
  }
}
