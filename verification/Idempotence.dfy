/** What the delivery protocol guarantees over whole runs, and where its guarantees end. */
module Idempotence {
  import opened Protocol
  import opened Windows
  import opened Executors
  import opened Tasks
  import opened Dispatchers
  import opened Delivery
  import opened Processes
  import opened Executions
  import opened LateMarks

  /**
   Outcome soundness, for every run: a finished row tells of an execution of that very task. It is
   `TimedOut` exactly when that execution started, in time by the Node's clock, and hit its timeout;
   `Succeeded` exactly when it started in time and ended well by itself; and else `Failed`. The report
   has the execution's own output, exit code and duration.
   */
  lemma OutcomesAreReal(ss: seq<System>, steps: seq<Step>, k: nat, id: Id) returns (e: Exec)
    requires IsRun(ss, steps) && k < |ss|
    requires id in ss[k].rows && Finished(ss[k].rows[id].state)
    ensures e in ss[k].execs && e.frame == FrameFor(ss[k].rows[id])
    ensures ss[k].rows[id].state == StateFor(e.result) && Records(ss[k].rows[id], e.result)
    ensures e.frame.id == id && e.frame.node == ss[k].rows[id].nodeId
    ensures e.frame.instr.deadline == ss[k].rows[id].deadline && e.frame.instr.kind == ss[k].rows[id].command.kind
    ensures var row, r := ss[k].rows[id], e.result;
            && row.report.exitCode == r.exitCode && row.report.durationMs == r.durationMs && row.report.truncated == r.truncated
            && row.report.stdout == r.stdout && row.report.stderr == r.stderr
    ensures e.result == Outcome(e.known, id, e.frame.instr, e.world)
    ensures var row, instr := ss[k].rows[id], e.frame.instr;
            var started := && (row.deadline <= 0 || e.world.now <= row.deadline)
                           && (instr.kind == "shell" || (instr.kind == "predefined" && instr.name in e.known));
            && (row.state == TimedOut <==> started && HitsTimeout(instr, e.world))
            && (row.state == Succeeded <==> started && EndsWell(instr, e.world))
            && (row.state == Failed <==> !(started && HitsTimeout(instr, e.world)) && !(started && EndsWell(instr, e.world)))
            && (row.state == Succeeded && instr.kind == "shell" ==>
                  !e.world.shell.deadlineHit && e.world.shell.exit in {Clean, Exited(0)})
  {
    var s := ss[k];
    RunsAreSound(ss, steps, k);
    assert RowSound(id, s.rows[id], id in s.stored, s.up);
    var r :| r in s.up && r.refId == id && Records(s.rows[id], r);
    assert Ran(s.execs, id, r);
    e :| e in s.execs && e.frame.id == id && e.result == r;
    SuccessMeansRan(e.known, id, e.frame.instr, e.world);
  }

  /** Steps `from` to `n` belong to one life of the Manager's process, which began at `from`. */
  ghost predicate OneLife(ss: seq<System>, steps: seq<Step>, from: nat, n: nat) {
    && IsRun(ss, steps) && from <= n <= |steps|
    && (from == 0 || steps[from - 1] == ManagerRestart)
    && (forall k :: from <= k < n ==> steps[k] != ManagerRestart)
  }

  /** No two HandleResult calls for one id are between asking and marking at the same time. */
  ghost predicate InTurn(s: System, step: Step) {
    step.Check? ==> forall c <- s.inflight :: s.inflight[c].refId != step.result.refId
  }

  ghost predicate TakenInTurn(ss: seq<System>, steps: seq<Step>, from: nat, n: nat)
    requires n <= |steps| < |ss|
  {
    forall k :: from <= k < n ==> InTurn(ss[k], steps[k])
  }

  /** The calls in flight are for different ids, none of which the filter holds. */
  ghost predicate Orderly(s: System) {
    && Spaced(s.marked, DEDUP_WINDOW)
    && (forall c <- s.inflight :: s.inflight[c].refId !in Filter(s))
    && (forall b, c :: b in s.inflight && c in s.inflight && s.inflight[b].refId == s.inflight[c].refId ==> b == c)
  }

  lemma MarkKeepsOthersOut(h: seq<Id>, w: nat, id: Id, other: Id)
    requires other != id && other !in MarkAll(h, w).seen
    ensures other !in MarkAll(h + [id], w).seen
  {
    assert (h + [id])[..|h + [id]| - 1] == h;
    MarkStep(h + [id], w, other);
  }

  lemma MarkKeepsSpacing(h: seq<Id>, w: nat, id: Id)
    requires Spaced(h, w) && id !in MarkAll(h, w).seen
    ensures Spaced(h + [id], w)
  {
    SpacedSeen(h, w, id);
    Slide(h, w, id);
  }

  lemma MarkKeepsOrder(s: System, c: nat)
    requires Orderly(s) && c in s.inflight
    ensures Orderly(Next(s, MarkSeen(c)))
  {
    var t := Next(s, MarkSeen(c));
    var id := s.inflight[c].refId;
    MarkKeepsSpacing(s.marked, DEDUP_WINDOW, id);
    forall b <- t.inflight
      ensures t.inflight[b].refId !in Filter(t)
    {
      MarkKeepsOthersOut(s.marked, DEDUP_WINDOW, id, s.inflight[b].refId);
    }
  }

  /** The steps that touch neither the filter nor the calls that have asked it. */
  lemma CallsAfter(s: System, step: Step)
    requires Enabled(s, step) && !step.Check? && !step.MarkSeen? && !step.ManagerRestart?
    ensures Next(s, step).marked == s.marked && Next(s, step).inflight == s.inflight
  {
    match step
    case Replay(_) =>
    case End(_, _, _) =>
    case Store(_, _) =>
    case _ =>
  }

  lemma NextKeepsOrder(s: System, step: Step, t: System)
    requires Orderly(s) && Enabled(s, step) && t == Next(s, step) && InTurn(s, step) && step != ManagerRestart
    ensures Orderly(t)
  {
    match step
    case MarkSeen(c) => MarkKeepsOrder(s, c);
    case Check(_, _) =>
    case _ => CallsAfter(s, step);
  }

  lemma LifeBegins(ss: seq<System>, steps: seq<Step>, from: nat, n: nat)
    requires OneLife(ss, steps, from, n)
    ensures ss[from].marked == [] && ss[from].inflight == map[]
  {
    if from > 0 {
      assert ss[from] == Next(ss[from - 1], steps[from - 1]);
    }
  }

  /**
   Result spacing, for every life whose results are taken in turn: the applied results of one id are
   at least a whole filter apart, so the first result stands throughout that window.
   */
  lemma {:induction false} ResultsAreSpaced(ss: seq<System>, steps: seq<Step>, from: nat, n: nat)
    requires OneLife(ss, steps, from, n) && TakenInTurn(ss, steps, from, n)
    ensures Orderly(ss[n])
  {
    if n == from {
      LifeBegins(ss, steps, from, n);
    } else {
      ResultsAreSpaced(ss, steps, from, n - 1);
      NextKeepsOrder(ss[n - 1], steps[n - 1], ss[n]);
    }
  }

  function CallsFor(calls: map<nat, Result>, id: Id): set<nat> {
    set c | c in calls && calls[c].refId == id
  }

  /** The calls in flight for one id. */
  function Asking(s: System, id: Id): set<nat> {
    CallsFor(s.inflight, id)
  }

  /** How often an id has been marked, or is about to be. */
  function Weight(s: System, id: Id): nat {
    |Asking(s, id)| + multiset(s.marked)[id]
  }

  /** A call for the id that the filter lets through. */
  predicate Admits(s: System, step: Step, id: Id) {
    step.Check? && step.result.refId == id && id != "" && id !in Filter(s)
  }

  lemma OneMoreCall(calls: map<nat, Result>, c: nat, r: Result, id: Id)
    requires c !in calls
    ensures |CallsFor(calls[c := r], id)| == |CallsFor(calls, id)| + if r.refId == id then 1 else 0
  {
    assert CallsFor(calls[c := r], id) == if r.refId == id then CallsFor(calls, id) + {c} else CallsFor(calls, id);
  }

  lemma OneCallLess(calls: map<nat, Result>, c: nat, id: Id)
    requires c in calls
    ensures |CallsFor(calls, id)| == |CallsFor(calls - {c}, id)| + if calls[c].refId == id then 1 else 0
  {
    assert CallsFor(calls, id) == if calls[c].refId == id then CallsFor(calls - {c}, id) + {c} else CallsFor(calls - {c}, id);
  }

  lemma WeightAfter(s: System, step: Step, t: System, id: Id)
    requires Enabled(s, step) && t == Next(s, step) && step != ManagerRestart
    ensures Weight(t, id) == Weight(s, id) + if Admits(s, step, id) then 1 else 0
  {
    match step
    case Check(c, r) => OneMoreCall(s.inflight, c, r, id);
    case MarkSeen(c) => OneCallLess(s.inflight, c, id);
    case _ => CallsAfter(s, step);
  }

  lemma {:induction false} Rises(ns: seq<nat>, i: nat, j: nat)
    requires i <= j < |ns| && forall k :: i <= k < j ==> ns[k] <= ns[k + 1]
    ensures ns[i] <= ns[j]
  {
    if i < j {
      Rises(ns, i, j - 1);
    }
  }

  lemma WeightsGrow(ss: seq<System>, steps: seq<Step>, i: nat, j: nat, id: Id)
    requires IsPath(ss, steps) && i <= j <= |steps|
    requires forall k :: i <= k < j ==> steps[k] != ManagerRestart
    ensures Weight(ss[j], id) >= Weight(ss[i], id)
  {
    var ns := seq(|ss|, k requires 0 <= k < |ss| => Weight(ss[k], id));
    forall k | i <= k < j
      ensures ns[k] <= ns[k + 1]
    {
      WeightAfter(ss[k], steps[k], ss[k + 1], id);
    }
    Rises(ns, i, j);
  }

  /** A call for an id that another call is asking for, or that was marked and is forgotten. */
  ghost predicate Repeats(s: System, step: Step, id: Id) {
    step.Check? && step.result.refId == id && (Asking(s, id) != {} || (id in s.marked && id !in Filter(s)))
  }

  ghost predicate RepeatedAmid(ss: seq<System>, steps: seq<Step>, from: nat, n: nat, id: Id)
    requires n <= |steps| < |ss|
  {
    exists k :: from <= k < n && Repeats(ss[k], steps[k], id)
  }

  lemma RepeatWeighs(s: System, step: Step, t: System, id: Id)
    requires Enabled(s, step) && t == Next(s, step) && Repeats(s, step, id) && id != ""
    ensures Weight(t, id) >= 2
  {
    WeightAfter(s, step, t, id);
    if id in Filter(s) {
      FilteredWasMarked(s.marked, DEDUP_WINDOW, id);
    }
    if Asking(s, id) != {} {
      var c :| c in Asking(s, id);
      SubsetSize({c}, Asking(s, id));
    }
  }

  lemma FilteredWasMarked(h: seq<Id>, w: nat, id: Id)
    requires id in MarkAll(h, w).seen
    ensures id in h
  {
    MarkedExactly(h, w, id);
  }

  /** Without a repeat, no more than one call for the id has been let through. */
  lemma {:induction false} UnrepeatedWeighsOne(ss: seq<System>, steps: seq<Step>, from: nat, n: nat, id: Id)
    requires OneLife(ss, steps, from, n) && !RepeatedAmid(ss, steps, from, n, id)
    ensures Weight(ss[n], id) <= 1
  {
    if n == from {
      LifeBegins(ss, steps, from, n);
    } else {
      UnrepeatedWeighsOne(ss, steps, from, n - 1, id);
      WeightAfter(ss[n - 1], steps[n - 1], ss[n], id);
      if Weight(ss[n - 1], id) == 1 && id !in ss[n - 1].marked {
        assert |Asking(ss[n - 1], id)| == 1;
      }
      assert !Repeats(ss[n - 1], steps[n - 1], id);
    }
  }

  /**
   For every life of the Manager and every id, once no call for it is in flight: its result was applied
   twice exactly when some call for it came while another was asking, or after the filter had forgotten it.
   */
  lemma AppliedTwiceExactly(ss: seq<System>, steps: seq<Step>, from: nat, n: nat, id: Id)
    requires OneLife(ss, steps, from, n) && Asking(ss[n], id) == {} && id != ""
    ensures multiset(ss[n].marked)[id] >= 2 <==> RepeatedAmid(ss, steps, from, n, id)
  {
    if RepeatedAmid(ss, steps, from, n, id) {
      var k :| from <= k < n && Repeats(ss[k], steps[k], id);
      RepeatWeighs(ss[k], steps[k], ss[k + 1], id);
      WeightsGrow(ss, steps, k + 1, n, id);
    } else {
      UnrepeatedWeighsOne(ss, steps, from, n, id);
    }
  }

  lemma {:induction false} DistinctWeight(h: seq<Id>, id: Id)
    requires Distinct(h)
    ensures multiset(h)[id] <= 1
  {
    if h != [] {
      var n := |h| - 1;
      DistinctWeight(h[..n], id);
      assert h == h[..n] + [h[n]];
      if h[n] == id {
        assert id !in h[..n];
      }
    }
  }

  /** A call out of turn for an id that the filter does not hold is the second in flight for it. */
  lemma OutOfTurnDoubles(ss: seq<System>, steps: seq<Step>, k: nat)
    requires IsRun(ss, steps) && k < |steps| && Orderly(ss[k]) && !InTurn(ss[k], steps[k])
    ensures Weight(ss[k + 1], steps[k].result.refId) >= 2
  {
    RunsAreSound(ss, steps, k);
    SecondAsks(ss[k], steps[k].call, steps[k].result);
  }

  lemma UpIsNamed(s: System, r: Result)
    requires Sound(s) && r in s.up
    ensures r.refId != ""
  {
    UpIsStored(s, r);
    assert RowSound(r.refId, s.rows[r.refId], r.refId in s.stored, s.up);
  }

  lemma SecondAsks(s: System, c: nat, r: Result)
    requires Sound(s) && Orderly(s) && Enabled(s, Check(c, r)) && !InTurn(s, Check(c, r))
    ensures |Asking(Next(s, Check(c, r)), r.refId)| >= 2
  {
    var b :| b in s.inflight && s.inflight[b].refId == r.refId;
    UpIsNamed(s, r);
    var t := Next(s, Check(c, r));
    assert t.inflight == s.inflight[c := r];
    TwoAsk(t, b, c, r.refId);
  }

  lemma TwoAsk(s: System, b: nat, c: nat, id: Id)
    requires b in s.inflight && c in s.inflight && b != c && s.inflight[b].refId == s.inflight[c].refId == id
    ensures |Asking(s, id)| >= 2
  {
    assert {b, c} <= Asking(s, id);
    SubsetSize({b, c}, Asking(s, id));
  }

  lemma {:induction false} FirstOutOfTurn(ss: seq<System>, steps: seq<Step>, from: nat, n: nat) returns (k: nat)
    requires OneLife(ss, steps, from, n) && !TakenInTurn(ss, steps, from, n)
    ensures from <= k < n && TakenInTurn(ss, steps, from, k) && !InTurn(ss[k], steps[k])
    decreases n - from
  {
    k := from;
    while InTurn(ss[k], steps[k])
      invariant from <= k < n && TakenInTurn(ss, steps, from, k)
      invariant exists m :: k <= m < n && !InTurn(ss[m], steps[m])
      decreases n - k
    {
      k := k + 1;
    }
  }

  /**
   For every life of the Manager, at a moment when no call is in flight and no more different ids were
   marked than the filter holds: each result was applied once exactly when results were taken in turn.
   */
  lemma AppliedOnceExactly(ss: seq<System>, steps: seq<Step>, from: nat, n: nat)
    requires OneLife(ss, steps, from, n)
    requires ss[n].inflight == map[] && |Elements(ss[n].marked)| <= DEDUP_WINDOW
    ensures Distinct(ss[n].marked) <==> TakenInTurn(ss, steps, from, n)
  {
    if TakenInTurn(ss, steps, from, n) {
      ResultsAreSpaced(ss, steps, from, n);
      FewIdsAddedOnce(ss[n].marked, DEDUP_WINDOW);
    } else {
      var k := FirstOutOfTurn(ss, steps, from, n);
      var id := steps[k].result.refId;
      ResultsAreSpaced(ss, steps, from, k);
      OutOfTurnDoubles(ss, steps, k);
      WeightsGrow(ss, steps, k + 1, n, id);
      assert Asking(ss[n], id) == {};
      if Distinct(ss[n].marked) {
        DistinctWeight(ss[n].marked, id);
      }
    }
  }

  /** The task's result has been marked in this life and the call that marked it is through. */
  ghost predicate Applied(s: System, id: Id) {
    && id in s.rows && id in s.marked
    && forall c <- s.storing :: s.storing[c].refId != id
  }

  lemma AppliedStays(s: System, step: Step, t: System, id: Id)
    requires Enabled(s, step) && t == Next(s, step) && step != ManagerRestart
    requires Applied(s, id) && multiset(t.marked)[id] <= 1
    ensures Applied(t, id) && t.rows[id].report == s.rows[id].report
  {
    RowAfter(s, step, id);
    match step
    case MarkSeen(c) =>
      assert multiset(s.marked)[id] >= 1;
    case Store(_, _) =>
    case _ => StoringAfter(s, step);
  }

  lemma StoringAfter(s: System, step: Step)
    requires Enabled(s, step) && !step.MarkSeen? && !step.Store? && !step.ManagerRestart?
    ensures Next(s, step).marked == s.marked && Next(s, step).storing == s.storing
  {
    match step
    case Replay(_) =>
    case End(_, _, _) =>
    case _ =>
  }

  lemma MarkedBefore(s: System, step: Step, t: System, id: Id)
    requires Enabled(s, step) && t == Next(s, step) && step != ManagerRestart
    ensures multiset(s.marked)[id] <= multiset(t.marked)[id]
  {
    match step
    case MarkSeen(_) =>
    case Check(_, _) =>
    case _ => CallsAfter(s, step);
  }

  lemma MarksGrow(ss: seq<System>, steps: seq<Step>, i: nat, j: nat, id: Id)
    requires IsPath(ss, steps) && i <= j <= |steps|
    requires forall k :: i <= k < j ==> steps[k] != ManagerRestart
    ensures multiset(ss[i].marked)[id] <= multiset(ss[j].marked)[id]
  {
    var ns := seq(|ss|, k requires 0 <= k < |ss| => multiset(ss[k].marked)[id]);
    forall k | i <= k < j
      ensures ns[k] <= ns[k + 1]
    {
      MarkedBefore(ss[k], steps[k], ss[k + 1], id);
    }
    Rises(ns, i, j);
  }

  ghost function AppliedReport(s: System, id: Id): Option<Columns> {
    if Applied(s, id) then Some(s.rows[id].report) else None
  }

  /** Once a result has been applied, and unless its id is marked again, the whole report stays. */
  lemma AppliedReportStays(ss: seq<System>, steps: seq<Step>, i: nat, j: nat, id: Id)
    requires IsRun(ss, steps) && i <= j <= |steps|
    requires forall k :: i <= k < j ==> steps[k] != ManagerRestart
    requires Applied(ss[i], id) && multiset(ss[j].marked)[id] <= 1
    ensures Applied(ss[j], id) && ss[j].rows[id].report == ss[i].rows[id].report
  {
    var vs := seq(|ss|, k requires 0 <= k < |ss| => AppliedReport(ss[k], id));
    forall k | i <= k < j && vs[k].Some?
      ensures vs[k + 1] == vs[k]
    {
      MarksGrow(ss, steps, k + 1, j, id);
      AppliedStays(ss[k], steps[k], ss[k + 1], id);
    }
    Stays(vs, i, j);
  }

  /**
   End-to-end idempotence: a task whose result was stored, and between two of whose frames its node
   neither restarts nor executes a whole cache of other tasks, has been executed exactly once, and its
   row records that execution from then on. If moreover, in one life of the Manager, no call for the
   result comes while another is asking or after the filter has forgotten it, then not even the time of
   completion changes once it is applied.
   */
  lemma CompletedOnceForAll(ss: seq<System>, steps: seq<Step>, from: nat, i: nat, j: nat, id: Id) returns (b: nat, e: nat)
    requires IsRun(ss, steps) && i <= j <= |steps|
    requires Undisturbed(ss, steps, id)
    requires id in ss[i].stored
    ensures b < e < i && Executes(steps, b, id) && forall a :: Executes(steps, a, id) ==> a == b
    ensures Finishes(ss, steps, e, id)
    ensures id in ss[i].rows && Records(ss[i].rows[id], ResultAt(ss, steps, e))
    ensures id in ss[j].rows && Records(ss[j].rows[id], ResultAt(ss, steps, e))
    ensures && from <= i && OneLife(ss, steps, from, j) && !RepeatedAmid(ss, steps, from, j, id) && Applied(ss[i], id)
            ==> ss[j].rows[id].report == ss[i].rows[id].report
  {
    b, e := StoredIsTheExecution(ss, steps, i, id);
    if from <= i && OneLife(ss, steps, from, j) && !RepeatedAmid(ss, steps, from, j, id) && Applied(ss[i], id) {
      UnrepeatedWeighsOne(ss, steps, from, j, id);
      AppliedReportStays(ss, steps, i, j, id);
    }
  }

  /** Only the task's own node executes it. */
  lemma ExecutedAtHome(s: System, node: NodeId, m: nat)
    requires Sound(s) && m < |Log(s, node)|
    ensures Log(s, node)[m].id in s.rows && node == s.rows[Log(s, node)[m].id].nodeId
  {
    var c := Log(s, node)[m];
    assert LogSound(s.execs, node, s.logs[node]) && c in s.logs[node];
    assert RanOn(s.execs, node, c.id, c.result);
  }

  /**
   At most once: as long as the task's own process has executed no more different ids than its replay
   cache holds, the running processes together have executed the task at most once, whatever the link
   duplicates or delays.
   */
  lemma ExecutedAtMostOnce(ss: seq<System>, steps: seq<Step>, k: nat, n1: NodeId, m1: nat, n2: NodeId, m2: nat)
    requires IsRun(ss, steps) && k <= |steps|
    requires m1 < |Log(ss[k], n1)| && m2 < |Log(ss[k], n2)|
    requires |Elements(FreshIds(Log(ss[k], n1)))| <= REPLAY_WINDOW
    requires Log(ss[k], n1)[m1].anew && Log(ss[k], n2)[m2].anew
    requires Log(ss[k], n1)[m1].id == Log(ss[k], n2)[m2].id
    ensures n1 == n2 && m1 == m2
  {
    var s := ss[k];
    RunsAreSound(ss, steps, k);
    ExecutedAtHome(s, n1, m1);
    ExecutedAtHome(s, n2, m2);
    assert LogSound(s.execs, n1, Log(s, n1));
    if m1 < m2 {
      ExecutedOnce(Log(s, n1), REPLAY_WINDOW, m1, m2);
    } else if m2 < m1 {
      ExecutedOnce(Log(s, n1), REPLAY_WINDOW, m2, m1);
    }
  }
}
