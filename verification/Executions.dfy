/** How often a task is executed over a whole run, in which nodes restart and caches overflow. */
module Executions {
  import opened Protocol
  import opened Windows
  import opened Executors
  import opened Tasks
  import opened Delivery
  import opened Processes

  /** Step `k` begins to execute the task. */
  predicate Executes(steps: seq<Step>, k: int, id: Id) {
    0 <= k < |steps| && steps[k].Begin? && steps[k].frame.id == id
  }

  ghost predicate ExecutedTwice(steps: seq<Step>, id: Id) {
    exists a, b :: a < b && Executes(steps, a, id) && Executes(steps, b, id)
  }

  /** A node restarts between two frames of the task. */
  ghost predicate RestartedAmid(steps: seq<Step>, id: Id) {
    exists node, a, b :: RestartBetween(steps, node, id, a, b)
  }

  /** A process executes a whole cache of other tasks between two frames of the task. */
  ghost predicate OverrunAmid(ss: seq<System>, steps: seq<Step>, id: Id)
    requires |ss| == |steps| + 1
  {
    exists node, a, b :: OverrunBetween(Agents(ss, node), steps, node, id, a, b)
  }

  lemma FrameStays(s: System, step: Step, id: Id)
    requires Enabled(s, step) && id in s.rows
    ensures id in Next(s, step).rows && FrameFor(Next(s, step).rows[id]) == FrameFor(s.rows[id])
  {
    match step
    case End(_, _, _) =>
    case Store(_, _) =>
    case _ =>
  }

  lemma {:induction false} Stays<T>(vs: seq<Option<T>>, i: nat, j: nat)
    requires i <= j < |vs| && vs[i].Some? && forall k :: i <= k < j && vs[k].Some? ==> vs[k + 1] == vs[k]
    ensures vs[j] == vs[i]
  {
    if i < j {
      Stays(vs, i, j - 1);
    }
  }

  function StoredFrame(s: System, id: Id): Option<Frame> {
    if id in s.rows then Some(FrameFor(s.rows[id])) else None
  }

  lemma FramesStay(ss: seq<System>, steps: seq<Step>, i: nat, j: nat, id: Id)
    requires IsPath(ss, steps) && i <= j <= |steps| && id in ss[i].rows
    ensures id in ss[j].rows && FrameFor(ss[j].rows[id]) == FrameFor(ss[i].rows[id])
  {
    var vs := seq(|ss|, k requires 0 <= k < |ss| => StoredFrame(ss[k], id));
    forall k | i <= k < j && vs[k].Some?
      ensures vs[k + 1] == vs[k]
    {
      FrameStays(ss[k], steps[k], id);
    }
    Stays(vs, i, j);
  }

  /** All frames of a task are the same, and meant for its node. */
  lemma BegunFrame(ss: seq<System>, steps: seq<Step>, k: nat, j: nat, id: Id)
    requires IsRun(ss, steps) && Executes(steps, k, id) && k <= j <= |steps|
    ensures id in ss[j].rows && steps[k].frame == FrameFor(ss[j].rows[id])
  {
    RunsAreSound(ss, steps, k);
    assert steps[k].frame in ss[k].down;
    FramesStay(ss, steps, k, j, id);
  }

  /** What a Node executes is what the task was created with, field by field, on the node it was created for. */
  lemma ExecutedAsCreated(ss: seq<System>, steps: seq<Step>, c: nat, k: nat, task: Task)
    requires IsRun(ss, steps) && c < k && Executes(steps, k, task.taskId)
    requires steps[c] == Create(task) && task.taskId !in ss[c].rows
    ensures var f := steps[k].frame;
            && f.node == task.nodeId
            && f.instr.kind == task.command.kind && f.instr.command == task.command.command
            && f.instr.name == task.command.name && f.instr.argsJson == task.command.argsJson
            && f.instr.deadline == task.deadline && f.instr.timeoutSec == 0
  {
    BegunFrame(ss, steps, k, k, task.taskId);
    FramesStay(ss, steps, c + 1, k, task.taskId);
  }

  /** No task is stored that was not created. */
  lemma StoredWasCreated(ss: seq<System>, steps: seq<Step>, k: nat, id: Id) returns (c: nat)
    requires IsRun(ss, steps) && k <= |steps| && id in ss[k].rows
    ensures c < k && steps[c].Create? && steps[c].task.taskId == id && id !in ss[c].rows
  {
    var n := |steps|;
    var held := seq(n + 1, j requires 0 <= j <= n => id in ss[j].rows);
    var made := seq(n, j requires 0 <= j < n => steps[j].Create? && steps[j].task.taskId == id && id !in ss[j].rows);
    var cut := seq(n, _ => false);
    forall j | 0 <= j < n && held[j + 1]
      ensures !cut[j] && (held[j] || made[j])
    {
      if id !in ss[j].rows {
        NewRowWasCreated(ss[j], steps[j], ss[j + 1], id);
      }
    }
    c := Source(held, made, cut, k);
  }

  lemma NewRowWasCreated(s: System, step: Step, t: System, id: Id)
    requires Enabled(s, step) && t == Next(s, step) && id in t.rows && id !in s.rows
    ensures step.Create? && step.task.taskId == id
  {
    match step
    case Replay(_) =>
    case End(_, _, _) =>
    case Store(_, _) =>
    case _ =>
  }

  /** Two executions of a task have a restart or a whole cache of others between them. */
  lemma TwiceMeansLoss(ss: seq<System>, steps: seq<Step>, id: Id, a: nat, b: nat)
    requires IsRun(ss, steps) && a < b && Executes(steps, a, id) && Executes(steps, b, id)
    ensures RestartedAmid(steps, id) || OverrunAmid(ss, steps, id)
  {
    var node := steps[a].frame.node;
    BegunFrame(ss, steps, a, b, id);
    BegunFrame(ss, steps, b, b, id);
    assert Begins(steps, a, node, id) && Begins(steps, b, node, id);
    if StaysUp(steps, a, b, node) {
      AgentsLive(ss, steps, node);
      TwiceMeansOverrun(Agents(ss, node), steps, node, id, a, b);
    } else {
      assert RestartBetween(steps, node, id, a, b);
    }
  }

  /** Two frames with a restart in between: the task is executed before it and after it. */
  lemma RestartMeansTwice(ss: seq<System>, steps: seq<Step>, node: NodeId, id: Id, a: nat, b: nat)
    requires IsRun(ss, steps) && RestartBetween(steps, node, id, a, b)
    ensures ExecutedTwice(steps, id)
  {
    AgentsLive(ss, steps, node);
    var c := TakenWasBegun(Agents(ss, node), steps, node, id, a);
    var d := TakenWasBegun(Agents(ss, node), steps, node, id, b);
    var q :| 0 <= q < |steps| && a < q < b && steps[q] == NodeRestart(node);
    assert c < d && Executes(steps, c, id) && Executes(steps, d, id);
  }

  lemma OverrunMeansTwice(ss: seq<System>, steps: seq<Step>, node: NodeId, id: Id, a: nat, b: nat)
    requires IsRun(ss, steps) && OverrunBetween(Agents(ss, node), steps, node, id, a, b)
    ensures ExecutedTwice(steps, id)
  {
    AgentsLive(ss, steps, node);
    var c := TakenWasBegun(Agents(ss, node), steps, node, id, a);
    var d := OverrunMeansAgain(Agents(ss, node), steps, node, id, a, b);
    assert c < d && Executes(steps, c, id) && Executes(steps, d, id);
  }

  /**
   For every run: a task is executed twice exactly when, between two of its frames, its node restarts
   or executes a whole cache of other tasks.
   */
  lemma ExecutedTwiceExactly(ss: seq<System>, steps: seq<Step>, id: Id)
    requires IsRun(ss, steps)
    ensures ExecutedTwice(steps, id) <==> RestartedAmid(steps, id) || OverrunAmid(ss, steps, id)
  {
    if ExecutedTwice(steps, id) {
      var a, b :| a < b && Executes(steps, a, id) && Executes(steps, b, id);
      TwiceMeansLoss(ss, steps, id, a, b);
    }
    if RestartedAmid(steps, id) {
      var node, a, b :| RestartBetween(steps, node, id, a, b);
      RestartMeansTwice(ss, steps, node, id, a, b);
    }
    if OverrunAmid(ss, steps, id) {
      var node, a, b :| OverrunBetween(Agents(ss, node), steps, node, id, a, b);
      OverrunMeansTwice(ss, steps, node, id, a, b);
    }
  }

  /** A process that has executed no more different ids than its cache holds has not overrun it. */
  lemma FewDoNotOverrun(ss: seq<System>, steps: seq<Step>, node: NodeId, id: Id, a: nat, b: nat)
    requires IsRun(ss, steps) && b < |ss| && |Elements(FreshIds(Log(ss[b], node)))| <= 1024
    ensures !OverrunBetween(Agents(ss, node), steps, node, id, a, b)
  {
    AgentsLive(ss, steps, node);
    OverrunMeansMany(Agents(ss, node), steps, node, id, a, b);
  }

  /** Step `e` ends an execution of the task. */
  ghost predicate Finishes(ss: seq<System>, steps: seq<Step>, e: int, id: Id)
    requires |ss| == |steps| + 1
  {
    0 <= e < |steps| && steps[e].End? && steps[e].node in ss[e].running && ss[e].running[steps[e].node].id == id
  }

  function ResultAt(ss: seq<System>, steps: seq<Step>, e: nat): Result
    requires e < |steps| < |ss| && steps[e].End? && steps[e].node in ss[e].running
  {
    Ended(ss[e].running[steps[e].node], steps[e].known, steps[e].world).result
  }

  /** What ends was begun, and its node has ended nothing since. */
  lemma FinishedWasBegun(ss: seq<System>, steps: seq<Step>, e: nat, id: Id) returns (a: nat)
    requires IsRun(ss, steps) && Finishes(ss, steps, e, id)
    ensures a < e && Executes(steps, a, id)
    ensures steps[a].frame == ss[e].running[steps[e].node] && steps[a].frame.node == steps[e].node
    ensures forall q :: a < q < e ==> !(steps[q].End? && steps[q].node == steps[e].node)
  {
    AgentsLive(ss, steps, steps[e].node);
    a := BusyWasBegun(Agents(ss, steps[e].node), steps, steps[e].node, e);
  }

  /** A task that is not executed twice does not finish twice. */
  lemma FinishedOnce(ss: seq<System>, steps: seq<Step>, d: nat, e: nat, id: Id)
    requires IsRun(ss, steps) && Finishes(ss, steps, d, id) && Finishes(ss, steps, e, id) && !ExecutedTwice(steps, id)
    ensures d == e
  {
    var a := FinishedWasBegun(ss, steps, d, id);
    var b := FinishedWasBegun(ss, steps, e, id);
    assert !(a < b) && !(b < a);
  }

  ghost predicate EndsAs(ss: seq<System>, steps: seq<Step>, e: nat, x: Exec)
    requires |ss| == |steps| + 1
  {
    e < |steps| && Finishes(ss, steps, e, x.frame.id) && ResultAt(ss, steps, e) == x.result
  }

  /** Every recorded execution is one that ended. */
  lemma ExecEnded(ss: seq<System>, steps: seq<Step>, k: nat, x: Exec) returns (e: nat)
    requires IsRun(ss, steps) && k <= |steps| && x in ss[k].execs
    ensures e < k && Finishes(ss, steps, e, x.frame.id) && ResultAt(ss, steps, e) == x.result
  {
    var n := |steps|;
    var held := seq(n + 1, j requires 0 <= j <= n => x in ss[j].execs);
    var made := seq(n, j requires 0 <= j < n => EndsAs(ss, steps, j, x));
    var cut := seq(n, _ => false);
    forall j | 0 <= j < n && held[j + 1]
      ensures !cut[j] && (held[j] || made[j])
    {
      if x !in ss[j].execs {
        ExecAfter(ss[j], steps[j], ss[j + 1], x);
      }
    }
    e := Source(held, made, cut, k);
  }

  lemma ExecAfter(s: System, step: Step, t: System, x: Exec)
    requires Enabled(s, step) && t == Next(s, step) && x in t.execs && x !in s.execs
    ensures step.End? && s.running[step.node] == x.frame && Ended(x.frame, step.known, step.world).result == x.result
  {
    match step
    case End(_, _, _) =>
    case Replay(_) =>
    case _ =>
  }

  lemma RecordedEnd(ss: seq<System>, steps: seq<Step>, k: nat, id: Id) returns (e: nat)
    requires IsRun(ss, steps) && k <= |steps| && id in ss[k].stored
    ensures id in ss[k].rows
    ensures e < k && Finishes(ss, steps, e, id) && Records(ss[k].rows[id], ResultAt(ss, steps, e))
  {
    RunsAreSound(ss, steps, k);
    assert RowSound(id, ss[k].rows[id], true, ss[k].up);
    var r :| r in ss[k].up && r.refId == id && Records(ss[k].rows[id], r);
    assert Ran(ss[k].execs, id, r);
    var x :| x in ss[k].execs && x.frame.id == id && x.result == r;
    e := ExecEnded(ss, steps, k, x);
  }

  lemma StoredStays(ss: seq<System>, steps: seq<Step>, i: nat, j: nat, id: Id)
    requires IsPath(ss, steps) && i <= j <= |steps| && id in ss[i].stored
    ensures id in ss[j].stored
  {
    var marks := seq(|ss|, k requires 0 <= k < |ss| => if id in ss[k].stored then [id] else []);
    forall k | i <= k < j
      ensures marks[k] <= marks[k + 1]
    {
      StoredGrows(ss[k], steps[k], ss[k + 1]);
    }
    Chain(marks, i, j);
  }

  /** What each of a sequence passes on to the next the first passes on to the last. */
  lemma {:induction false} Chain<T>(hs: seq<seq<T>>, i: nat, j: nat)
    requires i <= j < |hs| && forall k :: i <= k < j ==> hs[k] <= hs[k + 1]
    ensures hs[i] <= hs[j]
  {
    if i < j {
      Chain(hs, i, j - 1);
    }
  }

  lemma StoredGrows(s: System, step: Step, t: System)
    requires Enabled(s, step) && t == Next(s, step)
    ensures s.stored <= t.stored
  {
  }

  /** Neither restart nor overrun comes between two frames of the task. */
  ghost predicate Undisturbed(ss: seq<System>, steps: seq<Step>, id: Id)
    requires |ss| == |steps| + 1
  {
    !RestartedAmid(steps, id) && !OverrunAmid(ss, steps, id)
  }

  /**
   An undisturbed task whose result was stored has been executed exactly once, and that execution has
   ended; and from the moment it was stored its row records what the execution reported, whatever is
   lost, duplicated or delayed, and whatever happens to other tasks, to other nodes and to the Manager.
   */
  lemma StoredIsTheExecution(ss: seq<System>, steps: seq<Step>, i: nat, id: Id) returns (b: nat, e: nat)
    requires IsRun(ss, steps) && Undisturbed(ss, steps, id)
    requires i <= |steps| && id in ss[i].stored
    ensures b < e < i && Executes(steps, b, id) && Finishes(ss, steps, e, id)
    ensures forall a :: Executes(steps, a, id) ==> a == b
    ensures forall j :: i <= j <= |steps| ==> id in ss[j].rows && Records(ss[j].rows[id], ResultAt(ss, steps, e))
  {
    ExecutedTwiceExactly(ss, steps, id);
    e := RecordedEnd(ss, steps, i, id);
    b := FinishedWasBegun(ss, steps, e, id);
    forall j | i <= j <= |steps|
      ensures id in ss[j].rows && Records(ss[j].rows[id], ResultAt(ss, steps, e))
    {
      StoredStays(ss, steps, i, j, id);
      var f := RecordedEnd(ss, steps, j, id);
      FinishedOnce(ss, steps, e, f, id);
    }
  }
}
