/**
 Runs in which the guarantees of the delivery protocol fail, one for each condition they come with: a
 late mark, an overlap, a restart, and, for each of the two windows, a frame that comes too late.
 */
module Failures {
  import opened Protocol
  import opened Windows
  import opened Executors
  import opened Tasks
  import opened Dispatchers
  import opened Delivery
  import Processes
  import opened Executions
  import opened Idempotence
  import opened LateMarks

  /** A world in which a shell command ends well at once. */
  const FINE := World(0, ShellRun("", "", Clean, 0, false), HandlerRun("", 0, None, 0, false))

  lemma Extend(ss: seq<System>, steps: seq<Step>, step: Step) returns (ss': seq<System>, steps': seq<Step>)
    requires IsRun(ss, steps) && Enabled(ss[|steps|], step)
    ensures ss' == ss + [Next(ss[|steps|], step)] && steps' == steps + [step] && IsRun(ss', steps')
  {
    ss', steps' := ss + [Next(ss[|steps|], step)], steps + [step];
  }

  predicate Simple(task: Task) {
    task.taskId != "" && task.command.kind == KIND_SHELL && task.deadline == 0
  }

  function Reported(task: Task): Result {
    Outcome({}, task.taskId, InstructionFor(task), FINE)
  }

  /** A shell task has been sent and executed; its row is not marked yet, and its result is on its way back. */
  ghost predicate AwaitsResult(s: System, task: Task) {
    && s.rows == map[task.taskId := Inserted(task.(state := Queued))]
    && s.marked == [] && s.inflight == map[] && s.storing == map[]
    && s.plans == multiset{} && s.marks == multiset{task.taskId}
    && s.down == {FrameFor(task)} && s.up == {Reported(task)}
    && s.running == map[]
    && s.logs == map[task.nodeId := [Call(task.taskId, true, Reported(task))]]
  }

  /** A shell task has been sent, and its row is not marked yet. */
  lemma RunToFrame(task: Task) returns (ss: seq<System>, steps: seq<Step>)
    requires Simple(task)
    ensures IsRun(ss, steps) && |steps| == 3
    ensures ss[3] == INIT.(rows := map[task.taskId := Inserted(task.(state := Queued))],
                           marks := multiset{task.taskId}, down := {FrameFor(task)})
  {
    ss, steps := [INIT], [];
    ss, steps := Extend(ss, steps, Create(task));
    ss, steps := Extend(ss, steps, Plan(task.taskId));
    ss, steps := Extend(ss, steps, Accept(task.taskId));
  }

  lemma RunToResult(task: Task) returns (ss: seq<System>, steps: seq<Step>)
    requires Simple(task)
    ensures IsRun(ss, steps) && |steps| == 5 && AwaitsResult(ss[5], task)
  {
    ss, steps := RunToFrame(task);
    ss, steps := Extend(ss, steps, Begin(FrameFor(task)));
    ss, steps := Extend(ss, steps, End(task.nodeId, {}, FINE));
    assert Log(ss[5], task.nodeId) == [Call(task.taskId, true, Reported(task))];
  }

  /** The late mark happens: a result handled between the send and its mark is overwritten by `Sent`. */
  lemma LateMarkReopens(task: Task, at: int) returns (ss: seq<System>, steps: seq<Step>)
    requires Simple(task)
    ensures IsRun(ss, steps) && |steps| == 9
    ensures task.taskId in ss[8].rows && ss[8].rows[task.taskId].state == Succeeded && Outstanding(ss[8], task.taskId) == 1
    ensures task.taskId in ss[9].rows && ss[9].rows[task.taskId].state == Sent
  {
    ss, steps := RunToResult(task);
    ss, steps := Extend(ss, steps, Check(0, Reported(task)));
    ss, steps := Extend(ss, steps, MarkSeen(0));
    ss, steps := Extend(ss, steps, Store(0, at));
    ss, steps := Extend(ss, steps, MarkSent(task.taskId, at));
  }

  /** Results must be taken in turn: two overlapping calls for one result both apply it. */
  lemma OverlappingCallsApplyTwice(task: Task) returns (ss: seq<System>, steps: seq<Step>)
    requires Simple(task)
    ensures IsRun(ss, steps) && |steps| == 9
    ensures ss[9].marked == [task.taskId, task.taskId] && ss[9].inflight == map[]
  {
    ss, steps := RunToResult(task);
    ss, steps := Extend(ss, steps, Check(0, Reported(task)));
    ss, steps := Extend(ss, steps, Check(1, Reported(task)));
    ss, steps := Extend(ss, steps, MarkSeen(0));
    ss, steps := Extend(ss, steps, MarkSeen(1));
  }

  /** A process must not restart: the cache is lost with it, and a duplicate frame runs the command again. */
  lemma RestartExecutesTwice(task: Task) returns (ss: seq<System>, steps: seq<Step>)
    requires Simple(task)
    ensures IsRun(ss, steps) && |steps| == 8
    ensures Log(ss[5], task.nodeId) == [Call(task.taskId, true, Reported(task))] && Log(ss[6], task.nodeId) == []
    ensures Log(ss[8], task.nodeId) == Log(ss[5], task.nodeId)
  {
    ss, steps := RunToResult(task);
    ss, steps := Extend(ss, steps, NodeRestart(task.nodeId));
    ss, steps := Extend(ss, steps, Begin(FrameFor(task)));
    ss, steps := Extend(ss, steps, End(task.nodeId, {}, FINE));
  }

  function Pluses(n: nat): string {
    seq(n, _ => '+')
  }

  /** The n-th of a series of tasks that differ in their ids only. */
  function Nth(task: Task, n: nat): Task {
    task.(taskId := task.taskId + Pluses(n))
  }

  function Names(task: Task, n: nat): seq<Id> {
    seq(n + 1, k requires 0 <= k <= n => Nth(task, k).taskId)
  }

  /** The first n + 1 tasks have been executed, reported and applied, one after the other. */
  ghost predicate Filled(s: System, task: Task, n: nat) {
    && (forall id <- s.rows :: |id| <= |task.taskId| + n)
    && FrameFor(task) in s.down && Reported(task) in s.up
    && task.nodeId !in s.running && s.inflight == map[] && s.storing == map[]
    && FreshIds(Log(s, task.nodeId)) == Names(task, n) && s.marked == Names(task, n)
  }

  lemma CachedWasFresh(s: System, node: NodeId, id: Id)
    requires Sound(s) && CachedAt(s, node, id)
    ensures id in Last(FreshIds(Log(s, node)), REPLAY_WINDOW)
  {
    assert LogSound(s.execs, node, Log(s, node));
    CacheIsWindow(Log(s, node), REPLAY_WINDOW);
  }

  /** Creates and sends a task. */
  lemma SendOne(ss: seq<System>, steps: seq<Step>, t: Task) returns (ss': seq<System>, steps': seq<Step>)
    requires IsRun(ss, steps) && Simple(t) && t.taskId !in ss[|steps|].rows
    ensures IsRun(ss', steps')
    ensures var s, s' := ss[|steps|], ss'[|steps'|];
            && s'.rows.Keys == s.rows.Keys + {t.taskId} && s'.down == s.down + {FrameFor(t)}
            && s'.up == s.up && s'.running == s.running && s'.logs == s.logs
            && s'.marked == s.marked && s'.inflight == s.inflight && s'.storing == s.storing
  {
    ss', steps' := Extend(ss, steps, Create(t));
    ss', steps' := Extend(ss', steps', Plan(t.taskId));
    ss', steps' := Extend(ss', steps', Accept(t.taskId));
  }

  lemma FreshCall(log: seq<Call>, call: Call)
    requires call.anew
    ensures FreshIds(log + [call]) == FreshIds(log) + [call.id]
  {
    assert (log + [call])[..|log|] == log;
  }

  /** What ending a task leaves. */
  lemma EndOne(s: System, t: Task)
    requires t.nodeId in s.running && s.running[t.nodeId] == FrameFor(t)
    ensures var s' := Next(s, End(t.nodeId, {}, FINE));
            && s'.rows == s.rows && s'.down == s.down && s'.up == s.up + {Reported(t)} && t.nodeId !in s'.running
            && FreshIds(Log(s', t.nodeId)) == FreshIds(Log(s, t.nodeId)) + [t.taskId]
            && s'.marked == s.marked && s'.inflight == s.inflight && s'.storing == s.storing
  {
    FreshCall(Log(s, t.nodeId), Call(t.taskId, true, Reported(t)));
  }

  /** Executes a task that the cache does not know. */
  lemma ExecuteOne(ss: seq<System>, steps: seq<Step>, t: Task) returns (ss': seq<System>, steps': seq<Step>)
    requires IsRun(ss, steps) && Simple(t)
    requires var s := ss[|steps|]; FrameFor(t) in s.down && t.nodeId !in s.running && !CachedAt(s, t.nodeId, t.taskId)
    ensures IsRun(ss', steps') && steps' == steps + [Begin(FrameFor(t)), End(t.nodeId, {}, FINE)]
    ensures var s, s' := ss[|steps|], ss'[|steps'|];
            && s'.rows == s.rows && s'.down == s.down && s'.up == s.up + {Reported(t)} && t.nodeId !in s'.running
            && FreshIds(Log(s', t.nodeId)) == FreshIds(Log(s, t.nodeId)) + [t.taskId]
            && s'.marked == s.marked && s'.inflight == s.inflight && s'.storing == s.storing
  {
    ss', steps' := Extend(ss, steps, Begin(FrameFor(t)));
    EndOne(ss'[|steps'|], t);
    ss', steps' := Extend(ss', steps', End(t.nodeId, {}, FINE));
  }

  /** Applies a result that the filter does not know. */
  lemma ApplyOne(ss: seq<System>, steps: seq<Step>, r: Result) returns (ss': seq<System>, steps': seq<Step>)
    requires IsRun(ss, steps)
    requires var s := ss[|steps|];
             r in s.up && s.inflight == map[] && s.storing == map[] && r.refId != "" && r.refId !in Filter(s)
    ensures IsRun(ss', steps')
    ensures var s, s' := ss[|steps|], ss'[|steps'|];
            && s'.rows.Keys == s.rows.Keys && s'.down == s.down && s'.up == s.up && s'.running == s.running && s'.logs == s.logs
            && s'.marked == s.marked + [r.refId] && s'.inflight == map[] && s'.storing == map[]
  {
    ss', steps' := Extend(ss, steps, Check(0, r));
    ss', steps' := Extend(ss', steps', MarkSeen(0));
    ss', steps' := Extend(ss', steps', Store(0, 0));
  }

  lemma NewName(task: Task, n: nat)
    ensures Nth(task, n + 1).taskId !in Names(task, n)
    ensures Names(task, n + 1) == Names(task, n) + [Nth(task, n + 1).taskId]
  {
    assert forall k :: 0 <= k <= n ==> |Names(task, n)[k]| == |task.taskId| + k;
  }

  lemma NotCachedYet(s: System, task: Task, n: nat)
    requires Sound(s) && FreshIds(Log(s, task.nodeId)) == Names(task, n)
    ensures !CachedAt(s, task.nodeId, Nth(task, n + 1).taskId)
  {
    NewName(task, n);
    if CachedAt(s, task.nodeId, Nth(task, n + 1).taskId) {
      CachedWasFresh(s, task.nodeId, Nth(task, n + 1).taskId);
    }
  }

  lemma NotFilteredYet(s: System, task: Task, n: nat)
    requires s.marked == Names(task, n)
    ensures Nth(task, n + 1).taskId !in Filter(s)
  {
    NewName(task, n);
    if Nth(task, n + 1).taskId in Filter(s) {
      FilteredWasMarked(s.marked, DEDUP_WINDOW, Nth(task, n + 1).taskId);
    }
  }

  /** One more task, all the way. */
  lemma GoRound(ss: seq<System>, steps: seq<Step>, task: Task, n: nat) returns (ss': seq<System>, steps': seq<Step>)
    requires IsRun(ss, steps) && Simple(task) && Filled(ss[|steps|], task, n)
    ensures IsRun(ss', steps') && Filled(ss'[|steps'|], task, n + 1)
  {
    var t := Nth(task, n + 1);
    NewName(task, n);
    ss', steps' := SendOne(ss, steps, t);
    RunsAreSound(ss', steps', |steps'|);
    NotCachedYet(ss'[|steps'|], task, n);
    ss', steps' := ExecuteOne(ss', steps', t);
    NotFilteredYet(ss'[|steps'|], task, n);
    ss', steps' := ApplyOne(ss', steps', Reported(t));
  }

  lemma FillOne(task: Task) returns (ss: seq<System>, steps: seq<Step>)
    requires Simple(task)
    ensures IsRun(ss, steps) && Filled(ss[|steps|], task, 0)
  {
    ss, steps := RunToResult(task);
    assert Nth(task, 0) == task && Names(task, 0) == [task.taskId];
    FreshCall([], Call(task.taskId, true, Reported(task)));
    assert [] + [Call(task.taskId, true, Reported(task))] == Log(ss[5], task.nodeId);
    ss, steps := ApplyOne(ss, steps, Reported(task));
  }

  lemma {:induction false} Fill(task: Task, n: nat) returns (ss: seq<System>, steps: seq<Step>)
    requires Simple(task)
    ensures IsRun(ss, steps) && Filled(ss[|steps|], task, n)
  {
    if n == 0 {
      ss, steps := FillOne(task);
    } else {
      ss, steps := Fill(task, n - 1);
      ss, steps := GoRound(ss, steps, task, n - 1);
    }
  }

  /** The first of the series has left a window of n entries. */
  lemma FirstIsForgotten(task: Task, n: nat)
    ensures task.taskId !in Last(Names(task, n), n)
  {
    var last := Last(Names(task, n), n);
    forall k | 0 <= k < |last|
      ensures |last[k]| == |task.taskId| + k + 1
    {
      assert last[k] == Names(task, n)[k + 1];
    }
  }

  lemma FirstIsEvicted(s: System, task: Task)
    requires Sound(s) && FreshIds(Log(s, task.nodeId)) == Names(task, REPLAY_WINDOW)
    ensures !CachedAt(s, task.nodeId, task.taskId)
  {
    FirstIsForgotten(task, REPLAY_WINDOW);
    if CachedAt(s, task.nodeId, task.taskId) {
      CachedWasFresh(s, task.nodeId, task.taskId);
    }
  }

  lemma ExecutedAgain(steps: seq<Step>, more: seq<Step>, a: nat, id: Id)
    requires Executes(steps, a, id) && more != [] && Executes(more, 0, id)
    ensures ExecutedTwice(steps + more, id)
  {
    assert Executes(steps + more, a, id) && Executes(steps + more, |steps|, id);
  }

  /** Too many others: the replay cache has dropped the task, and a duplicate frame executes it again. */
  lemma EvictionExecutesTwice(task: Task) returns (ss: seq<System>, steps: seq<Step>)
    requires Simple(task)
    ensures IsRun(ss, steps) && ExecutedTwice(steps, task.taskId)
  {
    var ss0, steps0 := Fill(task, REPLAY_WINDOW);
    RunsAreSound(ss0, steps0, |steps0|);
    FirstIsEvicted(ss0[|steps0|], task);
    OnlyOnce(task, REPLAY_WINDOW);
    assert Names(task, REPLAY_WINDOW)[0] in Names(task, REPLAY_WINDOW);
    var a := FirstExecution(ss0, steps0, task);
    ss, steps := ExecuteOne(ss0, steps0, task);
    ExecutedAgain(steps0, [Begin(FrameFor(task)), End(task.nodeId, {}, FINE)], a, task.taskId);
  }

  lemma FirstExecution(ss: seq<System>, steps: seq<Step>, task: Task) returns (a: nat)
    requires IsRun(ss, steps) && task.taskId in FreshIds(Log(ss[|steps|], task.nodeId))
    ensures a < |steps| && Executes(steps, a, task.taskId)
  {
    RunsAreSound(ss, steps, |steps|);
    var s := ss[|steps|];
    var log := Log(s, task.nodeId);
    var m := Processes.FreshIdIsCall(log, task.taskId);
    assert LogSound(s.execs, task.nodeId, log) && log[m] in log;
    var x :| x in s.execs && x.frame.id == task.taskId;
    var e := ExecEnded(ss, steps, |steps|, x);
    a := FinishedWasBegun(ss, steps, e, task.taskId);
  }

  /** Too many other results: the filter has forgotten the task's, and applies a duplicate of it. */
  lemma ForgottenResultAppliesTwice(task: Task) returns (ss: seq<System>, steps: seq<Step>)
    requires Simple(task)
    ensures IsRun(ss, steps) && multiset(ss[|steps|].marked)[task.taskId] >= 2 && ss[|steps|].inflight == map[]
  {
    ss, steps := Fill(task, DEDUP_WINDOW);
    var s := ss[|steps|];
    FirstIsForgotten(task, DEDUP_WINDOW);
    OnlyOnce(task, DEDUP_WINDOW);
    ForgottenExactly(s.marked, DEDUP_WINDOW, 0);
    assert s.marked[0] == task.taskId && s.marked[0] in s.marked;
    ss, steps := ApplyOne(ss, steps, Reported(task));
  }

  lemma OnlyOnce(task: Task, n: nat)
    ensures var names := Names(task, n);
            names[0] == task.taskId && forall q :: 0 <= q < |names| && names[q] == names[0] ==> q == 0
  {
    assert Nth(task, 0).taskId == task.taskId;
  }
}
