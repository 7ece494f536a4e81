/**
 The whole delivery protocol over an unreliable link, with its handlers cut into the steps that
 other goroutines can interleave with. Whatever was once sent can arrive at any later time, any
 number of times, in any order, or never: `down` and `up` hold everything ever sent.
 */
module Delivery {
  import opened Protocol
  import opened Windows
  import opened Executors
  import opened Tasks
  import opened Dispatchers

  datatype Frame = Frame(node: NodeId, id: Id, instr: Instruction)

  /** One execution that no replay cache answered. */
  datatype Exec = Exec(frame: Frame, known: set<string>, world: World, result: Result)

  /**
   Of the Manager's process, lost when it restarts: `marked`, the history of its duplicate filter;
   `inflight`, the HandleResult calls that have asked the filter and not yet marked it; `storing`,
   those that have marked it and not yet written the row; `plans`, the sends of CreateTask and
   FlushQueue that have read a row as queued and not dealt with it yet; and `marks`, those whose
   instruction a connection has accepted and whose row is not marked yet. Of each Node process:
   `logs`, the history of its replay cache, and `running`, the frame of the command it is executing;
   a process handles one frame at a time. What has ever happened: `stored`, the ids whose results
   were written, and `execs`.
   */
  datatype System = System(
    rows: Table,
    marked: seq<Id>,
    inflight: map<nat, Result>,
    storing: map<nat, Result>,
    plans: multiset<Id>,
    marks: multiset<Id>,
    stored: set<Id>,
    down: set<Frame>,
    up: set<Result>,
    logs: map<NodeId, seq<Call>>,
    running: map<NodeId, Frame>,
    execs: set<Exec>)

  const INIT := System(map[], [], map[], map[], multiset{}, multiset{}, {}, {}, {}, map[], map[], {})

  datatype Step =
    | Create(task: Task)
    | Plan(id: Id)
    | Drop(id: Id)
    | Accept(id: Id)
    | MarkSent(id: Id, at: int)
    | Expire(id: Id, now: int)
    | Replay(frame: Frame)
    | Begin(frame: Frame)
    | End(node: NodeId, known: set<string>, world: World)
    | Check(call: nat, result: Result)
    | MarkSeen(call: nat)
    | Store(call: nat, at: int)
    | NodeRestart(node: NodeId)
    | ManagerRestart

  function Log(s: System, node: NodeId): seq<Call> {
    if node in s.logs then s.logs[node] else []
  }

  function Filter(s: System): set<Id> {
    MarkAll(s.marked, DEDUP_WINDOW).seen
  }

  predicate Known(logs: map<NodeId, seq<Call>>, node: NodeId, id: Id) {
    node in logs && id in CacheOf(logs[node], REPLAY_WINDOW).seen
  }

  predicate CachedAt(s: System, node: NodeId, id: Id) {
    Known(s.logs, node, id)
  }

  predicate Enabled(s: System, step: Step) {
    match step
    case Create(task) => task.taskId != ""
    case Plan(id) => id in s.rows && s.rows[id].state == Queued
    case Drop(id) => id in s.plans
    case Accept(id) => id in s.plans && id in s.rows
    case MarkSent(id, _) => id in s.marks
    case Expire(id, now) => id in s.plans && id in s.rows && PastDeadline(s.rows[id].deadline, now)
    case Replay(f) => f in s.down && f.node !in s.running && CachedAt(s, f.node, f.id)
    case Begin(f) => f in s.down && f.node !in s.running && !CachedAt(s, f.node, f.id)
    case End(node, _, _) => node in s.running
    case Check(c, r) => c !in s.inflight && c !in s.storing && r in s.up
    case MarkSeen(c) => c in s.inflight
    case Store(c, _) => c in s.storing
    case _ => true
  }

  function FrameFor(t: Task): Frame {
    Frame(t.nodeId, t.taskId, InstructionFor(t))
  }

  /** The node reports a result, and its log gains the call. */
  function Reply(s: System, node: NodeId, call: Call): System {
    s.(up := s.up + {call.result}, logs := s.logs[node := Log(s, node) + [call]])
  }

  function Replayed(s: System, f: Frame): Call
    requires CachedAt(s, f.node, f.id)
  {
    Call(f.id, false, CacheOf(Log(s, f.node), REPLAY_WINDOW).seen[f.id])
  }

  function Ended(f: Frame, known: set<string>, w: World): Call {
    Call(f.id, true, Outcome(known, f.id, f.instr, w))
  }

  function Next(s: System, step: Step): System
    requires Enabled(s, step)
  {
    match step
    case Create(task) =>
      if task.taskId in s.rows then s else
      s.(rows := s.rows[task.taskId := Inserted(task.(state := Queued))])
    case Plan(id) => s.(plans := s.plans + multiset{id})
    case Drop(id) => s.(plans := s.plans - multiset{id})
    case Accept(id) =>
      s.(plans := s.plans - multiset{id}, marks := s.marks + multiset{id}, down := s.down + {FrameFor(s.rows[id])})
    case MarkSent(id, at) => s.(marks := s.marks - multiset{id}, rows := SetState(s.rows, id, Sent, at))
    case Expire(id, now) => s.(plans := s.plans - multiset{id}, rows := SetState(s.rows, id, Expired, now))
    case Replay(f) => Reply(s, f.node, Replayed(s, f))
    case Begin(f) => s.(running := s.running[f.node := f])
    case End(node, known, w) =>
      var f := s.running[node];
      var call := Ended(f, known, w);
      Reply(s, node, call).(running := s.running - {node}, execs := s.execs + {Exec(f, known, w, call.result)})
    case Check(c, r) => if r.refId == "" || r.refId in Filter(s) then s else s.(inflight := s.inflight[c := r])
    case MarkSeen(c) =>
      var r := s.inflight[c];
      s.(marked := s.marked + [r.refId], inflight := s.inflight - {c}, storing := s.storing[c := r])
    case Store(c, at) =>
      var r := s.storing[c];
      s.(rows := Complete(s.rows, r, at), stored := s.stored + {r.refId}, storing := s.storing - {c})
    case NodeRestart(node) => s.(logs := s.logs - {node}, running := s.running - {node})
    case ManagerRestart =>
      s.(marked := [], inflight := map[], storing := map[], plans := multiset{}, marks := multiset{})
  }

  ghost predicate IsPath(ss: seq<System>, steps: seq<Step>) {
    && |ss| == |steps| + 1
    && forall k :: 0 <= k < |steps| ==> Enabled(ss[k], steps[k]) && ss[k + 1] == Next(ss[k], steps[k])
  }

  ghost predicate IsRun(ss: seq<System>, steps: seq<Step>) {
    IsPath(ss, steps) && ss[0] == INIT
  }

  ghost predicate Ran(execs: set<Exec>, id: Id, r: Result) {
    exists e <- execs :: e.frame.id == id && e.result == r
  }

  ghost predicate RanOn(execs: set<Exec>, node: NodeId, id: Id, r: Result) {
    exists e <- execs :: e.frame.node == node && e.frame.id == id && e.result == r
  }

  /** The row's report is that of `r`, and its state too unless a later mark has overwritten it. */
  predicate Records(t: Task, r: Result) {
    && t.report.exitCode == r.exitCode && t.report.durationMs == r.durationMs && t.report.truncated == r.truncated
    && t.report.stdout == r.stdout && t.report.stderr == r.stderr
    && (t.state == TimedOut ==> r.timedOut)
    && (t.state == Failed ==> !r.timedOut && r.exitCode != 0)
    && (t.state == Succeeded ==> !r.timedOut && r.exitCode == 0)
  }

  ghost predicate RowSound(id: Id, t: Task, stored: bool, up: set<Result>) {
    && t.taskId == id != ""
    && if stored then exists r <- up :: r.refId == id && Records(t, r)
       else t.report == NO_REPORT && !Finished(t.state)
  }

  ghost predicate RowsSound(rows: Table, stored: set<Id>, up: set<Result>) {
    && (forall id <- rows :: RowSound(id, rows[id], id in stored, up))
    && stored <= rows.Keys
  }

  ghost predicate DownSound(rows: Table, down: set<Frame>) {
    forall f <- down :: f.id in rows && f == FrameFor(rows[f.id])
  }

  ghost predicate ExecsSound(down: set<Frame>, execs: set<Exec>) {
    forall e <- execs :: e.frame in down && e.result == Outcome(e.known, e.frame.id, e.frame.instr, e.world)
  }

  ghost predicate LogSound(execs: set<Exec>, node: NodeId, log: seq<Call>) {
    && Faithful(log, REPLAY_WINDOW)
    && forall c <- log :: RanOn(execs, node, c.id, c.result)
  }

  ghost predicate LogsSound(execs: set<Exec>, logs: map<NodeId, seq<Call>>) {
    forall node <- logs :: LogSound(execs, node, logs[node])
  }

  ghost predicate UpSound(execs: set<Exec>, up: set<Result>) {
    forall r <- up :: Ran(execs, r.refId, r)
  }

  ghost predicate CallsSound(up: set<Result>, calls: map<nat, Result>) {
    calls.Values <= up
  }

  /** A node executes an instruction that it was sent and that its cache does not know. */
  ghost predicate RunningSound(down: set<Frame>, running: map<NodeId, Frame>, logs: map<NodeId, seq<Call>>) {
    forall node <- running :: running[node] in down && running[node].node == node && !Known(logs, node, running[node].id)
  }

  /** What holds in every reachable state, however the steps interleave. */
  ghost predicate Sound(s: System) {
    && RowsSound(s.rows, s.stored, s.up)
    && DownSound(s.rows, s.down)
    && ExecsSound(s.down, s.execs)
    && LogsSound(s.execs, s.logs)
    && UpSound(s.execs, s.up)
    && CallsSound(s.up, s.inflight) && CallsSound(s.up, s.storing)
    && RunningSound(s.down, s.running, s.logs)
  }

  lemma RowsKeepFrames(rows: Table, rows': Table, down: set<Frame>)
    requires DownSound(rows, down)
    requires forall id <- rows :: id in rows' && FrameFor(rows'[id]) == FrameFor(rows[id])
    ensures DownSound(rows', down)
  {
  }

  /** A change of state that is not to a finished one. */
  lemma StateKeepsRows(rows: Table, stored: set<Id>, up: set<Result>, id: Id, st: State, at: int)
    requires RowsSound(rows, stored, up) && !Finished(st)
    ensures RowsSound(SetState(rows, id, st, at), stored, up)
  {
    if id in rows {
      assert RowSound(id, rows[id], id in stored, up);
      if id in stored {
        var r :| r in up && r.refId == id && Records(rows[id], r);
        assert Records(WithState(rows[id], st, at), r);
      }
    }
  }

  lemma CompleteKeepsRows(rows: Table, stored: set<Id>, up: set<Result>, r: Result, at: int)
    requires RowsSound(rows, stored, up) && r in up && r.refId in rows
    ensures RowsSound(Complete(rows, r, at), stored + {r.refId}, up)
  {
    var id := r.refId;
    assert RowSound(id, rows[id], id in stored, up);
    assert Records(Completed(rows[id], r, at), r);
    forall other | other in rows && other != id
      ensures RowSound(other, rows[other], other in stored + {id}, up)
    {
      assert other in stored + {id} <==> other in stored;
    }
  }

  lemma MoreResultsKeepRows(rows: Table, stored: set<Id>, up: set<Result>, r: Result)
    requires RowsSound(rows, stored, up)
    ensures RowsSound(rows, stored, up + {r})
  {
    forall id <- rows
      ensures RowSound(id, rows[id], id in stored, up + {r})
    {
      assert RowSound(id, rows[id], id in stored, up);
    }
  }

  /** A result on the link answers a stored task. */
  lemma UpIsStored(s: System, r: Result)
    requires Sound(s) && r in s.up
    ensures r.refId in s.rows
  {
    assert Ran(s.execs, r.refId, r);
  }

  lemma MoreExecs(execs: set<Exec>, execs': set<Exec>, logs: map<NodeId, seq<Call>>, up: set<Result>)
    requires execs <= execs'
    ensures LogsSound(execs, logs) ==> LogsSound(execs', logs)
    ensures UpSound(execs, up) ==> UpSound(execs', up)
  {
    forall node: NodeId, id: Id, r: Result | RanOn(execs, node, id, r)
      ensures RanOn(execs', node, id, r)
    {
    }
    forall id: Id, r: Result | Ran(execs, id, r)
      ensures Ran(execs', id, r)
    {
    }
  }

  /** What a cache replays was once executed there. */
  lemma ReplayRan(s: System, f: Frame)
    requires Sound(s)
    requires CachedAt(s, f.node, f.id)
    ensures RanOn(s.execs, f.node, f.id, CacheOf(Log(s, f.node), REPLAY_WINDOW).seen[f.id])
  {
    var log := Log(s, f.node);
    assert LogSound(s.execs, f.node, log);
    var i := CacheHoldsLatest(log, REPLAY_WINDOW, f.id);
    assert log[i] in log;
  }

  lemma RanOnRefersTo(down: set<Frame>, execs: set<Exec>, node: NodeId, id: Id, r: Result)
    requires ExecsSound(down, execs) && RanOn(execs, node, id, r)
    ensures r.refId == id && Ran(execs, r.refId, r)
  {
    var e :| e in execs && e.frame.node == node && e.frame.id == id && e.result == r;
    assert e.result == Outcome(e.known, e.frame.id, e.frame.instr, e.world);
  }

  lemma CallKeepsLogs(execs: set<Exec>, logs: map<NodeId, seq<Call>>, node: NodeId, log: seq<Call>, call: Call)
    requires LogsSound(execs, logs)
    requires log == if node in logs then logs[node] else []
    requires Answers(CacheOf(log, REPLAY_WINDOW), call) && RanOn(execs, node, call.id, call.result)
    ensures LogsSound(execs, logs[node := log + [call]])
  {
    assert LogSound(execs, node, log);
    LogGrows(log, call, REPLAY_WINDOW);
    assert LogSound(execs, node, log + [call]);
  }

  /** A reply whose result was executed on the node. */
  lemma ReplyKeepsSound(s: System, node: NodeId, call: Call)
    requires Sound(s) && Answers(CacheOf(Log(s, node), REPLAY_WINDOW), call)
    requires RanOn(s.execs, node, call.id, call.result) && node !in s.running
    ensures Sound(Reply(s, node, call))
  {
    var t := Reply(s, node, call);
    RanOnRefersTo(s.down, s.execs, node, call.id, call.result);
    CallKeepsLogs(s.execs, s.logs, node, Log(s, node), call);
    MoreResultsKeepRows(s.rows, s.stored, s.up, call.result);
    assert forall n :: n in t.running ==> (Known(t.logs, n, t.running[n].id) <==> Known(s.logs, n, t.running[n].id));
  }

  lemma BeginKeepsRunning(down: set<Frame>, running: map<NodeId, Frame>, logs: map<NodeId, seq<Call>>, f: Frame)
    requires RunningSound(down, running, logs) && f in down && !Known(logs, f.node, f.id)
    ensures RunningSound(down, running[f.node := f], logs)
  {
  }

  lemma RestartKeepsRunning(down: set<Frame>, running: map<NodeId, Frame>, logs: map<NodeId, seq<Call>>, node: NodeId)
    requires RunningSound(down, running, logs)
    ensures RunningSound(down, running - {node}, logs - {node})
  {
  }

  lemma ReplayKeepsSound(s: System, f: Frame)
    requires Sound(s) && Enabled(s, Replay(f))
    ensures Sound(Next(s, Replay(f)))
  {
    ReplayRan(s, f);
    ReplyKeepsSound(s, f.node, Replayed(s, f));
  }

  lemma EndKeepsSound(s: System, node: NodeId, known: set<string>, w: World)
    requires Sound(s) && Enabled(s, End(node, known, w))
    ensures Sound(Next(s, End(node, known, w)))
  {
    var f := s.running[node];
    var call := Ended(f, known, w);
    var e := Exec(f, known, w, call.result);
    var t := s.(running := s.running - {node}, execs := s.execs + {e});
    MoreExecs(s.execs, t.execs, s.logs, s.up);
    assert e in t.execs;
    assert Sound(t);
    ReplyKeepsSound(t, node, call);
    assert Next(s, End(node, known, w)) == Reply(t, node, call);
  }

  lemma CreateKeepsSound(s: System, task: Task)
    requires Sound(s) && Enabled(s, Create(task))
    ensures Sound(Next(s, Create(task)))
  {
    if task.taskId !in s.rows {
      var t := Inserted(task.(state := Queued));
      CreateKeepsRows(s.rows, s.stored, s.up, t);
      RowsKeepFrames(s.rows, s.rows[t.taskId := t], s.down);
    }
  }

  lemma CreateKeepsRows(rows: Table, stored: set<Id>, up: set<Result>, t: Task)
    requires RowsSound(rows, stored, up)
    requires t.taskId != "" && t.taskId !in rows && t.state == Queued && t.report == NO_REPORT
    ensures RowsSound(rows[t.taskId := t], stored, up)
  {
  }

  lemma StateKeepsSound(s: System, id: Id, st: State, at: int)
    requires Sound(s) && !Finished(st)
    ensures Sound(s.(rows := SetState(s.rows, id, st, at)))
  {
    RowsKeepFrames(s.rows, SetState(s.rows, id, st, at), s.down);
    StateKeepsRows(s.rows, s.stored, s.up, id, st, at);
  }

  lemma StoreKeepsSound(s: System, c: nat, at: int)
    requires Sound(s) && Enabled(s, Store(c, at))
    ensures Sound(Next(s, Store(c, at)))
  {
    var r := s.storing[c];
    UpIsStored(s, r);
    RowsKeepFrames(s.rows, Complete(s.rows, r, at), s.down);
    CompleteKeepsRows(s.rows, s.stored, s.up, r, at);
    assert (s.storing - {c}).Values <= s.storing.Values;
  }

  lemma CallsKeepSound(s: System, step: Step)
    requires Sound(s) && Enabled(s, step) && (step.Check? || step.MarkSeen? || step.ManagerRestart?)
    ensures Sound(Next(s, step))
  {
    if step.MarkSeen? {
      assert (s.inflight - {step.call}).Values <= s.inflight.Values;
      assert s.inflight[step.call] in s.inflight.Values;
    }
  }

  lemma NextKeepsSound(s: System, step: Step)
    requires Sound(s) && Enabled(s, step)
    ensures Sound(Next(s, step))
  {
    match step
    case Create(task) => CreateKeepsSound(s, task);
    case MarkSent(id, at) => StateKeepsSound(s, id, Sent, at);
    case Expire(id, now) => StateKeepsSound(s, id, Expired, now);
    case Replay(f) => ReplayKeepsSound(s, f);
    case Begin(f) => BeginKeepsRunning(s.down, s.running, s.logs, f);
    case End(node, known, w) => EndKeepsSound(s, node, known, w);
    case Store(c, at) => StoreKeepsSound(s, c, at);
    case Check(_, _) => CallsKeepSound(s, step);
    case MarkSeen(_) => CallsKeepSound(s, step);
    case ManagerRestart => CallsKeepSound(s, step);
    case NodeRestart(node) => RestartKeepsRunning(s.down, s.running, s.logs, node);
    case _ =>
  }

  lemma {:induction false} RunsAreSound(ss: seq<System>, steps: seq<Step>, k: nat)
    requires IsRun(ss, steps) && k < |ss|
    ensures Sound(ss[k])
  {
    if k > 0 {
      RunsAreSound(ss, steps, k - 1);
      NextKeepsSound(ss[k - 1], steps[k - 1]);
    }
  }
}
