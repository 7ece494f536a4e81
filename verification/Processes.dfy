/**
 The life of one node's agent: the frames it handles one after the other, its restarts, and the log of
 its calls. How often it begins to execute one task is decided here, for every such life.
 */
module Processes {
  import opened Protocol
  import opened Windows
  import opened Executors
  import opened Delivery

  /** The agent's log since its process started, and the frame that it is executing. */
  datatype Agent = Agent(log: seq<Call>, busy: Option<Frame>)

  function AgentOf(s: System, node: NodeId): Agent {
    Agent(Log(s, node), if node in s.running then Some(s.running[node]) else None)
  }

  predicate Remembers(g: Agent, id: Id) {
    id in CacheOf(g.log, REPLAY_WINDOW).seen
  }

  predicate Possible(g: Agent, step: Step, node: NodeId) {
    match step
    case Replay(f) => f.node == node ==> g.busy.None? && Remembers(g, f.id)
    case Begin(f) => f.node == node ==> g.busy.None? && !Remembers(g, f.id)
    case End(n, _, _) => n == node ==> g.busy.Some?
    case _ => true
  }

  function After(g: Agent, step: Step, node: NodeId): Agent
    requires Possible(g, step, node)
  {
    match step
    case Replay(f) =>
      if f.node == node then g.(log := g.log + [Call(f.id, false, CacheOf(g.log, REPLAY_WINDOW).seen[f.id])]) else g
    case Begin(f) => if f.node == node then g.(busy := Some(f)) else g
    case End(n, known, w) => if n == node then Agent(g.log + [Ended(g.busy.value, known, w)], None) else g
    case NodeRestart(n) => if n == node then Agent([], None) else g
    case _ => g
  }

  ghost predicate IsLife(gs: seq<Agent>, steps: seq<Step>, node: NodeId) {
    && |gs| == |steps| + 1
    && gs[0] == Agent([], None)
    && forall k :: 0 <= k < |steps| ==> Possible(gs[k], steps[k], node) && gs[k + 1] == After(gs[k], steps[k], node)
  }

  lemma AgentAfter(s: System, step: Step, node: NodeId)
    requires Enabled(s, step) && RunningSound(s.down, s.running, s.logs)
    ensures Possible(AgentOf(s, node), step, node)
    ensures AgentOf(Next(s, step), node) == After(AgentOf(s, node), step, node)
  {
    match step
    case Replay(_) =>
    case Begin(_) =>
    case End(_, _, _) =>
    case NodeRestart(_) =>
    case _ =>
  }

  ghost function Agents(ss: seq<System>, node: NodeId): seq<Agent> {
    seq(|ss|, k requires 0 <= k < |ss| => AgentOf(ss[k], node))
  }

  /** In every run, each node's agent leads such a life. */
  lemma AgentsLive(ss: seq<System>, steps: seq<Step>, node: NodeId)
    requires IsRun(ss, steps)
    ensures IsLife(Agents(ss, node), steps, node)
  {
    var gs := Agents(ss, node);
    forall k | 0 <= k < |steps|
      ensures Possible(gs[k], steps[k], node) && gs[k + 1] == After(gs[k], steps[k], node)
    {
      RunsAreSound(ss, steps, k);
      AgentAfter(ss[k], steps[k], node);
    }
  }

  /** Step `k` begins to execute the task on the node, or answers a frame of it from the cache. */
  predicate Begins(steps: seq<Step>, k: int, node: NodeId, id: Id) {
    0 <= k < |steps| && steps[k].Begin? && steps[k].frame.node == node && steps[k].frame.id == id
  }

  predicate Takes(steps: seq<Step>, k: int, node: NodeId, id: Id) {
    Begins(steps, k, node, id)
    || (0 <= k < |steps| && steps[k].Replay? && steps[k].frame.node == node && steps[k].frame.id == id)
  }

  /** The process does not restart between two steps. */
  ghost predicate StaysUp(steps: seq<Step>, a: int, b: int, node: NodeId) {
    forall q :: 0 <= q < |steps| && a < q < b ==> steps[q] != NodeRestart(node)
  }

  /** Two frames of the task with a restart in between. */
  ghost predicate RestartBetween(steps: seq<Step>, node: NodeId, id: Id, a: int, b: int) {
    a < b && Takes(steps, a, node, id) && Takes(steps, b, node, id) && !StaysUp(steps, a, b, node)
  }

  /** Two frames of one process with at least a whole cache of other executions in between. */
  ghost predicate OverrunBetween(gs: seq<Agent>, steps: seq<Step>, node: NodeId, id: Id, a: int, b: int)
    requires |gs| == |steps| + 1
  {
    && a < b && Takes(steps, a, node, id) && Takes(steps, b, node, id) && StaysUp(steps, a, b, node)
    && |gs[a].log| < |gs[b].log|
    && |Elements(FreshIds(gs[b].log[|gs[a].log| + 1..])) - {id}| >= 1024
  }

  /** The cache answers what the log says, and does not know what is being executed. */
  lemma {:induction false} LivesAreFaithful(gs: seq<Agent>, steps: seq<Step>, node: NodeId, k: nat)
    requires IsLife(gs, steps, node) && k < |gs|
    ensures Faithful(gs[k].log, REPLAY_WINDOW)
    ensures gs[k].busy.Some? ==> !Remembers(gs[k], gs[k].busy.value.id)
  {
    if k > 0 {
      LivesAreFaithful(gs, steps, node, k - 1);
      StepIsFaithful(gs[k - 1], steps[k - 1], node);
    }
  }

  lemma StepIsFaithful(g: Agent, step: Step, node: NodeId)
    requires Possible(g, step, node) && Faithful(g.log, REPLAY_WINDOW)
    requires g.busy.Some? ==> !Remembers(g, g.busy.value.id)
    ensures var h := After(g, step, node);
            Faithful(h.log, REPLAY_WINDOW) && (h.busy.Some? ==> !Remembers(h, h.busy.value.id))
  {
    var h := After(g, step, node);
    if |h.log| > |g.log| {
      LogGrows(g.log, h.log[|g.log|], REPLAY_WINDOW);
    }
  }

  /** What is held came from somewhere, and has not been cut off since. */
  lemma {:induction false} Source(held: seq<bool>, made: seq<bool>, cut: seq<bool>, k: nat) returns (a: nat)
    requires |held| == |made| + 1 && |cut| == |made| && k < |held| && !held[0] && held[k]
    requires forall j :: 0 <= j < |made| && held[j + 1] ==> !cut[j] && (held[j] || made[j])
    ensures a < k && made[a] && forall q :: a < q < k ==> !cut[q]
  {
    if held[k - 1] {
      a := Source(held, made, cut, k - 1);
    } else {
      a := k - 1;
    }
  }

  predicate Knows(g: Agent, id: Id) {
    Remembers(g, id) || (g.busy.Some? && g.busy.value.id == id)
  }

  lemma CacheGrows(log: seq<Call>, call: Call, w: nat, id: Id)
    requires id in CacheOf(log + [call], w).seen
    ensures id in CacheOf(log, w).seen || (call.anew && call.id == id)
  {
    assert (log + [call])[..|log|] == log;
  }

  lemma KnownBefore(g: Agent, step: Step, node: NodeId, id: Id)
    requires Possible(g, step, node) && Knows(After(g, step, node), id)
    ensures step != NodeRestart(node)
    ensures Knows(g, id) || Begins([step], 0, node, id)
  {
    var h := After(g, step, node);
    if |h.log| > |g.log| {
      if Remembers(h, id) {
        CacheGrows(g.log, h.log[|g.log|], REPLAY_WINDOW, id);
      }
    }
  }

  /** What an agent knows of it has begun to execute since its process started. */
  lemma KnownWasBegun(gs: seq<Agent>, steps: seq<Step>, node: NodeId, id: Id, k: nat) returns (a: nat)
    requires IsLife(gs, steps, node) && k < |gs| && Knows(gs[k], id)
    ensures a < k && Begins(steps, a, node, id) && StaysUp(steps, a, k, node)
  {
    var n := |steps|;
    var held := seq(n + 1, j requires 0 <= j <= n => Knows(gs[j], id));
    var made := seq(n, j requires 0 <= j < n => Begins(steps, j, node, id));
    var cut := seq(n, j requires 0 <= j < n => steps[j] == NodeRestart(node));
    forall j | 0 <= j < n && held[j + 1]
      ensures !cut[j] && (held[j] || made[j])
    {
      KnownBefore(gs[j], steps[j], node, id);
    }
    a := Source(held, made, cut, k);
    forall q | a < q < k
      ensures steps[q] != NodeRestart(node)
    {
      assert !cut[q];
    }
  }

  /** What is being executed was begun, and nothing has ended since. */
  lemma BusyWasBegun(gs: seq<Agent>, steps: seq<Step>, node: NodeId, k: nat) returns (a: nat)
    requires IsLife(gs, steps, node) && k < |gs| && gs[k].busy.Some?
    ensures a < k && steps[a] == Begin(gs[k].busy.value) && gs[k].busy.value.node == node
    ensures forall q :: a < q < k ==> !(steps[q].End? && steps[q].node == node)
  {
    var n, f := |steps|, gs[k].busy.value;
    var held := seq(n + 1, j requires 0 <= j <= n => gs[j].busy == Some(f));
    var made := seq(n, j requires 0 <= j < n => steps[j] == Begin(f) && f.node == node);
    var cut := seq(n, j requires 0 <= j < n => steps[j].End? && steps[j].node == node);
    forall j | 0 <= j < n && held[j + 1]
      ensures !cut[j] && (held[j] || made[j])
    {
      assert gs[j + 1] == After(gs[j], steps[j], node);
    }
    a := Source(held, made, cut, k);
    forall q | a < q < k
      ensures !(steps[q].End? && steps[q].node == node)
    {
      assert !cut[q];
    }
  }

  /** A frame that is taken has been executed, or is going to be: then or before, in the same process. */
  lemma TakenWasBegun(gs: seq<Agent>, steps: seq<Step>, node: NodeId, id: Id, k: nat) returns (a: nat)
    requires IsLife(gs, steps, node) && Takes(steps, k, node, id)
    ensures a <= k && Begins(steps, a, node, id) && StaysUp(steps, a, k, node)
  {
    if Begins(steps, k, node, id) {
      a := k;
    } else {
      a := KnownWasBegun(gs, steps, node, id, k);
    }
  }

  /** Since the frame taken at `a`: it is still being executed, or its call is in the log. */
  ghost predicate OwnCall(gs: seq<Agent>, steps: seq<Step>, a: nat, k: nat, id: Id)
    requires a < k < |gs| == |steps| + 1
  {
    || (steps[a].Begin? && gs[k] == Agent(gs[a].log, Some(steps[a].frame)))
    || (&& |gs[a].log| < |gs[k].log| && gs[a].log <= gs[k].log
        && gs[k].log[|gs[a].log|].id == id
        && (steps[a].Begin? ==> gs[k].log[|gs[a].log|].anew))
  }

  lemma {:induction false} OwnCallStays(gs: seq<Agent>, steps: seq<Step>, node: NodeId, id: Id, a: nat, k: nat)
    requires IsLife(gs, steps, node) && Takes(steps, a, node, id) && a < k < |gs| && StaysUp(steps, a, k, node)
    ensures OwnCall(gs, steps, a, k, id)
  {
    if k > a + 1 {
      OwnCallStays(gs, steps, node, id, a, k - 1);
    }
  }

  /** Between two executions by one process lies a whole cache of others. */
  lemma TwiceMeansOverrun(gs: seq<Agent>, steps: seq<Step>, node: NodeId, id: Id, a: nat, b: nat)
    requires IsLife(gs, steps, node) && a < b && StaysUp(steps, a, b, node)
    requires Begins(steps, a, node, id) && Begins(steps, b, node, id)
    ensures OverrunBetween(gs, steps, node, id, a, b)
  {
    OwnCallStays(gs, steps, node, id, a, b);
    LivesAreFaithful(gs, steps, node, b);
    var log, i := gs[b].log, |gs[a].log|;
    var again := Call(id, true, log[i].result);
    LogGrows(log, again, REPLAY_WINDOW);
    ExecutionSpacing(log + [again], REPLAY_WINDOW, i, |log|);
    assert (log + [again])[i + 1..|log|] == log[i + 1..];
  }

  /** No call for the task has been made anew after the one of `a`, and it is not executed once more. */
  ghost predicate NoneAnew(gs: seq<Agent>, steps: seq<Step>, a: nat, k: nat, id: Id)
    requires a < k < |gs| == |steps| + 1
  {
    || (steps[a].Begin? && gs[k] == Agent(gs[a].log, Some(steps[a].frame)))
    || (&& |gs[a].log| < |gs[k].log|
        && (gs[k].busy.Some? ==> gs[k].busy.value.id != id)
        && forall m :: |gs[a].log| < m < |gs[k].log| && gs[k].log[m].id == id ==> !gs[k].log[m].anew)
  }

  lemma {:induction false} NoneAnewUnlessBegun(gs: seq<Agent>, steps: seq<Step>, node: NodeId, id: Id, a: nat, k: nat)
    requires IsLife(gs, steps, node) && Takes(steps, a, node, id) && a < k < |gs| && StaysUp(steps, a, k, node)
    requires forall d :: a < d < k ==> !Begins(steps, d, node, id)
    ensures NoneAnew(gs, steps, a, k, id)
  {
    if k > a + 1 {
      NoneAnewUnlessBegun(gs, steps, node, id, a, k - 1);
      assert !Begins(steps, k - 1, node, id);
    }
  }

  lemma {:induction false} FreshIdIsCall(log: seq<Call>, id: Id) returns (m: nat)
    requires id in FreshIds(log)
    ensures m < |log| && log[m].anew && log[m].id == id
  {
    var c := log[|log| - 1];
    if c.anew && c.id == id {
      m := |log| - 1;
    } else {
      m := FreshIdIsCall(log[..|log| - 1], id);
    }
  }

  /** With a whole cache of other executions after call `i`, what the cache still holds was executed after it. */
  lemma HeldIsLater(log: seq<Call>, w: nat, id: Id, i: nat) returns (m: nat)
    requires Faithful(log, w) && id in CacheOf(log, w).seen && i < |log|
    requires |Elements(FreshIds(log[i + 1..])) - {id}| >= w
    ensures i < m < |log| && log[m].anew && log[m].id == id
  {
    var early, late := FreshIds(log[..i + 1]), FreshIds(log[i + 1..]);
    assert log == log[..i + 1] + log[i + 1..];
    FreshIdsConcat(log[..i + 1], log[i + 1..]);
    ElementsSize(late);
    SubsetSize(Elements(late) - {id}, Elements(late));
    CacheIsWindow(log, w);
    LastOfConcat(early, late, w, id);
    m := FreshIdIsCall(log[i + 1..], id);
    m := m + i + 1;
  }

  lemma LastOfConcat<T>(a: seq<T>, b: seq<T>, w: nat, x: T)
    requires |b| >= w && x in Last(a + b, w)
    ensures x in b
  {
    var p :| 0 <= p < w && Last(a + b, w)[p] == x;
    assert b[|b| - w + p] == x;
  }

  /** With a whole cache of others between two frames, the task is executed again after the first. */
  lemma OverrunMeansAgain(gs: seq<Agent>, steps: seq<Step>, node: NodeId, id: Id, a: nat, b: nat) returns (d: nat)
    requires IsLife(gs, steps, node) && OverrunBetween(gs, steps, node, id, a, b)
    ensures a < d <= b && Begins(steps, d, node, id)
  {
    if Begins(steps, b, node, id) {
      d := b;
    } else if c :| a < c < b && Begins(steps, c, node, id) {
      d := c;
    } else {
      NoneAnewUnlessBegun(gs, steps, node, id, a, b);
      LivesAreFaithful(gs, steps, node, b);
      var m := HeldIsLater(gs[b].log, REPLAY_WINDOW, id, |gs[a].log|);
      assert false;
    }
  }

  /** A task that the process has taken a frame of is among those it has executed, once its call is logged. */
  lemma KnownStaysFresh(gs: seq<Agent>, steps: seq<Step>, node: NodeId, id: Id, a: nat, b: nat)
    requires IsLife(gs, steps, node) && a < b < |gs| && Takes(steps, a, node, id) && StaysUp(steps, a, b, node)
    requires |gs[a].log| < |gs[b].log|
    ensures id in FreshIds(gs[b].log)
  {
    OwnCallStays(gs, steps, node, id, a, b);
    var log, i := gs[b].log, |gs[a].log|;
    var m := i;
    if steps[a].Replay? {
      LivesAreFaithful(gs, steps, node, a);
      m := CacheHoldsLatest(gs[a].log, REPLAY_WINDOW, id);
    }
    FreshIdsAround(log, m, |log|);
    assert log[..|log|] == log;
  }

  lemma OneMoreThanOthers<T>(a: seq<T>, b: seq<T>, x: T)
    requires x in a + b
    ensures |Elements(a + b)| > |Elements(b) - {x}|
  {
    var others := Elements(b) - {x};
    SubsetSize(others + {x}, Elements(a + b));
  }

  lemma OverrunMeansMany(gs: seq<Agent>, steps: seq<Step>, node: NodeId, id: Id, a: nat, b: nat)
    requires IsLife(gs, steps, node) && b < |gs|
    ensures OverrunBetween(gs, steps, node, id, a, b) ==> |Elements(FreshIds(gs[b].log))| > REPLAY_WINDOW
  {
    if OverrunBetween(gs, steps, node, id, a, b) {
      KnownStaysFresh(gs, steps, node, id, a, b);
      var log, i := gs[b].log, |gs[a].log|;
      FreshIdsConcat(log[..i + 1], log[i + 1..]);
      assert log == log[..i + 1] + log[i + 1..];
      OneMoreThanOthers(FreshIds(log[..i + 1]), FreshIds(log[i + 1..]), id);
    }
  }
}
