/**
 That a session comes to rest, and exactly when it can get stuck instead. The Manager flushes the
 queue inside the loop that takes the Node's frames off the connection; while it waits for room to
 send, the Node's frames pile up, until the Node waits for room to send as well.
 */
module Deadlock {
  import opened Protocol
  import opened Executors
  import opened Tasks
  import opened Dispatchers
  import opened Sessions
  import opened SessionProof
  import opened SessionTheorems

  /** How many frames the buffers between one end's Send and the other end's loop can hold. */
  function Room(env: Env): nat {
    SEND_BUFFER + 2 + env.cap
  }

  /** How many tasks must be taken, at two frames each, for the Node to fill its buffers despite few heartbeats. */
  function Needed(env: Env, ticks: nat): nat {
    if ticks < Room(env) then (Room(env) - ticks + 1) / 2 else 0
  }

  /** How many live tasks a session with so many heartbeats can flush without getting stuck. */
  function Bound(env: Env, ticks: nat): nat {
    Room(env) + Needed(env, ticks)
  }

  /** The tasks the Node's loop has taken. */
  function Taken(s: SessionState): nat {
    |s.ran| + |InHand(s.loop)|
  }

  /** The tasks that have been sent or still will be, counting those not yet flushed only when live. */
  function Carried(env: Env, s: SessionState): nat {
    Taken(s) + |s.nodeIn| + |s.down| + |s.managerOut| + |s.managerSend| + |Live(s.todo, env.now)|
  }

  /** The frames between the Node's loop and the Manager's. */
  function Frames(s: SessionState): nat {
    |s.managerIn| + |s.up| + |s.nodeOut| + |s.nodeSend|
  }

  /** How many frames the loop is still to send for what it is at. */
  function ToSay(loop: Loop): nat {
    match loop
    case Greet => 2
    case Acknowledge(_) => 2
    case Waiting => 0
    case _ => 1
  }

  /** The frames of the Node so far and to come, without those for tasks that it has not taken. */
  function Said(s: SessionState): nat {
    Frames(s) + ToSay(s.loop) + s.ticks + if s.registered then 1 else 0
  }

  /** Tasks are not made up, and neither are frames: two for the greeting, two for each task, and the heartbeats. */
  ghost predicate Counts(env: Env, ticks: nat, s: SessionState) {
    && Carried(env, s) <= |Live(env.listing, env.now)|
    && Said(s) <= ticks + 2 + 2 * Taken(s)
  }

  lemma {:induction false} LiveConcat(a: seq<Task>, b: seq<Task>, now: int)
    ensures Live(a + b, now) == Live(a, now) + Live(b, now)
  {
    if b == [] {
      assert a + b == a;
    } else {
      LiveConcat(a, b[..|b| - 1], now);
      assert (a + b)[..|a + b| - 1] == a + b[..|b| - 1];
    }
  }

  lemma LiveFirst(ts: seq<Task>, now: int)
    requires ts != []
    ensures |Live(ts, now)| == |Live(ts[1..], now)| + if PastDeadline(ts[0].deadline, now) then 0 else 1
  {
    assert ts == [ts[0]] + ts[1..];
    LiveConcat([ts[0]], ts[1..], now);
    assert [ts[0]][..0] == [];
    assert |Live([ts[0]], now)| == if PastDeadline(ts[0].deadline, now) then 0 else 1;
  }

  /** What each act does to the two counts. */
  lemma CountsAfter(env: Env, s: SessionState, a: Act)
    requires WithinBounds(env, s) && Enabled(env, s, a)
    requires s.loop.Exec? ==> s.loop.task.taskId !in s.cache.seen
    ensures var t := Next(env, s, a);
            && Taken(t) == Taken(s) + (if a.NodeTake? then 1 else 0)
            && Carried(env, t) == Carried(env, s) - (if a.ManagerEncode? && !env.fits(s.managerSend[0]) then 1 else 0)
            && Said(t) == Said(s)
                          + (if a.NodeTake? then 2 else 0)
                          - (if a.ManagerTake? && (s.registered || s.managerIn[0] != HELLO) then 1 else 0)
                          - (if a.NodeEncode? && !Encodes(env, s.nodeSend[0]) then 1 else 0)
  {
    TakenAfter(env, s, a);
    CarriedAfter(env, s, a);
    SaidAfter(env, s, a);
  }

  lemma TakenAfter(env: Env, s: SessionState, a: Act)
    requires WithinBounds(env, s) && Enabled(env, s, a)
    requires s.loop.Exec? ==> s.loop.task.taskId !in s.cache.seen
    ensures Taken(Next(env, s, a)) == Taken(s) + if a.NodeTake? then 1 else 0
  {
    match a
    case NodeRun =>
    case _ =>
  }

  lemma SaidAfter(env: Env, s: SessionState, a: Act)
    requires WithinBounds(env, s) && Enabled(env, s, a)
    ensures Said(Next(env, s, a)) == Said(s)
                                     + (if a.NodeTake? then 2 else 0)
                                     - (if a.ManagerTake? && (s.registered || s.managerIn[0] != HELLO) then 1 else 0)
                                     - (if a.NodeEncode? && !Encodes(env, s.nodeSend[0]) then 1 else 0)
  {
    match a
    case ManagerTake =>
    case NodeSend =>
    case _ =>
  }

  lemma CarriedAfter(env: Env, s: SessionState, a: Act)
    requires WithinBounds(env, s) && Enabled(env, s, a)
    requires s.loop.Exec? ==> s.loop.task.taskId !in s.cache.seen
    ensures Carried(env, Next(env, s, a)) ==
            Carried(env, s) - if a.ManagerEncode? && !env.fits(s.managerSend[0]) then 1 else 0
  {
    TakenAfter(env, s, a);
    match a
    case ManagerFlush =>
      if s.todo != [] {
        LiveFirst(s.todo, env.now);
      }
    case _ =>
  }

  lemma {:induction false} RunsKeepCounts(env: Env, ticks: nat, ss: seq<SessionState>, acts: seq<Act>, k: nat)
    requires Ready(env) && IsRun(env, ticks, ss, acts) && k < |ss|
    ensures Counts(env, ticks, ss[k])
  {
    if k == 0 {
      StartCounts(env, ticks);
    } else {
      RunsKeepCounts(env, ticks, ss, acts, k - 1);
      StepKeepsCounts(env, ticks, ss, acts, k - 1);
    }
  }

  lemma StepKeepsCounts(env: Env, ticks: nat, ss: seq<SessionState>, acts: seq<Act>, k: nat)
    requires Ready(env) && IsRun(env, ticks, ss, acts) && k < |acts| && Counts(env, ticks, ss[k])
    ensures Counts(env, ticks, ss[k + 1])
  {
    RunsKeepInv(env, ticks, ss, acts, k);
    ActKeepsCounts(env, ticks, ss[k], acts[k]);
  }

  lemma StartCounts(env: Env, ticks: nat)
    ensures Counts(env, ticks, Start(env, ticks))
  {
  }

  lemma ActKeepsCounts(env: Env, ticks: nat, s: SessionState, a: Act)
    requires Ready(env) && Inv(env, s) && Enabled(env, s, a) && Counts(env, ticks, s)
    ensures Counts(env, ticks, Next(env, s, a))
  {
    if s.loop.Exec? {
      NewToNode(env, s);
    }
    CountsAfter(env, s, a);
  }

  /** The Manager waits for room to send, and so does the Node. */
  ghost predicate Jammed(env: Env, s: SessionState) {
    && s.handler.Flushing? && s.todo != [] && !PastDeadline(s.todo[0].deadline, env.now)
    && |s.managerSend| == SEND_BUFFER && s.managerOut != [] && |s.down| == env.cap && s.nodeIn != []
    && ToSay(s.loop) > 0 && s.registered
    && |s.nodeSend| == SEND_BUFFER && s.nodeOut != [] && |s.up| == env.cap && s.managerIn != []
  }

  /** A session that is not jammed and has anything left to do can act, and not only by a heartbeat. */
  lemma MovesUnlessJammed(env: Env, s: SessionState) returns (a: Act)
    requires Ready(env) && RegistersFirst(env, s) && WithinBounds(env, s) && !Quiet(s) && !Jammed(env, s)
    ensures Enabled(env, s, a) && !a.NodeTick?
  {
    if s.handler.Marking? {
      a := ManagerMark;
    } else if s.down != [] && s.nodeIn == [] {
      a := NodeRead;
    } else if s.managerOut != [] && |s.down| < env.cap {
      a := ManagerWrite;
    } else if s.managerSend != [] && s.managerOut == [] {
      a := ManagerEncode;
    } else if Enabled(env, s, ManagerFlush) {
      a := ManagerFlush;
    } else if s.handler.Receiving? && s.managerIn != [] {
      a := ManagerTake;
    } else if s.up != [] && s.managerIn == [] {
      a := ManagerRead;
    } else if s.nodeOut != [] && |s.up| < env.cap {
      a := NodeWrite;
    } else if s.nodeSend != [] && s.nodeOut == [] {
      a := NodeEncode;
    } else if s.loop.Exec? {
      a := NodeRun;
    } else if !s.loop.Waiting? && |s.nodeSend| < SEND_BUFFER {
      a := NodeSend;
    } else {
      a := NodeTake;
    }
  }

  /** A jam takes more live tasks than the bound. */
  lemma JamsOnlyBeyondBound(env: Env, ticks: nat, s: SessionState)
    requires Jammed(env, s) && WithinBounds(env, s) && Counts(env, ticks, s)
    ensures |Live(env.listing, env.now)| > Bound(env, ticks)
  {
    LiveFirst(s.todo, env.now);
  }

  /** While anything is left to do and the live tasks are within the bound, some act other than a heartbeat is possible. */
  lemma AlwaysMoves(env: Env, ticks: nat, s: SessionState) returns (a: Act)
    requires Ready(env) && Inv(env, s) && Counts(env, ticks, s) && !Quiet(s)
    requires |Live(env.listing, env.now)| <= Bound(env, ticks)
    ensures Enabled(env, s, a) && !a.NodeTick?
  {
    if Jammed(env, s) {
      JamsOnlyBeyondBound(env, ticks, s);
    }
    a := MovesUnlessJammed(env, s);
  }

  lemma StepUsesUpWork(env: Env, ticks: nat, ss: seq<SessionState>, acts: seq<Act>, k: nat)
    requires Ready(env) && IsRun(env, ticks, ss, acts) && k < |acts|
    ensures Work(ss[k + 1]) < Work(ss[k])
  {
    RunsKeepInv(env, ticks, ss, acts, k);
    ActsUseUpWork(env, ss[k], acts[k]);
  }

  /** Every run ends: it has no more acts than the session has work, heartbeats included. */
  lemma {:induction false} RunsEnd(env: Env, ticks: nat, ss: seq<SessionState>, acts: seq<Act>, k: nat)
    requires Ready(env) && IsRun(env, ticks, ss, acts) && k < |ss|
    ensures k + Work(ss[k]) <= Work(Start(env, ticks))
  {
    if k > 0 {
      RunsEnd(env, ticks, ss, acts, k - 1);
      StepUsesUpWork(env, ticks, ss, acts, k - 1);
    }
  }

  /**
   Session refinement: however the goroutines interleave, a session within the bound can only come to
   rest with the table the sequential specification gives, each deliverable task having been run once,
   oldest first.
   */
  lemma SessionRefinesSequential(env: Env, ticks: nat, ss: seq<SessionState>, acts: seq<Act>)
    requires Ready(env) && IsRun(env, ticks, ss, acts)
    requires |Live(env.listing, env.now)| <= Bound(env, ticks)
    requires forall a: Act :: Enabled(env, ss[|acts|], a) ==> a.NodeTick?
    ensures ss[|acts|].rows == FinalTable(env)
    ensures ss[|acts|].ran == Goes(env, env.listing)
    ensures SequentialTable(env, ss[|acts|].rows)
    ensures forall t :: t in ss[|acts|].ran <==> t in env.listing && !(0 < t.deadline < env.now) && env.fits(t)
    ensures var ran := ss[|acts|].ran;
            forall i, j :: 0 <= i < j < |ran| ==> ran[i].createdAt <= ran[j].createdAt && ran[i].taskId != ran[j].taskId
  {
    FinalTells(env);
    GoesInOrder(env, env.listing);
    forall t
      ensures t in Goes(env, env.listing) <==> t in env.listing && !(0 < t.deadline < env.now) && env.fits(t)
    {
      GoesMembers(env, env.listing, t);
    }
    var s := ss[|acts|];
    RunsKeepInv(env, ticks, ss, acts, |acts|);
    RunsKeepCounts(env, ticks, ss, acts, |acts|);
    if !Quiet(s) {
      var a := AlwaysMoves(env, ticks, s);
    }
    QuietIsFinal(env, s);
  }

  /** No act is possible. */
  ghost predicate Dead(env: Env, s: SessionState) {
    forall a: Act :: !Enabled(env, s, a)
  }

  /** Some run of the session ends dead with work left. */
  ghost predicate CanDeadlock(env: Env, ticks: nat) {
    exists ss, acts :: IsRun(env, ticks, ss, acts) && Dead(env, ss[|acts|]) && !Quiet(ss[|acts|])
  }

  /** A session within the bound never deadlocks, whatever frames its ends drop. */
  lemma NeverDeadlocksWithinBound(env: Env, ticks: nat)
    requires Ready(env) && |Live(env.listing, env.now)| <= Bound(env, ticks)
    ensures !CanDeadlock(env, ticks)
  {
    forall ss, acts | IsRun(env, ticks, ss, acts) && Dead(env, ss[|acts|])
      ensures Quiet(ss[|acts|])
    {
      RunsKeepInv(env, ticks, ss, acts, |acts|);
      RunsKeepCounts(env, ticks, ss, acts, |acts|);
      if !Quiet(ss[|acts|]) {
        var a := AlwaysMoves(env, ticks, ss[|acts|]);
      }
    }
  }

  /** No frame of a live task is dropped, its result's included. */
  ghost predicate AllEncodable(env: Env) {
    forall t <- env.listing :: !PastDeadline(t.deadline, env.now) ==> env.fits(t) && env.reportFits(ResultOf(env, t))
  }

  /**
   The flush is under way, nothing has been dropped, nothing but the registration has been taken by
   the Manager, and the Node has taken no more tasks than it needs.
   */
  ghost predicate Clogging(env: Env, ticks: nat, s: SessionState) {
    && !s.handler.Receiving? && s.registered
    && Carried(env, s) == |Live(env.listing, env.now)|
    && Said(s) == ticks + 2 + 2 * Taken(s)
    && Taken(s) <= Needed(env, ticks)
    && (forall t <- s.managerSend :: env.fits(t))
  }

  /** Takes no more tasks than needed. */
  predicate Sparing(env: Env, ticks: nat, s: SessionState, a: Act) {
    a.NodeTake? ==> Taken(s) < Needed(env, ticks)
  }

  lemma RepliesEncode(env: Env, s: SessionState)
    requires TasksFlow(env, s) && RepliesGenuine(env, s) && AllEncodable(env) && s.nodeSend != []
    ensures Encodes(env, s.nodeSend[0])
  {
    var p := s.nodeSend[0];
    if IsReport(p) {
      assert p in s.nodeSend;
      var t :| t in s.ran && p.notification.result == ResultOf(env, t);
      RanIsListed(env, s, t);
    }
  }

  lemma FlushesEncodable(env: Env, s: SessionState, a: Act)
    requires AllEncodable(env) && Enabled(env, s, a)
    requires |s.todo| <= |env.listing| && s.todo == env.listing[|env.listing| - |s.todo|..]
    requires forall t <- s.managerSend :: env.fits(t)
    ensures forall t <- Next(env, s, a).managerSend :: env.fits(t)
  {
    match a
    case ManagerFlush =>
      if s.todo != [] {
        assert s.todo[0] == env.listing[|env.listing| - |s.todo|];
        assert s.todo[0] in env.listing;
      }
    case _ =>
  }

  lemma NothingIsDropped(env: Env, ticks: nat, s: SessionState, a: Act)
    requires Ready(env) && Inv(env, s) && AllEncodable(env)
    requires Clogging(env, ticks, s) && Enabled(env, s, a) && Sparing(env, ticks, s, a)
    ensures var t := Next(env, s, a);
            && Carried(env, t) == |Live(env.listing, env.now)|
            && Said(t) == ticks + 2 + 2 * Taken(t)
            && Taken(t) <= Needed(env, ticks)
  {
    if s.loop.Exec? {
      NewToNode(env, s);
    }
    if s.nodeSend != [] {
      RepliesEncode(env, s);
    }
    CountsAfter(env, s, a);
  }

  lemma KeepsClogging(env: Env, ticks: nat, s: SessionState, a: Act)
    requires Ready(env) && Inv(env, s) && AllEncodable(env) && |Live(env.listing, env.now)| > Bound(env, ticks)
    requires Clogging(env, ticks, s) && Enabled(env, s, a) && Sparing(env, ticks, s, a)
    ensures Clogging(env, ticks, Next(env, s, a))
  {
    NothingIsDropped(env, ticks, s, a);
    FlushesEncodable(env, s, a);
    FlushGoesOn(env, ticks, s, a);
  }

  /** There is always a live task left to flush. */
  lemma FlushGoesOn(env: Env, ticks: nat, s: SessionState, a: Act)
    requires WithinBounds(env, s) && |Live(env.listing, env.now)| > Bound(env, ticks)
    requires Clogging(env, ticks, s) && Enabled(env, s, a)
    ensures var t := Next(env, s, a); !t.handler.Receiving? && t.registered
  {
  }

  /** When nothing is possible any more but to take more tasks than needed, not even that is. */
  lemma CloggedIsDead(env: Env, ticks: nat, s: SessionState)
    requires Ready(env) && Inv(env, s) && |Live(env.listing, env.now)| > Bound(env, ticks) && Clogging(env, ticks, s)
    requires forall a: Act :: Enabled(env, s, a) ==> !Sparing(env, ticks, s, a)
    ensures Dead(env, s) && !Quiet(s)
  {
    assert !Enabled(env, s, NodeTick);
    forall a: Act
      ensures !Enabled(env, s, a)
    {
      assert a != NodeTake ==> Sparing(env, ticks, s, a);
    }
  }

  lemma {:induction false} Extend(env: Env, ticks: nat, ss: seq<SessionState>, acts: seq<Act>, a: Act)
    returns (ss': seq<SessionState>, acts': seq<Act>)
    requires IsRun(env, ticks, ss, acts) && Enabled(env, ss[|acts|], a)
    ensures ss' == ss + [Next(env, ss[|acts|], a)] && acts' == acts + [a] && IsRun(env, ticks, ss', acts')
  {
    ss', acts' := ss + [Next(env, ss[|acts|], a)], acts + [a];
  }

  lemma ClogsOn(env: Env, ticks: nat, ss: seq<SessionState>, acts: seq<Act>, a: Act)
    returns (ss': seq<SessionState>, acts': seq<Act>)
    requires Ready(env) && AllEncodable(env) && |Live(env.listing, env.now)| > Bound(env, ticks)
    requires IsRun(env, ticks, ss, acts) && Clogging(env, ticks, ss[|acts|])
    requires Enabled(env, ss[|acts|], a) && Sparing(env, ticks, ss[|acts|], a)
    ensures IsRun(env, ticks, ss', acts') && Clogging(env, ticks, ss'[|acts'|])
    ensures Work(ss'[|acts'|]) < Work(ss[|acts|])
  {
    var s := ss[|acts|];
    RunsKeepInv(env, ticks, ss, acts, |acts|);
    KeepsClogging(env, ticks, s, a);
    ActsUseUpWork(env, s, a);
    ss', acts' := Extend(env, ticks, ss, acts, a);
  }

  /** Taking no more tasks than needed, a clogging session goes on until it is dead. */
  lemma {:induction false} ClogsUp(env: Env, ticks: nat, ss: seq<SessionState>, acts: seq<Act>)
    returns (ss': seq<SessionState>, acts': seq<Act>)
    requires Ready(env) && AllEncodable(env) && |Live(env.listing, env.now)| > Bound(env, ticks)
    requires IsRun(env, ticks, ss, acts) && Clogging(env, ticks, ss[|acts|])
    ensures IsRun(env, ticks, ss', acts') && Dead(env, ss'[|acts'|]) && !Quiet(ss'[|acts'|])
    decreases Work(ss[|acts|])
  {
    if a: Act :| Enabled(env, ss[|acts|], a) && Sparing(env, ticks, ss[|acts|], a) {
      var tt, bb := ClogsOn(env, ticks, ss, acts, a);
      ss', acts' := ClogsUp(env, ticks, tt, bb);
    } else {
      RunsKeepInv(env, ticks, ss, acts, |acts|);
      CloggedIsDead(env, ticks, ss[|acts|]);
      ss', acts' := ss, acts;
    }
  }

  /** The registration alone reaches the Manager, which begins its flush. */
  lemma FlushBegins(env: Env, ticks: nat) returns (ss: seq<SessionState>, acts: seq<Act>)
    requires Ready(env)
    ensures IsRun(env, ticks, ss, acts) && Clogging(env, ticks, ss[|acts|])
  {
    ss, acts := [Start(env, ticks)], [];
    ss, acts := Extend(env, ticks, ss, acts, NodeSend);
    ss, acts := Extend(env, ticks, ss, acts, NodeEncode);
    ss, acts := Extend(env, ticks, ss, acts, NodeWrite);
    ss, acts := Extend(env, ticks, ss, acts, ManagerRead);
    ss, acts := Extend(env, ticks, ss, acts, ManagerTake);
  }

  /**
   The exact bound, for sessions that drop no frame of a live task: with so many heartbeats the session
   can deadlock exactly when more live tasks are queued than the buffers hold, plus those the Node must
   take before its own frames fill the buffers the other way.
   */
  lemma DeadlocksExactly(env: Env, ticks: nat)
    requires Ready(env) && AllEncodable(env)
    ensures CanDeadlock(env, ticks) <==> |Live(env.listing, env.now)| > Bound(env, ticks)
  {
    if |Live(env.listing, env.now)| <= Bound(env, ticks) {
      NeverDeadlocksWithinBound(env, ticks);
    } else {
      var ss, acts := FlushBegins(env, ticks);
      var ss', acts' := ClogsUp(env, ticks, ss, acts);
    }
  }

  /** However many heartbeats there may be: no deadlock exactly when the live tasks fit the buffers. */
  lemma DeadlockFreeExactly(env: Env)
    requires Ready(env) && AllEncodable(env)
    ensures (forall ticks: nat :: !CanDeadlock(env, ticks)) <==> |Live(env.listing, env.now)| <= 66 + env.cap
  {
    if |Live(env.listing, env.now)| <= Room(env) {
      forall ticks: nat {
        NeverDeadlocksWithinBound(env, ticks);
      }
    } else {
      DeadlocksExactly(env, Room(env));
    }
  }
}
