/** The invariant of a session: where each of its tasks and replies is, and what its table holds. */
module SessionProof {
  import opened Protocol
  import opened Windows
  import opened Executors
  import opened Tasks
  import opened Dispatchers
  import opened Sessions

  /** Each element of `s` replaced by what `f` makes of it. */
  function FlatMap<T, R>(f: T -> seq<R>, s: seq<T>): seq<R> {
    if s == [] then [] else FlatMap(f, s[..|s| - 1]) + f(s[|s| - 1])
  }

  lemma {:induction false} FlatMapConcat<T, R>(f: T -> seq<R>, a: seq<T>, b: seq<T>)
    ensures FlatMap(f, a + b) == FlatMap(f, a) + FlatMap(f, b)
  {
    if b == [] {
      assert a + b == a;
    } else {
      var n := |b| - 1;
      FlatMapConcat(f, a, b[..n]);
      assert (a + b)[..|a + b| - 1] == a + b[..n];
    }
  }

  lemma FlatMapOne<T, R>(f: T -> seq<R>, x: T)
    ensures FlatMap(f, [x]) == f(x)
  {
    assert [x][..0] == [];
  }

  lemma FlatMapFirst<T, R>(f: T -> seq<R>, s: seq<T>)
    requires s != []
    ensures FlatMap(f, s) == f(s[0]) + FlatMap(f, s[1..])
  {
    assert s == [s[0]] + s[1..];
    FlatMapConcat(f, [s[0]], s[1..]);
    FlatMapOne(f, s[0]);
  }

  /** The first element of one line goes to the end of another. */
  lemma HandsOver<T, R>(f: T -> seq<R>, a: seq<T>, b: seq<T>)
    requires b != []
    ensures FlatMap(f, a) + FlatMap(f, b) == FlatMap(f, a + [b[0]]) + FlatMap(f, b[1..])
  {
    FlatMapFirst(f, b);
    FlatMapConcat(f, a, [b[0]]);
    FlatMapOne(f, b[0]);
    var x, y, z := FlatMap(f, a), f(b[0]), FlatMap(f, b[1..]);
    assert x + (y + z) == x + y + z;
  }

  function DeliveryOf(env: Env, t: Task): seq<Task> {
    if !PastDeadline(t.deadline, env.now) && env.fits(t) then [t] else []
  }

  function Delivery(env: Env): Task -> seq<Task> {
    (t: Task) => DeliveryOf(env, t)
  }

  /** The tasks of `ts` that reach the Node: those not overdue at the flush whose frame encodes. */
  function Goes(env: Env, ts: seq<Task>): seq<Task> {
    FlatMap(Delivery(env), ts)
  }

  function ReplyOf(env: Env, t: Task): seq<Id> {
    if env.reportFits(ResultOf(env, t)) then [t.taskId] else []
  }

  function Reply(env: Env): Task -> seq<Id> {
    (t: Task) => ReplyOf(env, t)
  }

  /** The ids of the tasks of `ts` whose result reaches the Manager. */
  function Answered(env: Env, ts: seq<Task>): seq<Id> {
    FlatMap(Reply(env), ts)
  }

  predicate IsReport(p: Payload) {
    p.Notify? && p.notification.Report?
  }

  function ReplyInOf(env: Env, p: Payload): seq<Id> {
    if IsReport(p) && env.reportFits(p.notification.result) then [p.notification.result.refId] else []
  }

  function ReplyIn(env: Env): Payload -> seq<Id> {
    (p: Payload) => ReplyInOf(env, p)
  }

  /** The ids of the results in a line of frames that the encoder accepts. */
  function Replies(env: Env, ps: seq<Payload>): seq<Id> {
    FlatMap(ReplyIn(env), ps)
  }

  lemma {:induction false} GoesMembers(env: Env, ts: seq<Task>, t: Task)
    ensures t in Goes(env, ts) <==> t in ts && !(0 < t.deadline < env.now) && env.fits(t)
  {
    if ts != [] {
      GoesMembers(env, ts[..|ts| - 1], t);
      assert ts == ts[..|ts| - 1] + [ts[|ts| - 1]];
    }
  }

  lemma {:induction false} AnsweredMembers(env: Env, ts: seq<Task>, id: Id)
    ensures id in Answered(env, ts) <==> exists t <- ts :: t.taskId == id && env.reportFits(ResultOf(env, t))
  {
    if ts != [] {
      AnsweredMembers(env, ts[..|ts| - 1], id);
      assert ts == ts[..|ts| - 1] + [ts[|ts| - 1]];
    }
  }

  ghost predicate DistinctTasks(ts: seq<Task>) {
    forall i, j :: 0 <= i < j < |ts| ==> ts[i].taskId != ts[j].taskId
  }

  lemma {:induction false} GoesDistinct(env: Env, ts: seq<Task>)
    requires DistinctTasks(ts)
    ensures DistinctTasks(Goes(env, ts))
  {
    if ts != [] {
      var n := |ts| - 1;
      GoesDistinct(env, ts[..n]);
      forall k | 0 <= k < |Goes(env, ts[..n])|
        ensures Goes(env, ts[..n])[k].taskId != ts[n].taskId
      {
        GoesMembers(env, ts[..n], Goes(env, ts[..n])[k]);
      }
    }
  }

  lemma {:induction false} AnsweredDistinct(env: Env, ts: seq<Task>)
    requires DistinctTasks(ts)
    ensures Distinct(Answered(env, ts))
  {
    if ts != [] {
      var n := |ts| - 1;
      AnsweredDistinct(env, ts[..n]);
      AnsweredMembers(env, ts[..n], ts[n].taskId);
    }
  }

  /** One row once the flush has dealt with it, before and after its result is received. */
  function RowAfter(env: Env, t: Task, answered: bool): Task {
    if PastDeadline(t.deadline, env.now) then WithState(t, Expired, 0) else
    var sent := WithState(t, Sent, env.sentAt(t.taskId));
    if answered then Completed(sent, ResultOf(env, t), env.doneAt(t.taskId)) else sent
  }

  /** The table while the tasks of `pending` are still to be dealt with. */
  function View(env: Env, pending: set<Id>, answered: set<Id>): Table {
    map id | id in env.rows0 ::
      if id in Ids(env.listing) && id !in pending then RowAfter(env, env.rows0[id], id in answered) else env.rows0[id]
  }

  /**
   The sequential specification: each listed task expires, or else is sent, run, and completed with
   what its run reported, unless the frame of its instruction or of its result cannot be encoded.
   */
  function FinalTable(env: Env): Table {
    map id | id in env.rows0 ::
      if id !in Ids(env.listing) then env.rows0[id] else
      var t := env.rows0[id];
      RowAfter(env, t, env.fits(t) && env.reportFits(ResultOf(env, t)))
  }

  function Unmarked(h: Handler): set<Id> {
    if h.Marking? then {h.task.taskId} else {}
  }

  function InHand(loop: Loop): seq<Task> {
    if loop.Acknowledge? || loop.Exec? then [loop.task] else []
  }

  function Unsaid(loop: Loop): seq<Payload> {
    if loop.Answer? then [Notify(Report(loop.result))] else []
  }

  ghost predicate RowsFollow(env: Env, rows: Table, handler: Handler, todo: seq<Task>, received: seq<Id>) {
    && rows == View(env, Ids(todo) + Unmarked(handler), Elements(received))
    && |todo| <= |env.listing| && todo == env.listing[|env.listing| - |todo|..]
    && (handler.Marking? ==> handler.task in env.listing && handler.task.taskId !in Ids(todo) && !PastDeadline(handler.task.deadline, env.now))
    && (handler != Receiving || todo != [] ==> received == [])
  }

  ghost predicate TasksFlow(env: Env, s: SessionState) {
    && Goes(env, env.listing) == s.ran + InHand(s.loop) + s.nodeIn + s.down + s.managerOut + Goes(env, s.managerSend) + Goes(env, s.todo)
    && (forall t <- s.managerSend :: !PastDeadline(t.deadline, env.now))
  }

  ghost predicate RepliesFlow(env: Env, s: SessionState) {
    Answered(env, s.ran) == s.received + Replies(env, s.managerIn) + Replies(env, s.up) + Replies(env, s.nodeOut)
                            + Replies(env, s.nodeSend) + Replies(env, Unsaid(s.loop))
  }

  /** Every result under way is that of a task that has run. */
  ghost predicate Genuine(env: Env, ran: seq<Task>, ps: seq<Payload>) {
    forall p <- ps :: IsReport(p) ==> exists t <- ran :: p.notification.result == ResultOf(env, t)
  }

  ghost predicate AllEncode(env: Env, ps: seq<Payload>) {
    forall p <- ps :: Encodes(env, p)
  }

  ghost predicate RepliesGenuine(env: Env, s: SessionState) {
    && Genuine(env, s.ran, s.managerIn) && Genuine(env, s.ran, s.up) && Genuine(env, s.ran, s.nodeOut)
    && Genuine(env, s.ran, s.nodeSend) && Genuine(env, s.ran, Unsaid(s.loop))
    && AllEncode(env, s.managerIn) && AllEncode(env, s.up) && AllEncode(env, s.nodeOut)
  }

  /** Neither duplicate filter knows an id that has not come by in this session. */
  ghost predicate Unseen(env: Env, s: SessionState) {
    && s.cache.seen.Keys <= env.cache0.seen.Keys + Ids(s.ran)
    && s.window.seen <= env.window0.seen + Elements(s.received)
  }

  function Upstream(s: SessionState): seq<Payload> {
    s.managerIn + s.up + s.nodeOut + s.nodeSend
  }

  const HELLO := Notify(Register)

  ghost predicate HelloFirst(u: seq<Payload>) {
    u != [] && u[0] == HELLO && HELLO !in u[1..]
  }

  /** The registration is the first frame the Node sends, and it sends one. */
  ghost predicate RegistersFirst(env: Env, s: SessionState) {
    && (s.loop.Greet? ==> !s.registered && Upstream(s) == [])
    && (!s.registered ==> s.handler.Receiving? && s.todo == env.listing && s.received == [])
    && (!s.registered && !s.loop.Greet? ==> HelloFirst(Upstream(s)))
    && (s.registered ==> HELLO !in Upstream(s))
    && (s.registered && s.handler.Receiving? ==> s.todo == [])
  }

  ghost predicate WithinBounds(env: Env, s: SessionState) {
    && |s.nodeIn| <= 1 && |s.managerOut| <= 1 && |s.nodeOut| <= 1 && |s.managerIn| <= 1
    && |s.down| <= env.cap && |s.up| <= env.cap
    && |s.managerSend| <= SEND_BUFFER && |s.nodeSend| <= SEND_BUFFER
  }

  ghost predicate Inv(env: Env, s: SessionState) {
    && RowsFollow(env, s.rows, s.handler, s.todo, s.received)
    && TasksFlow(env, s)
    && RepliesFlow(env, s)
    && RepliesGenuine(env, s)
    && Unseen(env, s)
    && RegistersFirst(env, s)
    && WithinBounds(env, s)
  }

  lemma StartHolds(env: Env, ticks: nat)
    requires Ready(env)
    ensures Inv(env, Start(env, ticks))
  {
    var s := Start(env, ticks);
    assert View(env, Ids(s.todo) + Unmarked(s.handler), {}) == env.rows0;
  }

  lemma Moves<T>(p: seq<T>, a: seq<T>, b: seq<T>, a': seq<T>, b': seq<T>)
    requires a + b == a' + b'
    ensures p + a + b == p + a' + b'
  {
    assert p + a + b == p + (a + b) == p + (a' + b') == p + a' + b';
  }

  lemma Pops<T>(s: seq<T>)
    requires s != []
    ensures [] + s == [s[0]] + s[1..]
  {
  }

  lemma CarryTask(env: Env, s: SessionState, a: Act)
    requires TasksFlow(env, s) && WithinBounds(env, s) && Enabled(env, s, a)
    requires a.NodeTake? || a.NodeRead? || a.ManagerWrite?
    ensures TasksFlow(env, Next(env, s, a))
  {
    var t := Next(env, s, a);
    var p := s.ran + InHand(s.loop);
    match a
    case NodeTake =>
      Moves(s.ran, [], s.nodeIn, s.nodeIn, []);
    case NodeRead =>
      Pops(s.down);
      Moves(p, s.nodeIn, s.down, t.nodeIn, t.down);
    case ManagerWrite =>
      Moves(p + s.nodeIn, s.down, s.managerOut, t.down, []);
  }

  /** The instruction frames move towards the Node in order, none lost and none repeated. */
  lemma TasksKeepFlowing(env: Env, s: SessionState, a: Act)
    requires TasksFlow(env, s) && WithinBounds(env, s) && Enabled(env, s, a)
    requires s.loop.Exec? ==> s.loop.task.taskId !in s.cache.seen
    ensures TasksFlow(env, Next(env, s, a))
  {
    match a
    case NodeTake => CarryTask(env, s, a);
    case NodeRead => CarryTask(env, s, a);
    case ManagerWrite => CarryTask(env, s, a);
    case NodeRun => assert s.ran + [s.loop.task] == Next(env, s, a).ran + [];
    case ManagerEncode => EncodeTask(env, s);
    case ManagerFlush => FlushTask(env, s);
    case _ =>
  }

  lemma EncodeTask(env: Env, s: SessionState)
    requires TasksFlow(env, s) && Enabled(env, s, ManagerEncode)
    ensures TasksFlow(env, Next(env, s, ManagerEncode))
  {
    var t := Next(env, s, ManagerEncode);
    FlatMapFirst(Delivery(env), s.managerSend);
    assert s.managerSend[0] in s.managerSend;
    Moves(s.ran + InHand(s.loop) + s.nodeIn + s.down, [], Goes(env, s.managerSend), t.managerOut, Goes(env, t.managerSend));
  }

  lemma FlushTask(env: Env, s: SessionState)
    requires TasksFlow(env, s) && Enabled(env, s, ManagerFlush)
    ensures TasksFlow(env, Next(env, s, ManagerFlush))
  {
    var t := Next(env, s, ManagerFlush);
    if s.todo != [] {
      if !PastDeadline(s.todo[0].deadline, env.now) {
        HandsOver(Delivery(env), s.managerSend, s.todo);
        Moves(s.ran + InHand(s.loop) + s.nodeIn + s.down + s.managerOut,
              Goes(env, s.managerSend), Goes(env, s.todo), Goes(env, t.managerSend), Goes(env, t.todo));
      } else {
        FlatMapFirst(Delivery(env), s.todo);
        assert Goes(env, s.todo) == Goes(env, t.todo);
      }
    }
  }

  lemma SayReply(env: Env, s: SessionState)
    requires RepliesFlow(env, s) && Enabled(env, s, NodeSend)
    ensures RepliesFlow(env, Next(env, s, NodeSend))
  {
    var t := Next(env, s, NodeSend);
    var said := Saying(s.loop);
    FlatMapConcat(ReplyIn(env), s.nodeSend, [said]);
    FlatMapOne(ReplyIn(env), said);
    assert Unsaid(s.loop) == if s.loop.Answer? then [said] else [];
    assert Replies(env, Unsaid(t.loop)) == [];
    if s.loop.Answer? {
      assert Unsaid(s.loop) == [said];
      assert Replies(env, Unsaid(s.loop)) == ReplyIn(env)(said);
    } else {
      assert ReplyIn(env)(said) == [];
      assert Replies(env, Unsaid(s.loop)) == [];
    }
    assert Replies(env, s.nodeSend) + Replies(env, Unsaid(s.loop)) == Replies(env, t.nodeSend) + [];
    Moves(s.received + Replies(env, s.managerIn) + Replies(env, s.up) + Replies(env, s.nodeOut),
          Replies(env, s.nodeSend), Replies(env, Unsaid(s.loop)), Replies(env, t.nodeSend), []);
  }

  lemma EncodeReply(env: Env, s: SessionState)
    requires RepliesFlow(env, s) && Enabled(env, s, NodeEncode)
    ensures RepliesFlow(env, Next(env, s, NodeEncode))
  {
    var t := Next(env, s, NodeEncode);
    FlatMapFirst(ReplyIn(env), s.nodeSend);
    FlatMapOne(ReplyIn(env), s.nodeSend[0]);
    assert Replies(env, t.nodeOut) == ReplyIn(env)(s.nodeSend[0]);
    Moves(s.received + Replies(env, s.managerIn) + Replies(env, s.up), [], Replies(env, s.nodeSend),
          Replies(env, t.nodeOut), Replies(env, t.nodeSend));
  }

  lemma CarryReply(env: Env, s: SessionState, a: Act)
    requires RepliesFlow(env, s) && Enabled(env, s, a) && (a.NodeWrite? || a.ManagerRead?)
    ensures RepliesFlow(env, Next(env, s, a))
  {
    var t := Next(env, s, a);
    if a.NodeWrite? {
      FlatMapConcat(ReplyIn(env), s.up, s.nodeOut);
      Moves(s.received + Replies(env, s.managerIn), Replies(env, s.up), Replies(env, s.nodeOut), Replies(env, t.up), []);
    } else {
      FlatMapFirst(ReplyIn(env), s.up);
      FlatMapOne(ReplyIn(env), s.up[0]);
      Moves(s.received, [], Replies(env, s.up), Replies(env, t.managerIn), Replies(env, t.up));
    }
  }

  lemma TakeReply(env: Env, s: SessionState)
    requires RepliesFlow(env, s) && WithinBounds(env, s) && RepliesGenuine(env, s) && Enabled(env, s, ManagerTake)
    ensures RepliesFlow(env, Next(env, s, ManagerTake))
  {
    var t := Next(env, s, ManagerTake);
    assert s.managerIn == [s.managerIn[0]];
    FlatMapOne(ReplyIn(env), s.managerIn[0]);
    assert s.managerIn[0] in s.managerIn && Encodes(env, s.managerIn[0]);
    assert Replies(env, t.managerIn) == [];
    assert t.received + [] == s.received + Replies(env, s.managerIn);
  }

  lemma RunReply(env: Env, s: SessionState)
    requires RepliesFlow(env, s) && Enabled(env, s, NodeRun) && s.loop.task.taskId !in s.cache.seen
    ensures RepliesFlow(env, Next(env, s, NodeRun))
  {
    var t := Next(env, s, NodeRun);
    FlatMapConcat(Reply(env), s.ran, [s.loop.task]);
    FlatMapOne(Reply(env), s.loop.task);
    FlatMapOne(ReplyIn(env), Notify(Report(t.loop.result)));
    assert t.loop.result == ResultOf(env, s.loop.task);
    assert Unsaid(t.loop) == [Notify(Report(t.loop.result))];
    assert ReplyIn(env)(Notify(Report(t.loop.result))) == Reply(env)(s.loop.task);
    assert Replies(env, Unsaid(t.loop)) == Reply(env)(s.loop.task);
    assert Replies(env, Unsaid(s.loop)) == [];
  }

  /** The results move towards the Manager in the order of the runs, none lost and none repeated. */
  lemma RepliesKeepFlowing(env: Env, s: SessionState, a: Act)
    requires RepliesFlow(env, s) && WithinBounds(env, s) && RepliesGenuine(env, s) && Enabled(env, s, a)
    requires s.loop.Exec? ==> s.loop.task.taskId !in s.cache.seen
    ensures RepliesFlow(env, Next(env, s, a))
  {
    match a
    case NodeSend => SayReply(env, s);
    case NodeEncode => EncodeReply(env, s);
    case NodeWrite => CarryReply(env, s, a);
    case ManagerRead => CarryReply(env, s, a);
    case ManagerTake => TakeReply(env, s);
    case NodeRun => RunReply(env, s);
    case _ =>
  }

  lemma ListedTasks(env: Env)
    requires Ready(env)
    ensures DistinctTasks(env.listing)
    ensures forall t <- env.listing :: t.taskId in env.rows0 && env.rows0[t.taskId] == t
  {
  }

  /** A task in the Node's hands is listed, and new to the Node. */
  lemma NewToNode(env: Env, s: SessionState)
    requires Ready(env) && TasksFlow(env, s) && Unseen(env, s)
    requires s.loop.Acknowledge? || s.loop.Exec?
    ensures s.loop.task in env.listing && s.loop.task.taskId !in s.cache.seen
  {
    var gone := Goes(env, env.listing);
    GoesDistinct(env, env.listing);
    var n := |s.ran|;
    assert gone[n] == s.loop.task;
    assert forall k :: 0 <= k < n ==> gone[k] == s.ran[k];
    GoesMembers(env, env.listing, s.loop.task);
    assert s.loop.task.taskId !in Ids(s.ran);
  }

  /** A task that ran is listed, and its frame encoded. */
  lemma RanIsListed(env: Env, s: SessionState, t: Task)
    requires TasksFlow(env, s) && t in s.ran
    ensures t in env.listing && !PastDeadline(t.deadline, env.now) && env.fits(t)
  {
    var k :| 0 <= k < |s.ran| && s.ran[k] == t;
    assert Goes(env, env.listing)[k] == t;
    GoesMembers(env, env.listing, t);
  }

  /** A result at the Manager's end is that of a listed task, and new to the Manager. */
  lemma NewToManager(env: Env, s: SessionState) returns (t: Task)
    requires Ready(env) && TasksFlow(env, s) && RepliesFlow(env, s) && RepliesGenuine(env, s) && Unseen(env, s)
    requires |s.managerIn| == 1 && IsReport(s.managerIn[0])
    ensures var r := s.managerIn[0].notification.result;
            && t in s.ran && t in env.listing && !PastDeadline(t.deadline, env.now)
            && r == ResultOf(env, t) && r.refId == t.taskId
            && r.refId !in s.received && r.refId !in s.window.seen
  {
    var p := s.managerIn[0];
    assert p in s.managerIn && Genuine(env, s.ran, s.managerIn);
    t :| t in s.ran && p.notification.result == ResultOf(env, t);
    RanIsListed(env, s, t);
    var answered := Answered(env, s.ran);
    RanDistinct(env, s);
    AnsweredDistinct(env, s.ran);
    assert s.managerIn == [p];
    FlatMapOne(ReplyIn(env), p);
    assert Encodes(env, p);
    var n := |s.received|;
    assert answered[n] == t.taskId;
    assert forall k :: 0 <= k < n ==> answered[k] == s.received[k];
  }

  lemma RanDistinct(env: Env, s: SessionState)
    requires Ready(env) && TasksFlow(env, s)
    ensures DistinctTasks(s.ran)
  {
    ListedTasks(env);
    GoesDistinct(env, env.listing);
    assert forall k :: 0 <= k < |s.ran| ==> s.ran[k] == Goes(env, env.listing)[k];
  }

  lemma ViewDealsWith(env: Env, pending: set<Id>, t: Task)
    requires Ready(env) && t in env.listing && t.taskId !in pending
    ensures !PastDeadline(t.deadline, env.now) ==>
              SetState(View(env, pending + {t.taskId}, {}), t.taskId, Sent, env.sentAt(t.taskId)) == View(env, pending, {})
    ensures PastDeadline(t.deadline, env.now) ==>
              SetState(View(env, pending + {t.taskId}, {}), t.taskId, Expired, env.now) == View(env, pending, {})
  {
    ListedTasks(env);
  }

  lemma ViewCompletes(env: Env, answered: set<Id>, t: Task)
    requires Ready(env) && t in env.listing && !PastDeadline(t.deadline, env.now) && t.taskId !in answered
    ensures Complete(View(env, {}, answered), ResultOf(env, t), env.doneAt(t.taskId)) == View(env, {}, answered + {t.taskId})
  {
    ListedTasks(env);
  }

  lemma SuffixPops(listing: seq<Task>, todo: seq<Task>)
    requires DistinctTasks(listing) && todo != []
    requires |todo| <= |listing| && todo == listing[|listing| - |todo|..]
    ensures todo[0] in listing && todo[1..] == listing[|listing| - |todo[1..]|..]
    ensures todo[0].taskId !in Ids(todo[1..])
    ensures Ids(todo) == Ids(todo[1..]) + {todo[0].taskId}
  {
    var k := |listing| - |todo|;
    assert todo[0] == listing[k];
    assert todo == [todo[0]] + todo[1..];
    forall t <- todo[1..]
      ensures t.taskId != todo[0].taskId
    {
      var j :| 0 <= j < |todo[1..]| && todo[1..][j] == t;
      assert t == listing[k + 1 + j];
    }
  }

  lemma FlushKeepsRows(env: Env, s: SessionState)
    requires Ready(env) && RowsFollow(env, s.rows, s.handler, s.todo, s.received) && Enabled(env, s, ManagerFlush)
    ensures var t := Next(env, s, ManagerFlush); RowsFollow(env, t.rows, t.handler, t.todo, t.received)
  {
    var t := Next(env, s, ManagerFlush);
    if s.todo != [] {
      var x := s.todo[0];
      ListedTasks(env);
      SuffixPops(env.listing, s.todo);
      assert Elements(s.received) == {};
      assert Ids(s.todo) + Unmarked(s.handler) == Ids(t.todo) + {x.taskId};
      if PastDeadline(x.deadline, env.now) {
        ViewDealsWith(env, Ids(t.todo), x);
        assert Ids(t.todo) + Unmarked(t.handler) == Ids(t.todo);
      }
    }
  }

  lemma MarkKeepsRows(env: Env, s: SessionState)
    requires Ready(env) && RowsFollow(env, s.rows, s.handler, s.todo, s.received) && Enabled(env, s, ManagerMark)
    ensures var t := Next(env, s, ManagerMark); RowsFollow(env, t.rows, t.handler, t.todo, t.received)
  {
    assert Elements(s.received) == {};
    ViewDealsWith(env, Ids(s.todo), s.handler.task);
    assert Ids(s.todo) + Unmarked(Flushing) == Ids(s.todo);
  }

  lemma FirstUpstream(s: SessionState)
    requires s.managerIn != []
    ensures Upstream(s) != [] && Upstream(s)[0] == s.managerIn[0]
    ensures s.managerIn[0] in Upstream(s)
  {
  }

  /** While the first result is on its way the flush has long been over. */
  lemma ReportFindsFlushDone(env: Env, s: SessionState)
    requires RegistersFirst(env, s) && Enabled(env, s, ManagerTake)
    ensures IsReport(s.managerIn[0]) ==> s.registered && s.todo == []
    ensures s.managerIn[0] == HELLO ==> !s.registered && s.received == []
  {
    FirstUpstream(s);
  }

  lemma TakeKeepsRows(env: Env, s: SessionState)
    requires Ready(env) && Inv(env, s) && Enabled(env, s, ManagerTake)
    ensures var t := Next(env, s, ManagerTake); RowsFollow(env, t.rows, t.handler, t.todo, t.received)
    ensures Unseen(env, Next(env, s, ManagerTake))
  {
    ReportFindsFlushDone(env, s);
    if IsReport(s.managerIn[0]) {
      var x := NewToManager(env, s);
      TakenReport(env, s, x);
    }
  }

  lemma TakenReport(env: Env, s: SessionState, x: Task)
    requires Ready(env) && RowsFollow(env, s.rows, s.handler, s.todo, s.received) && Unseen(env, s)
    requires Enabled(env, s, ManagerTake) && s.todo == [] && IsReport(s.managerIn[0])
    requires x in env.listing && !PastDeadline(x.deadline, env.now) && s.managerIn[0].notification.result == ResultOf(env, x)
    requires x.taskId !in s.received && x.taskId !in s.window.seen
    ensures var t := Next(env, s, ManagerTake); RowsFollow(env, t.rows, t.handler, t.todo, t.received)
    ensures Unseen(env, Next(env, s, ManagerTake))
  {
    var t := Next(env, s, ManagerTake);
    assert Elements(t.received) == Elements(s.received) + {x.taskId};
    ViewCompletes(env, Elements(s.received), x);
    assert Ids(s.todo) + Unmarked(s.handler) == {};
    assert t.window.seen <= s.window.seen + {x.taskId};
  }

  lemma RunKeepsUnseen(env: Env, s: SessionState)
    requires Unseen(env, s) && Enabled(env, s, NodeRun) && s.loop.task.taskId !in s.cache.seen
    ensures Unseen(env, Next(env, s, NodeRun))
  {
    var t := Next(env, s, NodeRun);
    assert Ids(t.ran) == Ids(s.ran) + {s.loop.task.taskId};
  }

  lemma GenuineParts(env: Env, ran: seq<Task>, ran': seq<Task>, a: seq<Payload>, b: seq<Payload>)
    ensures Genuine(env, ran, a + b) <==> Genuine(env, ran, a) && Genuine(env, ran, b)
    ensures AllEncode(env, a + b) <==> AllEncode(env, a) && AllEncode(env, b)
    ensures ran <= ran' && Genuine(env, ran, a) ==> Genuine(env, ran', a)
  {
    forall p | p in a || p in b
      ensures p in a + b
    {
    }
    if ran <= ran' {
      assert forall t <- ran :: t in ran';
    }
  }

  lemma RunStaysGenuine(env: Env, s: SessionState)
    requires RepliesGenuine(env, s) && Enabled(env, s, NodeRun) && s.loop.task.taskId !in s.cache.seen
    ensures RepliesGenuine(env, Next(env, s, NodeRun))
  {
    var t := Next(env, s, NodeRun);
    GenuineParts(env, s.ran, t.ran, s.managerIn, []);
    GenuineParts(env, s.ran, t.ran, s.up, []);
    GenuineParts(env, s.ran, t.ran, s.nodeOut, []);
    GenuineParts(env, s.ran, t.ran, s.nodeSend, []);
    assert t.ran[|s.ran|] == s.loop.task;
  }

  lemma SendStaysGenuine(env: Env, s: SessionState)
    requires RepliesGenuine(env, s) && Enabled(env, s, NodeSend)
    ensures RepliesGenuine(env, Next(env, s, NodeSend))
  {
    GenuineParts(env, s.ran, s.ran, s.nodeSend, [Saying(s.loop)]);
    assert s.loop.Answer? ==> Unsaid(s.loop) == [Saying(s.loop)];
  }

  lemma CarryStaysGenuine(env: Env, s: SessionState, a: Act)
    requires RepliesGenuine(env, s) && WithinBounds(env, s) && Enabled(env, s, a) && (a.NodeEncode? || a.NodeWrite? || a.ManagerRead?)
    ensures RepliesGenuine(env, Next(env, s, a))
  {
    match a
    case NodeEncode =>
      assert s.nodeSend == [s.nodeSend[0]] + s.nodeSend[1..];
      GenuineParts(env, s.ran, s.ran, [s.nodeSend[0]], s.nodeSend[1..]);
    case NodeWrite =>
      GenuineParts(env, s.ran, s.ran, s.up, s.nodeOut);
    case ManagerRead =>
      assert s.up == [s.up[0]] + s.up[1..];
      GenuineParts(env, s.ran, s.ran, [s.up[0]], s.up[1..]);
  }

  lemma RepliesStayGenuine(env: Env, s: SessionState, a: Act)
    requires RepliesGenuine(env, s) && WithinBounds(env, s) && Enabled(env, s, a)
    requires s.loop.Exec? ==> s.loop.task.taskId !in s.cache.seen
    ensures RepliesGenuine(env, Next(env, s, a))
  {
    match a
    case NodeSend => SendStaysGenuine(env, s);
    case NodeRun => RunStaysGenuine(env, s);
    case NodeEncode => CarryStaysGenuine(env, s, a);
    case NodeWrite => CarryStaysGenuine(env, s, a);
    case ManagerRead => CarryStaysGenuine(env, s, a);
    case _ =>
  }

  lemma UpstreamEncodes(env: Env, s: SessionState) returns (x: seq<Payload>, y: seq<Payload>)
    requires Enabled(env, s, NodeEncode)
    ensures Upstream(s) == x + [s.nodeSend[0]] + y
    ensures Upstream(Next(env, s, NodeEncode)) == if Encodes(env, s.nodeSend[0]) then Upstream(s) else x + y
  {
    x, y := s.managerIn + s.up, s.nodeSend[1..];
    var t := Next(env, s, NodeEncode);
    assert s.nodeSend == [s.nodeSend[0]] + y;
    assert Upstream(s) == x + ([s.nodeSend[0]] + y) == x + [s.nodeSend[0]] + y;
    assert Upstream(t) == x + t.nodeOut + y;
    assert x + [] + y == x + y;
  }

  lemma UpstreamCarries(env: Env, s: SessionState, a: Act)
    requires WithinBounds(env, s) && Enabled(env, s, a) && (a.NodeWrite? || a.ManagerRead?)
    ensures Upstream(Next(env, s, a)) == Upstream(s)
  {
    var t := Next(env, s, a);
    if a.NodeWrite? {
      Moves(s.managerIn, s.up, s.nodeOut, t.up, []);
    } else {
      assert s.managerIn + s.up == t.managerIn + t.up;
    }
  }

  lemma UpstreamEnds(env: Env, s: SessionState)
    requires WithinBounds(env, s)
    ensures Enabled(env, s, NodeSend) ==> Upstream(Next(env, s, NodeSend)) == Upstream(s) + [Saying(s.loop)]
    ensures Enabled(env, s, ManagerTake) ==> Upstream(s) == [s.managerIn[0]] + Upstream(Next(env, s, ManagerTake))
  {
    if Enabled(env, s, ManagerTake) {
      assert s.managerIn == [s.managerIn[0]];
      assert Upstream(s) == [s.managerIn[0]] + (s.up + s.nodeOut + s.nodeSend);
      assert Upstream(Next(env, s, ManagerTake)) == s.up + s.nodeOut + s.nodeSend;
    }
  }

  lemma DropsOther(u: seq<Payload>, v: seq<Payload>, x: seq<Payload>, p: Payload, y: seq<Payload>)
    requires u == x + [p] + y && v == x + y && p != HELLO
    ensures HELLO !in u ==> HELLO !in v
    ensures HelloFirst(u) ==> HelloFirst(v)
  {
    if u[0] == HELLO && HELLO !in u[1..] {
      assert x != [] && v[0] == u[0];
      forall q <- v[1..]
        ensures q in u[1..]
      {
        assert v[1..] == x[1..] + y && u[1..] == x[1..] + [p] + y;
      }
    }
  }

  lemma SaysOnce(u: seq<Payload>, p: Payload)
    ensures HELLO !in u && p != HELLO ==> HELLO !in u + [p]
    ensures HelloFirst(u) && p != HELLO ==> HelloFirst(u + [p])
    ensures u == [] && p == HELLO ==> HelloFirst(u + [p])
  {
    if u != [] {
      assert (u + [p])[1..] == u[1..] + [p];
    }
  }

  lemma SendStaysRegistered(env: Env, s: SessionState)
    requires RegistersFirst(env, s) && WithinBounds(env, s) && Enabled(env, s, NodeSend)
    ensures RegistersFirst(env, Next(env, s, NodeSend))
  {
    UpstreamEnds(env, s);
    SaysOnce(Upstream(s), Saying(s.loop));
  }

  lemma TakeStaysRegistered(env: Env, s: SessionState)
    requires RegistersFirst(env, s) && WithinBounds(env, s) && Enabled(env, s, ManagerTake)
    ensures RegistersFirst(env, Next(env, s, ManagerTake))
  {
    UpstreamEnds(env, s);
    ReportFindsFlushDone(env, s);
    assert Upstream(s)[1..] == Upstream(Next(env, s, ManagerTake));
  }

  lemma EncodeStaysRegistered(env: Env, s: SessionState)
    requires RegistersFirst(env, s) && WithinBounds(env, s) && Enabled(env, s, NodeEncode)
    ensures RegistersFirst(env, Next(env, s, NodeEncode))
  {
    var x, y := UpstreamEncodes(env, s);
    if !Encodes(env, s.nodeSend[0]) {
      DropsOther(Upstream(s), Upstream(Next(env, s, NodeEncode)), x, s.nodeSend[0], y);
    }
  }

  lemma StaysRegistered(env: Env, s: SessionState, a: Act)
    requires RegistersFirst(env, s) && WithinBounds(env, s) && Enabled(env, s, a)
    ensures RegistersFirst(env, Next(env, s, a))
  {
    match a
    case NodeEncode => EncodeStaysRegistered(env, s);
    case NodeWrite => UpstreamCarries(env, s, a);
    case ManagerRead => UpstreamCarries(env, s, a);
    case NodeSend => SendStaysRegistered(env, s);
    case ManagerTake => TakeStaysRegistered(env, s);
    case _ =>
  }

  lemma StaysWithinBounds(env: Env, s: SessionState, a: Act)
    requires WithinBounds(env, s) && Enabled(env, s, a)
    ensures WithinBounds(env, Next(env, s, a))
  {
  }

  lemma FlowsKeepInv(env: Env, s: SessionState, a: Act)
    requires Ready(env) && Inv(env, s) && Enabled(env, s, a)
    ensures var t := Next(env, s, a);
            TasksFlow(env, t) && RepliesFlow(env, t) && RepliesGenuine(env, t) && RegistersFirst(env, t) && WithinBounds(env, t)
  {
    if s.loop.Exec? {
      NewToNode(env, s);
    }
    TasksKeepFlowing(env, s, a);
    RepliesKeepFlowing(env, s, a);
    RepliesStayGenuine(env, s, a);
    StaysRegistered(env, s, a);
    StaysWithinBounds(env, s, a);
  }

  /** The acts that neither change the table nor move the flush. */
  lemma OthersKeepRows(env: Env, s: SessionState, a: Act)
    requires Enabled(env, s, a) && !a.ManagerFlush? && !a.ManagerMark? && !a.ManagerTake?
    ensures var t := Next(env, s, a);
            && t.rows == s.rows && t.handler == s.handler && t.todo == s.todo && t.received == s.received && t.window == s.window
            && (a != NodeRun ==> t.cache == s.cache && t.ran == s.ran)
  {
    match a
    case NodeRun =>
    case _ =>
  }

  lemma FlushKeepsFilters(env: Env, s: SessionState, a: Act)
    requires Enabled(env, s, a) && (a.ManagerFlush? || a.ManagerMark?)
    ensures var t := Next(env, s, a);
            t.received == s.received && t.window == s.window && t.cache == s.cache && t.ran == s.ran
  {
  }

  lemma QuietActsKeepRows(env: Env, s: SessionState, a: Act)
    requires Ready(env) && RowsFollow(env, s.rows, s.handler, s.todo, s.received) && Unseen(env, s)
    requires Enabled(env, s, a) && !a.ManagerTake? && !a.NodeRun?
    ensures var t := Next(env, s, a);
            RowsFollow(env, t.rows, t.handler, t.todo, t.received) && Unseen(env, t)
  {
    match a
    case ManagerFlush =>
      FlushKeepsRows(env, s);
      FlushKeepsFilters(env, s, a);
    case ManagerMark =>
      MarkKeepsRows(env, s);
      FlushKeepsFilters(env, s, a);
    case _ => OthersKeepRows(env, s, a);
  }

  lemma RunKeepsRows(env: Env, s: SessionState)
    requires RowsFollow(env, s.rows, s.handler, s.todo, s.received) && Unseen(env, s)
    requires Enabled(env, s, NodeRun) && s.loop.task.taskId !in s.cache.seen
    ensures var t := Next(env, s, NodeRun);
            RowsFollow(env, t.rows, t.handler, t.todo, t.received) && Unseen(env, t)
  {
    RunKeepsUnseen(env, s);
    OthersKeepRows(env, s, NodeRun);
  }

  lemma RowsKeepInv(env: Env, s: SessionState, a: Act)
    requires Ready(env) && Inv(env, s) && Enabled(env, s, a)
    ensures var t := Next(env, s, a);
            RowsFollow(env, t.rows, t.handler, t.todo, t.received) && Unseen(env, t)
  {
    match a
    case ManagerTake => TakeKeepsRows(env, s);
    case NodeRun =>
      NewToNode(env, s);
      RunKeepsRows(env, s);
    case _ => QuietActsKeepRows(env, s, a);
  }

  lemma NextKeepsInv(env: Env, s: SessionState, a: Act)
    requires Ready(env) && Inv(env, s) && Enabled(env, s, a)
    ensures Inv(env, Next(env, s, a))
  {
    FlowsKeepInv(env, s, a);
    RowsKeepInv(env, s, a);
  }

  lemma {:induction false} RunsKeepInv(env: Env, ticks: nat, ss: seq<SessionState>, acts: seq<Act>, k: nat)
    requires Ready(env) && IsRun(env, ticks, ss, acts) && k < |ss|
    ensures Inv(env, ss[k])
  {
    if k == 0 {
      StartHolds(env, ticks);
    } else {
      RunsKeepInv(env, ticks, ss, acts, k - 1);
      NextKeepsInv(env, ss[k - 1], acts[k - 1]);
    }
  }
}
