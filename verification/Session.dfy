/**
 One connected session, goroutine by goroutine and buffer by buffer: the Manager's connection
 handler, the Node's session loop, and the read and write pumps of both ends, over a link that
 stays up and holds at most `cap` frames in each direction.
 */
module Sessions {
  import opened Protocol
  import opened Windows
  import opened Executors
  import opened Tasks
  import opened Dispatchers

  /**
   What a session starts from and meets: the tables as they are when the node registers, the clock
   readings and runs that each task will meet, and which frames the encoder accepts.
   */
  datatype Env = Env(
    rows0: Table,
    window0: Window<Id>,
    cache0: Cache,
    node: NodeId,
    listing: seq<Task>,
    now: int,
    known: set<string>,
    world: Id -> World,
    sentAt: Id -> int,
    doneAt: Id -> int,
    fits: Task -> bool,
    reportFits: Result -> bool,
    cap: nat)

  ghost predicate Ready(env: Env) {
    && WellKeyed(env.rows0)
    && Listing(env.rows0, env.node, env.listing)
    && (forall t <- env.listing :: t.taskId != "" && t.taskId !in env.window0.seen && t.taskId !in env.cache0.seen)
    && env.cap > 0
  }

  /** The Manager's handler: receiving, flushing the queue, or about to mark a sent task. */
  datatype Handler = Receiving | Flushing | Marking(task: Task)

  /** The Node's loop: waiting, or about to send or run something. */
  datatype Loop = Greet | GoOnline | Waiting | Beat | Acknowledge(task: Task) | Exec(task: Task) | Answer(result: Result)

  /**
   `todo` is the part of the listing the flush has not dealt with. A task in transit stands for its
   instruction frame. `registered`, `ran` and `received` record what has happened.
   */
  datatype SessionState = SessionState(
    rows: Table,
    window: Window<Id>,
    handler: Handler,
    todo: seq<Task>,
    managerSend: seq<Task>,
    managerOut: seq<Task>,
    down: seq<Task>,
    nodeIn: seq<Task>,
    loop: Loop,
    cache: Cache,
    nodeSend: seq<Payload>,
    nodeOut: seq<Payload>,
    up: seq<Payload>,
    managerIn: seq<Payload>,
    ticks: nat,
    registered: bool,
    ran: seq<Task>,
    received: seq<Id>)

  function Start(env: Env, ticks: nat): SessionState {
    SessionState(env.rows0, env.window0, Receiving, env.listing, [], [], [], [],
          Greet, env.cache0, [], [], [], [], ticks, false, [], [])
  }

  datatype Act =
    | NodeSend | NodeTick | NodeTake | NodeRun | NodeEncode | NodeWrite | NodeRead
    | ManagerTake | ManagerFlush | ManagerMark | ManagerEncode | ManagerWrite | ManagerRead

  predicate Enabled(env: Env, s: SessionState, a: Act) {
    match a
    case NodeSend => !s.loop.Waiting? && !s.loop.Exec? && |s.nodeSend| < SEND_BUFFER
    case NodeTick => s.loop.Waiting? && s.ticks > 0
    case NodeTake => s.loop.Waiting? && s.nodeIn != []
    case NodeRun => s.loop.Exec?
    case NodeEncode => s.nodeSend != [] && s.nodeOut == []
    case NodeWrite => s.nodeOut != [] && |s.up| < env.cap
    case NodeRead => s.down != [] && s.nodeIn == []
    case ManagerTake => s.handler.Receiving? && s.managerIn != []
    case ManagerFlush =>
      s.handler.Flushing? && (s.todo == [] || PastDeadline(s.todo[0].deadline, env.now) || |s.managerSend| < SEND_BUFFER)
    case ManagerMark => s.handler.Marking?
    case ManagerEncode => s.managerSend != [] && s.managerOut == []
    case ManagerWrite => s.managerOut != [] && |s.down| < env.cap
    case ManagerRead => s.up != [] && s.managerIn == []
  }

  function Saying(loop: Loop): Payload {
    match loop
    case Greet => Notify(Register)
    case GoOnline => Notify(Event("online"))
    case Acknowledge(t) => Ack(t.taskId)
    case Answer(r) => Notify(Report(r))
    case _ => Notify(Heartbeat)
  }

  function AfterSaying(loop: Loop): Loop {
    match loop
    case Greet => GoOnline
    case Acknowledge(t) => Exec(t)
    case _ => Waiting
  }

  function ResultOf(env: Env, t: Task): Result {
    Outcome(env.known, t.taskId, InstructionFor(t), env.world(t.taskId))
  }

  predicate Encodes(env: Env, p: Payload) {
    p.Notify? && p.notification.Report? ==> env.reportFits(p.notification.result)
  }

  function Take(env: Env, s: SessionState): SessionState
    requires s.managerIn != []
  {
    var p := s.managerIn[0];
    var t := s.(managerIn := []);
    if p == Notify(Register) then t.(handler := Flushing, registered := true)
    else if p.Notify? && p.notification.Report? then
      var r := p.notification.result;
      var (rows, window) := Handled(s.rows, s.window, r, env.doneAt(r.refId), DEDUP_WINDOW);
      t.(rows := rows, window := window, received := s.received + [r.refId])
    else t
  }

  function Flush(env: Env, s: SessionState): SessionState {
    if s.todo == [] then s.(handler := Receiving)
    else if PastDeadline(s.todo[0].deadline, env.now) then
      s.(rows := SetState(s.rows, s.todo[0].taskId, Expired, env.now), todo := s.todo[1..])
    else
      s.(managerSend := s.managerSend + [s.todo[0]], todo := s.todo[1..], handler := Marking(s.todo[0]))
  }

  function RunOne(env: Env, s: SessionState, t: Task): SessionState {
    if t.taskId in s.cache.seen then
      s.(loop := Answer(s.cache.seen[t.taskId]))
    else
      var r := ResultOf(env, t);
      s.(loop := Answer(r), cache := Remember(s.cache, t.taskId, r, REPLAY_WINDOW), ran := s.ran + [t])
  }

  function Next(env: Env, s: SessionState, a: Act): SessionState
    requires Enabled(env, s, a)
  {
    match a
    case NodeSend => s.(nodeSend := s.nodeSend + [Saying(s.loop)], loop := AfterSaying(s.loop))
    case NodeTick => s.(loop := Beat, ticks := s.ticks - 1)
    case NodeTake => s.(loop := Acknowledge(s.nodeIn[0]), nodeIn := [])
    case NodeRun => RunOne(env, s, s.loop.task)
    case NodeEncode => s.(nodeSend := s.nodeSend[1..], nodeOut := if Encodes(env, s.nodeSend[0]) then [s.nodeSend[0]] else [])
    case NodeWrite => s.(up := s.up + s.nodeOut, nodeOut := [])
    case NodeRead => s.(nodeIn := [s.down[0]], down := s.down[1..])
    case ManagerTake => Take(env, s)
    case ManagerFlush => Flush(env, s)
    case ManagerMark =>
      s.(rows := SetState(s.rows, s.handler.task.taskId, Sent, env.sentAt(s.handler.task.taskId)), handler := Flushing)
    case ManagerEncode => s.(managerSend := s.managerSend[1..], managerOut := if env.fits(s.managerSend[0]) then [s.managerSend[0]] else [])
    case ManagerWrite => s.(down := s.down + s.managerOut, managerOut := [])
    case ManagerRead => s.(managerIn := [s.up[0]], up := s.up[1..])
  }

  ghost predicate IsRun(env: Env, ticks: nat, ss: seq<SessionState>, acts: seq<Act>) {
    && |ss| == |acts| + 1
    && ss[0] == Start(env, ticks)
    && forall k :: 0 <= k < |acts| ==> Enabled(env, ss[k], acts[k]) && ss[k + 1] == Next(env, ss[k], acts[k])
  }

  /** Nothing is left to do, except perhaps further heartbeats. */
  predicate Quiet(s: SessionState) {
    && s.handler.Receiving? && s.loop.Waiting?
    && s.managerSend == [] && s.managerOut == [] && s.down == [] && s.nodeIn == []
    && s.nodeSend == [] && s.nodeOut == [] && s.up == [] && s.managerIn == []
  }

  /** What remains of a session's work, in steps; every act uses some of it up. */
  function Work(s: SessionState): nat {
    (match s.handler case Receiving => 0 case Flushing => 1 case Marking(_) => 2)
    + (match s.loop case Greet => 12 case GoOnline => 6 case Waiting => 0 case Beat => 6
       case Acknowledge(_) => 13 case Exec(_) => 7 case Answer(_) => 6)
    + 20 * |s.todo| + 17 * |s.managerSend| + 16 * |s.managerOut| + 15 * |s.down| + 14 * |s.nodeIn|
    + 5 * |s.nodeSend| + 4 * |s.nodeOut| + 3 * |s.up| + 2 * |s.managerIn| + 7 * s.ticks
  }

  lemma ActsUseUpWork(env: Env, s: SessionState, a: Act)
    requires Enabled(env, s, a) && |s.managerOut| <= 1 && |s.nodeOut| <= 1
    ensures Work(Next(env, s, a)) < Work(s)
  {
  }
}
