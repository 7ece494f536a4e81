/**
 Synchronous calls and the results that wake them, in the steps that other goroutines can come
 between: a call registers its waiter, has its task dispatched, and then selects on its channel, its
 context and a timer; a result handler takes the waiter out, and only later puts the task in the
 channel.
 */
module Waiters {
  import opened Protocol
  import opened Tasks

  datatype Exit = CreateError | ContextDone | Pending | Done(task: Task)

  /** `Leaving` has chosen its exit but has not cancelled its waiter yet. */
  datatype Call = Creating | Selecting | Leaving(exit: Exit) | Returned(exit: Exit)

  datatype Wake = Wake(id: Id, task: Task)

  /**
   `wakes` holds the handlers that have taken a waiter out and not yet sent on its channel; `first`
   records what each call was first notified of.
   */
  datatype Board = Board(
    calls: map<Id, Call>,
    dispatched: set<Id>,
    waiters: set<Id>,
    channels: map<Id, seq<Task>>,
    wakes: map<nat, Wake>,
    first: map<Id, Task>)

  const EMPTY := Board(map[], {}, {}, map[], map[], map[])

  datatype Step =
    | Wait(id: Id)
    | Dispatch(id: Id)
    | Created(id: Id)
    | FailCreate(id: Id)
    | EndContext(id: Id)
    | TimeOut(id: Id)
    | Cancel(id: Id)
    | Receive(id: Id)
    | LookUp(handler: nat, id: Id, task: Task)
    | Put(handler: nat)

  predicate InState(b: Board, id: Id, c: Call) {
    id in b.calls && b.calls[id] == c
  }

  /** Task ids are fresh, and a call's result can only come after its dispatch. */
  predicate Enabled(b: Board, s: Step) {
    match s
    case Wait(id) => id !in b.calls && id !in b.dispatched
    case Dispatch(id) => id in b.calls ==> b.calls[id] == Creating
    case Created(id) => InState(b, id, Creating)
    case FailCreate(id) => InState(b, id, Creating)
    case EndContext(id) => InState(b, id, Selecting)
    case TimeOut(id) => InState(b, id, Selecting)
    case Cancel(id) => id in b.calls && b.calls[id].Leaving?
    case Receive(id) => InState(b, id, Selecting) && id in b.channels && b.channels[id] != []
    case LookUp(h, id, _) => h !in b.wakes && id in b.dispatched
    case Put(h) => h in b.wakes && b.wakes[h].id in b.channels && Room(b, h)
  }

  /** The channel is buffered with room for one value. */
  predicate Room(b: Board, h: nat)
    requires h in b.wakes && b.wakes[h].id in b.channels
  {
    |b.channels[b.wakes[h].id]| < 1
  }

  function Next(b: Board, s: Step): Board
    requires Enabled(b, s)
  {
    match s
    case Wait(id) => b.(calls := b.calls[id := Creating], waiters := b.waiters + {id}, channels := b.channels[id := []])
    case Dispatch(id) => b.(dispatched := b.dispatched + {id})
    case Created(id) => b.(calls := b.calls[id := Selecting])
    case FailCreate(id) => b.(calls := b.calls[id := Leaving(CreateError)])
    case EndContext(id) => b.(calls := b.calls[id := Leaving(ContextDone)])
    case TimeOut(id) => b.(calls := b.calls[id := Leaving(Pending)])
    case Cancel(id) => b.(calls := b.calls[id := Returned(b.calls[id].exit)], waiters := b.waiters - {id})
    case Receive(id) =>
      b.(calls := b.calls[id := Returned(Done(b.channels[id][0]))], channels := b.channels[id := b.channels[id][1..]])
    case LookUp(h, id, t) =>
      if id in b.waiters then
        b.(waiters := b.waiters - {id}, wakes := b.wakes[h := Wake(id, t)], first := b.first[id := t])
      else b
    case Put(h) =>
      var w := b.wakes[h];
      b.(wakes := b.wakes - {h}, channels := b.channels[w.id := b.channels[w.id] + [w.task]])
  }

  ghost predicate IsRun(bs: seq<Board>, steps: seq<Step>) {
    && |bs| == |steps| + 1
    && bs[0] == EMPTY
    && forall k :: 0 <= k < |steps| ==> Enabled(bs[k], steps[k]) && bs[k + 1] == Next(bs[k], steps[k])
  }

  ghost predicate Carried(b: Board, id: Id) {
    exists h :: h in b.wakes && b.wakes[h].id == id
  }

  /** Where one call stands: not notified, or its first task is on the way, in the channel, or returned. */
  ghost predicate CallSound(b: Board, id: Id)
    requires id in b.calls
  {
    && id in b.channels
    && (id in b.waiters <==> id !in b.first && !b.calls[id].Returned?)
    && (if id in b.first then
          || (b.channels[id] == [b.first[id]] && !Carried(b, id))
          || (b.channels[id] == [] && Carried(b, id))
          || (b.channels[id] == [] && !Carried(b, id) && b.calls[id] == Returned(Done(b.first[id])))
        else
          b.channels[id] == [] && !Carried(b, id))
    && (b.calls[id].Returned? && b.calls[id].exit.Done? ==>
          id in b.first && b.calls[id].exit.task == b.first[id] && b.channels[id] == [] && !Carried(b, id))
    && (b.calls[id].Leaving? ==> !b.calls[id].exit.Done?)
  }

  /** One handler carries at most one wake for a call, and it is that call's first. */
  ghost predicate WakesSound(b: Board) {
    && (forall h <- b.wakes :: b.wakes[h].id in b.calls && b.wakes[h].id in b.first && b.wakes[h].task == b.first[b.wakes[h].id])
    && (forall g, h :: g in b.wakes && h in b.wakes && g != h ==> b.wakes[g].id != b.wakes[h].id)
  }

  ghost predicate Sound(b: Board) {
    && b.waiters <= b.calls.Keys
    && b.first.Keys <= b.calls.Keys
    && WakesSound(b)
    && forall id <- b.calls :: CallSound(b, id)
  }

  lemma LookUpKeepsSound(b: Board, h: nat, id: Id, t: Task)
    requires Sound(b) && Enabled(b, LookUp(h, id, t))
    ensures Sound(Next(b, LookUp(h, id, t)))
  {
    var c := Next(b, LookUp(h, id, t));
    if id in b.waiters {
      assert CallSound(b, id);
      assert c.wakes[h].id == id;
      forall other <- c.calls
        ensures CallSound(c, other)
      {
        assert CallSound(b, other);
        assert forall g :: g in b.wakes ==> g in c.wakes && c.wakes[g] == b.wakes[g];
        assert other != id ==> (Carried(c, other) <==> Carried(b, other));
      }
    }
  }

  lemma PutKeepsSound(b: Board, h: nat)
    requires Sound(b) && Enabled(b, Put(h))
    ensures Sound(Next(b, Put(h)))
  {
    var c := Next(b, Put(h));
    var w := b.wakes[h];
    forall other <- c.calls
      ensures CallSound(c, other)
    {
      assert CallSound(b, other);
      assert forall g :: g in c.wakes ==> c.wakes[g] == b.wakes[g];
      assert forall g :: g in b.wakes && g != h ==> g in c.wakes;
      assert other != w.id ==> (Carried(c, other) <==> Carried(b, other));
    }
  }

  /** The steps that leave the handlers alone. */
  lemma CallerKeepsSound(b: Board, s: Step)
    requires Sound(b) && Enabled(b, s) && !s.LookUp? && !s.Put?
    ensures Sound(Next(b, s))
  {
    var c := Next(b, s);
    forall other <- c.calls
      ensures CallSound(c, other)
    {
      assert other in b.calls ==> CallSound(b, other);
      assert Carried(c, other) <==> Carried(b, other);
    }
  }

  lemma {:induction false} RunsAreSound(bs: seq<Board>, steps: seq<Step>, k: nat)
    requires IsRun(bs, steps) && k < |bs|
    ensures Sound(bs[k])
  {
    if k > 0 {
      RunsAreSound(bs, steps, k - 1);
      var s := steps[k - 1];
      match s
      case LookUp(h, id, t) => LookUpKeepsSound(bs[k - 1], h, id, t);
      case Put(h) => PutKeepsSound(bs[k - 1], h);
      case _ => CallerKeepsSound(bs[k - 1], s);
    }
  }

  /** A handler that has taken a waiter out never blocks on its channel. */
  lemma PutNeverBlocks(bs: seq<Board>, steps: seq<Step>, k: nat, h: nat)
    requires IsRun(bs, steps) && k < |bs| && h in bs[k].wakes
    ensures Enabled(bs[k], Put(h))
  {
    RunsAreSound(bs, steps, k);
    assert CallSound(bs[k], bs[k].wakes[h].id);
    assert Carried(bs[k], bs[k].wakes[h].id);
  }

  /**
   A result that is looked up before the call has cancelled its waiter always finds it, unless an
   earlier result has already woken the call; and a call that has returned, by whatever exit, leaves
   no waiter behind.
   */
  lemma WaiterIsThereExactly(bs: seq<Board>, steps: seq<Step>, k: nat, id: Id)
    requires IsRun(bs, steps) && k < |bs| && id in bs[k].calls
    ensures id in bs[k].waiters <==> id !in bs[k].first && !bs[k].calls[id].Returned?
  {
    RunsAreSound(bs, steps, k);
    assert CallSound(bs[k], id);
  }

  lemma FirstKept(b: Board, s: Step, id: Id)
    requires Sound(b) && Enabled(b, s) && id in b.first
    ensures id in Next(b, s).first && Next(b, s).first[id] == b.first[id]
  {
    assert CallSound(b, id);
  }

  lemma {:induction false} FirstStays(bs: seq<Board>, steps: seq<Step>, i: nat, j: nat, id: Id)
    requires IsRun(bs, steps) && i <= j < |bs| && id in bs[i].first
    ensures id in bs[j].first && bs[j].first[id] == bs[i].first[id]
  {
    if i < j {
      FirstStays(bs, steps, i, j - 1, id);
      RunsAreSound(bs, steps, j - 1);
      FirstKept(bs[j - 1], steps[j - 1], id);
    }
  }

  /**
   A result that woke a call at step `i` is never lost: ever after it is carried by its handler, or
   is the one value in the call's channel, or is what the call returned.
   */
  lemma WokenIsNotLost(bs: seq<Board>, steps: seq<Step>, i: nat, j: nat)
    requires IsRun(bs, steps) && i < j < |bs|
    requires steps[i].LookUp? && steps[i].id in bs[i].calls
    requires steps[i].id !in bs[i].first && !bs[i].calls[steps[i].id].Returned?
    ensures var id, task, b := steps[i].id, steps[i].task, bs[j];
            && id in b.calls && id in b.channels
            && ((exists h :: h in b.wakes && b.wakes[h] == Wake(id, task))
                || b.channels[id] == [task]
                || b.calls[id] == Returned(Done(task)))
    ensures var c := bs[j].calls[steps[i].id];
            c.Returned? && c.exit.Done? ==> c.exit.task == steps[i].task
  {
    var id := steps[i].id;
    WaiterIsThereExactly(bs, steps, i, id);
    FirstStays(bs, steps, i + 1, j, id);
    RunsAreSound(bs, steps, j);
    assert CallSound(bs[j], id);
    if Carried(bs[j], id) {
      var h :| h in bs[j].wakes && bs[j].wakes[h].id == id;
      assert bs[j].wakes[h] == Wake(id, steps[i].task);
    }
  }
}
