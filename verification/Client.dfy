/** The Node's side of one connected session. */
module Clients {
  import opened Protocol
  import opened Executors
  import opened Registries
  import opened Selections

  /** What the session loop selects next; a frame comes with the environment its execution will meet. */
  datatype Arrival =
    | Tick
    | Frame(env: Envelope, world: World)
    | Cancelled
    | ConnDone
    | RecvClosed

  predicate Ends(a: Arrival) {
    a.Cancelled? || a.ConnDone? || a.RecvClosed?
  }

  predicate IsInstruction(a: Arrival) {
    a.Frame? && a.env.payload.Instruct?
  }

  /** The ids of the instructions received, in order. */
  function Instructions(arrivals: seq<Arrival>): seq<Id> {
    if arrivals == [] then [] else
    var a := arrivals[|arrivals| - 1];
    Instructions(arrivals[..|arrivals| - 1]) + if IsInstruction(a) then [a.env.id] else []
  }

  /** The executions `calls` are those of the instructions received, each reporting its own id. */
  ghost predicate Covers(arrivals: seq<Arrival>, calls: seq<Call>) {
    && |calls| == |Instructions(arrivals)|
    && forall k :: 0 <= k < |calls| ==> calls[k].id == calls[k].result.refId == Instructions(arrivals)[k]
  }

  /** Everything the session sends over a connection that stays up. */
  ghost function Trace(arrivals: seq<Arrival>, calls: seq<Call>): seq<Payload>
    requires Covers(arrivals, calls)
  {
    if arrivals == [] then Greeting() else
    var before, a := arrivals[..|arrivals| - 1], arrivals[|arrivals| - 1];
    if IsInstruction(a) then
      var n := |calls| - 1;
      Trace(before, calls[..n]) + Reply(calls[n])
    else
      Trace(before, calls) + if a.Tick? then [Notify(Heartbeat)] else []
  }

  function Greeting(): seq<Payload> {
    [Notify(Register), Notify(Event("online"))]
  }

  function Reply(call: Call): seq<Payload> {
    [Ack(call.id), Notify(Report(call.result))]
  }

  lemma TraceStep(arrivals: seq<Arrival>, calls: seq<Call>, a: Arrival, call: Call)
    requires Covers(arrivals, calls)
    ensures IsInstruction(a) && call.id == call.result.refId == a.env.id ==>
              && Covers(arrivals + [a], calls + [call])
              && Trace(arrivals + [a], calls + [call]) == Trace(arrivals, calls) + Reply(call)
    ensures !IsInstruction(a) ==>
              && Covers(arrivals + [a], calls)
              && Trace(arrivals + [a], calls) == Trace(arrivals, calls) + if a.Tick? then [Notify(Heartbeat)] else []
  {
    assert (arrivals + [a])[..|arrivals|] == arrivals;
    assert (calls + [call])[..|calls|] == calls;
  }

  function WithoutHeartbeats(ps: seq<Payload>): seq<Payload> {
    if ps == [] then [] else
    var p := ps[|ps| - 1];
    WithoutHeartbeats(ps[..|ps| - 1]) + if p == Notify(Heartbeat) then [] else [p]
  }

  function Replies(calls: seq<Call>): seq<Payload> {
    if calls == [] then [] else Replies(calls[..|calls| - 1]) + Reply(calls[|calls| - 1])
  }

  lemma {:induction false} WithoutHeartbeatsConcat(a: seq<Payload>, b: seq<Payload>)
    ensures WithoutHeartbeats(a + b) == WithoutHeartbeats(a) + WithoutHeartbeats(b)
  {
    if b == [] {
      assert a + b == a;
    } else {
      WithoutHeartbeatsConcat(a, b[..|b| - 1]);
      assert (a + b)[..|a + b| - 1] == a + b[..|b| - 1];
    }
  }

  lemma HeartbeatFree(p: Payload, q: Payload)
    ensures WithoutHeartbeats([Notify(Heartbeat)]) == []
    ensures p != Notify(Heartbeat) && q != Notify(Heartbeat) ==> WithoutHeartbeats([p, q]) == [p, q]
  {
    assert [p, q][..1] == [p] && [p][..0] == [] && [Notify(Heartbeat)][..0] == [];
    assert WithoutHeartbeats([p]) == if p == Notify(Heartbeat) then [] else [p];
  }

  /** What one arrival adds to the trace, without heartbeats. */
  lemma TraceGrows(arrivals: seq<Arrival>, calls: seq<Call>)
    requires Covers(arrivals, calls) && arrivals != []
    ensures var before, a := arrivals[..|arrivals| - 1], arrivals[|arrivals| - 1];
            if IsInstruction(a) then
              && calls != [] && Covers(before, calls[..|calls| - 1])
              && WithoutHeartbeats(Trace(arrivals, calls))
                 == WithoutHeartbeats(Trace(before, calls[..|calls| - 1])) + Reply(calls[|calls| - 1])
            else
              Covers(before, calls) && WithoutHeartbeats(Trace(arrivals, calls)) == WithoutHeartbeats(Trace(before, calls))
  {
    var before, a := arrivals[..|arrivals| - 1], arrivals[|arrivals| - 1];
    if IsInstruction(a) {
      var n := |calls| - 1;
      WithoutHeartbeatsConcat(Trace(before, calls[..n]), Reply(calls[n]));
      HeartbeatFree(Reply(calls[n])[0], Reply(calls[n])[1]);
      assert Trace(arrivals, calls) == Trace(before, calls[..n]) + Reply(calls[n]);
    } else {
      WithoutHeartbeatsConcat(Trace(before, calls), [Notify(Heartbeat)]);
      HeartbeatFree(Notify(Register), Notify(Register));
      if !a.Tick? {
        assert Trace(arrivals, calls) == Trace(before, calls);
      }
    }
  }

  /** Heartbeats aside, a session says register, online, and then one ack and one result per instruction, in order. */
  lemma {:induction false} TraceShape(arrivals: seq<Arrival>, calls: seq<Call>)
    requires Covers(arrivals, calls)
    ensures WithoutHeartbeats(Trace(arrivals, calls)) == Greeting() + Replies(calls)
    ensures var ps := WithoutHeartbeats(Trace(arrivals, calls));
            && |ps| == 2 + 2 * |calls| && ps[0] == Notify(Register) && ps[1] == Notify(Event("online"))
            && forall k :: 0 <= k < |calls| ==> ps[2 + 2 * k] == Ack(calls[k].id) && ps[3 + 2 * k] == Notify(Report(calls[k].result))
  {
    RepliesAt(calls);
    if arrivals == [] {
      HeartbeatFree(Greeting()[0], Greeting()[1]);
    } else {
      var before, a := arrivals[..|arrivals| - 1], arrivals[|arrivals| - 1];
      TraceGrows(arrivals, calls);
      TraceShape(before, if IsInstruction(a) then calls[..|calls| - 1] else calls);
    }
  }

  lemma {:induction false} RepliesAt(calls: seq<Call>)
    ensures |Replies(calls)| == 2 * |calls|
    ensures forall k :: 0 <= k < |calls| ==>
              Replies(calls)[2 * k] == Ack(calls[k].id) && Replies(calls)[2 * k + 1] == Notify(Report(calls[k].result))
  {
    if calls != [] {
      RepliesAt(calls[..|calls| - 1]);
    }
  }

  predicate IsNoHeartbeat(p: Payload) {
    p != Notify(Heartbeat)
  }

  function Same(p: Payload): Payload {
    p
  }

  function FrameId(a: Arrival): Id {
    if a.Frame? then a.env.id else ""
  }

  lemma {:induction false} RestIsChosen(ps: seq<Payload>)
    ensures WithoutHeartbeats(ps) == Chosen(ps, IsNoHeartbeat, Same)
  {
    if ps != [] {
      RestIsChosen(ps[..|ps| - 1]);
    }
  }

  lemma {:induction false} InstructionsAreChosen(arrivals: seq<Arrival>)
    ensures Instructions(arrivals) == Chosen(arrivals, IsInstruction, FrameId)
  {
    if arrivals != [] {
      InstructionsAreChosen(arrivals[..|arrivals| - 1]);
    }
  }

  /** The heartbeat-free part of a trace is all of it but the heartbeats, in order. */
  lemma KeepsTheRest(ps: seq<Payload>) returns (at: seq<nat>)
    ensures forall j, k :: 0 <= j < k < |at| ==> at[j] < at[k]
    ensures forall i :: 0 <= i < |ps| && ps[i] != Notify(Heartbeat) ==> i in at
    ensures |WithoutHeartbeats(ps)| == |at|
    ensures forall k :: 0 <= k < |at| ==> at[k] < |ps| && ps[at[k]] != Notify(Heartbeat) && WithoutHeartbeats(ps)[k] == ps[at[k]]
  {
    RestIsChosen(ps);
    at := ChosenAt(ps, IsNoHeartbeat, Same);
  }

  /** Which arrivals are executed: all instructions, in order, whatever their kind. */
  lemma EveryInstructionCounts(arrivals: seq<Arrival>) returns (at: seq<nat>)
    ensures forall j, k :: 0 <= j < k < |at| ==> at[j] < at[k]
    ensures forall i :: 0 <= i < |arrivals| && arrivals[i].Frame? && arrivals[i].env.payload.Instruct? ==> i in at
    ensures |Instructions(arrivals)| == |at|
    ensures forall k :: 0 <= k < |at| ==>
              && at[k] < |arrivals| && arrivals[at[k]].Frame? && arrivals[at[k]].env.payload.Instruct?
              && Instructions(arrivals)[k] == arrivals[at[k]].env.id
  {
    InstructionsAreChosen(arrivals);
    at := ChosenAt(arrivals, IsInstruction, FrameId);
    forall k | 0 <= k < |at|
      ensures at[k] < |arrivals| && IsInstruction(arrivals[at[k]]) && Instructions(arrivals)[k] == FrameId(arrivals[at[k]])
    {
    }
    forall i | 0 <= i < |arrivals| && arrivals[i].Frame? && arrivals[i].env.payload.Instruct?
      ensures i in at
    {
      assert IsInstruction(arrivals[i]);
    }
  }

  lemma TraceOfLast(arrivals: seq<Arrival>, calls: seq<Call>)
    requires Covers(arrivals, calls) && arrivals != []
    ensures var before, a := arrivals[..|arrivals| - 1], arrivals[|arrivals| - 1];
            if IsInstruction(a) then
              && calls != [] && Covers(before, calls[..|calls| - 1])
              && Trace(arrivals, calls) == Trace(before, calls[..|calls| - 1]) + Reply(calls[|calls| - 1])
            else
              && Covers(before, calls)
              && Trace(arrivals, calls) == Trace(before, calls) + if a.Tick? then [Notify(Heartbeat)] else []
  {
  }

  /** A trace has one heartbeat for each tick, besides the greeting and the replies. */
  lemma {:induction false} HeartbeatsAreTicks(arrivals: seq<Arrival>, calls: seq<Call>)
    requires Covers(arrivals, calls)
    ensures multiset(Trace(arrivals, calls))[Notify(Heartbeat)] == multiset(arrivals)[Tick]
    ensures |Trace(arrivals, calls)| == 2 + 2 * |calls| + multiset(arrivals)[Tick]
  {
    if arrivals != [] {
      var before, a := arrivals[..|arrivals| - 1], arrivals[|arrivals| - 1];
      assert arrivals == before + [a];
      TraceOfLast(arrivals, calls);
      HeartbeatsAreTicks(before, if IsInstruction(a) then calls[..|calls| - 1] else calls);
    }
  }

  function Payloads(es: seq<Envelope>): seq<Payload> {
    seq(|es|, i requires 0 <= i < |es| => es[i].payload)
  }

  /** `sent` is what a connection lets through of `trace`: all of it while open, else a first part. */
  ghost predicate LetThrough(sent: seq<Payload>, trace: seq<Payload>, open: bool) {
    sent <= trace && (open ==> sent == trace)
  }

  class Client {
    const conn: Conn
    const executor: Executor

    constructor (conn: Conn, executor: Executor)
      ensures this.conn == conn && this.executor == executor
    {
      this.conn, this.executor := conn, executor;
    }

    /** Sends one payload under a fresh envelope id; a failure is ignored by most callers. */
    method Say(p: Payload, ghost trace: seq<Payload>) returns (ok: bool)
      requires LetThrough(Payloads(conn.accepted), trace, conn.open)
      modifies conn
      ensures LetThrough(Payloads(conn.accepted), trace + [p], conn.open)
      ensures !ok ==> !conn.open && conn.accepted == old(conn.accepted)
    {
      var id: Id := *;
      ok := conn.Send(Envelope(id, p));
      assert ok ==> Payloads(conn.accepted) == old(Payloads(conn.accepted)) + [p];
    }

    /** Acknowledges and executes an instruction and reports its result; ignores every other frame. */
    method HandleFrame(env: Envelope, world: World, ghost trace: seq<Payload>)
      requires executor.Valid()
      requires LetThrough(Payloads(conn.accepted), trace, conn.open)
      modifies conn, executor
      ensures executor.Valid()
      ensures !env.payload.Instruct? ==>
                executor.log == old(executor.log) && LetThrough(Payloads(conn.accepted), trace, conn.open)
      ensures env.payload.Instruct? ==>
                && executor.log != []
                && var call := executor.log[|executor.log| - 1];
                   && call.id == call.result.refId == env.id
                   && executor.log == old(executor.log) + [call]
                   && LetThrough(Payloads(conn.accepted), trace + [Ack(env.id), Notify(Report(call.result))], conn.open)
    {
      if env.payload.Instruct? {
        var _ := Say(Ack(env.id), trace);
        var res := executor.Execute(env.id, env.payload.instruction, world);
        var _ := Say(Notify(Report(res)), trace + [Ack(env.id)]);
        assert trace + [Ack(env.id)] + [Notify(Report(res))] == trace + Reply(executor.log[|executor.log| - 1]);
      }
    }

    /** One turn of the session loop that does not end it. */
    method HandleArrival(a: Arrival, ghost handled: seq<Arrival>, ghost calls: seq<Call>) returns (ghost more: seq<Call>)
      requires executor.Valid() && !Ends(a) && Covers(handled, calls)
      requires LetThrough(Payloads(conn.accepted), Trace(handled, calls), conn.open)
      modifies conn, executor
      ensures executor.Valid() && executor.log == old(executor.log) + more
      ensures Covers(handled + [a], calls + more)
      ensures LetThrough(Payloads(conn.accepted), Trace(handled + [a], calls + more), conn.open)
    {
      more := [];
      match a {
        case Tick =>
          var _ := Say(Notify(Heartbeat), Trace(handled, calls));
        case Frame(env, world) =>
          HandleFrame(env, world, Trace(handled, calls));
          if env.payload.Instruct? {
            more := [executor.log[|executor.log| - 1]];
          }
        case _ =>
      }
      TraceStep(handled, calls, a, if more == [] then Call("", true, NotRun("", "")) else more[0]);
      assert more == [] ==> calls + more == calls;
    }

    /**
     Runs the session over what arrives. Once the registration is accepted, everything that arrives
     before the end is handled, and every instruction executed, in order; and what the connection
     accepts is a gapless first part of the session's trace.
     */
    method Serve(arrivals: seq<Arrival>) returns (ghost registered: bool, ghost handled: seq<Arrival>, ghost calls: seq<Call>)
      requires executor.Valid() && conn.accepted == []
      modifies conn, executor
      ensures executor.Valid()
      ensures handled <= arrivals && forall a <- handled :: !Ends(a)
      ensures if registered then |handled| == |arrivals| || Ends(arrivals[|handled|]) else handled == [] && conn.accepted == []
      ensures Covers(handled, calls) && executor.log == old(executor.log) + calls
      ensures LetThrough(Payloads(conn.accepted), Trace(handled, calls), conn.open)
      ensures conn.open ==> handled == arrivals
    {
      handled, calls := [], [];
      var ok := Say(Notify(Register), []);
      registered := ok;
      if !ok {
        return;
      }
      var _ := Say(Notify(Event("online")), [Notify(Register)]);
      assert [Notify(Register)] + [Notify(Event("online"))] == Greeting();
      var i := 0;
      while i < |arrivals|
        invariant 0 <= i <= |arrivals| && handled == arrivals[..i]
        invariant executor.Valid()
        invariant forall a <- handled :: !Ends(a)
        invariant Covers(handled, calls) && executor.log == old(executor.log) + calls
        invariant LetThrough(Payloads(conn.accepted), Trace(handled, calls), conn.open)
      {
        var a := arrivals[i];
        if Ends(a) {
          conn.Close();
          return;
        }
        ghost var more := HandleArrival(a, handled, calls);
        calls := calls + more;
        i, handled := i + 1, handled + [a];
      }
    }
  }
}
