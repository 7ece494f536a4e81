/**
 One direction of a connection, in the steps its goroutines take: any number of senders, the
 bounded send channel, the write pump, the link, and the reader at the other end. The sending end
 can be closed, and the link can fail, at any moment.
 */
module Pipelines {
  import opened Protocol

  /** The write pump: choosing what to do next, encoding and writing a frame, or returned. */
  datatype Writer<F> = Selecting | Holding(frame: F) | Stopped

  /**
   `waiting` holds the Send calls that have found the connection open and now wait for room;
   `accepted`, `written` and `delivered` record what has come by.
   */
  datatype Pipe<F> = Pipe(
    closed: bool,
    linkUp: bool,
    waiting: map<nat, F>,
    sendCh: seq<F>,
    writer: Writer<F>,
    wire: seq<F>,
    accepted: seq<F>,
    written: seq<F>,
    delivered: seq<F>)

  function Fresh<F>(): Pipe<F> {
    Pipe(false, true, map[], [], Selecting, [], [], [], [])
  }

  /**
   `Begin` is the first select of Send and `Accept` and `GiveUp` the outcomes of its second. A
   closed connection does not keep a select from taking another ready case. A failed write may
   nevertheless have put its frame on the link.
   */
  datatype Step<F> =
    | Begin(caller: nat, frame: F)
    | Accept(caller: nat)
    | GiveUp(caller: nat)
    | TakeFrame
    | SkipFrame
    | WriteFrame
    | FailWrite(sentAnyway: bool)
    | StopWriter
    | Close
    | FailLink
    | LoseTail(kept: nat)
    | Deliver

  predicate Enabled<F>(encodes: F -> bool, p: Pipe<F>, s: Step<F>) {
    match s
    case Begin(i, _) => i !in p.waiting
    case Accept(i) => i in p.waiting && |p.sendCh| < SEND_BUFFER
    case GiveUp(i) => i in p.waiting
    case TakeFrame => p.writer.Selecting? && p.sendCh != []
    case SkipFrame => p.writer.Holding? && !encodes(p.writer.frame)
    case WriteFrame => p.writer.Holding? && encodes(p.writer.frame) && p.linkUp
    case FailWrite(sentAnyway) => p.writer.Holding? && encodes(p.writer.frame) && (sentAnyway ==> p.linkUp)
    case StopWriter => p.writer.Selecting? && p.closed
    case LoseTail(kept) => !p.linkUp && kept <= |p.wire|
    case Deliver => p.wire != []
    case _ => true
  }

  function Next<F>(encodes: F -> bool, p: Pipe<F>, s: Step<F>): Pipe<F>
    requires Enabled(encodes, p, s)
  {
    match s
    case Begin(i, f) => if p.closed then p else p.(waiting := p.waiting[i := f])
    case Accept(i) =>
      p.(waiting := p.waiting - {i}, sendCh := p.sendCh + [p.waiting[i]], accepted := p.accepted + [p.waiting[i]])
    case GiveUp(i) => p.(waiting := p.waiting - {i})
    case TakeFrame => p.(writer := Holding(p.sendCh[0]), sendCh := p.sendCh[1..])
    case SkipFrame => p.(writer := Selecting)
    case WriteFrame => p.(writer := Selecting, wire := p.wire + [p.writer.frame], written := p.written + [p.writer.frame])
    case FailWrite(sentAnyway) =>
      var sent := if sentAnyway then [p.writer.frame] else [];
      p.(writer := Stopped, closed := true, wire := p.wire + sent, written := p.written + sent)
    case StopWriter => p.(writer := Stopped)
    case Close => p.(closed := true)
    case FailLink => p.(linkUp := false)
    case LoseTail(kept) => p.(wire := p.wire[..kept])
    case Deliver => p.(wire := p.wire[1..], delivered := p.delivered + [p.wire[0]])
  }

  ghost predicate IsRun<F>(encodes: F -> bool, ps: seq<Pipe<F>>, steps: seq<Step<F>>) {
    && |ps| == |steps| + 1
    && ps[0] == Fresh()
    && forall k :: 0 <= k < |steps| ==> Enabled(encodes, ps[k], steps[k]) && ps[k + 1] == Next(encodes, ps[k], steps[k])
  }

  /** The frames of `fs` the encoder accepts. */
  function Encodable<F>(encodes: F -> bool, fs: seq<F>): seq<F> {
    if fs == [] then [] else
    Encodable(encodes, fs[..|fs| - 1]) + if encodes(fs[|fs| - 1]) then [fs[|fs| - 1]] else []
  }

  lemma {:induction false} EncodableConcat<F>(encodes: F -> bool, a: seq<F>, b: seq<F>)
    ensures Encodable(encodes, a + b) == Encodable(encodes, a) + Encodable(encodes, b)
  {
    if b == [] {
      assert a + b == a;
    } else {
      EncodableConcat(encodes, a, b[..|b| - 1]);
      assert (a + b)[..|a + b| - 1] == a + b[..|b| - 1];
    }
  }

  lemma EncodableOne<F>(encodes: F -> bool, f: F)
    ensures Encodable(encodes, [f]) == if encodes(f) then [f] else []
  {
    assert [f][..0] == [];
  }

  function Held<F>(encodes: F -> bool, w: Writer<F>): seq<F> {
    if w.Holding? && encodes(w.frame) then [w.frame] else []
  }

  /** Nothing overtakes, and nothing but the unencodable is left out, up to where the writer has got. */
  ghost predicate Conserves<F>(encodes: F -> bool, p: Pipe<F>) {
    && |p.sendCh| <= SEND_BUFFER
    && (if p.writer.Stopped? then p.written <= Encodable(encodes, p.accepted)
        else p.written + Held(encodes, p.writer) + Encodable(encodes, p.sendCh) == Encodable(encodes, p.accepted))
    && (if p.linkUp then p.delivered + p.wire == p.written else p.delivered + p.wire <= p.written)
  }

  lemma AcceptConserves<F>(encodes: F -> bool, p: Pipe<F>, i: nat)
    requires Conserves(encodes, p) && Enabled(encodes, p, Accept(i))
    ensures Conserves(encodes, Next(encodes, p, Accept(i)))
  {
    var f := p.waiting[i];
    EncodableConcat(encodes, p.accepted, [f]);
    EncodableConcat(encodes, p.sendCh, [f]);
    EncodableOne(encodes, f);
    Associate(p.written + Held(encodes, p.writer), Encodable(encodes, p.sendCh), Encodable(encodes, [f]));
  }

  lemma Associate<F>(a: seq<F>, b: seq<F>, c: seq<F>)
    ensures a + b + c == a + (b + c)
  {
  }

  lemma TakeConserves<F>(encodes: F -> bool, p: Pipe<F>)
    requires Conserves(encodes, p) && Enabled(encodes, p, TakeFrame)
    ensures Conserves(encodes, Next(encodes, p, TakeFrame))
  {
    var f, rest := p.sendCh[0], p.sendCh[1..];
    assert p.sendCh == [f] + rest;
    EncodableConcat(encodes, [f], rest);
    EncodableOne(encodes, f);
    Regroup(p.written, Encodable(encodes, [f]), Encodable(encodes, rest));
  }

  lemma Regroup<F>(a: seq<F>, b: seq<F>, c: seq<F>)
    ensures a + [] + (b + c) == a + b + c
  {
  }

  lemma WriteConserves<F>(encodes: F -> bool, p: Pipe<F>, s: Step<F>)
    requires Conserves(encodes, p) && Enabled(encodes, p, s) && (s.WriteFrame? || s.FailWrite?)
    ensures Conserves(encodes, Next(encodes, p, s))
  {
    var q := Next(encodes, p, s);
    var f, r := p.writer.frame, Encodable(encodes, p.sendCh);
    assert p.written + [f] + r == p.written + ([f] + r);
    assert p.delivered + (p.wire + [f]) == p.delivered + p.wire + [f];
    if s.WriteFrame? {
      assert q.written + [] + r == Encodable(encodes, p.accepted);
    }
  }

  lemma NextConserves<F>(encodes: F -> bool, p: Pipe<F>, s: Step<F>)
    requires Conserves(encodes, p) && Enabled(encodes, p, s)
    ensures Conserves(encodes, Next(encodes, p, s))
  {
    match s
    case Accept(i) => AcceptConserves(encodes, p, i);
    case TakeFrame => TakeConserves(encodes, p);
    case WriteFrame => WriteConserves(encodes, p, s);
    case FailWrite(_) => WriteConserves(encodes, p, s);
    case Deliver =>
      assert p.wire == [p.wire[0]] + p.wire[1..];
      assert p.delivered + p.wire == p.delivered + [p.wire[0]] + p.wire[1..];
    case LoseTail(kept) =>
      assert p.wire == p.wire[..kept] + p.wire[kept..];
    case _ =>
  }

  lemma {:induction false} RunsConserve<F>(encodes: F -> bool, ps: seq<Pipe<F>>, steps: seq<Step<F>>, k: nat)
    requires IsRun(encodes, ps, steps) && k < |ps|
    ensures Conserves(encodes, ps[k])
  {
    if k > 0 {
      RunsConserve(encodes, ps, steps, k - 1);
      NextConserves(encodes, ps[k - 1], steps[k - 1]);
    }
  }

  /**
   Pipeline conservation, for every run: while the link is up and the writer has not returned, the
   encodable frames accepted are those delivered, then in transit, then held, then still buffered.
   */
  lemma NothingLostWhileUp<F>(encodes: F -> bool, ps: seq<Pipe<F>>, steps: seq<Step<F>>, k: nat)
    requires IsRun(encodes, ps, steps) && k < |ps|
    requires ps[k].linkUp && !ps[k].writer.Stopped?
    ensures Encodable(encodes, ps[k].accepted) ==
            ps[k].delivered + ps[k].wire + Held(encodes, ps[k].writer) + Encodable(encodes, ps[k].sendCh)
  {
    RunsConserve(encodes, ps, steps, k);
  }

  /** Whatever fails and whenever, what the peer receives is a first part of what was accepted. */
  lemma DeliveredIsPrefix<F>(encodes: F -> bool, ps: seq<Pipe<F>>, steps: seq<Step<F>>, k: nat)
    requires IsRun(encodes, ps, steps) && k < |ps|
    ensures ps[k].delivered <= Encodable(encodes, ps[k].accepted)
  {
    RunsConserve(encodes, ps, steps, k);
    assert ps[k].delivered <= ps[k].delivered + ps[k].wire <= ps[k].written;
  }

  /**
   After a Close, only Send calls that were already waiting can still be accepted: none begun later
   ever waits, so each acceptance uses up one that waited at the Close.
   */
  lemma {:induction false} NoSendBegunAfterClose<F>(encodes: F -> bool, ps: seq<Pipe<F>>, steps: seq<Step<F>>, k: nat, j: nat)
    requires IsRun(encodes, ps, steps) && k <= j < |ps| && ps[k].closed
    ensures ps[j].closed
    ensures ps[j].waiting.Items <= ps[k].waiting.Items
    ensures |ps[j].accepted| - |ps[k].accepted| + |ps[j].waiting| <= |ps[k].waiting|
  {
    if k < j {
      NoSendBegunAfterClose(encodes, ps, steps, k, j - 1);
      ClosedStep(encodes, ps[j - 1], steps[j - 1]);
    }
  }

  lemma ClosedStep<F>(encodes: F -> bool, p: Pipe<F>, s: Step<F>)
    requires Enabled(encodes, p, s) && p.closed
    ensures var q := Next(encodes, p, s);
            q.closed && q.waiting.Items <= p.waiting.Items && |q.accepted| + |q.waiting| <= |p.accepted| + |p.waiting|
  {
    if s.Accept? || s.GiveUp? {
      RemoveOne(p.waiting, s.caller);
    }
  }

  lemma RemoveOne<F>(m: map<nat, F>, i: nat)
    requires i in m
    ensures |m - {i}| == |m| - 1
    ensures (m - {i}).Items <= m.Items
  {
    assert (m - {i}).Keys == m.Keys - {i};
    assert |(m - {i}).Keys| == |m - {i}| && |m.Keys| == |m|;
  }
}
