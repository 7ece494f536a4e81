/** The Node's command executor: result shaping, the deadline refusal, and the replay cache. */
module Executors {
  import opened Protocol
  import opened Windows

  const MAX_OUTPUT_BYTES: nat := 0x1_0000
  const REPLAY_WINDOW: nat := 1024

  /** How a child process ended: no error, an exit status, or an error that carries none. */
  datatype Exit = Clean | Exited(code: int) | Broken

  datatype ShellRun = ShellRun(stdout: string, stderr: string, exit: Exit, durationMs: int, deadlineHit: bool)

  datatype HandlerRun = HandlerRun(stdout: string, code: int, err: Option<string>, durationMs: int, deadlineHit: bool)

  /** What the environment supplies to one execution: the Node's clock, and the run itself. */
  datatype World = World(now: int, shell: ShellRun, handler: HandlerRun)

  function Truncate(s: string): (string, bool) {
    if |s| > MAX_OUTPUT_BYTES then (s[..MAX_OUTPUT_BYTES], true) else (s, false)
  }

  function ExitCode(exit: Exit): int {
    match exit
    case Clean => 0
    case Exited(code) => code
    case Broken => -1
  }

  /** The result of an instruction that was never run. */
  function NotRun(id: Id, reason: string): Result {
    Result(id, -1, "", reason, 0, false, false)
  }

  function ShellResult(id: Id, run: ShellRun): Result {
    var (out, t1) := Truncate(run.stdout);
    var (err, t2) := Truncate(run.stderr);
    Result(id, if run.deadlineHit then -1 else ExitCode(run.exit), out, err, run.durationMs, t1 || t2, run.deadlineHit)
  }

  function HandlerResult(id: Id, run: HandlerRun): Result {
    var (out, t1) := Truncate(run.stdout);
    match run.err
    case None => Result(id, run.code, out, "", run.durationMs, t1, run.deadlineHit)
    case Some(e) =>
      var (err, t2) := Truncate(e);
      Result(id, if run.code == 0 then -1 else run.code, out, err, run.durationMs, t1 || t2, run.deadlineHit)
  }

  predicate PastDeadline(deadline: int, now: int) {
    deadline > 0 && now > deadline
  }

  /** The result of an instruction whose id the cache does not hold. */
  function Outcome(known: set<string>, id: Id, instr: Instruction, w: World): (r: Result)
    ensures r.refId == id
  {
    if PastDeadline(instr.deadline, w.now) then NotRun(id, "deadline exceeded before execution")
    else if instr.kind == KIND_SHELL then ShellResult(id, w.shell)
    else if instr.kind == KIND_PREDEFINED then
      if instr.name in known then HandlerResult(id, w.handler)
      else NotRun(id, "unknown predefined command: " + instr.name)
    else NotRun(id, "unknown instruction kind")
  }

  /** A process or handler is really started, and not past the deadline. */
  predicate Starts(known: set<string>, instr: Instruction, now: int) {
    && (instr.deadline <= 0 || now <= instr.deadline)
    && (instr.kind == "shell" || (instr.kind == "predefined" && instr.name in known))
  }

  /** The run that an instruction starts hits its timeout. */
  predicate HitsTimeout(instr: Instruction, w: World) {
    if instr.kind == "shell" then w.shell.deadlineHit else w.handler.deadlineHit
  }

  /** The run that an instruction starts ends by itself and well. */
  predicate EndsWell(instr: Instruction, w: World) {
    if instr.kind == "shell" then !w.shell.deadlineHit && w.shell.exit in {Clean, Exited(0)}
    else !w.handler.deadlineHit && w.handler.code == 0 && w.handler.err.None?
  }

  /** A zero exit code without a timeout is reported exactly when something ran, in time, and ended well. */
  lemma SuccessMeansRan(known: set<string>, id: Id, instr: Instruction, w: World)
    ensures var r := Outcome(known, id, instr, w);
            r.exitCode == 0 && !r.timedOut <==> Starts(known, instr, w.now) && EndsWell(instr, w)
    ensures Outcome(known, id, instr, w).timedOut <==> Starts(known, instr, w.now) && HitsTimeout(instr, w)
  {
    assert KIND_SHELL[0] != KIND_PREDEFINED[0];
  }

  /** An output as it is reported: all of it, or its first 64 KiB. */
  predicate Clipped(out: string, written: string) {
    if |written| <= 65_536 then out == written else out == written[..65_536]
  }

  /** A shell command that is started: what is reported of its run, part by part. */
  lemma ShellRunIsReported(known: set<string>, id: Id, instr: Instruction, w: World)
    requires instr.kind == "shell" && (instr.deadline <= 0 || w.now <= instr.deadline)
    ensures var r, run := Outcome(known, id, instr, w), w.shell;
            && r.refId == id && r.durationMs == run.durationMs
            && r.timedOut == run.deadlineHit
            && (run.deadlineHit ==> r.exitCode == -1)
            && (!run.deadlineHit && run.exit == Clean ==> r.exitCode == 0)
            && (!run.deadlineHit && run.exit.Exited? ==> r.exitCode == run.exit.code)
            && (!run.deadlineHit && run.exit == Broken ==> r.exitCode == -1)
            && Clipped(r.stdout, run.stdout) && Clipped(r.stderr, run.stderr)
            && (r.truncated <==> |run.stdout| > 65_536 || |run.stderr| > 65_536)
  {
  }

  /** A known predefined command that is started: likewise. Its error becomes standard error. */
  lemma HandlerRunIsReported(known: set<string>, id: Id, instr: Instruction, w: World)
    requires instr.kind == "predefined" && instr.name in known && (instr.deadline <= 0 || w.now <= instr.deadline)
    ensures var r, run := Outcome(known, id, instr, w), w.handler;
            var stderr := if run.err.Some? then run.err.value else "";
            && r.refId == id && r.durationMs == run.durationMs
            && r.timedOut == run.deadlineHit
            && r.exitCode == (if run.code == 0 && run.err.Some? then -1 else run.code)
            && Clipped(r.stdout, run.stdout) && Clipped(r.stderr, stderr)
            && (r.truncated <==> |run.stdout| > 65_536 || |stderr| > 65_536)
  {
    assert KIND_SHELL[0] != KIND_PREDEFINED[0];
  }

  /** What is refused, and with which words. */
  lemma RefusalIsReported(known: set<string>, id: Id, instr: Instruction, w: World)
    requires !Starts(known, instr, w.now)
    ensures var r := Outcome(known, id, instr, w);
            && r.refId == id && r.exitCode == -1 && r.stdout == "" && r.durationMs == 0 && !r.truncated && !r.timedOut
            && r.stderr == if 0 < instr.deadline < w.now then "deadline exceeded before execution"
                           else if instr.kind == "predefined" then "unknown predefined command: " + instr.name
                           else "unknown instruction kind"
  {
    assert KIND_SHELL[0] != KIND_PREDEFINED[0];
  }

  /** What a result says of the run: whether it took place, hit its timeout or ended well, and its exit code. */
  predicate TellsRun(known: set<string>, instr: Instruction, w: World, r: Result) {
    && (r.exitCode == 0 && !r.timedOut <==> Starts(known, instr, w.now) && EndsWell(instr, w))
    && (r.timedOut <==> Starts(known, instr, w.now) && HitsTimeout(instr, w))
    && (0 < instr.deadline < w.now ==> r.exitCode == -1 && !r.timedOut)
    && (instr.kind == "shell" && Starts(known, instr, w.now) && !w.shell.deadlineHit ==>
          && (r.exitCode == 0 <==> w.shell.exit in {Clean, Exited(0)})
          && (w.shell.exit.Exited? ==> r.exitCode == w.shell.exit.code)
          && (w.shell.exit.Broken? ==> r.exitCode == -1))
  }

  lemma OutcomeTellsRun(known: set<string>, id: Id, instr: Instruction, w: World)
    ensures TellsRun(known, instr, w, Outcome(known, id, instr, w))
  {
    SuccessMeansRan(known, id, instr, w);
    if instr.kind == "shell" && Starts(known, instr, w.now) {
      ShellRunIsReported(known, id, instr, w);
    }
  }

  /** What is reported is a prefix of what was written, short of it only with the truncation flag. */
  lemma OutputsArePrefixes(id: Id, run: ShellRun)
    ensures var r := ShellResult(id, run);
            && r.stdout <= run.stdout && r.stderr <= run.stderr
            && |r.stdout| <= MAX_OUTPUT_BYTES && |r.stderr| <= MAX_OUTPUT_BYTES
            && (r.truncated <==> r.stdout != run.stdout || r.stderr != run.stderr)
  {
    assert |run.stdout| > MAX_OUTPUT_BYTES ==> |Truncate(run.stdout).0| < |run.stdout|;
    assert |run.stderr| > MAX_OUTPUT_BYTES ==> |Truncate(run.stderr).0| < |run.stderr|;
  }

  /** A handler's error becomes standard error, and never goes with exit code 0. */
  lemma HandlerOutputsArePrefixes(id: Id, run: HandlerRun)
    ensures var r := HandlerResult(id, run);
            var stderr := if run.err.Some? then run.err.value else "";
            && r.stdout <= run.stdout && r.stderr <= stderr
            && |r.stdout| <= MAX_OUTPUT_BYTES && |r.stderr| <= MAX_OUTPUT_BYTES
            && (r.truncated <==> r.stdout != run.stdout || r.stderr != stderr)
            && (r.exitCode == 0 <==> run.code == 0 && run.err.None?)
  {
    assert |run.stdout| > MAX_OUTPUT_BYTES ==> |Truncate(run.stdout).0| < |run.stdout|;
  }

  /** The replay cache: results by instruction id, and the ids in the order they were added. */
  datatype Cache = Cache(seen: map<Id, Result>, order: seq<Id>)

  function NoResults(): Cache {
    Cache(map[], [])
  }

  function Remember(c: Cache, id: Id, r: Result, w: nat): Cache {
    if id in c.seen then c else
    var order := c.order + [id];
    if |order| > w then
      Cache(c.seen[id := r] - {order[0]}, order[1..])
    else
      Cache(c.seen[id := r], order)
  }

  /** The cache without its results: the ids and their order. */
  function Keys(c: Cache): Window<Id> {
    Window(c.seen.Keys, c.order)
  }

  lemma RememberMarks(c: Cache, id: Id, r: Result, w: nat)
    requires id !in c.seen
    ensures Keys(Remember(c, id, r, w)) == Mark(Keys(c), id, w)
  {
  }

  /** One call of Execute: `anew` when the cache did not answer it. */
  datatype Call = Call(id: Id, anew: bool, result: Result)

  function FreshIds(log: seq<Call>): seq<Id> {
    if log == [] then [] else
    var c := log[|log| - 1];
    FreshIds(log[..|log| - 1]) + if c.anew then [c.id] else []
  }

  function CacheOf(log: seq<Call>, w: nat): Cache {
    if log == [] then NoResults() else
    var before := CacheOf(log[..|log| - 1], w);
    var c := log[|log| - 1];
    if c.anew then Remember(before, c.id, c.result, w) else before
  }

  /** The cache answers with the stored result exactly the ids it holds. */
  predicate Answers(c: Cache, call: Call) {
    if call.id in c.seen then !call.anew && call.result == c.seen[call.id] else call.anew
  }

  /** Every call of the log was answered by the cache as it stood. */
  ghost predicate Faithful(log: seq<Call>, w: nat) {
    log == [] || (Faithful(log[..|log| - 1], w) && Answers(CacheOf(log[..|log| - 1], w), log[|log| - 1]))
  }

  /** The latest fresh call for an id. */
  ghost predicate LatestFresh(log: seq<Call>, id: Id, i: int) {
    && 0 <= i < |log| && log[i].anew && log[i].id == id
    && forall k :: i < k < |log| && log[k].id == id ==> !log[k].anew
  }

  lemma {:induction false} FreshIdsConcat(a: seq<Call>, b: seq<Call>)
    ensures FreshIds(a + b) == FreshIds(a) + FreshIds(b)
  {
    if b == [] {
      assert a + b == a;
    } else {
      var n := |b| - 1;
      FreshIdsConcat(a, b[..n]);
      assert (a + b)[..|a + b| - 1] == a + b[..n];
    }
  }

  lemma {:induction false} FaithfulPrefix(log: seq<Call>, w: nat, n: nat)
    requires Faithful(log, w) && n <= |log|
    ensures Faithful(log[..n], w)
    ensures n < |log| ==> Answers(CacheOf(log[..n], w), log[n])
  {
    if n < |log| - 1 {
      FaithfulPrefix(log[..|log| - 1], w, n);
      assert log[..|log| - 1][..n] == log[..n];
    } else {
      assert n == |log| ==> log[..n] == log;
    }
  }

  /** Window refinement, for every faithful log. */
  lemma {:induction false} CacheIsWindow(log: seq<Call>, w: nat)
    requires Faithful(log, w)
    ensures Holds(Keys(CacheOf(log, w)), FreshIds(log), w)
  {
    if log != [] {
      var g, c := log[..|log| - 1], log[|log| - 1];
      CacheIsWindow(g, w);
      if c.anew {
        RememberMarks(CacheOf(g, w), c.id, c.result, w);
        MarkSlides(Keys(CacheOf(g, w)), FreshIds(g), w, c.id);
        assert FreshIds(log) == FreshIds(g) + [c.id];
      } else {
        assert FreshIds(log) == FreshIds(g);
      }
    }
  }

  /** What the cache holds for an id is the result of the latest fresh call for it. */
  lemma {:induction false} CacheHoldsLatest(log: seq<Call>, w: nat, id: Id) returns (i: nat)
    requires Faithful(log, w)
    requires id in CacheOf(log, w).seen
    ensures LatestFresh(log, id, i) && CacheOf(log, w).seen[id] == log[i].result
  {
    var g, c := log[..|log| - 1], log[|log| - 1];
    if c.anew && c.id == id {
      i := |g|;
    } else {
      i := CacheHoldsLatest(g, w, id);
      assert log[i] == g[i];
    }
  }

  lemma FreshIdsAround(log: seq<Call>, i: nat, j: nat)
    requires i < j <= |log| && log[i].anew
    ensures FreshIds(log[..j]) == FreshIds(log[..i]) + [log[i].id] + FreshIds(log[i + 1..j])
  {
    assert log[..j] == log[..i] + [log[i]] + log[i + 1..j];
    FreshIdsConcat(log[..i] + [log[i]], log[i + 1..j]);
    FreshIdsConcat(log[..i], [log[i]]);
    FreshOne(log[i]);
  }

  /**
   Execution spacing: two real executions of one id have at least `w` other ids executed
   between them, whatever the calls were.
   */
  lemma ExecutionSpacing(log: seq<Call>, w: nat, i: nat, j: nat)
    requires Faithful(log, w)
    requires i < j < |log| && log[i].id == log[j].id && log[i].anew && log[j].anew
    ensures |Elements(FreshIds(log[i + 1..j])) - {log[i].id}| >= w
  {
    FaithfulPrefix(log, w, j + 1);
    CacheIsWindow(log[..j + 1], w);
    FreshIdsAround(log, i, j);
    FreshIdsLast(log, j);
    SpacingDistinct(FreshIds(log[..i]), log[i].id, FreshIds(log[i + 1..j]), w);
  }

  lemma FreshIdsLast(log: seq<Call>, j: nat)
    requires j < |log| && log[j].anew
    ensures FreshIds(log[..j + 1]) == FreshIds(log[..j]) + [log[j].id]
  {
    assert log[..j + 1][..j] == log[..j];
  }

  lemma FreshOne(c: Call)
    ensures FreshIds([c]) == if c.anew then [c.id] else []
  {
    assert [c][..0] == [];
  }

  /** Until an id is executed again, every call for it returns exactly what its execution returned. */
  lemma ReplayReturnsFirst(log: seq<Call>, w: nat, i: nat, j: nat)
    requires Faithful(log, w)
    requires i < j < |log| && log[i].id == log[j].id && log[i].anew
    requires forall k :: i < k <= j && log[k].id == log[i].id ==> !log[k].anew
    ensures log[j].result == log[i].result
  {
    var id := log[i].id;
    var upTo := log[..j];
    FaithfulPrefix(log, w, j);
    var k := CacheHoldsLatest(upTo, w, id);
    assert k == i by {
      assert upTo[i] == log[i] && upTo[k] == log[k];
    }
  }

  /** A process that never sees more than `w` ids executes each at most once. */
  lemma ExecutedOnce(log: seq<Call>, w: nat, i: nat, j: nat)
    requires Faithful(log, w) && |Elements(FreshIds(log))| <= w
    requires i < j < |log| && log[i].id == log[j].id
    ensures !(log[i].anew && log[j].anew)
  {
    if log[i].anew && log[j].anew {
      ExecutionSpacing(log, w, i, j);
      var others := Elements(FreshIds(log[i + 1..j])) - {log[i].id};
      FreshIdsAround(log, i, j);
      FreshIdsConcat(log[..j], log[j..]);
      assert log[..j] + log[j..] == log;
      SubsetSize(others + {log[i].id}, Elements(FreshIds(log)));
    }
  }

  class Executor {
    const predefined: set<string>
    var seen: map<Id, Result>
    var seenOrder: seq<Id>
    ghost var log: seq<Call>

    ghost predicate Valid()
      reads this
    {
      && Faithful(log, REPLAY_WINDOW)
      && CacheOf(log, REPLAY_WINDOW) == Cache(seen, seenOrder)
      && (forall id <- seen :: seen[id].refId == id)
    }

    constructor (predefined: set<string>)
      ensures Valid() && log == [] && this.predefined == predefined
    {
      this.predefined := predefined;
      seen, seenOrder := map[], [];
      log := [];
    }

    method Replay(id: Id) returns (prior: Option<Result>)
      ensures prior == if id in seen then Some(seen[id]) else None
    {
      prior := if id in seen then Some(seen[id]) else None;
    }

    method Record(id: Id, r: Result)
      modifies this`seen, this`seenOrder
      ensures Cache(seen, seenOrder) == Remember(Cache(old(seen), old(seenOrder)), id, r, REPLAY_WINDOW)
    {
      if id in seen {
        return;
      }
      seen := seen[id := r];
      seenOrder := seenOrder + [id];
      if |seenOrder| > REPLAY_WINDOW {
        var oldest := seenOrder[0];
        seenOrder := seenOrder[1..];
        seen := seen - {oldest};
      }
    }

    /** One instruction: answered from the cache, refused, or run; the log gains exactly this call. */
    method Execute(id: Id, instr: Instruction, w: World) returns (res: Result)
      requires Valid()
      modifies this
      ensures Valid()
      ensures res.refId == id
      ensures log == old(log) + [Call(id, id !in old(seen), res)]
      ensures res == if id in old(seen) then old(seen[id]) else Outcome(predefined, id, instr, w)
      ensures Cache(seen, seenOrder) == Remember(Cache(old(seen), old(seenOrder)), id, res, REPLAY_WINDOW)
      ensures id !in old(seen) ==> TellsRun(predefined, instr, w, res)
    {
      var prior := Replay(id);
      if prior.Some? {
        res := prior.value;
      } else {
        res := Outcome(predefined, id, instr, w);
        OutcomeTellsRun(predefined, id, instr, w);
        Record(id, res);
      }
      log := log + [Call(id, prior.None?, res)];
      LogGrows(old(log), log[|log| - 1], REPLAY_WINDOW);
    }
  }

  lemma LogGrows(log: seq<Call>, call: Call, w: nat)
    requires Faithful(log, w) && Answers(CacheOf(log, w), call)
    ensures Faithful(log + [call], w)
    ensures CacheOf(log + [call], w) ==
            if call.anew then Remember(CacheOf(log, w), call.id, call.result, w) else CacheOf(log, w)
  {
    assert (log + [call])[..|log|] == log;
  }
}
