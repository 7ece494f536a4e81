/**
 The Node's configuration file: the line parser that reads it, the printer of `sit node setup`, and
 exactly which values survive the way from one to the other.
 */
module NodeConfigs {
  import opened Protocol
  import opened Text
  import opened Numbers

  const DEFAULT_HEARTBEAT_SEC: int := 30

  /** A line of this many bytes does not fit the scanner's buffer. */
  const MAX_TOKEN: nat := 0x1_0000

  datatype Config = Config(endpoints: seq<string>, stateDir: string, heartbeatSec: int, insecureSkipVerify: bool)

  /** What one line of the file says, whatever stands around it. */
  datatype Line =
    | Blank
    | Item(endpoint: string)
    | Setting(key: string, value: string)
    | Bare

  function Clean(s: string): string {
    Trim(IsQuote, TrimSpace(s))
  }

  function LineOf(raw: string): Line {
    var line := TrimSpace(raw);
    if line == "" || "#" <= line then Blank
    else if "- " <= line then Item(Clean(line[2..]))
    else
      var (key, value, found) := Cut(line, ':');
      if found then Setting(TrimSpace(key), Clean(value)) else Bare
  }

  function Said(lines: seq<string>): (said: seq<Line>)
    ensures |said| == |lines| && forall i :: 0 <= i < |lines| ==> said[i] == LineOf(lines[i])
  {
    if lines == [] then [] else Said(lines[..|lines| - 1]) + [LineOf(lines[|lines| - 1])]
  }

  /** The last line that is neither blank nor an item opened the list of endpoints. */
  predicate InList(said: seq<Line>) {
    said != [] &&
    match said[|said| - 1]
    case Setting(key, _) => key == "endpoints"
    case Bare => false
    case _ => InList(said[..|said| - 1])
  }

  function Endpoints(said: seq<Line>): seq<string> {
    if said == [] then []
    else
      var before := said[..|said| - 1];
      var line := said[|said| - 1];
      if line.Item? && line.endpoint != "" && InList(before) then Endpoints(before) + [line.endpoint]
      else Endpoints(before)
  }

  /** The value of the last setting of `key` that `ok` admits. */
  function LastSetting(said: seq<Line>, key: string, ok: string -> bool): Option<string> {
    if said == [] then None
    else
      var line := said[|said| - 1];
      if line.Setting? && line.key == key && ok(line.value) then Some(line.value)
      else LastSetting(said[..|said| - 1], key, ok)
  }

  /** Line `o` heads a list, and only blank lines, comments and items stand between it and line `i`. */
  ghost predicate Heads(said: seq<Line>, o: int, i: int) {
    0 <= o < i <= |said| && said[o].Setting? && said[o].key == "endpoints" && forall m :: o < m < i ==> said[m].Blank? || said[m].Item?
  }

  /** Line `i` is an endpoint of an open list: only blank lines, comments and items stand between. */
  ghost predicate Listed(said: seq<Line>, i: int) {
    && 0 <= i < |said| && said[i].Item? && said[i].endpoint != ""
    && exists o :: Heads(said, o, i)
  }

  lemma HeadsBefore(said: seq<Line>, o: int, i: int)
    requires said != [] && i < |said|
    ensures Heads(said, o, i) <==> Heads(said[..|said| - 1], o, i)
  {
    var before := said[..|said| - 1];
    assert forall m :: 0 <= m < |before| ==> before[m] == said[m];
  }

  lemma {:induction false} InListExactly(said: seq<Line>)
    ensures InList(said) <==> exists o :: Heads(said, o, |said|)
  {
    if said != [] {
      var n := |said| - 1;
      InListExactly(said[..n]);
      if InList(said) {
        if said[n].Setting? {
          assert Heads(said, n, |said|);
        } else {
          var o :| Heads(said[..n], o, n);
          HeadsBefore(said, o, n);
          assert Heads(said, o, |said|);
        }
      }
      if o :| Heads(said, o, |said|) {
        if o < n {
          assert Heads(said, o, n);
          HeadsBefore(said, o, n);
        }
      }
    }
  }

  lemma ListedBefore(said: seq<Line>, i: nat)
    requires said != [] && i < |said| - 1
    ensures Listed(said, i) <==> Listed(said[..|said| - 1], i)
  {
    var before := said[..|said| - 1];
    assert before[i] == said[i];
    if Listed(said, i) {
      var o :| Heads(said, o, i);
      HeadsBefore(said, o, i);
    }
    if Listed(before, i) {
      var o :| Heads(before, o, i);
      HeadsBefore(said, o, i);
    }
  }

  lemma LastListed(said: seq<Line>)
    requires said != []
    ensures var n := |said| - 1; Listed(said, n) <==> said[n].Item? && said[n].endpoint != "" && InList(said[..n])
  {
    var n := |said| - 1;
    InListExactly(said[..n]);
    forall o
      ensures Heads(said, o, n) <==> Heads(said[..n], o, n)
    {
      HeadsBefore(said, o, n);
    }
  }

  /** The endpoints are those of the listed lines, all of them and in order. */
  lemma {:induction false} EndpointsExactly(said: seq<Line>) returns (at: seq<nat>)
    ensures |at| == |Endpoints(said)| && forall j, k :: 0 <= j < k < |at| ==> at[j] < at[k]
    ensures forall k :: 0 <= k < |at| ==> Listed(said, at[k]) && Endpoints(said)[k] == said[at[k]].endpoint
    ensures forall i :: 0 <= i < |said| && Listed(said, i) ==> i in at
  {
    at := [];
    if said != [] {
      var n := |said| - 1;
      at := EndpointsExactly(said[..n]);
      LastListed(said);
      forall i | 0 <= i < n
        ensures Listed(said, i) <==> Listed(said[..n], i)
      {
        ListedBefore(said, i);
      }
      if Listed(said, n) {
        at := at + [n];
        assert at[|at| - 1] == n;
      }
    }
  }

  /** The last setting of a key that is admitted is the one that counts. */
  lemma {:induction false} LastSettingExactly(said: seq<Line>, key: string, ok: string -> bool, v: string)
    ensures LastSetting(said, key, ok) == Some(v) <==>
            exists i :: 0 <= i < |said| && said[i] == Setting(key, v) && ok(v)
                        && forall j :: i < j < |said| && said[j].Setting? && said[j].key == key ==> !ok(said[j].value)
  {
    if said != [] {
      var n := |said| - 1;
      var before := said[..n];
      LastSettingExactly(before, key, ok, v);
      assert forall i :: 0 <= i < n ==> before[i] == said[i];
      if !(said[n].Setting? && said[n].key == key && ok(said[n].value)) {
        if i :| 0 <= i < |said| && said[i] == Setting(key, v) && ok(v)
                && forall j :: i < j < |said| && said[j].Setting? && said[j].key == key ==> !ok(said[j].value) {
          assert before[i] == Setting(key, v);
        }
      }
    }
  }

  function OrElse(v: Option<string>, default: string): string {
    match v
    case Some(s) => s
    case None => default
  }

  predicate AnyValue(s: string) {
    true
  }

  predicate IsPeriod(s: string) {
    match Atoi(s)
    case Some(n) => n > 0
    case None => false
  }

  function HeartbeatSec(said: seq<Line>): int {
    match LastSetting(said, "heartbeat_sec", IsPeriod)
    case Some(v) => if Atoi(v).Some? then Atoi(v).value else DEFAULT_HEARTBEAT_SEC
    case None => DEFAULT_HEARTBEAT_SEC
  }

  function ConfigOf(said: seq<Line>): Config {
    Config(
      Endpoints(said),
      OrElse(LastSetting(said, "state_dir", AnyValue), ""),
      HeartbeatSec(said),
      OrElse(LastSetting(said, "insecure_skip_verify", AnyValue), "false") == "true")
  }

  function Bytes(s: string): nat {
    if s == "" then 0
    else
      var c := s[|s| - 1] as int;
      Bytes(s[..|s| - 1]) + (if c < 0x80 then 1 else if c < 0x800 then 2 else if c < 0x1_0000 then 3 else 4)
  }

  predicate Fits(line: string) {
    Bytes(line) < MAX_TOKEN
  }

  predicate Scannable(lines: seq<string>) {
    forall line <- lines :: Fits(line)
  }

  /** `None` is the scanner's error. */
  function ReadLines(lines: seq<string>): Option<Config> {
    if Scannable(lines) then Some(ConfigOf(Said(lines))) else None
  }

  function Read(text: string): Option<Config> {
    ReadLines(Lines(text))
  }

  function DropCR(line: string): string {
    if line != "" && line[|line| - 1] == '\r' then line[..|line| - 1] else line
  }

  /** White space at the end of a line is trimmed anyway, so the dropped carriage return says nothing. */
  lemma DropCRIsTrimmed(line: string)
    ensures TrimSpace(DropCR(line)) == TrimSpace(line)
  {
    TrimOfTrimRight(IsSpace, line);
    TrimOfTrimRight(IsSpace, DropCR(line));
  }

  /** The parser's switch over the keys. */
  function Assigned(c: Config, key: string, value: string): Config {
    match key
    case "state_dir" => c.(stateDir := value)
    case "heartbeat_sec" =>
      var n := Atoi(value);
      if n.Some? && n.value > 0 then c.(heartbeatSec := n.value) else c
    case "insecure_skip_verify" => c.(insecureSkipVerify := value == "true")
    case _ => c
  }

  /** The parser's state after one line: the configuration so far, and whether a list is open. */
  function Taken(c: Config, inList: bool, line: Line): (Config, bool) {
    match line
    case Blank => (c, inList)
    case Item(ep) => (if inList && ep != "" then c.(endpoints := c.endpoints + [ep]) else c, inList)
    case Setting(key, value) => (Assigned(c, key, value), key == "endpoints")
    case Bare => (c, false)
  }

  /** Reading one more line gives the configuration of one more line. */
  lemma TakenIsConfigOf(said: seq<Line>, i: nat)
    requires i < |said|
    ensures Taken(ConfigOf(said[..i]), InList(said[..i]), said[i]) == (ConfigOf(said[..i + 1]), InList(said[..i + 1]))
  {
    assert said[..i + 1][..i] == said[..i];
  }

  /** Outside the list an item is read as a setting, but of no key that the parser knows. */
  lemma ItemIsNoSetting(line: string)
    requires "- " <= line
    ensures var (key, _, found) := Cut(line, ':');
      found ==> TrimSpace(key) != "endpoints" && forall c, v :: Assigned(c, TrimSpace(key), v) == c
  {
    var (key, _, found) := Cut(line, ':');
    if found {
      TrimRightConcat(IsSpace, [key[0]], key[1..]);
      assert key == [key[0]] + key[1..];
      TrimRightOne(IsSpace, '-');
      assert TrimSpace(key)[0] == '-';
    }
  }

  method ReadLine(c: Config, listed: bool, text: string) returns (cfg: Config, inEndpoints: bool)
    ensures (cfg, inEndpoints) == Taken(c, listed, LineOf(text))
  {
    DropCRIsTrimmed(text);
    cfg, inEndpoints := c, listed;
    var line := TrimSpace(DropCR(text));
    if line == "" || "#" <= line {
      return;
    }
    if inEndpoints && "- " <= line {
      var ep := Trim(IsQuote, TrimSpace(TrimPrefix(line, "- ")));
      if ep != "" {
        cfg := cfg.(endpoints := cfg.endpoints + [ep]);
      }
      return;
    }
    inEndpoints := false;
    var (key, value, found) := Cut(line, ':');
    if !found {
      return;
    }
    if "- " <= line {
      ItemIsNoSetting(line);
    }
    key := TrimSpace(key);
    value := Clean(value);
    if key == "endpoints" {
      inEndpoints := true;
    }
    cfg := Assigned(cfg, key, value);
  }

  method ParseConfig(text: string) returns (parsed: Option<Config>)
    ensures parsed == Read(text)
  {
    parsed := ParseLines(Lines(text));
  }

  lemma ScannableStep(lines: seq<string>)
    requires lines != []
    ensures Scannable(lines) <==> Fits(lines[0]) && Scannable(lines[1..])
  {
    assert lines == [lines[0]] + lines[1..];
  }

  method ParseLines(lines: seq<string>) returns (parsed: Option<Config>)
    ensures parsed == ReadLines(lines)
  {
    var cfg := Config([], "", DEFAULT_HEARTBEAT_SEC, false);
    var inEndpoints := false;
    ghost var said := Said(lines);
    var i := 0;
    while i < |lines|
      invariant 0 <= i <= |lines|
      invariant Scannable(lines) <==> Scannable(lines[i..])
      invariant (cfg, inEndpoints) == (ConfigOf(said[..i]), InList(said[..i]))
    {
      ScannableStep(lines[i..]);
      assert lines[i..][1..] == lines[i + 1..];
      if !Fits(lines[i]) {
        return None;
      }
      TakenIsConfigOf(said, i);
      cfg, inEndpoints := ReadLine(cfg, inEndpoints, lines[i]);
      i := i + 1;
    }
    assert said[..i] == said;
    return Some(cfg);
  }

  function PrintedLines(endpoint: string, stateDir: string, digits: string, insecure: string): seq<string> {
    ["endpoints:", "  - " + endpoint, "state_dir: " + stateDir, "heartbeat_sec: " + digits,
     "insecure_skip_verify: " + insecure]
  }

  /** What `sit node setup` writes. */
  function PrintConfig(endpoint: string, stateDir: string, heartbeat: int): string {
    Unlines(PrintedLines(endpoint, stateDir, Decimal(heartbeat), "false"))
  }

  predicate Edge(c: char) {
    IsSpace(c) || IsQuote(c)
  }

  /** A value comes through as it is exactly when no space and no quote stands at either of its ends. */
  lemma CleanLeavesExactly(s: string)
    ensures Clean(s) == s <==> BareEnds(Edge, s)
    ensures OneLine(s) ==> OneLine(Clean(s))
  {
    TrimLeavesExactly(IsSpace, s);
    TrimLeavesExactly(IsQuote, TrimSpace(s));
  }

  lemma CleanOfTrimRight(s: string)
    ensures Clean(TrimRight(IsSpace, s)) == Clean(s)
    ensures Clean(" " + s) == Clean(s)
  {
    TrimOfTrimRight(IsSpace, s);
    assert (" " + s)[1..] == s;
  }

  lemma SettingLine(line: string, key: string, value: string)
    requires key != "" && BareEnds(IsSpace, key) && key[0] != '#' && key[0] != '-' && ':' !in key
    requires line == key + ":" + value
    ensures LineOf(line) == Setting(key, Clean(value))
  {
    var after := TrimRight(IsSpace, value);
    assert line == "" + (key + ":") + value;
    TrimKeyed("", key + ":", value);
    assert key + ":" + after == key + [':'] + after;
    CutAt(key, ':', after);
    TrimLeavesExactly(IsSpace, key);
    CleanOfTrimRight(value);
  }

  /** An item is recognised by the space after its dash, which a blank endpoint does not leave there. */
  lemma ItemLine(endpoint: string)
    ensures Clean(endpoint) == "" ==> LineOf("  - " + endpoint) in {Bare, Item("")}
    ensures Clean(endpoint) != "" ==> LineOf("  - " + endpoint) == Item(Clean(endpoint))
  {
    var after := TrimRight(IsSpace, endpoint);
    assert TrimSpace("  - " + endpoint) == "-" + TrimRight(IsSpace, " " + endpoint) by {
      assert "  - " + endpoint == "  " + "-" + (" " + endpoint);
      TrimKeyed("  ", "-", " " + endpoint);
    }
    TrimsToNothing(IsSpace, endpoint);
    TrimRightConcat(IsSpace, " ", endpoint);
    TrimRightOne(IsSpace, ' ');
    CleanOfTrimRight(endpoint);
    if after == "" {
      assert Clean("") == "";
      CutAt("-", ':', "");
    } else {
      DashLine(after);
    }
  }

  lemma DashLine(after: string)
    ensures var line := "-" + (" " + after); "- " <= line && line[2..] == after && !("#" <= line)
  {
    var line := "-" + (" " + after);
    assert line[0] == '-' && line[1] == ' ';
  }

  function PrintedSay(item: Line, stateDir: string, digits: string, insecure: string): seq<Line> {
    [Setting("endpoints", ""), item, Setting("state_dir", stateDir), Setting("heartbeat_sec", digits),
     Setting("insecure_skip_verify", insecure)]
  }

  lemma SaidOfFive(a: string, b: string, c: string, d: string, e: string)
    ensures Said([a, b, c, d, e]) == [LineOf(a), LineOf(b), LineOf(c), LineOf(d), LineOf(e)]
  {
  }

  lemma PrintedLinesSay(endpoint: string, stateDir: string, digits: string, insecure: string)
    ensures Said(PrintedLines(endpoint, stateDir, digits, insecure))
         == PrintedSay(LineOf("  - " + endpoint), Clean(stateDir), Clean(digits), Clean(insecure))
  {
    SaidOfFive("endpoints:", "  - " + endpoint, "state_dir: " + stateDir, "heartbeat_sec: " + digits,
               "insecure_skip_verify: " + insecure);
    ListLine("endpoints:");
    StateDirLine("state_dir: " + stateDir, stateDir);
    HeartbeatLine("heartbeat_sec: " + digits, digits);
    InsecureLine("insecure_skip_verify: " + insecure, insecure);
  }

  lemma ListLine(line: string)
    requires line == "endpoints:"
    ensures LineOf(line) == Setting("endpoints", "")
  {
    assert Clean("") == "";
    SettingLine(line, "endpoints", "");
  }

  lemma StateDirLine(line: string, stateDir: string)
    requires line == "state_dir: " + stateDir
    ensures LineOf(line) == Setting("state_dir", Clean(stateDir))
  {
    SettingLine(line, "state_dir", " " + stateDir);
    CleanOfTrimRight(stateDir);
  }

  lemma HeartbeatLine(line: string, digits: string)
    requires line == "heartbeat_sec: " + digits
    ensures LineOf(line) == Setting("heartbeat_sec", Clean(digits))
  {
    SettingLine(line, "heartbeat_sec", " " + digits);
    CleanOfTrimRight(digits);
  }

  lemma DigitsAreClean(n: int)
    requires Int64(n)
    ensures Clean(Decimal(n)) == Decimal(n)
  {
    AtoiReadsDecimal(n);
    var digits := Decimal(n);
    assert digits[0] in digits && digits[|digits| - 1] in digits;
    CleanLeavesExactly(digits);
  }

  lemma InsecureLine(line: string, value: string)
    requires line == "insecure_skip_verify: " + value
    ensures LineOf(line) == Setting("insecure_skip_verify", Clean(value))
  {
    SettingLine(line, "insecure_skip_verify", " " + value);
    CleanOfTrimRight(value);
  }

  /** What is read of what was printed: spaces and quotes at the ends of the values are lost. */
  lemma PrintedIsRead(endpoint: string, stateDir: string, digits: string, insecure: string)
    ensures ConfigOf(Said(PrintedLines(endpoint, stateDir, digits, insecure)))
         == Config(
              if Clean(endpoint) == "" then [] else [Clean(endpoint)],
              Clean(stateDir),
              if IsPeriod(Clean(digits)) then Atoi(Clean(digits)).value else DEFAULT_HEARTBEAT_SEC,
              Clean(insecure) == "true")
  {
    ItemLine(endpoint);
    PrintedLinesSay(endpoint, stateDir, digits, insecure);
    SaidIsConfig(LineOf("  - " + endpoint), Clean(stateDir), Clean(digits), Clean(insecure));
  }

  lemma FirstItemIsRead(said: seq<Line>, item: Line)
    requires |said| >= 2 && said[0] == Setting("endpoints", "") && said[1] == item && (item.Item? || item.Bare?)
    ensures ConfigOf(said[..2])
         == Config(if item.Item? && item.endpoint != "" then [item.endpoint] else [], "", DEFAULT_HEARTBEAT_SEC, false)
  {
    TakenIsConfigOf(said, 0);
    TakenIsConfigOf(said, 1);
  }

  lemma SettingIsRead(said: seq<Line>, i: nat)
    requires i < |said| && said[i].Setting?
    ensures ConfigOf(said[..i + 1]) == Assigned(ConfigOf(said[..i]), said[i].key, said[i].value)
  {
    TakenIsConfigOf(said, i);
  }

  lemma SettingsAreRead(said: seq<Line>)
    requires |said| == 5 && said[2].Setting? && said[3].Setting? && said[4].Setting?
    ensures ConfigOf(said) ==
      Assigned(
        Assigned(Assigned(ConfigOf(said[..2]), said[2].key, said[2].value), said[3].key, said[3].value),
        said[4].key, said[4].value)
  {
    SettingIsRead(said, 2);
    SettingIsRead(said, 3);
    SettingIsRead(said, 4);
    assert said[..5] == said;
  }

  lemma SaidIsConfig(item: Line, stateDir: string, digits: string, insecure: string)
    requires item.Item? || item.Bare?
    ensures ConfigOf(PrintedSay(item, stateDir, digits, insecure))
         == Config(
              if item.Item? && item.endpoint != "" then [item.endpoint] else [],
              stateDir,
              if IsPeriod(digits) then Atoi(digits).value else DEFAULT_HEARTBEAT_SEC,
              insecure == "true")
  {
    var said := PrintedSay(item, stateDir, digits, insecure);
    FirstItemIsRead(said, item);
    SettingsAreRead(said);
  }

  lemma {:induction false} BytesConcat(a: string, b: string)
    ensures Bytes(a + b) == Bytes(a) + Bytes(b)
  {
    if b == "" {
      assert a + b == a;
    } else {
      var n := |b| - 1;
      assert (a + b)[..|a + b| - 1] == a + b[..n];
      BytesConcat(a, b[..n]);
    }
  }

  /** The bytes of one code point, in UTF-8 (section 3 of RFC 3629). */
  lemma BytesOfOne(c: char)
    ensures Bytes([c]) == if c as int <= 0x7F then 1 else if c as int <= 0x7FF then 2 else if c as int <= 0xFFFF then 3 else 4
  {
    assert [c][..0] == [];
  }

  lemma {:induction false} BytesBound(s: string)
    ensures |s| <= Bytes(s) <= 4 * |s|
    ensures (forall c <- s :: c as int < 0x80) ==> Bytes(s) == |s|
  {
    if s != "" {
      var (t, c) := (s[..|s| - 1], s[|s| - 1]);
      assert c in s && forall d <- t :: d in s;
      BytesBound(t);
    }
  }

  lemma PrintedIsScannable(endpoint: string, stateDir: string, heartbeat: int)
    requires Int64(heartbeat)
    ensures Scannable(PrintedLines(endpoint, stateDir, Decimal(heartbeat), "false"))
       <==> Bytes(endpoint) < MAX_TOKEN - 4 && Bytes(stateDir) < MAX_TOKEN - 11
  {
    var lines := PrintedLines(endpoint, stateDir, Decimal(heartbeat), "false");
    BytesBound("  - ");
    BytesConcat("  - ", endpoint);
    BytesBound("state_dir: ");
    BytesConcat("state_dir: ", stateDir);
    DecimalFits(heartbeat);
    BytesBound(lines[0]);
    BytesBound(lines[3]);
    BytesBound(lines[4]);
    assert Fits(lines[1]) <==> Bytes(endpoint) < MAX_TOKEN - 4;
    assert Fits(lines[2]) <==> Bytes(stateDir) < MAX_TOKEN - 11;
    assert Fits(lines[0]) && Fits(lines[3]) && Fits(lines[4]);
  }

  predicate LineIsOneLine(line: Line) {
    match line
    case Item(ep) => OneLine(ep)
    case Setting(_, value) => OneLine(value)
    case _ => true
  }

  lemma LineOfIsOneLine(raw: string)
    requires OneLine(raw)
    ensures LineIsOneLine(LineOf(raw))
  {
    TrimLeavesExactly(IsSpace, raw);
    var line := TrimSpace(raw);
    CutAddsNothing(line, ':');
    CleanLeavesExactly(Cut(line, ':').1);
    if "- " <= line {
      CleanLeavesExactly(line[2..]);
    }
  }

  /** No value that is read holds a newline. */
  lemma {:induction false} ReadsOneLineValues(said: seq<Line>)
    requires forall line <- said :: LineIsOneLine(line)
    ensures forall ep <- Endpoints(said) :: OneLine(ep)
    ensures OneLine(OrElse(LastSetting(said, "state_dir", AnyValue), ""))
  {
    if said != [] {
      var before := said[..|said| - 1];
      assert forall line <- before :: line in said;
      ReadsOneLineValues(before);
      assert LineIsOneLine(said[|said| - 1]);
    }
  }

  /** The condition a caller can check before printing. */
  predicate Printable(endpoint: string, stateDir: string, heartbeat: int) {
    && OneLine(endpoint) && OneLine(stateDir)
    && BareEnds(Edge, endpoint) && BareEnds(Edge, stateDir)
    && endpoint != "" && heartbeat > 0
    && Bytes(endpoint) < 65_532 && Bytes(stateDir) < 65_525
  }

  lemma ConfigRoundTripsExactly(endpoint: string, stateDir: string, heartbeat: int)
    requires Int64(heartbeat)
    ensures Read(PrintConfig(endpoint, stateDir, heartbeat)) == Some(Config([endpoint], stateDir, heartbeat, false))
       <==> Printable(endpoint, stateDir, heartbeat)
  {
    var digits := Decimal(heartbeat);
    if OneLine(endpoint) && OneLine(stateDir) {
      AtoiReadsDecimal(heartbeat);
      DigitsAreClean(heartbeat);
      FalseIsClean();
      PrintedAreOneLine(endpoint, stateDir, digits, "false");
      LinesOfUnlines(PrintedLines(endpoint, stateDir, digits, "false"));
      PrintedIsRead(endpoint, stateDir, digits, "false");
      PrintedIsScannable(endpoint, stateDir, heartbeat);
      CleanLeavesExactly(endpoint);
      CleanLeavesExactly(stateDir);
    } else {
      ReadIsOneLine(PrintConfig(endpoint, stateDir, heartbeat));
    }
  }

  lemma PrintedAreOneLine(endpoint: string, stateDir: string, digits: string, insecure: string)
    requires OneLine(endpoint) && OneLine(stateDir) && OneLine(digits) && OneLine(insecure)
    ensures forall line <- PrintedLines(endpoint, stateDir, digits, insecure) :: OneLine(line)
  {
  }

  lemma FalseIsClean()
    ensures Clean("false") == "false"
  {
    CleanLeavesExactly("false");
  }

  lemma ReadIsOneLine(text: string)
    ensures var c := ConfigOf(Said(Lines(text)));
      (forall ep <- c.endpoints :: OneLine(ep)) && OneLine(c.stateDir)
  {
    var lines := Lines(text);
    LinesAreOneLine(text);
    forall i | 0 <= i < |lines| ensures LineIsOneLine(LineOf(lines[i])) {
      LineOfIsOneLine(lines[i]);
    }
    ReadsOneLineValues(Said(lines));
  }

  /** The lines of a list of endpoints, each under a comment. */
  function ItemLines(items: seq<(string, string)>): seq<string> {
    if items == [] then []
    else
      var (comment, endpoint) := items[|items| - 1];
      ItemLines(items[..|items| - 1]) + ["  # " + comment] + ["  - " + endpoint]
  }

  function EndpointsOf(items: seq<(string, string)>): seq<string> {
    seq(|items|, i requires 0 <= i < |items| => items[i].1)
  }

  ghost predicate GoodItems(items: seq<(string, string)>) {
    forall i :: 0 <= i < |items| ==>
      && OneLine(items[i].0) && OneLine(items[i].1) && items[i].1 != "" && BareEnds(Edge, items[i].1)
      && Bytes(items[i].0) < MAX_TOKEN - 4 && Bytes(items[i].1) < MAX_TOKEN - 4
  }

  lemma CommentLine(comment: string)
    ensures LineOf("  # " + comment) == Blank
  {
    assert "  # " + comment == "  " + "#" + (" " + comment);
    TrimKeyed("  ", "#", " " + comment);
  }

  lemma SaidOneMore(lines: seq<string>, line: string)
    ensures Said(lines + [line]) == Said(lines) + [LineOf(line)]
  {
    assert (lines + [line])[..|lines|] == lines;
  }

  lemma TakenOneMore(said: seq<Line>, line: Line)
    ensures (ConfigOf(said + [line]), InList(said + [line])) == Taken(ConfigOf(said), InList(said), line)
  {
    TakenIsConfigOf(said + [line], |said|);
    assert (said + [line])[..|said|] == said && (said + [line])[..|said| + 1] == said + [line];
  }

  /** A comment and an item, after an open list. */
  lemma OneItem(lines: seq<string>, comment: string, endpoint: string)
    requires InList(Said(lines)) && endpoint != "" && BareEnds(Edge, endpoint)
    ensures var c, said := ConfigOf(Said(lines)), Said(lines + ["  # " + comment] + ["  - " + endpoint]);
            ConfigOf(said) == c.(endpoints := c.endpoints + [endpoint]) && InList(said)
  {
    CommentLine(comment);
    ItemLine(endpoint);
    CleanLeavesExactly(endpoint);
    SaidOneMore(lines, "  # " + comment);
    TakenOneMore(Said(lines), Blank);
    SaidOneMore(lines + ["  # " + comment], "  - " + endpoint);
    TakenOneMore(Said(lines + ["  # " + comment]), Item(endpoint));
  }

  lemma SaidOfOne(line: string)
    ensures Said([line]) == [LineOf(line)]
  {
  }

  lemma FirstSetting(said: seq<Line>)
    requires said == [Setting("endpoints", "")]
    ensures ConfigOf(said) == Config([], "", DEFAULT_HEARTBEAT_SEC, false) && InList(said)
  {
    TakenIsConfigOf(said, 0);
    assert said[..1] == said;
  }

  lemma OpensList(line: string)
    requires line == "endpoints:"
    ensures ConfigOf(Said([line])) == Config([], "", DEFAULT_HEARTBEAT_SEC, false) && InList(Said([line]))
  {
    ListLine(line);
    SaidOfOne(line);
    FirstSetting(Said([line]));
  }

  ghost predicate ReadsAs(lines: seq<string>, endpoints: seq<string>) {
    ConfigOf(Said(lines)) == Config(endpoints, "", DEFAULT_HEARTBEAT_SEC, false) && InList(Said(lines))
  }

  lemma OneMoreItem(lines: seq<string>, endpoints: seq<string>, comment: string, endpoint: string)
    requires ReadsAs(lines, endpoints) && endpoint != "" && BareEnds(Edge, endpoint)
    ensures ReadsAs(lines + ["  # " + comment] + ["  - " + endpoint], endpoints + [endpoint])
  {
    OneItem(lines, comment, endpoint);
  }

  lemma {:induction false} ItemsAreTaken(items: seq<(string, string)>)
    requires GoodItems(items)
    ensures ReadsAs(["endpoints:"] + ItemLines(items), EndpointsOf(items))
  {
    if items == [] {
      OpensList("endpoints:");
      assert ["endpoints:"] + ItemLines(items) == ["endpoints:"];
    } else {
      var n := |items| - 1;
      var before := items[..n];
      ItemsAreTaken(before);
      OneMoreItem(["endpoints:"] + ItemLines(before), EndpointsOf(before), items[n].0, items[n].1);
      Associate(["endpoints:"], ItemLines(before), ["  # " + items[n].0], ["  - " + items[n].1]);
      EndpointsGrow(items);
    }
  }

  lemma EndpointsGrow(items: seq<(string, string)>)
    requires items != []
    ensures EndpointsOf(items) == EndpointsOf(items[..|items| - 1]) + [items[|items| - 1].1]
  {
  }

  lemma Associate(a: seq<string>, b: seq<string>, c: seq<string>, d: seq<string>)
    ensures a + b + c + d == a + (b + c + d)
  {
  }

  lemma {:induction false} ItemLinesFit(items: seq<(string, string)>)
    requires GoodItems(items)
    ensures forall line <- ItemLines(items) :: OneLine(line) && Fits(line)
  {
    if items != [] {
      var n := |items| - 1;
      ItemLinesFit(items[..n]);
      OneItemFits("  # ", items[n].0);
      OneItemFits("  - ", items[n].1);
    }
  }

  lemma OneItemFits(mark: string, text: string)
    requires |mark| == 4 && (forall c <- mark :: c as int < 0x80 && c != '\n') && OneLine(text) && Bytes(text) < MAX_TOKEN - 4
    ensures OneLine(mark + text) && Fits(mark + text)
  {
    BytesConcat(mark, text);
    BytesBound(mark);
  }

  /**
   A file that lists endpoints, whatever comments stand between them and whether or not it ends in a
   newline: exactly those endpoints are read, in their order, and the defaults for all else.
   */
  lemma ListIsRead(items: seq<(string, string)>, ending: string)
    requires GoodItems(items) && (ending == "" || ending == "# the end")
    ensures Read(Unlines(["endpoints:"] + ItemLines(items)) + ending) == Some(Config(EndpointsOf(items), "", 30, false))
  {
    var lines := ["endpoints:"] + ItemLines(items);
    ItemLinesFit(items);
    HeadFits();
    assert forall line <- lines :: OneLine(line) && Fits(line);
    LinesOfRest(lines, ending);
    ItemsAreTaken(items);
    if ending != "" {
      EndingLine(ending);
      SaidOneMore(lines, ending);
      TakenOneMore(Said(lines), Blank);
    }
  }

  lemma HeadFits()
    ensures OneLine("endpoints:") && Fits("endpoints:") && OneLine("# the end") && Fits("# the end")
  {
    BytesBound("endpoints:");
    BytesBound("# the end");
  }

  lemma EndingLine(line: string)
    requires line == "# the end"
    ensures LineOf(line) == Blank
  {
    assert line == "" + "#" + " the end";
    TrimKeyed("", "#", " the end");
  }
}
