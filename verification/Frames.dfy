/**
 The JSON text of a result frame, and the bound that keeps it within the frame limit. A Go string is
 a sequence of bytes; here one char stands for one byte.
 */
module Frames {
  import opened Protocol
  import opened Executors
  import opened Numbers

  const MAX_FRAME_BYTES: nat := 0x10_0000

  predicate Continues(s: string, i: nat, lo: int, hi: int) {
    i < |s| && lo <= s[i] as int <= hi
  }

  /** The width of the UTF-8 sequence that starts `s` (section 4 of RFC 3629), or 0 when there is none. */
  function RuneWidth(s: string): (w: nat)
    requires s != ""
    ensures w <= |s|
  {
    var c := s[0] as int;
    if c < 0x80 then 1
    else if 0xC2 <= c <= 0xDF then
      if Continues(s, 1, 0x80, 0xBF) then 2 else 0
    else if 0xE0 <= c <= 0xEF then
      if Continues(s, 1, if c == 0xE0 then 0xA0 else 0x80, if c == 0xED then 0x9F else 0xBF) && Continues(s, 2, 0x80, 0xBF) then 3 else 0
    else if 0xF0 <= c <= 0xF4 then
      if Continues(s, 1, if c == 0xF0 then 0x90 else 0x80, if c == 0xF4 then 0x8F else 0xBF)
         && Continues(s, 2, 0x80, 0xBF) && Continues(s, 3, 0x80, 0xBF) then 4 else 0
    else 0
  }

  function Hex(n: nat): (c: char)
    requires n < 16
    ensures '0' <= c && c != '<' && c != '>'
  {
    "0123456789abcdef"[n]
  }

  /** The JSON text of the first rune of `s`, and how many bytes it stands for. */
  function FirstRune(s: string): (r: (string, nat))
    requires s != ""
    ensures 1 <= r.1 <= |s|
    ensures |r.0| <= 6 * r.1
  {
    var c := s[0];
    var w := RuneWidth(s);
    if c == '"' || c == '\\' then (['\\', c], 1)
    else if c == 8 as char then ("\\b", 1)
    else if c == 12 as char then ("\\f", 1)
    else if c == '\n' then ("\\n", 1)
    else if c == '\r' then ("\\r", 1)
    else if c == '\t' then ("\\t", 1)
    else if (c as int) < 0x20 || c == '<' || c == '>' || c == '&' then
      ("\\u00" + [Hex(c as int / 16), Hex(c as int % 16)], 1)
    else if w == 0 then ("\\ufffd", 1)
    else if w == 3 && c as int == 0xE2 && s[1] as int == 0x80 && (s[2] as int == 0xA8 || s[2] as int == 0xA9) then
      ("\\u202" + [Hex(s[2] as int % 16)], 3)
    else (s[..w], w)
  }

  /** The text between the quotes of a JSON string (section 7 of RFC 8259), as the encoder writes it. */
  function Escape(s: string): string {
    if s == "" then "" else
    var (text, w) := FirstRune(s);
    text + Escape(s[w..])
  }

  /** A three-byte UTF-8 sequence. */
  function Utf8(code: nat): string
    requires 0x800 <= code < 0x1_0000
  {
    [(0xE0 + code / 0x1000) as char, (0x80 + code / 0x40 % 0x40) as char, (0x80 + code % 0x40) as char]
  }

  function HexValue(c: char): nat {
    if '0' <= c <= '9' then c as int - '0' as int
    else if 'a' <= c <= 'f' then c as int - 'a' as int + 10
    else 0
  }

  /** What a reader makes of the escape sequence at the start of a text (section 7 of RFC 8259), and its length. */
  function Unescaped(t: string): (r: (string, nat))
    requires t != ""
    ensures 1 <= r.1 <= |t|
  {
    if t[0] != '\\' || |t| < 2 then ([t[0]], 1)
    else if t[1] == 'b' then ([8 as char], 2)
    else if t[1] == 'f' then ([12 as char], 2)
    else if t[1] == 'n' then (['\n'], 2)
    else if t[1] == 'r' then (['\r'], 2)
    else if t[1] == 't' then (['\t'], 2)
    else if t[1] == 'u' && |t| >= 6 then
      var code := HexValue(t[2]) * 0x1000 + HexValue(t[3]) * 0x100 + HexValue(t[4]) * 0x10 + HexValue(t[5]);
      (if code < 0x80 then [code as char] else if 0x800 <= code < 0x1_0000 then Utf8(code) else "", 6)
    else ([t[1]], 2)
  }

  function Unescape(t: string): string {
    if t == "" then "" else
    var (c, w) := Unescaped(t);
    c + Unescape(t[w..])
  }

  /** The string with each byte that is not part of a UTF-8 sequence replaced by U+FFFD. */
  function Sanitized(s: string): string {
    if s == "" then ""
    else if RuneWidth(s) == 0 then Utf8(0xFFFD) + Sanitized(s[1..])
    else s[..RuneWidth(s)] + Sanitized(s[RuneWidth(s)..])
  }

  lemma {:induction false} PlainUnescapes(p: string, rest: string)
    requires forall c <- p :: c != '\\'
    ensures Unescape(p + rest) == p + Unescape(rest)
  {
    if p == "" {
      assert p + rest == rest;
    } else {
      var c, q := p[0], p[1..];
      assert c in p && forall d <- q :: d in p;
      assert p == [c] + q;
      Prepend(c, q, rest);
      PlainUnescapes(q, rest);
      Prepend(c, q, Unescape(rest));
    }
  }

  lemma HexReads(n: nat)
    requires n < 16
    ensures HexValue(Hex(n)) == n && Hex(n) != 'u'
  {
  }

  /** An escape sequence: two characters, or six that begin with a backslash and a u. */
  predicate IsEscape(t: string) {
    t != "" && t[0] == '\\' && ((|t| == 2 && t[1] != 'u') || (|t| == 6 && t[1] == 'u'))
  }

  lemma EscapeIsRead(t: string, rest: string)
    requires IsEscape(t)
    ensures Unescape(t + rest) == Unescaped(t).0 + Unescape(rest)
  {
    var u := t + rest;
    assert u[..|t|] == t && u[|t|..] == rest;
    assert u[0] == t[0] && u[1] == t[1];
    assert |t| == 6 ==> u[2] == t[2] && u[3] == t[3] && u[4] == t[4] && u[5] == t[5];
    assert Unescaped(u) == Unescaped(t);
  }

  /** The escapes of two characters. */
  lemma ShortEscape(s: string)
    requires s != "" && s[0] in ['"', '\\', 8 as char, 12 as char, '\n', '\r', '\t']
    ensures FirstRune(s).1 == RuneWidth(s) == 1 && IsEscape(FirstRune(s).0) && Unescaped(FirstRune(s).0).0 == s[..1]
  {
    assert s[..1] == [s[0]];
  }

  lemma HexEscape(c: char)
    requires c as int < 0x80
    ensures var t := "\\u00" + [Hex(c as int / 16), Hex(c as int % 16)]; IsEscape(t) && Unescaped(t).0 == [c]
  {
    HexReads(c as int / 16);
    HexReads(c as int % 16);
    var t := "\\u00" + [Hex(c as int / 16), Hex(c as int % 16)];
    assert t[0] == '\\' && t[1] == 'u' && t[2] == '0' && t[3] == '0' && t[4] == Hex(c as int / 16) && t[5] == Hex(c as int % 16);
  }

  lemma BadEscape()
    ensures IsEscape("\\ufffd") && Unescaped("\\ufffd").0 == Utf8(0xFFFD)
  {
  }

  lemma SeparatorEscape(s: string)
    requires |s| >= 3 && s[0] as int == 0xE2 && s[1] as int == 0x80 && (s[2] as int == 0xA8 || s[2] as int == 0xA9)
    ensures var t := "\\u202" + [Hex(s[2] as int % 16)]; IsEscape(t) && Unescaped(t).0 == s[..3]
  {
    var h := s[2] as int % 16;
    HexReads(h);
    var t := "\\u202" + [Hex(h)];
    assert t[0] == '\\' && t[1] == 'u' && t[2] == '2' && t[3] == '0' && t[4] == '2' && t[5] == Hex(h);
    var code := 0x2020 + h;
    assert Unescaped(t).0 == Utf8(code);
    assert s[..3] == [s[0], s[1], s[2]];
  }

  predicate Copied(s: string)
    requires s != ""
  {
    RuneWidth(s) > 0 && FirstRune(s) == (s[..RuneWidth(s)], RuneWidth(s)) && s[0] != '\\'
  }

  function Raw(s: string): string
    requires s != ""
  {
    if RuneWidth(s) == 0 then Utf8(0xFFFD) else s[..RuneWidth(s)]
  }

  /** The first rune is copied, or stands as an escape sequence that is read as the rune. */
  lemma RuneIsRead(s: string)
    requires s != ""
    ensures FirstRune(s).1 == if RuneWidth(s) == 0 then 1 else RuneWidth(s)
    ensures Copied(s) || (IsEscape(FirstRune(s).0) && Unescaped(FirstRune(s).0).0 == Raw(s))
  {
    var c, w := s[0], RuneWidth(s);
    if c in ['"', '\\', 8 as char, 12 as char, '\n', '\r', '\t'] {
      ShortEscape(s);
    } else if (c as int) < 0x20 || c == '<' || c == '>' || c == '&' {
      HexEscape(c);
      assert s[..1] == [c];
    } else if w == 0 {
      BadEscape();
    } else if w == 3 && c as int == 0xE2 && s[1] as int == 0x80 && (s[2] as int == 0xA8 || s[2] as int == 0xA9) {
      SeparatorEscape(s);
    }
  }

  lemma RuneUnescapes(s: string, rest: string)
    requires s != ""
    ensures Unescape(FirstRune(s).0 + rest) == Raw(s) + Unescape(rest)
  {
    RuneIsRead(s);
    if Copied(s) {
      forall c <- s[..RuneWidth(s)]
        ensures c != '\\'
      {
        var i :| 0 <= i < RuneWidth(s) && s[i] == c;
        if i > 0 {
          Continuation(s, i);
        }
      }
      PlainUnescapes(s[..RuneWidth(s)], rest);
    } else {
      EscapeIsRead(FirstRune(s).0, rest);
    }
  }

  /** A reader gets back what was escaped, but for the bytes that were not UTF-8. */
  lemma {:induction false} UnescapeUndoes(s: string)
    ensures Unescape(Escape(s)) == Sanitized(s)
  {
    if s != "" {
      var w := FirstRune(s).1;
      RuneIsRead(s);
      RuneUnescapes(s, Escape(s[w..]));
      UnescapeUndoes(s[w..]);
    }
  }

  /** At most six bytes of text for a byte of input. */
  lemma {:induction false} EscapeAtMostSixfold(s: string)
    ensures |Escape(s)| <= 6 * |s|
  {
    if s != "" {
      EscapeAtMostSixfold(s[FirstRune(s).1..]);
    }
  }

  /** One of the two line separators of Unicode, U+2028 and U+2029, stands at `i`. */
  predicate Separates(s: string, i: int) {
    && 0 <= i && i + 2 < |s|
    && s[i] as int == 0xE2 && s[i + 1] as int == 0x80 && (s[i + 2] as int == 0xA8 || s[i + 2] as int == 0xA9)
  }

  /**
   The escaped text holds nothing that a second pass would escape: no control character, none of the
   three characters of HTML, and neither line separator.
   */
  lemma {:induction false} EscapedIsClean(s: string)
    ensures forall c <- Escape(s) :: c as int >= 0x20 && c != '<' && c != '>' && c != '&'
    ensures forall i :: !Separates(Escape(s), i)
  {
    if s != "" {
      var (text, w) := FirstRune(s);
      var rest := Escape(s[w..]);
      EscapedIsClean(s[w..]);
      forall c <- text
        ensures c as int >= 0x20 && c != '<' && c != '>' && c != '&'
      {
        RuneIsClean(s, c);
      }
      forall i
        ensures !Separates(text + rest, i)
      {
        if 0 <= i < |text| {
          RuneSeparatesNothing(s, i);
        } else {
          assert !Separates(rest, i - |text|);
        }
      }
    }
  }

  /** The first byte of a separator only comes with the rest of its own rune. */
  lemma RuneSeparatesNothing(s: string, i: nat)
    requires s != "" && i < |FirstRune(s).0|
    ensures var text := FirstRune(s).0;
            text[i] as int == 0xE2 ==> i == 0 && |text| == 3 && !Separates(text, 0)
  {
    var (text, w) := FirstRune(s);
    if text == s[..w] {
      if i > 0 {
        Continuation(s, i);
      }
    } else {
      RuneIsAscii(s, i);
    }
  }

  lemma Continuation(s: string, i: nat)
    requires s != "" && 0 < i < RuneWidth(s)
    ensures 0x80 <= s[i] as int <= 0xBF
  {
  }

  /** An escape sequence is plain ASCII. */
  lemma RuneIsAscii(s: string, i: nat)
    requires s != "" && i < |FirstRune(s).0| && FirstRune(s).0 != s[..FirstRune(s).1]
    ensures FirstRune(s).0[i] as int < 0x80
  {
  }

  lemma WideRunesAreHigh(s: string, i: nat)
    requires s != "" && RuneWidth(s) > 1 && i < RuneWidth(s)
    ensures s[i] as int >= 0x80
  {
  }

  lemma RuneIsClean(s: string, c: char)
    requires s != "" && c in FirstRune(s).0
    ensures c as int >= 0x20 && c != '<' && c != '>' && c != '&'
  {
    var (text, w) := FirstRune(s);
    var i :| 0 <= i < |text| && text[i] == c;
    if text == s[..w] {
      if RuneWidth(s) > 1 && w == RuneWidth(s) {
        WideRunesAreHigh(s, i);
      }
    }
  }

  /** Empty and zero fields are left out. */
  function StringField(key: string, v: string): string {
    if v == "" then "" else ",\"" + key + "\":\"" + Escape(v) + "\""
  }

  function IntField(key: string, v: int): string {
    if v == 0 then "" else ",\"" + key + "\":" + Decimal(v)
  }

  function BoolField(key: string, v: bool): string {
    if v then ",\"" + key + "\":true" else ""
  }

  function PayloadText(r: Result): string {
    "{\"kind\":\"result\"" + StringField("ref_id", r.refId) + IntField("exit_code", r.exitCode)
    + StringField("stdout", r.stdout) + StringField("stderr", r.stderr) + IntField("duration_ms", r.durationMs)
    + BoolField("truncated", r.truncated) + BoolField("timed_out", r.timedOut) + "}"
  }

  function FrameText(id: Id, ts: int, r: Result): string {
    "{\"v\":1,\"type\":\"notification\",\"id\":\"" + Escape(id) + "\",\"ts\":" + Decimal(ts)
    + ",\"payload\":" + PayloadText(r) + "}"
  }

  /** The size of a result frame, field by field: an empty or zero field takes no room. */
  lemma ResultFrameSize(id: Id, ts: int, r: Result)
    ensures |FrameText(id, ts, r)| == 71 + |Escape(id)| + |Decimal(ts)|
            + (if r.refId == "" then 0 else |Escape(r.refId)| + 12)
            + (if r.exitCode == 0 then 0 else |Decimal(r.exitCode)| + 13)
            + (if r.stdout == "" then 0 else |Escape(r.stdout)| + 12)
            + (if r.stderr == "" then 0 else |Escape(r.stderr)| + 12)
            + (if r.durationMs == 0 then 0 else |Decimal(r.durationMs)| + 15)
            + (if r.truncated then 17 else 0) + (if r.timedOut then 17 else 0)
  {
    PayloadSize(r);
    FrameSize(id, ts, r);
    TextSize("ref_id", r.refId, 6);
    NumberSize("exit_code", r.exitCode, 9);
    TextSize("stdout", r.stdout, 6);
    TextSize("stderr", r.stderr, 6);
    NumberSize("duration_ms", r.durationMs, 11);
    FlagSize("truncated", r.truncated, 9);
    FlagSize("timed_out", r.timedOut, 9);
  }

  lemma TextSize(key: string, v: string, n: nat)
    requires |key| == n
    ensures |StringField(key, v)| == if v == "" then 0 else |Escape(v)| + n + 6
  {
  }

  lemma NumberSize(key: string, v: int, n: nat)
    requires |key| == n
    ensures |IntField(key, v)| == if v == 0 then 0 else |Decimal(v)| + n + 4
  {
  }

  lemma FlagSize(key: string, v: bool, n: nat)
    requires |key| == n
    ensures |BoolField(key, v)| == if v then n + 8 else 0
  {
  }

  lemma PayloadSize(r: Result)
    ensures |PayloadText(r)| == 17
            + |StringField("ref_id", r.refId)| + |IntField("exit_code", r.exitCode)|
            + |StringField("stdout", r.stdout)| + |StringField("stderr", r.stderr)| + |IntField("duration_ms", r.durationMs)|
            + |BoolField("truncated", r.truncated)| + |BoolField("timed_out", r.timedOut)|
  {
  }

  /** The encoder accepts the frame, so the write pump does not drop it. */
  predicate FrameFits(id: Id, ts: int, r: Result) {
    |FrameText(id, ts, r)| <= MAX_FRAME_BYTES
  }

  const ID_LENGTH := 26

  lemma PayloadFits(r: Result)
    requires |r.refId| == ID_LENGTH && Int64(r.exitCode) && Int64(r.durationMs)
    ensures |PayloadText(r)| <= |Escape(r.stdout)| + |Escape(r.stderr)| + 400
  {
    EscapeAtMostSixfold(r.refId);
    DecimalFits(r.exitCode);
    DecimalFits(r.durationMs);
  }

  /** With both outputs within the output limit, a result frame fits, whatever bytes the outputs are. */
  lemma BoundedOutputsFit(id: Id, ts: int, r: Result)
    requires |id| == |r.refId| == ID_LENGTH && Int64(ts) && Int64(r.exitCode) && Int64(r.durationMs)
    requires |r.stdout| <= MAX_OUTPUT_BYTES && |r.stderr| <= MAX_OUTPUT_BYTES
    ensures FrameFits(id, ts, r)
  {
    PayloadFits(r);
    EscapeAtMostSixfold(id);
    EscapeAtMostSixfold(r.stdout);
    EscapeAtMostSixfold(r.stderr);
    DecimalFits(ts);
  }

  /** The numbers an execution reports are within the source's integer type. */
  predicate Int64World(w: World) {
    && Int64(ExitCode(w.shell.exit)) && Int64(w.shell.durationMs)
    && Int64(w.handler.code) && Int64(w.handler.durationMs)
  }

  predicate UnknownPredefined(known: set<string>, instr: Instruction, now: int) {
    !PastDeadline(instr.deadline, now) && instr.kind == KIND_PREDEFINED && instr.name !in known
  }

  /** Every result but that of an unknown predefined command fits its frame. */
  lemma ResultFrameFits(known: set<string>, id: Id, instr: Instruction, w: World, frameId: Id, ts: int)
    requires |id| == |frameId| == ID_LENGTH && Int64(ts) && Int64World(w)
    requires !UnknownPredefined(known, instr, w.now)
    ensures FrameFits(frameId, ts, Outcome(known, id, instr, w)) && |FrameText(frameId, ts, Outcome(known, id, instr, w))| <= 1_048_576
  {
    assert KIND_SHELL[0] != KIND_PREDEFINED[0];
    BoundedOutputsFit(frameId, ts, Outcome(known, id, instr, w));
  }

  const UNKNOWN_PREDEFINED := "unknown predefined command: "

  predicate Plain(c: char) {
    0x20 <= c as int < 0x80 && c != '"' && c != '\\' && c != '<' && c != '>' && c != '&'
  }

  lemma PlainFirst(s: string)
    requires s != "" && Plain(s[0])
    ensures Escape(s) == [s[0]] + Escape(s[1..])
  {
    var c := s[0];
    assert c != 8 as char && c != 12 as char && c != '\n' && c != '\r' && c != '\t';
    assert RuneWidth(s) == 1 && s[..1] == [c];
  }

  lemma {:induction false} PlainStays(p: string, s: string)
    requires forall c <- p :: Plain(c)
    ensures Escape(p + s) == p + Escape(s)
  {
    if p == "" {
      assert p + s == s;
    } else {
      var c, rest := p[0], p[1..];
      assert p == [c] + rest;
      Prepend(c, rest, s);
      PlainFirst(p + s);
      assert forall d <- rest :: d in p;
      PlainStays(rest, s);
      Prepend(c, rest, Escape(s));
    }
  }

  lemma Prepend(c: char, a: string, b: string)
    ensures [c] + a + b == [c] + (a + b)
    ensures ([c] + a + b)[0] == c && ([c] + a + b)[1..] == a + b
  {
  }

  /** What of such a frame depends on neither the name, the ids nor the time. */
  const FIXED_BYTES := 138

  /**
   The name of an unknown predefined command is reported in full, so its frame fits exactly when the
   escaped name, the ids and the time leave room for the fixed part.
   */
  lemma UnknownPredefinedFitsExactly(known: set<string>, id: Id, instr: Instruction, w: World, frameId: Id, ts: int)
    requires UnknownPredefined(known, instr, w.now) && id != ""
    ensures FrameFits(frameId, ts, Outcome(known, id, instr, w))
       <==> |Escape(instr.name)| + |Escape(id)| + |Escape(frameId)| + |Decimal(ts)| + FIXED_BYTES <= MAX_FRAME_BYTES
  {
    assert KIND_SHELL[0] != KIND_PREDEFINED[0];
    UnknownFrameSize(id, instr.name, frameId, ts);
  }

  lemma UnknownFrameSize(id: Id, name: string, frameId: Id, ts: int)
    requires id != ""
    ensures |FrameText(frameId, ts, NotRun(id, UNKNOWN_PREDEFINED + name))|
         == |Escape(name)| + |Escape(id)| + |Escape(frameId)| + |Decimal(ts)| + FIXED_BYTES
  {
    PrefixIsPlain();
    ReasonFrameSize(id, UNKNOWN_PREDEFINED, name, frameId, ts);
  }

  lemma PrefixIsPlain()
    ensures |UNKNOWN_PREDEFINED| == 28 && forall c <- UNKNOWN_PREDEFINED :: Plain(c)
  {
  }

  lemma ReasonFrameSize(id: Id, prefix: string, name: string, frameId: Id, ts: int)
    requires id != "" && prefix != "" && forall c <- prefix :: Plain(c)
    ensures |FrameText(frameId, ts, NotRun(id, prefix + name))|
         == |Escape(name)| + |Escape(id)| + |Escape(frameId)| + |Decimal(ts)| + FIXED_BYTES - 28 + |prefix|
  {
    PlainStays(prefix, name);
    NotRunPayloadSize(id, prefix + name);
    FrameSize(frameId, ts, NotRun(id, prefix + name));
  }

  lemma FrameSize(id: Id, ts: int, r: Result)
    ensures |FrameText(id, ts, r)| == |Escape(id)| + |Decimal(ts)| + |PayloadText(r)| + 54
  {
  }

  lemma NotRunPayloadSize(id: Id, reason: string)
    requires id != "" && reason != ""
    ensures |PayloadText(NotRun(id, reason))| == |Escape(id)| + |Escape(reason)| + 56
  {
    TextSize("ref_id", id, 6);
    TextSize("stderr", reason, 6);
    assert |Decimal(-1)| == 2;
  }

  /** The frame of an instruction to run a predefined command without arguments. */
  function InstructionText(id: Id, ts: int, name: string, deadline: int): string {
    "{\"v\":1,\"type\":\"instruction\",\"id\":\"" + Escape(id) + "\",\"ts\":" + Decimal(ts) + ",\"payload\":"
    + ("{\"kind\":\"predefined\"" + StringField("name", name) + IntField("deadline", deadline) + "}") + "}"
  }

  lemma InstructionSize(id: Id, ts: int, name: string, deadline: int)
    requires name != "" && deadline != 0
    ensures |InstructionText(id, ts, name, deadline)|
         == |Escape(name)| + |Escape(id)| + |Decimal(ts)| + |Decimal(deadline)| + 96
  {
    TextSize("name", name, 4);
  }

  /** The Manager can send the instruction, and the Node receive it, but not the Node its result. */
  ghost predicate Lost(id: Id, ts: int, name: string, deadline: int, frameId: Id, at: int) {
    && |InstructionText(id, ts, name, deadline)| <= MAX_FRAME_BYTES
    && !FrameFits(frameId, at, NotRun(id, UNKNOWN_PREDEFINED + name))
  }

  /** A result is lost exactly when the escaped name is in the gap between what the two frames can carry. */
  lemma LostExactly(id: Id, ts: int, name: string, deadline: int, frameId: Id, at: int)
    requires id != "" && name != "" && deadline != 0
    ensures Lost(id, ts, name, deadline, frameId, at)
       <==> MAX_FRAME_BYTES - |Escape(frameId)| - |Decimal(at)| - FIXED_BYTES
            < |Escape(name)| + |Escape(id)|
            <= MAX_FRAME_BYTES - |Decimal(ts)| - |Decimal(deadline)| - 96
  {
    InstructionSize(id, ts, name, deadline);
    UnknownFrameSize(id, name, frameId, at);
  }

  lemma PlainIsItself(s: string)
    requires forall c <- s :: Plain(c)
    ensures Escape(s) == s
  {
    PlainStays(s, "");
    assert s + "" == s;
  }

  /** There are such names, whatever short names the Node knows. */
  lemma SomeNameIsLost(known: set<string>, id: Id, ts: int, deadline: int, frameId: Id, at: int) returns (name: string)
    requires (forall k <- known :: |k| < 1000) && deadline != 0
    requires |id| == |frameId| == ID_LENGTH && (forall c <- id :: Plain(c)) && (forall c <- frameId :: Plain(c))
    requires |Decimal(ts)| == |Decimal(deadline)| == |Decimal(at)| == 13
    ensures name !in known && Lost(id, ts, name, deadline, frameId, at)
  {
    var n := MAX_FRAME_BYTES - 13 - 13 - 96 - ID_LENGTH;
    name := seq(n, _ => 'a');
    PlainIsItself(name);
    PlainIsItself(id);
    PlainIsItself(frameId);
    LostExactly(id, ts, name, deadline, frameId, at);
  }
}
