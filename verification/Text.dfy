/** The string functions the line formats are read with. A char stands for one code point. */
module Text {
  /** White space as `unicode.IsSpace` has it. */
  predicate IsSpace(c: char) {
    var n := c as int;
    || 9 <= n <= 13 || n == 0x20 || n == 0x85 || n == 0xA0 || n == 0x1680 || 0x2000 <= n <= 0x200A
    || n == 0x2028 || n == 0x2029 || n == 0x202F || n == 0x205F || n == 0x3000
  }

  predicate IsQuote(c: char) {
    c == '"' || c == '\''
  }

  function TrimLeft(p: char -> bool, s: string): string {
    if s != "" && p(s[0]) then TrimLeft(p, s[1..]) else s
  }

  function TrimRight(p: char -> bool, s: string): string {
    if s != "" && p(s[|s| - 1]) then TrimRight(p, s[..|s| - 1]) else s
  }

  function Trim(p: char -> bool, s: string): string {
    TrimRight(p, TrimLeft(p, s))
  }

  function TrimSpace(s: string): string {
    Trim(IsSpace, s)
  }

  function TrimPrefix(s: string, prefix: string): string {
    if prefix <= s then s[|prefix|..] else s
  }

  /** What stands before and after the first `sep`, and whether there is one. */
  function Cut(s: string, sep: char): (parts: (string, string, bool))
    ensures parts.2 ==> |parts.1| < |s|
  {
    if s == "" then ("", "", false)
    else if s[0] == sep then ("", s[1..], true)
    else
      var (before, after, found) := Cut(s[1..], sep);
      ([s[0]] + before, after, found)
  }

  predicate OneLine(s: string) {
    '\n' !in s
  }

  /** The pieces between newlines, with the empty one after a final newline. */
  function Split(s: string): (lines: seq<string>)
    ensures lines != []
    decreases |s|
  {
    var (line, rest, found) := Cut(s, '\n');
    if found then [line] + Split(rest) else [line]
  }

  /** The lines of a text: what follows a final newline only if it is not empty. */
  function Lines(s: string): seq<string> {
    var pieces := Split(s);
    if pieces[|pieces| - 1] == "" then pieces[..|pieces| - 1] else pieces
  }

  lemma {:induction false} CutAt(a: string, sep: char, b: string)
    requires sep !in a
    ensures Cut(a + [sep] + b, sep) == (a, b, true)
    ensures !Cut(a, sep).2 && Cut(a, sep).0 == a
  {
    if a == "" {
      assert a + [sep] + b == [sep] + b;
    } else {
      CutAt(a[1..], sep, b);
      assert [a[0]] + a[1..] == a;
      assert (a + [sep] + b)[1..] == a[1..] + [sep] + b;
    }
  }

  lemma SplitFirst(line: string, rest: string)
    requires OneLine(line)
    ensures Split(line + "\n" + rest) == [line] + Split(rest)
  {
    CutAt(line, '\n', rest);
  }

  lemma {:induction false} CutAddsNothing(s: string, sep: char)
    ensures sep !in Cut(s, sep).0
    ensures forall c <- Cut(s, sep).0 :: c in s
    ensures forall c <- Cut(s, sep).1 :: c in s
  {
    if s != "" {
      assert s == [s[0]] + s[1..];
      if s[0] != sep {
        CutAddsNothing(s[1..], sep);
      }
    }
  }

  lemma {:induction false} LinesAreOneLine(s: string)
    ensures forall line <- Split(s) :: OneLine(line)
    ensures forall line <- Lines(s) :: OneLine(line)
    decreases |s|
  {
    CutAddsNothing(s, '\n');
    var (line, rest, found) := Cut(s, '\n');
    if found {
      LinesAreOneLine(rest);
      assert Split(s) == [line] + Split(rest);
    }
  }

  function Unlines(lines: seq<string>): string {
    if lines == [] then "" else lines[0] + "\n" + Unlines(lines[1..])
  }

  lemma {:induction false} SplitOfUnlines(lines: seq<string>)
    requires forall line <- lines :: OneLine(line)
    ensures Split(Unlines(lines)) == lines + [""]
  {
    if lines != [] {
      assert forall line <- lines[1..] :: line in lines;
      SplitOfUnlines(lines[1..]);
      SplitFirst(lines[0], Unlines(lines[1..]));
    }
  }

  lemma LinesOfUnlines(lines: seq<string>)
    requires forall line <- lines :: OneLine(line)
    ensures Lines(Unlines(lines)) == lines
  {
    SplitOfUnlines(lines);
  }

  lemma {:induction false} SplitOfRest(lines: seq<string>, rest: string)
    requires (forall line <- lines :: OneLine(line)) && OneLine(rest)
    ensures Split(Unlines(lines) + rest) == lines + [rest]
  {
    if lines == [] {
      assert Unlines(lines) + rest == rest;
      CutAt(rest, '\n', "");
    } else {
      assert forall line <- lines[1..] :: line in lines;
      SplitOfRest(lines[1..], rest);
      SplitFirst(lines[0], Unlines(lines[1..]) + rest);
      assert Unlines(lines) + rest == lines[0] + "\n" + (Unlines(lines[1..]) + rest);
    }
  }

  /** What follows the last newline is a line of its own, unless it is empty. */
  lemma LinesOfRest(lines: seq<string>, rest: string)
    requires (forall line <- lines :: OneLine(line)) && OneLine(rest)
    ensures Lines(Unlines(lines) + rest) == if rest == "" then lines else lines + [rest]
  {
    SplitOfRest(lines, rest);
  }

  lemma {:induction false} TrimRightConcat(p: char -> bool, a: string, b: string)
    ensures TrimRight(p, a + b) == if TrimRight(p, b) == "" then TrimRight(p, a) else a + TrimRight(p, b)
  {
    if b == "" {
      assert a + b == a;
    } else {
      var n := |b| - 1;
      assert (a + b)[|a + b| - 1] == b[n];
      assert (a + b)[..|a + b| - 1] == a + b[..n];
      if p(b[n]) {
        TrimRightConcat(p, a, b[..n]);
      }
    }
  }

  lemma TrimRightOne(p: char -> bool, c: char)
    ensures TrimRight(p, [c]) == if p(c) then "" else [c]
  {
    assert [c][..0] == "";
  }

  /** It does not matter which end is trimmed first. */
  lemma {:induction false} TrimCommutes(p: char -> bool, s: string)
    ensures TrimRight(p, TrimLeft(p, s)) == TrimLeft(p, TrimRight(p, s))
  {
    if s != "" {
      var t := s[1..];
      assert s == [s[0]] + t;
      TrimRightConcat(p, [s[0]], t);
      TrimRightOne(p, s[0]);
      if p(s[0]) {
        TrimCommutes(p, t);
      }
    }
  }

  lemma {:induction false} TrimRightAgain(p: char -> bool, s: string)
    ensures TrimRight(p, TrimRight(p, s)) == TrimRight(p, s)
  {
    if s != "" && p(s[|s| - 1]) {
      TrimRightAgain(p, s[..|s| - 1]);
    }
  }

  /** Trimming the right end first changes nothing. */
  lemma TrimOfTrimRight(p: char -> bool, s: string)
    ensures Trim(p, TrimRight(p, s)) == Trim(p, s)
  {
    TrimCommutes(p, s);
    TrimCommutes(p, TrimRight(p, s));
    TrimRightAgain(p, s);
  }

  /** Nothing is left by one trim exactly when nothing is left by the other. */
  lemma {:induction false} TrimsToNothing(p: char -> bool, s: string)
    ensures Trim(p, s) == "" <==> TrimRight(p, s) == ""
  {
    TrimCommutes(p, s);
    var t := TrimRight(p, s);
    if t != "" {
      LastIsKept(p, s);
      LastStays(p, t);
    }
  }

  lemma {:induction false} LastIsKept(p: char -> bool, s: string)
    requires TrimRight(p, s) != ""
    ensures var t := TrimRight(p, s); t != "" && !p(t[|t| - 1])
  {
    if p(s[|s| - 1]) {
      LastIsKept(p, s[..|s| - 1]);
    }
  }

  lemma {:induction false} LastStays(p: char -> bool, t: string)
    requires t != "" && !p(t[|t| - 1])
    ensures TrimLeft(p, t) != ""
  {
    if p(t[0]) {
      LastStays(p, t[1..]);
    }
  }

  lemma {:induction false} TrimLeftShortens(p: char -> bool, s: string)
    ensures if s == "" || !p(s[0]) then TrimLeft(p, s) == s else |TrimLeft(p, s)| < |s|
    ensures forall c <- TrimLeft(p, s) :: c in s
  {
    if s != "" && p(s[0]) {
      TrimLeftShortens(p, s[1..]);
    }
  }

  lemma {:induction false} TrimRightShortens(p: char -> bool, s: string)
    ensures if s == "" || !p(s[|s| - 1]) then TrimRight(p, s) == s else |TrimRight(p, s)| < |s|
    ensures forall c <- TrimRight(p, s) :: c in s
  {
    if s != "" && p(s[|s| - 1]) {
      TrimRightShortens(p, s[..|s| - 1]);
    }
  }

  predicate BareEnds(p: char -> bool, s: string) {
    s == "" || (!p(s[0]) && !p(s[|s| - 1]))
  }

  /** A trim adds nothing, and leaves a string alone exactly when neither of its ends is to be trimmed. */
  lemma TrimLeavesExactly(p: char -> bool, s: string)
    ensures Trim(p, s) == s <==> BareEnds(p, s)
    ensures Trim(p, s) == s || |Trim(p, s)| < |s|
    ensures forall c <- Trim(p, s) :: c in s
  {
    TrimLeftShortens(p, s);
    TrimRightShortens(p, TrimLeft(p, s));
  }

  /** Spaces before a word that does not begin with one. */
  lemma {:induction false} TrimsIndent(p: char -> bool, indent: string, s: string)
    requires s != "" && !p(s[0]) && forall c <- indent :: p(c)
    ensures TrimLeft(p, indent + s) == s
  {
    if indent == "" {
      assert indent + s == s;
    } else {
      assert (indent + s)[1..] == indent[1..] + s;
      TrimsIndent(p, indent[1..], s);
    }
  }

  /** A line that begins with the word `key`, after an indent: only its right end is trimmed. */
  lemma TrimKeyed(indent: string, key: string, value: string)
    requires key != "" && !IsSpace(key[0]) && !IsSpace(key[|key| - 1])
    requires forall c <- indent :: IsSpace(c)
    ensures TrimSpace(indent + key + value) == key + TrimRight(IsSpace, value)
  {
    assert indent + key + value == indent + (key + value);
    TrimsIndent(IsSpace, indent, key + value);
    TrimRightConcat(IsSpace, key, value);
  }
}
