/**
 The Node's identity file: the encoder, the parser, and the second reader of `sit node setup` that
 only asks whether a secret is there.
 */
module Identities {
  import opened Protocol
  import opened Text

  datatype Identity = Identity(nodeId: string, secret: string)

  const NODE_ID := "node_id"
  const SECRET := "secret"

  function Encode(id: Identity): string {
    Unlines([NODE_ID + "=" + id.nodeId, SECRET + "=" + id.secret])
  }

  /** A line assigns `key` when it reads `key=…` once trimmed; the key itself is not trimmed. */
  predicate Assigns(line: string, key: string) {
    var (k, _, found) := Cut(TrimSpace(line), '=');
    found && k == key
  }

  /** The value of the last line that assigns `key`. */
  function LastValue(lines: seq<string>, key: string): string {
    if lines == [] then ""
    else if Assigns(lines[|lines| - 1], key) then Cut(TrimSpace(lines[|lines| - 1]), '=').1
    else LastValue(lines[..|lines| - 1], key)
  }

  function Read(text: string): Identity {
    Identity(LastValue(Split(text), NODE_ID), LastValue(Split(text), SECRET))
  }

  method ParseIdentity(text: string) returns (id: Identity)
    ensures id == Read(text)
  {
    id := Identity("", "");
    var lines := Split(text);
    for i := 0 to |lines|
      invariant id == Identity(LastValue(lines[..i], NODE_ID), LastValue(lines[..i], SECRET))
    {
      assert lines[..i + 1][..i] == lines[..i];
      var line := TrimSpace(lines[i]);
      if line == "" {
        continue;
      }
      var (k, v, found) := Cut(line, '=');
      if !found {
        continue;
      }
      if k == NODE_ID {
        id := id.(nodeId := v);
      } else if k == SECRET {
        id := id.(secret := v);
      }
    }
    assert lines[..|lines|] == lines;
  }

  const SECRET_PREFIX := "secret="

  predicate ShowsSecret(line: string) {
    SECRET_PREFIX <= TrimSpace(line) && TrimSpace(TrimPrefix(line, SECRET_PREFIX)) != ""
  }

  /** What the setup command takes for an enrolled identity; `None` is a file that cannot be read. */
  predicate HasSecret(file: Option<string>) {
    file.Some? && exists i :: 0 <= i < |Split(file.value)| && ShowsSecret(Split(file.value)[i])
  }

  method IdentityHasSecret(file: Option<string>) returns (has: bool)
    ensures has == HasSecret(file)
  {
    if file.None? {
      return false;
    }
    var lines := Split(file.value);
    for i := 0 to |lines|
      invariant forall k :: 0 <= k < i ==> !ShowsSecret(lines[k])
    {
      if SECRET_PREFIX <= TrimSpace(lines[i]) && TrimSpace(TrimPrefix(lines[i], SECRET_PREFIX)) != "" {
        return true;
      }
    }
    return false;
  }

  lemma EncodedLines(id: Identity)
    requires OneLine(id.nodeId) && OneLine(id.secret)
    ensures Split(Encode(id)) == [NODE_ID + "=" + id.nodeId, SECRET + "=" + id.secret, ""]
  {
    SplitOfUnlines([NODE_ID + "=" + id.nodeId, SECRET + "=" + id.secret]);
  }

  lemma AssignedValue(line: string, key: string, value: string)
    requires key != "" && BareEnds(IsSpace, key) && '=' !in key
    requires line == key + "=" + value
    ensures Cut(TrimSpace(line), '=') == (key, TrimRight(IsSpace, value), true)
  {
    var after := TrimRight(IsSpace, value);
    assert line == "" + (key + "=") + value;
    TrimKeyed("", key + "=", value);
    assert key + "=" + after == key + ['='] + after;
    CutAt(key, '=', after);
  }

  /** What is read of what was encoded: white space at the end of a value is lost. */
  lemma EncodedIsRead(id: Identity)
    requires OneLine(id.nodeId) && OneLine(id.secret)
    ensures Read(Encode(id)) == Identity(TrimRight(IsSpace, id.nodeId), TrimRight(IsSpace, id.secret))
  {
    var lines := Split(Encode(id));
    EncodedLines(id);
    AssignedValue(lines[0], NODE_ID, id.nodeId);
    AssignedValue(lines[1], SECRET, id.secret);
    assert !Cut(TrimSpace(""), '=').2;
    LastOfThree(lines);
  }

  lemma LastOfThree(lines: seq<string>)
    requires |lines| == 3 && Assigns(lines[0], NODE_ID) && Assigns(lines[1], SECRET) && !Cut(TrimSpace(lines[2]), '=').2
    ensures LastValue(lines, NODE_ID) == Cut(TrimSpace(lines[0]), '=').1
    ensures LastValue(lines, SECRET) == Cut(TrimSpace(lines[1]), '=').1
  {
    var two := lines[..2];
    assert two[..1] == lines[..1] && two[1] == lines[1] && lines[..1][0] == lines[0];
    assert forall key :: LastValue(lines, key) == LastValue(two, key) || Assigns(lines[2], key);
    assert LastValue(two, NODE_ID) == LastValue(lines[..1], NODE_ID);
  }

  lemma {:induction false} ReadsOneLineValues(lines: seq<string>, key: string)
    requires forall line <- lines :: OneLine(line)
    ensures OneLine(LastValue(lines, key))
  {
    if lines != [] {
      var last := lines[|lines| - 1];
      assert last in lines;
      TrimLeavesExactly(IsSpace, last);
      CutAddsNothing(TrimSpace(last), '=');
      assert forall line <- lines[..|lines| - 1] :: line in lines;
      ReadsOneLineValues(lines[..|lines| - 1], key);
    }
  }

  predicate EndsBare(s: string) {
    s == "" || !IsSpace(s[|s| - 1])
  }

  lemma IdentityRoundTripsExactly(id: Identity)
    ensures Read(Encode(id)) == id
       <==> OneLine(id.nodeId) && OneLine(id.secret) && EndsBare(id.nodeId) && EndsBare(id.secret)
  {
    if OneLine(id.nodeId) && OneLine(id.secret) {
      EncodedIsRead(id);
      TrimRightShortens(IsSpace, id.nodeId);
      TrimRightShortens(IsSpace, id.secret);
    } else {
      LinesAreOneLine(Encode(id));
      ReadsOneLineValues(Split(Encode(id)), NODE_ID);
      ReadsOneLineValues(Split(Encode(id)), SECRET);
    }
  }

  /** On an encoded identity the setup command and the Node agree whether there is a secret. */
  lemma ReadersAgree(id: Identity)
    requires OneLine(id.nodeId) && OneLine(id.secret)
    ensures HasSecret(Some(Encode(id))) <==> Read(Encode(id)).secret != ""
  {
    var lines := Split(Encode(id));
    EncodedLines(id);
    EncodedIsRead(id);
    TrimsToNothing(IsSpace, id.secret);
    NodeLineShowsNone(lines[0], id.nodeId);
    SecretLineShows(lines[1], id.secret);
  }

  lemma NodeLineShowsNone(line: string, value: string)
    requires line == NODE_ID + "=" + value
    ensures !ShowsSecret(line)
  {
    assert line == "" + NODE_ID + ("=" + value);
    TrimKeyed("", NODE_ID, "=" + value);
    assert TrimSpace(line)[0] == 'n';
  }

  lemma SecretLineShows(line: string, value: string)
    requires line == SECRET + "=" + value
    ensures ShowsSecret(line) <==> TrimSpace(value) != ""
  {
    assert line == "" + SECRET_PREFIX + value;
    TrimKeyed("", SECRET_PREFIX, value);
    assert line[|SECRET_PREFIX|..] == value;
  }

  predicate IsSecretLine(line: string) {
    SECRET_PREFIX <= TrimSpace(line)
  }

  predicate Indented(line: string) {
    !(SECRET_PREFIX <= line)
  }

  predicate BlankSecret(line: string) {
    TrimSpace(line) == SECRET_PREFIX
  }

  ghost predicate LastSecretLine(lines: seq<string>, k: int) {
    0 <= k < |lines| && IsSecretLine(lines[k]) && forall m :: k < m < |lines| ==> !IsSecretLine(lines[m])
  }

  /** The last secret line is blank, and some secret line is indented or not blank. */
  ghost predicate Misleading(lines: seq<string>) {
    && (exists k :: LastSecretLine(lines, k) && BlankSecret(lines[k]))
    && (exists m :: 0 <= m < |lines| && IsSecretLine(lines[m]) && (Indented(lines[m]) || !BlankSecret(lines[m])))
  }

  lemma {:induction false} CutJoins(s: string, sep: char)
    ensures var (before, after, found) := Cut(s, sep); found ==> s == before + [sep] + after
  {
    if s != "" && s[0] != sep {
      CutJoins(s[1..], sep);
      assert s == [s[0]] + s[1..];
    }
  }

  /** A line that the Node takes for the secret, and what it takes. */
  lemma NodeTakes(line: string)
    ensures Assigns(line, SECRET) <==> IsSecretLine(line)
    ensures IsSecretLine(line) ==> Cut(TrimSpace(line), '=').1 == TrimSpace(line)[|SECRET_PREFIX|..]
  {
    var s := TrimSpace(line);
    if SECRET_PREFIX <= s {
      CutAt(SECRET, '=', s[|SECRET_PREFIX|..]);
      assert s == SECRET + ['='] + s[|SECRET_PREFIX|..];
    }
    if Assigns(line, SECRET) {
      CutJoins(s, '=');
      assert SECRET + ['='] == SECRET_PREFIX;
    }
  }

  /** A line that the setup command takes for a secret. */
  lemma SetupTakes(line: string)
    ensures ShowsSecret(line) <==> IsSecretLine(line) && (Indented(line) || !BlankSecret(line))
  {
    if !Indented(line) {
      var value := line[|SECRET_PREFIX|..];
      assert line == "" + SECRET_PREFIX + value;
      TrimKeyed("", SECRET_PREFIX, value);
      TrimsToNothing(IsSpace, value);
    }
  }

  lemma {:induction false} LastSecretIsRead(lines: seq<string>, k: int)
    requires LastSecretLine(lines, k)
    ensures LastValue(lines, SECRET) == TrimSpace(lines[k])[|SECRET_PREFIX|..]
  {
    var n := |lines| - 1;
    NodeTakes(lines[n]);
    if k < n {
      var before := lines[..n];
      assert forall m :: 0 <= m < n ==> before[m] == lines[m];
      LastSecretIsRead(before, k);
    }
  }

  lemma {:induction false} NoSecretIsRead(lines: seq<string>)
    requires forall k :: 0 <= k < |lines| ==> !IsSecretLine(lines[k])
    ensures LastValue(lines, SECRET) == ""
  {
    if lines != [] {
      NodeTakes(lines[|lines| - 1]);
      NoSecretIsRead(lines[..|lines| - 1]);
    }
  }

  lemma {:induction false} SomeLastSecret(lines: seq<string>, m: nat) returns (k: nat)
    requires m < |lines| && IsSecretLine(lines[m])
    ensures LastSecretLine(lines, k)
    decreases |lines| - m
  {
    k := m;
    if n :| m < n < |lines| && IsSecretLine(lines[n]) {
      k := SomeLastSecret(lines, n);
    }
  }

  lemma OneLastSecretLine(lines: seq<string>, j: int, k: int)
    requires LastSecretLine(lines, j) && LastSecretLine(lines, k)
    ensures j == k
  {
  }

  /** The Node reads no secret exactly when there is no secret line, or the last one is blank. */
  lemma ReadsNoneExactly(lines: seq<string>)
    ensures LastValue(lines, SECRET) == ""
       <==> forall k :: LastSecretLine(lines, k) ==> BlankSecret(lines[k])
  {
    if m :| 0 <= m < |lines| && IsSecretLine(lines[m]) {
      var k := SomeLastSecret(lines, m);
      LastSecretIsRead(lines, k);
      forall j | LastSecretLine(lines, j)
        ensures j == k
      {
        OneLastSecretLine(lines, j, k);
      }
      var s := TrimSpace(lines[k]);
      assert s == SECRET_PREFIX + s[|SECRET_PREFIX|..];
    } else {
      NoSecretIsRead(lines);
    }
  }

  lemma SeesExactly(lines: seq<string>)
    ensures (exists m :: 0 <= m < |lines| && ShowsSecret(lines[m]))
       <==> exists m :: 0 <= m < |lines| && IsSecretLine(lines[m]) && (Indented(lines[m]) || !BlankSecret(lines[m]))
  {
    forall m | 0 <= m < |lines|
      ensures ShowsSecret(lines[m]) <==> IsSecretLine(lines[m]) && (Indented(lines[m]) || !BlankSecret(lines[m]))
    {
      SetupTakes(lines[m]);
    }
  }

  /** What the Node reads as a secret the setup command always sees. */
  lemma NodeSecretIsSeen(text: string)
    ensures Read(text).secret != "" ==> HasSecret(Some(text))
  {
    ReadsNoneExactly(Split(text));
    SeesExactly(Split(text));
  }

  lemma MisleadingExactly(lines: seq<string>)
    ensures Misleading(lines)
       <==> LastValue(lines, SECRET) == "" && exists m :: 0 <= m < |lines| && ShowsSecret(lines[m])
  {
    ReadsNoneExactly(lines);
    SeesExactly(lines);
    if m :| 0 <= m < |lines| && IsSecretLine(lines[m]) {
      var k := SomeLastSecret(lines, m);
      assert forall j :: LastSecretLine(lines, j) ==> j == k;
    }
  }

  /** For every text: the two readers agree exactly when it is not misleading. */
  lemma ReadersAgreeExactly(text: string)
    ensures (HasSecret(Some(text)) <==> Read(text).secret != "") <==> !Misleading(Split(text))
  {
    NodeSecretIsSeen(text);
    MisleadingExactly(Split(text));
  }

  /** On other texts they need not: an indented line with no secret looks like one to the setup command. */
  lemma ReadersDisagree()
    ensures var text := " secret="; HasSecret(Some(text)) && Read(text).secret == ""
  {
    var line := " secret=";
    IndentedSecretLine(line);
    CutAt(line, '\n', "");
    assert Split(line) == [line];
    assert ShowsSecret(Split(line)[0]);
  }

  lemma IndentedSecretLine(line: string)
    requires line == " " + (SECRET + "=")
    ensures ShowsSecret(line) && Assigns(line, SECRET) && Cut(TrimSpace(line), '=').1 == ""
  {
    IndentedKey(line, SECRET);
    IndentedShows(line);
  }

  lemma IndentedShows(line: string)
    requires line != "" && line[0] == ' ' && TrimSpace(line) == SECRET + "="
    ensures ShowsSecret(line)
  {
    assert !(SECRET_PREFIX <= line);
  }

  lemma IndentedKey(line: string, key: string)
    requires key != "" && BareEnds(IsSpace, key) && '=' !in key && line == " " + (key + "=")
    ensures TrimSpace(line) == key + "=" && Cut(key + "=", '=') == (key, "", true)
  {
    assert line == " " + key + "=";
    TrimKeyed(" ", key, "=");
    TrimRightOne(IsSpace, '=');
    CutAt(key, '=', "");
    assert key + ['='] + "" == key + "=";
  }
}
