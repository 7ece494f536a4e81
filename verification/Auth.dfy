/**
 Enrollment and node credentials. The store keeps hashes only; the ghost log keeps what happened, so
 that the contracts can speak of tokens and secrets. At the end, enrollments that overlap: there, each
 store statement is one step.
 */
module Auths {
  import opened Protocol
  import opened Text

  datatype Token = Token(used: bool, expiresAt: int)
  datatype Credential = Active(secretHash: string) | Revoked

  datatype Event =
    | Minted(token: string, expiresAt: int)
    | Used(token: string, at: int)
    | Issued(node: NodeId, secret: string, token: string)
    | Revoke(node: NodeId)

  datatype Verdict = Accepted | BadCredentials | RefusedRevoked

  /** The row of a token, as the log has it. */
  function TokenOf(log: seq<Event>, token: string): Option<Token> {
    if log == [] then None
    else
      var before := TokenOf(log[..|log| - 1], token);
      match log[|log| - 1]
      case Minted(t, e) => if t == token then Some(Token(false, e)) else before
      case Used(t, _) => if t == token && before.Some? then Some(before.value.(used := true)) else before
      case _ => before
  }

  /** The last issue or revocation for a node. */
  function LastAbout(log: seq<Event>, node: NodeId): Option<Event> {
    if log == [] then None
    else
      var last := log[|log| - 1];
      if (last.Issued? || last.Revoke?) && last.node == node then Some(last)
      else LastAbout(log[..|log| - 1], node)
  }

  predicate Mints(e: Event, token: string) {
    e.Minted? && e.token == token
  }

  predicate Uses(e: Event, token: string) {
    e.Used? && e.token == token
  }

  predicate Issues(e: Event, token: string) {
    e.Issued? && e.token == token
  }

  predicate Happened(log: seq<Event>, what: (Event, string) -> bool, token: string) {
    exists i :: 0 <= i < |log| && what(log[i], token)
  }

  /** What may come next: a token is minted once, used once and in time, and backs one credential. */
  predicate Allowed(before: seq<Event>, e: Event) {
    match e
    case Minted(t, _) => !Happened(before, Mints, t)
    case Used(t, at) => Usable(before, t, at)
    case Issued(_, _, t) => Happened(before, Uses, t) && !Happened(before, Issues, t)
    case Revoke(n) => LastAbout(before, n).Some?
  }

  predicate Genuine(log: seq<Event>) {
    forall i :: 0 <= i < |log| ==> Allowed(log[..i], log[i])
  }

  lemma GenuineSnoc(log: seq<Event>, e: Event)
    requires Genuine(log) && Allowed(log, e)
    ensures Genuine(log + [e])
  {
    forall i | 0 <= i < |log + [e]| ensures Allowed((log + [e])[..i], (log + [e])[i]) {
      if i < |log| {
        assert (log + [e])[..i] == log[..i];
      } else {
        assert (log + [e])[..i] == log;
      }
    }
  }

  /** A token's row tells its history. */
  lemma {:induction false} RowTellsHistory(log: seq<Event>, token: string)
    requires Genuine(log)
    ensures TokenOf(log, token).Some? <==> Happened(log, Mints, token)
    ensures Happened(log, Uses, token) ==> Happened(log, Mints, token)
    ensures TokenOf(log, token).Some? ==> (TokenOf(log, token).value.used <==> Happened(log, Uses, token))
    ensures forall i :: 0 <= i < |log| && Mints(log[i], token) ==>
      TokenOf(log, token).Some? && TokenOf(log, token).value.expiresAt == log[i].expiresAt
  {
    if log != [] {
      var (before, last) := (log[..|log| - 1], log[|log| - 1]);
      forall i | 0 <= i < |before| ensures Allowed(before[..i], before[i]) {
        assert before[..i] == log[..i];
      }
      RowTellsHistory(before, token);
      assert Allowed(before, last);
      HappenedSnoc(before, last, Mints, token);
      HappenedSnoc(before, last, Uses, token);
      assert log == before + [last];
    }
  }

  lemma HappenedSnoc(log: seq<Event>, e: Event, what: (Event, string) -> bool, token: string)
    ensures Happened(log + [e], what, token) <==> Happened(log, what, token) || what(e, token)
  {
    var now := log + [e];
    assert now[|log|] == e;
    if Happened(log, what, token) {
      var i :| 0 <= i < |log| && what(log[i], token);
      assert what(now[i], token);
    }
    if Happened(now, what, token) && !what(e, token) {
      var i :| 0 <= i < |now| && what(now[i], token);
      assert what(log[i], token);
    }
  }

  /** Each token yields at most one credential, and only a token that was minted, and used in time. */
  lemma TokenYieldsOne(log: seq<Event>, i: nat, j: nat)
    requires Genuine(log) && i < |log| && j < |log| && log[i].Issued? && log[j].Issued? && log[i].token == log[j].token
    ensures i == j
    ensures exists u, m ::
              && 0 <= m < u < i
              && Uses(log[u], log[i].token) && Mints(log[m], log[i].token) && log[u].at <= log[m].expiresAt
  {
    var t := log[i].token;
    if i < j {
      assert Issues(log[..j][i], t);
      assert false;
    }
    if j < i {
      assert Issues(log[..i][j], t);
      assert false;
    }
    var u :| 0 <= u < |log[..i]| && Uses(log[..i][u], t);
    assert Allowed(log[..u], log[u]);
    var m :| 0 <= m < |log[..u]| && Mints(log[..u][m], t) && log[u].at <= log[..u][m].expiresAt;
    assert Mints(log[m], t) && Uses(log[u], t);
  }

  /** Minted, not used yet, and not expired. */
  predicate Usable(log: seq<Event>, token: string, now: int) {
    !Happened(log, Uses, token) && exists i :: 0 <= i < |log| && Mints(log[i], token) && now <= log[i].expiresAt
  }

  function Assigned(node: NodeId, freshId: NodeId): NodeId {
    if node == "" then freshId else node
  }

  class Auth {
    const hash: string -> string
    var tokens: map<string, Token>
    var credentials: map<NodeId, Credential>
    ghost var log: seq<Event>

    ghost predicate Valid()
      reads this
    {
      && (forall a, b :: hash(a) == hash(b) ==> a == b)
      && Genuine(log)
      && (forall t :: TokenRow(t) == TokenOf(log, t))
      && (forall n :: CredentialRow(n) == CredentialOf(LastAbout(log, n)))
    }

    function TokenRow(token: string): Option<Token>
      reads this
    {
      if hash(token) in tokens then Some(tokens[hash(token)]) else None
    }

    function CredentialRow(node: NodeId): Option<Credential>
      reads this
    {
      if node in credentials then Some(credentials[node]) else None
    }

    function CredentialOf(e: Option<Event>): Option<Credential> {
      match e
      case Some(Issued(_, s, _)) => Some(Active(hash(s)))
      case Some(_) => Some(Revoked)
      case None => None
    }

    constructor (hash: string -> string)
      requires forall a, b :: hash(a) == hash(b) ==> a == b
      ensures Valid() && log == [] && this.hash == hash
    {
      this.hash := hash;
      tokens := map[];
      credentials := map[];
      log := [];
    }

    /** The insert fails on a token that is there. */
    method MintEnrollToken(token: string, expiresAt: int) returns (ok: bool)
      requires Valid()
      modifies this
      ensures Valid()
      ensures ok <==> !Happened(old(log), Mints, token)
      ensures log == if ok then old(log) + [Minted(token, expiresAt)] else old(log)
    {
      RowTellsHistory(log, token);
      if hash(token) in tokens {
        return false;
      }
      GenuineSnoc(log, Minted(token, expiresAt));
      tokens := tokens[hash(token) := Token(false, expiresAt)];
      log := log + [Minted(token, expiresAt)];
      return true;
    }

    method ConsumeEnrollToken(token: string, now: int) returns (ok: bool)
      requires Valid()
      modifies this
      ensures Valid()
      ensures ok <==> Usable(old(log), token, now)
      ensures ok <==>
                && (forall i :: 0 <= i < |old(log)| ==> !(old(log)[i].Used? && old(log)[i].token == token))
                && exists i :: 0 <= i < |old(log)| && old(log)[i].Minted? && old(log)[i].token == token && now <= old(log)[i].expiresAt
      ensures log == if ok then old(log) + [Used(token, now)] else old(log)
    {
      RowTellsHistory(log, token);
      var h := hash(token);
      if h !in tokens || tokens[h].used || tokens[h].expiresAt < now {
        return false;
      }
      GenuineSnoc(log, Used(token, now));
      tokens := tokens[h := tokens[h].(used := true)];
      log := log + [Used(token, now)];
      return true;
    }

    /** `token` is the one the caller has just consumed. */
    method PutCredential(node: NodeId, secret: string, ghost token: string)
      requires Valid() && Allowed(log, Issued(node, secret, token))
      modifies this
      ensures Valid() && log == old(log) + [Issued(node, secret, token)]
    {
      GenuineSnoc(log, Issued(node, secret, token));
      credentials := credentials[node := Active(hash(secret))];
      log := log + [Issued(node, secret, token)];
    }

    /** `secret` and `freshId` are random; `fails` is the store refusing the second statement. */
    method Enroll(token: string, node: NodeId, now: int, secret: string, freshId: NodeId, fails: bool)
      returns (issued: Option<(string, NodeId)>)
      requires Valid()
      modifies this
      ensures Valid()
      ensures issued == if Usable(old(log), token, now) && !fails then Some((secret, Assigned(node, freshId))) else None
      ensures issued.Some? ==> issued.value.0 == secret
      ensures issued.Some? && node != "" ==> issued.value.1 == node && Issued(node, secret, token) in log
      ensures issued.Some? && node == "" ==> issued.value.1 == freshId && Issued(freshId, secret, token) in log
      ensures log == old(log)
        + (if Usable(old(log), token, now) then [Used(token, now)] else [])
        + (if issued.Some? then [Issued(Assigned(node, freshId), secret, token)] else [])
    {
      var ok := ConsumeEnrollToken(token, now);
      if !ok {
        return None;
      }
      if fails {
        return None;
      }
      BackedWasUsed(old(log), token);
      JustUsed(old(log), token, now);
      PutCredential(Assigned(node, freshId), secret, token);
      return Some((secret, Assigned(node, freshId)));
    }

    /** Accepted exactly when the last thing that happened to the node's credential is that this secret was issued. */
    method VerifyNode(node: NodeId, secret: string) returns (verdict: Verdict)
      requires Valid()
      ensures verdict == Accepted <==> exists t :: LastAbout(log, node) == Some(Issued(node, secret, t))
      ensures verdict == RefusedRevoked <==> LastAbout(log, node) == Some(Revoke(node))
      ensures verdict == Accepted <==>
                exists i, t :: 0 <= i < |log| && log[i] == Issued(node, secret, t) && NothingSince(log, i, node)
      ensures verdict == RefusedRevoked <==> exists i :: 0 <= i < |log| && log[i] == Revoke(node) && NothingSince(log, i, node)
    {
      VerdictTells(log, node, secret);
      LastIsAbout(log, node);
      assert CredentialRow(node) == CredentialOf(LastAbout(log, node));
      if node !in credentials {
        return BadCredentials;
      }
      if credentials[node].Revoked? {
        return RefusedRevoked;
      }
      if hash(secret) != credentials[node].secretHash {
        return BadCredentials;
      }
      assert LastAbout(log, node) == Some(Issued(node, secret, LastAbout(log, node).value.token));
      return Accepted;
    }

    /** Zero rows updated is the not-found error. */
    method RevokeNode(node: NodeId) returns (ok: bool)
      requires Valid()
      modifies this
      ensures Valid()
      ensures ok <==> LastAbout(old(log), node).Some?
      ensures log == if ok then old(log) + [Revoke(node)] else old(log)
    {
      assert CredentialRow(node) == CredentialOf(LastAbout(log, node));
      if node !in credentials {
        return false;
      }
      GenuineSnoc(log, Revoke(node));
      credentials := credentials[node := Revoked];
      log := log + [Revoke(node)];
      return true;
    }
  }

  /** Neither issue nor revocation for the node comes after event `i`. */
  ghost predicate NothingSince(log: seq<Event>, i: int, node: NodeId) {
    forall j :: 0 <= j < |log| && i < j && (log[j].Issued? || log[j].Revoke?) ==> log[j].node != node
  }

  lemma {:induction false} LastAboutExactly(log: seq<Event>, node: NodeId, e: Event)
    ensures LastAbout(log, node) == Some(e) <==>
            exists i :: 0 <= i < |log| && log[i] == e && (e.Issued? || e.Revoke?) && e.node == node && NothingSince(log, i, node)
  {
    if log != [] {
      var n := |log| - 1;
      LastAboutExactly(log[..n], node, e);
      if (log[n].Issued? || log[n].Revoke?) && log[n].node == node {
        assert NothingSince(log, n, node);
      } else {
        assert forall i :: NothingSince(log, i, node) <==> NothingSince(log[..n], i, node);
      }
    }
  }

  lemma VerdictTells(log: seq<Event>, node: NodeId, secret: string)
    ensures (exists t :: LastAbout(log, node) == Some(Issued(node, secret, t))) <==>
            exists i, t :: 0 <= i < |log| && log[i] == Issued(node, secret, t) && NothingSince(log, i, node)
    ensures LastAbout(log, node) == Some(Revoke(node)) <==>
            exists i :: 0 <= i < |log| && log[i] == Revoke(node) && NothingSince(log, i, node)
  {
    forall t {
      LastAboutExactly(log, node, Issued(node, secret, t));
    }
    LastAboutExactly(log, node, Revoke(node));
  }

  lemma {:induction false} LastIsAbout(log: seq<Event>, node: NodeId)
    ensures var e := LastAbout(log, node);
      e.Some? ==> (e.value.Issued? || e.value.Revoke?) && e.value.node == node && e.value in log
  {
    if log != [] {
      LastIsAbout(log[..|log| - 1], node);
    }
  }

  lemma JustUsed(log: seq<Event>, token: string, at: int)
    requires !Happened(log, Issues, token)
    ensures var now := log + [Used(token, at)]; Happened(now, Uses, token) && !Happened(now, Issues, token)
  {
    var now := log + [Used(token, at)];
    assert Uses(now[|log|], token);
    forall i | 0 <= i < |now| ensures !Issues(now[i], token) {
      assert i < |log| ==> now[i] == log[i];
    }
  }

  lemma BackedWasUsed(log: seq<Event>, token: string)
    requires Genuine(log)
    ensures Happened(log, Issues, token) ==> Happened(log, Uses, token)
  {
    if Happened(log, Issues, token) {
      var i :| 0 <= i < |log| && Issues(log[i], token);
      assert Allowed(log[..i], log[i]);
      HappenedBefore(log, i, Uses, token);
    }
  }

  lemma HappenedBefore(log: seq<Event>, i: nat, what: (Event, string) -> bool, token: string)
    requires i <= |log|
    ensures Happened(log[..i], what, token) ==> Happened(log, what, token)
  {
    if Happened(log[..i], what, token) {
      var k :| 0 <= k < |log[..i]| && what(log[..i][k], token);
      assert what(log[k], token);
    }
  }

  /** Whoever is accepted holds the one secret that some minted token was exchanged for. */
  lemma AcceptedWasEnrolled(log: seq<Event>, node: NodeId, secret: string, token: string)
    requires Genuine(log) && LastAbout(log, node) == Some(Issued(node, secret, token))
    ensures Happened(log, Mints, token) && Happened(log, Uses, token)
    ensures forall j :: 0 <= j < |log| && Issues(log[j], token) ==> log[j] == Issued(node, secret, token)
  {
    LastIsAbout(log, node);
    var i :| 0 <= i < |log| && log[i] == Issued(node, secret, token);
    TokenYieldsOne(log, i, i);
    forall j | 0 <= j < |log| && Issues(log[j], token) ensures log[j] == log[i] {
      TokenYieldsOne(log, i, j);
    }
  }

  /** One enrollment between its two statements. */
  datatype Enrollment = Enrollment(token: string, node: NodeId, secret: string)

  /** The log, and the enrollments that other calls can now overlap with. */
  datatype Desk = Desk(log: seq<Event>, open: map<nat, Enrollment>)

  datatype Step =
    | Mint(token: string, expiresAt: int)
    | Consume(call: nat, enrollment: Enrollment, now: int)
    | Store(call: nat)
    | Abandon(call: nat)
    | Disable(node: NodeId)

  predicate Enabled(d: Desk, s: Step) {
    match s
    case Consume(c, _, _) => c !in d.open
    case Store(c) => c in d.open
    case Abandon(c) => c in d.open
    case _ => true
  }

  ghost function Next(d: Desk, s: Step): Desk
    requires Enabled(d, s)
  {
    match s
    case Mint(t, e) => if Happened(d.log, Mints, t) then d else d.(log := d.log + [Minted(t, e)])
    case Consume(c, e, now) =>
      if Usable(d.log, e.token, now) then Desk(d.log + [Used(e.token, now)], d.open[c := e]) else d
    case Store(c) => Desk(d.log + [Issued(d.open[c].node, d.open[c].secret, d.open[c].token)], d.open - {c})
    case Abandon(c) => d.(open := d.open - {c})
    case Disable(n) => if LastAbout(d.log, n).Some? then d.(log := d.log + [Revoke(n)]) else d
  }

  ghost predicate IsRun(ds: seq<Desk>, steps: seq<Step>) {
    && |ds| == |steps| + 1
    && ds[0] == Desk([], map[])
    && forall k :: 0 <= k < |steps| ==> Enabled(ds[k], steps[k]) && ds[k + 1] == Next(ds[k], steps[k])
  }

  /** Each open enrollment has used a token of its own, which backs nothing yet. */
  ghost predicate Orderly(d: Desk) {
    && Genuine(d.log)
    && (forall c <- d.open :: Allowed(d.log, Issued(d.open[c].node, d.open[c].secret, d.open[c].token)))
    && (forall b, c :: b in d.open && c in d.open && b != c ==> d.open[b].token != d.open[c].token)
  }

  lemma LogKeepsOpen(d: Desk, e: Event)
    requires Orderly(d) && Allowed(d.log, e) && (e.Issued? ==> forall c <- d.open :: d.open[c].token != e.token)
    ensures Orderly(d.(log := d.log + [e]))
  {
    GenuineSnoc(d.log, e);
    forall c <- d.open
      ensures Allowed(d.log + [e], Issued(d.open[c].node, d.open[c].secret, d.open[c].token))
    {
      HappenedSnoc(d.log, e, Uses, d.open[c].token);
      HappenedSnoc(d.log, e, Issues, d.open[c].token);
    }
  }

  lemma ConsumeKeepsOrder(d: Desk, s: Step)
    requires Orderly(d) && Enabled(d, s) && s.Consume? && Usable(d.log, s.enrollment.token, s.now)
    ensures Orderly(Next(d, s))
  {
    var t := s.enrollment.token;
    LogKeepsOpen(d, Used(t, s.now));
    BackedWasUsed(d.log, t);
    JustUsed(d.log, t, s.now);
  }

  lemma NextKeepsOrder(d: Desk, s: Step)
    requires Orderly(d) && Enabled(d, s)
    ensures Orderly(Next(d, s))
  {
    match s
    case Mint(t, e) =>
      if !Happened(d.log, Mints, t) {
        LogKeepsOpen(d, Minted(t, e));
      }
    case Consume(_, e, now) =>
      if Usable(d.log, e.token, now) {
        ConsumeKeepsOrder(d, s);
      }
    case Store(c) =>
      LogKeepsOpen(d.(open := d.open - {c}), Issued(d.open[c].node, d.open[c].secret, d.open[c].token));
    case Abandon(_) =>
    case Disable(n) =>
      if LastAbout(d.log, n).Some? {
        LogKeepsOpen(d, Revoke(n));
      }
  }

  /** However enrollments overlap, the log stays genuine, so a token yields at most one credential. */
  lemma {:induction false} OverlappingYieldOne(ds: seq<Desk>, steps: seq<Step>, k: nat)
    requires IsRun(ds, steps) && k < |ds|
    ensures Orderly(ds[k])
    ensures forall i, j :: 0 <= i < j < |ds[k].log| && ds[k].log[i].Issued? && ds[k].log[j].Issued? ==>
              ds[k].log[i].token != ds[k].log[j].token
  {
    if k > 0 {
      OverlappingYieldOne(ds, steps, k - 1);
      NextKeepsOrder(ds[k - 1], steps[k - 1]);
    }
    forall i, j | 0 <= i < j < |ds[k].log| && ds[k].log[i].Issued? && ds[k].log[j].Issued?
      ensures ds[k].log[i].token != ds[k].log[j].token
    {
      if ds[k].log[i].token == ds[k].log[j].token {
        TokenYieldsOne(ds[k].log, i, j);
      }
    }
  }

  const BEARER := "Bearer "

  /** The header a node presents when it connects. */
  function Authorization(node: NodeId, secret: string): string {
    BEARER + (node + ":" + secret)
  }

  /** The token of a header, without the white space around it. */
  function BearerToken(header: string): string {
    if BEARER <= header then TrimSpace(header[|BEARER|..]) else ""
  }

  /** A header value that an HTTP client sends: no control characters but the tab (section 5.5 of RFC 9110). */
  predicate Sendable(s: string) {
    forall c <- s :: c == '\t' || (c as int >= 0x20 && c as int != 0x7F)
  }

  /** What the handshake goes on to verify, if it takes place. */
  function Claimed(header: string): Option<(NodeId, string)> {
    var (node, secret, found) := Cut(BearerToken(header), ':');
    if !Sendable(header) || !found || node == "" then None else Some((node, secret))
  }

  predicate Presentable(node: NodeId, secret: string) {
    && node != "" && ':' !in node && !IsSpace(node[0])
    && (secret == "" || !IsSpace(secret[|secret| - 1]))
    && Sendable(node) && Sendable(secret)
  }

  /** The Manager verifies the pair that the node meant exactly when the pair can be presented. */
  lemma ClaimIsReadExactly(node: NodeId, secret: string)
    ensures Claimed(Authorization(node, secret)) == Some((node, secret)) <==> Presentable(node, secret)
  {
    var token := node + ":" + secret;
    HeaderToken(token);
    HeaderIsSent(node, secret);
    TrimLeavesExactly(IsSpace, token);
    if TrimSpace(token) == token {
      if ':' !in node {
        CutAt(node, ':', secret);
        assert token == node + [':'] + secret;
      } else {
        CutAddsNothing(token, ':');
      }
    } else {
      CutKeepsLength(TrimSpace(token), ':');
    }
  }

  lemma SendableConcat(a: string, b: string)
    ensures Sendable(a + b) <==> Sendable(a) && Sendable(b)
  {
    if Sendable(a + b) {
      forall c | c in a || c in b
        ensures c in a + b
      {
      }
    }
  }

  lemma HeaderIsSent(node: NodeId, secret: string)
    ensures Sendable(Authorization(node, secret)) <==> Sendable(node) && Sendable(secret)
  {
    SendableConcat(BEARER, node + ":" + secret);
    SendableConcat(node + ":", secret);
    SendableConcat(node, ":");
  }

  lemma HeaderToken(token: string)
    ensures BearerToken(BEARER + token) == TrimSpace(token)
  {
    assert (BEARER + token)[|BEARER|..] == token;
  }

  lemma {:induction false} CutKeepsLength(s: string, sep: char)
    ensures var (before, after, found) := Cut(s, sep); found ==> |before| + 1 + |after| == |s|
  {
    if s != "" && s[0] != sep {
      CutKeepsLength(s[1..], sep);
    }
  }

  /** An id that begins with a space can be enrolled, and then claims another one. */
  lemma IndentedIdClaimsAnother(node: NodeId, secret: string)
    requires Presentable(node, secret)
    ensures Claimed(Authorization(" " + node, secret)) == Some((node, secret))
  {
    var token := node + ":" + secret;
    assert " " + node + ":" + secret == " " + token;
    HeaderToken(" " + token);
    TrimsIndent(IsSpace, " ", token);
    TrimLeavesExactly(IsSpace, token);
    assert TrimLeft(IsSpace, token) == token;
    ClaimIsReadExactly(node, secret);
    HeaderToken(token);
    HeaderIsSent(node, secret);
    HeaderIsSent(" " + node, secret);
    SendableConcat(" ", node);
  }
}
