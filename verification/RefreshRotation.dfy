/**
 Refresh-token rotation on the Worker (RFC 6749, section 10.4): any number of
 refreshes and logouts, interleaved at the level of single D1 statements. A
 refresh reads the token row, then revokes it by a conditional UPDATE, then in
 one batch stores its replacement and links the old token to it.

 A schedule is any list of steps; a step that is not possible where it stands
 does nothing. So a statement about Run(schedule) holds after every interleaving.
 */
module RefreshRotation {
  import opened Options

  type TokenId = nat
  type Client = nat

  /** A refresh_tokens row; `row` is its place in the order of insertion. */
  datatype Token = Token(userId: string, expiresAt: nat, revoked: bool, replacedBy: Option<TokenId>, row: nat)

  /** Where a refresh request is; Spent is after the conditional UPDATE and before the batch. */
  datatype Pc = Checked(jti: TokenId) | Spent(jti: TokenId) | Refreshed(jti: TokenId, next: TokenId) | Refused | Dead

  datatype State = State(
    tokens: map<TokenId, Token>,
    rows: nat,                    // how many tokens were ever inserted
    clients: map<Client, Pc>,
    now: nat)

  datatype Step =
    | SignIn(id: TokenId, userId: string, ttl: nat)
    | Read(c: Client, jti: TokenId, hashMatches: bool)
    | Revoke(c: Client)
    | Store(c: Client, id: TokenId, ttl: nat)
    | Logout(userId: string, jti: TokenId)
    | Crash(c: Client)
    | Tick(seconds: nat)

  /** UPDATE ... SET revoked_at = now WHERE id = ? AND revoked_at IS NULL: does it change a row? */
  predicate Revokes(s: State, jti: TokenId, userId: Option<string>) {
    jti in s.tokens && !s.tokens[jti].revoked && (userId.Some? ==> s.tokens[jti].userId == userId.value)
  }

  function WithRevoked(s: State, jti: TokenId): State
    requires jti in s.tokens
  {
    s.(tokens := s.tokens[jti := s.tokens[jti].(revoked := true)])
  }

  /** INSERT of a fresh live token. */
  function Insert(s: State, id: TokenId, userId: string, ttl: nat): State {
    s.(tokens := s.tokens[id := Token(userId, s.now + ttl, false, None, s.rows)], rows := s.rows + 1)
  }

  /** UPDATE ... SET replaced_by_token_id = next. */
  function Link(s: State, jti: TokenId, next: TokenId): State
    requires jti in s.tokens
  {
    s.(tokens := s.tokens[jti := s.tokens[jti].(replacedBy := Some(next))])
  }

  function MoveTo(s: State, c: Client, pc: Pc): State {
    s.(clients := s.clients[c := pc])
  }

  /** The token can be refreshed: it is there, and neither revoked nor expired. */
  predicate Usable(tokens: map<TokenId, Token>, jti: TokenId, now: nat) {
    jti in tokens && !tokens[jti].revoked && now < tokens[jti].expiresAt
  }

  /** findRefreshToken and the checks on what it returns. */
  function ReadToken(s: State, jti: TokenId, hashMatches: bool): Pc {
    if Usable(s.tokens, jti, s.now) && hashMatches then Checked(jti) else Refused
  }

  function Apply(s: State, step: Step): State {
    match step
    case SignIn(id, userId, ttl) =>
      if id in s.tokens then s else Insert(s, id, userId, ttl)
    case Read(c, jti, hashMatches) =>
      if c in s.clients then s else MoveTo(s, c, ReadToken(s, jti, hashMatches))
    case Revoke(c) =>
      if c !in s.clients || !s.clients[c].Checked? then s
      else
        var jti := s.clients[c].jti;
        if Revokes(s, jti, None) then MoveTo(WithRevoked(s, jti), c, Spent(jti)) else MoveTo(s, c, Refused)
    case Store(c, id, ttl) =>
      if c !in s.clients || !s.clients[c].Spent? || id in s.tokens || s.clients[c].jti !in s.tokens then s
      else
        var jti := s.clients[c].jti;
        MoveTo(Link(Insert(s, id, s.tokens[jti].userId, ttl), jti, id), c, Refreshed(jti, id))
    case Logout(userId, jti) =>
      if Revokes(s, jti, Some(userId)) then WithRevoked(s, jti) else s
    case Crash(c) => if c in s.clients then MoveTo(s, c, Dead) else s
    case Tick(seconds) => s.(now := s.now + seconds)
  }

  const INIT := State(map[], 0, map[], 0)

  function Run(schedule: seq<Step>): State {
    if schedule == [] then INIT
    else Apply(Run(schedule[..|schedule| - 1]), schedule[|schedule| - 1])
  }

  /* -------------------------------------------------------------- invariant */

  /** The refresh has won its token: it revoked it, and may already have replaced it. */
  predicate Won(pc: Pc) {
    pc.Spent? || pc.Refreshed?
  }

  /** A link leads from a revoked token to one inserted later, and no two tokens are replaced by the same one. */
  ghost predicate TokensValid(tokens: map<TokenId, Token>, rows: nat) {
    && (forall t :: t in tokens ==> tokens[t].row < rows)
    && (forall t :: t in tokens && tokens[t].replacedBy.Some? ==>
          var next := tokens[t].replacedBy.value;
          tokens[t].revoked && next in tokens && tokens[t].row < tokens[next].row)
    && (forall t, u :: t in tokens && u in tokens && tokens[t].replacedBy.Some? ==>
          (tokens[t].replacedBy == tokens[u].replacedBy ==> t == u))
  }

  /** What a request at its program point knows about its token; a token is won by one request at most. */
  ghost predicate ClientsValid(tokens: map<TokenId, Token>, clients: map<Client, Pc>) {
    && (forall c :: c in clients && clients[c].Checked? ==> clients[c].jti in tokens)
    && (forall c :: c in clients && clients[c].Spent? ==>
          clients[c].jti in tokens && tokens[clients[c].jti].revoked && tokens[clients[c].jti].replacedBy.None?)
    && (forall c :: c in clients && clients[c].Refreshed? ==>
          clients[c].jti in tokens && tokens[clients[c].jti].replacedBy == Some(clients[c].next)
          && tokens[clients[c].jti].revoked)
    && (forall c, d :: c in clients && d in clients && Won(clients[c]) && Won(clients[d]) ==>
          (clients[c].jti == clients[d].jti ==> c == d))
  }

  ghost predicate Valid(s: State) {
    TokensValid(s.tokens, s.rows) && ClientsValid(s.tokens, s.clients)
  }

  lemma RevokingKeepsValid(s: State, jti: TokenId)
    requires Valid(s) && jti in s.tokens
    ensures Valid(WithRevoked(s, jti))
  {
  }

  /** A live token has not been won by anyone. */
  lemma LiveIsNotWon(s: State, jti: TokenId)
    requires Valid(s) && jti in s.tokens && !s.tokens[jti].revoked
    ensures s.tokens[jti].replacedBy.None?
    ensures forall d :: d in s.clients && Won(s.clients[d]) ==> s.clients[d].jti != jti
  {
  }

  /** The one request whose conditional UPDATE changes the row has won the token. */
  lemma WinningKeepsValid(s: State, c: Client, jti: TokenId)
    requires Valid(s) && c in s.clients && !Won(s.clients[c])
    requires jti in s.tokens && s.tokens[jti].revoked && s.tokens[jti].replacedBy.None?
    requires forall d :: d in s.clients && Won(s.clients[d]) ==> s.clients[d].jti != jti
    ensures Valid(MoveTo(s, c, Spent(jti)))
  {
    hide TokensValid;
  }

  lemma InsertKeepsValid(s: State, id: TokenId, userId: string, ttl: nat)
    requires Valid(s) && id !in s.tokens
    ensures
      var s' := Insert(s, id, userId, ttl);
      Valid(s') && forall t :: t in s.tokens ==>
        s'.tokens[t].row < s'.tokens[id].row && s'.tokens[t].replacedBy != Some(id)
  {
  }

  /** The batch: the winner of a token is the only one to replace it, and does so once. */
  lemma LinkKeepsValid(s: State, c: Client, next: TokenId)
    requires Valid(s) && c in s.clients && s.clients[c].Spent? && next in s.tokens
    requires s.tokens[s.clients[c].jti].row < s.tokens[next].row
    requires forall t :: t in s.tokens ==> s.tokens[t].replacedBy != Some(next)
    ensures Valid(MoveTo(Link(s, s.clients[c].jti, next), c, Refreshed(s.clients[c].jti, next)))
  {
    hide TokensValid;
    LinkKeepsTokens(s.tokens, s.rows, s.clients[c].jti, next);
  }

  lemma LinkKeepsTokens(tokens: map<TokenId, Token>, rows: nat, jti: TokenId, next: TokenId)
    requires TokensValid(tokens, rows) && jti in tokens && next in tokens && tokens[jti].row < tokens[next].row
    requires tokens[jti].revoked && forall t :: t in tokens ==> tokens[t].replacedBy != Some(next)
    ensures TokensValid(tokens[jti := tokens[jti].(replacedBy := Some(next))], rows)
  {
  }

  lemma MoveKeepsValid(s: State, c: Client, pc: Pc)
    requires Valid(s) && (pc.Refused? || pc.Dead? || (pc.Checked? && pc.jti in s.tokens))
    ensures Valid(MoveTo(s, c, pc))
  {
  }

  lemma StepKeepsValid(s: State, step: Step)
    requires Valid(s)
    ensures Valid(Apply(s, step))
  {
    hide TokensValid;
    assert forall c :: c in s.clients && s.clients[c].Spent? ==> s.clients[c].jti in s.tokens;
    match step
    case SignIn(id, userId, ttl) => if id !in s.tokens { InsertKeepsValid(s, id, userId, ttl); }
    case Read(c, jti, hashMatches) => MoveKeepsValid(s, c, ReadToken(s, jti, hashMatches));
    case Revoke(c) =>
      if c in s.clients && s.clients[c].Checked? {
        var jti := s.clients[c].jti;
        if Revokes(s, jti, None) {
          LiveIsNotWon(s, jti);
          RevokingKeepsValid(s, jti);
          WinningKeepsValid(WithRevoked(s, jti), c, jti);
        } else {
          MoveKeepsValid(s, c, Refused);
        }
      }
    case Store(c, id, ttl) =>
      if Apply(s, step) != s {
        var inserted := Insert(s, id, s.tokens[s.clients[c].jti].userId, ttl);
        InsertKeepsValid(s, id, s.tokens[s.clients[c].jti].userId, ttl);
        LinkKeepsValid(inserted, c, id);
      }
    case Logout(userId, jti) => if Apply(s, step) != s { RevokingKeepsValid(s, jti); }
    case Crash(c) => MoveKeepsValid(s, c, Dead);
    case Tick(seconds) =>
  }

  lemma {:induction false} RunIsValid(schedule: seq<Step>)
    ensures Valid(Run(schedule))
  {
    if schedule != [] {
      RunIsValid(schedule[..|schedule| - 1]);
      StepKeepsValid(Run(schedule[..|schedule| - 1]), schedule[|schedule| - 1]);
    }
  }

  /* ------------------------------------------------------ chains of rotation */

  /** Each token of p was replaced by the one after it. */
  ghost predicate IsPath(tokens: map<TokenId, Token>, p: seq<TokenId>) {
    && p != []
    && (forall i :: 0 <= i < |p| ==> p[i] in tokens)
    && (forall i :: 0 <= i < |p| - 1 ==> tokens[p[i]].replacedBy == Some(p[i + 1]))
  }

  /** t belongs to the family of `first`: rotation leads from there to t. */
  ghost predicate Descends(tokens: map<TokenId, Token>, first: TokenId, t: TokenId) {
    exists p :: IsPath(tokens, p) && p[0] == first && p[|p| - 1] == t
  }

  /** No token was replaced by t: it was issued at a sign-in. */
  ghost predicate IsFirst(tokens: map<TokenId, Token>, t: TokenId) {
    t in tokens && forall u :: u in tokens ==> tokens[u].replacedBy != Some(t)
  }

  /** What can still turn into, or is, a usable token. */
  datatype Claim = Live(id: TokenId) | Pending(c: Client)

  ghost predicate Holds(s: State, claim: Claim) {
    match claim
    case Live(id) => id in s.tokens && !s.tokens[id].revoked
    case Pending(c) => c in s.clients && s.clients[c].Spent? && s.clients[c].jti in s.tokens
  }

  function TokenOf(s: State, claim: Claim): TokenId
    requires claim.Pending? ==> claim.c in s.clients && s.clients[claim.c].Spent?
  {
    match claim
    case Live(id) => id
    case Pending(c) => s.clients[c].jti
  }

  lemma {:induction false} PathsAgree(tokens: map<TokenId, Token>, p: seq<TokenId>, q: seq<TokenId>, i: nat)
    requires IsPath(tokens, p) && IsPath(tokens, q) && p[0] == q[0] && i < |p| && i < |q|
    ensures p[i] == q[i]
  {
    if i > 0 {
      PathsAgree(tokens, p, q, i - 1);
      assert tokens[p[i - 1]].replacedBy == Some(p[i]);
      assert tokens[q[i - 1]].replacedBy == Some(q[i]);
    }
  }

  lemma OnlyTheEndIsUnreplaced(tokens: map<TokenId, Token>, p: seq<TokenId>)
    requires IsPath(tokens, p)
    ensures forall i :: 0 <= i < |p| - 1 ==> tokens[p[i]].replacedBy.Some?
  {
    forall i | 0 <= i < |p| - 1 ensures tokens[p[i]].replacedBy.Some? {
      assert tokens[p[i]].replacedBy == Some(p[i + 1]);
    }
  }

  /** A family has one end. */
  lemma OneEnd(tokens: map<TokenId, Token>, first: TokenId, t: TokenId, u: TokenId)
    requires Descends(tokens, first, t) && Descends(tokens, first, u)
    requires tokens[t].replacedBy.None? && tokens[u].replacedBy.None?
    ensures t == u
  {
    var p :| IsPath(tokens, p) && p[0] == first && p[|p| - 1] == t;
    var q :| IsPath(tokens, q) && q[0] == first && q[|q| - 1] == u;
    PathsAgree(tokens, p, q, (if |p| <= |q| then |p| else |q|) - 1);
    OnlyTheEndIsUnreplaced(tokens, p);
    OnlyTheEndIsUnreplaced(tokens, q);
  }

  lemma ClaimsAreEnds(s: State, claim: Claim)
    requires Valid(s) && Holds(s, claim)
    ensures TokenOf(s, claim) in s.tokens && s.tokens[TokenOf(s, claim)].replacedBy.None?
    ensures claim.Live? <==> !s.tokens[TokenOf(s, claim)].revoked
  {
  }

  /**
   The safety of rotation: after any interleaving, a session family has at most
   one usable token or one refresh about to store it, counted together; and it
   is the end of the chain from the family's first token.
   */
  lemma AtMostOneClaim(schedule: seq<Step>, first: TokenId, a: Claim, b: Claim)
    requires
      var s := Run(schedule);
      Holds(s, a) && Holds(s, b)
      && Descends(s.tokens, first, TokenOf(s, a)) && Descends(s.tokens, first, TokenOf(s, b))
    ensures a == b
    ensures Run(schedule).tokens[TokenOf(Run(schedule), a)].replacedBy.None?
  {
    var s := Run(schedule);
    RunIsValid(schedule);
    ClaimsAreEnds(s, a);
    ClaimsAreEnds(s, b);
    OneEnd(s.tokens, first, TokenOf(s, a), TokenOf(s, b));
  }

  /** Two refreshes racing on one token: at most one of them ever gets a new one. */
  lemma OneWinner(schedule: seq<Step>, c: Client, d: Client)
    requires
      var clients := Run(schedule).clients;
      c in clients && d in clients && Won(clients[c]) && Won(clients[d]) && clients[c].jti == clients[d].jti
    ensures c == d
  {
    RunIsValid(schedule);
  }

  lemma {:induction false} RowsGrow(tokens: map<TokenId, Token>, rows: nat, p: seq<TokenId>, i: nat, j: nat)
    requires TokensValid(tokens, rows) && IsPath(tokens, p) && i < j < |p|
    ensures tokens[p[i]].row < tokens[p[j]].row
    decreases j
  {
    assert tokens[p[j - 1]].replacedBy == Some(p[j]);
    if i < j - 1 { RowsGrow(tokens, rows, p, i, j - 1); }
  }

  /** The path that leads to t from the first token of its family. */
  lemma PathFromFirst(tokens: map<TokenId, Token>, rows: nat, t: TokenId) returns (p: seq<TokenId>)
    requires TokensValid(tokens, rows) && t in tokens
    ensures IsPath(tokens, p) && IsFirst(tokens, p[0]) && p[|p| - 1] == t
    decreases tokens[t].row
  {
    if IsFirst(tokens, t) {
      p := [t];
    } else {
      var u :| u in tokens && tokens[u].replacedBy == Some(t);
      p := PathFromFirst(tokens, rows, u);
      var q := p + [t];
      assert forall i :: 0 <= i < |q| - 1 ==> tokens[q[i]].replacedBy == Some(q[i + 1]);
      p := q;
    }
  }

  lemma {:induction false} FirstIsUnique(tokens: map<TokenId, Token>, rows: nat, p: seq<TokenId>, q: seq<TokenId>)
    requires TokensValid(tokens, rows) && IsPath(tokens, p) && IsPath(tokens, q)
    requires IsFirst(tokens, p[0]) && IsFirst(tokens, q[0]) && p[|p| - 1] == q[|q| - 1]
    ensures p[0] == q[0]
    decreases |p|
  {
    var m, n := |p|, |q|;
    assert m > 1 ==> tokens[p[m - 2]].replacedBy == Some(p[m - 1]);
    assert n > 1 ==> tokens[q[n - 2]].replacedBy == Some(q[n - 1]);
    if m > 1 && n > 1 {
      FirstIsUnique(tokens, rows, p[..m - 1], q[..n - 1]);
    }
  }

  /** Links are acyclic, and every token belongs to exactly one family: that of one sign-in. */
  lemma FamiliesPartition(schedule: seq<Step>, t: TokenId)
    requires t in Run(schedule).tokens
    ensures
      var tokens := Run(schedule).tokens;
      && (exists first :: IsFirst(tokens, first) && Descends(tokens, first, t))
      && (forall a, b :: IsFirst(tokens, a) && IsFirst(tokens, b) ==>
            (Descends(tokens, a, t) && Descends(tokens, b, t) ==> a == b))
    ensures
      var tokens := Run(schedule).tokens;
      forall p, i, j :: IsPath(tokens, p) && 0 <= i < j < |p| ==> p[i] != p[j]
  {
    var s := Run(schedule);
    RunIsValid(schedule);
    var path := PathFromFirst(s.tokens, s.rows, t);
    assert Descends(s.tokens, path[0], t);
    forall a, b | IsFirst(s.tokens, a) && IsFirst(s.tokens, b) && Descends(s.tokens, a, t) && Descends(s.tokens, b, t)
      ensures a == b
    {
      var p :| IsPath(s.tokens, p) && p[0] == a && p[|p| - 1] == t;
      var q :| IsPath(s.tokens, q) && q[0] == b && q[|q| - 1] == t;
      FirstIsUnique(s.tokens, s.rows, p, q);
    }
    forall p, i, j | IsPath(s.tokens, p) && 0 <= i < j < |p| ensures p[i] != p[j] {
      RowsGrow(s.tokens, s.rows, p, i, j);
    }
  }

  lemma StepUndoesNothing(s: State, step: Step, t: TokenId)
    requires Valid(s) && t in s.tokens
    ensures
      var before, after := s.tokens[t], Apply(s, step).tokens;
      && t in after && after[t].userId == before.userId && after[t].expiresAt == before.expiresAt
      && (before.revoked ==> after[t].revoked)
      && (before.replacedBy.Some? ==> after[t].replacedBy == before.replacedBy)
  {
  }

  /** Nothing is undone: revocations and links are final, and a revoked token is refused for good. */
  lemma {:induction false} NothingIsUndone(schedule: seq<Step>, more: seq<Step>, t: TokenId)
    requires t in Run(schedule).tokens
    ensures
      var before, after := Run(schedule).tokens[t], Run(schedule + more).tokens;
      && t in after && after[t].userId == before.userId && after[t].expiresAt == before.expiresAt
      && (before.revoked ==> after[t].revoked && forall ok :: ReadToken(Run(schedule + more), t, ok) == Refused)
      && (before.replacedBy.Some? ==> after[t].replacedBy == before.replacedBy)
    decreases |more|
  {
    if more == [] {
      assert schedule + more == schedule;
    } else {
      hide Valid, Apply, Run;
      var init, last := more[..|more| - 1], more[|more| - 1];
      NothingIsUndone(schedule, init, t);
      RunIsValid(schedule + init);
      assert schedule + more == schedule + init + [last];
      RunSnoc(schedule + init, last);
      StepUndoesNothing(Run(schedule + init), last, t);
    }
  }

  ghost predicate LinksKeepUser(tokens: map<TokenId, Token>) {
    forall t :: t in tokens && tokens[t].replacedBy.Some? && tokens[t].replacedBy.value in tokens ==>
      tokens[tokens[t].replacedBy.value].userId == tokens[t].userId
  }

  lemma StepLinksKeepUser(s: State, step: Step)
    requires Valid(s) && LinksKeepUser(s.tokens)
    ensures LinksKeepUser(Apply(s, step).tokens)
  {
  }

  lemma {:induction false} RunLinksKeepUser(schedule: seq<Step>)
    ensures LinksKeepUser(Run(schedule).tokens)
  {
    if schedule != [] {
      hide LinksKeepUser, Valid, Apply;
      var init := schedule[..|schedule| - 1];
      RunLinksKeepUser(init);
      RunIsValid(init);
      StepLinksKeepUser(Run(init), schedule[|schedule| - 1]);
    } else {
      assert LinksKeepUser(map[]);
    }
  }

  lemma {:induction false} PathKeepsUser(tokens: map<TokenId, Token>, p: seq<TokenId>)
    requires IsPath(tokens, p) && LinksKeepUser(tokens)
    ensures tokens[p[0]].userId == tokens[p[|p| - 1]].userId
    decreases |p|
  {
    if |p| > 1 {
      assert IsPath(tokens, p[..|p| - 1]);
      PathKeepsUser(tokens, p[..|p| - 1]);
      assert tokens[p[|p| - 2]].replacedBy == Some(p[|p| - 1]);
    }
  }

  /** A session is one user's: rotation never hands a token to another. */
  lemma OneUser(schedule: seq<Step>, first: TokenId, t: TokenId)
    requires Descends(Run(schedule).tokens, first, t)
    ensures
      var tokens := Run(schedule).tokens;
      first in tokens && t in tokens && tokens[t].userId == tokens[first].userId
  {
    var tokens := Run(schedule).tokens;
    RunLinksKeepUser(schedule);
    var p :| IsPath(tokens, p) && p[0] == first && p[|p| - 1] == t;
    PathKeepsUser(tokens, p);
  }

  /* --------------------------------------- what each request does undisturbed */

  /** A sign-in issues a live token of its user. */
  lemma SignInIssues(s: State, id: TokenId, userId: string, ttl: nat)
    requires id !in s.tokens
    ensures Apply(s, SignIn(id, userId, ttl)) ==
      State(s.tokens[id := Token(userId, s.now + ttl, false, None, s.rows)], s.rows + 1, s.clients, s.now)
  {
  }

  /**
   The three statements of a refresh, with no other between them: it is refused, without
   any effect, unless the token exists, matches, and is neither revoked nor expired;
   then that token is revoked and replaced by a live one of the same user.
   */
  lemma UndisturbedRefresh(s: State, c: Client, jti: TokenId, hashMatches: bool, id: TokenId, ttl: nat)
    requires Valid(s) && c !in s.clients && id !in s.tokens
    ensures
      var s' := Apply(Apply(Apply(s, Read(c, jti, hashMatches)), Revoke(c)), Store(c, id, ttl));
      if hashMatches && jti in s.tokens && !s.tokens[jti].revoked && s.now < s.tokens[jti].expiresAt then
        && s'.tokens == s.tokens[jti := s.tokens[jti].(revoked := true, replacedBy := Some(id))]
                          [id := Token(s.tokens[jti].userId, s.now + ttl, false, None, s.rows)]
        && s'.clients == s.clients[c := Refreshed(jti, id)]
        && s'.now == s.now
      else s' == s.(clients := s.clients[c := Refused])
  {
    hide Valid;
    var read := Apply(s, Read(c, jti, hashMatches));
    assert read.tokens == s.tokens;
    if read.clients[c].Checked? {
      var revoked := Apply(read, Revoke(c));
      assert revoked.clients == s.clients[c := Spent(jti)];
      assert revoked.tokens == s.tokens[jti := s.tokens[jti].(revoked := true)];
    } else {
      assert Apply(read, Revoke(c)) == read;
    }
  }

  /** A token is of no use once its time has passed. */
  lemma ExpiredIsRefused(s: State, seconds: nat, c: Client, jti: TokenId)
    requires c !in s.clients && jti in s.tokens
    ensures
      var s' := Apply(Apply(s, Tick(seconds)), Read(c, jti, true));
      s'.clients[c] ==
        if s.tokens[jti].revoked || s.tokens[jti].expiresAt <= s.now + seconds then Refused else Checked(jti)
  {
  }

  ghost predicate Claimed(s: State, first: TokenId) {
    exists claim :: Holds(s, claim) && Descends(s.tokens, first, TokenOf(s, claim))
  }

  /** A refresh has won the token and not yet stored its replacement. */
  ghost predicate PendingOn(clients: map<Client, Pc>, jti: TokenId) {
    exists c :: c in clients && clients[c] == Spent(jti)
  }

  lemma ClaimsAfterRevoking(s: State, first: TokenId, jti: TokenId)
    requires Valid(s) && jti in s.tokens && s.tokens[jti].revoked && s.tokens[jti].replacedBy.None?
    requires Descends(s.tokens, first, jti)
    ensures Claimed(s, first) <==> PendingOn(s.clients, jti)
  {
    hide Valid, Descends;
    if claim :| Holds(s, claim) && Descends(s.tokens, first, TokenOf(s, claim)) {
      ClaimsAreEnds(s, claim);
      OneEnd(s.tokens, first, TokenOf(s, claim), jti);
      assert s.clients[claim.c] == Spent(jti);
    }
    if c :| c in s.clients && s.clients[c] == Spent(jti) {
      assert Holds(s, Pending(c)) && TokenOf(s, Pending(c)) == jti;
    }
  }

  lemma RevokingKeepsPaths(s: State, jti: TokenId, first: TokenId, t: TokenId)
    requires jti in s.tokens && Descends(s.tokens, first, t)
    ensures Descends(WithRevoked(s, jti).tokens, first, t)
  {
    var p :| IsPath(s.tokens, p) && p[0] == first && p[|p| - 1] == t;
    assert IsPath(WithRevoked(s, jti).tokens, p);
  }

  /**
   A logout with any token of a family, current or replaced: it leaves a claim if and only
   if there was one and its UPDATE changes no row. With the current token, that is when
   a refresh has already won the token and not yet stored the next one.
   */
  lemma LogoutEndsFamily(schedule: seq<Step>, first: TokenId, jti: TokenId, userId: string)
    requires Descends(Run(schedule).tokens, first, jti)
    ensures
      var s, s' := Run(schedule), Run(schedule + [Logout(userId, jti)]);
      && jti in s.tokens
      && (Claimed(s', first) <==> Claimed(s, first) && (s.tokens[jti].revoked || s.tokens[jti].userId != userId))
      && (s.tokens[jti].userId == userId && s.tokens[jti].replacedBy.None? ==>
            (Claimed(s', first) <==> PendingOn(s.clients, jti)))
  {
    hide Valid, Descends, Claimed, PendingOn, Run;
    var s := Run(schedule);
    RunIsValid(schedule);
    RunIsValid(schedule + [Logout(userId, jti)]);
    RunSnoc(schedule, Logout(userId, jti));
    EndIsThere(s, first, jti);
    if Revokes(s, jti, Some(userId)) {
      LiveIsNotWon(s, jti);
      RevokingKeepsPaths(s, jti, first, jti);
      ClaimsAfterRevoking(WithRevoked(s, jti), first, jti);
      LiveIsNotPending(s, jti);
    } else if jti in s.tokens && s.tokens[jti].userId == userId && s.tokens[jti].replacedBy.None? {
      ClaimsAfterRevoking(s, first, jti);
    }
  }

  /** And it leaves every other family as it was. */
  lemma LogoutSparesOthers(schedule: seq<Step>, first: TokenId, jti: TokenId, userId: string)
    requires !Descends(Run(schedule).tokens, first, jti)
    ensures Claimed(Run(schedule + [Logout(userId, jti)]), first) <==> Claimed(Run(schedule), first)
  {
    hide Descends, Run;
    var s, s' := Run(schedule), Run(schedule + [Logout(userId, jti)]);
    RunSnoc(schedule, Logout(userId, jti));
    if claim :| Holds(s', claim) && Descends(s'.tokens, first, TokenOf(s', claim)) {
      SamePaths(s.tokens, s'.tokens, first, TokenOf(s', claim));
      assert Holds(s, claim) && TokenOf(s, claim) == TokenOf(s', claim);
    }
    if claim :| Holds(s, claim) && Descends(s.tokens, first, TokenOf(s, claim)) {
      SamePaths(s'.tokens, s.tokens, first, TokenOf(s, claim));
      assert Holds(s', claim) && TokenOf(s', claim) == TokenOf(s, claim);
    }
  }

  lemma EndIsThere(s: State, first: TokenId, t: TokenId)
    requires Descends(s.tokens, first, t)
    ensures first in s.tokens && t in s.tokens
  {
  }

  lemma LiveIsNotPending(s: State, jti: TokenId)
    requires Valid(s) && jti in s.tokens && !s.tokens[jti].revoked
    ensures !PendingOn(s.clients, jti)
  {
    LiveIsNotWon(s, jti);
  }

  lemma RunSnoc(schedule: seq<Step>, step: Step)
    ensures Run(schedule + [step]) == Apply(Run(schedule), step)
  {
    assert (schedule + [step])[..|schedule|] == schedule;
  }

  /** Paths to a token that was there before a replacement was stored were there before, too. */
  lemma PathBeforeStore(tokens: map<TokenId, Token>, jti: TokenId, id: TokenId, token: Token, p: seq<TokenId>)
    requires jti in tokens && id !in tokens && token.replacedBy.None?
    requires
      var after := tokens[id := token][jti := tokens[jti].(replacedBy := Some(id))];
      IsPath(after, p) && p[|p| - 1] in tokens
    ensures IsPath(tokens, p)
  {
    var after := tokens[id := token][jti := tokens[jti].(replacedBy := Some(id))];
    forall i | 0 <= i < |p| ensures p[i] in tokens {
      if i < |p| - 1 { assert after[p[i]].replacedBy == Some(p[i + 1]); }
    }
    forall i | 0 <= i < |p| - 1 ensures tokens[p[i]].replacedBy == Some(p[i + 1]) {
      assert after[p[i]].replacedBy == Some(p[i + 1]) && p[i + 1] in tokens;
    }
  }

  /** The stored replacement continues the chain of the token it replaces. */
  lemma StoredDescends(s: State, c: Client, id: TokenId, ttl: nat, first: TokenId)
    requires Valid(s) && c in s.clients && s.clients[c].Spent? && id !in s.tokens
    requires first in s.tokens && Descends(Apply(s, Store(c, id, ttl)).tokens, first, id)
    ensures Descends(s.tokens, first, s.clients[c].jti)
  {
    var jti := s.clients[c].jti;
    var after := Apply(s, Store(c, id, ttl)).tokens;
    var p :| IsPath(after, p) && p[0] == first && p[|p| - 1] == id;
    var q := p[..|p| - 1];
    assert p[|p| - 2] in after && after[p[|p| - 2]].replacedBy == Some(p[|p| - 1]);
    assert q[|q| - 1] == jti;
    assert IsPath(after, q);
    PathBeforeStore(s.tokens, jti, id, Token(s.tokens[jti].userId, s.now + ttl, false, None, s.rows), q);
  }

  lemma NoNewClaimByStore(s: State, c: Client, id: TokenId, ttl: nat, first: TokenId, claim: Claim)
    requires Valid(s) && first in s.tokens && Apply(s, Store(c, id, ttl)) != s
    requires
      var s' := Apply(s, Store(c, id, ttl));
      Holds(s', claim) && Descends(s'.tokens, first, TokenOf(s', claim))
    ensures Claimed(s, first)
  {
    hide Descends;
    var t := TokenOf(Apply(s, Store(c, id, ttl)), claim);
    if t == id {
      StoredDescends(s, c, id, ttl, first);
      assert Holds(s, Pending(c)) && TokenOf(s, Pending(c)) == s.clients[c].jti;
    } else {
      DescendsBeforeStore(s, c, id, ttl, first, t);
      assert Holds(s, claim) && TokenOf(s, claim) == t;
    }
  }

  /** A conditional UPDATE may turn a live token into a pending refresh. */
  lemma NoNewClaimByRevoke(s: State, c: Client, first: TokenId, claim: Claim)
    requires Valid(s) && first in s.tokens
    requires
      var s' := Apply(s, Revoke(c));
      Holds(s', claim) && Descends(s'.tokens, first, TokenOf(s', claim))
    ensures Claimed(s, first)
  {
    hide Descends, TokensValid;
    var s' := Apply(s, Revoke(c));
    var t := TokenOf(s', claim);
    SamePaths(s.tokens, s'.tokens, first, t);
    if Holds(s, claim) {
      assert TokenOf(s, claim) == t;
    } else {
      assert Holds(s, Live(t)) && TokenOf(s, Live(t)) == t;
    }
  }

  lemma NoNewClaimBySignIn(s: State, id: TokenId, userId: string, ttl: nat, first: TokenId, claim: Claim)
    requires Valid(s) && first in s.tokens
    requires
      var s' := Apply(s, SignIn(id, userId, ttl));
      Holds(s', claim) && Descends(s'.tokens, first, TokenOf(s', claim))
    ensures Claimed(s, first)
  {
    hide Descends;
    var t := TokenOf(Apply(s, SignIn(id, userId, ttl)), claim);
    if id !in s.tokens {
      DescendsBeforeSignIn(s, id, userId, ttl, first, t);
    }
    assert Holds(s, claim) && TokenOf(s, claim) == t;
  }

  lemma NoNewClaimOtherwise(s: State, step: Step, first: TokenId, claim: Claim)
    requires Valid(s) && first in s.tokens && !step.SignIn? && !step.Revoke? && !step.Store?
    requires
      var s' := Apply(s, step);
      Holds(s', claim) && Descends(s'.tokens, first, TokenOf(s', claim))
    ensures Claimed(s, first)
  {
    hide Descends, TokensValid;
    var s' := Apply(s, step);
    var t := TokenOf(s', claim);
    SamePaths(s.tokens, s'.tokens, first, t);
    assert Holds(s, claim) && TokenOf(s, claim) == t;
  }

  /** No step gives a family a claim that has none. */
  lemma NoNewClaim(s: State, step: Step, first: TokenId, claim: Claim)
    requires Valid(s) && first in s.tokens
    requires
      var s' := Apply(s, step);
      Holds(s', claim) && Descends(s'.tokens, first, TokenOf(s', claim))
    ensures Claimed(s, first)
  {
    hide Descends, Valid, Apply, Holds, TokenOf, Claimed;
    match step
    case SignIn(id, userId, ttl) => NoNewClaimBySignIn(s, id, userId, ttl, first, claim);
    case Store(c, id, ttl) =>
      if Apply(s, step) == s {
        StillClaimed(s, first, claim);
      } else {
        NoNewClaimByStore(s, c, id, ttl, first, claim);
      }
    case Revoke(c) => NoNewClaimByRevoke(s, c, first, claim);
    case _ => NoNewClaimOtherwise(s, step, first, claim);
  }

  lemma StillClaimed(s: State, first: TokenId, claim: Claim)
    requires Holds(s, claim) && Descends(s.tokens, first, TokenOf(s, claim))
    ensures Claimed(s, first)
  {
  }

  /** A claim is for a token of its family that is there before the step, unless it is the one being stored. */
  lemma DescendsBeforeSignIn(s: State, id: TokenId, userId: string, ttl: nat, first: TokenId, t: TokenId)
    requires Valid(s) && id !in s.tokens && first in s.tokens && Descends(Insert(s, id, userId, ttl).tokens, first, t)
    ensures t in s.tokens && Descends(s.tokens, first, t)
  {
    var after := Insert(s, id, userId, ttl).tokens;
    var p :| IsPath(after, p) && p[0] == first && p[|p| - 1] == t;
    forall i | 0 <= i < |p| ensures p[i] in s.tokens {
      if i > 0 { assert after[p[i - 1]].replacedBy == Some(p[i]); }
    }
    assert IsPath(s.tokens, p);
  }

  lemma DescendsBeforeStore(s: State, c: Client, id: TokenId, ttl: nat, first: TokenId, t: TokenId)
    requires Valid(s) && c in s.clients && s.clients[c].Spent? && id !in s.tokens && t in s.tokens
    requires Descends(Apply(s, Store(c, id, ttl)).tokens, first, t)
    ensures Descends(s.tokens, first, t)
  {
    var jti := s.clients[c].jti;
    var p :| IsPath(Apply(s, Store(c, id, ttl)).tokens, p) && p[0] == first && p[|p| - 1] == t;
    PathBeforeStore(s.tokens, jti, id, Token(s.tokens[jti].userId, s.now + ttl, false, None, s.rows), p);
  }

  lemma SamePaths(tokens: map<TokenId, Token>, after: map<TokenId, Token>, first: TokenId, t: TokenId)
    requires forall u :: u in after <==> u in tokens
    requires forall u :: u in tokens ==> after[u].replacedBy == tokens[u].replacedBy
    ensures Descends(after, first, t) ==> Descends(tokens, first, t)
  {
    if Descends(after, first, t) {
      var p :| IsPath(after, p) && p[0] == first && p[|p| - 1] == t;
      assert IsPath(tokens, p);
    }
  }

  /** A family without a claim never gets one again: its session is over. */
  lemma {:induction false} ClaimlessForever(schedule: seq<Step>, more: seq<Step>, first: TokenId)
    requires first in Run(schedule).tokens && !Claimed(Run(schedule), first)
    ensures first in Run(schedule + more).tokens && !Claimed(Run(schedule + more), first)
    decreases |more|
  {
    if more == [] {
      assert schedule + more == schedule;
    } else {
      hide Valid, Apply, Holds, Descends;
      var init, last := more[..|more| - 1], more[|more| - 1];
      ClaimlessForever(schedule, init, first);
      NothingIsUndone(schedule, more, first);
      RunIsValid(schedule + init);
      RunSnoc(schedule + init, last);
      assert schedule + init + [last] == schedule + more;
      var s' := Run(schedule + more);
      if claim :| Holds(s', claim) && Descends(s'.tokens, first, TokenOf(s', claim)) {
        NoNewClaim(Run(schedule + init), last, first, claim);
      }
    }
  }

  /** So a logout that changes its row ends the session for good: one with any token that is live by then. */
  lemma LogoutIsFinal(schedule: seq<Step>, more: seq<Step>, first: TokenId, jti: TokenId, userId: string)
    requires Descends(Run(schedule).tokens, first, jti)
    requires
      var tokens := Run(schedule).tokens;
      jti in tokens && !tokens[jti].revoked && tokens[jti].userId == userId
    ensures !Claimed(Run(schedule + [Logout(userId, jti)] + more), first)
  {
    hide Claimed, Run;
    LogoutEndsFamily(schedule, first, jti, userId);
    RunSnoc(schedule, Logout(userId, jti));
    EndIsThere(Run(schedule), first, jti);
    ClaimlessForever(schedule + [Logout(userId, jti)], more, first);
  }

  /** A refresh that dies after winning its token, and before storing the next, ends the session for good. */
  lemma CrashEndsSession(schedule: seq<Step>, more: seq<Step>, first: TokenId, c: Client)
    requires
      var s := Run(schedule);
      c in s.clients && s.clients[c].Spent? && Descends(s.tokens, first, s.clients[c].jti)
    ensures !Claimed(Run(schedule + [Crash(c)] + more), first)
  {
    hide Claimed, Run;
    RunIsValid(schedule);
    RunIsValid(schedule + [Crash(c)]);
    RunSnoc(schedule, Crash(c));
    CrashLeavesNothingPending(Run(schedule), c);
    EndIsThere(Run(schedule), first, Run(schedule).clients[c].jti);
    ClaimsAfterRevoking(Run(schedule + [Crash(c)]), first, Run(schedule).clients[c].jti);
    ClaimlessForever(schedule + [Crash(c)], more, first);
  }

  lemma CrashLeavesNothingPending(s: State, c: Client)
    requires Valid(s) && c in s.clients && s.clients[c].Spent?
    ensures
      var s' := Apply(s, Crash(c));
      s'.tokens == s.tokens && !PendingOn(s'.clients, s.clients[c].jti)
  {
    hide TokensValid;
  }

  /** A logout after a refresh has won the token, and before it stores the next: the session goes on. */
  lemma LogoutComesTooLate(user: string)
    ensures
      var s := Run([SignIn(0, user, 10)] + [Read(0, 0, true)] + [Revoke(0)] + [Logout(user, 0)] + [Store(0, 1, 10)]);
      Holds(s, Live(1)) && Descends(s.tokens, 0, 1)
  {
    var a, b, c := [SignIn(0, user, 10)], Read(0, 0, true), Revoke(0);
    RunSnoc([], SignIn(0, user, 10));
    assert [] + a == a;
    RunSnoc(a, b);
    RunSnoc(a + [b], c);
    RunSnoc(a + [b] + [c], Logout(user, 0));
    RunSnoc(a + [b] + [c] + [Logout(user, 0)], Store(0, 1, 10));
    var s := Run(a + [b] + [c] + [Logout(user, 0)] + [Store(0, 1, 10)]);
    assert Run(a + [b] + [c]).clients[0] == Spent(0);
    assert IsPath(s.tokens, [0, 1]);
  }

  /** And one after it has stored the next, presenting the replaced token: no refresh is pending, and it goes on. */
  lemma LogoutWithReplacedToken(user: string)
    ensures
      var before := Run([SignIn(0, user, 10)] + [Read(0, 0, true)] + [Revoke(0)] + [Store(0, 1, 10)]);
      var s := Run([SignIn(0, user, 10)] + [Read(0, 0, true)] + [Revoke(0)] + [Store(0, 1, 10)] + [Logout(user, 0)]);
      Holds(s, Live(1)) && Descends(s.tokens, 0, 1) && forall jti :: !PendingOn(before.clients, jti)
  {
    var a, b, c := [SignIn(0, user, 10)], Read(0, 0, true), Revoke(0);
    RunSnoc([], SignIn(0, user, 10));
    assert [] + a == a;
    RunSnoc(a, b);
    RunSnoc(a + [b], c);
    RunSnoc(a + [b] + [c], Store(0, 1, 10));
    RunSnoc(a + [b] + [c] + [Store(0, 1, 10)], Logout(user, 0));
    var s := Run(a + [b] + [c] + [Store(0, 1, 10)] + [Logout(user, 0)]);
    assert Run(a + [b] + [c]).clients == map[0 := Spent(0)];
    assert IsPath(s.tokens, [0, 1]);
  }

  /* ----------------------------------------------------- the request handlers */

  predicate By(step: Step, c: Client) {
    match step
    case Read(d, _, _) => d == c
    case Revoke(d) => d == c
    case Store(d, _, _) => d == c
    case Crash(d) => d == c
    case _ => false
  }

  lemma OthersLeaveMe(s: State, step: Step, c: Client)
    requires !By(step, c)
    ensures c in Apply(s, step).clients <==> c in s.clients
    ensures c in s.clients ==> Apply(s, step).clients[c] == s.clients[c]
  {
  }

  /** What the first statement of a refresh finds. */
  lemma ReadAnswers(s: State, c: Client, jti: TokenId, hashMatches: bool)
    requires c !in s.clients
    ensures
      var s' := Apply(s, Read(c, jti, hashMatches));
      && s' == s.(clients := s'.clients) && c in s'.clients
      && s'.clients[c] == if hashMatches && Usable(s.tokens, jti, s.now) then Checked(jti) else Refused
  {
  }

  /** The conditional UPDATE wins the token, or finds it revoked. */
  lemma RevokeAnswers(s: State, c: Client)
    requires Valid(s) && c in s.clients && s.clients[c].Checked?
    ensures
      var s', jti := Apply(s, Revoke(c)), s.clients[c].jti;
      && jti in s.tokens && c in s'.clients
      && (if s.tokens[jti].revoked then s'.clients[c] == Refused && s'.tokens == s.tokens
          else s'.clients[c] == Spent(jti))
  {
  }

  /** The batch replaces the token won by a live one of its user. */
  lemma StoreAnswers(s: State, c: Client, id: TokenId, ttl: nat)
    requires Valid(s) && c in s.clients && s.clients[c].Spent? && id !in s.tokens
    ensures
      var s', jti := Apply(s, Store(c, id, ttl)), s.clients[c].jti;
      && c in s'.clients && s'.clients[c] == Refreshed(jti, id)
      && s'.now == s.now && HasReplaced(s'.tokens, jti, id, s.now + ttl)
  {
  }

  /** Token `jti` is revoked and replaced by `next`, a live one of the same user. */
  predicate HasReplaced(tokens: map<TokenId, Token>, jti: TokenId, next: TokenId, expiresAt: nat) {
    && jti in tokens && tokens[jti].revoked && tokens[jti].replacedBy == Some(next)
    && next in tokens && !tokens[next].revoked && tokens[next].replacedBy.None?
    && tokens[next].userId == tokens[jti].userId && tokens[next].expiresAt == expiresAt
  }

  /** The database, and the schedule of the statements it has run. */
  class SessionDb {
    var state: State
    ghost var schedule: seq<Step>

    ghost predicate Valid()
      reads this
    {
      state == Run(schedule)
    }

    constructor ()
      ensures Valid()
    {
      state, schedule := INIT, [];
    }

    method Do(step: Step)
      requires Valid()
      modifies this
      ensures Valid() && state == Apply(old(state), step) && schedule == old(schedule) + [step]
    {
      assert (schedule + [step])[..|schedule|] == schedule;
      state, schedule := Apply(state, step), schedule + [step];
    }

    /** Between two statements of request c, any number of statements of others. */
    method Others(c: Client)
      requires Valid()
      modifies this
      ensures Valid() && old(schedule) <= schedule
      ensures c in state.clients <==> c in old(state).clients
      ensures c in state.clients ==> state.clients[c] == old(state).clients[c]
    {
      var steps: seq<Step> := *;
      for i := 0 to |steps|
        invariant Valid() && old(schedule) <= schedule
        invariant c in state.clients <==> c in old(state).clients
        invariant c in state.clients ==> state.clients[c] == old(state).clients[c]
      {
        if !By(steps[i], c) {
          OthersLeaveMe(state, steps[i], c);
          Do(steps[i]);
        }
      }
    }

    /**
     refreshSession. If it returns a token, this request has won the presented one,
     which was usable when it read it; that one is revoked and replaced by the returned
     one, which is live, of the same user, and lasts for `ttl`. It is refused only
     if the presented token did not match, was not usable when it was read, or was
     revoked by someone else since (or after winning, when the generated id is in use).
     */
    method RefreshSession(c: Client, jti: TokenId, hashMatches: bool, id: TokenId, ttl: nat)
        returns (next: Option<TokenId>)
      requires Valid() && c !in state.clients
      modifies this
      ensures Valid() && old(schedule) <= schedule && c in state.clients
      ensures next.Some? ==>
        && hashMatches && Usable(old(state).tokens, jti, old(state).now)
        && next == Some(id) && state.clients[c] == Refreshed(jti, id)
        && HasReplaced(state.tokens, jti, id, state.now + ttl)
      ensures next.Some? && ttl > 0 ==> Usable(state.tokens, id, state.now)
      ensures state.clients[c] == Refused ==>
        || !hashMatches || !Usable(old(state).tokens, jti, old(state).now)
        || (jti in state.tokens && state.tokens[jti].revoked)
      ensures next.None? ==> state.clients[c] == Refused || (state.clients[c] == Spent(jti) && id in state.tokens)
    {
      hide Valid, Run, Apply;
      ReadAnswers(state, c, jti, hashMatches);
      Do(Read(c, jti, hashMatches));
      if state.clients[c].Refused? { return None; }
      Others(c);
      RunIsValid(schedule);
      RevokeAnswers(state, c);
      Do(Revoke(c));
      if state.clients[c].Refused? { return None; }
      Others(c);
      RunIsValid(schedule);
      if id in state.tokens { return None; } // the batch violates the primary key
      StoreAnswers(state, c, id, ttl);
      Do(Store(c, id, ttl));
      return Some(id);
    }

    /** endSession: refused for another user's token; otherwise the token, if there is one, is revoked, and no other. */
    method EndSession(userId: string, sub: string, jti: TokenId) returns (ok: bool)
      requires Valid() && (jti in state.tokens ==> state.tokens[jti].userId == sub)
      modifies this
      ensures Valid() && ok == (sub == userId)
      ensures state ==
        if ok && jti in old(state).tokens
        then old(state).(tokens := old(state).tokens[jti := old(state).tokens[jti].(revoked := true)])
        else old(state)
    {
      if sub != userId { return false; }
      Do(Logout(userId, jti));
      return true;
    }
  }
}
