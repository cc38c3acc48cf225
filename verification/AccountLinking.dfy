/**
 Google sign-in on the Worker: `upsertUser`, interleaved with any number of
 other sign-ins at the level of single D1 statements. D1 has no interactive
 transactions, so the unique constraints and one retry keep the accounts
 consistent.

 `users` is the users table by its UNIQUE email, `connections` the Google rows by
 their UNIQUE account id (`sub`); (user, provider) is UNIQUE too. `base` are the
 accounts that existed before Google sign-in. As in RefreshRotation, a step that is
 not possible where a schedule puts it does nothing.
 */
module AccountLinking {
  import opened Options

  type Client = nat
  type UserId = nat

  datatype Identity = Identity(sub: string, email: string)

  /** Where a sign-in is; attempt is 0, or 1 after the retry. */
  datatype Pc =
    | FindConnection(attempt: nat)
    | FindEmail(attempt: nat)
    | Linking(attempt: nat, user: UserId)
    | Creating(attempt: nat)
    | Updating(user: UserId)
    | SignedIn(user: UserId)
    | Conflict
    | Thrown // a unique violation on the second attempt
    | Dead

  datatype SignIn = SignIn(who: Identity, pc: Pc)

  datatype State = State(
    base: map<string, UserId>,
    users: map<string, UserId>,
    connections: map<string, UserId>,
    clients: map<Client, SignIn>)

  datatype Step =
    | Arrive(c: Client, who: Identity)
    | Advance(c: Client, newUser: UserId) // the next statement of c; a fresh id in case it creates a user
    | Crash(c: Client)

  predicate HasGoogle(connections: map<string, UserId>, user: UserId) {
    exists sub :: sub in connections && connections[sub] == user
  }

  function MoveTo(s: State, c: Client, pc: Pc): State
    requires c in s.clients
  {
    s.(clients := s.clients[c := s.clients[c].(pc := pc)])
  }

  /** A unique violation: try once more, then give up. */
  function Violated(attempt: nat): Pc {
    if attempt > 0 then Thrown else FindConnection(attempt + 1)
  }

  /** What one statement, or batch, leaves in the tables, and where its sign-in goes next. */
  datatype Effect = Effect(users: map<string, UserId>, connections: map<string, UserId>, pc: Pc)

  function EffectOf(s: State, client: SignIn, newUser: UserId): Effect {
    var SignIn(who, pc) := client;
    var stay := Effect(s.users, s.connections, pc);
    match pc
    case FindConnection(attempt) =>
      stay.(pc := if who.sub in s.connections then Updating(s.connections[who.sub]) else FindEmail(attempt))
    case FindEmail(attempt) =>
      stay.(pc := if who.email !in s.users then Creating(attempt)
                  else if HasGoogle(s.connections, s.users[who.email]) then Conflict
                  else Linking(attempt, s.users[who.email]))
    case Linking(attempt, user) =>
      if who.sub in s.connections || HasGoogle(s.connections, user) then stay.(pc := Violated(attempt))
      else Effect(s.users, s.connections[who.sub := user], SignedIn(user))
    case Creating(attempt) =>
      if newUser in s.users.Values then stay // ids are fresh
      else if who.email in s.users || who.sub in s.connections then stay.(pc := Violated(attempt))
      else Effect(s.users[who.email := newUser], s.connections[who.sub := newUser], SignedIn(newUser))
    case Updating(user) => stay.(pc := SignedIn(user))
    case _ => stay
  }

  /** One statement of upsertUser. */
  function Statement(s: State, c: Client, newUser: UserId): State
    requires c in s.clients
  {
    var effect := EffectOf(s, s.clients[c], newUser);
    MoveTo(s.(users := effect.users, connections := effect.connections), c, effect.pc)
  }

  function Apply(s: State, step: Step): State {
    match step
    case Arrive(c, who) =>
      if c in s.clients then s else s.(clients := s.clients[c := SignIn(who, FindConnection(0))])
    case Advance(c, newUser) => if c in s.clients then Statement(s, c, newUser) else s
    case Crash(c) => if c in s.clients then MoveTo(s, c, Dead) else s
  }

  function Run(base: map<string, UserId>, schedule: seq<Step>): State {
    if schedule == [] then State(base, base, map[], map[])
    else Apply(Run(base, schedule[..|schedule| - 1]), schedule[|schedule| - 1])
  }

  /* -------------------------------------------------------------- invariant */

  ghost predicate Injective(m: map<string, UserId>) {
    forall a, b :: a in m && b in m && m[a] == m[b] ==> a == b
  }

  ghost predicate TablesValid(base: map<string, UserId>, users: map<string, UserId>, connections: map<string, UserId>) {
    && Injective(users) && Injective(connections)
    && (forall sub :: sub in connections ==> connections[sub] in users.Values)
    && (forall email :: email in base ==> email in users && users[email] == base[email])
    && (forall email :: email in users && email !in base ==> HasGoogle(connections, users[email]))
  }

  /** After a unique violation the next attempt meets the winner: by its account, or as a taken email. */
  ghost predicate Settled(s: State, who: Identity) {
    who.sub in s.connections || (who.email in s.users && HasGoogle(s.connections, s.users[who.email]))
  }

  ghost predicate ClientValid(s: State, client: SignIn) {
    var who := client.who;
    match client.pc
    case FindConnection(attempt) => attempt > 0 ==> Settled(s, who)
    case FindEmail(attempt) => attempt > 0 ==> who.email in s.users && HasGoogle(s.connections, s.users[who.email])
    case Linking(attempt, user) => attempt == 0 && who.email in s.users && s.users[who.email] == user
    case Creating(attempt) => attempt == 0 && who.email !in s.base
    case Updating(user) => who.sub in s.connections && s.connections[who.sub] == user
    case SignedIn(user) => who.sub in s.connections && s.connections[who.sub] == user
    case Conflict => true
    case Thrown => false
    case Dead => true
  }

  ghost predicate Valid(s: State) {
    && TablesValid(s.base, s.users, s.connections)
    && forall c :: c in s.clients ==> ClientValid(s, s.clients[c])
  }

  /** The tables only grow: no user and no connection is ever changed or removed. */
  ghost predicate Grows(s: State, s': State) {
    && s'.base == s.base
    && (forall email :: email in s.users ==> email in s'.users && s'.users[email] == s.users[email])
    && (forall sub :: sub in s.connections ==> sub in s'.connections && s'.connections[sub] == s.connections[sub])
  }

  lemma GrowthKeepsGoogle(s: State, s': State, user: UserId)
    requires Grows(s, s') && HasGoogle(s.connections, user)
    ensures HasGoogle(s'.connections, user)
  {
    var sub :| sub in s.connections && s.connections[sub] == user;
    assert sub in s'.connections && s'.connections[sub] == user;
  }

  /** What a sign-in knows at its program point stays true while others proceed. */
  lemma GrowthKeepsClient(s: State, s': State, client: SignIn)
    requires Grows(s, s') && ClientValid(s, client)
    ensures ClientValid(s', client)
  {
    hide Grows, HasGoogle;
    forall user | HasGoogle(s.connections, user) ensures HasGoogle(s'.connections, user) {
      GrowthKeepsGoogle(s, s', user);
    }
    assert s'.base == s.base
      && (forall email :: email in s.users ==> email in s'.users && s'.users[email] == s.users[email])
      && (forall sub :: sub in s.connections ==> sub in s'.connections && s'.connections[sub] == s.connections[sub])
    by { GrowsMeans(s, s'); }
  }

  lemma GrowsMeans(s: State, s': State)
    requires Grows(s, s')
    ensures s'.base == s.base
    ensures forall email :: email in s.users ==> email in s'.users && s'.users[email] == s.users[email]
    ensures forall sub :: sub in s.connections ==> sub in s'.connections && s'.connections[sub] == s.connections[sub]
  {
  }

  lemma GrowsOnAndOn(s: State, t: State, u: State)
    requires Grows(s, t) && Grows(t, u)
    ensures Grows(s, u)
  {
  }

  lemma ConnectKeepsTables(base: map<string, UserId>, users: map<string, UserId>, connections: map<string, UserId>,
      sub: string, user: UserId)
    requires TablesValid(base, users, connections) && sub !in connections
    requires user in users.Values && !HasGoogle(connections, user)
    ensures TablesValid(base, users, connections[sub := user])
  {
    forall email | email in users && email !in base ensures HasGoogle(connections[sub := user], users[email]) {
      var t :| t in connections && connections[t] == users[email];
      assert t in connections[sub := user];
    }
  }

  /** User and connection in one batch: no state between them has a user without a connection. */
  lemma CreateKeepsTables(base: map<string, UserId>, users: map<string, UserId>, connections: map<string, UserId>,
      who: Identity, user: UserId)
    requires TablesValid(base, users, connections) && who.sub !in connections
    requires who.email !in users && user !in users.Values
    ensures TablesValid(base, users[who.email := user], connections[who.sub := user])
  {
    var users', connections' := users[who.email := user], connections[who.sub := user];
    forall email | email in users' && email !in base ensures HasGoogle(connections', users'[email]) {
      if email == who.email {
        assert connections'[who.sub] == user;
      } else {
        var t :| t in connections && connections[t] == users[email];
        assert t in connections' && connections'[t] == users'[email];
      }
    }
    forall sub | sub in connections' ensures connections'[sub] in users'.Values {
      if sub == who.sub {
        assert users'[who.email] == user;
      } else {
        var email :| email in users && users[email] == connections[sub];
        assert users'[email] == connections'[sub];
      }
    }
  }

  lemma StatementKeepsTables(s: State, c: Client, newUser: UserId)
    requires Valid(s) && c in s.clients
    ensures
      var s' := Statement(s, c, newUser);
      TablesValid(s'.base, s'.users, s'.connections) && Grows(s, s')
  {
    hide TablesValid;
    var SignIn(who, pc) := s.clients[c];
    var s' := Statement(s, c, newUser);
    assert ClientValid(s, s.clients[c]);
    match pc
    case Linking(attempt, user) =>
      if s'.connections != s.connections {
        assert s.users[who.email] == user;
        ConnectKeepsTables(s.base, s.users, s.connections, who.sub, user);
      }
    case Creating(attempt) =>
      if s'.users != s.users { CreateKeepsTables(s.base, s.users, s.connections, who, newUser); }
    case _ =>
  }

  lemma StatementKeepsClient(s: State, c: Client, newUser: UserId)
    requires Valid(s) && c in s.clients
    ensures var s' := Statement(s, c, newUser); c in s'.clients && ClientValid(s', s'.clients[c])
  {
    assert ClientValid(s, s.clients[c]);
  }

  lemma OthersStayValid(s: State, s': State, c: Client)
    requires Valid(s) && Grows(s, s') && TablesValid(s'.base, s'.users, s'.connections)
    requires forall d :: d in s'.clients && d != c ==> d in s.clients && s'.clients[d] == s.clients[d]
    requires c in s'.clients ==> ClientValid(s', s'.clients[c])
    ensures Valid(s')
  {
    hide ClientValid, TablesValid, Grows;
    forall d | d in s'.clients && d != c ensures ClientValid(s', s'.clients[d]) {
      GrowthKeepsClient(s, s', s.clients[d]);
    }
  }

  lemma StatementMovesOnlyItsClient(s: State, c: Client, newUser: UserId)
    requires c in s.clients
    ensures
      var s' := Statement(s, c, newUser);
      s'.clients.Keys == s.clients.Keys && forall d :: d in s.clients && d != c ==> s'.clients[d] == s.clients[d]
  {
    hide EffectOf;
  }

  lemma StepKeepsValid(s: State, step: Step)
    requires Valid(s)
    ensures Valid(Apply(s, step)) && Grows(s, Apply(s, step))
  {
    hide ClientValid, TablesValid, Statement;
    var s' := Apply(s, step);
    if step.Advance? && step.c in s.clients {
      StatementMovesOnlyItsClient(s, step.c, step.newUser);
      StatementKeepsTables(s, step.c, step.newUser);
      StatementKeepsClient(s, step.c, step.newUser);
      OthersStayValid(s, s', step.c);
    } else if !step.Advance? {
      if s' != s { IdleClient(s', s'.clients[step.c].who); }
      OthersStayValid(s, s', step.c);
    }
  }

  lemma IdleClient(s: State, who: Identity)
    ensures ClientValid(s, SignIn(who, FindConnection(0))) && ClientValid(s, SignIn(who, Dead))
  {
  }

  lemma {:induction false} RunIsValid(base: map<string, UserId>, schedule: seq<Step>)
    requires Injective(base)
    ensures Valid(Run(base, schedule)) && Run(base, schedule).base == base
  {
    if schedule != [] {
      RunIsValid(base, schedule[..|schedule| - 1]);
      StepKeepsValid(Run(base, schedule[..|schedule| - 1]), schedule[|schedule| - 1]);
    }
  }

  lemma {:induction false} RunGrows(base: map<string, UserId>, schedule: seq<Step>, more: seq<Step>)
    requires Injective(base)
    ensures Grows(Run(base, schedule), Run(base, schedule + more))
    decreases |more|
  {
    if more == [] {
      assert schedule + more == schedule;
    } else {
      hide Valid, Apply, Grows, Run;
      var init := more[..|more| - 1];
      RunGrows(base, schedule, init);
      RunIsValid(base, schedule + init);
      assert schedule + more == schedule + init + [more[|more| - 1]];
      RunSnoc(base, schedule + init, more[|more| - 1]);
      StepKeepsValid(Run(base, schedule + init), more[|more| - 1]);
      GrowsOnAndOn(Run(base, schedule), Run(base, schedule + init), Run(base, schedule + more));
    }
  }

  /* ---------------------------------------------------------------- results */

  /** Two attempts suffice: no sign-in ever meets a second unique violation. */
  lemma RetryNeverViolates(base: map<string, UserId>, schedule: seq<Step>, c: Client)
    requires Injective(base) && c in Run(base, schedule).clients
    ensures Run(base, schedule).clients[c].pc != Thrown
  {
    RunIsValid(base, schedule);
    assert ClientValid(Run(base, schedule), Run(base, schedule).clients[c]);
  }

  /** Every successful sign-in of one Google account, now or at any later time, returns the same user. */
  lemma SameUserForever(base: map<string, UserId>, schedule: seq<Step>, more: seq<Step>, c: Client, d: Client)
    requires Injective(base)
    requires
      var now, later := Run(base, schedule).clients, Run(base, schedule + more).clients;
      c in now && now[c].pc.SignedIn? && d in later && later[d].pc.SignedIn? && now[c].who.sub == later[d].who.sub
    ensures Run(base, schedule).clients[c].pc.user == Run(base, schedule + more).clients[d].pc.user
  {
    var now, later := Run(base, schedule), Run(base, schedule + more);
    RunIsValid(base, schedule);
    RunIsValid(base, schedule + more);
    RunGrows(base, schedule, more);
    assert ClientValid(now, now.clients[c]) && ClientValid(later, later.clients[d]);
  }

  /** Each user has at most one Google account and each account one user; no sign-in leaves a user without one. */
  lemma AccountsAreConsistent(base: map<string, UserId>, schedule: seq<Step>)
    requires Injective(base)
    ensures
      var s := Run(base, schedule);
      && Injective(s.connections) && Injective(s.users)
      && (forall sub :: sub in s.connections ==> s.connections[sub] in s.users.Values)
      && (forall email :: email in s.users && email !in base ==> HasGoogle(s.connections, s.users[email]))
  {
    RunIsValid(base, schedule);
  }

  /** The user is tied to another Google account. */
  ghost predicate TiedElsewhere(s: State, who: Identity) {
    && who.email in s.users
    && exists sub :: sub in s.connections && sub != who.sub && s.connections[sub] == s.users[who.email]
  }

  /**
   Refusing with account_conflict is meant for a user tied to a different account.
   In terms of the tables at that statement: not to the sign-in's own account.
   */
  lemma ConflictIsRightIff(base: map<string, UserId>, schedule: seq<Step>, c: Client, newUser: UserId)
    requires Injective(base)
    requires
      var s := Run(base, schedule);
      c in s.clients && s.clients[c].pc.FindEmail? && Statement(s, c, newUser).clients[c].pc == Conflict
    ensures
      var s := Run(base, schedule);
      var who := s.clients[c].who;
      TiedElsewhere(s, who) <==> !(who.sub in s.connections && s.connections[who.sub] == s.users[who.email])
  {
    RunIsValid(base, schedule);
  }

  lemma RunSnoc(base: map<string, UserId>, schedule: seq<Step>, step: Step)
    ensures Run(base, schedule + [step]) == Apply(Run(base, schedule), step)
  {
    assert (schedule + [step])[..|schedule|] == schedule;
  }

  predicate By(step: Step, c: Client) {
    !step.Arrive? && step.c == c
  }

  /** Place i of the schedule is where c last looked for its connection, and c has made no statement since. */
  ghost predicate IsLook(base: map<string, UserId>, schedule: seq<Step>, c: Client, i: nat) {
    && i < |schedule| && schedule[i].Advance? && schedule[i].c == c
    && c in Run(base, schedule[..i]).clients && Run(base, schedule[..i]).clients[c].pc.FindConnection?
    && forall k :: i < k < |schedule| ==> !By(schedule[k], c)
  }

  lemma OwnStep(s: State, step: Step, c: Client)
    requires By(step, c) && c in Apply(s, step).clients && Apply(s, step).clients[c].pc.FindEmail?
    ensures step.Advance? && step.c == c && c in s.clients && s.clients[c].pc.FindConnection?
    ensures Apply(s, step).clients[c].who.sub !in Apply(s, step).connections
  {
  }

  lemma LookStays(base: map<string, UserId>, init: seq<Step>, last: Step, c: Client, i: nat)
    requires IsLook(base, init, c, i) && !By(last, c)
    ensures IsLook(base, init + [last], c, i) && (init + [last])[..i + 1] == init[..i + 1]
  {
    assert (init + [last])[..i] == init[..i];
  }

  /** A sign-in that is about to look for its email did not find its connection when it looked. */
  lemma {:induction false} LookOf(base: map<string, UserId>, schedule: seq<Step>, c: Client) returns (i: nat)
    requires c in Run(base, schedule).clients && Run(base, schedule).clients[c].pc.FindEmail?
    ensures IsLook(base, schedule, c, i)
    ensures
      var looked := Run(base, schedule[..i + 1]);
      && c in looked.clients && looked.clients[c] == Run(base, schedule).clients[c]
      && looked.clients[c].who.sub !in looked.connections
  {
    hide Apply, By;
    var init, last := schedule[..|schedule| - 1], schedule[|schedule| - 1];
    assert schedule == init + [last];
    if By(last, c) {
      OwnStep(Run(base, init), last, c);
      i := |schedule| - 1;
      assert schedule[..i + 1] == schedule;
    } else {
      StepOfOther(Run(base, init), last, c);
      i := LookOf(base, init, c);
      LookStays(base, init, last, c, i);
    }
  }

  lemma StepOfOther(s: State, step: Step, c: Client)
    requires !By(step, c) && c in Apply(s, step).clients && Apply(s, step).clients[c].pc.FindEmail?
    ensures c in s.clients && s.clients[c] == Apply(s, step).clients[c]
  {
    if step.Advance? && step.c in s.clients { StatementMovesOnlyItsClient(s, step.c, step.newUser); }
  }

  /**
   The step is the statement by which a sign-in of account `sub`, linking or creating the user,
   connects it to `user`.
   */
  ghost predicate Connects(s: State, step: Step, sub: string, user: UserId) {
    && step.Advance? && step.c in s.clients && s.clients[step.c].who.sub == sub
    && (s.clients[step.c].pc.Linking? || s.clients[step.c].pc.Creating?)
    && sub !in s.connections
    && var s' := Apply(s, step);
    && sub in s'.connections && s'.connections[sub] == user
    && step.c in s'.clients && s'.clients[step.c].pc == SignedIn(user)
  }

  lemma WhoConnects(s: State, step: Step, sub: string)
    requires sub !in s.connections && sub in Apply(s, step).connections
    ensures Connects(s, step, sub, Apply(s, step).connections[sub])
  {
  }

  /** An account that got connected was connected by a sign-in of its own. */
  lemma {:induction false} ConnectedSince(base: map<string, UserId>, schedule: seq<Step>, sub: string, i: nat)
    returns (k: nat)
    requires Injective(base) && i <= |schedule|
    requires sub !in Run(base, schedule[..i]).connections && sub in Run(base, schedule).connections
    ensures i <= k < |schedule|
    ensures Connects(Run(base, schedule[..k]), schedule[k], sub, Run(base, schedule).connections[sub])
  {
    assert schedule[..|schedule|] == schedule;
    var init, last := schedule[..|schedule| - 1], schedule[|schedule| - 1];
    if sub in Run(base, init).connections {
      assert schedule[..i] == init[..i];
      k := ConnectedSince(base, init, sub, i);
      assert schedule[..k] == init[..k];
      RunIsValid(base, init);
      StepKeepsValid(Run(base, init), last);
    } else {
      k := |schedule| - 1;
      WhoConnects(Run(base, init), last, sub);
    }
  }

  lemma ConnectionsStay(base: map<string, UserId>, schedule: seq<Step>, k: nat, sub: string)
    requires Injective(base) && k <= |schedule| && sub in Run(base, schedule[..k]).connections
    ensures sub in Run(base, schedule).connections
    ensures Run(base, schedule).connections[sub] == Run(base, schedule[..k]).connections[sub]
  {
    RunGrows(base, schedule[..k], schedule[k..]);
    assert schedule[..k] + schedule[k..] == schedule;
    GrowsMeans(Run(base, schedule[..k]), Run(base, schedule));
  }

  /**
   Between its look and its refusal, another sign-in of the same account connected it to the very
   user it is refused for.
   */
  ghost predicate ConnectedMeanwhile(base: map<string, UserId>, schedule: seq<Step>, look: nat, who: Identity,
      user: UserId) {
    exists k :: look < k < |schedule| && Connects(Run(base, schedule[..k]), schedule[k], who.sub, user)
  }

  /**
   An account not connected at place i is connected to this user now if and only if a sign-in of it
   did that since.
   */
  lemma ConnectedIff(base: map<string, UserId>, schedule: seq<Step>, look: nat, who: Identity, user: UserId)
    requires Injective(base) && look < |schedule| && who.sub !in Run(base, schedule[..look + 1]).connections
    ensures
      ConnectedMeanwhile(base, schedule, look, who, user) <==>
        who.sub in Run(base, schedule).connections && Run(base, schedule).connections[who.sub] == user
  {
    hide Run, Connects;
    if who.sub in Run(base, schedule).connections && Run(base, schedule).connections[who.sub] == user {
      var k := ConnectedSince(base, schedule, who.sub, look + 1);
      assert Connects(Run(base, schedule[..k]), schedule[k], who.sub, user);
    }
    if k :| look < k < |schedule| && Connects(Run(base, schedule[..k]), schedule[k], who.sub, user) {
      AfterConnecting(base, schedule, k, who.sub, user);
      ConnectionsStay(base, schedule, k + 1, who.sub);
    }
  }

  lemma RefusedForAUser(s: State, c: Client, newUser: UserId)
    requires c in s.clients && s.clients[c].pc.FindEmail? && Statement(s, c, newUser).clients[c].pc == Conflict
    ensures s.clients[c].who.email in s.users
  {
  }

  /**
   When account_conflict is wrong. A sign-in that is refused is refused by itself -
   the user is not tied to a different account - if and only if, since it looked for
   its connection, another sign-in of its account linked or created that user.
   */
  lemma WronglyRefusedIff(base: map<string, UserId>, schedule: seq<Step>, c: Client, newUser: UserId)
      returns (look: nat)
    requires Injective(base)
    requires
      var s := Run(base, schedule);
      c in s.clients && s.clients[c].pc.FindEmail? && Statement(s, c, newUser).clients[c].pc == Conflict
    ensures IsLook(base, schedule, c, look)
    ensures
      var s := Run(base, schedule);
      var who := s.clients[c].who;
      who.email in s.users
      && (!TiedElsewhere(s, who) <==> ConnectedMeanwhile(base, schedule, look, who, s.users[who.email]))
  {
    hide Run, TiedElsewhere, Statement, Connects, ConnectedMeanwhile, IsLook;
    var s := Run(base, schedule);
    RefusedForAUser(s, c, newUser);
    ConflictIsRightIff(base, schedule, c, newUser);
    look := LookOf(base, schedule, c);
    LookIsBefore(base, schedule, c, look);
    ConnectedIff(base, schedule, look, s.clients[c].who, s.users[s.clients[c].who.email]);
  }

  lemma LookIsBefore(base: map<string, UserId>, schedule: seq<Step>, c: Client, look: nat)
    requires IsLook(base, schedule, c, look)
    ensures look < |schedule|
  {
  }

  lemma AfterConnecting(base: map<string, UserId>, schedule: seq<Step>, k: nat, sub: string, user: UserId)
    requires k < |schedule| && Connects(Run(base, schedule[..k]), schedule[k], sub, user)
    ensures sub in Run(base, schedule[..k + 1]).connections && Run(base, schedule[..k + 1]).connections[sub] == user
  {
    assert schedule[..k + 1] == schedule[..k] + [schedule[k]];
    RunSnoc(base, schedule[..k], schedule[k]);
  }

  /** What a retry that finds no connection has learnt: the user of its email is tied to a different account. */
  lemma RetryLooked(s: State, c: Client)
    requires Valid(s) && c in s.clients && s.clients[c].pc.FindEmail? && s.clients[c].pc.attempt > 0
    requires s.clients[c].who.sub !in s.connections
    ensures TiedElsewhere(s, s.clients[c].who)
  {
    assert ClientValid(s, s.clients[c]);
  }

  lemma TiedForGood(s: State, s': State, who: Identity)
    requires Grows(s, s') && TiedElsewhere(s, who)
    ensures TiedElsewhere(s', who) && who.email in s'.users && HasGoogle(s'.connections, s'.users[who.email])
  {
    var sub :| sub in s.connections && sub != who.sub && s.connections[sub] == s.users[who.email];
    assert sub in s'.connections && s'.connections[sub] == s'.users[who.email];
  }

  /** It happens on the first attempt only: what a retry is refused for is tied to a different account. */
  lemma RetryIsRightlyRefused(base: map<string, UserId>, schedule: seq<Step>, c: Client, newUser: UserId)
    requires Injective(base)
    requires
      var s := Run(base, schedule);
      c in s.clients && s.clients[c].pc.FindEmail? && s.clients[c].pc.attempt > 0
    ensures
      var s := Run(base, schedule);
      Statement(s, c, newUser).clients[c].pc == Conflict && TiedElsewhere(s, s.clients[c].who)
  {
    hide Run, Valid, TiedElsewhere, IsLook, Grows, HasGoogle;
    var look := LookOf(base, schedule, c);
    LookIsBefore(base, schedule, c, look);
    var looked, more := schedule[..look + 1], schedule[look + 1..];
    assert looked + more == schedule;
    RunIsValid(base, looked);
    RetryLooked(Run(base, looked), c);
    RunGrows(base, looked, more);
    TiedForGood(Run(base, looked), Run(base, schedule), Run(base, schedule).clients[c].who);
  }

  /** So a sign-in during which no other of its account makes a statement is refused only for a different account. */
  lemma AloneIsRightlyRefused(base: map<string, UserId>, schedule: seq<Step>, c: Client, newUser: UserId, look: nat)
    requires Injective(base)
    requires
      var s := Run(base, schedule);
      c in s.clients && s.clients[c].pc.FindEmail? && Statement(s, c, newUser).clients[c].pc == Conflict
    requires IsLook(base, schedule, c, look)
    requires forall k :: look < k < |schedule| && schedule[k].Advance? ==>
      var before := Run(base, schedule[..k]);
      schedule[k].c in before.clients ==>
        before.clients[schedule[k].c].who.sub != Run(base, schedule).clients[c].who.sub
    ensures TiedElsewhere(Run(base, schedule), Run(base, schedule).clients[c].who)
  {
    hide Valid, TiedElsewhere, Statement;
    var found := WronglyRefusedIff(base, schedule, c, newUser);
    OneLook(base, schedule, c, look, found);
  }

  lemma OneLook(base: map<string, UserId>, schedule: seq<Step>, c: Client, i: nat, j: nat)
    requires IsLook(base, schedule, c, i) && IsLook(base, schedule, c, j)
    ensures i == j
  {
    assert By(schedule[i], c) && By(schedule[j], c);
  }

  /**
   Two first sign-ins of one account, of which one is wrongly refused: the second looks for
   the connection, the first creates user and connection, and the second, now
   finding the email taken, is refused though the user is its own.
   */
  lemma RefusedByItself(who: Identity)
    ensures
      var s := Run(map[], [Arrive(0, who), Arrive(1, who), Advance(1, 7), Advance(0, 7), Advance(0, 7), Advance(0, 7),
                           Advance(1, 8)]);
      && s.clients == map[0 := SignIn(who, SignedIn(7)), 1 := SignIn(who, Conflict)]
      && s.connections == map[who.sub := 7] && !TiedElsewhere(s, who)
  {
    var atStart := [Arrive(0, who)] + [Arrive(1, who)] + [Advance(1, 7)];
    var created := atStart + [Advance(0, 7)] + [Advance(0, 7)] + [Advance(0, 7)];
    BothLooked(who);
    FirstCreates(who, atStart);
    RunSnoc(map[], created, Advance(1, 8));
    assert created + [Advance(1, 8)] == [Arrive(0, who), Arrive(1, who), Advance(1, 7), Advance(0, 7), Advance(0, 7),
                                         Advance(0, 7), Advance(1, 8)];
    assert Run(map[], created).connections[who.sub] == 7;
  }

  lemma BothLooked(who: Identity)
    ensures Run(map[], [Arrive(0, who)] + [Arrive(1, who)] + [Advance(1, 7)]) ==
      State(map[], map[], map[], map[0 := SignIn(who, FindConnection(0)), 1 := SignIn(who, FindEmail(0))])
  {
    RunSnoc(map[], [], Arrive(0, who));
    assert [] + [Arrive(0, who)] == [Arrive(0, who)];
    RunSnoc(map[], [Arrive(0, who)], Arrive(1, who));
    RunSnoc(map[], [Arrive(0, who)] + [Arrive(1, who)], Advance(1, 7));
  }

  lemma FirstCreates(who: Identity, schedule: seq<Step>)
    requires Run(map[], schedule) ==
      State(map[], map[], map[], map[0 := SignIn(who, FindConnection(0)), 1 := SignIn(who, FindEmail(0))])
    ensures Run(map[], schedule + [Advance(0, 7)] + [Advance(0, 7)] + [Advance(0, 7)]) ==
      State(map[], map[who.email := 7], map[who.sub := 7],
            map[0 := SignIn(who, SignedIn(7)), 1 := SignIn(who, FindEmail(0))])
  {
    RunSnoc(map[], schedule, Advance(0, 7));
    RunSnoc(map[], schedule + [Advance(0, 7)], Advance(0, 7));
    RunSnoc(map[], schedule + [Advance(0, 7)] + [Advance(0, 7)], Advance(0, 7));
  }

  /* ------------------------------------------------------------ the handler */

  lemma OthersLeaveMe(s: State, step: Step, c: Client)
    requires !By(step, c) && c in s.clients
    ensures c in Apply(s, step).clients && Apply(s, step).clients[c] == s.clients[c]
  {
    if step.Advance? && step.c in s.clients { StatementMovesOnlyItsClient(s, step.c, step.newUser); }
  }

  /** The user of this email has a Google account. */
  ghost predicate IsTied(s: State, email: string) {
    email in s.users && exists sub :: sub in s.connections && s.connections[sub] == s.users[email]
  }

  /** Where a statement can lead, from a valid state. */
  lemma NextPc(s: State, c: Client, newUser: UserId)
    requires Valid(s) && c in s.clients
    ensures
      var SignIn(who, pc) := s.clients[c];
      var s' := Apply(s, Advance(c, newUser));
      c in s'.clients && s'.clients[c].who == who
      && var next := s'.clients[c].pc;
      match pc
      case FindConnection(attempt) => if who.sub in s'.connections then next.Updating? else next == FindEmail(attempt)
      case FindEmail(attempt) =>
        || (next == Conflict && IsTied(s', who.email))
        || next == Creating(attempt)
        || (next.Linking? && next.attempt == attempt)
      case Linking(attempt, user) => attempt == 0 && (next == FindConnection(1) || next == SignedIn(user))
      case Creating(attempt) =>
        attempt == 0 && (if newUser in s.users.Values then next == pc && s'.users == s.users
                         else next == FindConnection(1) || next == SignedIn(newUser))
      case Updating(user) => next == SignedIn(user)
      case _ => next == pc
    ensures
      var s' := Apply(s, Advance(c, newUser));
      c in s'.clients && s'.clients[c].pc.SignedIn? ==>
        s'.clients[c].who.sub in s'.connections && s'.connections[s'.clients[c].who.sub] == s'.clients[c].pc.user
  {
    hide TablesValid, HasGoogle;
    assert ClientValid(s, s.clients[c]);
    StepKeepsValid(s, Advance(c, newUser));
    StatementMovesOnlyItsClient(s, c, newUser);
    IsTiedMeans(s, s.clients[c].who);
    assert ClientValid(Apply(s, Advance(c, newUser)), Apply(s, Advance(c, newUser)).clients[c]);
  }

  /**
   The statements of a sign-in, with no other between them: a returning account gets its
   user; otherwise the user of its email is linked, unless that has a Google account
   already, which is refused; and if there is none, user and connection are created.
   */
  lemma UndisturbedSignIn(s: State, c: Client, who: Identity, newUser: UserId)
    requires c !in s.clients && newUser !in s.users.Values
    ensures
      var s' := Apply(Apply(Apply(Apply(s, Arrive(c, who)), Advance(c, newUser)), Advance(c, newUser)),
                      Advance(c, newUser));
      if who.sub in s.connections then
        s' == s.(clients := s.clients[c := SignIn(who, SignedIn(s.connections[who.sub]))])
      else if who.email !in s.users then
        s' == State(s.base, s.users[who.email := newUser], s.connections[who.sub := newUser],
                    s.clients[c := SignIn(who, SignedIn(newUser))])
      else if exists sub :: sub in s.connections && s.connections[sub] == s.users[who.email] then
        s' == s.(clients := s.clients[c := SignIn(who, Conflict)])
      else
        s' == State(s.base, s.users, s.connections[who.sub := s.users[who.email]],
                    s.clients[c := SignIn(who, SignedIn(s.users[who.email]))])
  {
    var s0 := s.(clients := s.clients[c := SignIn(who, FindConnection(0))]);
    assert Apply(s, Arrive(c, who)) == s0;
    hide Apply;
    var s1 := After(s0, c, newUser, who, FindConnection(0));
    hide HasGoogle;
    var s2 := After(s1, c, newUser, who, s1.clients[c].pc);
    var s3 := After(s2, c, newUser, who, s2.clients[c].pc);
    IsTiedMeans(s, who);
  }

  /** A sign-in that dies leaves the tables as they are, and makes no further statement. */
  lemma CrashEndsSignIn(s: State, c: Client, newUser: UserId)
    requires c in s.clients
    ensures
      var s' := Apply(s, Crash(c));
      && s' == s.(clients := s.clients[c := SignIn(s.clients[c].who, Dead)])
      && Apply(s', Advance(c, newUser)) == s'
  {
    var s' := Apply(s, Crash(c));
    assert s'.clients[c := s'.clients[c]] == s'.clients;
  }

  lemma IsTiedMeans(s: State, who: Identity)
    ensures who.email in s.users ==>
      (HasGoogle(s.connections, s.users[who.email]) <==>
        exists sub :: sub in s.connections && s.connections[sub] == s.users[who.email])
  {
  }

  lemma After(s: State, c: Client, newUser: UserId, who: Identity, pc: Pc) returns (s': State)
    requires c in s.clients && s.clients[c] == SignIn(who, pc)
    ensures s' == Apply(s, Advance(c, newUser))
    ensures
      var effect := EffectOf(s, SignIn(who, pc), newUser);
      s' == State(s.base, effect.users, effect.connections, s.clients[c := SignIn(who, effect.pc)])
  {
    hide EffectOf;
    s' := Apply(s, Advance(c, newUser));
  }

  /** How upsertUser ends; IdTaken is a generated user id that is already in use. */
  datatype Result = User(user: UserId) | AccountConflict | IdTaken

  class AccountDb {
    const base: map<string, UserId>
    var state: State
    ghost var schedule: seq<Step>

    ghost predicate Valid()
      reads this
    {
      Injective(base) && state == Run(base, schedule)
    }

    constructor (base: map<string, UserId>)
      requires Injective(base)
      ensures Valid() && this.base == base && schedule == [] && state == State(base, base, map[], map[])
    {
      this.base := base;
      state, schedule := State(base, base, map[], map[]), [];
    }

    method Do(step: Step)
      requires Valid()
      modifies this
      ensures Valid() && state == Apply(old(state), step) && schedule == old(schedule) + [step]
    {
      RunSnoc(base, schedule, step);
      state, schedule := Apply(state, step), schedule + [step];
    }

    /** Between two statements of sign-in c, any number of statements of others. */
    method Others(c: Client)
      requires Valid() && c in state.clients
      modifies this
      ensures Valid() && old(schedule) <= schedule
      ensures c in state.clients && state.clients[c] == old(state).clients[c]
    {
      var steps: seq<Step> := *;
      for i := 0 to |steps|
        invariant Valid() && old(schedule) <= schedule
        invariant c in state.clients && state.clients[c] == old(state).clients[c]
      {
        if !By(steps[i], c) {
          OthersLeaveMe(state, steps[i], c);
          Do(steps[i]);
        }
      }
    }

    /** Others, then the next statement of sign-in c. */
    method Next(c: Client, newUser: UserId)
      requires Valid() && c in state.clients
      modifies this
      ensures Valid() && old(schedule) <= schedule
      ensures c in state.clients && state.clients[c].who == old(state).clients[c].who
      ensures
        var next := state.clients[c].pc;
        match old(state).clients[c].pc
        case FindConnection(attempt) =>
          if state.clients[c].who.sub in state.connections then next.Updating? else next == FindEmail(attempt)
        case FindEmail(attempt) =>
          || (next == Conflict && IsTied(state, state.clients[c].who.email))
          || next == Creating(attempt)
          || (next.Linking? && next.attempt == attempt)
        case Linking(attempt, user) => attempt == 0 && (next == FindConnection(1) || next == SignedIn(user))
        case Creating(attempt) =>
          attempt == 0 && (next == FindConnection(1) || next == SignedIn(newUser)
                           || (next == Creating(0) && newUser in state.users.Values))
        case Updating(user) => next == SignedIn(user)
        case _ => true
      ensures state.clients[c].pc.SignedIn? ==>
        var sub := state.clients[c].who.sub;
        sub in state.connections && state.connections[sub] == state.clients[c].pc.user
    {
      hide Apply, ClientValid, TablesValid, HasGoogle;
      Others(c);
      RunIsValid(base, schedule);
      NextPc(state, c, newUser);
      Do(Advance(c, newUser));
    }

    /**
     upsertUser, with others between its statements: it never ends in a unique
     violation; a user it returns is the one its account is connected to, and an account
     that is connected from the start always gets its user; it is refused only for a
     user that has a Google account.
     */
    method UpsertUser(c: Client, who: Identity, newUser: UserId) returns (result: Result)
      requires Valid() && c !in state.clients
      modifies this
      ensures Valid() && old(schedule) <= schedule
      ensures result.User? ==> who.sub in state.connections && state.connections[who.sub] == result.user
      ensures who.sub in old(state).connections ==> result == User(old(state).connections[who.sub])
      ensures result.AccountConflict? ==> IsTied(state, who.email)
      ensures c in state.clients && state.clients[c].who == who
      ensures match result
              case User(user) => state.clients[c].pc == SignedIn(user)
              case AccountConflict => state.clients[c].pc == Conflict
              case IdTaken => state.clients[c].pc.Creating? && newUser in state.users.Values
    {
      ghost var before, was := schedule, state;
      Do(Arrive(c, who));
      var attempt := 0;
      while true
        invariant Valid() && before <= schedule && attempt < 2
        invariant c in state.clients && state.clients[c] == SignIn(who, FindConnection(attempt))
        invariant attempt > 0 ==> who.sub !in was.connections
        decreases 2 - attempt
      {
        Next(c, newUser);
        StaysConnected(base, before, schedule, who.sub);
        if state.clients[c].pc.Updating? {
          var existing := state.clients[c].pc.user;
          Next(c, newUser);
          StaysConnected(base, before, schedule, who.sub);
          return User(existing);
        }
        Next(c, newUser);
        if state.clients[c].pc.Conflict? { return AccountConflict; }
        Next(c, newUser);
        if state.clients[c].pc.Creating? { return IdTaken; }
        if state.clients[c].pc.SignedIn? { return User(state.clients[c].pc.user); }
        attempt := attempt + 1;
      }
    }
  }

  lemma StaysConnected(base: map<string, UserId>, before: seq<Step>, schedule: seq<Step>, sub: string)
    requires Injective(base) && before <= schedule
    ensures sub in Run(base, before).connections ==>
      && sub in Run(base, schedule).connections
      && Run(base, schedule).connections[sub] == Run(base, before).connections[sub]
  {
    if sub in Run(base, before).connections {
      assert schedule[..|before|] == before;
      ConnectionsStay(base, schedule, |before|, sub);
    }
  }
}
