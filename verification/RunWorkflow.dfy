/**
 The Cloudflare engine: one durable Workflow instance per execution.

 Three kinds of state: the D1 rows (`execution`, `steps`), the platform's log of
 finished `step.do` calls (`log`), and the local variables of `run`. A crash
 loses the locals only; `Run` is then called again and replays. `crashes` is the
 number of crashes still to come: after every durable write `run` may be cut
 short if it is positive. It is arbitrary, so `Valid()` upon return from a
 crashed call is a statement about the durable state after every single write.

 A D1 statement, or batch, is one write. So a step may be committed in D1 and
 not yet logged; it is then run again.
 */
module RunWorkflow {
  import opened Options
  import opened Json
  import opened RunAction
  import opened Chain

  datatype Plan = Plan(actions: seq<Action>, succeeded: set<string>, payload: Json)

  datatype StepName = LoadStep | WaitStep(id: string) | ActionStep(id: string) | FailStep | FinishStep

  datatype Saved = PlanSaved(plan: Option<Plan>) | PayloadSaved(payload: Json) | Rejected(error: string) | Done

  /** How a durable step, or the body of one, ends. */
  datatype Reply<T> = Returned(value: T) | Threw(error: string) | Crashed

  /** How a call of `run` ends. */
  datatype End = Finished | GaveUp(actionId: string) | NothingToDo | Interrupted

  /** `retries: { limit: 2 }`. */
  const STEP_ATTEMPTS := 3

  /** The log holds the plan that `load` made when `start` actions had succeeded. */
  ghost predicate PlanLogged(actions: seq<Action>, base: Json, log: map<StepName, Saved>, committed: seq<Enrichment>,
      start: nat)
  {
    && start <= |committed| && start <= |actions|
    && LoadStep in log
    && log[LoadStep] == PlanSaved(Some(Plan(actions, PrefixIds(actions, start), Fold(base, committed[..start]))))
  }

  /**
   The log agrees with the commits, up to one committed step that is not
   logged: it holds the results of the actions from `start` up to `logged`.
   */
  ghost predicate LogAgrees(actions: seq<Action>, base: Json, status: Status, log: map<StepName, Saved>,
      committed: seq<Enrichment>, start: nat, logged: nat)
  {
    && start <= logged <= |committed| <= logged + 1 && |committed| <= |actions|
    && (log == map[] ==> start == |committed|)
    && (log != map[] ==>
          || PlanLogged(actions, base, log, committed, start)
          || (log == map[LoadStep := PlanSaved(None)] && status == Cancelled))
    && (forall i :: start <= i < logged ==>
          ActionStep(actions[i].id) in log
          && log[ActionStep(actions[i].id)] == PayloadSaved(Fold(base, committed[..i + 1])))
    && (forall i :: logged <= i < |actions| && ActionStep(actions[i].id) in log ==>
          i == logged && log[ActionStep(actions[i].id)].Rejected?)
    && (status == Succeeded ==> LoadStep in log && logged == |actions|)
    && (FinishStep in log ==> status == Succeeded)
    && (FailStep in log ==> status == Failed && logged < |actions| && ActionStep(actions[logged].id) in log)
  }

  /** The engine is to sleep before this action. */
  predicate NeedsWait(world: World, action: Action) {
    action.kind == "DELAY" && world.delaySeconds(action.config) > 0
  }

  /** Sleeps are logged for actions that need one only, and for those before their step is. */
  ghost predicate WaitsLogged(world: World, actions: seq<Action>, log: map<StepName, Saved>) {
    && (forall i: nat :: i < |actions| && NeedsWait(world, actions[i]) && ActionStep(actions[i].id) in log ==>
          WaitStep(actions[i].id) in log)
    && (forall id :: WaitStep(id) in log ==>
          exists i: nat :: i < |actions| && actions[i].id == id && NeedsWait(world, actions[i]))
  }

  /** Step `logged` was given up with this error. */
  ghost predicate GivenUp(actions: seq<Action>, log: map<StepName, Saved>, logged: nat, error: Option<string>) {
    && logged < |actions| && ActionStep(actions[logged].id) in log && log[ActionStep(actions[logged].id)].Rejected?
    && error == Some(log[ActionStep(actions[logged].id)].error)
  }

  /** An execution has an error just when it FAILED, and that is the one its last step was given up with. */
  ghost predicate ErrorFits(actions: seq<Action>, e: Execution, log: map<StepName, Saved>, logged: nat) {
    && (e.error.Some? ==> e.status == Failed && (log != map[] ==> GivenUp(actions, log, logged, e.error)))
    && (FailStep in log ==> GivenUp(actions, log, logged, e.error))
  }

  ghost predicate LogFits(world: World, actions: seq<Action>, e: Execution, log: map<StepName, Saved>, logged: nat) {
    WaitsLogged(world, actions, log) && ErrorFits(actions, e, log, logged)
  }

  lemma FitsWhenEmpty(world: World, actions: seq<Action>, e: Execution, logged: nat)
    requires e.error.None?
    ensures LogFits(world, actions, e, map[], logged)
    ensures forall plan :: LogFits(world, actions, e, map[LoadStep := plan], logged)
  {
  }

  lemma CancelledHasNoError(world: World, actions: seq<Action>, e: Execution, log: map<StepName, Saved>, logged: nat)
    requires LogFits(world, actions, e, log, logged) && e.status != Failed
    ensures e.error.None?
  {
  }

  /** Only status and error of the execution matter. */
  lemma FitsAfterOutput(world: World, actions: seq<Action>, e: Execution, output: Json, log: map<StepName, Saved>,
      logged: nat)
    requires LogFits(world, actions, e, log, logged)
    ensures LogFits(world, actions, e.(output := output), log, logged)
  {
  }

  lemma FitsAfterSleep(world: World, actions: seq<Action>, e: Execution, log: map<StepName, Saved>, logged: nat, i: nat)
    requires LogFits(world, actions, e, log, logged) && i < |actions| && NeedsWait(world, actions[i]) && log != map[]
    ensures LogFits(world, actions, e, log[WaitStep(actions[i].id) := Done], logged)
  {
  }

  /** The result of a step that is not logged, and whose sleep is. */
  lemma FitsAfterSave(world: World, actions: seq<Action>, e: Execution, log: map<StepName, Saved>, logged: nat,
      saved: Saved, logged': nat)
    requires LogFits(world, actions, e, log, logged) && DistinctIds(actions) && log != map[] && logged < |actions|
    requires ActionStep(actions[logged].id) !in log
    requires NeedsWait(world, actions[logged]) ==> WaitStep(actions[logged].id) in log
    ensures LogFits(world, actions, e, log[ActionStep(actions[logged].id) := saved], logged')
  {
    assert e.error.None?;
  }

  lemma FitsAfterFail(world: World, actions: seq<Action>, e: Execution, log: map<StepName, Saved>, logged: nat,
      error: string)
    requires LogFits(world, actions, e, log, logged) && GivenUp(actions, log, logged, Some(error))
    ensures
      var failed := e.(status := Failed, error := Some(error));
      LogFits(world, actions, failed, log, logged) && LogFits(world, actions, failed, log[FailStep := Done], logged)
  {
  }

  lemma FitsAfterFinish(world: World, actions: seq<Action>, e: Execution, log: map<StepName, Saved>, logged: nat,
      output: Json)
    requires LogFits(world, actions, e, log, logged) && logged == |actions| && log != map[]
    ensures
      var finished := e.(status := Succeeded, output := output);
      && e.error.None?
      && LogFits(world, actions, finished, log, logged)
      && LogFits(world, actions, finished, log[FinishStep := Done], logged)
  {
  }

  lemma FailIsLogged(world: World, actions: seq<Action>, e: Execution, log: map<StepName, Saved>, logged: nat)
    requires LogFits(world, actions, e, log, logged)
    ensures FailStep in log ==> GivenUp(actions, log, logged, e.error)
  {
  }

  /** Step i is the next one of this instance, and payload the one it is due. */
  ghost predicate Due(actions: seq<Action>, base: Json, status: Status, log: map<StepName, Saved>,
      committed: seq<Enrichment>, start: nat, logged: nat, i: nat, payload: Json)
  {
    && PlanLogged(actions, base, log, committed, start) && status != Succeeded
    && i == logged < |actions| && i <= |committed| <= i + 1 && ActionStep(actions[i].id) !in log
    && payload == Fold(base, committed[..i])
  }

  /** Replacing or adding the commit of the step being run does not disturb the log. */
  lemma LogAgreesAfterCommit(actions: seq<Action>, base: Json, status: Status, log: map<StepName, Saved>,
      committed: seq<Enrichment>, start: nat, logged: nat, enriched: Enrichment)
    requires LogAgrees(actions, base, status, log, committed, start, logged)
    requires PlanLogged(actions, base, log, committed, start) && logged < |actions|
    ensures
      var now := committed[..logged] + [enriched];
      LogAgrees(actions, base, status, log, now, start, logged) && PlanLogged(actions, base, log, now, start)
  {
    var now := committed[..logged] + [enriched];
    assert forall k :: 0 <= k <= logged ==> now[..k] == committed[..k];
  }

  /** Logging the result of the committed step. */
  lemma LogAgreesAfterLogging(actions: seq<Action>, base: Json, status: Status, log: map<StepName, Saved>,
      committed: seq<Enrichment>, start: nat, logged: nat)
    requires LogAgrees(actions, base, status, log, committed, start, logged) && DistinctIds(actions)
    requires PlanLogged(actions, base, log, committed, start) && |committed| == logged + 1
    requires ActionStep(actions[logged].id) !in log
    ensures
      var log' := log[ActionStep(actions[logged].id) := PayloadSaved(Fold(base, committed))];
      LogAgrees(actions, base, status, log', committed, start, logged + 1)
      && PlanLogged(actions, base, log', committed, start)
  {
    assert committed[..logged + 1] == committed;
  }

  /** A logged step: its saved payload is the fold up to it, unless it was given up. */
  lemma ReadingTheLog(actions: seq<Action>, base: Json, status: Status, log: map<StepName, Saved>,
      committed: seq<Enrichment>, start: nat, logged: nat, i: nat)
    requires LogAgrees(actions, base, status, log, committed, start, logged) && start <= i <= logged && i < |actions|
    requires ActionStep(actions[i].id) in log
    ensures
      var saved := log[ActionStep(actions[i].id)];
      if i < logged then saved == PayloadSaved(Fold(base, committed[..i + 1]))
      else i == logged && saved.Rejected? && status != Succeeded
  {
  }

  /** A step that is not logged is the next one to run. */
  lemma NotLoggedIsDue(actions: seq<Action>, base: Json, status: Status, log: map<StepName, Saved>,
      committed: seq<Enrichment>, start: nat, logged: nat, i: nat)
    requires LogAgrees(actions, base, status, log, committed, start, logged) && start <= i <= logged && i < |actions|
    requires PlanLogged(actions, base, log, committed, start) && ActionStep(actions[i].id) !in log
    ensures Due(actions, base, status, log, committed, start, logged, i, Fold(base, committed[..i]))
  {
  }

  /** Logging that the step was given up. */
  lemma LogAgreesAfterRejecting(actions: seq<Action>, base: Json, status: Status, log: map<StepName, Saved>,
      committed: seq<Enrichment>, start: nat, logged: nat, error: string)
    requires LogAgrees(actions, base, status, log, committed, start, logged) && DistinctIds(actions)
    requires PlanLogged(actions, base, log, committed, start) && logged < |actions|
    requires ActionStep(actions[logged].id) !in log
    ensures
      var log' := log[ActionStep(actions[logged].id) := Rejected(error)];
      LogAgrees(actions, base, status, log', committed, start, logged)
      && PlanLogged(actions, base, log', committed, start)
  {
  }

  /** Logging the plan: everything that has succeeded so far is in it. */
  lemma LogAgreesAfterLoad(actions: seq<Action>, base: Json, status: Status, committed: seq<Enrichment>, k: nat,
      plan: Option<Plan>)
    requires LogAgrees(actions, base, status, map[], committed, k, k) && k == |committed|
    requires plan.None? ==> status == Cancelled
    requires plan.Some? ==> plan.value == Plan(actions, PrefixIds(actions, k), Fold(base, committed))
    ensures
      var log := map[LoadStep := PlanSaved(plan)];
      LogAgrees(actions, base, status, log, committed, k, k)
      && (plan.Some? ==> PlanLogged(actions, base, log, committed, k))
  {
    assert committed[..k] == committed;
  }

  /** Logging a sleep. */
  lemma LogAgreesAfterSleep(actions: seq<Action>, base: Json, status: Status, log: map<StepName, Saved>,
      committed: seq<Enrichment>, start: nat, logged: nat, id: string)
    requires LogAgrees(actions, base, status, log, committed, start, logged)
    requires PlanLogged(actions, base, log, committed, start)
    ensures
      var log' := log[WaitStep(id) := Done];
      && log != map[] && LogAgrees(actions, base, status, log', committed, start, logged)
      && PlanLogged(actions, base, log', committed, start)
  {
  }

  lemma PlanIsLogged(actions: seq<Action>, base: Json, log: map<StepName, Saved>, committed: seq<Enrichment>,
      start: nat)
    requires PlanLogged(actions, base, log, committed, start)
    ensures log != map[]
  {
  }

  /** What `load` has logged. */
  lemma LoadedPlan(actions: seq<Action>, base: Json, status: Status, log: map<StepName, Saved>,
      committed: seq<Enrichment>, start: nat, logged: nat)
    requires LogAgrees(actions, base, status, log, committed, start, logged)
    ensures if log == map[] then start == logged == |committed| else LoadStep in log
    ensures LoadStep in log ==>
      && start <= |committed| && start <= |actions| && log[LoadStep].PlanSaved?
      && match log[LoadStep].plan
         case None => status == Cancelled
         case Some(plan) =>
           && PlanLogged(actions, base, log, committed, start)
           && plan == Plan(actions, PrefixIds(actions, start), Fold(base, committed[..start]))
  {
  }

  lemma EndOfLog(actions: seq<Action>, base: Json, e: Execution, log: map<StepName, Saved>,
      committed: seq<Enrichment>, start: nat, logged: nat)
    requires LogAgrees(actions, base, e.status, log, committed, start, logged)
    ensures FailStep in log ==> e.status == Failed
    ensures FinishStep in log ==> e.status == Succeeded
  {
  }

  lemma LogAgreesAfterFail(actions: seq<Action>, base: Json, status: Status, log: map<StepName, Saved>,
      committed: seq<Enrichment>, start: nat, logged: nat)
    requires LogAgrees(actions, base, status, log, committed, start, logged)
    requires PlanLogged(actions, base, log, committed, start) && status != Succeeded
    ensures LogAgrees(actions, base, Failed, log, committed, start, logged)
    ensures logged < |actions| && ActionStep(actions[logged].id) in log ==>
      var log' := log[FailStep := Done];
      LogAgrees(actions, base, Failed, log', committed, start, logged)
        && PlanLogged(actions, base, log', committed, start)
  {
  }

  lemma LogAgreesAfterFinish(actions: seq<Action>, base: Json, status: Status, log: map<StepName, Saved>,
      committed: seq<Enrichment>, start: nat)
    requires LogAgrees(actions, base, status, log, committed, start, |actions|)
    requires PlanLogged(actions, base, log, committed, start)
    ensures LogAgrees(actions, base, Succeeded, log, committed, start, |actions|)
    ensures
      var log' := log[FinishStep := Done];
      LogAgrees(actions, base, Succeeded, log', committed, start, |actions|)
      && PlanLogged(actions, base, log', committed, start)
  {
  }

  /** Within a run started on an empty log, the actions before i used at most three rows each, the others none. */
  ghost predicate WithinBudget(actions: seq<Action>, before: seq<StepRow>, steps: seq<StepRow>, i: nat) {
    && (forall j :: 0 <= j < |actions| ==> RowsUsed(before, steps, actions[j].id) <= if j < i then STEP_ATTEMPTS else 0)
    && (forall j :: 0 <= j < |actions| ==>
          if j < i then FailuresUsed(before, steps, actions[j].id) < STEP_ATTEMPTS
          else FailuresUsed(before, steps, actions[j].id) == 0)
  }

  function RowsUsed(before: seq<StepRow>, steps: seq<StepRow>, id: string): int {
    Count(steps, Of(id)) - Count(before, Of(id))
  }

  function FailuresUsed(before: seq<StepRow>, steps: seq<StepRow>, id: string): int {
    Count(steps, FailedOf(id)) - Count(before, FailedOf(id))
  }

  /** Action i has failed three times. */
  ghost predicate Exhausted(actions: seq<Action>, before: seq<StepRow>, steps: seq<StepRow>, i: nat) {
    && i < |actions| && FailuresUsed(before, steps, actions[i].id) == STEP_ATTEMPTS
    && forall j :: 0 <= j < |actions| ==> RowsUsed(before, steps, actions[j].id) <= STEP_ATTEMPTS
  }

  /** No row for an action that had succeeded before, at most three for any other. */
  ghost predicate AtMostThreeRows(actions: seq<Action>, before: seq<StepRow>, steps: seq<StepRow>, done: nat) {
    forall j :: 0 <= j < |actions| ==> RowsUsed(before, steps, actions[j].id) <= if j < done then 0 else 3
  }

  ghost predicate SomeFailedThrice(actions: seq<Action>, before: seq<StepRow>, steps: seq<StepRow>) {
    exists j :: 0 <= j < |actions| && FailuresUsed(before, steps, actions[j].id) == 3
  }

  lemma BudgetAtEnd(actions: seq<Action>, before: seq<StepRow>, steps: seq<StepRow>, done: nat)
    requires forall j :: 0 <= j < done && j < |actions| ==> RowsUsed(before, steps, actions[j].id) == 0
    ensures forall at :: Exhausted(actions, before, steps, at) ==>
      AtMostThreeRows(actions, before, steps, done) && SomeFailedThrice(actions, before, steps)
    ensures WithinBudget(actions, before, steps, |actions|) ==>
      AtMostThreeRows(actions, before, steps, done) && !SomeFailedThrice(actions, before, steps)
  {
    hide RowsUsed, FailuresUsed;
  }

  lemma BudgetOfNothing(actions: seq<Action>, steps: seq<StepRow>)
    ensures WithinBudget(actions, steps, steps, 0)
  {
  }

  lemma NothingUsed(actions: seq<Action>, before: seq<StepRow>, steps: seq<StepRow>, i: nat)
    requires WithinBudget(actions, before, steps, i)
    ensures i < |actions| ==> WithinBudget(actions, before, steps, i + 1)
    ensures forall j :: 0 <= j < |actions| ==>
      RowsUsed(before, steps, actions[j].id) <= STEP_ATTEMPTS
        && FailuresUsed(before, steps, actions[j].id) < STEP_ATTEMPTS
  {
  }

  lemma BudgetOfStep(actions: seq<Action>, before: seq<StepRow>, prior: seq<StepRow>, steps: seq<StepRow>, i: nat,
      rows: nat, failed: nat)
    requires DistinctIds(actions) && i < |actions| && WithinBudget(actions, before, prior, i)
    requires Attempted(prior, steps, actions[i].id, rows, failed) && rows <= STEP_ATTEMPTS
    ensures failed < STEP_ATTEMPTS ==> WithinBudget(actions, before, steps, i + 1)
    ensures forall j :: 0 <= j < |actions| ==> RowsUsed(before, steps, actions[j].id) <= STEP_ATTEMPTS
    ensures FailuresUsed(before, steps, actions[i].id) == failed
  {
  }

  /* ------------------------------------------- which steps a pass executes */

  /** What a pass changes and leaves: the log, the step rows, and the actions handed to their executors, in order. */
  datatype Trace = Trace(log: map<StepName, Saved>, logged: nat, steps: seq<StepRow>, called: seq<nat>)

  /** The result of action j is held by the plan or the log: saved, or given up. */
  ghost predicate Held(actions: seq<Action>, t: Trace, j: nat)
    requires j < |actions|
  {
    j < t.logged || ActionStep(actions[j].id) in t.log
  }

  /** Between two moments, action j's executor was called. */
  ghost predicate Executed(before: Trace, after: Trace, j: nat) {
    exists k :: |before.called| <= k < |after.called| && after.called[k] == j
  }

  /** No row of another action was added. */
  ghost predicate OnlyRowsOf(before: seq<StepRow>, after: seq<StepRow>, id: string) {
    forall other :: other != id ==> Count(after, Of(other)) == Count(before, Of(other))
  }

  lemma NoRows(steps: seq<StepRow>, id: string)
    ensures OnlyRowsOf(steps, steps, id)
  {
  }

  lemma CountOthers(before: seq<StepRow>, steps: seq<StepRow>, row: StepRow, id: string)
    requires OnlyRowsOf(before, steps, id) && row.actionId == id
    ensures OnlyRowsOf(before, steps + [row], id)
  {
    forall other | other != id ensures Count(steps + [row], Of(other)) == Count(steps, Of(other)) {
      CountSnoc(steps, row, Of(other));
    }
  }

  ghost predicate OnlyCalls(before: seq<nat>, after: seq<nat>, i: nat) {
    before <= after && forall k :: |before| <= k < |after| ==> after[k] == i
  }

  /**
   What visiting action i does: nothing if its result is held; else it calls its executor, and then
   holds the result.
   */
  ghost predicate StepEffect(actions: seq<Action>, i: nat, before: Trace, after: Trace, crashed: bool)
    requires i < |actions|
  {
    && (if Held(actions, before, i) then after.called == before.called && after.steps == before.steps
        else
          && OnlyCalls(before.called, after.called, i) && OnlyRowsOf(before.steps, after.steps, actions[i].id)
          && (Held(actions, after, i) ==> |before.called| < |after.called|) && (!crashed ==> Held(actions, after, i)))
    && (forall j: nat :: j < |actions| && j != i ==> (Held(actions, after, j) <==> Held(actions, before, j)))
    && (Held(actions, before, i) ==> Held(actions, after, i))
  }

  /** What a pass, or several, did: executors were called, and rows added, for actions without a held result only. */
  ghost predicate PassEffect(actions: seq<Action>, before: Trace, after: Trace) {
    && before.called <= after.called
    && (forall j: nat :: Executed(before, after, j) ==> j < |actions| && !Held(actions, before, j))
    && (forall j: nat :: j < |actions| && Held(actions, before, j) ==>
          Held(actions, after, j) && RowsUsed(before.steps, after.steps, actions[j].id) == 0)
    && (forall j: nat :: j < |actions| && !Held(actions, before, j) && Held(actions, after, j) ==>
      Executed(before, after, j))
  }

  /** And every action whose executor was called now holds its result: nothing is half done. */
  ghost predicate NothingOpen(actions: seq<Action>, before: Trace, after: Trace) {
    forall j: nat :: Executed(before, after, j) ==> j < |actions| && Held(actions, after, j)
  }

  lemma EffectOfStep(actions: seq<Action>, i: nat, before: Trace, after: Trace, crashed: bool)
    requires DistinctIds(actions) && i == before.logged < |actions| && ActionStep(actions[i].id) !in before.log
    requires OnlyCalls(before.called, after.called, i) && OnlyRowsOf(before.steps, after.steps, actions[i].id)
    requires
      if crashed then after.log == before.log && after.logged == i
      else
        && |before.called| < |after.called| && after.log.Keys == before.log.Keys + {ActionStep(actions[i].id)}
        && i <= after.logged <= i + 1
    ensures StepEffect(actions, i, before, after, crashed)
  {
    hide OnlyCalls, OnlyRowsOf;
    forall j: nat | j < |actions| && j != i ensures Held(actions, after, j) <==> Held(actions, before, j) {
      assert actions[j].id != actions[i].id;
    }
  }

  lemma HeldIsKept(actions: seq<Action>, i: nat, t: Trace)
    requires i < |actions| && Held(actions, t, i)
    ensures forall crashed :: StepEffect(actions, i, t, t, crashed)
  {
  }

  /** An entry of the log that is not the result of an action. */
  lemma SleepIsNoEffect(actions: seq<Action>, i: nat, before: Trace, after: Trace, crashed: bool)
    requires i < |actions| && before.called == after.called && before.steps == after.steps
      && before.logged == after.logged
    requires forall id :: ActionStep(id) in after.log <==> ActionStep(id) in before.log
    ensures forall j: nat :: j < |actions| ==> (Held(actions, after, j) <==> Held(actions, before, j))
    ensures crashed ==> StepEffect(actions, i, before, after, true)
    ensures forall later, c :: StepEffect(actions, i, after, later, c) ==> StepEffect(actions, i, before, later, c)
  {
  }

  lemma NoEffectYet(actions: seq<Action>, t: Trace)
    ensures PassEffect(actions, t, t) && NothingOpen(actions, t, t)
  {
  }

  lemma PassAndStep(actions: seq<Action>, i: nat, before: Trace, now: Trace, after: Trace, crashed: bool)
    requires DistinctIds(actions) && i < |actions|
    requires PassEffect(actions, before, now) && NothingOpen(actions, before, now)
    requires StepEffect(actions, i, now, after, crashed)
    ensures PassEffect(actions, before, after)
    ensures !crashed ==> NothingOpen(actions, before, after)
  {
    hide Executed;
    forall j: nat ensures Executed(before, after, j) <==> Executed(before, now, j) || Executed(now, after, j) {
      CallsCompose(before, now, after, j);
    }
    StepCalls(actions, i, now, after, crashed);
    forall j: nat | j < |actions| && Held(actions, before, j)
      ensures RowsUsed(before.steps, after.steps, actions[j].id) == 0
    {
      assert Held(actions, now, j) && RowsUsed(before.steps, now.steps, actions[j].id) == 0;
      assert j != i ==> actions[j].id != actions[i].id;
    }
  }

  lemma StepCalls(actions: seq<Action>, i: nat, before: Trace, after: Trace, crashed: bool)
    requires i < |actions| && StepEffect(actions, i, before, after, crashed)
    ensures before.called <= after.called
    ensures forall j: nat :: Executed(before, after, j) ==> j == i && !Held(actions, before, i)
    ensures !Held(actions, before, i) && Held(actions, after, i) ==> Executed(before, after, i)
  {
    if !Held(actions, before, i) && Held(actions, after, i) { assert after.called[|before.called|] == i; }
  }

  lemma CallsCompose(before: Trace, now: Trace, after: Trace, j: nat)
    requires before.called <= now.called <= after.called
    ensures Executed(before, after, j) <==> Executed(before, now, j) || Executed(now, after, j)
  {
    if k :| |before.called| <= k < |now.called| && now.called[k] == j {
      assert after.called[k] == j;
    }
    if k :| |before.called| <= k < |after.called| && after.called[k] == j {
      assert k < |now.called| ==> now.called[k] == j;
    }
  }

  /** Passes compose: what one holds, no later one executes again. */
  lemma PassAndPass(actions: seq<Action>, before: Trace, now: Trace, after: Trace)
    requires PassEffect(actions, before, now) && PassEffect(actions, now, after)
    ensures PassEffect(actions, before, after)
  {
    forall j: nat ensures Executed(before, after, j) <==> Executed(before, now, j) || Executed(now, after, j) {
      CallsCompose(before, now, after, j);
    }
  }

  /** Writing entries that are not results of actions. */
  lemma NotAnAction(actions: seq<Action>, before: Trace, now: Trace, after: Trace)
    requires now.called == after.called && now.steps == after.steps && now.logged == after.logged
    requires forall id :: ActionStep(id) in after.log <==> ActionStep(id) in now.log
    ensures PassEffect(actions, before, now) ==> PassEffect(actions, before, after)
    ensures NothingOpen(actions, before, now) ==> NothingOpen(actions, before, after)
  {
    assert forall j: nat :: j < |actions| ==> (Held(actions, after, j) <==> Held(actions, now, j));
    assert forall j: nat :: Executed(before, after, j) <==> Executed(before, now, j);
  }

  lemma LoadIsNoEffect(actions: seq<Action>, before: Trace, after: Trace)
    requires before.called == after.called && before.steps == after.steps && before.logged == after.logged
    requires forall id :: ActionStep(id) in after.log <==> ActionStep(id) in before.log
    ensures PassEffect(actions, before, after) && NothingOpen(actions, before, after)
  {
    NoEffectYet(actions, before);
    NotAnAction(actions, before, before, after);
  }

  /**
   Of the actions committed before a pass, it executed exactly the one whose result was not logged,
   if there was one.
   */
  ghost predicate RunAgainIffUnlogged(actions: seq<Action>, before: Trace, after: Trace, committed: nat) {
    forall j: nat :: j < committed && j < |actions| ==>
      (Executed(before, after, j) <==> j == before.logged && ActionStep(actions[j].id) !in before.log)
  }

  /** The plan's entry is not the result of an action. */
  lemma AfterLoad(actions: seq<Action>, entered: Trace, planned: Trace, walked: Trace)
    requires entered.called == planned.called && entered.steps == planned.steps && entered.logged == planned.logged
    requires forall id :: ActionStep(id) in planned.log <==> ActionStep(id) in entered.log
    requires PassEffect(actions, planned, walked)
    ensures PassEffect(actions, entered, walked)
    ensures NothingOpen(actions, planned, walked) ==> NothingOpen(actions, entered, walked)
  {
    assert forall j: nat :: j < |actions| ==> (Held(actions, planned, j) <==> Held(actions, entered, j));
    assert forall j: nat :: Executed(entered, walked, j) <==> Executed(planned, walked, j);
  }

  lemma NoRowsForHeld(actions: seq<Action>, before: Trace, after: Trace)
    requires PassEffect(actions, before, after)
    ensures forall j: nat :: j < before.logged && j < |actions| ==>
      RowsUsed(before.steps, after.steps, actions[j].id) == 0
  {
    assert forall j: nat :: j < before.logged && j < |actions| ==> Held(actions, before, j);
  }

  lemma RedoneExactly(actions: seq<Action>, before: Trace, after: Trace, committed: nat)
    requires committed <= |actions| && before.logged <= committed <= before.logged + 1
    requires PassEffect(actions, before, after)
    requires
      || committed <= after.logged
      || (after.logged < |actions| && before.logged <= after.logged && Held(actions, after, after.logged))
    ensures RunAgainIffUnlogged(actions, before, after, committed)
  {
    hide Executed;
    if before.logged < committed {
      assert before.logged < after.logged || before.logged == after.logged;
      assert Held(actions, after, before.logged);
    }
  }

  class RunWorkflow {
    const world: World
    const actions: seq<Action>
    var execution: Execution
    var steps: seq<StepRow>
    var log: map<StepName, Saved>
    var clock: nat
    var crashes: nat
    ghost var committed: seq<Enrichment> // last committed enrichment of each succeeded action
    ghost var start: nat                 // how many actions had succeeded when this instance loaded
    ghost var logged: nat                // how many actions' results the log (or the plan) holds
    ghost var redone: nat                // commits that replaced an earlier one of the same action
    ghost var spent: nat                 // crashes so far
    ghost var called: seq<nat>           // the actions handed to their executors, in order
    ghost var exposed: bool              // the process may have died since the last durable write

    ghost function Now(): Trace
      reads `log, `logged, `steps, `called
    {
      Trace(log, logged, steps, called)
    }

    ghost function Start(): Json
      reads `execution
    {
      Base(execution.input)
    }

    /** Rows and log agree; what is between a commit and its log entry. */
    ghost predicate Consistent()
      reads this
    {
      && DistinctIds(actions) && start <= logged <= |committed| <= |actions|
      && RowsValid(world, actions, execution, steps, committed, redone)
      && LogAgrees(actions, Start(), execution.status, log, committed, start, logged)
      && LogFits(world, actions, execution, log, logged)
      && NoneBeyond(actions, steps, logged)
    }

    /** The invariant between any two durable writes. */
    ghost predicate Valid()
      reads this
    {
      Consistent() && redone + (|committed| - logged) <= spent
    }

    /** At most one commit is not logged. */
    lemma LagIsOne()
      requires Valid()
      ensures logged <= |committed| <= logged + 1 && |committed| <= |actions|
      ensures log == map[] ==> logged == |committed|
    {
    }

    ghost predicate Planned()
      reads this
    {
      PlanLogged(actions, Start(), log, committed, start)
    }

    ghost predicate IsDue(i: nat, payload: Json)
      reads this
    {
      Due(actions, Start(), execution.status, log, committed, start, logged, i, payload)
    }

    constructor (world: World, actions: seq<Action>, input: Json, crashes: nat)
      requires DistinctIds(actions)
      ensures Valid()
      ensures this.world == world && this.actions == actions && this.crashes == crashes && spent == 0 && redone == 0
      ensures committed == [] && start == logged == 0 && called == [] && exposed
      ensures execution == Execution(Pending, input, Null, None) && steps == [] && log == map[]
    {
      this.world, this.actions, this.crashes := world, actions, crashes;
      execution := Execution(Pending, input, Null, None);
      steps, log, clock, exposed := [], map[], 0, true;
      committed, start, logged, redone, spent, called := [], 0, 0, 0, 0, [];
    }

    /** The platform stops the instance here, or does not. */
    method CrashPoint() returns (crashed: bool)
      modifies `crashes, `spent, `exposed
      ensures crashed ==> old(crashes) > 0 && crashes == old(crashes) - 1 && spent == old(spent) + 1
      ensures !crashed ==> crashes == old(crashes) && spent == old(spent)
      ensures exposed
    {
      crashed, exposed := false, true;
      if crashes > 0 {
        if * { crashes, spent, crashed := crashes - 1, spent + 1, true; }
      }
    }

    /** A durable write, to the database or the log: between two of them there is a point where the process may die. */
    ghost method Written()
      requires exposed
      modifies `exposed
      ensures !exposed
    {
      exposed := false;
    }

    /** A crash right after a commit. */
    method Die()
      requires Consistent() && Planned() && redone + (|committed| - logged) <= spent + 1
      modifies `spent, `exposed
      ensures Valid() && Planned() && spent == old(spent) + 1 && exposed
    {
      spent, exposed := spent + 1, true;
    }

    /* ---------------------------------------------------------- step bodies */

    method Load() returns (r: Reply<Option<Plan>>)
      requires Valid() && log == map[] && exposed
      modifies `execution, `crashes, `spent, `exposed
      ensures Valid() && execution.input == old(execution.input)
      ensures r.Crashed? ==> crashes < old(crashes)
      ensures !r.Crashed? ==> r.Returned? && crashes == old(crashes) && spent == old(spent)
      ensures r.Returned? && r.value.None? ==> execution == old(execution) && execution.status == Cancelled
      ensures r.Returned? && r.value.Some? ==>
        && old(execution.status) != Cancelled && execution.status == Running && execution.error.None?
        && r.value.value == Plan(actions, PrefixIds(actions, |committed|), Fold(Start(), committed))
    {
      if execution.status == Cancelled { return Returned(None); }
      var loaded := execution;
      var succeeded := SucceededIds(steps);
      FitsWhenEmpty(world, actions, execution.(status := Running, error := None), logged);
      execution := execution.(status := Running, error := None);
      Written();
      var crashed := CrashPoint();
      if crashed { return Crashed; }
      ResumesExactly(actions, loaded, steps, committed);
      return Returned(Some(Plan(actions, succeeded, ResumePayload(loaded, succeeded != {}))));
    }

    /** startStep: one INSERT. */
    method StartStep(i: nat, payload: Json) returns (stepId: nat)
      requires Valid() && IsDue(i, payload) && exposed
      modifies `steps, `exposed
      ensures Valid()
      ensures stepId == |old(steps)| && steps == old(steps) + [NewRow(actions[i], payload)]
    {
      StartedRows(world, actions, execution, steps, committed, redone, i, payload);
      stepId := |steps|;
      steps := steps + [NewRow(actions[i], payload)];
      Written();
    }

    /** finishStep with status FAILED: one UPDATE. */
    method FinishFailed(i: nat, payload: Json, ghost before: seq<StepRow>, stepId: nat, error: string)
      requires Valid() && IsDue(i, payload) && exposed
      requires stepId == |before| && steps == before + [NewRow(actions[i], payload)]
      modifies `steps, `exposed
      ensures Valid()
      ensures steps == before + [StepRow(actions[i].id, Failed, payload, Some(error))]
    {
      hide RowsValid, LogAgrees, LogFits, NoneBeyond, PlanLogged, Fold;
      FailedRows(world, actions, execution, before, committed, redone, actions[i], payload, error);
      NoneBeyondUpdate(actions, before, NewRow(actions[i], payload),
        StepRow(actions[i].id, Failed, payload, Some(error)), i);
      steps := steps[stepId := steps[stepId].(status := Failed, error := Some(error))];
      assert steps == before + [StepRow(actions[i].id, Failed, payload, Some(error))];
      Written();
    }

    /** The batch that marks the step SUCCEEDED and checkpoints `output`. */
    method Commit(i: nat, payload: Json, ghost before: seq<StepRow>, stepId: nat, enriched: Enrichment)
      returns (next: Json)
      requires Valid() && IsDue(i, payload) && exposed
      requires stepId == |before| && steps == before + [NewRow(actions[i], payload)]
      requires Produced(world, actions[i], payload, enriched)
      modifies `steps, `execution, `committed, `redone, `exposed
      ensures Consistent() && Planned()
      ensures execution == old(execution).(output := next)
      ensures steps == before + [StepRow(actions[i].id, Succeeded, payload, None)]
      ensures |committed| == i + 1 && next == Fold(Start(), committed) && next == Extend(payload, enriched)
      ensures redone == old(redone) + |old(committed)| - i && committed[..i] == old(committed)[..i]
    {
      hide RowsValid, LogAgrees, LogFits, NoneBeyond, Produced, PlanLogged;
      NoneBeyondUpdate(actions, before, NewRow(actions[i], payload), StepRow(actions[i].id, Succeeded, payload, None),
        i);
      next := Extend(payload, enriched);
      CommittedRows(world, actions, execution, before, committed, redone, i, payload, enriched);
      FitsAfterOutput(world, actions, execution, next, log, logged);
      LogAgreesAfterCommit(actions, Start(), execution.status, log, committed, start, logged, enriched);
      steps, execution := steps[stepId := steps[stepId].(status := Succeeded)], execution.(output := next);
      Written();
      assert steps == before + [StepRow(actions[i].id, Succeeded, payload, None)];
      redone := redone + |committed| - i;
      committed := committed[..i] + [enriched];
    }

    /** The executor call of one attempt of action i; it never throws. */
    method CallExecutor(i: nat, payload: Json) returns (result: ActionResult)
      requires i < |actions|
      modifies `clock, `called
      ensures result == RunAction.RunAction(world, actions[i].kind, actions[i].config, payload, old(clock))
      ensures result.Success? ==> Produced(world, actions[i], payload, result.enriched)
      ensures clock == old(clock) + 1 && called == old(called) + [i]
    {
      var action := actions[i];
      result := RunAction.RunAction(world, action.kind, action.config, payload, clock);
      assert result.Success? ==>
        SucceedsWith(RunAction.RunAction(world, action.kind, action.config, payload, clock), result.enriched);
      clock, called := clock + 1, called + [i];
    }

    /** One attempt of one step. */
    method RunStep(i: nat, payload: Json) returns (r: Reply<Json>)
      requires Valid() && IsDue(i, payload) && exposed
      modifies `execution, `steps, `clock, `called, `committed, `redone, `crashes, `spent, `exposed
      ensures Consistent() && Planned()
      ensures execution.status == old(execution.status) && execution.input == old(execution.input)
      ensures r.Crashed? ==> Valid() && crashes < old(crashes)
      ensures !r.Crashed? ==> crashes == old(crashes) && spent == old(spent) && exposed
      ensures |steps| == |old(steps)| + 1 && steps[..|old(steps)|] == old(steps)
      ensures steps[|old(steps)|].actionId == actions[i].id
      ensures i <= |committed| && committed[..i] == old(committed)[..i]
      ensures called == old(called) + [i] || (r.Crashed? && called == old(called))
      ensures
        var result := RunAction.RunAction(world, actions[i].kind, actions[i].config, payload, old(clock));
        && (r.Threw? ==> result == Failure(r.error))
        && (r.Returned? ==> result.Success? && r.value == Extend(payload, result.enriched))
      ensures r.Threw? ==>
        && Valid() && IsDue(i, payload) && redone == old(redone)
        && steps == old(steps) + [StepRow(actions[i].id, Failed, payload, Some(r.error))]
      ensures r.Returned? ==>
        && |committed| == i + 1 && r.value == Fold(Start(), committed)
        && redone == old(redone) + |old(committed)| - i
        && steps == old(steps) + [StepRow(actions[i].id, Succeeded, payload, None)]
    {
      hide RowsValid, LogAgrees, LogFits, NoneBeyond, PlanLogged, Fold, RunAction.RunAction, Produced;
      ghost var before := steps;
      var stepId := StartStep(i, payload);
      var crashed := CrashPoint();
      if crashed { return Crashed; }

      var result := CallExecutor(i, payload);
      if result.Failure? {
        FinishFailed(i, payload, before, stepId, result.error);
        crashed := CrashPoint();
        if crashed { return Crashed; }
        return Threw(result.error);
      }

      var next := Commit(i, payload, before, stepId, result.enriched);
      crashed := CrashPoint();
      if crashed { return Crashed; }
      return Returned(next);
    }

    /* ------------------------------------------------------- durable steps */

    /** step.do('load', ...) */
    method DoLoad() returns (r: Reply<Option<Plan>>)
      requires Valid() && exposed
      modifies `execution, `log, `crashes, `spent, `exposed
      ensures Valid() && execution.input == old(execution.input)
      ensures r.Crashed? ==> crashes < old(crashes)
      ensures !r.Crashed? ==> r.Returned? && crashes == old(crashes) && spent == old(spent)
      ensures r.Returned? && r.value.None? ==> execution == old(execution) && execution.status == Cancelled
      ensures r.Returned? && r.value.Some? && old(log) == map[] ==> old(execution.status) != Cancelled
      ensures r.Returned? && r.value.Some? ==>
        && Planned()
        && r.value.value == Plan(actions, PrefixIds(actions, start), Fold(Start(), committed[..start]))
      ensures r.Returned? && old(log) == map[] ==> log.Keys == {LoadStep} && logged == start
      ensures forall name: StepName :: name != LoadStep ==> (name in log <==> name in old(log))
      ensures LoadStep in old(log) ==> log == old(log)
    {
      hide RowsValid, LogAgrees, LogFits, NoneBeyond, PlanLogged, PrefixIds, Fold;
      LoadedPlan(actions, Start(), execution.status, log, committed, start, logged);
      if LoadStep in log { return Returned(log[LoadStep].plan); }
      r := Load();
      if r.Returned? {
        var crashed := CrashPoint();
        if crashed { return Crashed; }
        LogAgreesAfterLoad(actions, Start(), execution.status, committed, start, r.value);
        assert committed[..start] == committed;
        CancelledHasNoError(world, actions, execution, log, logged);
        FitsWhenEmpty(world, actions, execution, logged);
        log := map[LoadStep := PlanSaved(r.value)];
        Written();
      }
    }

    /** step.sleep: nothing but its log entry is durable. */
    method DoSleep(ghost i: nat, action: Action) returns (crashed: bool)
      requires Valid() && Planned() && i < |actions| && action == actions[i] && NeedsWait(world, action)
      modifies `log, `crashes, `spent, `exposed
      ensures Valid() && Planned()
      ensures crashed ==> crashes < old(crashes)
      ensures !crashed ==> crashes == old(crashes) && spent == old(spent)
      ensures forall name: StepName :: name != WaitStep(action.id) ==> (name in log <==> name in old(log))
      ensures !crashed ==> WaitStep(action.id) in log
    {
      hide RowsValid, LogAgrees, LogFits, NoneBeyond, PlanLogged;
      LogAgreesAfterSleep(actions, Start(), execution.status, log, committed, start, logged, action.id);
      crashed := false;
      if WaitStep(action.id) !in log {
        crashed := CrashPoint();
        FitsAfterSleep(world, actions, execution, log, logged, i);
        if !crashed {
          log := log[WaitStep(action.id) := Done];
          Written();
        }
      }
    }

    /** The sleep before action i, if it has one. */
    method Wait(ghost i: nat, action: Action) returns (crashed: bool)
      requires Valid() && Planned() && i < |actions| && action == actions[i]
      modifies `log, `crashes, `spent, `exposed
      ensures Valid() && Planned()
      ensures crashed ==> crashes < old(crashes)
      ensures !crashed ==> crashes == old(crashes) && spent == old(spent) && exposed
      ensures forall name: StepName :: !name.WaitStep? ==> (name in log <==> name in old(log))
      ensures !crashed && NeedsWait(world, action) ==> WaitStep(action.id) in log
    {
      hide RowsValid, LogAgrees, LogFits, NoneBeyond, PlanLogged;
      crashed := CrashPoint();
      if crashed || !NeedsWait(world, action) { return; }
      crashed := DoSleep(i, action);
      if crashed { return; }
      crashed := CrashPoint();
    }

    /** Up to three attempts of step i; `failed` of them fail. */
    method Attempts(i: nat, payload: Json) returns (r: Reply<Json>, ghost failed: nat)
      requires Valid() && IsDue(i, payload) && exposed
      modifies `execution, `steps, `clock, `called, `committed, `redone, `crashes, `spent, `exposed
      ensures Consistent() && Planned()
      ensures execution.status == old(execution.status) && execution.input == old(execution.input)
      ensures r.Crashed? ==> Valid() && crashes < old(crashes)
      ensures !r.Crashed? ==> crashes == old(crashes) && |old(called)| < |called| && exposed
      ensures OnlyCalls(old(called), called, i) && OnlyRowsOf(old(steps), steps, actions[i].id)
      ensures r.Threw? ==>
        && Valid() && IsDue(i, payload)
        && failed == STEP_ATTEMPTS && Attempted(old(steps), steps, actions[i].id, failed, failed)
        && steps != [] && steps[|steps| - 1] == StepRow(actions[i].id, Failed, payload, Some(r.error))
      ensures r.Returned? ==>
        && |committed| == i + 1 && r.value == Fold(Start(), committed) && redone <= spent
        && failed < STEP_ATTEMPTS && Attempted(old(steps), steps, actions[i].id, failed + 1, failed)
    {
      hide RowsValid, LogAgrees, LogFits, NoneBeyond, PlanLogged, Attempted, OnlyRowsOf, Fold;
      hide RunAction.RunAction, DistinctIds;
      ghost var before, id := steps, actions[i].id;
      AttemptedNone(before, id);
      assert OnlyRowsOf(before, steps, id) by { NoRows(steps, id); }
      var attempt := 0;
      failed := 0;
      while true
        invariant failed == attempt < STEP_ATTEMPTS && Valid() && IsDue(i, payload)
        invariant crashes == old(crashes) && exposed
        invariant execution.status == old(execution.status) && execution.input == old(execution.input)
        invariant Attempted(before, steps, id, attempt, attempt)
        invariant OnlyCalls(old(called), called, i) && OnlyRowsOf(before, steps, id)
          && |called| == |old(called)| + attempt
        decreases STEP_ATTEMPTS - attempt
      {
        ghost var prior := steps;
        r := RunStep(i, payload);
        assert steps == prior + [steps[|prior|]];
        CountOthers(before, prior, steps[|prior|], id);
        if r.Crashed? { return; }
        AttemptedOnce(before, prior, steps[|prior|], attempt, attempt);
        if r.Returned? { return; }
        attempt, failed := attempt + 1, failed + 1;
        if attempt == STEP_ATTEMPTS { return; }
        var crashed := CrashPoint();
        if crashed { r := Crashed; return; }
      }
    }

    /** The platform saves what the attempts of step i came to. */
    method Save(i: nat, r: Reply<Json>) returns (crashed: bool)
      requires Consistent() && Planned() && i == logged < |actions| && ActionStep(actions[i].id) !in log
      requires r.Returned? ==> |committed| == i + 1 && r.value == Fold(Start(), committed) && redone <= spent
      requires r.Threw? ==> Valid()
      requires !r.Crashed? && (NeedsWait(world, actions[i]) ==> WaitStep(actions[i].id) in log)
      modifies `log, `logged, `crashes, `spent, `exposed
      ensures Valid() && Planned()
      ensures if crashed then crashes < old(crashes) else crashes == old(crashes)
      ensures crashed ==> log == old(log) && logged == old(logged)
      ensures !crashed ==>
        && log == old(log)[ActionStep(actions[i].id) :=
             if r.Returned? then PayloadSaved(r.value) else Rejected(r.error)]
        && logged == if r.Returned? then i + 1 else i
      ensures old(logged) <= logged && (!crashed ==> spent == old(spent))
    {
      hide RowsValid, LogAgrees, LogFits, PlanLogged, NoneBeyond;
      crashed := CrashPoint();
      if crashed { return; }
      var name := ActionStep(actions[i].id);
      if r.Returned? {
        LogAgreesAfterLogging(actions, Start(), execution.status, log, committed, start, logged);
        FitsAfterSave(world, actions, execution, log, logged, PayloadSaved(r.value), logged + 1);
        NoneBeyondNext(actions, steps, logged);
        log, logged := log[name := PayloadSaved(r.value)], logged + 1;
        Written();
      } else {
        LogAgreesAfterRejecting(actions, Start(), execution.status, log, committed, start, logged, r.error);
        FitsAfterSave(world, actions, execution, log, logged, Rejected(r.error), logged);
        log := log[name := Rejected(r.error)];
        Written();
      }
    }

    /** step.do of action i: its saved result, or up to three attempts. */
    method DoStep(i: nat, payload: Json) returns (r: Reply<Json>, ghost failed: nat)
      requires Valid() && Planned() && start <= i <= logged && i < |actions|
      requires payload == Fold(Start(), committed[..i]) && exposed
      requires NeedsWait(world, actions[i]) ==> WaitStep(actions[i].id) in log
      modifies `execution, `steps, `log, `clock, `called, `committed, `logged, `redone, `crashes, `spent, `exposed
      ensures Valid() && Planned() && execution.input == old(execution.input)
      ensures ActionStep(actions[i].id) in old(log) ==>
        steps == old(steps) && called == old(called) && clock == old(clock) && committed == old(committed)
          && redone == old(redone)
      ensures !r.Crashed? ==> (called == old(called) <==> ActionStep(actions[i].id) in old(log))
      ensures StepEffect(actions, i, old(Now()), Now(), r.Crashed?) && old(logged) <= logged
      ensures r.Crashed? ==> crashes < old(crashes)
      ensures !r.Crashed? ==> crashes == old(crashes)
      ensures r.Returned? ==> i < logged && r.value == Fold(Start(), committed[..i + 1])
      ensures r.Threw? ==>
        && i == logged && GivenUp(actions, log, i, Some(r.error)) && execution.status != Succeeded
        && (ActionStep(actions[i].id) !in old(log) ==>
              steps != [] && steps[|steps| - 1] == StepRow(actions[i].id, Failed, payload, Some(r.error)))
      ensures forall name: StepName :: name != ActionStep(actions[i].id) ==> (name in log <==> name in old(log))
      ensures !r.Crashed? && ActionStep(actions[i].id) !in old(log) ==>
        && Attempted(old(steps), steps, actions[i].id, if r.Returned? then failed + 1 else failed, failed)
        && (if r.Returned? then failed < STEP_ATTEMPTS else failed == STEP_ATTEMPTS)
    {
      hide RowsValid, LogAgrees, LogFits, PlanLogged, NoneBeyond, Attempted, StepEffect, OnlyCalls, OnlyRowsOf;
      ghost var before := Now();
      var name := ActionStep(actions[i].id);
      failed := 0;
      if name in log {
        ReadingTheLog(actions, Start(), execution.status, log, committed, start, logged, i);
        r := if log[name].PayloadSaved? then Returned(log[name].payload) else Threw(log[name].error);
        HeldIsKept(actions, i, before);
        return;
      }
      NotLoggedIsDue(actions, Start(), execution.status, log, committed, start, logged, i);
      r, failed := Attempts(i, payload);
      if r.Crashed? { EffectOfStep(actions, i, before, Now(), true); return; }
      var crashed := Save(i, r);
      EffectOfStep(actions, i, before, Now(), crashed);
      if crashed { r := Crashed; return; }
      assert r.Returned? ==> committed[..i + 1] == committed;
    }

    /** step.do('fail', ...) */
    method DoFail(error: string) returns (crashed: bool)
      requires Valid() && Planned() && execution.status != Succeeded
      requires GivenUp(actions, log, logged, Some(error))
      modifies `execution, `log, `crashes, `spent, `exposed
      ensures Valid() && execution.input == old(execution.input)
      ensures crashed ==> crashes < old(crashes)
      ensures !crashed ==> execution.status == Failed && execution.error == Some(error) && crashes == old(crashes)
      ensures GivenUp(actions, log, logged, Some(error))
      ensures forall id :: ActionStep(id) in log <==> ActionStep(id) in old(log)
    {
      hide RowsValid, LogAgrees, LogFits, NoneBeyond, PlanLogged, Fold, DistinctIds;
      EndOfLog(actions, Start(), execution, log, committed, start, logged);
      FailIsLogged(world, actions, execution, log, logged);
      crashed := false;
      if FailStep in log { return; }
      crashed := CrashPoint();
      if crashed { return; }
      FitsAfterFail(world, actions, execution, log, logged, error);
      RowsValidAfterStatus(world, actions, execution, execution.(status := Failed, error := Some(error)), steps,
        committed, redone);
      LogAgreesAfterFail(actions, Start(), execution.status, log, committed, start, logged);
      execution := execution.(status := Failed, error := Some(error));
      Written();
      crashed := CrashPoint();
      if !crashed {
        log := log[FailStep := Done];
        Written();
      }
    }

    /** step.do('finish', ...) */
    method DoFinish(payload: Json) returns (crashed: bool)
      requires Valid() && Planned() && logged == |actions| && payload == Fold(Start(), committed)
      modifies `execution, `log, `crashes, `spent, `exposed
      ensures Valid() && execution.input == old(execution.input)
      ensures crashed ==> crashes < old(crashes)
      ensures !crashed ==>
        && crashes == old(crashes) && execution.status == Succeeded && execution.output == payload
        && execution.error.None?
      ensures forall id :: ActionStep(id) in log <==> ActionStep(id) in old(log)
    {
      hide RowsValid, LogAgrees, LogFits, NoneBeyond, PlanLogged, Fold, DistinctIds;
      EndOfLog(actions, Start(), execution, log, committed, start, logged);
      FinishedOutput(world, actions, execution, steps, committed, redone);
      PlanIsLogged(actions, Start(), log, committed, start);
      FitsAfterFinish(world, actions, execution, log, logged, payload);
      crashed := false;
      if FinishStep in log { return; }
      crashed := CrashPoint();
      if crashed { return; }
      RowsValidAfterStatus(world, actions, execution, execution.(status := Succeeded, output := payload), steps,
        committed, redone);
      LogAgreesAfterFinish(actions, Start(), execution.status, log, committed, start);
      execution := execution.(status := Succeeded, output := payload);
      Written();
      crashed := CrashPoint();
      if !crashed {
        log := log[FinishStep := Done];
        Written();
      }
    }

    /* ------------------------------------------------------------------ run */

    /** Where the loop of `run` stands before action i, with this local payload. */
    ghost predicate AtAction(i: nat, payload: Json)
      reads this
    {
      && Valid() && Planned() && i <= |actions| && (i <= start || i <= logged)
      && payload == Fold(Start(), committed[..if i < start then start else i])
    }

    /** The rows written since `before`, if the log was empty then. */
    ghost predicate Budgeted(before: seq<StepRow>, i: nat)
      reads this
    {
      && WithinBudget(actions, before, steps, i)
      && forall j :: i <= j < |actions| ==> ActionStep(actions[j].id) !in log
    }

    /** The loop body of `run`: skip, or wait and step. */
    method Visit(i: nat, plan: Plan, payload: Json, ghost before: seq<StepRow>, ghost unlogged: bool)
      returns (r: Reply<Json>)
      requires AtAction(i, payload) && i < |actions|
      requires plan.actions == actions && plan.succeeded == PrefixIds(actions, start)
      requires unlogged ==> Budgeted(before, i)
      modifies `execution, `steps, `log, `clock, `called, `committed, `logged, `redone, `crashes, `spent, `exposed
      ensures Valid() && execution.input == old(execution.input)
      ensures if r.Crashed? then crashes < old(crashes) else crashes == old(crashes)
      ensures StepEffect(actions, i, old(Now()), Now(), r.Crashed?) && old(logged) <= logged
      ensures r.Returned? ==> AtAction(i + 1, r.value) && (unlogged ==> Budgeted(before, i + 1))
      ensures r.Threw? ==>
        && Planned() && execution.status != Succeeded && i == logged && GivenUp(actions, log, i, Some(r.error))
        && (unlogged ==> Exhausted(actions, before, steps, i))
    {
      hide RowsValid, LogAgrees, LogFits, NoneBeyond, PlanLogged, Attempted, WithinBudget, RowsUsed, FailuresUsed;
      hide StepEffect, Fold, PrefixIds;
      ghost var entered := Now();
      var action := plan.actions[i];
      InPrefix(actions, start, i);
      if unlogged { NothingUsed(actions, before, steps, i); }
      if action.id in plan.succeeded {
        HeldIsKept(actions, i, entered);
        return Returned(payload);
      }
      var crashed := Wait(i, action);
      SleepIsNoEffect(actions, i, entered, Now(), crashed);
      if crashed { return Crashed; }
      ghost var prior, failed := steps, 0;
      r, failed := DoStep(i, payload);
      if unlogged && !r.Crashed? {
        BudgetOfStep(actions, before, prior, steps, i, if r.Returned? then failed + 1 else failed, failed);
      }
    }

    /** The loop of `run`, over the loaded plan. */
    method Walk(plan: Plan, ghost before: seq<StepRow>, ghost unlogged: bool) returns (r: Reply<Json>, at: nat)
      requires AtAction(0, plan.payload) && plan.actions == actions && plan.succeeded == PrefixIds(actions, start)
      requires unlogged ==> Budgeted(before, 0)
      modifies `execution, `steps, `log, `clock, `called, `committed, `logged, `redone, `crashes, `spent, `exposed
      ensures Valid() && execution.input == old(execution.input)
      ensures if r.Crashed? then crashes < old(crashes) else crashes == old(crashes)
      ensures PassEffect(actions, old(Now()), Now()) && old(logged) <= logged
      ensures !r.Crashed? ==> NothingOpen(actions, old(Now()), Now())
      ensures r.Returned? ==> AtAction(|actions|, r.value) && (unlogged ==> Budgeted(before, |actions|))
      ensures r.Threw? ==>
        && Planned() && execution.status != Succeeded && at == logged && GivenUp(actions, log, at, Some(r.error))
        && (unlogged ==> Exhausted(actions, before, steps, at))
    {
      hide RowsValid, LogAgrees, LogFits, NoneBeyond, PlanLogged, WithinBudget, RowsUsed, FailuresUsed;
      hide StepEffect, PassEffect, NothingOpen, Executed, Exhausted;
      ghost var first, entered := start, Now();
      var payload := plan.payload;
      at := 0;
      NoEffectYet(actions, entered);
      for i := 0 to |plan.actions|
        invariant AtAction(i, payload) && start == first
        invariant execution.input == old(execution.input) && crashes == old(crashes)
        invariant unlogged ==> Budgeted(before, i)
        invariant PassEffect(actions, entered, Now()) && NothingOpen(actions, entered, Now()) && old(logged) <= logged
      {
        ghost var now := Now();
        r := Visit(i, plan, payload, before, unlogged);
        PassAndStep(actions, i, entered, now, Now(), r.Crashed?);
        if !r.Returned? { return r, i; }
        payload := r.value;
      }
      r := Returned(payload);
    }

    /**
     One pass of `run` over the log. If it finishes, the execution is SUCCEEDED
     and stores the fold over the whole chain; if it is cut short, the rows and
     the log still satisfy Valid(), and calling it again resumes. It executes the
     actions whose result neither plan nor log holds, and no others. A run on an
     empty log writes at most three rows per action, and gives up exactly if some
     action failed three times.
     */
    method Run() returns (end: End)
      requires Valid()
      modifies this
      ensures Valid() && execution.input == old(execution.input)
      ensures if end.Interrupted? then crashes < old(crashes) else crashes == old(crashes)
      ensures end.Finished? ==>
        && execution.status == Succeeded && |committed| == |actions| && execution.output == Fold(Start(), committed)
        && execution.error.None?
      ensures end.GaveUp? ==>
        && execution.status == Failed && GivenUp(actions, log, logged, execution.error)
        && actions[logged].id == end.actionId
      ensures end.NothingToDo? ==> execution == old(execution) && execution.status == Cancelled && steps == old(steps)
      ensures old(log) == map[] && !end.Interrupted? ==> (end.NothingToDo? <==> old(execution.status) == Cancelled)
      ensures PassEffect(actions, old(Now()), Now())
      ensures !end.Interrupted? ==> NothingOpen(actions, old(Now()), Now())
      // what had SUCCEEDED before the pass is executed again if and only if it was committed and not logged
      ensures end.Finished? || end.GaveUp? ==> RunAgainIffUnlogged(actions, old(Now()), Now(), |old(committed)|)
      ensures old(log) == map[] && (end.Finished? || end.GaveUp?) ==>
        && AtMostThreeRows(actions, old(steps), steps, |old(committed)|)
        && (end.GaveUp? <==> SomeFailedThrice(actions, old(steps), steps))
    {
      hide RowsValid, LogAgrees, LogFits, NoneBeyond, PlanLogged, WithinBudget, RowsUsed, FailuresUsed;
      hide StepEffect, PassEffect, NothingOpen, Executed;
      hide Exhausted, AtMostThreeRows, SomeFailedThrice, RunAgainIffUnlogged, Fold, PrefixIds,
        DistinctIds;
      ghost var before, unlogged, entered, done := steps, log == map[], Now(), |committed|;
      exposed := true; // there is nothing yet that a crash could drop
      BudgetOfNothing(actions, before);
      LagIsOne();
      var loaded := DoLoad();
      ghost var planned := Now();
      LoadIsNoEffect(actions, entered, planned);
      if loaded.Crashed? { return Interrupted; }
      if loaded.value.None? { return NothingToDo; }
      var plan := loaded.value.value;
      var r, at := Walk(plan, before, unlogged);
      ghost var walked := Now();
      AfterLoad(actions, entered, planned, walked);
      NoRowsForHeld(actions, entered, walked);
      if unlogged { BudgetAtEnd(actions, before, steps, done); }
      if r.Crashed? { return Interrupted; }
      end := EndPass(plan.actions, r, at);
      NotAnAction(actions, entered, walked, Now());
      if end.Interrupted? { return; }
      RedoneExactly(actions, entered, Now(), done);
    }

    /** The last durable step of a pass: `fail` or `finish`. */
    method EndPass(planned: seq<Action>, r: Reply<Json>, at: nat) returns (end: End)
      requires !r.Crashed? && planned == actions
      requires r.Returned? ==> AtAction(|actions|, r.value)
      requires r.Threw? ==>
        && Valid() && Planned() && execution.status != Succeeded && at == logged
        && GivenUp(actions, log, at, Some(r.error))
      modifies `execution, `log, `crashes, `spent, `exposed
      ensures Valid() && execution.input == old(execution.input)
      ensures if end.Interrupted? then crashes < old(crashes) else crashes == old(crashes)
      ensures end.Interrupted? || (if r.Returned? then end.Finished? else end.GaveUp?)
      ensures end.Finished? ==>
        && execution.status == Succeeded && logged == |committed| == |actions|
        && execution.output == Fold(Start(), committed) && execution.error.None?
      ensures end.GaveUp? ==>
        && execution.status == Failed && GivenUp(actions, log, logged, execution.error)
        && actions[logged].id == end.actionId
      ensures forall id :: ActionStep(id) in log <==> ActionStep(id) in old(log)
    {
      hide RowsValid, LogAgrees, LogFits, NoneBeyond, PlanLogged, Fold, PrefixIds;
      var crashed;
      if r.Threw? {
        crashed := DoFail(r.error);
        return if crashed then Interrupted else GaveUp(planned[at].id);
      }
      LagIsOne();
      assert committed[..|actions|] == committed;
      crashed := DoFinish(r.value);
      return if crashed then Interrupted else Finished;
    }

    /** Admin retry: a new instance, with an empty log, for the same execution. */
    method AdminRetry()
      requires Valid()
      modifies `execution, `log, `start, `logged
      ensures Valid() && log == map[] && start == logged == |committed|
      ensures execution == old(execution).(status := Pending, error := None)
    {
      RowsValidAfterStatus(world, actions, execution, execution.(status := Pending, error := None), steps, committed,
        redone);
      FitsWhenEmpty(world, actions, execution.(status := Pending, error := None), |committed|);
      execution := execution.(status := Pending, error := None);
      log, start, logged := map[], |committed|, |committed|;
    }

    /** The platform: run, and run again after every crash. With finitely many crashes it ends. */
    method Drive() returns (end: End)
      requires Valid()
      modifies this
      ensures Valid() && execution.input == old(execution.input) && !end.Interrupted?
      ensures end.Finished? ==>
        && execution.status == Succeeded && |committed| == |actions| && execution.output == Fold(Start(), committed)
        && execution.error.None?
      ensures end.GaveUp? ==>
        && execution.status == Failed && GivenUp(actions, log, logged, execution.error)
        && actions[logged].id == end.actionId
      ensures end.NothingToDo? ==> execution.status == Cancelled
      ensures PassEffect(actions, old(Now()), Now())
    {
      hide PassEffect, NothingOpen, Executed, RowsValid, LogAgrees, NoneBeyond;
      ghost var entered := Now();
      end := Run();
      while end.Interrupted?
        invariant Valid() && execution.input == old(execution.input)
        invariant PassEffect(actions, entered, Now())
        invariant end.NothingToDo? ==> execution.status == Cancelled
        invariant end.Finished? ==>
          && execution.status == Succeeded && |committed| == |actions| && execution.output == Fold(Start(), committed)
          && execution.error.None?
        invariant end.GaveUp? ==>
          && execution.status == Failed && GivenUp(actions, log, logged, execution.error)
          && actions[logged].id == end.actionId
        decreases crashes, end.Interrupted?
      {
        ghost var now := Now();
        end := Run();
        PassAndPass(actions, entered, now, Now());
      }
    }

    /** A step that succeeds, up to its commit and not its log entry. */
    method CommitNext(i: nat, payload: Json) returns (r: Reply<Json>)
      requires Valid() && Planned() && logged < |actions| && ActionStep(actions[logged].id) !in log && crashes == 0
      requires exposed
      requires i == logged && payload == Fold(Start(), committed[..i]) && actions[i].kind == "DELAY"
      modifies `execution, `steps, `clock, `called, `committed, `redone, `crashes, `spent, `exposed
      ensures Consistent() && Planned() && crashes == 0 && spent == old(spent)
      ensures r.Returned? && |committed| == logged + 1 && r.value == Fold(Start(), committed)
      ensures redone == old(redone) + |old(committed)| - logged && called == old(called) + [logged]
      ensures |steps| == |old(steps)| + 1 && steps[..|old(steps)|] == old(steps)
      ensures steps[|old(steps)|].actionId == actions[i].id && steps[|old(steps)|].status == Succeeded
      ensures execution.input == old(execution.input) && committed[..i] == old(committed)[..i]
    {
      hide RowsValid, LogFits, NoneBeyond, RunAction.RunAction;
      NotLoggedIsDue(actions, Start(), execution.status, log, committed, start, logged, logged);
      DelaySucceeds(world, actions[logged].config, payload, clock);
      r := RunStep(i, payload);
    }

    /** The platform dies between the commit and its log entry; the replay commits the step once more, and logs it. */
    method CommitTwice(i: nat, payload: Json)
      requires Valid() && Planned() && i == logged == |committed| < |actions| && ActionStep(actions[i].id) !in log
      requires crashes == 0 && payload == Fold(Start(), committed) && actions[i].kind == "DELAY" && exposed
      requires NeedsWait(world, actions[i]) ==> WaitStep(actions[i].id) in log
      modifies this
      ensures Valid() && spent == old(spent) + 1 && redone == old(redone) + 1 && called == old(called) + [i, i]
      ensures |steps| == |old(steps)| + 2 && steps[..|old(steps)|] == old(steps)
      ensures forall k :: |old(steps)| <= k < |steps| ==>
        steps[k].actionId == actions[i].id && steps[k].status == Succeeded
    {
      hide RowsValid, LogAgrees, LogFits, NoneBeyond, PlanLogged;
      assert committed[..i] == committed;
      ghost var before := steps;
      var r := CommitNext(i, payload);
      ghost var first := steps;
      assert first == before + [first[|before|]];
      Die();
      r := CommitNext(i, payload);
      assert steps == before + [first[|before|]] + [steps[|first|]];
      var crashed := Save(i, r);
    }
  }

  /** A DELAY step's result is logged only after its durable sleep, which no other action has. */
  lemma SleepsBeforeStep(w: RunWorkflow, i: nat)
    requires w.Valid() && i < |w.actions|
    ensures
      var Action(id, kind, config) := w.actions[i];
      if kind == "DELAY" && w.world.delaySeconds(config) > 0
      then ActionStep(id) in w.log ==> WaitStep(id) in w.log
      else WaitStep(id) !in w.log
  {
    hide RowsValid, LogAgrees, NoneBeyond;
  }

  /**
   The step that runs twice: committed, not logged because the platform died
   in between, and so executed, and committed, once more.
   */
  method CommittedStepRunsAgain(world: World, config: Json, input: Json) returns (w: RunWorkflow)
    ensures fresh(w) && w.Valid() && w.spent == 1 && w.redone == 1 && w.called == [0, 0]
    ensures |w.steps| == 2 && forall r :: r in w.steps ==> r.actionId == "step" && r.status == Succeeded
  {
    hide RowsValid, LogFits, NoneBeyond, PassEffect, NothingOpen, LogAgrees, Fold;
    w := new RunWorkflow(world, [Action("step", "DELAY", config)], input, 0);
    var loaded := w.DoLoad();
    assert w.committed[..0] == [];
    var crashed := w.Wait(0, w.actions[0]);
    w.CommitTwice(0, loaded.value.value.payload);
  }
}
