/**
 The NestJS engine: `process` runs the chain for a BullMQ job, and a retry calls
 it again from the start; what to skip and what payload to continue with is read
 back from the rows. As in RunWorkflow, `crashes` counts the crashes still to
 come, and one may follow every database write.
 */
module WorkflowProcessor {
  import opened Options
  import opened Json
  import opened RunAction
  import opened Chain
  import opened Attempts

  /** How a call of `process` ends. */
  datatype End = Completed | Threw(error: string) | Crashed

  /** How the job ends. */
  datatype JobEnd = JobCompleted | DeadLettered

  /** The SUCCEEDED rows are the committed prefix of the chain, once each and in order. */
  ghost predicate InOrder(actions: seq<Action>, steps: seq<StepRow>, committed: seq<Enrichment>) {
    |committed| <= |actions| && SucceededOrder(steps) == Ids(actions)[..|committed|]
  }

  lemma InOrderAfterRow(actions: seq<Action>, steps: seq<StepRow>, row: StepRow, committed: seq<Enrichment>)
    requires InOrder(actions, steps, committed)
    ensures row.status != Succeeded ==> InOrder(actions, steps + [row], committed)
    ensures |committed| < |actions| && row.status == Succeeded && row.actionId == actions[|committed|].id ==>
      forall e :: InOrder(actions, steps + [row], committed + [e])
  {
    SucceededOrderSnoc(steps, row);
    if |committed| < |actions| {
      assert Ids(actions)[..|committed| + 1] == Ids(actions)[..|committed|] + [actions[|committed|].id];
    }
  }

  class WorkflowProcessor {
    const world: World
    const actions: seq<Action>
    var execution: Execution
    var steps: seq<StepRow>
    var clock: nat
    var crashes: nat
    ghost var committed: seq<Enrichment>   // the enrichment of each succeeded action
    ghost var attempts: seq<seq<string>>   // the actions each call of process started
    ghost var exposed: bool                // the process may have died since the last database write
    ghost var spans: seq<Span>             // which of them, and how many were done, for each call that is over

    ghost function Start(): Json
      reads `execution
    {
      Base(execution.input)
    }

    /** The invariant between any two database writes. */
    ghost predicate Valid()
      reads this
    {
      && DistinctIds(actions) && |committed| <= |actions|
      && RowsValid(world, actions, execution, steps, committed, 0)
      && InOrder(actions, steps, committed)
      && Flatten(attempts) == RowIds(steps)
    }

    /** The attempts are those of `spans`, and the last of them left what is committed. */
    ghost predicate Recorded()
      reads this
    {
      Records(Ids(actions), attempts, spans, |committed|)
    }

    constructor (world: World, actions: seq<Action>, input: Json, crashes: nat)
      requires DistinctIds(actions)
      ensures Valid()
      ensures this.world == world && this.actions == actions && this.crashes == crashes
      ensures execution == Execution(Pending, input, Null, None) && steps == [] && attempts == [] && committed == []
      ensures Recorded() && spans == []
    {
      this.world, this.actions, this.crashes := world, actions, crashes;
      execution := Execution(Pending, input, Null, None);
      steps, clock, committed, attempts, spans := [], 0, [], [], [];
    }

    /** The process dies here, or does not. */
    method CrashPoint() returns (crashed: bool)
      modifies `crashes, `exposed
      ensures if crashed then crashes < old(crashes) else crashes == old(crashes)
      ensures exposed
    {
      crashed, exposed := false, true;
      if crashes > 0 {
        if * { crashes, crashed := crashes - 1, true; }
      }
    }

    /** Action i is the first that has not succeeded, and payload is what it is due. */
    ghost predicate Due(i: nat, payload: Json)
      reads this
    {
      i == |committed| && i < |actions| && execution.status == Running && payload == Fold(Start(), committed)
    }

    /** The last row is that of action i having failed with this error. */
    ghost predicate FailedNow(i: nat, payload: Json, error: string)
      reads this
      requires i < |actions|
    {
      steps != [] && steps[|steps| - 1] == StepRow(actions[i].id, Failed, payload, Some(error))
    }

    /** actionExecution.create */
    method StartStep(i: nat, payload: Json)
      requires Valid() && Due(i, payload) && attempts != [] && exposed
      modifies `steps, `attempts, `exposed
      ensures Valid() && steps == old(steps) + [NewRow(actions[i], payload)]
      ensures attempts == old(attempts)[..|old(attempts)| - 1] + [old(attempts)[|old(attempts)| - 1] + [actions[i].id]]
    {
      hide RowsValid, InOrder;
      assert committed[..i] == committed;
      StartedRows(world, actions, execution, steps, committed, 0, i, payload);
      InOrderAfterRow(actions, steps, NewRow(actions[i], payload), committed);
      ghost var done, last := attempts[..|attempts| - 1], attempts[|attempts| - 1] + [actions[i].id];
      steps := steps + [NewRow(actions[i], payload)];
      assert attempts == done + [attempts[|attempts| - 1]];
      FlattenSnoc(done, attempts[|attempts| - 1]);
      FlattenSnoc(done, last);
      attempts, exposed := done + [last], false;
      assert Flatten(attempts) == RowIds(steps);
    }

    /** actionExecution.update to FAILED */
    method FailStep(i: nat, payload: Json, ghost before: seq<StepRow>, error: string)
      requires Valid() && Due(i, payload) && InOrder(actions, before, committed) && exposed
      requires steps == before + [NewRow(actions[i], payload)]
      modifies `steps, `exposed
      ensures Valid() && steps == before + [StepRow(actions[i].id, Failed, payload, Some(error))]
    {
      hide RowsValid, InOrder;
      var row := StepRow(actions[i].id, Failed, payload, Some(error));
      FailedRows(world, actions, execution, before, committed, 0, actions[i], payload, error);
      InOrderAfterRow(actions, before, row, committed);
      assert RowIds(before + [row]) == RowIds(steps);
      steps := steps[|steps| - 1 := steps[|steps| - 1].(status := Failed, error := Some(error))];
      exposed := false;
      assert steps == before + [row];
    }

    /** The transaction that marks the step SUCCEEDED and checkpoints `output`. */
    method Commit(i: nat, payload: Json, ghost before: seq<StepRow>, enriched: Enrichment) returns (next: Json)
      requires Valid() && Due(i, payload) && InOrder(actions, before, committed) && exposed
      requires steps == before + [NewRow(actions[i], payload)]
      requires Produced(world, actions[i], payload, enriched)
      modifies `steps, `execution, `committed, `exposed
      ensures Valid() && steps == before + [StepRow(actions[i].id, Succeeded, payload, None)]
      ensures execution == old(execution).(output := next)
      ensures committed == old(committed) + [enriched] && next == Fold(Start(), committed)
    {
      hide RowsValid, InOrder, Produced, NoneBeyond;
      next := Extend(payload, enriched);
      var row := StepRow(actions[i].id, Succeeded, payload, None);
      assert committed[..i] == committed;
      RowsNotBeyond(world, actions, execution, steps, committed, 0);
      NoneBeyondUpdate(actions, before, NewRow(actions[i], payload), row, i);
      CommittedRows(world, actions, execution, before, committed, 0, i, payload, enriched);
      InOrderAfterRow(actions, before, row, committed);
      assert RowIds(before + [row]) == RowIds(steps);
      steps := steps[|steps| - 1 := steps[|steps| - 1].(status := Succeeded)];
      assert steps == before + [row];
      execution := execution.(output := next);
      committed, exposed := committed + [enriched], false;
    }

    method SetExecution(e: Execution)
      requires Valid() && e.input == execution.input && exposed
      requires e.output == execution.output || e.output == Fold(Start(), committed)
      requires e.status == Succeeded ==> |committed| == |actions| && e.output == Fold(Start(), committed)
      modifies `execution, `exposed
      ensures Valid() && execution == e
    {
      RowsValidAfterStatus(world, actions, execution, e, steps, committed, 0);
      execution, exposed := e, false;
    }

    method CallExecutor(action: Action, payload: Json) returns (result: ActionResult)
      modifies `clock
      ensures result == RunAction.RunAction(world, action.kind, action.config, payload, old(clock))
      ensures clock == old(clock) + 1
      ensures result.Success? ==> Produced(world, action, payload, result.enriched)
    {
      result := RunAction.RunAction(world, action.kind, action.config, payload, clock);
      assert result.Success? ==>
        SucceedsWith(RunAction.RunAction(world, action.kind, action.config, payload, clock), result.enriched);
      clock := clock + 1;
    }

    /** The loop body of `process` for an action that has not succeeded. */
    method RunStep(i: nat, payload: Json) returns (r: End, next: Json)
      requires Valid() && Due(i, payload) && attempts != [] && exposed
      modifies `execution, `steps, `committed, `attempts, `clock, `crashes, `exposed
      ensures exposed
      ensures Valid() && execution == old(execution).(output := execution.output)
      ensures if r.Crashed? then crashes < old(crashes) else crashes == old(crashes)
      ensures |steps| == |old(steps)| + 1 && steps[..|old(steps)|] == old(steps)
      ensures steps[|old(steps)|].actionId == actions[i].id && steps[|old(steps)|].input == payload
      ensures attempts == old(attempts)[..|old(attempts)| - 1] + [old(attempts)[|old(attempts)| - 1] + [actions[i].id]]
      ensures committed == old(committed) || |committed| == i + 1
      ensures r.Completed? ==>
        && |committed| == i + 1 && next == Fold(Start(), committed)
        && steps[|old(steps)|] == StepRow(actions[i].id, Succeeded, payload, None)
      ensures r.Threw? ==>
        && committed == old(committed) && FailedNow(i, payload, r.error)
        && RunAction.RunAction(world, actions[i].kind, actions[i].config, payload, old(clock)) == Failure(r.error)
    {
      hide RowsValid, InOrder, Produced, RunAction.RunAction;
      ghost var before := steps;
      next := payload;
      StartStep(i, payload);
      var crashed := CrashPoint();
      if crashed { return Crashed, payload; }
      var result := CallExecutor(actions[i], payload);
      if result.Failure? {
        FailStep(i, payload, before, result.error);
        crashed := CrashPoint();
        return if crashed then Crashed else Threw(result.error), payload;
      }
      next := Commit(i, payload, before, result.enriched);
      crashed := CrashPoint();
      r := if crashed then Crashed else Completed;
    }

    /** The loop of `process` over the actions that have not succeeded; it starts those before `end`. */
    method RunSteps(succeeded: set<string>, start: Json) returns (r: End, payload: Json, ghost end: nat)
      requires Valid() && execution.status == Running && attempts != [] && attempts[|attempts| - 1] == [] && exposed
      requires succeeded == PrefixIds(actions, |committed|) && start == Fold(Start(), committed)
      modifies `execution, `steps, `committed, `attempts, `clock, `crashes, `exposed
      ensures Valid() && execution == old(execution).(output := execution.output) && exposed
      ensures if r.Crashed? then crashes < old(crashes) else crashes == old(crashes)
      ensures r.Completed? ==> |committed| == |actions| && payload == Fold(Start(), committed)
      ensures r.Threw? ==>
        end == |committed| + 1 <= |actions| && FailedNow(|committed|, Fold(Start(), committed), r.error)
      ensures |old(committed)| <= |committed| <= end <= |committed| + 1 && end <= |actions|
      ensures |steps| == |old(steps)| + end - |old(committed)|
      ensures attempts == old(attempts)[..|old(attempts)| - 1] + [Ids(actions)[|old(committed)|..end]]
    {
      hide RowsValid, InOrder, Fold, PrefixIds, DistinctIds, Flatten, RowIds;
      ghost var k, prior := |committed|, attempts[..|attempts| - 1];
      assert Ids(actions)[k..k] == [];
      payload, end := start, k;
      for i := 0 to |actions|
        invariant Valid() && execution == old(execution).(output := execution.output) && exposed
        invariant crashes == old(crashes)
        invariant |committed| == (if i < k then k else i) && payload == Fold(Start(), committed)
        invariant |steps| == |old(steps)| + |committed| - k
        invariant attempts == prior + [Ids(actions)[k..|committed|]]
      {
        var action := actions[i];
        InPrefix(actions, k, i);
        if action.id in succeeded { continue; }
        ghost var started := attempts;
        assert started[..|started| - 1] == prior;
        var step, next := RunStep(i, payload);
        assert Ids(actions)[k..i + 1] == Ids(actions)[k..i] + [action.id];
        if !step.Completed? { return step, payload, i + 1; }
        payload := next;
      }
      r, end := Completed, |actions|;
    }

    /** `process` from where the execution, loaded before, is RUNNING. */
    method Continue(loaded: Execution) returns (r: End, ghost end: nat)
      requires Valid() && execution == loaded.(status := Running) && attempts != [] && attempts[|attempts| - 1] == []
      requires RowsValid(world, actions, loaded, steps, committed, 0) && exposed
      modifies `execution, `steps, `committed, `attempts, `clock, `crashes, `exposed
      ensures Valid() && execution.input == old(execution.input)
      ensures if r.Crashed? then crashes < old(crashes) else crashes == old(crashes)
      ensures r.Completed? ==>
        && |committed| == |actions|
        && execution == old(execution).(status := Succeeded, output := Fold(Start(), committed))
      ensures r.Threw? ==>
        && execution.status == Failed && execution.error == Some(r.error) && end == |committed| + 1 <= |actions|
        && FailedNow(|committed|, Fold(Start(), committed), r.error)
      ensures |old(committed)| <= |committed| <= end <= |committed| + 1 && end <= |actions|
      ensures |steps| == |old(steps)| + end - |old(committed)|
      ensures attempts == old(attempts)[..|old(attempts)| - 1] + [Ids(actions)[|old(committed)|..end]]
    {
      hide RowsValid, InOrder;
      var succeeded := SucceededIds(steps);
      var payload := ResumePayload(loaded, succeeded != {});
      ResumesFromRows(world, actions, loaded, steps, committed, 0);
      r, payload, end := RunSteps(succeeded, payload);
      if r.Crashed? { return; }
      if r.Completed? {
        SetExecution(execution.(status := Succeeded, output := payload));
      } else {
        SetExecution(execution.(status := Failed, error := Some(r.error)));
      }
      var crashed := CrashPoint();
      if crashed { r := Crashed; }
    }

    /**
     One attempt. It resumes at the first action that has not succeeded, with
     the fold over the ones that have; if it completes, the execution is SUCCEEDED
     and stores the fold over the whole chain. It starts a run of consecutive
     actions of the chain: up to the end, up to the one that failed, or up to where
     it was cut short. Only a crash cuts it short between committing an action and
     starting the next.
     */
    method Process() returns (r: End, ghost end: nat)
      requires Valid() && Recorded()
      modifies this
      ensures Valid() && Recorded() && execution.input == old(execution.input)
      ensures if r.Crashed? then crashes < old(crashes) else crashes == old(crashes)
      ensures r.Completed? ==>
        && |committed| == |actions|
        && execution == old(execution).(status := Succeeded, output := Fold(Start(), committed))
      ensures r.Threw? ==>
        && execution.status == Failed && execution.error == Some(r.error) && end == |committed| + 1 <= |actions|
        && FailedNow(|committed|, Fold(Start(), committed), r.error)
      ensures |old(committed)| <= |committed| <= end <= |committed| + 1 && end <= |actions|
      ensures |steps| == |old(steps)| + end - |old(committed)|
      ensures attempts == old(attempts) + [Ids(actions)[|old(committed)|..end]]
      ensures spans == old(spans) + [Span(|old(committed)|, end, |committed|, r.Threw?)]
      ensures !r.Crashed? ==> !Cut(|actions|, spans[|old(spans)|])
    {
      hide RowsValid, InOrder, Records, Flatten, RowIds, Fold, DistinctIds;
      exposed := true; // there is nothing yet that a crash could drop
      ghost var prior, k := attempts, |committed|;
      FlattenSnoc(prior, []);
      attempts := attempts + [[]];
      assert attempts[..|attempts| - 1] == prior && Ids(actions)[k..k] == [] && Flatten(prior) + [] == Flatten(prior);
      var loaded := execution;
      SetExecution(execution.(status := Running));
      var crashed := CrashPoint();
      if crashed {
        r, end := Crashed, k;
      } else {
        r, end := Continue(loaded);
      }
      RecordsSnoc(Ids(actions), prior, spans, Span(k, end, |committed|, r.Threw?));
      spans := spans + [Span(k, end, |committed|, r.Threw?)];
    }

    /** Dead-letter bookkeeping once no attempt is left. */
    method OnFailed(attemptsMade: nat, maxAttempts: nat, error: string)
      requires Valid()
      modifies `execution, `exposed
      ensures Valid() && execution.input == old(execution.input)
      ensures execution == if attemptsMade < maxAttempts || old(execution).status == Failed then old(execution)
        else old(execution).(status := Failed, error := Some(error))
    {
      if attemptsMade < maxAttempts { return; }
      if execution.status != Failed {
        exposed := true;
        SetExecution(execution.(status := Failed, error := Some(error)));
      }
    }

    /**
     The job: call `process` until it completes or has failed `maxAttempts`
     times; an attempt that crashed is made again. So it is given up after exactly
     `maxAttempts` attempts that failed, and not before. It writes at most one row per
     action, one more for each retry and one for each crash; without crashes none
     of its attempts is cut short. An execution that completes after a failed attempt
     keeps that attempt's error.
     */
    method RunJob(maxAttempts: nat) returns (end: JobEnd)
      requires Valid() && Recorded() && maxAttempts > 0
      modifies this
      ensures Valid() && Recorded() && execution.input == old(execution.input) && crashes <= old(crashes)
      ensures end.JobCompleted? ==>
        && execution.status == Succeeded && |committed| == |actions| && execution.output == Fold(Start(), committed)
      ensures end.DeadLettered? ==> execution.status == Failed && execution.error.Some? && |committed| < |actions|
      ensures Failures(spans) - Failures(old(spans)) <= maxAttempts
      ensures end.DeadLettered? <==> Failures(spans) - Failures(old(spans)) == maxAttempts
      ensures old(crashes) == 0 && end.DeadLettered? ==> |spans| == |old(spans)| + maxAttempts
      ensures actions != [] ==>
        |steps| <= |old(steps)| + |actions| - |old(committed)| + maxAttempts - 1 + old(crashes) - crashes
      ensures old(crashes) == 0 && end.JobCompleted? ==>
        (execution.error.Some? <==> old(execution).error.Some? || Failures(spans) > Failures(old(spans)))
      ensures old(spans) <= spans
      ensures old(crashes) == 0 ==> forall i :: |old(spans)| <= i < |spans| ==> !Cut(|actions|, spans[i])
    {
      hide RowsValid, InOrder, Records;
      ghost var calm, k, rows, before, lives := crashes == 0, |committed|, |steps|, spans, crashes;
      var made := 0;
      while true
        invariant made < maxAttempts && Valid() && Recorded() && execution.input == old(execution.input)
        invariant crashes <= lives && k <= |committed| && |steps| <= rows + |committed| - k + made + lives - crashes
        invariant before <= spans && Failures(spans) == Failures(before) + made
        invariant calm ==>
          && |spans| == |before| + made
          && (execution.error.Some? <==> old(execution).error.Some? || made > 0)
        invariant calm ==> forall i :: |before| <= i < |spans| ==> !Cut(|actions|, spans[i])
        decreases crashes, maxAttempts - made
      {
        ghost var earlier := spans;
        var r, started := Process();
        FailuresSnoc(earlier, spans[|earlier|]);
        if r.Crashed? { continue; }
        if r.Completed? { return JobCompleted; }
        made := made + 1;
        OnFailed(made, maxAttempts, r.error);
        if made == maxAttempts { return DeadLettered; }
      }
    }

    /** Admin retry of a job that has ended; what it continues from is as it was. */
    method AdminRetry()
      requires Valid()
      modifies `execution, `exposed
      ensures Valid() && execution == old(execution).(status := Pending, error := None)
    {
      exposed := true;
      SetExecution(execution.(status := Pending, error := None));
    }

    /** An attempt whose first action succeeds, and whose process dies right after committing it. */
    method CutShort(i: nat)
      requires Valid() && Recorded() && crashes == 0
      requires i == |committed| < |actions| && actions[i].kind == "DELAY"
      modifies this
      ensures Valid() && Recorded() && crashes == 0 && |committed| == i + 1
      ensures spans == old(spans) + [Span(i, i + 1, i + 1, false)]
      ensures attempts == old(attempts) + [[actions[i].id]]
    {
      hide RowsValid, InOrder, Records, Flatten, RowIds, Fold, DistinctIds, RunAction.RunAction;
      exposed := true;
      ghost var prior := attempts;
      FlattenSnoc(prior, []);
      attempts := attempts + [[]];
      assert attempts[..|attempts| - 1] == prior && Flatten(prior) + [] == Flatten(prior);
      var loaded := execution;
      SetExecution(execution.(status := Running));
      var crashed := CrashPoint();
      var succeeded := SucceededIds(steps);
      var payload := ResumePayload(loaded, succeeded != {});
      ResumesFromRows(world, actions, loaded, steps, committed, 0);
      DelaySucceeds(world, actions[i].config, payload, clock);
      var r, next := RunStep(i, payload);
      assert Ids(actions)[i..i + 1] == [actions[i].id] == [] + [actions[i].id];
      RecordsSnoc(Ids(actions), prior, spans, Span(i, i + 1, i + 1, false));
      spans := spans + [Span(i, i + 1, i + 1, false)];
    }

    /** Any history of an execution: jobs, single attempts and admin retries, with crashes anywhere. */
    method AnyHistory()
      requires Valid() && Recorded()
      modifies this
      ensures Valid() && Recorded()
    {
      hide RowsValid, InOrder, Records;
      var calls: nat := *;
      while calls > 0
        invariant Valid() && Recorded()
      {
        calls := calls - 1;
        if * {
          AdminRetry();
        } else if * {
          var maxAttempts: nat :| maxAttempts > 0;
          var end := RunJob(maxAttempts);
        } else {
          var r, started := Process();
        }
      }
    }
  }

  /**
   After any history whatever, the run page groups the rows, in start order, into
   exactly the attempts that wrote them, if and only if no attempt that wrote rows came
   after one that was cut short between committing an action and starting the next.
   */
  lemma RecoversEngineAttempts(n: WorkflowProcessor, rows: seq<Started>, groups: seq<seq<Started>>)
    requires n.Valid() && n.Recorded()
    requires Sorted(rows) && ActionIds(rows) == RowIds(n.steps)
    requires IsGrouping(ActionIds(StableSort(rows)), GroupIds(groups))
    ensures GroupIds(groups) == Written(n.attempts) <==> !LosesACut(|n.actions|, n.spans)
  {
    hide RowsValid, InOrder, IsGrouping, Sorted, StartedBy, IsHistory, LosesACut, Overlap;
    WrittenRows(n.attempts);
    StartedAreDistinct(Ids(n.actions), n.spans);
    OverlapIff(Ids(n.actions), n.spans);
    RecoversIff(rows, Written(n.attempts), groups);
  }

  /** The rows of an execution as the run page gets them. */
  method Page(n: WorkflowProcessor) returns (groups: seq<seq<Started>>)
    requires n.Valid() && n.Recorded()
    ensures GroupIds(groups) == Written(n.attempts) <==> !LosesACut(|n.actions|, n.spans)
    ensures IsGrouping(RowIds(n.steps), GroupIds(groups))
  {
    hide RowsValid, InOrder, IsGrouping, StartedBy, IsHistory, LosesACut;
    var steps := n.steps;
    var rows := seq(|steps|, i requires 0 <= i < |steps| => Started(steps[i].actionId, Some(i)));
    groups := GroupIntoAttempts(rows);
    assert ActionIds(rows) == RowIds(n.steps);
    SortedIsKept(rows);
    RecoversEngineAttempts(n, rows, groups);
  }

  /** From a new execution, through any history, to the run page. */
  method HistoryOnThePage(world: World, actions: seq<Action>, input: Json, crashes: nat)
    returns (n: WorkflowProcessor, groups: seq<seq<Started>>)
    requires DistinctIds(actions)
    ensures fresh(n) && n.Valid() && n.Recorded() && n.actions == actions
    ensures GroupIds(groups) == Written(n.attempts) <==> !LosesACut(|actions|, n.spans)
  {
    hide RowsValid, InOrder, IsGrouping, StartedBy, IsHistory, LosesACut;
    n := new WorkflowProcessor(world, actions, input, crashes);
    n.AnyHistory();
    groups := Page(n);
  }

  lemma TwoAsOne(ids: seq<string>, groups: seq<seq<string>>)
    requires ids == Flatten([["first"], ["second"]]) && IsGrouping(ids, groups)
    ensures groups == [["first", "second"]]
  {
    FlattenSnoc([["first"]], ["second"]);
    FlattenSnoc([], ["first"]);
    FlattenSnoc([], ["first", "second"]);
    assert [["first"]] + [["second"]] == [["first"], ["second"]] && [] + [["first"]] == [["first"]];
    assert [] + [["first", "second"]] == [["first", "second"]];
    assert ids == ["first"] + ["second"] == ["first", "second"];
    assert "first"[0] != "second"[0];
    GroupingIsUnique(ids, groups, [["first", "second"]]);
  }

  /**
   Two attempts of which the run page makes one: the first commits its only action and
   its process dies, the second starts the other action.
   */
  method CutAttemptsMerge(world: World, config: Json, input: Json)
    returns (n: WorkflowProcessor, groups: seq<seq<Started>>)
    ensures fresh(n) && n.Valid() && n.attempts == [["first"], ["second"]]
    ensures GroupIds(groups) == [["first", "second"]]
  {
    hide RowsValid, InOrder, Records, Flatten, RowIds, Fold, IsGrouping, LosesACut, GroupIds, Written;
    n := new WorkflowProcessor(world, [Action("first", "DELAY", config), Action("second", "DELAY", config)], input, 0);
    n.CutShort(0);
    var r, end := n.Process();
    assert Ids(n.actions)[1..2] == ["second"];
    assert n.attempts == [["first"], ["second"]];
    groups := Page(n);
    TwoAsOne(RowIds(n.steps), GroupIds(groups));
  }
}
