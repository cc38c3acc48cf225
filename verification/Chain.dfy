/**
 The durable record of one run of an action chain, as both engines keep it: the
 execution row and its step rows, and what these rows must always mean.
 */
module Chain {
  import opened Options
  import opened Json
  import opened RunAction

  datatype Action = Action(id: string, kind: string, config: Json)

  datatype Status = Pending | Running | Succeeded | Failed | Cancelled

  /** A workflow_executions row; Null stands for SQL NULL as well as for JSON null. */
  datatype Execution = Execution(status: Status, input: Json, output: Json, error: Option<string>)

  /** An action_executions row. */
  datatype StepRow = StepRow(actionId: string, status: Status, input: Json, error: Option<string>)

  type Enrichment = Option<Fields>

  /* ------------------------------------------------------------ the payload */

  /** `enriched ? { ...payload, ...enriched } : payload`. */
  function Extend(payload: Json, enriched: Enrichment): Json {
    match enriched
    case None => payload
    case Some(fields) => Obj(Spread(payload) + fields)
  }

  /** The payload after the given enrichments, in order. */
  function Fold(base: Json, enrichments: seq<Enrichment>): Json {
    if enrichments == [] then base
    else Extend(Fold(base, enrichments[..|enrichments| - 1]), enrichments[|enrichments| - 1])
  }

  lemma FoldSnoc(base: Json, enrichments: seq<Enrichment>, e: Enrichment)
    ensures Fold(base, enrichments + [e]) == Extend(Fold(base, enrichments), e)
  {
    assert (enrichments + [e])[..|enrichments|] == enrichments;
  }

  lemma {:induction false} FoldIsNotNull(base: Json, enrichments: seq<Enrichment>)
    requires !base.Null?
    ensures !Fold(base, enrichments).Null?
  {
    if enrichments != [] { FoldIsNotNull(base, enrichments[..|enrichments| - 1]); }
  }

  /** What the run starts from: `input ?? {}`. */
  function Base(input: Json): (base: Json)
    ensures !base.Null?
  {
    Coalesce(input, Obj(map[]))
  }

  /** The payload a (re)started run continues with. */
  function ResumePayload(e: Execution, anySucceeded: bool): Json {
    Coalesce(if anySucceeded then Coalesce(e.output, e.input) else e.input, Obj(map[]))
  }

  /* ---------------------------------------------- the reference: one pass */

  /** The plain meaning of a chain when a step's enrichment is a function of action and payload. */
  function OnePass(step: (Action, Json) -> Enrichment, actions: seq<Action>, payload: Json): Json {
    if actions == [] then payload
    else OnePass(step, actions[1..], Extend(payload, step(actions[0], payload)))
  }

  lemma {:induction false} OnePassSnoc(step: (Action, Json) -> Enrichment, actions: seq<Action>, last: Action,
      payload: Json)
    ensures
      var before := OnePass(step, actions, payload);
      OnePass(step, actions + [last], payload) == Extend(before, step(last, before))
  {
    if actions == [] {
      assert [last][1..] == [];
    } else {
      assert (actions + [last])[1..] == actions[1..] + [last];
      OnePassSnoc(step, actions[1..], last, Extend(payload, step(actions[0], payload)));
    }
  }

  /** `enrichment` is what some call of the executor gave for this action on this payload. */
  ghost predicate Produced(world: World, action: Action, payload: Json, enrichment: Enrichment) {
    exists now: nat :: SucceedsWith(RunAction.RunAction(world, action.kind, action.config, payload, now), enrichment)
  }

  predicate SucceedsWith(result: ActionResult, enrichment: Enrichment) {
    result.Success? && result.enriched == enrichment
  }

  /** Every enrichment was produced by its action on the payload the ones before it give. */
  ghost predicate Explained(world: World, actions: seq<Action>, base: Json, committed: seq<Enrichment>) {
    && |committed| <= |actions|
    && forall i :: 0 <= i < |committed| ==> Produced(world, actions[i], Fold(base, committed[..i]), committed[i])
  }

  /** A successful step's enrichment is `step` of its action and payload. */
  ghost predicate Decides(world: World, step: (Action, Json) -> Enrichment) {
    forall action, payload, enrichment ::
      Produced(world, action, payload, enrichment) ==> enrichment == step(action, payload)
  }

  lemma ExplainedPrefix(world: World, actions: seq<Action>, base: Json, committed: seq<Enrichment>, n: nat)
    requires Explained(world, actions, base, committed) && n < |committed|
    ensures Explained(world, actions, base, committed[..n])
    ensures Produced(world, actions[n], Fold(base, committed[..n]), committed[n])
  {
    hide Produced;
    assert forall i :: 0 <= i < n ==> committed[..n][..i] == committed[..i];
  }

  lemma ExplainedSnoc(world: World, actions: seq<Action>, base: Json, committed: seq<Enrichment>, i: nat, e: Enrichment)
    requires Explained(world, actions, base, committed) && i <= |committed| && i < |actions|
    requires Produced(world, actions[i], Fold(base, committed[..i]), e)
    ensures Explained(world, actions, base, committed[..i] + [e])
  {
    hide Produced;
    assert forall k :: 0 <= k <= i ==> (committed[..i] + [e])[..k] == committed[..k];
  }

  /** If enrichments are determined, the fold over what was committed is the one-pass meaning. */
  lemma {:induction false} FoldIsOnePass(world: World, step: (Action, Json) -> Enrichment, actions: seq<Action>,
      base: Json, committed: seq<Enrichment>)
    requires Decides(world, step) && Explained(world, actions, base, committed) && |committed| <= |actions|
    ensures Fold(base, committed) == OnePass(step, actions[..|committed|], base)
    decreases |committed|
  {
    hide Explained, Produced;
    if committed != [] {
      var k := |committed| - 1;
      ExplainedPrefix(world, actions, base, committed, k);
      FoldIsOnePass(world, step, actions, base, committed[..k]);
      OnePassSnoc(step, actions[..k], actions[k], base);
      assert actions[..k + 1] == actions[..k] + [actions[k]];
    }
  }

  /* ----------------------------------------------------- what the rows mean */

  ghost predicate DistinctIds(actions: seq<Action>) {
    forall i, j :: 0 <= i < j < |actions| ==> actions[i].id != actions[j].id
  }

  function SucceededIds(steps: seq<StepRow>): set<string> {
    set r <- steps | r.status == Succeeded :: r.actionId
  }

  function PrefixIds(actions: seq<Action>, k: nat): set<string>
    requires k <= |actions|
  {
    set i | 0 <= i < k :: actions[i].id
  }

  /** A step row belongs to a committed action, or to the next one, and records the payload that action is due. */
  ghost predicate RowInPlace(actions: seq<Action>, base: Json, committed: seq<Enrichment>, r: StepRow, i: nat) {
    i <= |committed| && i < |actions| && r.actionId == actions[i].id && r.input == Fold(base, committed[..i])
  }

  /**
   The central invariant. The actions with a SUCCEEDED row are a prefix of the
   chain; `committed` holds the last committed enrichment of each; once there is
   one, `output` is exactly the fold over them; every step ever started was
   given the fold over the steps before it; and a SUCCEEDED execution has
   finished the chain and stores the whole fold.
   */
  ghost predicate Checkpointed(actions: seq<Action>, e: Execution, steps: seq<StepRow>, committed: seq<Enrichment>) {
    && |committed| <= |actions|
    && SucceededIds(steps) == PrefixIds(actions, |committed|)
    && (committed != [] ==> e.output == Fold(Base(e.input), committed))
    && (forall r :: r in steps ==> exists i: nat :: RowInPlace(actions, Base(e.input), committed, r, i))
    && (e.status == Succeeded ==> |committed| == |actions| && e.output == Fold(Base(e.input), committed))
  }

  /** No step after the one at place m was ever started. */
  ghost predicate NoneBeyond(actions: seq<Action>, steps: seq<StepRow>, m: nat) {
    forall r, j :: r in steps && m < j < |actions| ==> r.actionId != actions[j].id
  }

  lemma NoneBeyondNext(actions: seq<Action>, steps: seq<StepRow>, m: nat)
    requires NoneBeyond(actions, steps, m)
    ensures NoneBeyond(actions, steps, m + 1)
  {
  }

  lemma NoneBeyondUpdate(actions: seq<Action>, steps: seq<StepRow>, row: StepRow, row': StepRow, m: nat)
    requires NoneBeyond(actions, steps + [row], m) && row'.actionId == row.actionId
    ensures NoneBeyond(actions, steps, m) && NoneBeyond(actions, steps + [row'], m)
  {
    assert forall r :: r in steps ==> r in steps + [row];
    assert row in steps + [row];
  }

  /** Reading the rows back gives the payload an uninterrupted run would have here. */
  lemma ResumesExactly(actions: seq<Action>, e: Execution, steps: seq<StepRow>, committed: seq<Enrichment>)
    requires Checkpointed(actions, e, steps, committed)
    ensures (SucceededIds(steps) != {}) == (committed != [])
    ensures ResumePayload(e, SucceededIds(steps) != {}) == Fold(Base(e.input), committed)
  {
    if committed != [] {
      assert actions[0].id in PrefixIds(actions, |committed|);
      FoldIsNotNull(Base(e.input), committed);
    }
  }

  /** Whether an action is among the succeeded ones is a question about its place in the chain. */
  lemma InPrefix(actions: seq<Action>, k: nat, i: nat)
    requires DistinctIds(actions) && k <= |actions| && i < |actions|
    ensures actions[i].id in PrefixIds(actions, k) <==> i < k
  {
  }

  /** Starting a step: a RUNNING row for the next action, with the payload due to it. */
  lemma StartKeepsCheckpoint(actions: seq<Action>, e: Execution, steps: seq<StepRow>, committed: seq<Enrichment>,
      i: nat, row: StepRow)
    requires Checkpointed(actions, e, steps, committed)
    requires RowInPlace(actions, Base(e.input), committed, row, i) && row.status != Succeeded
    ensures Checkpointed(actions, e, steps + [row], committed)
  {
    assert SucceededIds(steps + [row]) == SucceededIds(steps);
    forall r | r in steps + [row] ensures exists i: nat :: RowInPlace(actions, Base(e.input), committed, r, i) {
      if r !in steps { assert r == row; }
    }
  }

  /** A failed step: its row, the last one, becomes FAILED. */
  lemma FailKeepsCheckpoint(actions: seq<Action>, e: Execution, steps: seq<StepRow>, committed: seq<Enrichment>,
      row: StepRow, error: string)
    requires Checkpointed(actions, e, steps + [row], committed) && row.status == Running
    ensures Checkpointed(actions, e, steps + [row.(status := Failed, error := Some(error))], committed)
  {
    var failed := row.(status := Failed, error := Some(error));
    assert SucceededIds(steps + [failed]) == SucceededIds(steps + [row]);
    forall r | r in steps + [failed] ensures exists i: nat :: RowInPlace(actions, Base(e.input), committed, r, i) {
      if r !in steps {
        assert row in steps + [row];
        var i: nat :| RowInPlace(actions, Base(e.input), committed, row, i);
        assert RowInPlace(actions, Base(e.input), committed, r, i);
      } else {
        assert r in steps + [row];
      }
    }
  }

  /**
   A committed step: its row becomes SUCCEEDED and `output` the payload after
   it, together. It is the next step, or (on the Worker) the last committed one
   run a second time, whose enrichment is then replaced.
   */
  lemma CommitKeepsCheckpoint(actions: seq<Action>, e: Execution, steps: seq<StepRow>, committed: seq<Enrichment>,
      row: StepRow, i: nat, enrichment: Enrichment)
    requires DistinctIds(actions) && e.status != Succeeded
    requires Checkpointed(actions, e, steps + [row], committed) && row.status == Running
    requires i < |actions| && i <= |committed| <= i + 1 && NoneBeyond(actions, steps, i)
    requires row.actionId == actions[i].id && row.input == Fold(Base(e.input), committed[..i])
    ensures
      var next := Extend(row.input, enrichment);
      Checkpointed(actions, e.(output := next), steps + [row.(status := Succeeded)], committed[..i] + [enrichment])
  {
    var base, now := Base(e.input), committed[..i] + [enrichment];
    var done := row.(status := Succeeded);
    FoldSnoc(base, committed[..i], enrichment);
    assert PrefixIds(actions, i + 1) == PrefixIds(actions, |committed|) + {actions[i].id};
    assert SucceededIds(steps + [row]) == SucceededIds(steps);
    assert SucceededIds(steps + [done]) == SucceededIds(steps) + {row.actionId};
    forall r | r in steps + [done] ensures exists k: nat :: RowInPlace(actions, base, now, r, k) {
      if r in steps {
        assert r in steps + [row];
        var k: nat :| RowInPlace(actions, base, committed, r, k);
        assert k <= i;
        assert now[..k] == committed[..k];
        assert RowInPlace(actions, base, now, r, k);
      } else {
        assert now[..i] == committed[..i];
        assert RowInPlace(actions, base, now, r, i);
      }
    }
  }

  /* ---------------------------------------------------------- counting rows */

  datatype Filter = AnySucceeded | Of(id: string) | FailedOf(id: string)

  predicate Keeps(f: Filter, r: StepRow) {
    match f
    case AnySucceeded => r.status == Succeeded
    case Of(id) => r.actionId == id
    case FailedOf(id) => r.actionId == id && r.status == Failed
  }

  /** Number of step rows the filter keeps. */
  function Count(steps: seq<StepRow>, f: Filter): nat {
    if steps == [] then 0
    else Count(steps[..|steps| - 1], f) + if Keeps(f, steps[|steps| - 1]) then 1 else 0
  }

  lemma CountSnoc(steps: seq<StepRow>, row: StepRow, f: Filter)
    ensures Count(steps + [row], f) == Count(steps, f) + if Keeps(f, row) then 1 else 0
  {
    assert (steps + [row])[..|steps|] == steps;
  }

  /** `after` has `rows` more rows of the action than `before`, `failed` of them FAILED, and no other new row. */
  ghost predicate Attempted(before: seq<StepRow>, after: seq<StepRow>, id: string, rows: nat, failed: nat) {
    && (forall other :: Count(after, Of(other)) == Count(before, Of(other)) + if other == id then rows else 0)
    && (forall other ::
      Count(after, FailedOf(other)) == Count(before, FailedOf(other)) + if other == id then failed else 0)
  }

  lemma AttemptedNone(steps: seq<StepRow>, id: string)
    ensures Attempted(steps, steps, id, 0, 0)
  {
  }

  lemma AttemptedOnce(before: seq<StepRow>, steps: seq<StepRow>, row: StepRow, rows: nat, failed: nat)
    requires Attempted(before, steps, row.actionId, rows, failed)
    ensures Attempted(before, steps + [row], row.actionId, rows + 1, failed + if row.status == Failed then 1 else 0)
  {
    forall other
      ensures Count(steps + [row], Of(other)) == Count(steps, Of(other)) + if other == row.actionId then 1 else 0
    {
      CountSnoc(steps, row, Of(other));
    }
    forall other
      ensures Count(steps + [row], FailedOf(other)) ==
        Count(steps, FailedOf(other)) + if other == row.actionId && row.status == Failed then 1 else 0
    {
      CountSnoc(steps, row, FailedOf(other));
    }
  }

  /* ------------------------------------- what both engines keep at all times */

  /** The rows mean what they should; `redone` commits replaced an earlier one of the same action. */
  ghost predicate RowsValid(world: World, actions: seq<Action>, e: Execution, steps: seq<StepRow>,
      committed: seq<Enrichment>, redone: nat)
  {
    && DistinctIds(actions)
    && Checkpointed(actions, e, steps, committed)
    && Explained(world, actions, Base(e.input), committed)
    && Count(steps, AnySucceeded) == |committed| + redone
  }

  /** Changing status and error, or storing the finished chain's output, keeps the rows valid. */
  lemma RowsValidAfterStatus(world: World, actions: seq<Action>, e: Execution, e': Execution, steps: seq<StepRow>,
      committed: seq<Enrichment>, redone: nat)
    requires RowsValid(world, actions, e, steps, committed, redone) && e'.input == e.input
    requires e'.output == e.output || e'.output == Fold(Base(e.input), committed)
    requires e'.status == Succeeded ==> |committed| == |actions| && e'.output == Fold(Base(e.input), committed)
    ensures RowsValid(world, actions, e', steps, committed, redone)
  {
  }

  /** A SUCCEEDED execution stores the fold over the whole chain. */
  lemma FinishedOutput(world: World, actions: seq<Action>, e: Execution, steps: seq<StepRow>,
      committed: seq<Enrichment>, redone: nat)
    requires RowsValid(world, actions, e, steps, committed, redone)
    ensures e.status == Succeeded ==> |committed| == |actions| && e.output == Fold(Base(e.input), committed)
  {
  }

  lemma ResumesFromRows(world: World, actions: seq<Action>, e: Execution, steps: seq<StepRow>,
      committed: seq<Enrichment>, redone: nat)
    requires |committed| <= |actions| && RowsValid(world, actions, e, steps, committed, redone)
    ensures SucceededIds(steps) == PrefixIds(actions, |committed|)
    ensures ResumePayload(e, SucceededIds(steps) != {}) == Fold(Base(e.input), committed)
  {
    ResumesExactly(actions, e, steps, committed);
  }

  function NewRow(action: Action, payload: Json): StepRow {
    StepRow(action.id, Running, payload, None)
  }

  lemma StartedRows(world: World, actions: seq<Action>, e: Execution, steps: seq<StepRow>, committed: seq<Enrichment>,
      redone: nat, i: nat, payload: Json)
    requires RowsValid(world, actions, e, steps, committed, redone)
    requires i <= |committed| && i < |actions| && payload == Fold(Base(e.input), committed[..i])
    ensures RowsValid(world, actions, e, steps + [NewRow(actions[i], payload)], committed, redone)
  {
    StartKeepsCheckpoint(actions, e, steps, committed, i, NewRow(actions[i], payload));
    CountSnoc(steps, NewRow(actions[i], payload), AnySucceeded);
  }

  lemma FailedRows(world: World, actions: seq<Action>, e: Execution, steps: seq<StepRow>, committed: seq<Enrichment>,
      redone: nat, action: Action, payload: Json, error: string)
    requires RowsValid(world, actions, e, steps + [NewRow(action, payload)], committed, redone)
    ensures RowsValid(world, actions, e, steps + [StepRow(action.id, Failed, payload, Some(error))], committed, redone)
  {
    FailKeepsCheckpoint(actions, e, steps, committed, NewRow(action, payload), error);
    CountSnoc(steps, NewRow(action, payload), AnySucceeded);
    CountSnoc(steps, StepRow(action.id, Failed, payload, Some(error)), AnySucceeded);
  }

  lemma CommittedRows(world: World, actions: seq<Action>, e: Execution, steps: seq<StepRow>, committed: seq<Enrichment>,
      redone: nat, i: nat, payload: Json, enriched: Enrichment)
    requires i < |actions| && i <= |committed| <= i + 1 && payload == Fold(Base(e.input), committed[..i])
    requires RowsValid(world, actions, e, steps + [NewRow(actions[i], payload)], committed, redone)
    requires e.status != Succeeded && NoneBeyond(actions, steps, i)
    requires Produced(world, actions[i], payload, enriched)
    ensures
      var next := Extend(payload, enriched);
      && Fold(Base(e.input), committed[..i] + [enriched]) == next
      && RowsValid(world, actions, e.(output := next), steps + [StepRow(actions[i].id, Succeeded, payload, None)],
                   committed[..i] + [enriched], redone + |committed| - i)
  {
    hide Explained, Produced, Checkpointed, NoneBeyond;
    CommitKeepsCheckpoint(actions, e, steps, committed, NewRow(actions[i], payload), i, enriched);
    CountSnoc(steps, NewRow(actions[i], payload), AnySucceeded);
    CountSnoc(steps, StepRow(actions[i].id, Succeeded, payload, None), AnySucceeded);
    FoldSnoc(Base(e.input), committed[..i], enriched);
    ExplainedSnoc(world, actions, Base(e.input), committed, i, enriched);
  }

  /* ------------------------------------------------- order of the step rows */

  function Ids(actions: seq<Action>): (ids: seq<string>)
    ensures |ids| == |actions| && forall i :: 0 <= i < |ids| ==> ids[i] == actions[i].id
  {
    seq(|actions|, i requires 0 <= i < |actions| => actions[i].id)
  }

  /** The action of each step row, in the order they were started. */
  function RowIds(steps: seq<StepRow>): (ids: seq<string>)
    ensures |ids| == |steps| && forall i :: 0 <= i < |ids| ==> ids[i] == steps[i].actionId
  {
    seq(|steps|, i requires 0 <= i < |steps| => steps[i].actionId)
  }

  /** The actions of the SUCCEEDED rows, in the order they were started. */
  function SucceededOrder(steps: seq<StepRow>): seq<string> {
    if steps == [] then []
    else
      var last := steps[|steps| - 1];
      SucceededOrder(steps[..|steps| - 1]) + if last.status == Succeeded then [last.actionId] else []
  }

  lemma SucceededOrderSnoc(steps: seq<StepRow>, row: StepRow)
    ensures SucceededOrder(steps + [row]) ==
      SucceededOrder(steps) + if row.status == Succeeded then [row.actionId] else []
  {
    assert (steps + [row])[..|steps|] == steps;
  }

  /** Rows in place leave nothing started beyond the first action that is not committed. */
  lemma RowsNotBeyond(world: World, actions: seq<Action>, e: Execution, steps: seq<StepRow>, committed: seq<Enrichment>,
      redone: nat)
    requires RowsValid(world, actions, e, steps, committed, redone)
    ensures NoneBeyond(actions, steps, |committed|)
  {
    forall r, j | r in steps && |committed| < j < |actions| ensures r.actionId != actions[j].id {
      var i: nat :| RowInPlace(actions, Base(e.input), committed, r, i);
    }
  }
}
