/**
 The two engines mean the same: whatever crashes, failures and admin retries
 each went through, two runs of one chain on one input that both end SUCCEEDED
 store the same payload, and that payload is the one-pass fold over the chain.
 */
module EngineEquivalence {
  import opened Options
  import opened Json
  import opened RunAction
  import opened Chain
  import Template
  import W = RunWorkflow
  import N = WorkflowProcessor

  /** A SUCCEEDED execution of either engine stores the one-pass result. */
  lemma SucceededStoresOnePass(world: World, step: (Action, Json) -> Enrichment, actions: seq<Action>, e: Execution,
      steps: seq<StepRow>, committed: seq<Enrichment>, redone: nat)
    requires Decides(world, step) && RowsValid(world, actions, e, steps, committed, redone) && e.status == Succeeded
    ensures e.output == OnePass(step, actions, Base(e.input))
  {
    assert actions[..|actions|] == actions;
    FoldIsOnePass(world, step, actions, Base(e.input), committed);
  }

  /** Valid() is kept by every method of both classes, so this holds for any two histories. */
  lemma EnginesAgree(nest: N.WorkflowProcessor, worker: W.RunWorkflow, step: (Action, Json) -> Enrichment)
    requires nest.Valid() && worker.Valid()
    requires nest.world == worker.world && nest.actions == worker.actions
    requires nest.execution.input == worker.execution.input && Decides(nest.world, step)
    requires nest.execution.status == Succeeded && worker.execution.status == Succeeded
    ensures nest.execution.output == worker.execution.output
    ensures worker.execution.output == OnePass(step, worker.actions, Base(worker.execution.input))
  {
    SucceededStoresOnePass(nest.world, step, nest.actions, nest.execution, nest.steps, nest.committed, 0);
    SucceededStoresOnePass(worker.world, step, worker.actions, worker.execution, worker.steps, worker.committed,
      worker.redone);
  }

  /** The last HTTP step among the first k actions, or -1. */
  function LastHttp(actions: seq<Action>, k: nat): (j: int)
    requires k <= |actions|
    ensures -1 <= j < k
    ensures j >= 0 ==> actions[j].kind == "HTTP_REQUEST"
    ensures forall i :: j < i < k ==> actions[i].kind != "HTTP_REQUEST"
  {
    if k == 0 then -1
    else if actions[k - 1].kind == "HTTP_REQUEST" then k - 1
    else LastHttp(actions, k - 1)
  }

  /** Some request of this HTTP action, with its templates resolved against the payload, got this ok response. */
  ghost predicate Answered(world: World, action: Action, payload: Json, status: nat, body: Json) {
    exists now: nat ::
      world.fetch(Template.InterpolateConfig(action.config, payload, world.jsonText), now) ==
        Response(status, true, body)
  }

  /** `http` is the status and body of such a response. */
  ghost predicate IsAnswer(world: World, action: Action, payload: Json, http: Json) {
    exists status: nat, body: Json ::
      Answered(world, action, payload, status, body) && IsHttp(http, status, body)
  }

  lemma ProducedByKind(world: World, action: Action, payload: Json, e: Enrichment)
    requires Produced(world, action, payload, e)
    ensures
      if action.kind == "HTTP_REQUEST" then
        e.Some? && e.value.Keys == {"http"} && IsAnswer(world, action, payload, e.value["http"])
      else e.None?
  {
    var now: nat :| SucceedsWith(RunAction.RunAction(world, action.kind, action.config, payload, now), e);
    OnlyHttpEnriches(world, action.kind, action.config, payload, now);
    if action.kind == "HTTP_REQUEST" {
      var reply := world.fetch(Template.InterpolateConfig(action.config, payload, world.jsonText), now);
      assert Answered(world, action, payload, reply.status, reply.body);
    }
  }

  /** Merging an HTTP step's enrichment into a payload that has kept every member of base but perhaps `http`. */
  lemma MergingHttp(base: Json, payload: Json, fields: Fields)
    requires fields.Keys == {"http"}
    requires payload == base || (payload.Obj? && payload.fields - {"http"} == Spread(base) - {"http"})
    ensures
      var merged := Extend(payload, Some(fields));
      && merged.Obj? && merged.fields - {"http"} == Spread(base) - {"http"}
      && "http" in merged.fields && merged.fields["http"] == fields["http"]
  {
  }

  /**
   What a chain can do to its payload, in either engine: without an HTTP step
   nothing; otherwise only `http` changes, and it is the response to the last
   HTTP step's request, made with the payload that step was due.
   */
  lemma {:induction false} OnlyHttpChanges(world: World, actions: seq<Action>, base: Json, committed: seq<Enrichment>)
    requires Explained(world, actions, base, committed) && |committed| <= |actions|
    ensures
      var j, payload := LastHttp(actions, |committed|), Fold(base, committed);
      if j < 0 then payload == base
      else
        && payload.Obj? && payload.fields - {"http"} == Spread(base) - {"http"}
        && "http" in payload.fields
        && IsAnswer(world, actions[j], Fold(base, committed[..j]), payload.fields["http"])
    decreases |committed|
  {
    hide Explained, Produced, Spread, IsAnswer;
    if committed != [] {
      var k := |committed| - 1;
      ExplainedPrefix(world, actions, base, committed, k);
      ProducedByKind(world, actions[k], Fold(base, committed[..k]), committed[k]);
      OnlyHttpChanges(world, actions, base, committed[..k]);
      assert forall j :: 0 <= j < k ==> committed[..k][..j] == committed[..j];
      if committed[k].Some? {
        MergingHttp(base, Fold(base, committed[..k]), committed[k].value);
      }
    }
  }

  /** The payload has every member of the trigger's payload, unchanged, and no other, but perhaps `http`. */
  ghost predicate KeepsInput(input: Json, payload: Json) {
    input.Obj? ==> payload.Obj? && payload.fields - {"http"} == input.fields - {"http"}
  }

  ghost predicate NoHttp(actions: seq<Action>) {
    forall i :: 0 <= i < |actions| ==> actions[i].kind != "HTTP_REQUEST"
  }

  /** The payload due to action k. */
  lemma FoldKeepsInput(world: World, actions: seq<Action>, input: Json, committed: seq<Enrichment>, k: nat)
    requires Explained(world, actions, Base(input), committed) && k <= |committed| <= |actions|
    ensures KeepsInput(input, Fold(Base(input), committed[..k]))
    ensures NoHttp(actions[..k]) ==>
      Fold(Base(input), committed[..k]) == if input.Null? then Obj(map[]) else input
  {
    if k < |committed| {
      ExplainedPrefix(world, actions, Base(input), committed, k);
    } else {
      assert committed[..k] == committed;
    }
    OnlyHttpChanges(world, actions, Base(input), committed[..k]);
    var j := LastHttp(actions, k);
    assert j >= 0 ==> actions[..k][j] == actions[j];
  }

  /**
   What a run does to the trigger's payload, at any time: its first action gets that
   payload (`{}` for null), every action gets all of it, and so does the output, which
   is the payload itself if the chain has no HTTP step.
   */
  lemma RunKeepsInput(world: World, actions: seq<Action>, e: Execution, steps: seq<StepRow>,
      committed: seq<Enrichment>, redone: nat)
    requires RowsValid(world, actions, e, steps, committed, redone)
    ensures forall r :: r in steps ==> KeepsInput(e.input, r.input)
    ensures forall r :: r in steps && r.actionId == actions[0].id ==>
      r.input == if e.input.Null? then Obj(map[]) else e.input
    ensures committed != [] || e.status == Succeeded ==> KeepsInput(e.input, e.output)
    ensures e.status == Succeeded && NoHttp(actions) ==>
      e.output == if e.input.Null? then Obj(map[]) else e.input
  {
    hide Explained, KeepsInput, Fold;
    FoldKeepsInput(world, actions, e.input, committed, |committed|);
    assert committed[..|committed|] == committed && actions[..|actions|] == actions;
    forall r | r in steps
      ensures KeepsInput(e.input, r.input)
      ensures r.actionId == actions[0].id ==> r.input == if e.input.Null? then Obj(map[]) else e.input
    {
      var i: nat :| RowInPlace(actions, Base(e.input), committed, r, i);
      FoldKeepsInput(world, actions, e.input, committed, i);
      FoldKeepsInput(world, actions, e.input, committed, 0);
    }
  }

  /** In the terms of the NestJS engine, after any history. */
  lemma NestKeepsInput(nest: N.WorkflowProcessor)
    requires nest.Valid()
    ensures forall r :: r in nest.steps ==> KeepsInput(nest.execution.input, r.input)
    ensures nest.execution.status == Succeeded ==> KeepsInput(nest.execution.input, nest.execution.output)
    ensures nest.execution.status == Succeeded && NoHttp(nest.actions) && !nest.execution.input.Null? ==>
      nest.execution.output == nest.execution.input
  {
    RunKeepsInput(nest.world, nest.actions, nest.execution, nest.steps, nest.committed, 0);
  }

  /** And of the Worker. */
  lemma WorkerKeepsInput(worker: W.RunWorkflow)
    requires worker.Valid()
    ensures forall r :: r in worker.steps ==> KeepsInput(worker.execution.input, r.input)
    ensures worker.execution.status == Succeeded ==> KeepsInput(worker.execution.input, worker.execution.output)
    ensures worker.execution.status == Succeeded && NoHttp(worker.actions) && !worker.execution.input.Null? ==>
      worker.execution.output == worker.execution.input
  {
    RunKeepsInput(worker.world, worker.actions, worker.execution, worker.steps, worker.committed, worker.redone);
  }
}
