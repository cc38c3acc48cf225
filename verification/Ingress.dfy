/**
 Webhook ingress and admission on the Worker: any number of deliveries and
 admissions (from webhooks, and from polls and manual fires), interleaved with
 each other, with the runs they start, and with workflow changes, at the level of
 single D1 statements and rate-limiter calls. As in RefreshRotation, a step that
 is not possible where a schedule puts it does nothing.
 */
module Ingress {
  import opened Options

  const MAX_CONCURRENT_EXECUTIONS_PER_WORKFLOW := 3
  const MAX_EXECUTIONS_PER_USER_PER_HOUR := 100

  type Client = nat
  type AdmissionId = nat
  type ExecId = nat

  /** The UNIQUE key of webhook_events. */
  datatype Key = Key(workflow: string, idempotencyKey: string)

  datatype EventStatus = Received | Processed | Skipped | SkippedConcurrencyLimit | SkippedRateLimit

  /** A webhook_events row; `storedBy`, not a column, is the delivery that stored it. */
  datatype Event = Event(id: nat, status: EventStatus, storedBy: Client)

  /** Where a delivery is in the webhook handler. */
  datatype DeliveryPc =
    | Looking                 // findEventByKey
    | Inserting               // createEvent
    | LookingAgain            // it lost the race: findEventByKey once more
    | HandingOff(event: nat)                         // its event is stored
    | Accepted(event: nat, admission: AdmissionId)   // and handed to admission
    | Duplicate(event: nat)                          // reported another delivery's event
    | Dropped(event: nat)                            // crashed with its event stored
    | Lost                                           // crashed before that

  datatype Delivery = Delivery(key: Key, pc: DeliveryPc)

  datatype Ticket = Ticket(user: string, hour: nat, number: nat)

  /** Where an admission is in `admit`. */
  datatype AdmissionPc =
    | Entered
    | Active(user: string)                                  // the workflow is active
    | Counted(user: string)                                 // past the in-flight check
    | Allowed(ticket: Ticket)                               // past the rate limiter
    | Created(run: ExecId)                                  // the execution row exists
    | Marking(status: EventStatus, exec: Option<ExecId>)    // setEventStatus
    | Finished(status: EventStatus, exec: Option<ExecId>, marked: bool)
    | NotStarted(run: ExecId)                               // starting the instance failed
    | Gone(exec: Option<ExecId>)                            // crashed

  datatype Admission = Admission(workflow: string, event: Option<Key>, pc: AdmissionPc)

  datatype RunStatus = Pending | Running | Succeeded | Failed

  datatype Exec = Exec(workflow: string, admission: AdmissionId, ticket: Ticket, status: RunStatus)

  datatype State = State(
    active: map<string, string>,           // the ACTIVE workflows and their users
    events: map<Key, Event>,
    deliveries: map<Client, Delivery>,
    admissions: map<AdmissionId, Admission>,
    execs: map<ExecId, Exec>,
    consumed: map<(string, nat), seq<AdmissionId>>,   // the calls of consume, by user and hour
    hour: nat)

  datatype Step =
    | Deliver(c: Client, key: Key)
    | AdvanceDelivery(c: Client, unused: nat)
    | Admit(a: AdmissionId, workflow: string)
    | AdvanceAdmission(a: AdmissionId, unused: ExecId, ok: bool)
    | Begin(x: ExecId)
    | End(x: ExecId, ok: bool)
    | SetActive(workflow: string, user: Option<string>)
    | CrashDelivery(c: Client)
    | CrashAdmission(a: AdmissionId)
    | NextHour

  predicate Unfinished(status: RunStatus) {
    status == Pending || status == Running
  }

  predicate IsInFlight(e: Exec, workflow: string) {
    e.workflow == workflow && Unfinished(e.status)
  }

  /** countInFlight */
  function InFlight(execs: map<ExecId, Exec>, workflow: string): set<ExecId> {
    set x | x in execs && IsInFlight(execs[x], workflow)
  }

  predicate IsPast(pc: AdmissionPc) {
    pc.Counted? || pc.Allowed?
  }

  predicate IsPastCheck(a: Admission, workflow: string) {
    a.workflow == workflow && IsPast(a.pc)
  }

  /** The admissions past the in-flight check that have not stored their run yet. */
  function PastCheck(admissions: map<AdmissionId, Admission>, workflow: string): set<AdmissionId> {
    set a | a in admissions && IsPastCheck(admissions[a], workflow)
  }

  /** The admissions that called consume for a user in an hour, in that order. */
  function Calls(consumed: map<(string, nat), seq<AdmissionId>>, user: string, hour: nat): seq<AdmissionId> {
    if (user, hour) in consumed then consumed[(user, hour)] else []
  }

  /** The run an admission has stored. */
  function ExecOf(pc: AdmissionPc): Option<ExecId> {
    match pc
    case Created(x) => Some(x)
    case NotStarted(x) => Some(x)
    case Marking(_, exec) => exec
    case Finished(_, exec, _) => exec
    case Gone(exec) => exec
    case _ => None
  }

  function MoveDelivery(s: State, c: Client, pc: DeliveryPc): State
    requires c in s.deliveries
  {
    s.(deliveries := s.deliveries[c := s.deliveries[c].(pc := pc)])
  }

  function MoveAdmission(s: State, a: AdmissionId, pc: AdmissionPc): State
    requires a in s.admissions
  {
    s.(admissions := s.admissions[a := s.admissions[a].(pc := pc)])
  }

  /** createEvent, for a key that has no row. */
  function InsertEvent(s: State, key: Key, id: nat, c: Client): State {
    s.(events := s.events[key := Event(id, Received, c)])
  }

  /** The hand-off of an event to a new admission. */
  function EnterAdmission(s: State, key: Key, a: AdmissionId): State {
    s.(admissions := s.admissions[a := Admission(key.workflow, Some(key), Entered)])
  }

  /** What the next statement of a delivery writes; `unused` is a new event id, or admission id. */
  function DeliveryWrites(s: State, c: Client, unused: nat): (s': State)
    requires c in s.deliveries
    ensures s'.deliveries == s.deliveries
  {
    var Delivery(key, pc) := s.deliveries[c];
    match pc
    case Inserting => if key in s.events then s else InsertEvent(s, key, unused, c)
    case HandingOff(_) => if unused in s.admissions then s else EnterAdmission(s, key, unused)
    case _ => s
  }

  /** Where the next statement of a delivery leads. */
  function DeliveryNext(s: State, c: Client, unused: nat): DeliveryPc
    requires c in s.deliveries
  {
    var Delivery(key, pc) := s.deliveries[c];
    match pc
    case Looking => if key in s.events then Duplicate(s.events[key].id) else Inserting
    case Inserting => if key in s.events then LookingAgain /* the unique violation */ else HandingOff(unused)
    case LookingAgain => if key in s.events then Duplicate(s.events[key].id) else pc
    case HandingOff(event) => if unused in s.admissions then pc else Accepted(event, unused)
    case _ => pc
  }

  function DeliveryStatement(s: State, c: Client, unused: nat): State
    requires c in s.deliveries
  {
    MoveDelivery(DeliveryWrites(s, c, unused), c, DeliveryNext(s, c, unused))
  }

  /** One call of consume, which counts even when it refuses. */
  function Consume(s: State, a: AdmissionId, user: string): State {
    s.(consumed := s.consumed[(user, s.hour) := Calls(s.consumed, user, s.hour) + [a]])
  }

  function InsertExecution(s: State, a: AdmissionId, x: ExecId, ticket: Ticket): State
    requires a in s.admissions
  {
    s.(execs := s.execs[x := Exec(s.admissions[a].workflow, a, ticket, Pending)])
  }

  function CreateExecution(s: State, a: AdmissionId, x: ExecId, ticket: Ticket): State
    requires a in s.admissions
  {
    MoveAdmission(InsertExecution(s, a, x, ticket), a, Created(x))
  }

  function SetStatus(s: State, x: ExecId, status: RunStatus): State
    requires x in s.execs
  {
    s.(execs := s.execs[x := s.execs[x].(status := status)])
  }

  function SetEventStatus(s: State, key: Key, status: EventStatus): State
    requires key in s.events
  {
    s.(events := s.events[key := s.events[key].(status := status)])
  }

  /** setEventStatus, when the admission is for an event and the statement succeeds. */
  function MarkEvent(s: State, a: AdmissionId, key: Key): State
    requires a in s.admissions && s.admissions[a].pc.Marking? && key in s.events
  {
    var Marking(status, exec) := s.admissions[a].pc;
    MoveAdmission(SetEventStatus(s, key, status), a, Finished(status, exec, true))
  }

  /**
   What the next statement of an admission writes; `unused` is a new execution id, `ok` whether an
   outside call succeeds.
   */
  function AdmissionWrites(s: State, a: AdmissionId, unused: ExecId, ok: bool): (s': State)
    requires a in s.admissions
    ensures s'.admissions == s.admissions && s'.deliveries == s.deliveries
  {
    var Admission(workflow, event, pc) := s.admissions[a];
    match pc
    case Counted(user) => Consume(s, a, user)
    case Allowed(ticket) => if unused in s.execs then s else InsertExecution(s, a, unused, ticket)
    case Created(x) => if ok || x !in s.execs then s else SetStatus(s, x, Failed)
    case Marking(status, exec) =>
      if ok && event.Some? && event.value in s.events then SetEventStatus(s, event.value, status) else s
    case _ => s
  }

  /** Where the next statement of an admission leads. */
  function AdmissionNext(s: State, a: AdmissionId, unused: ExecId, ok: bool): AdmissionPc
    requires a in s.admissions
  {
    var Admission(workflow, event, pc) := s.admissions[a];
    match pc
    case Entered => if workflow in s.active then Active(s.active[workflow]) else Marking(Skipped, None)
    case Active(user) =>
      if |InFlight(s.execs, workflow)| >= MAX_CONCURRENT_EXECUTIONS_PER_WORKFLOW
        then Marking(SkippedConcurrencyLimit, None)
      else Counted(user)
    case Counted(user) =>
      var used := |Calls(s.consumed, user, s.hour)| + 1;
      if used <= MAX_EXECUTIONS_PER_USER_PER_HOUR then Allowed(Ticket(user, s.hour, used))
      else Marking(SkippedRateLimit, None)
    case Allowed(ticket) => if unused in s.execs then pc else Created(unused)
    case Created(x) => if ok || x !in s.execs then Marking(Processed, Some(x)) else NotStarted(x)
    case Marking(status, exec) => Finished(status, exec, ok && event.Some? && event.value in s.events)
    case _ => pc
  }

  function AdmissionStatement(s: State, a: AdmissionId, unused: ExecId, ok: bool): State
    requires a in s.admissions
  {
    MoveAdmission(AdmissionWrites(s, a, unused, ok), a, AdmissionNext(s, a, unused, ok))
  }

  predicate IsOver(pc: AdmissionPc) {
    pc.Finished? || pc.NotStarted? || pc.Gone?
  }

  function CrashedDelivery(pc: DeliveryPc): DeliveryPc {
    match pc
    case HandingOff(event) => Dropped(event)
    case Accepted(_, _) => pc
    case Duplicate(_) => pc
    case Dropped(_) => pc
    case _ => Lost
  }

  function Apply(s: State, step: Step): State {
    match step
    case Deliver(c, key) =>
      if c in s.deliveries then s else s.(deliveries := s.deliveries[c := Delivery(key, Looking)])
    case AdvanceDelivery(c, unused) => if c in s.deliveries then DeliveryStatement(s, c, unused) else s
    case Admit(a, workflow) =>
      if a in s.admissions then s else s.(admissions := s.admissions[a := Admission(workflow, None, Entered)])
    case AdvanceAdmission(a, unused, ok) => if a in s.admissions then AdmissionStatement(s, a, unused, ok) else s
    case Begin(x) => if x in s.execs && s.execs[x].status == Pending then SetStatus(s, x, Running) else s
    case End(x, ok) =>
      if x in s.execs && Unfinished(s.execs[x].status)
      then SetStatus(s, x, if ok then Succeeded else Failed) else s
    case SetActive(workflow, user) =>
      s.(active := if user.Some? then s.active[workflow := user.value] else s.active - {workflow})
    case CrashDelivery(c) => if c in s.deliveries then MoveDelivery(s, c, CrashedDelivery(s.deliveries[c].pc)) else s
    case CrashAdmission(a) =>
      if a in s.admissions && !IsOver(s.admissions[a].pc) then MoveAdmission(s, a, Gone(ExecOf(s.admissions[a].pc)))
      else s
    case NextHour => s.(hour := s.hour + 1)
  }

  const INIT := State(map[], map[], map[], map[], map[], map[], 0)

  function Run(schedule: seq<Step>): State {
    if schedule == [] then INIT
    else Apply(Run(schedule[..|schedule| - 1]), schedule[|schedule| - 1])
  }

  lemma RunSnoc(schedule: seq<Step>, step: Step)
    ensures Run(schedule + [step]) == Apply(Run(schedule), step)
  {
    assert (schedule + [step])[..|schedule|] == schedule;
  }

  /* -------------------------------------------------------------- invariants */

  /** The delivery stored the event of its key. */
  predicate Stored(pc: DeliveryPc) {
    pc.HandingOff? || pc.Accepted? || pc.Dropped?
  }

  /** The delivery that stored an event is the one the event names; every other that answers reports that event. */
  ghost predicate DeliveriesValid(events: map<Key, Event>, deliveries: map<Client, Delivery>) {
    && (forall c :: c in deliveries && (Stored(deliveries[c].pc) || deliveries[c].pc.Duplicate?) ==>
          deliveries[c].key in events && deliveries[c].pc.event == events[deliveries[c].key].id)
    && (forall c :: c in deliveries && deliveries[c].pc.LookingAgain? ==> deliveries[c].key in events)
    && (forall c :: c in deliveries && Stored(deliveries[c].pc) ==> events[deliveries[c].key].storedBy == c)
    && (forall k :: k in events ==>
          events[k].storedBy in deliveries && deliveries[events[k].storedBy].key == k
            && Stored(deliveries[events[k].storedBy].pc))
  }

  /** The admission an event was handed to. */
  function Handler(events: map<Key, Event>, deliveries: map<Client, Delivery>, k: Key): Option<AdmissionId> {
    if k in events && events[k].storedBy in deliveries && deliveries[events[k].storedBy].pc.Accepted?
    then Some(deliveries[events[k].storedBy].pc.admission) else None
  }

  /** An admission is for an event just when the event was handed to it. */
  ghost predicate HandoffsValid(events: map<Key, Event>, deliveries: map<Client, Delivery>,
      admissions: map<AdmissionId, Admission>)
  {
    && (forall a, k :: a in admissions ==>
      (admissions[a].event == Some(k) <==> Handler(events, deliveries, k) == Some(a)))
    && (forall k :: Handler(events, deliveries, k).Some? ==>
          var a := Handler(events, deliveries, k).value;
          a in admissions && admissions[a].workflow == k.workflow)
  }

  /** What admission `handler` has marked its event with so far. */
  function MarkOf(admissions: map<AdmissionId, Admission>, handler: Option<AdmissionId>): EventStatus {
    if handler.Some? && handler.value in admissions && admissions[handler.value].pc.Finished?
       && admissions[handler.value].pc.marked
    then admissions[handler.value].pc.status else Received
  }

  /** An event's status is what its admission marked it with, and RECEIVED until then. */
  ghost predicate StatusesValid(events: map<Key, Event>, deliveries: map<Client, Delivery>,
      admissions: map<AdmissionId, Admission>)
  {
    forall k :: k in events ==> events[k].status == MarkOf(admissions, Handler(events, deliveries, k))
  }

  predicate OutcomeIs(status: EventStatus, exec: Option<ExecId>) {
    if status == Processed then exec.Some? else exec.None? && status != Received
  }

  /** Runs and the admissions that stored them know each other; an admission skips just when it stored none. */
  ghost predicate RunsValid(admissions: map<AdmissionId, Admission>, execs: map<ExecId, Exec>) {
    && (forall x :: x in execs ==>
          var a := execs[x].admission;
          a in admissions && execs[x].workflow == admissions[a].workflow && ExecOf(admissions[a].pc) == Some(x))
    && (forall a :: a in admissions && ExecOf(admissions[a].pc).Some? ==>
          var x := ExecOf(admissions[a].pc).value;
          x in execs && execs[x].admission == a)
    && (forall a :: a in admissions && (admissions[a].pc.Marking? || admissions[a].pc.Finished?) ==>
          OutcomeIs(admissions[a].pc.status, admissions[a].pc.exec))
  }

  /** Ticket t was given to admission a, by one of the first 100 calls of its hour. */
  ghost predicate Gave(consumed: map<(string, nat), seq<AdmissionId>>, t: Ticket, a: AdmissionId) {
    var calls := Calls(consumed, t.user, t.hour);
    1 <= t.number <= MAX_EXECUTIONS_PER_USER_PER_HOUR && t.number <= |calls| && calls[t.number - 1] == a
  }

  /** Runs, and admissions about to store one, hold a ticket the rate limiter gave to that admission. */
  ghost predicate TicketsValid(consumed: map<(string, nat), seq<AdmissionId>>, admissions: map<AdmissionId, Admission>,
      execs: map<ExecId, Exec>)
  {
    && (forall x :: x in execs ==> Gave(consumed, execs[x].ticket, execs[x].admission))
    && (forall a :: a in admissions && admissions[a].pc.Allowed? ==> Gave(consumed, admissions[a].pc.ticket, a))
  }

  ghost predicate Valid(s: State) {
    && DeliveriesValid(s.events, s.deliveries)
    && HandoffsValid(s.events, s.deliveries, s.admissions)
    && StatusesValid(s.events, s.deliveries, s.admissions)
    && RunsValid(s.admissions, s.execs)
    && TicketsValid(s.consumed, s.admissions, s.execs)
  }

  /* ---------------------------------------------- every step keeps the invariants */

  lemma DeliveriesAfterMove(events: map<Key, Event>, deliveries: map<Client, Delivery>, c: Client, pc: DeliveryPc)
    requires DeliveriesValid(events, deliveries) && c in deliveries
    requires Stored(pc) <==> Stored(deliveries[c].pc)
    requires Stored(pc) ==> pc.event == deliveries[c].pc.event
    requires pc.Duplicate? || pc.LookingAgain? ==> deliveries[c].key in events
    requires pc.Duplicate? ==> pc.event == events[deliveries[c].key].id
    ensures DeliveriesValid(events, deliveries[c := deliveries[c].(pc := pc)])
  {
  }

  lemma EventOfStored(events: map<Key, Event>, deliveries: map<Client, Delivery>, c: Client)
    requires DeliveriesValid(events, deliveries) && c in deliveries && Stored(deliveries[c].pc)
    ensures deliveries[c].key in events && deliveries[c].pc.event == events[deliveries[c].key].id
  {
  }

  lemma DeliveriesAfterStoring(events: map<Key, Event>, deliveries: map<Client, Delivery>, c: Client, id: nat)
    requires DeliveriesValid(events, deliveries) && c in deliveries
    requires !Stored(deliveries[c].pc) && deliveries[c].key !in events
    ensures DeliveriesValid(events[deliveries[c].key := Event(id, Received, c)],
                            deliveries[c := deliveries[c].(pc := HandingOff(id))])
  {
  }

  /** The handlers of events are all that matters to the admissions. */
  lemma SameHandlers(s: State, s': State)
    requires HandoffsValid(s.events, s.deliveries, s.admissions) && StatusesValid(s.events, s.deliveries, s.admissions)
    requires s'.admissions == s.admissions
    requires forall k :: Handler(s'.events, s'.deliveries, k) == Handler(s.events, s.deliveries, k)
    requires forall k :: k in s'.events ==>
      if k in s.events then s'.events[k].status == s.events[k].status
      else s'.events[k].status == Received && Handler(s'.events, s'.deliveries, k).None?
    ensures HandoffsValid(s'.events, s'.deliveries, s'.admissions)
      && StatusesValid(s'.events, s'.deliveries, s'.admissions)
  {
    hide Handler;
  }

  lemma DeliveryMoveKeepsValid(s: State, c: Client, pc: DeliveryPc)
    requires Valid(s) && c in s.deliveries && !s.deliveries[c].pc.Accepted? && !pc.Accepted?
    requires Stored(pc) <==> Stored(s.deliveries[c].pc)
    requires Stored(pc) ==> pc.event == s.deliveries[c].pc.event
    requires pc.Duplicate? || pc.LookingAgain? ==> s.deliveries[c].key in s.events
    requires pc.Duplicate? ==> pc.event == s.events[s.deliveries[c].key].id
    ensures Valid(MoveDelivery(s, c, pc))
  {
    hide DeliveriesValid, HandoffsValid, StatusesValid, RunsValid, TicketsValid;
    DeliveriesAfterMove(s.events, s.deliveries, c, pc);
    SameHandlers(s, MoveDelivery(s, c, pc));
  }

  lemma StoringKeepsValid(s: State, c: Client, id: nat)
    requires Valid(s) && c in s.deliveries && !Stored(s.deliveries[c].pc) && s.deliveries[c].key !in s.events
    ensures
      Valid(MoveDelivery(InsertEvent(s, s.deliveries[c].key, id, c), c, HandingOff(id)))
  {
    hide DeliveriesValid, HandoffsValid, StatusesValid, RunsValid, TicketsValid;
    DeliveriesAfterStoring(s.events, s.deliveries, c, id);
    SameHandlers(s, MoveDelivery(InsertEvent(s, s.deliveries[c].key, id, c), c, HandingOff(id)));
  }

  function HandOff(s: State, c: Client, a: AdmissionId): State
    requires c in s.deliveries && s.deliveries[c].pc.HandingOff?
  {
    var Delivery(key, pc) := s.deliveries[c];
    MoveDelivery(EnterAdmission(s, key, a), c, Accepted(pc.event, a))
  }

  /** A new admission has stored nothing and holds no ticket. */
  lemma EnteringKeepsRuns(consumed: map<(string, nat), seq<AdmissionId>>, admissions: map<AdmissionId, Admission>,
      execs: map<ExecId, Exec>, a: AdmissionId, admission: Admission)
    requires RunsValid(admissions, execs) && TicketsValid(consumed, admissions, execs)
    requires a !in admissions && admission.pc.Entered?
    ensures RunsValid(admissions[a := admission], execs) && TicketsValid(consumed, admissions[a := admission], execs)
  {
    hide Gave;
  }

  lemma HandlersAfterHandingOff(s: State, c: Client, a: AdmissionId)
    requires DeliveriesValid(s.events, s.deliveries) && c in s.deliveries && s.deliveries[c].pc.HandingOff?
    ensures
      var s' := HandOff(s, c, a);
      forall k :: Handler(s'.events, s'.deliveries, k) ==
        if k == s.deliveries[c].key then Some(a) else Handler(s.events, s.deliveries, k)
    ensures Handler(s.events, s.deliveries, s.deliveries[c].key).None?
  {
  }

  lemma AdmissionsAfterHandingOff(s: State, c: Client, a: AdmissionId)
    requires HandoffsValid(s.events, s.deliveries, s.admissions) && StatusesValid(s.events, s.deliveries, s.admissions)
    requires c in s.deliveries && s.deliveries[c].pc.HandingOff? && a !in s.admissions
    requires
      var s' := HandOff(s, c, a);
      forall k :: Handler(s'.events, s'.deliveries, k) ==
        if k == s.deliveries[c].key then Some(a) else Handler(s.events, s.deliveries, k)
    requires Handler(s.events, s.deliveries, s.deliveries[c].key).None?
    ensures
      var s' := HandOff(s, c, a);
      HandoffsValid(s'.events, s'.deliveries, s'.admissions) && StatusesValid(s'.events, s'.deliveries, s'.admissions)
  {
    hide Handler;
  }

  lemma HandingOffKeepsValid(s: State, c: Client, a: AdmissionId)
    requires Valid(s) && c in s.deliveries && s.deliveries[c].pc.HandingOff? && a !in s.admissions
    ensures Valid(HandOff(s, c, a))
  {
    hide DeliveriesValid, HandoffsValid, StatusesValid, RunsValid, TicketsValid;
    var Delivery(key, pc) := s.deliveries[c];
    EventOfStored(s.events, s.deliveries, c);
    DeliveriesAfterMove(s.events, s.deliveries, c, Accepted(pc.event, a));
    HandlersAfterHandingOff(s, c, a);
    AdmissionsAfterHandingOff(s, c, a);
    EnteringKeepsRuns(s.consumed, s.admissions, s.execs, a, Admission(key.workflow, Some(key), Entered));
  }

  lemma DirectAdmissionKeepsValid(s: State, a: AdmissionId, workflow: string)
    requires Valid(s) && a !in s.admissions
    ensures Valid(s.(admissions := s.admissions[a := Admission(workflow, None, Entered)]))
  {
    hide DeliveriesValid, Handler, RunsValid, TicketsValid;
    EnteringKeepsRuns(s.consumed, s.admissions, s.execs, a, Admission(workflow, None, Entered));
  }

  lemma DeliveriesAfterDeliver(events: map<Key, Event>, deliveries: map<Client, Delivery>, c: Client, key: Key)
    requires DeliveriesValid(events, deliveries) && c !in deliveries
    ensures
      var deliveries' := deliveries[c := Delivery(key, Looking)];
      && DeliveriesValid(events, deliveries')
      && forall k :: Handler(events, deliveries', k) == Handler(events, deliveries, k)
  {
  }

  lemma DeliverKeepsValid(s: State, c: Client, key: Key)
    requires Valid(s) && c !in s.deliveries
    ensures Valid(s.(deliveries := s.deliveries[c := Delivery(key, Looking)]))
  {
    hide DeliveriesValid, HandoffsValid, StatusesValid, RunsValid, TicketsValid, Handler;
    DeliveriesAfterDeliver(s.events, s.deliveries, c, key);
    SameHandlers(s, s.(deliveries := s.deliveries[c := Delivery(key, Looking)]));
  }

  /** A step of an admission that does not mark an event changes nothing for the events. */
  lemma UnmarkedKeepsEvents(events: map<Key, Event>, deliveries: map<Client, Delivery>,
      admissions: map<AdmissionId, Admission>, a: AdmissionId, pc: AdmissionPc)
    requires HandoffsValid(events, deliveries, admissions) && StatusesValid(events, deliveries, admissions)
    requires a in admissions && !admissions[a].pc.Finished? && (pc.Finished? ==> !pc.marked)
    ensures
      var admissions' := admissions[a := admissions[a].(pc := pc)];
      HandoffsValid(events, deliveries, admissions') && StatusesValid(events, deliveries, admissions')
  {
    hide Handler;
  }

  lemma MoveKeepsRuns(admissions: map<AdmissionId, Admission>, execs: map<ExecId, Exec>, a: AdmissionId,
      pc: AdmissionPc)
    requires RunsValid(admissions, execs) && a in admissions && ExecOf(pc) == ExecOf(admissions[a].pc)
    requires pc.Marking? || pc.Finished? ==> OutcomeIs(pc.status, pc.exec)
    ensures RunsValid(admissions[a := admissions[a].(pc := pc)], execs)
  {
    hide ExecOf, OutcomeIs;
  }

  /** A step of an admission that neither stores a run, nor marks an event, nor gets a ticket. */
  lemma AdmissionMoveKeepsValid(s: State, a: AdmissionId, pc: AdmissionPc)
    requires Valid(s) && a in s.admissions && !s.admissions[a].pc.Finished?
    requires pc.Allowed? ==> Gave(s.consumed, pc.ticket, a)
    requires ExecOf(pc) == ExecOf(s.admissions[a].pc)
    requires pc.Marking? || pc.Finished? ==> OutcomeIs(pc.status, pc.exec)
    requires pc.Finished? ==> !pc.marked
    ensures Valid(MoveAdmission(s, a, pc))
  {
    hide DeliveriesValid, HandoffsValid, StatusesValid, RunsValid, Gave, ExecOf, OutcomeIs;
    UnmarkedKeepsEvents(s.events, s.deliveries, s.admissions, a, pc);
    MoveKeepsRuns(s.admissions, s.execs, a, pc);
  }

  lemma ConsumingKeepsValid(s: State, a: AdmissionId, user: string)
    requires Valid(s)
    ensures Valid(Consume(s, a, user))
    ensures
      var used := |Calls(s.consumed, user, s.hour)| + 1;
      used <= MAX_EXECUTIONS_PER_USER_PER_HOUR ==> Gave(Consume(s, a, user).consumed, Ticket(user, s.hour, used), a)
  {
    hide DeliveriesValid, HandoffsValid, StatusesValid, RunsValid;
    assert forall t, b :: Gave(s.consumed, t, b) ==> Gave(Consume(s, a, user).consumed, t, b);
  }

  lemma RunsAfterCreating(consumed: map<(string, nat), seq<AdmissionId>>, admissions: map<AdmissionId, Admission>,
      execs: map<ExecId, Exec>, a: AdmissionId, x: ExecId)
    requires RunsValid(admissions, execs) && TicketsValid(consumed, admissions, execs)
    requires a in admissions && admissions[a].pc.Allowed? && x !in execs
    ensures
      var admissions' := admissions[a := admissions[a].(pc := Created(x))];
      var execs' := execs[x := Exec(admissions[a].workflow, a, admissions[a].pc.ticket, Pending)];
      RunsValid(admissions', execs') && TicketsValid(consumed, admissions', execs')
  {
    hide Gave, OutcomeIs;
  }

  lemma CreatingKeepsValid(s: State, a: AdmissionId, x: ExecId)
    requires Valid(s) && a in s.admissions && s.admissions[a].pc.Allowed? && x !in s.execs
    ensures Valid(CreateExecution(s, a, x, s.admissions[a].pc.ticket))
  {
    hide DeliveriesValid, HandoffsValid, StatusesValid, RunsValid, TicketsValid;
    UnmarkedKeepsEvents(s.events, s.deliveries, s.admissions, a, Created(x));
    RunsAfterCreating(s.consumed, s.admissions, s.execs, a, x);
  }

  lemma StatusKeepsValid(s: State, x: ExecId, status: RunStatus)
    requires Valid(s) && x in s.execs
    ensures Valid(SetStatus(s, x, status))
  {
    hide DeliveriesValid, HandoffsValid, StatusesValid, ExecOf, Gave, OutcomeIs;
  }

  lemma DeliveriesAfterMarking(events: map<Key, Event>, deliveries: map<Client, Delivery>, key: Key,
      status: EventStatus)
    requires DeliveriesValid(events, deliveries) && key in events
    ensures
      var events' := events[key := events[key].(status := status)];
      && DeliveriesValid(events', deliveries)
      && forall k :: Handler(events', deliveries, k) == Handler(events, deliveries, k)
  {
  }

  lemma StatusesAfterMarking(s: State, a: AdmissionId, key: Key)
    requires HandoffsValid(s.events, s.deliveries, s.admissions) && StatusesValid(s.events, s.deliveries, s.admissions)
    requires a in s.admissions && s.admissions[a].pc.Marking? && s.admissions[a].event == Some(key)
    requires key in s.events
    requires
      var s' := MarkEvent(s, a, key);
      forall k :: Handler(s'.events, s'.deliveries, k) == Handler(s.events, s.deliveries, k)
    ensures
      var s' := MarkEvent(s, a, key);
      HandoffsValid(s'.events, s'.deliveries, s'.admissions) && StatusesValid(s'.events, s'.deliveries, s'.admissions)
  {
    hide Handler;
  }

  lemma MarkingKeepsValid(s: State, a: AdmissionId, key: Key)
    requires Valid(s) && a in s.admissions && s.admissions[a].pc.Marking? && s.admissions[a].event == Some(key)
    requires key in s.events
    ensures Valid(MarkEvent(s, a, key))
  {
    hide DeliveriesValid, HandoffsValid, StatusesValid, RunsValid, Gave, Handler;
    var Marking(status, exec) := s.admissions[a].pc;
    assert OutcomeIs(status, exec) by { OutcomeOfMarking(s, a); }
    DeliveriesAfterMarking(s.events, s.deliveries, key, status);
    StatusesAfterMarking(s, a, key);
    MoveKeepsRuns(s.admissions, s.execs, a, Finished(status, exec, true));
  }

  lemma OutcomeOfMarking(s: State, a: AdmissionId)
    requires Valid(s) && a in s.admissions && s.admissions[a].pc.Marking?
    ensures OutcomeIs(s.admissions[a].pc.status, s.admissions[a].pc.exec)
  {
  }

  lemma DeliveryStepKeepsValid(s: State, c: Client, unused: nat)
    requires Valid(s) && c in s.deliveries
    ensures Valid(DeliveryStatement(s, c, unused))
  {
    hide DeliveriesValid, HandoffsValid, StatusesValid, RunsValid, TicketsValid, Valid;
    var Delivery(key, pc) := s.deliveries[c];
    assert s.deliveries[c := s.deliveries[c]] == s.deliveries;
    match pc
    case Looking => DeliveryMoveKeepsValid(s, c, if key in s.events then Duplicate(s.events[key].id) else Inserting);
    case Inserting =>
      if key in s.events { DeliveryMoveKeepsValid(s, c, LookingAgain); } else { StoringKeepsValid(s, c, unused); }
    case LookingAgain => if key in s.events { DeliveryMoveKeepsValid(s, c, Duplicate(s.events[key].id)); }
    case HandingOff(event) => if unused !in s.admissions { HandingOffKeepsValid(s, c, unused); }
    case _ =>
  }

  lemma AdmissionStepKeepsValid(s: State, a: AdmissionId, unused: ExecId, ok: bool)
    requires Valid(s) && a in s.admissions
    ensures Valid(AdmissionStatement(s, a, unused, ok))
  {
    hide DeliveriesValid, HandoffsValid, StatusesValid, RunsValid, TicketsValid, Valid, Gave, InFlight;
    var Admission(workflow, event, pc) := s.admissions[a];
    assert s.admissions[a := s.admissions[a]] == s.admissions;
    match pc
    case Entered => AdmissionMoveKeepsValid(s, a, AdmissionNext(s, a, unused, ok));
    case Active(user) => AdmissionMoveKeepsValid(s, a, AdmissionNext(s, a, unused, ok));
    case Counted(user) =>
      ConsumingKeepsValid(s, a, user);
      AdmissionMoveKeepsValid(Consume(s, a, user), a, AdmissionNext(s, a, unused, ok));
    case Allowed(ticket) => if unused !in s.execs { CreatingKeepsValid(s, a, unused); }
    case Created(x) =>
      if ok || x !in s.execs {
        AdmissionMoveKeepsValid(s, a, Marking(Processed, Some(x)));
      } else {
        StatusKeepsValid(s, x, Failed);
        AdmissionMoveKeepsValid(SetStatus(s, x, Failed), a, NotStarted(x));
      }
    case Marking(status, exec) =>
      assert OutcomeIs(status, exec) by { OutcomeOfMarking(s, a); }
      if ok && event.Some? && event.value in s.events {
        MarkingKeepsValid(s, a, event.value);
      } else {
        AdmissionMoveKeepsValid(s, a, Finished(status, exec, false));
      }
    case _ =>
  }

  lemma CrashKeepsValid(s: State, c: Client)
    requires Valid(s) && c in s.deliveries
    ensures Valid(MoveDelivery(s, c, CrashedDelivery(s.deliveries[c].pc)))
  {
    hide DeliveriesValid, HandoffsValid, StatusesValid, RunsValid, TicketsValid, Valid;
    var pc := s.deliveries[c].pc;
    if pc.Accepted? || pc.Duplicate? {
      assert s.deliveries[c := s.deliveries[c].(pc := pc)] == s.deliveries;
    } else {
      DeliveryMoveKeepsValid(s, c, CrashedDelivery(pc));
    }
  }

  lemma StepKeepsValid(s: State, step: Step)
    requires Valid(s)
    ensures Valid(Apply(s, step))
  {
    hide DeliveriesValid, HandoffsValid, StatusesValid, RunsValid, TicketsValid, DeliveryStatement, AdmissionStatement;
    match step
    case Deliver(c, key) => if c !in s.deliveries { DeliverKeepsValid(s, c, key); }
    case AdvanceDelivery(c, unused) => if c in s.deliveries { DeliveryStepKeepsValid(s, c, unused); }
    case Admit(a, workflow) => if a !in s.admissions { DirectAdmissionKeepsValid(s, a, workflow); }
    case AdvanceAdmission(a, unused, ok) => if a in s.admissions { AdmissionStepKeepsValid(s, a, unused, ok); }
    case Begin(x) => if x in s.execs { StatusKeepsValid(s, x, Running); }
    case End(x, ok) => if x in s.execs { StatusKeepsValid(s, x, if ok then Succeeded else Failed); }
    case CrashDelivery(c) => if c in s.deliveries { CrashKeepsValid(s, c); }
    case CrashAdmission(a) =>
      if a in s.admissions && !IsOver(s.admissions[a].pc) {
        AdmissionMoveKeepsValid(s, a, Gone(ExecOf(s.admissions[a].pc)));
      }
    case _ =>
  }

  lemma {:induction false} RunIsValid(schedule: seq<Step>)
    ensures Valid(Run(schedule))
  {
    if schedule != [] {
      RunIsValid(schedule[..|schedule| - 1]);
      StepKeepsValid(Run(schedule[..|schedule| - 1]), schedule[|schedule| - 1]);
    }
  }

  /* -------------------------------------------------- webhooks: exactly once */

  /** The runs started for an event. */
  function RunsOf(s: State, k: Key): set<ExecId> {
    set x | x in s.execs && s.execs[x].admission in s.admissions && s.admissions[s.execs[x].admission].event == Some(k)
  }

  /**
   Of all deliveries with one workflow and key, however they interleave, exactly
   one stored the event, and every other that was answered was told that event.
   */
  lemma OneDeliveryStores(schedule: seq<Step>, k: Key)
    requires k in Run(schedule).events
    ensures
      var s := Run(schedule);
      var winner := s.events[k].storedBy;
      && winner in s.deliveries && s.deliveries[winner].key == k
      && (forall c :: c in s.deliveries && s.deliveries[c].key == k ==>
            && (Stored(s.deliveries[c].pc) <==> c == winner)
            && (s.deliveries[c].pc.Duplicate? ==> s.deliveries[c].pc.event == s.events[k].id))
  {
    hide HandoffsValid, StatusesValid, RunsValid, TicketsValid;
    RunIsValid(schedule);
  }

  lemma OneAdmission(s: State, k: Key, a: AdmissionId, b: AdmissionId)
    requires Valid(s) && a in s.admissions && b in s.admissions
    requires s.admissions[a].event == Some(k) && s.admissions[b].event == Some(k)
    ensures a == b && k in s.events && Handler(s.events, s.deliveries, k) == Some(a)
  {
    hide DeliveriesValid, StatusesValid, RunsValid, TicketsValid;
    assert Handler(s.events, s.deliveries, k) == Some(a) && Handler(s.events, s.deliveries, k) == Some(b);
  }

  lemma RunsOfAdmission(s: State, k: Key, a: AdmissionId)
    requires Valid(s) && a in s.admissions && s.admissions[a].event == Some(k)
    ensures RunsOf(s, k) == match ExecOf(s.admissions[a].pc) case Some(x) => {x} case None => {}
  {
    hide DeliveriesValid, HandoffsValid, StatusesValid, TicketsValid, ExecOf, Handler, OutcomeIs;
    forall x | x in RunsOf(s, k) ensures ExecOf(s.admissions[a].pc) == Some(x) {
      assert s.admissions[s.execs[x].admission].event == Some(k);
      OneAdmission(s, k, a, s.execs[x].admission);
    }
  }

  /** An event is admitted at most once, and starts at most one run. */
  lemma AtMostOneRun(schedule: seq<Step>, k: Key)
    ensures
      var s := Run(schedule);
      && (forall a, b :: (a in s.admissions && b in s.admissions && s.admissions[a].event == Some(k)
            && s.admissions[b].event == Some(k)) ==> a == b)
      && |RunsOf(s, k)| <= 1
  {
    hide Valid, Apply;
    var s := Run(schedule);
    RunIsValid(schedule);
    forall a, b | a in s.admissions && b in s.admissions && s.admissions[a].event == Some(k)
      && s.admissions[b].event == Some(k)
      ensures a == b
    {
      OneAdmission(s, k, a, b);
    }
    if x :| x in RunsOf(s, k) {
      RunsOfAdmission(s, k, s.execs[x].admission);
    }
  }

  predicate HasMarked(s: State, a: AdmissionId, k: Key) {
    a in s.admissions && s.admissions[a].event == Some(k) && s.admissions[a].pc.Finished? && s.admissions[a].pc.marked
  }

  lemma StatusByAdmission(s: State, k: Key, a: AdmissionId)
    requires Valid(s) && a in s.admissions && s.admissions[a].event == Some(k)
    ensures k in s.events && s.events[k].status == if HasMarked(s, a, k) then s.admissions[a].pc.status else Received
    ensures HasMarked(s, a, k) ==> OutcomeIs(s.admissions[a].pc.status, s.admissions[a].pc.exec)
  {
    hide DeliveriesValid, TicketsValid, Handler, OutcomeIs;
    OneAdmission(s, k, a, a);
  }

  lemma StatusWithoutAdmission(s: State, k: Key)
    requires Valid(s) && k in s.events && forall a :: a in s.admissions ==> s.admissions[a].event != Some(k)
    ensures s.events[k].status == Received
  {
    hide DeliveriesValid, TicketsValid, RunsValid, Handler;
  }

  /**
   What an event's status tells. It is RECEIVED until its admission marks it;
   then it is PROCESSED if and only if exactly one run exists for it, and
   otherwise one of the SKIPPED states, with no run.
   */
  lemma StatusTells(schedule: seq<Step>, k: Key)
    requires k in Run(schedule).events
    ensures
      var s := Run(schedule);
      var status := s.events[k].status;
      && (status != Received <==> exists a :: HasMarked(s, a, k))
      && (status == Processed ==> |RunsOf(s, k)| == 1)
      && (status != Processed && status != Received ==> RunsOf(s, k) == {})
  {
    hide Valid, Apply, RunsOf;
    var s := Run(schedule);
    RunIsValid(schedule);
    if a :| a in s.admissions && s.admissions[a].event == Some(k) {
      StatusByAdmission(s, k, a);
      RunsOfAdmission(s, k, a);
      forall b | HasMarked(s, b, k) ensures b == a { OneAdmission(s, k, a, b); }
    } else {
      StatusWithoutAdmission(s, k);
    }
  }

  lemma DroppedHasNoHandler(s: State, c: Client)
    requires Valid(s) && c in s.deliveries && s.deliveries[c].pc.Dropped?
    ensures s.deliveries[c].key in s.events
    ensures forall a :: a in s.admissions ==> s.admissions[a].event != Some(s.deliveries[c].key)
  {
    hide StatusesValid, RunsValid, TicketsValid;
  }

  lemma {:induction false} DroppedStaysDropped(schedule: seq<Step>, more: seq<Step>, c: Client)
    requires c in Run(schedule).deliveries && Run(schedule).deliveries[c].pc.Dropped?
    ensures c in Run(schedule + more).deliveries
    ensures Run(schedule + more).deliveries[c] == Run(schedule).deliveries[c]
    decreases |more|
  {
    if more == [] {
      assert schedule + more == schedule;
    } else {
      hide Apply, Run;
      var init, last := more[..|more| - 1], more[|more| - 1];
      DroppedStaysDropped(schedule, init, c);
      RunSnoc(schedule + init, last);
      assert schedule + init + [last] == schedule + more;
      StepLeavesDropped(Run(schedule + init), last, c);
    }
  }

  lemma StepLeavesDropped(s: State, step: Step, c: Client)
    requires c in s.deliveries && s.deliveries[c].pc.Dropped?
    ensures c in Apply(s, step).deliveries && Apply(s, step).deliveries[c] == s.deliveries[c]
  {
    if step == CrashDelivery(c) || (step.AdvanceDelivery? && step.c == c) {
    } else {
      OthersLeaveDelivery(s, step, c);
    }
  }

  /**
   What a crash between storing an event and handing it over costs: the event stays
   RECEIVED and no run is ever started for it, whatever else is delivered, also for the same
   key: that is answered as a duplicate.
   */
  lemma DroppedEventIsForgotten(schedule: seq<Step>, more: seq<Step>, c: Client)
    requires c in Run(schedule).deliveries && Run(schedule).deliveries[c].pc.HandingOff?
    ensures
      var k := Run(schedule).deliveries[c].key;
      var s := Run(schedule + [CrashDelivery(c)] + more);
      k in s.events && s.events[k].status == Received && RunsOf(s, k) == {}
  {
    hide Apply, Valid;
    var crashed := schedule + [CrashDelivery(c)];
    RunSnoc(schedule, CrashDelivery(c));
    CrashDrops(Run(schedule), c);
    DroppedStaysDropped(crashed, more, c);
    RunIsValid(crashed + more);
    DroppedHasNoHandler(Run(crashed + more), c);
    StatusWithoutAdmission(Run(crashed + more), Run(schedule).deliveries[c].key);
  }

  lemma CrashDrops(s: State, c: Client)
    requires c in s.deliveries && s.deliveries[c].pc.HandingOff?
    ensures
      var s' := Apply(s, CrashDelivery(c));
      c in s'.deliveries && s'.deliveries[c] == Delivery(s.deliveries[c].key, Dropped(s.deliveries[c].pc.event))
  {
  }

  /* --------------------------------------------------------- the hourly limit */

  /** The runs admitted by calls of consume for this user in this hour. */
  function RunsInHour(execs: map<ExecId, Exec>, user: string, hour: nat): set<ExecId> {
    set x | x in execs && execs[x].ticket.user == user && execs[x].ticket.hour == hour
  }

  lemma {:induction false} AtMostN(execs: map<ExecId, Exec>, xs: set<ExecId>, n: nat)
    requires forall x :: x in xs ==> x in execs && 1 <= execs[x].ticket.number <= n
    requires forall x, y :: x in xs && y in xs && execs[x].ticket.number == execs[y].ticket.number ==> x == y
    ensures |xs| <= n
  {
    if n == 0 {
      assert xs == {};
    } else if x :| x in xs && execs[x].ticket.number == n {
      AtMostN(execs, xs - {x}, n - 1);
    } else {
      AtMostN(execs, xs, n - 1);
    }
  }

  /** Runs and tickets: no two runs were admitted by one call of consume. */
  lemma OneRunPerTicket(s: State, x: ExecId, y: ExecId)
    requires Valid(s) && x in s.execs && y in s.execs && s.execs[x].ticket == s.execs[y].ticket
    ensures x == y
  {
    hide DeliveriesValid, HandoffsValid, StatusesValid;
    assert Gave(s.consumed, s.execs[x].ticket, s.execs[x].admission);
    assert Gave(s.consumed, s.execs[y].ticket, s.execs[y].admission);
    assert ExecOf(s.admissions[s.execs[x].admission].pc) == Some(x);
    assert ExecOf(s.admissions[s.execs[y].admission].pc) == Some(y);
  }

  lemma TicketNumbers(s: State, x: ExecId)
    requires Valid(s) && x in s.execs
    ensures 1 <= s.execs[x].ticket.number <= MAX_EXECUTIONS_PER_USER_PER_HOUR
  {
    hide DeliveriesValid, HandoffsValid, StatusesValid, RunsValid;
    assert Gave(s.consumed, s.execs[x].ticket, s.execs[x].admission);
  }

  /** However admissions race, one user's calls of consume in one hour start at most a hundred runs. */
  lemma HourlyBound(schedule: seq<Step>, user: string, hour: nat)
    ensures |RunsInHour(Run(schedule).execs, user, hour)| <= 100
  {
    hide Valid, Apply;
    var s := Run(schedule);
    RunIsValid(schedule);
    var xs := RunsInHour(s.execs, user, hour);
    forall x | x in xs ensures 1 <= s.execs[x].ticket.number <= MAX_EXECUTIONS_PER_USER_PER_HOUR {
      TicketNumbers(s, x);
    }
    forall x, y | x in xs && y in xs && s.execs[x].ticket.number == s.execs[y].ticket.number ensures x == y {
      OneRunPerTicket(s, x, y);
    }
    AtMostN(s.execs, xs, MAX_EXECUTIONS_PER_USER_PER_HOUR);
  }

  /** No call was counted for an hour that has not begun. */
  ghost predicate NoneAhead(s: State) {
    forall user, hour :: (user, hour) in s.consumed ==> hour <= s.hour
  }

  lemma StepKeepsNoneAhead(s: State, step: Step)
    requires NoneAhead(s)
    ensures NoneAhead(Apply(s, step))
  {
    hide AdmissionNext, DeliveryNext, InFlight;
  }

  lemma {:induction false} RunHasNoneAhead(schedule: seq<Step>)
    ensures NoneAhead(Run(schedule))
  {
    if schedule != [] {
      hide Apply;
      RunHasNoneAhead(schedule[..|schedule| - 1]);
      StepKeepsNoneAhead(Run(schedule[..|schedule| - 1]), schedule[|schedule| - 1]);
    }
  }

  /** With each hour the count starts again, for every user; nothing else changes. */
  lemma FreshHour(schedule: seq<Step>, user: string)
    ensures
      var s, s' := Run(schedule), Run(schedule + [NextHour]);
      && s' == s.(hour := s'.hour) && s'.hour == s.hour + 1
      && (user, s'.hour) !in s'.consumed
  {
    RunSnoc(schedule, NextHour);
    RunHasNoneAhead(schedule);
  }

  /** A run counts as in flight from its start to its end, and then no more; nothing else changes. */
  lemma RunTakesItsCourse(s: State, x: ExecId, ok: bool)
    requires x in s.execs && s.execs[x].status == Pending
    ensures
      var begun := Apply(s, Begin(x));
      var ended := Apply(begun, End(x, ok));
      && begun == s.(execs := s.execs[x := s.execs[x].(status := Running)])
      && ended == s.(execs := s.execs[x := s.execs[x].(status := if ok then Succeeded else Failed)])
      && InFlight(begun.execs, s.execs[x].workflow) == InFlight(s.execs, s.execs[x].workflow)
      && InFlight(ended.execs, s.execs[x].workflow) == InFlight(s.execs, s.execs[x].workflow) - {x}
  {
    var begun := Apply(s, Begin(x));
    var ended := Apply(begun, End(x, ok));
    assert ended.execs == s.execs[x := s.execs[x].(status := if ok then Succeeded else Failed)];
  }

  /* ------------------------------------------------------------- the handlers */

  /** `after` keeps every entry of `before`, but perhaps that of k. */
  ghost predicate KeepsAllBut<V(!new)>(before: map<nat, V>, after: map<nat, V>, k: nat) {
    forall j :: j in before && j != k ==> j in after && after[j] == before[j]
  }

  lemma UpdateKeeps<V(!new)>(m: map<nat, V>, k: nat, v: V)
    ensures KeepsAllBut(m, m[k := v], k) && KeepsAllBut(m, m, k)
  {
  }

  lemma DeliveryFrame(s: State, d: Client, unused: nat)
    requires d in s.deliveries
    ensures KeepsAllBut(s.deliveries, DeliveryStatement(s, d, unused).deliveries, d)
    ensures
      var admissions := DeliveryStatement(s, d, unused).admissions;
      admissions == s.admissions || (unused !in s.admissions && KeepsAllBut(s.admissions, admissions, unused))
  {
    hide KeepsAllBut, DeliveryNext;
    var Delivery(key, pc) := s.deliveries[d];
    UpdateKeeps(s.deliveries, d, Delivery(key, DeliveryNext(s, d, unused)));
    UpdateKeeps(s.admissions, unused, Admission(key.workflow, Some(key), Entered));
  }

  lemma AdmissionFrame(s: State, b: AdmissionId, unused: ExecId, ok: bool)
    requires b in s.admissions
    ensures
      var s' := AdmissionStatement(s, b, unused, ok);
      s'.deliveries == s.deliveries && KeepsAllBut(s.admissions, s'.admissions, b)
  {
    hide KeepsAllBut, AdmissionWrites, AdmissionNext;
    UpdateKeeps(s.admissions, b, s.admissions[b].(pc := AdmissionNext(s, b, unused, ok)));
  }

  lemma OthersLeaveDelivery(s: State, step: Step, c: Client)
    requires c in s.deliveries && step != CrashDelivery(c) && !(step.AdvanceDelivery? && step.c == c)
    ensures c in Apply(s, step).deliveries && Apply(s, step).deliveries[c] == s.deliveries[c]
  {
    hide DeliveryStatement, AdmissionStatement, CrashedDelivery;
    if step.AdvanceDelivery? && step.c in s.deliveries { DeliveryFrame(s, step.c, step.unused); }
    if step.AdvanceAdmission? && step.a in s.admissions { AdmissionFrame(s, step.a, step.unused, step.ok); }
  }

  lemma OthersLeaveAdmission(s: State, step: Step, a: AdmissionId)
    requires a in s.admissions && step != CrashAdmission(a) && !(step.AdvanceAdmission? && step.a == a)
    ensures a in Apply(s, step).admissions && Apply(s, step).admissions[a] == s.admissions[a]
  {
    hide DeliveryStatement, AdmissionStatement, CrashedDelivery, ExecOf;
    if step.AdvanceDelivery? && step.c in s.deliveries { DeliveryFrame(s, step.c, step.unused); }
    if step.AdvanceAdmission? && step.a in s.admissions { AdmissionFrame(s, step.a, step.unused, step.ok); }
  }

  /** What an answered delivery knows. */
  lemma DeliveryKnows(s: State, c: Client)
    requires Valid(s) && c in s.deliveries && (Stored(s.deliveries[c].pc) || s.deliveries[c].pc.Duplicate?)
    ensures
      var Delivery(key, pc) := s.deliveries[c];
      key in s.events && pc.event == s.events[key].id && (Stored(pc) <==> s.events[key].storedBy == c)
  {
    hide HandoffsValid, StatusesValid, RunsValid, TicketsValid;
  }

  lemma LoserFinds(s: State, c: Client)
    requires Valid(s) && c in s.deliveries && s.deliveries[c].pc.LookingAgain?
    ensures s.deliveries[c].key in s.events
  {
    hide HandoffsValid, StatusesValid, RunsValid, TicketsValid;
  }

  /** Where a statement of an admission leads, from a valid state. */
  ghost predicate Follows(event: Option<Key>, pc: AdmissionPc, next: AdmissionPc, unused: ExecId, ok: bool) {
    match pc
    case Entered => next.Active? || next == Marking(Skipped, None)
    case Active(user) => next == Counted(user) || next == Marking(SkippedConcurrencyLimit, None)
    case Counted(user) => next.Allowed? || next == Marking(SkippedRateLimit, None)
    case Allowed(_) => next == pc || next == Created(unused)
    case Created(x) => next == if ok then Marking(Processed, Some(x)) else NotStarted(x)
    case Marking(status, exec) => next == Finished(status, exec, ok && event.Some?)
    case _ => next == pc
  }

  lemma AdmissionFollows(s: State, a: AdmissionId, unused: ExecId, ok: bool)
    requires Valid(s) && a in s.admissions
    ensures
      var Admission(workflow, event, pc) := s.admissions[a];
      Follows(event, pc, AdmissionNext(s, a, unused, ok), unused, ok)
  {
    hide Valid, InFlight, Calls;
    AdmissionKnows(s, a);
  }

  /** Storing a run waits only for an unused id; a run whose instance could not be started ends FAILED. */
  lemma RunsFollow(s: State, a: AdmissionId, unused: ExecId, ok: bool)
    requires Valid(s) && a in s.admissions
    ensures
      var next, execs := AdmissionNext(s, a, unused, ok), AdmissionStatement(s, a, unused, ok).execs;
      && (next.Allowed? && s.admissions[a].pc.Allowed? ==> unused in execs)
      && (next.NotStarted? && s.admissions[a].pc.Created? ==> next.run in execs && execs[next.run].status == Failed)
  {
    hide Valid, InFlight, Calls;
  }

  lemma AdmissionKnows(s: State, a: AdmissionId)
    requires Valid(s) && a in s.admissions
    ensures s.admissions[a].pc.Created? ==> s.admissions[a].pc.run in s.execs
    ensures s.admissions[a].event.Some? ==> s.admissions[a].event.value in s.events
  {
    hide DeliveriesValid, StatusesValid, TicketsValid;
    if s.admissions[a].pc.Created? { assert ExecOf(s.admissions[a].pc) == Some(s.admissions[a].pc.run); }
    if s.admissions[a].event.Some? {
      assert Handler(s.events, s.deliveries, s.admissions[a].event.value) == Some(a);
    }
  }

  /** What a finished admission has done. */
  ghost predicate Settled(s: State, a: AdmissionId) {
    && a in s.admissions && s.admissions[a].pc.Finished?
    && var Finished(status, exec, marked) := s.admissions[a].pc;
    && OutcomeIs(status, exec)
    && (exec.Some? ==> exec.value in s.execs && s.execs[exec.value].admission == a)
    && (marked && s.admissions[a].event.Some? ==>
          s.admissions[a].event.value in s.events && s.events[s.admissions[a].event.value].status == status)
  }

  lemma FinishedIsSettled(s: State, a: AdmissionId)
    requires Valid(s) && a in s.admissions && s.admissions[a].pc.Finished?
    ensures Settled(s, a)
  {
    hide DeliveriesValid, HandoffsValid, StatusesValid, TicketsValid, OutcomeIs;
    assert ExecOf(s.admissions[a].pc) == s.admissions[a].pc.exec;
    if s.admissions[a].event.Some? { StatusByAdmission(s, s.admissions[a].event.value, a); }
  }

  lemma NotStartedRun(s: State, a: AdmissionId)
    requires Valid(s) && a in s.admissions && s.admissions[a].pc.NotStarted?
    ensures s.admissions[a].pc.run in s.execs && s.execs[s.admissions[a].pc.run].admission == a
  {
    hide DeliveriesValid, HandoffsValid, StatusesValid, TicketsValid, OutcomeIs;
    assert ExecOf(s.admissions[a].pc) == Some(s.admissions[a].pc.run);
  }

  /* --------------------------------------- what each handler does undisturbed */

  lemma DeliveryStep(s: State, c: Client, unused: nat)
    requires c in s.deliveries
    ensures Apply(s, AdvanceDelivery(c, unused)) ==
      MoveDelivery(DeliveryWrites(s, c, unused), c, DeliveryNext(s, c, unused))
  {
    hide DeliveryWrites, DeliveryNext;
  }

  lemma AnsweredDelivery(s: State, c: Client, unused: nat)
    requires c in s.deliveries && s.deliveries[c].pc.Duplicate?
    ensures Apply(s, AdvanceDelivery(c, unused)) == s
  {
    assert s.deliveries[c := s.deliveries[c]] == s.deliveries;
  }

  /** A known key, from the first lookup on. */
  lemma KnownKey(s: State, c: Client, key: Key, event: nat, a: AdmissionId)
    requires key in s.events
    ensures
      var looking := s.(deliveries := s.deliveries[c := Delivery(key, Looking)]);
      Apply(Apply(Apply(looking, AdvanceDelivery(c, event)), AdvanceDelivery(c, event)), AdvanceDelivery(c, a)) ==
        s.(deliveries := s.deliveries[c := Delivery(key, Duplicate(s.events[key].id))])
  {
    hide Apply;
    var looking := s.(deliveries := s.deliveries[c := Delivery(key, Looking)]);
    DeliveryStep(looking, c, event);
    var known := s.(deliveries := s.deliveries[c := Delivery(key, Duplicate(s.events[key].id))]);
    assert Apply(looking, AdvanceDelivery(c, event)) == known;
    AnsweredDelivery(known, c, event);
    AnsweredDelivery(known, c, a);
  }

  lemma HandsOver(s: State, c: Client, event: nat, a: AdmissionId)
    requires c in s.deliveries && s.deliveries[c].pc == HandingOff(event) && a !in s.admissions
    ensures
      var key := s.deliveries[c].key;
      Apply(s, AdvanceDelivery(c, a)) ==
        s.(deliveries := s.deliveries[c := Delivery(key, Accepted(event, a))],
           admissions := s.admissions[a := Admission(key.workflow, Some(key), Entered)])
  {
    hide Apply;
    DeliveryStep(s, c, a);
  }

  /** A new key, from the first lookup on. */
  lemma NewKey(s: State, c: Client, key: Key, event: nat, a: AdmissionId) returns (handing: State)
    requires key !in s.events
    ensures
      var looking := s.(deliveries := s.deliveries[c := Delivery(key, Looking)]);
      handing == Apply(Apply(looking, AdvanceDelivery(c, event)), AdvanceDelivery(c, event))
    ensures handing == s.(events := s.events[key := Event(event, Received, c)],
                          deliveries := s.deliveries[c := Delivery(key, HandingOff(event))])
  {
    hide Apply;
    var looking := s.(deliveries := s.deliveries[c := Delivery(key, Looking)]);
    DeliveryStep(looking, c, event);
    var inserting := s.(deliveries := s.deliveries[c := Delivery(key, Inserting)]);
    assert Apply(looking, AdvanceDelivery(c, event)) == inserting;
    DeliveryStep(inserting, c, event);
    handing := Apply(inserting, AdvanceDelivery(c, event));
  }

  /**
   The statements of a delivery, with no other between them: a known key is answered
   with its event and nothing else happens; for a new one, the event is stored as
   RECEIVED and handed to a new admission of its workflow.
   */
  lemma UndisturbedWebhook(s: State, c: Client, key: Key, event: nat, a: AdmissionId)
    requires c !in s.deliveries && a !in s.admissions
    ensures
      var s' := Apply(Apply(Apply(Apply(s, Deliver(c, key)), AdvanceDelivery(c, event)), AdvanceDelivery(c, event)),
                      AdvanceDelivery(c, a));
      if key in s.events then
        s' == s.(deliveries := s.deliveries[c := Delivery(key, Duplicate(s.events[key].id))])
      else
        s' == s.(events := s.events[key := Event(event, Received, c)],
                 deliveries := s.deliveries[c := Delivery(key, Accepted(event, a))],
                 admissions := s.admissions[a := Admission(key.workflow, Some(key), Entered)])
  {
    var looking := s.(deliveries := s.deliveries[c := Delivery(key, Looking)]);
    assert Apply(s, Deliver(c, key)) == looking;
    hide Apply;
    if key in s.events {
      KnownKey(s, c, key, event, a);
    } else {
      var handing := NewKey(s, c, key, event, a);
      HandsOver(handing, c, event, a);
    }
  }

  /** A delivery that dies before its event is stored leaves nothing behind, and makes no further statement. */
  lemma CrashEndsDelivery(s: State, c: Client, unused: nat)
    requires c in s.deliveries && s.deliveries[c].pc in {Looking, Inserting, LookingAgain}
    ensures
      var s' := Apply(s, CrashDelivery(c));
      && s' == s.(deliveries := s.deliveries[c := Delivery(s.deliveries[c].key, Lost)])
      && Apply(s', AdvanceDelivery(c, unused)) == s'
  {
    var s' := Apply(s, CrashDelivery(c));
    assert s'.deliveries[c := s'.deliveries[c]] == s'.deliveries;
  }

  /** The statements of an admission, one after the other; `oks` tells which outside calls succeed. */
  function Undisturbed(s: State, a: AdmissionId, x: ExecId, oks: seq<bool>): State
    decreases |oks|
  {
    if oks == [] then s else Undisturbed(Apply(s, AdvanceAdmission(a, x, oks[0])), a, x, oks[1..])
  }

  /** The event, if there is one, is marked, and the admission is over; nothing else changes. */
  function Concluded(s: State, a: AdmissionId, status: EventStatus, exec: Option<ExecId>): State
    requires a in s.admissions && (s.admissions[a].event.Some? ==> s.admissions[a].event.value in s.events)
  {
    var Admission(workflow, event, _) := s.admissions[a];
    State(s.active,
          if event.Some? then s.events[event.value := s.events[event.value].(status := status)] else s.events,
          s.deliveries,
          s.admissions[a := Admission(workflow, event, Finished(status, exec, event.Some?))],
          s.execs, s.consumed, s.hour)
  }

  /** With the call of the rate limiter counted. */
  function AllowedAtOnce(s: State, a: AdmissionId, x: ExecId, user: string, starts: bool): State
    requires a in s.admissions && (s.admissions[a].event.Some? ==> s.admissions[a].event.value in s.events)
  {
    var Admission(workflow, event, _) := s.admissions[a];
    var calls := if (user, s.hour) in s.consumed then s.consumed[(user, s.hour)] else [];
    var counted := s.(consumed := s.consumed[(user, s.hour) := calls + [a]]);
    if |calls| >= 100 then Concluded(counted, a, SkippedRateLimit, None)
    else
      var run := Exec(workflow, a, Ticket(user, s.hour, |calls| + 1), if starts then Pending else Failed);
      var stored := counted.(execs := s.execs[x := run]);
      if starts then Concluded(stored, a, Processed, Some(x))
      else stored.(admissions := s.admissions[a := Admission(workflow, event, NotStarted(x))])
  }

  /**
   An admission as one indivisible call: it decides by the workflow, its runs in flight,
   and its user's calls of the hour, and stores a PENDING run if and only if it is
   allowed; a run that cannot be started ends FAILED, and its event stays as it was.
   */
  function AdmittedAtOnce(s: State, a: AdmissionId, x: ExecId, starts: bool): State
    requires a in s.admissions && (s.admissions[a].event.Some? ==> s.admissions[a].event.value in s.events)
  {
    var workflow := s.admissions[a].workflow;
    if workflow !in s.active then Concluded(s, a, Skipped, None)
    else if |set y | y in s.execs && s.execs[y].workflow == workflow && s.execs[y].status in {Pending, Running}| >= 3
    then Concluded(s, a, SkippedConcurrencyLimit, None)
    else AllowedAtOnce(s, a, x, s.active[workflow], starts)
  }

  /** Admissions of a workflow that has been paused are skipped, and nothing else is changed by pausing it. */
  lemma PausedIsSkipped(s: State, a: AdmissionId, x: ExecId, starts: bool)
    requires a in s.admissions && (s.admissions[a].event.Some? ==> s.admissions[a].event.value in s.events)
    ensures
      var paused := Apply(s, SetActive(s.admissions[a].workflow, None));
      && AdmittedAtOnce(paused, a, x, starts) == Concluded(paused, a, Skipped, None)
      && paused == s.(active := paused.active)
      && forall w :: w != s.admissions[a].workflow ==>
           (if w in s.active then w in paused.active && paused.active[w] == s.active[w] else w !in paused.active)
  {
    hide Concluded, AllowedAtOnce;
  }

  lemma {:induction false} OverStaysOver(s: State, a: AdmissionId, x: ExecId, oks: seq<bool>)
    requires a in s.admissions && IsOver(s.admissions[a].pc)
    ensures Undisturbed(s, a, x, oks) == s
    decreases |oks|
  {
    if oks != [] {
      assert s.admissions[a := s.admissions[a]] == s.admissions;
      assert Apply(s, AdvanceAdmission(a, x, oks[0])) == s;
      OverStaysOver(s, a, x, oks[1..]);
    }
  }

  lemma FromMarking(s: State, a: AdmissionId, x: ExecId, oks: seq<bool>, status: EventStatus, exec: Option<ExecId>)
    requires a in s.admissions && oks != [] && oks[0]
    requires s.admissions[a].event.Some? ==> s.admissions[a].event.value in s.events
    ensures Undisturbed(MoveAdmission(s, a, Marking(status, exec)), a, x, oks) == Concluded(s, a, status, exec)
  {
    var marking := MoveAdmission(s, a, Marking(status, exec));
    assert Apply(marking, AdvanceAdmission(a, x, true)) == Concluded(s, a, status, exec);
    OverStaysOver(Concluded(s, a, status, exec), a, x, oks[1..]);
  }

  /** The next statement, and the ones after it. */
  lemma NextUndisturbed(s: State, a: AdmissionId, x: ExecId, ok: bool, oks: seq<bool>)
    requires a in s.admissions
    ensures Undisturbed(s, a, x, [ok] + oks) ==
      Undisturbed(MoveAdmission(AdmissionWrites(s, a, x, ok), a, AdmissionNext(s, a, x, ok)), a, x, oks)
  {
    hide AdmissionWrites, AdmissionNext;
    assert ([ok] + oks)[1..] == oks;
  }

  lemma MovedTwice(s: State, a: AdmissionId, first: AdmissionPc, second: AdmissionPc)
    requires a in s.admissions
    ensures MoveAdmission(MoveAdmission(s, a, first), a, second) == MoveAdmission(s, a, second)
  {
  }

  /** From the run being stored: it is started, or ends FAILED and leaves the event as it was. */
  lemma FromCreated(s: State, a: AdmissionId, x: ExecId, starts: bool)
    requires a in s.admissions && x in s.execs
    requires s.admissions[a].event.Some? ==> s.admissions[a].event.value in s.events
    ensures Undisturbed(MoveAdmission(s, a, Created(x)), a, x, [starts] + [true]) ==
      if starts then Concluded(s, a, Processed, Some(x))
      else MoveAdmission(s.(execs := s.execs[x := s.execs[x].(status := Failed)]), a, NotStarted(x))
  {
    hide Concluded, Undisturbed;
    var created := MoveAdmission(s, a, Created(x));
    NextUndisturbed(created, a, x, starts, [true]);
    if starts {
      MovedTwice(s, a, Created(x), Marking(Processed, Some(x)));
      FromMarking(s, a, x, [true], Processed, Some(x));
    } else {
      var failed := MoveAdmission(s.(execs := s.execs[x := s.execs[x].(status := Failed)]), a, NotStarted(x));
      assert MoveAdmission(AdmissionWrites(created, a, x, false), a, NotStarted(x)) == failed;
      OverStaysOver(failed, a, x, [true]);
    }
  }

  lemma FromAllowed(s: State, a: AdmissionId, x: ExecId, ticket: Ticket, starts: bool)
    requires a in s.admissions && x !in s.execs
    requires s.admissions[a].event.Some? ==> s.admissions[a].event.value in s.events
    ensures
      var stored := s.(execs := s.execs[x := Exec(s.admissions[a].workflow, a, ticket,
                                                 if starts then Pending else Failed)]);
      Undisturbed(MoveAdmission(s, a, Allowed(ticket)), a, x, [true] + [starts] + [true]) ==
        if starts then Concluded(stored, a, Processed, Some(x)) else MoveAdmission(stored, a, NotStarted(x))
  {
    hide Concluded, Undisturbed;
    var allowed := MoveAdmission(s, a, Allowed(ticket));
    var stored := s.(execs := s.execs[x := Exec(s.admissions[a].workflow, a, ticket, Pending)]);
    NextUndisturbed(allowed, a, x, true, [starts] + [true]);
    assert [true] + ([starts] + [true]) == [true] + [starts] + [true];
    assert MoveAdmission(AdmissionWrites(allowed, a, x, true), a, Created(x)) == MoveAdmission(stored, a, Created(x));
    FromCreated(stored, a, x, starts);
    assert stored.execs[x := stored.execs[x].(status := Failed)] ==
      s.execs[x := Exec(s.admissions[a].workflow, a, ticket, Failed)];
  }

  lemma FromCounted(s: State, a: AdmissionId, x: ExecId, user: string, starts: bool)
    requires a in s.admissions && x !in s.execs
    requires s.admissions[a].event.Some? ==> s.admissions[a].event.value in s.events
    ensures Undisturbed(MoveAdmission(s, a, Counted(user)), a, x, [true] + ([true] + [starts] + [true])) ==
      AllowedAtOnce(s, a, x, user, starts)
  {
    hide Concluded, Undisturbed;
    var counting := MoveAdmission(s, a, Counted(user));
    var calls := Calls(s.consumed, user, s.hour);
    var counted := s.(consumed := s.consumed[(user, s.hour) := calls + [a]]);
    NextUndisturbed(counting, a, x, true, [true] + [starts] + [true]);
    var next := AdmissionNext(counting, a, x, true);
    assert MoveAdmission(AdmissionWrites(counting, a, x, true), a, next) == MoveAdmission(counted, a, next);
    if |calls| >= 100 {
      FromMarking(counted, a, x, [true] + [starts] + [true], SkippedRateLimit, None);
    } else {
      FromAllowed(counted, a, x, Ticket(user, s.hour, |calls| + 1), starts);
    }
  }

  /** A crashed admission makes no further statement, and what it wrote stays. */
  lemma CrashEndsAdmission(s: State, a: AdmissionId, x: ExecId, oks: seq<bool>)
    requires a in s.admissions && !IsOver(s.admissions[a].pc)
    ensures
      var s' := Undisturbed(Apply(s, CrashAdmission(a)), a, x, oks);
      && s'.admissions.Keys == s.admissions.Keys && s'.admissions[a].pc.Gone?
      && s' == s.(admissions := s'.admissions)
  {
    OverStaysOver(Apply(s, CrashAdmission(a)), a, x, oks);
  }

  /**
   The statements of an admission, with no other between them, are that call. `starts`
   tells whether the instance can be started; every other outside call succeeds.
   */
  lemma UndisturbedAdmission(s: State, a: AdmissionId, x: ExecId, starts: bool)
    requires a in s.admissions && s.admissions[a].pc.Entered? && x !in s.execs
    requires s.admissions[a].event.Some? ==> s.admissions[a].event.value in s.events
    ensures Undisturbed(s, a, x, [true] + ([true] + ([true] + ([true] + [starts] + [true])))) ==
      AdmittedAtOnce(s, a, x, starts)
  {
    hide Concluded, Undisturbed, AllowedAtOnce;
    var workflow := s.admissions[a].workflow;
    assert InFlight(s.execs, workflow) ==
      set y | y in s.execs && s.execs[y].workflow == workflow && s.execs[y].status in {Pending, Running};
    var rest := [true] + ([true] + [starts] + [true]);
    NextUndisturbed(s, a, x, true, [true] + rest);
    if workflow !in s.active {
      FromMarking(s, a, x, [true] + rest, Skipped, None);
    } else {
      var active := MoveAdmission(s, a, Active(s.active[workflow]));
      NextUndisturbed(active, a, x, true, rest);
      var next := AdmissionNext(active, a, x, true);
      assert MoveAdmission(active, a, next) == MoveAdmission(s, a, next);
      if |InFlight(s.execs, workflow)| >= 3 {
        FromMarking(s, a, x, rest, SkippedConcurrencyLimit, None);
      } else {
        FromCounted(s, a, x, s.active[workflow], starts);
      }
    }
  }

  /** How admit ends: with an outcome, with the instance not started, or because a generated id is in use. */
  datatype AdmitResult = Done(status: EventStatus) | CouldNotStart(run: ExecId) | IdTaken

  class IngressDb {
    var state: State
    ghost var schedule: seq<Step>

    ghost predicate Current()
      reads this
    {
      state == Run(schedule)
    }

    constructor ()
      ensures Current()
    {
      state, schedule := INIT, [];
    }

    method Do(step: Step)
      requires Current()
      modifies this
      ensures Current() && state == Apply(old(state), step) && schedule == old(schedule) + [step]
    {
      RunSnoc(schedule, step);
      state, schedule := Apply(state, step), schedule + [step];
    }

    /** Between two statements of delivery c, any number of other steps. */
    method OthersThanDelivery(c: Client)
      requires Current() && c in state.deliveries
      modifies this
      ensures Current() && old(schedule) <= schedule
      ensures c in state.deliveries && state.deliveries[c] == old(state).deliveries[c]
    {
      var steps: seq<Step> := *;
      for i := 0 to |steps|
        invariant Current() && old(schedule) <= schedule
        invariant c in state.deliveries && state.deliveries[c] == old(state).deliveries[c]
      {
        if steps[i] != CrashDelivery(c) && !(steps[i].AdvanceDelivery? && steps[i].c == c) {
          OthersLeaveDelivery(state, steps[i], c);
          Do(steps[i]);
        }
      }
    }

    /** Between two statements of admission a, any number of other steps. */
    method OthersThanAdmission(a: AdmissionId)
      requires Current() && a in state.admissions
      modifies this
      ensures Current() && old(schedule) <= schedule
      ensures a in state.admissions && state.admissions[a] == old(state).admissions[a]
    {
      var steps: seq<Step> := *;
      for i := 0 to |steps|
        invariant Current() && old(schedule) <= schedule
        invariant a in state.admissions && state.admissions[a] == old(state).admissions[a]
      {
        if steps[i] != CrashAdmission(a) && !(steps[i].AdvanceAdmission? && steps[i].a == a) {
          OthersLeaveAdmission(state, steps[i], a);
          Do(steps[i]);
        }
      }
    }

    /**
     The webhook handler from its first lookup on: it answers with the id of the
     event stored for its key, and calls it a duplicate just when another delivery
     stored it.
     */
    method Webhook(c: Client, key: Key, eventId: nat, a: AdmissionId) returns (event: nat, duplicate: bool)
      requires Current() && c !in state.deliveries
      modifies this
      ensures Current() && old(schedule) <= schedule
      ensures key in state.events && event == state.events[key].id
      ensures duplicate <==> state.events[key].storedBy != c
    {
      hide Valid, Run, DeliveryStatement;
      Do(Deliver(c, key));
      NextOfDelivery(c, eventId);
      if state.deliveries[c].pc.Inserting? {
        NextOfDelivery(c, eventId);
        NextOfDelivery(c, a); // the second lookup, or the hand-off to admission
      }
      RunIsValid(schedule);
      DeliveryKnows(state, c);
      return state.deliveries[c].pc.event, state.deliveries[c].pc.Duplicate?;
    }

    /** Others, then the next statement of delivery c. */
    method NextOfDelivery(c: Client, unused: nat)
      requires Current() && c in state.deliveries
      modifies this
      ensures Current() && old(schedule) <= schedule
      ensures c in state.deliveries && state.deliveries[c].key == old(state).deliveries[c].key
      ensures
        var next := state.deliveries[c].pc;
        match old(state).deliveries[c].pc
        case Looking => next.Duplicate? || next.Inserting?
        case Inserting => next.LookingAgain? || next.HandingOff?
        case LookingAgain => next.Duplicate?
        case HandingOff(_) => Stored(next)
        case _ => true
    {
      hide Valid, Run, DeliveryWrites, AdmissionStatement;
      OthersThanDelivery(c);
      RunIsValid(schedule);
      if state.deliveries[c].pc.LookingAgain? { LoserFinds(state, c); }
      Do(AdvanceDelivery(c, unused));
    }

    /** Others, then the next statement of admission a. */
    method Next(a: AdmissionId, unused: ExecId, ok: bool)
      requires Current() && a in state.admissions
      modifies this
      ensures Current() && old(schedule) <= schedule
      ensures a in state.admissions && state.admissions[a].event == old(state).admissions[a].event
      ensures
        var pc, next := old(state).admissions[a].pc, state.admissions[a].pc;
        && Follows(state.admissions[a].event, pc, next, unused, ok)
        && (pc.Allowed? && next.Allowed? ==> unused in state.execs)
        && (pc.Created? && next.NotStarted? ==> next.run in state.execs && state.execs[next.run].status == Failed)
    {
      hide Valid, Run, AdmissionWrites, AdmissionNext, Follows, DeliveryStatement;
      OthersThanAdmission(a);
      RunIsValid(schedule);
      AdmissionFollows(state, a, unused, ok);
      RunsFollow(state, a, unused, ok);
      Do(AdvanceAdmission(a, unused, ok));
    }

    /**
     admit, with others between its statements. When it returns an outcome, the
     admission is settled with it; when the instance could not be started, the run
     it stored is there to be seen.
     */
    method Admit(a: AdmissionId, x: ExecId, starts: bool, marks: bool) returns (result: AdmitResult)
      requires Current() && a in state.admissions && state.admissions[a].pc.Entered?
      modifies this
      ensures Current() && old(schedule) <= schedule && a in state.admissions
      ensures result.Done? ==>
        && Settled(state, a) && state.admissions[a].pc.status == result.status
        && (state.admissions[a].pc.marked <==> marks && state.admissions[a].event.Some?)
      ensures result.CouldNotStart? ==>
        && !starts && state.admissions[a].pc == NotStarted(result.run)
        && result.run in state.execs && state.execs[result.run].admission == a
          && state.execs[result.run].status == Failed
      ensures result.IdTaken? ==> state.admissions[a].pc.Allowed? && x in state.execs
    {
      hide Valid, Run, Apply, Settled;
      Next(a, x, true);
      if state.admissions[a].pc.Active? { Next(a, x, true); }
      if state.admissions[a].pc.Counted? { Next(a, x, true); }
      if state.admissions[a].pc.Allowed? {
        Next(a, x, true);
        if state.admissions[a].pc.Allowed? { return IdTaken; }
        Next(a, x, starts);
        if state.admissions[a].pc.NotStarted? {
          RunIsValid(schedule);
          NotStartedRun(state, a);
          return CouldNotStart(state.admissions[a].pc.run);
        }
      }
      var status := Finish(a, marks);
      return Done(status);
    }

    /** Marks the event, if there is one, and ends the admission. */
    method Finish(a: AdmissionId, marks: bool) returns (status: EventStatus)
      requires Current() && a in state.admissions && state.admissions[a].pc.Marking?
      modifies this
      ensures Current() && old(schedule) <= schedule && a in state.admissions
      ensures Settled(state, a) && state.admissions[a].pc.status == status
      ensures state.admissions[a].event == old(state).admissions[a].event
      ensures state.admissions[a].pc.marked <==> marks && state.admissions[a].event.Some?
    {
      hide Valid, Run, Apply, Settled;
      Next(a, 0, marks);
      RunIsValid(schedule);
      FinishedIsSettled(state, a);
      return state.admissions[a].pc.status;
    }
  }
}
