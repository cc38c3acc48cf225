/**
 The Worker's pollers: one Durable Object per SCHEDULED trigger, whose alarm is the
 polling timer. The alarm handler awaits the poll itself outside the object's
 storage, so a start or a stop can come while a tick is in flight; every method of
 the object up to such a wait is one step. As in RefreshRotation, a step that is not
 possible where a schedule puts it does nothing. Times are milliseconds.
 */
module Poller {
  import opened Options

  datatype Config = Config(triggerId: string, intervalSeconds: nat)

  /** What is stored, the alarm, and the config that the tick in flight has read. */
  datatype State = State(config: Option<Config>, alarm: Option<nat>, tick: Option<Config>)

  const EMPTY := State(None, None, None)

  datatype Step =
    | Start(config: Config, now: nat)
    | Stop
    | Fire                                  // the alarm goes off
    | Finish(keepPolling: bool, now: nat)   // the poll of the tick in flight is over
    | Crash(retryAt: Option<nat>)           // the object dies in a tick; its alarm is delivered again, or given up

  /** start */
  function Started(s: State, config: Config, now: nat): State {
    var moves := s.alarm.None? || s.config.None? || s.config.value.intervalSeconds != config.intervalSeconds;
    s.(config := Some(config), alarm := if moves then Some(now + config.intervalSeconds * 1000) else s.alarm)
  }

  /** stop */
  function Stopped(s: State): State {
    s.(config := None, alarm := None)
  }

  function Apply(s: State, step: Step): State {
    match step
    case Start(config, now) => Started(s, config, now)
    case Stop => Stopped(s)
    case Fire => if s.alarm.Some? && s.tick.None? then s.(alarm := None, tick := s.config) else s
    case Finish(keepPolling, now) =>
      if s.tick.None? then s
      else if keepPolling then s.(alarm := Some(now + s.tick.value.intervalSeconds * 1000), tick := None)
      else Stopped(s.(tick := None))
    case Crash(retryAt) =>
      if s.tick.None? then s else s.(tick := None, alarm := if s.alarm.Some? then s.alarm else retryAt)
  }

  function RunFrom(s: State, schedule: seq<Step>): State
    decreases |schedule|
  {
    if schedule == [] then s else RunFrom(Apply(s, schedule[0]), schedule[1..])
  }

  predicate Fires(s: State, step: Step) {
    step.Fire? && s.alarm.Some? && s.tick.None?
  }

  /** How many alarms go off along the schedule. */
  function Alarms(s: State, schedule: seq<Step>): nat
    decreases |schedule|
  {
    if schedule == [] then 0
    else (if Fires(s, schedule[0]) then 1 else 0) + Alarms(Apply(s, schedule[0]), schedule[1..])
  }

  /** How many of them begin a poll. */
  function Polls(s: State, schedule: seq<Step>): nat
    decreases |schedule|
  {
    if schedule == [] then 0
    else (if Fires(s, schedule[0]) && s.config.Some? then 1 else 0) + Polls(Apply(s, schedule[0]), schedule[1..])
  }

  ghost predicate NoStart(schedule: seq<Step>) {
    forall i :: 0 <= i < |schedule| ==> !schedule[i].Start?
  }

  /** The alarms that can still go off with no config stored: a set one, and one set by the tick in flight. */
  function Remaining(s: State): nat {
    (if s.alarm.Some? then 1 else 0) + if s.tick.Some? then 1 else 0
  }

  lemma {:induction false} RunsDown(s: State, schedule: seq<Step>)
    requires s.config.None? && NoStart(schedule)
    ensures Polls(s, schedule) == 0
    ensures Alarms(s, schedule) + Remaining(RunFrom(s, schedule)) <= Remaining(s)
    decreases |schedule|
  {
    if schedule != [] {
      assert !schedule[0].Start?;
      RunsDown(Apply(s, schedule[0]), schedule[1..]);
    }
  }

  /**
   Once a poller has been stopped, and until it is started again, no poll begins;
   and no alarm goes off, but at most one if a tick was in flight.
   */
  lemma StopIsFinal(s: State, schedule: seq<Step>)
    requires NoStart(schedule)
    ensures Polls(Apply(s, Stop), schedule) == 0
    ensures Alarms(Apply(s, Stop), schedule) <= if s.tick.Some? then 1 else 0
  {
    RunsDown(Apply(s, Stop), schedule);
  }

  /** The first alarm of a started poller is a poll, and one that finds it stopped is none. */
  lemma FirstAlarmPolls(config: Config, now: nat)
    ensures
      var started := Apply(EMPTY, Start(config, now));
      && Polls(started, [Fire]) == 1 && Alarms(started, [Fire]) == 1
      && Polls(Apply(started, Stop), [Fire]) == 0
  {
    var started := Apply(EMPTY, Start(config, now));
    assert [Fire][1..] == [];
    assert Polls(Apply(started, Fire), []) == 0 && Alarms(Apply(started, Fire), []) == 0;
    assert Polls(Apply(Apply(started, Stop), Fire), []) == 0;
  }

  /** The one further alarm does happen: stop during a tick, which then re-arms the stopped poller. */
  lemma OneMoreAlarm(config: Config, now: nat)
    ensures
      var inTick := RunFrom(EMPTY, [Start(config, now), Fire]);
      Alarms(Apply(inTick, Stop), [Finish(true, now), Fire]) == 1
  {
    var started := Apply(EMPTY, Start(config, now));
    assert RunFrom(EMPTY, [Start(config, now), Fire]) == RunFrom(started, [Fire]);
    var inTick := Apply(started, Fire);
    assert RunFrom(started, [Fire]) == RunFrom(inTick, []);
    var stopped := Apply(inTick, Stop);
    var rearmed := Apply(stopped, Finish(true, now));
    assert Alarms(stopped, [Finish(true, now), Fire]) == Alarms(rearmed, [Fire]);
    assert Alarms(rearmed, [Fire]) == 1 + Alarms(Apply(rearmed, Fire), []);
  }

  /** A poller that has a config is armed, or in a tick that will arm it. */
  ghost predicate KeepsGoing(s: State) {
    s.config.Some? ==> s.alarm.Some? || s.tick.Some?
  }

  /** The platform gives up the alarm of a tick that died, and no other is set. */
  predicate LosesAlarm(s: State, step: Step) {
    step == Crash(None) && s.tick.Some? && s.alarm.None?
  }

  /** At step i a poller that is not stopped loses its alarm, and no start or stop comes after that. */
  ghost predicate DiesAt(s: State, schedule: seq<Step>, i: nat)
    requires i < |schedule|
  {
    && LosesAlarm(RunFrom(s, schedule[..i]), schedule[i]) && RunFrom(s, schedule[..i]).config.Some?
    && forall j :: i < j < |schedule| ==> !schedule[j].Start? && !schedule[j].Stop?
  }

  lemma StepDies(s: State, step: Step)
    ensures KeepsGoing(s) ==> (KeepsGoing(Apply(s, step)) <==> !(LosesAlarm(s, step) && s.config.Some?))
    ensures !KeepsGoing(s) ==> (KeepsGoing(Apply(s, step)) <==> step.Start? || step.Stop?) && !LosesAlarm(s, step)
  {
  }

  /**
   Whatever polls fail, starts and stops come in a tick, and ticks die: a poller with a
   config is neither armed nor in a tick if and only if it has lost its alarm since
   it was last started or stopped.
   */
  lemma {:induction false} DiesOnlyOfALostAlarm(s: State, schedule: seq<Step>)
    requires KeepsGoing(s)
    ensures !KeepsGoing(RunFrom(s, schedule)) <==> exists i: nat :: i < |schedule| && DiesAt(s, schedule, i)
    decreases |schedule|
  {
    if schedule != [] {
      var n := |schedule| - 1;
      var init, last := schedule[..n], schedule[n];
      DiesOnlyOfALostAlarm(s, init);
      assert schedule == init + [last];
      RunSnoc(s, init, last);
      hide KeepsGoing, LosesAlarm, Apply, RunFrom;
      StepDies(RunFrom(s, init), last);
      forall i: nat | i < n ensures DiesAt(s, schedule, i) <==> DiesAt(s, init, i) && !last.Start? && !last.Stop? {
        assert schedule[..i] == init[..i];
      }
      DiesByTheLast(s, schedule, n);
    }
  }

  lemma DiesByTheLast(s: State, schedule: seq<Step>, n: nat)
    requires |schedule| == n + 1
    ensures
      var before := RunFrom(s, schedule[..n]);
      DiesAt(s, schedule, n) <==> LosesAlarm(before, schedule[n]) && before.config.Some?
  {
    hide LosesAlarm, RunFrom;
  }

  /** No alarm is lost along the schedule. */
  ghost predicate NoneLost(schedule: seq<Step>) {
    forall i :: 0 <= i < |schedule| ==> schedule[i] != Crash(None)
  }

  /** So it goes on while no alarm is lost. */
  lemma ScheduleNeverDies(s: State, schedule: seq<Step>)
    requires KeepsGoing(s) && NoneLost(schedule)
    ensures KeepsGoing(RunFrom(s, schedule))
  {
    DiesOnlyOfALostAlarm(s, schedule);
  }

  /** And after any loss, the next start - the reconcile cron's, say - has it going again. */
  lemma StartRevives(s: State, lossy: seq<Step>, config: Config, now: nat, schedule: seq<Step>)
    requires NoneLost(schedule)
    ensures
      var revived := Apply(RunFrom(s, lossy), Start(config, now));
      revived.alarm.Some? && KeepsGoing(RunFrom(revived, schedule))
  {
    ScheduleNeverDies(Apply(RunFrom(s, lossy), Start(config, now)), schedule);
  }

  /** Without one, a poller whose alarm is lost stays dead. */
  lemma LostAlarmEndsIt(config: Config, now: nat)
    ensures RunFrom(EMPTY, [Start(config, now), Fire, Crash(None)]) == State(Some(config), None, None)
  {
    RunSnoc(EMPTY, [], Start(config, now));
    RunSnoc(EMPTY, [] + [Start(config, now)], Fire);
    RunSnoc(EMPTY, [] + [Start(config, now)] + [Fire], Crash(None));
    assert [] + [Start(config, now)] + [Fire] + [Crash(None)] == [Start(config, now), Fire, Crash(None)];
  }

  ghost predicate OnlyCalls(schedule: seq<Step>) {
    forall i :: 0 <= i < |schedule| ==> schedule[i].Start? || schedule[i].Stop?
  }

  /** The Durable Object. */
  class Poller {
    var config: Option<Config>
    var alarm: Option<nat>
    ghost var tick: Option<Config>
    ghost var schedule: seq<Step>

    ghost function Now(): State
      reads this
    {
      State(config, alarm, tick)
    }

    ghost predicate Valid()
      reads this
    {
      Now() == RunFrom(EMPTY, schedule)
    }

    constructor ()
      ensures Valid() && Now() == EMPTY
    {
      config, alarm, tick, schedule := None, None, None, [];
    }

    /** start: stores the config, and moves an alarm that is set only when the interval has changed. */
    method Start(triggerId: string, intervalSeconds: nat, now: nat)
      requires Valid()
      modifies this
      ensures Valid() && schedule == old(schedule) + [Step.Start(Config(triggerId, intervalSeconds), now)]
      ensures config == Some(Config(triggerId, intervalSeconds)) && tick == old(tick)
      ensures alarm ==
        if old(alarm.Some? && config.Some? && config.value.intervalSeconds == intervalSeconds) then old(alarm)
        else Some(now + intervalSeconds * 1000)
    {
      var current := config;
      config := Some(Config(triggerId, intervalSeconds));
      if alarm.None? || current.None? || current.value.intervalSeconds != intervalSeconds {
        alarm := Some(now + intervalSeconds * 1000);
      }
      RunSnoc(EMPTY, schedule, Step.Start(Config(triggerId, intervalSeconds), now));
      schedule := schedule + [Step.Start(Config(triggerId, intervalSeconds), now)];
    }

    method Stop()
      requires Valid()
      modifies this
      ensures Valid() && schedule == old(schedule) + [Step.Stop]
      ensures config.None? && alarm.None? && tick == old(tick)
    {
      alarm := None;
      config := None;
      RunSnoc(EMPTY, schedule, Step.Stop);
      schedule := schedule + [Step.Stop];
    }

    /** While a poll is awaited, any number of starts and stops. */
    method Others() returns (ghost others: seq<Step>)
      requires Valid()
      modifies this
      ensures Valid() && schedule == old(schedule) + others && OnlyCalls(others) && tick == old(tick)
    {
      var calls: seq<Option<(string, nat, nat)>> := *;
      others := [];
      for i := 0 to |calls|
        invariant Valid() && schedule == old(schedule) + others && OnlyCalls(others) && tick == old(tick)
      {
        ghost var before := schedule;
        match calls[i] {
          case Some((triggerId, interval, now)) => Start(triggerId, interval, now);
          case None => Stop();
        }
        others := others + [schedule[|before|]];
      }
    }

    /**
     alarm: one tick. `polled` is what pollOnce returns, None when it throws. The
     poller is armed afterwards, with the interval the tick began with, unless there
     was no config, or the poll found that polling must stop.
     */
    method Alarm(polled: Option<bool>, now: nat)
      requires Valid() && alarm.Some? && tick.None?
      modifies this
      ensures Valid() && tick.None?
      ensures old(config).None? ==> alarm.None? && config.None? && schedule == old(schedule) + [Fire]
      ensures old(config).Some? ==>
        if polled == Some(false) then alarm.None? && config.None?
        else alarm == Some(now + old(config).value.intervalSeconds * 1000)
      ensures old(config).Some? ==> exists others ::
        OnlyCalls(others) && schedule == old(schedule) + [Fire] + others + [Finish(polled.GetOr(true), now)]
    {
      RunSnoc(EMPTY, schedule, Fire);
      schedule := schedule + [Fire];
      alarm, tick := None, config;   // an alarm that fires is no longer set
      var read := config;
      if read.None? { return; }
      ghost var others := Others();
      var keepPolling := polled.GetOr(true);
      RunSnoc(EMPTY, schedule, Finish(keepPolling, now));
      schedule := schedule + [Finish(keepPolling, now)];
      tick := None;
      if keepPolling {
        alarm := Some(now + read.value.intervalSeconds * 1000);
      } else {
        alarm, config := None, None; // stop
      }
    }
  }

  lemma {:induction false} RunSnoc(s: State, schedule: seq<Step>, step: Step)
    ensures RunFrom(s, schedule + [step]) == Apply(RunFrom(s, schedule), step)
    decreases |schedule|
  {
    if schedule == [] {
      assert RunFrom(s, [step]) == RunFrom(Apply(s, step), [step][1..]);
    } else {
      assert (schedule + [step])[1..] == schedule[1..] + [step];
      RunSnoc(Apply(s, schedule[0]), schedule[1..], step);
    }
  }

  /* ------------------------------------------------- the pollers and the database */

  /**
   A trigger with its workflow's status; the interval is None when its config does not pass
   normalizePollingConfig.
   */
  datatype Trigger = Trigger(scheduled: bool, enabled: bool, workflowActive: bool, interval: Option<nat>)

  predicate IsActive(triggers: map<string, Trigger>, id: string) {
    id in triggers && triggers[id].scheduled && triggers[id].enabled && triggers[id].workflowActive
  }

  predicate IsArmed(s: State) {
    s.alarm.Some?
  }

  /** One object per trigger id; one that was never used is empty. */
  function PollerOf(pollers: map<string, State>, id: string): State {
    if id in pollers then pollers[id] else EMPTY
  }

  /** What the reconcile cron does to one poller. */
  function Reconciled(s: State, triggers: map<string, Trigger>, id: string, now: nat): State {
    if IsActive(triggers, id) && triggers[id].interval.Some?
      then Started(s, Config(id, triggers[id].interval.value), now)
      else s
  }

  /** One whole tick of one poller, if it is armed, with the database within reach. */
  function Ticked(s: State, triggers: map<string, Trigger>, id: string, now: nat): State {
    if IsArmed(s) then Apply(Apply(s, Fire), Finish(IsActive(triggers, id), now)) else s
  }

  /**
   Self-stabilisation: from any state with no tick in flight, one reconcile and one
   tick of each armed poller arm exactly the pollers of active triggers whose config
   is valid, and of those with a broken config that were polling on a stored one.
   */
  lemma OnePassStabilises(s: State, triggers: map<string, Trigger>, id: string, now: nat, later: nat)
    requires s.tick.None?
    ensures
      var s' := Ticked(Reconciled(s, triggers, id, now), triggers, id, later);
      && s'.tick.None?
      && (s'.alarm.Some? <==>
            && id in triggers && triggers[id].scheduled && triggers[id].enabled && triggers[id].workflowActive
            && (triggers[id].interval.Some? || (s.alarm.Some? && s.config.Some?)))
      && (s'.alarm.Some? && triggers[id].interval.Some? ==>
            && s'.config == Some(Config(id, triggers[id].interval.value))
            && s'.alarm == Some(later + triggers[id].interval.value * 1000))
  {
  }

  /** The Worker's view: a poller object for each trigger id. */
  class Pollers {
    var pollers: map<string, State>

    /** reconcilePollers: starts the poller of each active trigger, skipping those whose config is refused. */
    method ReconcilePollers(triggers: map<string, Trigger>, ids: seq<string>, now: nat)
      requires forall id :: id in ids <==> IsActive(triggers, id)
      modifies this
      ensures forall id :: PollerOf(pollers, id) == Reconciled(PollerOf(old(pollers), id), triggers, id, now)
    {
      ghost var was := pollers;
      for i := 0 to |ids|
        invariant forall id ::
          PollerOf(pollers, id) == if id in ids[..i] then Reconciled(PollerOf(was, id), triggers, id, now)
            else PollerOf(was, id)
      {
        var id := ids[i];
        assert ids[..i + 1] == ids[..i] + [id];
        assert id in ids;
        match triggers[id].interval
        case Some(interval) =>
          StartedTwice(PollerOf(was, id), Config(id, interval), now);
          pollers := pollers[id := Started(PollerOf(pollers, id), Config(id, interval), now)];
        case None => // normalizePollingConfig throws; the error is logged
      }
    }

    /** One tick of each armed poller. */
    method TickAll(triggers: map<string, Trigger>, now: nat)
      modifies this
      ensures forall id :: PollerOf(pollers, id) == Ticked(PollerOf(old(pollers), id), triggers, id, now)
    {
      ghost var was := pollers;
      var todo := pollers.Keys;
      while todo != {}
        invariant todo <= was.Keys
        invariant forall id ::
          PollerOf(pollers, id) == if id in todo then PollerOf(was, id)
            else Ticked(PollerOf(was, id), triggers, id, now)
      {
        var id :| id in todo;
        pollers := pollers[id := Ticked(PollerOf(pollers, id), triggers, id, now)];
        todo := todo - {id};
      }
    }

    /** The cron followed by a tick of each: with valid configs, the armed pollers are exactly the active triggers. */
    method Stabilise(triggers: map<string, Trigger>, ids: seq<string>, now: nat, later: nat)
      requires forall id :: id in ids <==> IsActive(triggers, id)
      requires forall id :: PollerOf(pollers, id).tick.None?
      requires forall id :: IsActive(triggers, id) ==> triggers[id].interval.Some?
      modifies this
      ensures forall id :: PollerOf(pollers, id).alarm.Some? <==> IsActive(triggers, id)
      ensures forall id :: IsActive(triggers, id) ==>
        PollerOf(pollers, id).config == Some(Config(id, triggers[id].interval.value))
    {
      hide Reconciled, Ticked;
      ghost var was := pollers;
      ReconcilePollers(triggers, ids, now);
      TickAll(triggers, later);
      forall id
        ensures IsArmed(PollerOf(pollers, id)) <==> IsActive(triggers, id)
        ensures IsActive(triggers, id) ==> PollerOf(pollers, id).config == Some(Config(id, triggers[id].interval.value))
      {
        OnePassStabilises(PollerOf(was, id), triggers, id, now, later);
      }
    }

    /** syncTriggerPoller: brings one poller in line at once; a refused config throws and changes nothing. */
    method SyncTriggerPoller(triggers: map<string, Trigger>, id: string, now: nat) returns (ok: bool)
      modifies this
      ensures forall other :: other != id ==> PollerOf(pollers, other) == PollerOf(old(pollers), other)
      ensures ok <==> !(IsActive(triggers, id) && triggers[id].interval.None?)
      ensures ok ==> (IsArmed(PollerOf(pollers, id)) <==> IsActive(triggers, id))
      ensures ok && IsActive(triggers, id) ==>
        PollerOf(pollers, id).config == Some(Config(id, triggers[id].interval.value))
      ensures !ok ==> pollers == old(pollers)
    {
      if !IsActive(triggers, id) {
        pollers := pollers[id := Stopped(PollerOf(pollers, id))];
        return true;
      }
      if triggers[id].interval.None? { return false; }
      pollers := pollers[id := Started(PollerOf(pollers, id), Config(id, triggers[id].interval.value), now)];
      return true;
    }
  }

  /** start is idempotent. */
  lemma StartedTwice(s: State, config: Config, now: nat)
    ensures Started(Started(s, config, now), config, now) == Started(s, config, now)
  {
  }
}
