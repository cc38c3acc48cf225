/**
 The ceiling on a workflow's runs in flight. The count check and the INSERT are
 separate statements, so racing admissions can exceed the three the limit names;
 this module proves the bound that survives every interleaving, and that it is exact.
 */
module AdmissionBound {
  import opened Options
  import opened Ingress
  import opened Sets

  /** The largest number of admissions for the workflow past the in-flight check at once. */
  function Peak(schedule: seq<Step>, workflow: string): nat {
    if schedule == [] then 0
    else
      var before, now := Peak(schedule[..|schedule| - 1], workflow), |PastCheck(Run(schedule).admissions, workflow)|;
      if before < now then now else before
  }

  /** What counts against the ceiling: the runs in flight, and those about to be. */
  function Load(s: State, w: string): nat {
    |InFlight(s.execs, w)| + |PastCheck(s.admissions, w)|
  }

  /** The load after a step has not grown, or the step was a passed check, made with fewer than three runs in flight. */
  ghost predicate Bounded(s: State, s': State, w: string) {
    || Load(s', w) <= Load(s, w)
    || Load(s', w) <= MAX_CONCURRENT_EXECUTIONS_PER_WORKFLOW - 1 + |PastCheck(s'.admissions, w)|
  }

  /** No admission passes the check, and no run is stored. */
  ghost predicate Quiet(s: State, s': State, w: string) {
    InFlight(s'.execs, w) <= InFlight(s.execs, w) && PastCheck(s'.admissions, w) <= PastCheck(s.admissions, w)
  }

  lemma QuietIsBounded(s: State, s': State, w: string)
    requires Quiet(s, s', w)
    ensures Bounded(s, s', w)
  {
    SubsetSize(InFlight(s'.execs, w), InFlight(s.execs, w));
    SubsetSize(PastCheck(s'.admissions, w), PastCheck(s.admissions, w));
  }

  lemma PastCheckShrinks(admissions: map<AdmissionId, Admission>, a: AdmissionId, admission: Admission, w: string)
    requires IsPastCheck(admission, w) ==> a in admissions && IsPastCheck(admissions[a], w)
    ensures PastCheck(admissions[a := admission], w) <= PastCheck(admissions, w)
  {
  }

  lemma InFlightShrinks(execs: map<ExecId, Exec>, x: ExecId, exec: Exec, w: string)
    requires IsInFlight(exec, w) ==> x in execs && IsInFlight(execs[x], w)
    ensures InFlight(execs[x := exec], w) <= InFlight(execs, w)
  {
  }

  lemma Moves(admissions: map<AdmissionId, Admission>, a: AdmissionId, admission: Admission, w: string)
    requires a in admissions && IsPastCheck(admissions[a], w) && !IsPastCheck(admission, w)
    ensures |PastCheck(admissions[a := admission], w)| == |PastCheck(admissions, w)| - 1
  {
    assert PastCheck(admissions[a := admission], w) == PastCheck(admissions, w) - {a} && a in PastCheck(admissions, w);
  }

  lemma Grows(execs: map<ExecId, Exec>, x: ExecId, exec: Exec, w: string)
    requires x !in execs && IsInFlight(exec, w)
    ensures |InFlight(execs[x := exec], w)| == |InFlight(execs, w)| + 1
  {
    assert InFlight(execs[x := exec], w) == InFlight(execs, w) + {x};
  }

  lemma CreatingIsBounded(s: State, a: AdmissionId, x: ExecId, ticket: Ticket, w: string)
    requires a in s.admissions && s.admissions[a].pc.Allowed? && x !in s.execs
    ensures Bounded(s, CreateExecution(s, a, x, ticket), w)
  {
    hide InFlight, PastCheck;
    var s' := CreateExecution(s, a, x, ticket);
    if s.admissions[a].workflow == w {
      Moves(s.admissions, a, s'.admissions[a], w);
      Grows(s.execs, x, s'.execs[x], w);
    } else {
      PastCheckShrinks(s.admissions, a, s'.admissions[a], w);
      InFlightShrinks(s.execs, x, s'.execs[x], w);
      QuietIsBounded(s, s', w);
    }
  }

  lemma CheckIsBounded(s: State, a: AdmissionId, user: string, w: string)
    requires a in s.admissions
    requires |InFlight(s.execs, s.admissions[a].workflow)| < MAX_CONCURRENT_EXECUTIONS_PER_WORKFLOW
    ensures Bounded(s, MoveAdmission(s, a, Counted(user)), w)
  {
    hide InFlight, PastCheck;
    if s.admissions[a].workflow != w {
      PastCheckShrinks(s.admissions, a, s.admissions[a].(pc := Counted(user)), w);
      QuietIsBounded(s, MoveAdmission(s, a, Counted(user)), w);
    }
  }

  lemma MoveIsQuiet(s: State, a: AdmissionId, pc: AdmissionPc, w: string)
    requires a in s.admissions && (IsPast(pc) ==> IsPast(s.admissions[a].pc))
    ensures Quiet(s, MoveAdmission(s, a, pc), w)
  {
    hide InFlight, PastCheck;
    PastCheckShrinks(s.admissions, a, s.admissions[a].(pc := pc), w);
  }

  lemma StatusIsQuiet(s: State, x: ExecId, status: RunStatus, w: string)
    requires x in s.execs && (Unfinished(status) ==> Unfinished(s.execs[x].status))
    ensures Quiet(s, SetStatus(s, x, status), w)
  {
    hide InFlight, PastCheck;
    InFlightShrinks(s.execs, x, s.execs[x].(status := status), w);
  }

  lemma NewAdmissionIsQuiet(s: State, a: AdmissionId, admission: Admission, w: string)
    requires a !in s.admissions && admission.pc.Entered?
    ensures Quiet(s, s.(admissions := s.admissions[a := admission]), w)
  {
    hide InFlight, PastCheck;
    PastCheckShrinks(s.admissions, a, admission, w);
  }

  /** A step of an admission other than passing the check and storing the run. */
  lemma OtherStatementIsQuiet(s: State, a: AdmissionId, unused: ExecId, ok: bool, w: string)
    requires a in s.admissions && !s.admissions[a].pc.Active? && !s.admissions[a].pc.Allowed?
    ensures Quiet(s, AdmissionStatement(s, a, unused, ok), w)
  {
    hide InFlight, PastCheck, Calls;
    var pc := s.admissions[a].pc;
    if pc.Created? && !ok && pc.run in s.execs { StatusIsQuiet(s, pc.run, Failed, w); }
    MoveIsQuiet(AdmissionWrites(s, a, unused, ok), a, AdmissionNext(s, a, unused, ok), w);
  }

  lemma AdmissionStepIsBounded(s: State, a: AdmissionId, unused: ExecId, ok: bool, w: string)
    requires a in s.admissions
    ensures Bounded(s, AdmissionStatement(s, a, unused, ok), w)
  {
    hide InFlight, PastCheck, Bounded, Quiet;
    var Admission(workflow, event, pc) := s.admissions[a];
    assert s.admissions[a := s.admissions[a]] == s.admissions;
    match pc
    case Active(user) =>
      if |InFlight(s.execs, workflow)| < MAX_CONCURRENT_EXECUTIONS_PER_WORKFLOW {
        CheckIsBounded(s, a, user, w);
      } else {
        MoveIsQuiet(s, a, Marking(SkippedConcurrencyLimit, None), w);
        QuietIsBounded(s, MoveAdmission(s, a, Marking(SkippedConcurrencyLimit, None)), w);
      }
    case Allowed(ticket) =>
      if unused in s.execs {
        NothingIsQuiet(s, w);
        QuietIsBounded(s, s, w);
      } else {
        CreatingIsBounded(s, a, unused, ticket, w);
      }
    case _ =>
      OtherStatementIsQuiet(s, a, unused, ok, w);
      QuietIsBounded(s, AdmissionStatement(s, a, unused, ok), w);
  }

  lemma NothingIsQuiet(s: State, w: string)
    ensures Quiet(s, s, w)
  {
  }

  lemma DeliveryIsQuiet(s: State, c: Client, unused: nat, w: string)
    requires c in s.deliveries
    ensures Quiet(s, DeliveryStatement(s, c, unused), w)
  {
    hide InFlight, PastCheck;
    var Delivery(key, pc) := s.deliveries[c];
    if pc.HandingOff? && unused !in s.admissions {
      NewAdmissionIsQuiet(s, unused, Admission(key.workflow, Some(key), Entered), w);
    }
  }

  /** All other steps leave alone what counts against the ceiling, or release some of it. */
  lemma OtherStepIsQuiet(s: State, step: Step, w: string)
    requires !step.AdvanceAdmission?
    ensures Quiet(s, Apply(s, step), w)
  {
    hide InFlight, PastCheck, ExecOf, DeliveryStatement;
    match step
    case AdvanceDelivery(c, unused) => if c in s.deliveries { DeliveryIsQuiet(s, c, unused, w); }
    case Admit(a, workflow) =>
      if a !in s.admissions {
        NewAdmissionIsQuiet(s, a, Admission(workflow, None, Entered), w);
      }
    case Begin(x) => if x in s.execs && s.execs[x].status == Pending { StatusIsQuiet(s, x, Running, w); }
    case End(x, ok) =>
      if x in s.execs && Unfinished(s.execs[x].status) {
        StatusIsQuiet(s, x, if ok then Succeeded else Failed, w);
      }
    case CrashAdmission(a) =>
      if a in s.admissions && !IsOver(s.admissions[a].pc) { MoveIsQuiet(s, a, Gone(ExecOf(s.admissions[a].pc)), w); }
    case _ =>
  }

  lemma StepIsBounded(s: State, step: Step, w: string)
    ensures Bounded(s, Apply(s, step), w)
  {
    hide Bounded, Quiet, AdmissionStatement;
    if step.AdvanceAdmission? {
      if step.a in s.admissions { AdmissionStepIsBounded(s, step.a, step.unused, step.ok, w); }
      else { NothingIsQuiet(s, w); QuietIsBounded(s, s, w); }
    } else {
      OtherStepIsQuiet(s, step, w);
      QuietIsBounded(s, Apply(s, step), w);
    }
  }

  /**
   The ceiling that survives interleaving: runs in flight and admissions past the
   check stay, together, within two more than the most admissions past the check
   at once.
   */
  lemma {:induction false} InFlightBound(schedule: seq<Step>, w: string)
    ensures
      var s := Run(schedule);
      && Load(s, w) <= 2 + Peak(schedule, w)
      && |set x | x in s.execs && s.execs[x].workflow == w && s.execs[x].status in {Pending, Running}|
           <= 2 + Peak(schedule, w)
  {
    assert InFlight(Run(schedule).execs, w) ==
      set x | x in Run(schedule).execs && Run(schedule).execs[x].workflow == w
              && Run(schedule).execs[x].status in {Pending, Running};
    if schedule == [] {
      assert InFlight(map[], w) == {} && PastCheck(map[], w) == {};
    } else {
      hide InFlight, PastCheck, Apply;
      InFlightBound(schedule[..|schedule| - 1], w);
      StepIsBounded(Run(schedule[..|schedule| - 1]), schedule[|schedule| - 1], w);
    }
  }

  /** Where the admissions of a workflow come one after another, at most three of its runs are ever in flight. */
  lemma SerialAdmissionsKeepTheCeiling(schedule: seq<Step>, w: string)
    requires Peak(schedule, w) <= 1
    ensures
      var execs := Run(schedule).execs;
      |set x | x in execs && execs[x].workflow == w && execs[x].status in {Pending, Running}| <= 3
  {
    InFlightBound(schedule, w);
  }

  /* The bound is exact: n runs of workflow "w" in flight, and m admissions past the check. */

  ghost predicate Stage(s: State, n: nat, m: nat) {
    && "w" in s.active && s.active["w"] == "u"
    && (forall a: nat :: a in s.admissions <==> a < n + m)
    && (forall a :: a in s.admissions ==>
          s.admissions[a].workflow == "w" && if a < n then s.admissions[a].pc.Created?
            else s.admissions[a].pc == Counted("u"))
    && (forall x: nat :: x in s.execs <==> x < n)
    && (forall x :: x in s.execs ==> s.execs[x].workflow == "w" && s.execs[x].status == Pending)
    && |Calls(s.consumed, "u", s.hour)| == n
  }

  lemma {:induction false} RangeSize(xs: set<nat>, lo: nat, hi: nat)
    requires lo <= hi && forall x :: x in xs <==> lo <= x < hi
    ensures |xs| == hi - lo
  {
    if lo < hi {
      RangeSize(xs - {lo}, lo + 1, hi);
    } else {
      assert xs == {};
    }
  }

  lemma StageSizes(s: State, n: nat, m: nat)
    requires Stage(s, n, m)
    ensures |InFlight(s.execs, "w")| == n && |PastCheck(s.admissions, "w")| == m
  {
    RangeSize(InFlight(s.execs, "w"), 0, n);
    RangeSize(PastCheck(s.admissions, "w"), n, n + m);
  }

  function Admitted(s: State, a: AdmissionId): State {
    Apply(Apply(Apply(s, Admit(a, "w")), AdvanceAdmission(a, 0, true)), AdvanceAdmission(a, 0, true))
  }

  function Started(s: State, a: AdmissionId): State {
    Apply(Apply(s, AdvanceAdmission(a, a, true)), AdvanceAdmission(a, a, true))
  }

  /** An admission of an active workflow, run on its own with fewer than three runs in flight, passes the check. */
  lemma PassesCheck(s: State, a: AdmissionId)
    requires "w" in s.active && s.active["w"] == "u" && a !in s.admissions
    requires |InFlight(s.execs, "w")| < MAX_CONCURRENT_EXECUTIONS_PER_WORKFLOW
    ensures Admitted(s, a) == s.(admissions := s.admissions[a := Admission("w", None, Counted("u"))])
  {
    hide InFlight, Calls, DeliveryStatement, Consume;
    var s1 := Apply(s, Admit(a, "w"));
    assert s1 == s.(admissions := s.admissions[a := Admission("w", None, Entered)]);
    var s2 := Apply(s1, AdvanceAdmission(a, 0, true));
    assert s2.admissions == s.admissions[a := Admission("w", None, Active("u"))];
    var s3 := Apply(s2, AdvanceAdmission(a, 0, true));
    assert s3.admissions == s.admissions[a := Admission("w", None, Counted("u"))];
  }

  lemma OneMorePast(s: State, n: nat, m: nat)
    requires Stage(s, n, m) && n < MAX_CONCURRENT_EXECUTIONS_PER_WORKFLOW
    ensures Stage(Admitted(s, n + m), n, m + 1)
  {
    hide InFlight, Calls, Apply, Admitted;
    StageSizes(s, n, m);
    PassesCheck(s, n + m);
  }

  /** The rate limiter lets the admission through, and the run is stored. */
  lemma Starts(s: State, a: AdmissionId)
    requires a in s.admissions && s.admissions[a].pc == Counted("u") && a !in s.execs
    requires |Calls(s.consumed, "u", s.hour)| < MAX_EXECUTIONS_PER_USER_PER_HOUR
    ensures
      var ticket := Ticket("u", s.hour, |Calls(s.consumed, "u", s.hour)| + 1);
      Started(s, a) == CreateExecution(Consume(s, a, "u"), a, a, ticket)
    ensures |Calls(Consume(s, a, "u").consumed, "u", s.hour)| == |Calls(s.consumed, "u", s.hour)| + 1
  {
    hide InFlight, DeliveryStatement;
    var ticket := Ticket("u", s.hour, |Calls(s.consumed, "u", s.hour)| + 1);
    assert Apply(s, AdvanceAdmission(a, a, true)) == MoveAdmission(Consume(s, a, "u"), a, Allowed(ticket));
    assert Started(s, a).admissions == CreateExecution(Consume(s, a, "u"), a, a, ticket).admissions;
  }

  lemma OneMoreRun(s: State, n: nat, m: nat)
    requires Stage(s, n, m) && 0 < m && n < MAX_EXECUTIONS_PER_USER_PER_HOUR
    ensures Stage(Started(s, n), n + 1, m - 1)
  {
    hide InFlight, Apply, Started, Calls;
    Starts(s, n);
  }

  lemma PeakSnoc(schedule: seq<Step>, step: Step, w: string, p: nat)
    requires Peak(schedule, w) <= p && |PastCheck(Apply(Run(schedule), step).admissions, w)| <= p
    ensures Peak(schedule + [step], w) <= p && Run(schedule + [step]) == Apply(Run(schedule), step)
  {
    assert (schedule + [step])[..|schedule|] == schedule;
  }

  /** A quiet step does not raise the peak. */
  lemma PeakAfterQuiet(schedule: seq<Step>, step: Step, w: string, p: nat)
    requires Peak(schedule, w) <= p && Quiet(Run(schedule), Apply(Run(schedule), step), w)
    ensures Peak(schedule + [step], w) <= p && Run(schedule + [step]) == Apply(Run(schedule), step)
  {
    assert schedule == [] ==> PastCheck(INIT.admissions, w) == {};
    SubsetSize(PastCheck(Apply(Run(schedule), step).admissions, w), PastCheck(Run(schedule).admissions, w));
    PeakSnoc(schedule, step, w, p);
  }

  /** The schedule reaches a stage, without ever having more than p admissions past the check. */
  ghost predicate Reaches(schedule: seq<Step>, n: nat, m: nat, p: nat) {
    Stage(Run(schedule), n, m) && Peak(schedule, "w") <= p
  }

  lemma AdmitOne(schedule: seq<Step>, n: nat, m: nat, p: nat) returns (longer: seq<Step>)
    requires Reaches(schedule, n, m, p) && n < MAX_CONCURRENT_EXECUTIONS_PER_WORKFLOW && m < p
    ensures Reaches(longer, n, m + 1, p)
  {
    hide Stage, Apply, Quiet, Peak, PastCheck;
    var a := n + m;
    var s := Run(schedule);
    OneMorePast(s, n, m);
    StageSizes(Admitted(s, a), n, m + 1);
    AdmittedIsQuiet(s, n, m);
    PeakAfterQuiet(schedule, Admit(a, "w"), "w", p);
    var second := schedule + [Admit(a, "w")];
    PeakAfterQuiet(second, AdvanceAdmission(a, 0, true), "w", p);
    var third := second + [AdvanceAdmission(a, 0, true)];
    PeakSnoc(third, AdvanceAdmission(a, 0, true), "w", p);
    longer := third + [AdvanceAdmission(a, 0, true)];
  }

  lemma AdmittedIsQuiet(s: State, n: nat, m: nat)
    requires Stage(s, n, m)
    ensures
      var s1 := Apply(s, Admit(n + m, "w"));
      Quiet(s, s1, "w") && Quiet(s1, Apply(s1, AdvanceAdmission(n + m, 0, true)), "w")
  {
    hide Quiet, AdmissionStatement;
    OtherStepIsQuiet(s, Admit(n + m, "w"), "w");
    OtherStatementIsQuiet(Apply(s, Admit(n + m, "w")), n + m, 0, true, "w");
  }

  lemma StartOne(schedule: seq<Step>, n: nat, m: nat, p: nat) returns (longer: seq<Step>)
    requires Reaches(schedule, n, m, p) && 0 < m <= p && n < MAX_EXECUTIONS_PER_USER_PER_HOUR
    ensures Reaches(longer, n + 1, m - 1, p)
  {
    hide Stage, Apply, Quiet, Peak, PastCheck;
    var s := Run(schedule);
    OneMoreRun(s, n, m);
    StageSizes(Started(s, n), n + 1, m - 1);
    ConsumingIsQuiet(s, n, m);
    PeakAfterQuiet(schedule, AdvanceAdmission(n, n, true), "w", p);
    var second := schedule + [AdvanceAdmission(n, n, true)];
    PeakSnoc(second, AdvanceAdmission(n, n, true), "w", p);
    longer := second + [AdvanceAdmission(n, n, true)];
  }

  lemma ConsumingIsQuiet(s: State, n: nat, m: nat)
    requires Stage(s, n, m) && 0 < m
    ensures Quiet(s, Apply(s, AdvanceAdmission(n, n, true)), "w")
  {
    hide Quiet, AdmissionStatement;
    OtherStatementIsQuiet(s, n, n, true, "w");
  }

  lemma {:induction false} AdmitMany(schedule: seq<Step>, n: nat, m: nat, p: nat) returns (longer: seq<Step>)
    requires Reaches(schedule, n, m, p) && n < MAX_CONCURRENT_EXECUTIONS_PER_WORKFLOW && m <= p
    ensures Reaches(longer, n, p, p)
    decreases p - m
  {
    hide Reaches;
    if m == p { return schedule; }
    longer := AdmitOne(schedule, n, m, p);
    longer := AdmitMany(longer, n, m + 1, p);
  }

  lemma {:induction false} StartMany(schedule: seq<Step>, n: nat, m: nat, p: nat) returns (longer: seq<Step>)
    requires Reaches(schedule, n, m, p) && m <= p && n + m <= MAX_EXECUTIONS_PER_USER_PER_HOUR
    ensures Reaches(longer, n + m, 0, p)
    decreases m
  {
    hide Reaches;
    if m == 0 { return schedule; }
    longer := StartOne(schedule, n, m, p);
    longer := StartMany(longer, n + 1, m - 1, p);
  }

  /**
   The bound is reached: c admissions racing past the check put 2 + c runs in
   flight, for every c the hourly limit leaves room for. So the documented ceiling
   of three is kept by all schedules of c admissions at once just when c <= 1.
   */
  lemma BoundIsReached(c: nat) returns (schedule: seq<Step>)
    requires 1 <= c <= 98
    ensures Peak(schedule, "w") == c
    ensures |InFlight(Run(schedule).execs, "w")| == 2 + c
  {
    hide Apply, Peak, InFlight, PastCheck, Stage, Run;
    schedule := Activated(c);
    schedule := AdmitOne(schedule, 0, 0, c);
    schedule := StartOne(schedule, 0, 1, c);
    schedule := AdmitOne(schedule, 1, 0, c);
    schedule := StartOne(schedule, 1, 1, c);
    schedule := AdmitMany(schedule, 2, 0, c);
    schedule := StartMany(schedule, 2, c, c);
    StageSizes(Run(schedule), 2 + c, 0);
    InFlightBound(schedule, "w");
  }

  lemma Activated(p: nat) returns (schedule: seq<Step>)
    ensures Reaches(schedule, 0, 0, p)
  {
    var step := SetActive("w", Some("u"));
    assert PastCheck(map[], "w") == {};
    PeakSnoc([], step, "w", p);
    assert Apply(Run([]), step) == INIT.(active := map["w" := "u"]);
    schedule := [] + [step];
  }
}
