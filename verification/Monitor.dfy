/** The health monitor: result intake, self-fault liveness, boot latch, draining and the snapshot. */
module Monitor {
  import opened Wrappers
  import opened Model
  import opened Machine
  import opened Aggregate

  // ---- what the write path keeps ----

  /** The part of the monitor that liveness is computed from. */
  datatype Core = Core(
    specs: map<string, CheckSpec>,
    states: map<string, CheckState>,
    results: map<string, CheckResult>,
    faults: set<string>)

  predicate StoredFailing(c: Core, n: string) {
    n in c.results && n in c.states && c.states[n].effective == Failing
  }

  /** A confirmed failure with a category that is not this process's own fault. */
  predicate DependencyExplains(c: Core) {
    exists n :: n in c.results && StoredFailing(c, n) && BlamesDependency(c.results[n])
  }

  function Faults(live: bool, c: Core): set<string> {
    if !live || DependencyExplains(c) then {}
    else set n | n in c.results && StoredFailing(c, n) && IsWedged(c.results[n])
  }

  datatype Event =
    | Registered(spec: CheckSpec)
    | Enabled(name: string, on: bool, now: real)
    | Result(result: CheckResult, now: real, draw: real)
    | DuePushed(name: string, due: real)

  function RegisterStep(c: Core, spec: CheckSpec): Core {
    c.(specs := c.specs[spec.name := spec],
       states := if spec.name in c.states then c.states else c.states[spec.name := INITIAL])
  }

  function EnableStep(c: Core, name: string, on: bool, now: real): Core {
    if name !in c.specs || name !in c.states then c
    else c.(specs := c.specs[name := c.specs[name].(enabled := on)],
            states := c.states[name := AfterSwitch(c.states[name], on, now)])
  }

  function ResultStep(live: bool, c: Core, r: CheckResult, now: real, draw: real): Core {
    if r.name !in c.specs || r.name !in c.states then c
    else
      var c' := c.(states := c.states[r.name := AfterResult(c.specs[r.name], c.states[r.name], r, now, draw)],
                   results := c.results[r.name := r]);
      c'.(faults := Faults(live, c'))
  }

  function PushStep(c: Core, name: string, due: real): Core {
    if name !in c.states then c else c.(states := c.states[name := c.states[name].(nextDue := due)])
  }

  function Step(live: bool, c: Core, e: Event): Core {
    match e
    case Registered(spec) => RegisterStep(c, spec)
    case Enabled(name, on, now) => EnableStep(c, name, on, now)
    case Result(r, now, draw) => ResultStep(live, c, r, now, draw)
    case DuePushed(name, due) => PushStep(c, name, due)
  }

  function Run(live: bool, h: seq<Event>): Core {
    if h == [] then Core(map[], map[], map[], {}) else Step(live, Run(live, h[..|h| - 1]), h[|h| - 1])
  }

  /** The stored results are the last ones applied, and the fault set is never stale. */
  ghost predicate Current(live: bool, c: Core) {
    && c.specs.Keys == c.states.Keys
    && c.results.Keys <= c.states.Keys
    && (forall n :: n in c.states ==> Reachable(c.states[n]))
    && (forall n :: n in c.states ==> c.states[n].lastResult == if n in c.results then Some(c.results[n]) else None)
    && c.faults == Faults(live, c)
  }

  lemma CurrentKeys(live: bool, c: Core)
    requires Current(live, c)
    ensures c.specs.Keys == c.states.Keys && c.results.Keys <= c.states.Keys
  {
  }

  /** Events that leave statuses and results alone leave the fault set alone. */
  lemma FaultsDependOnStatuses(live: bool, a: Core, b: Core)
    requires a.results == b.results
    requires forall n :: n in a.results ==> StoredFailing(a, n) == StoredFailing(b, n)
    ensures Faults(live, a) == Faults(live, b)
  {
    assert forall n :: n in a.results && StoredFailing(a, n) && BlamesDependency(a.results[n]) ==>
             StoredFailing(b, n) && BlamesDependency(b.results[n]);
    assert forall n :: n in b.results && StoredFailing(b, n) && BlamesDependency(b.results[n]) ==>
             StoredFailing(a, n) && BlamesDependency(a.results[n]);
  }

  lemma RegisterKeepsCurrent(live: bool, c: Core, spec: CheckSpec)
    requires Current(live, c)
    ensures Current(live, RegisterStep(c, spec))
  {
    FaultsDependOnStatuses(live, c, RegisterStep(c, spec));
    hide Faults;
  }

  lemma EnableKeepsCurrent(live: bool, c: Core, name: string, on: bool, now: real)
    requires Current(live, c)
    ensures Current(live, EnableStep(c, name, on, now))
  {
    FaultsDependOnStatuses(live, c, EnableStep(c, name, on, now));
    hide Faults;
  }

  lemma PushKeepsCurrent(live: bool, c: Core, name: string, due: real)
    requires Current(live, c)
    ensures Current(live, PushStep(c, name, due))
  {
    FaultsDependOnStatuses(live, c, PushStep(c, name, due));
    hide Faults;
  }

  lemma ResultKeepsCurrent(live: bool, c: Core, r: CheckResult, now: real, draw: real)
    requires Current(live, c)
    ensures Current(live, ResultStep(live, c, r, now, draw))
  {
    if r.name in c.specs {
      AfterResultReachable(c.specs[r.name], c.states[r.name], r, now, draw);
      var d := ResultStep(live, c, r, now, draw);
      FaultsDependOnStatuses(live, d, d.(faults := c.faults));
    }
  }

  /** In every reachable state the fault set is the one the stored statuses and results call for. */
  lemma {:induction false} RunsStayCurrent(live: bool, h: seq<Event>)
    ensures Current(live, Run(live, h))
  {
    if h != [] {
      var c := Run(live, h[..|h| - 1]);
      RunsStayCurrent(live, h[..|h| - 1]);
      match h[|h| - 1]
      case Registered(spec) => RegisterKeepsCurrent(live, c, spec);
      case Enabled(name, on, now) => EnableKeepsCurrent(live, c, name, on, now);
      case Result(r, now, draw) => ResultKeepsCurrent(live, c, r, now, draw);
      case DuePushed(name, due) => PushKeepsCurrent(live, c, name, due);
    }
  }

  /**
   * Liveness blames this process only for its own confirmed faults: every named check is stored
   * FAILING with a wedged category, and no stored-FAILING check has any other category.
   */
  lemma {:induction false} SelfFaultsAreOwnFaults(live: bool, h: seq<Event>)
    ensures var c := Run(live, h);
            && (forall n :: n in c.faults ==> StoredFailing(c, n) && IsWedged(c.results[n]))
            && (c.faults != {} ==> forall n :: StoredFailing(c, n) ==> !BlamesDependency(c.results[n]))
            && (c.faults != {} <==> live && !DependencyExplains(c)
                                    && exists n :: n in c.results && StoredFailing(c, n) && IsWedged(c.results[n]))
  {
    RunsStayCurrent(live, h);
    var c := Run(live, h);
    if n :| n in c.results && StoredFailing(c, n) && IsWedged(c.results[n]) {
      assert live && !DependencyExplains(c) ==> n in Faults(live, c);
    }
    if n :| n in c.faults {
      assert n in Faults(live, c);
    }
  }

  /** A run in which no result carried a wedged category never names a self-fault. */
  lemma {:induction false} NoWedgeNoFault(live: bool, h: seq<Event>)
    requires forall i :: 0 <= i < |h| && h[i].Result? ==> !IsWedged(h[i].result)
    ensures Run(live, h).faults == {}
    ensures forall n :: n in Run(live, h).results ==> !IsWedged(Run(live, h).results[n])
  {
    if h != [] {
      NoWedgeNoFault(live, h[..|h| - 1]);
    }
  }

  // ---- the verdicts ----

  function LiveStatus(faults: set<string>, now: real, beat: real, thresholdMs: real): Status {
    if (now - beat) * 1000.0 > thresholdMs then Failing
    else if faults != {} then Failing
    else OK
  }

  predicate Lags(now: real, beat: real, thresholdMs: real) {
    (now - beat) * 1000.0 > thresholdMs
  }

  /** Some confirmed failure is this process's own, and none has another cause. */
  predicate SelfInflicted(c: Core) {
    && (exists n :: n in c.results && StoredFailing(c, n) && IsWedged(c.results[n]))
    && (forall n :: n in c.results && StoredFailing(c, n) ==> !BlamesDependency(c.results[n]))
  }

  lemma FaultsIff(live: bool, c: Core)
    ensures Faults(live, c) != {} <==> live && SelfInflicted(c)
  {
    hide IsWedged, BlamesDependency, StoredFailing;
    if n :| n in c.results && StoredFailing(c, n) && IsWedged(c.results[n]) {
      assert live && !DependencyExplains(c) ==> n in Faults(live, c);
    }
    if n :| n in Faults(live, c) {
      assert n in c.results && StoredFailing(c, n) && IsWedged(c.results[n]);
    }
  }

  lemma CurrentLiveIff(live: bool, c: Core, now: real, beat: real, thresholdMs: real)
    requires Current(live, c)
    ensures var s := LiveStatus(c.faults, now, beat, thresholdMs);
            && s in {OK, Failing}
            && (s == Failing <==> Lags(now, beat, thresholdMs) || (live && SelfInflicted(c)))
  {
    FaultsIff(live, c);
    hide Faults, SelfInflicted;
  }

  /**
   * Over every run /live fails exactly when the loop lags or, with self-faults switched on, some check is stored
   * FAILING with a wedged category and none is stored FAILING for another cause. Otherwise it is OK.
   */
  lemma LiveFailsIff(live: bool, h: seq<Event>, now: real, beat: real, thresholdMs: real)
    ensures var s := LiveStatus(Run(live, h).faults, now, beat, thresholdMs);
            && s in {OK, Failing}
            && (s == Failing <==> Lags(now, beat, thresholdMs) || (live && SelfInflicted(Run(live, h))))
  {
    RunsStayCurrent(live, h);
    CurrentLiveIff(live, Run(live, h), now, beat, thresholdMs);
    hide Run, SelfInflicted;
  }

  /** Without a wedged result, /live fails exactly when the loop lags: no dependency verdict reaches it. */
  lemma OnlyLagWithoutWedge(live: bool, h: seq<Event>, now: real, beat: real, thresholdMs: real)
    requires forall i :: 0 <= i < |h| && h[i].Result? ==> !IsWedged(h[i].result)
    ensures LiveStatus(Run(live, h).faults, now, beat, thresholdMs) == Failing <==> Lags(now, beat, thresholdMs)
    ensures !SelfInflicted(Run(live, h))
  {
    NoWedgeNoFault(live, h);
  }

  /**
   * A timeout blames the dependency: the check that timed out is never a self-fault, and once it is confirmed
   * FAILING no other check is one either.
   */
  lemma TimeoutSilencesSelfFaults(live: bool, c: Core, name: string, now: real, wall: real, timeout: real, draw: real)
    requires Current(live, c) && name in c.specs
    ensures var d := ResultStep(live, c, TimeoutResult(name, now, wall, timeout), now, draw);
            && name !in d.faults
            && (d.states[name].effective == Failing ==> d.faults == {})
            && d.states[name].consecutiveFail == c.states[name].consecutiveFail + 1
  {
    var d := ResultStep(live, c, TimeoutResult(name, now, wall, timeout), now, draw);
    assert d.states[name].effective == Failing ==> StoredFailing(d, name) && BlamesDependency(d.results[name]);
    hide Schedule;
  }

  /** A check that raised is UNKNOWN, whatever the exception was classified as, and no self-fault. */
  lemma RaisedIsUnknown(live: bool, c: Core, name: string, now: real, wall: real, category: Category, detail: string, draw: real)
    requires Current(live, c) && name in c.specs
    ensures var d := ResultStep(live, c, ErrorResult(name, now, wall, category, detail), now, draw);
            && d.states[name].effective == Unknown && name !in d.faults
            && d.states[name].consecutiveFail == c.states[name].consecutiveFail
            && d.results[name].category == Some(category)
  {
    hide Schedule;
  }

  /** Alive: the loop keeps its cadence and the process is not its own fault. */
  predicate Working(live: bool, c: Core, now: real, beat: real, thresholdMs: real) {
    !Lags(now, beat, thresholdMs) && !(live && SelfInflicted(c))
  }

  /**
   * The precedence of a dependency over a self-fault lasts only while its last sample failed:
   * one unconfirmed OK has no category, so the check stays FAILING but stops explaining anything.
   */
  lemma UnconfirmedRecoveryStopsExplaining(c: Core, dep: string, ok: CheckResult, now: real, draw: real)
    requires Current(true, c) && dep in c.specs && StoredFailing(c, dep)
    requires ok.name == dep && ok.status == OK && ok.category == None
    requires c.specs[dep].successThreshold > c.states[dep].consecutiveOk + 1
    ensures var d := ResultStep(true, c, ok, now, draw);
            && StoredFailing(d, dep)
            && ((forall n :: n != dep && StoredFailing(c, n) ==> !BlamesDependency(c.results[n]))
                ==> !DependencyExplains(d)
                    && d.faults == set n | n in c.results && n != dep && StoredFailing(c, n) && IsWedged(c.results[n]))
  {
    var d := ResultStep(true, c, ok, now, draw);
    assert forall n :: n != dep ==> StoredFailing(d, n) == StoredFailing(c, n);
  }

  /** The projection of a stored result through the status a reader sees. */
  function WithStatus(r: CheckResult, status: Status): CheckResult {
    if r.status == status then r
    else r.(status := status,
            category := if status != OK then r.category else None,
            detail := if status != OK then r.detail else None)
  }

  /** A projected result has the status a reader sees; category and detail go only when that hides a complaint. */
  lemma ProjectionMeaning(r: CheckResult, status: Status)
    ensures var p := WithStatus(r, status);
            && p.status == status
            && (status != OK || r.status == OK ==> p.category == r.category && p.detail == r.detail)
            && p == r.(status := p.status, category := p.category, detail := p.detail)
            && (status == OK && r.status != OK ==> p.category == None && p.detail == None)
  {
  }

  function Projected(c: Core, now: real): map<string, CheckResult>
    requires c.specs.Keys == c.states.Keys && c.results.Keys <= c.states.Keys
  {
    map n | n in c.results :: WithStatus(c.results[n], ReadAt(c.specs[n], c.states[n], now))
  }

  datatype Snapshot = Snapshot(
    status: Status,
    liveStatus: Status,
    results: map<string, CheckResult>,
    uptime: real,
    draining: bool)

  function SnapshotLiveness(s: Snapshot): Liveness {
    if s.liveStatus == OK then Alive else Unalive
  }

  function SnapshotReadiness(s: Snapshot): Readiness {
    if s.draining then Unready
    else if SnapshotLiveness(s) == Unalive then Unready
    else ReadinessFromStatus(s.status)
  }

  /** The readiness a snapshot shows is the one its checks call for. */
  lemma SnapshotFits(s: Snapshot, specs: map<string, CheckSpec>, states: map<string, CheckState>, now: real, grace: bool)
    requires specs.Keys == states.Keys && s.status == Overall(specs, states, now, grace)
    ensures IsReadiness(SnapshotReadiness(s), specs, states, now, grace, !s.draining && s.liveStatus == OK)
  {
    ReadinessFits(specs, states, now, grace, SnapshotLiveness(s));
    hide Overall, CriticalNotOk, CriticalDown, SomeNotOk;
  }

  class HealthMonitor {
    const machine: StateMachine
    const liveOnSelfFault: bool
    const lagThresholdMs: real
    var results: map<string, CheckResult>
    var selfFaults: set<string>
    var startedAt: real
    var loopBeat: real
    var bootDeadline: Option<real>
    var bootDone: bool
    var draining: bool
    var lastReadiness: Option<Readiness>
    var lastLiveness: Option<Liveness>

    ghost function CoreState(): Core
      reads this, machine
    {
      Core(machine.specs, machine.states, results, selfFaults)
    }

    ghost predicate Valid()
      reads this, machine
    {
      machine.Valid() && Current(liveOnSelfFault, CoreState())
    }

    constructor (live: bool, lagThresholdMs: real, now: real)
      ensures Valid() && fresh(machine) && liveOnSelfFault == live && this.lagThresholdMs == lagThresholdMs
      ensures CoreState() == Run(live, []) && !draining && !bootDone && bootDeadline == None
    {
      machine := new StateMachine();
      liveOnSelfFault := live;
      this.lagThresholdMs := lagThresholdMs;
      results, selfFaults := map[], {};
      startedAt, loopBeat := now, now;
      bootDeadline, bootDone, draining := None, false, false;
      lastReadiness, lastLiveness := None, None;
    }

    method Register(spec: CheckSpec)
      requires Valid()
      modifies machine
      ensures Valid()
      ensures CoreState() == Step(liveOnSelfFault, old(CoreState()), Registered(spec))
    {
      hide Current, Reachable;
      RegisterKeepsCurrent(liveOnSelfFault, CoreState(), spec);
      machine.Add(spec);
    }

    method SetEnabled(name: string, on: bool, now: real)
      requires Valid() && name in machine.specs
      modifies machine
      ensures Valid()
      ensures CoreState() == Step(liveOnSelfFault, old(CoreState()), Enabled(name, on, now))
    {
      hide Current, Reachable, AfterSwitch;
      EnableKeepsCurrent(liveOnSelfFault, CoreState(), name, on, now);
      machine.SetEnabled(name, on, now);
    }

    method Start(bootGrace: real, now: real)
      requires Valid()
      modifies this`startedAt, this`bootDeadline, this`loopBeat, this`bootDone
      ensures Valid() && CoreState() == old(CoreState())
      ensures startedAt == now && loopBeat == now && !bootDone
      ensures bootDeadline == if bootGrace != 0.0 then Some(now + bootGrace) else None
    {
      hide Current, Reachable;
      startedAt := now;
      bootDeadline := if bootGrace != 0.0 then Some(startedAt + bootGrace) else None;
      loopBeat := now;
      bootDone := false;
    }

    /** Take in one result, then recompute the self-faults. */
    method Apply(result: CheckResult, now: real, draw: real)
      requires Valid() && result.name in machine.specs
      modifies this`results, this`selfFaults, machine`states
      ensures Valid()
      ensures CoreState() == Step(liveOnSelfFault, old(CoreState()), Result(result, now, draw))
    {
      hide Current, Faults, AfterResult, Reachable, StateMachine.Valid;
      ghost var before := CoreState();
      CurrentKeys(liveOnSelfFault, before);
      ResultKeepsCurrent(liveOnSelfFault, before, result, now, draw);
      machine.Apply(result.name, result, now, draw);
      results := results[result.name := result];
      var faults := RecomputeSelfFaults();
      selfFaults := faults;
      assert CoreState() == ResultStep(liveOnSelfFault, before, result, now, draw);
    }

    method RecomputeSelfFaults() returns (faults: set<string>)
      requires results.Keys <= machine.states.Keys
      ensures faults == Faults(liveOnSelfFault, CoreState())
    {
      if !liveOnSelfFault {
        return {};
      }
      var wedged: set<string>, dependencyFailing := {}, false;
      var rest := results.Keys;
      while rest != {}
        invariant rest <= results.Keys
        invariant wedged == set n | n in results && n !in rest && StoredFailing(CoreState(), n) && IsWedged(results[n])
        invariant dependencyFailing <==>
                  exists n :: n in results && n !in rest && StoredFailing(CoreState(), n) && BlamesDependency(results[n])
      {
        var name :| name in rest;
        rest := rest - {name};
        if machine.states[name].effective == Failing {
          var category := results[name].category;
          if category.Some? && category.value in WEDGED_CATEGORIES {
            wedged := wedged + {name};
          } else if category.Some? {
            dependencyFailing := true;
          }
        }
      }
      return if dependencyFailing then {} else wedged;
    }

    function LiveNow(now: real): Status
      reads this
    {
      LiveStatus(selfFaults, now, loopBeat, lagThresholdMs)
    }

    ghost predicate IsWorking(now: real)
      reads this, machine
    {
      Working(liveOnSelfFault, CoreState(), now, loopBeat, lagThresholdMs)
    }

    lemma AliveIffWorking(now: real)
      requires Valid()
      ensures LiveNow(now) == if IsWorking(now) then OK else Failing
      ensures LivenessNow(now) == Alive <==> IsWorking(now)
    {
      CurrentLiveIff(liveOnSelfFault, CoreState(), now, loopBeat, lagThresholdMs);
      hide Current, StateMachine.Valid, SelfInflicted, Lags, LiveStatus;
    }

    /** The readiness r is the one the checks call for at this instant. */
    ghost predicate Answers(r: Readiness, now: real, working: bool)
      requires Valid()
      reads this, machine
    {
      IsReadiness(r, machine.specs, machine.states, now, InGrace(if bootDone then None else bootDeadline, now), working)
    }

    function LivenessNow(now: real): Liveness
      reads this
    {
      if LiveNow(now) == OK then Alive else Unalive
    }

    lemma ProjectionAnswers(status: Status, now: real)
      requires Valid()
      requires status == Overall(machine.specs, machine.states, now, InGrace(if bootDone then None else bootDeadline, now))
      ensures Answers(ProjectReadiness(status, LivenessNow(now)), now, IsWorking(now))
    {
      AliveIffWorking(now);
      var grace := InGrace(if bootDone then None else bootDeadline, now);
      ReadinessFits(machine.specs, machine.states, now, grace, LivenessNow(now));
      hide Current, StateMachine.Valid, IsReadiness, IsWorking, LiveStatus, Overall, ProjectReadiness;
    }

    lemma SnapshotAnswers(s: Snapshot, now: real)
      requires Valid() && s.draining == draining && s.liveStatus == LiveNow(now)
      requires s.status == Overall(machine.specs, machine.states, now, InGrace(if bootDone then None else bootDeadline, now))
      ensures Answers(SnapshotReadiness(s), now, !draining && IsWorking(now))
    {
      AliveIffWorking(now);
      SnapshotFits(s, machine.specs, machine.states, now, InGrace(if bootDone then None else bootDeadline, now));
      hide Current, StateMachine.Valid, IsReadiness, IsWorking, LiveStatus, Overall, SnapshotReadiness;
    }

    /** The aggregate status; the boot latch closes the first time every critical check has been OK. */
    method AggregateStatus(now: real) returns (status: Status)
      requires Valid()
      modifies this`bootDone
      ensures Valid()
      ensures bootDone == (old(bootDone) || Booted(machine.specs, machine.states))
      ensures status == Overall(machine.specs, machine.states, now, InGrace(if bootDone then None else bootDeadline, now))
      ensures status == Starting <==>
              !old(bootDone) && bootDeadline.Some? && now < bootDeadline.value
              && exists n :: n in machine.specs && machine.specs[n].enabled && machine.specs[n].critical
                             && machine.states[n].lastOkAt.None?
    {
      StartingIff(machine.specs, machine.states, now, bootDone, bootDeadline);
      if !bootDone {
        var booted := BootComplete(machine);
        if booted {
          bootDone := true;
        }
      }
      status := AggregateChecks(machine, now, if bootDone then None else bootDeadline);
    }

    method Readiness(now: real) returns (r: Readiness)
      requires Valid()
      modifies this`bootDone
      ensures Valid()
      ensures Answers(r, now, !draining && IsWorking(now))
      ensures draining ==> r == Unready && bootDone == old(bootDone)
      ensures !draining ==>
                bootDone == (old(bootDone) || Booted(machine.specs, machine.states))
                && r == ProjectReadiness(
                     Overall(machine.specs, machine.states, now, InGrace(if bootDone then None else bootDeadline, now)),
                     LivenessNow(now))
    {
      hide Current, Overall, Booted, ProjectReadiness, StateMachine.Valid, CriticalNotOk, CriticalDown, LivenessNow, IsWorking;
      if draining {
        return Unready;
      }
      var status := AggregateStatus(now);
      r := ProjectReadiness(status, LivenessNow(now));
      ProjectionAnswers(status, now);
    }

    /** Once per runner cycle: note the verdicts. Returns whether a readiness change was announced. */
    method Tick(now: real) returns (changed: bool)
      requires Valid()
      modifies this`bootDone, this`lastLiveness, this`lastReadiness
      ensures Valid()
      ensures bootDone == (old(bootDone) || Booted(machine.specs, machine.states))
      ensures lastLiveness == Some(LivenessNow(now)) && (LivenessNow(now) == Alive <==> IsWorking(now))
      ensures lastReadiness == Some(ProjectReadiness(
                Overall(machine.specs, machine.states, now, InGrace(if bootDone then None else bootDeadline, now)),
                LivenessNow(now)))
      ensures Answers(lastReadiness.value, now, IsWorking(now))
      ensures changed <==> old(lastReadiness).Some? && old(lastReadiness) != lastReadiness
    {
      hide Current, Overall, Booted, ProjectReadiness, StateMachine.Valid, Answers, LiveStatus, IsWorking;
      var liveness := LivenessNow(now);
      if lastLiveness.None? || lastLiveness.value != liveness {
        lastLiveness := Some(liveness);
      }
      var status := AggregateStatus(now);
      var current := ProjectReadiness(status, liveness);
      changed := lastReadiness.Some? && current != lastReadiness.value;
      if lastReadiness.None? || changed {
        lastReadiness := Some(current);
      }
      AliveIffWorking(now);
      ProjectionAnswers(status, now);
    }

    /** Idempotent: a second call changes nothing. Liveness is untouched. The readiness noted is that of any tick. */
    method BeginShutdown(now: real)
      requires Valid()
      modifies this`draining, this`bootDone, this`lastLiveness, this`lastReadiness
      ensures Valid() && draining && CoreState() == old(CoreState()) && LivenessNow(now) == old(LivenessNow(now))
      ensures old(draining) ==> unchanged(this)
      ensures !old(draining) ==>
                bootDone == (old(bootDone) || Booted(machine.specs, machine.states))
                && lastReadiness == Some(ProjectReadiness(
                     Overall(machine.specs, machine.states, now, InGrace(if bootDone then None else bootDeadline, now)),
                     LivenessNow(now)))
                && Answers(lastReadiness.value, now, IsWorking(now))
    {
      hide Current, Overall, Booted, ProjectReadiness, StateMachine.Valid, Answers, LiveStatus, IsWorking;
      if draining {
        return;
      }
      draining := true;
      var _ := Tick(now);
    }

    method TakeSnapshot(now: real) returns (s: Snapshot)
      requires Valid()
      modifies this`bootDone
      ensures Valid()
      ensures bootDone == (old(bootDone) || Booted(machine.specs, machine.states))
      ensures s.status == Overall(machine.specs, machine.states, now, InGrace(if bootDone then None else bootDeadline, now))
      ensures s.liveStatus == LiveNow(now) && s.draining == draining && s.uptime == now - startedAt
      ensures s.liveStatus == if IsWorking(now) then OK else Failing
      ensures Answers(SnapshotReadiness(s), now, !draining && IsWorking(now))
      ensures s.results == Projected(CoreState(), now)
    {
      hide Current, Overall, Booted, ReadAt, WithStatus, StateMachine.Valid, Answers, LiveStatus, IsWorking, SnapshotReadiness;
      CurrentKeys(liveOnSelfFault, CoreState());
      var status := AggregateStatus(now);
      var projected := map n | n in results :: WithStatus(results[n], machine.Effective(n, now));
      s := Snapshot(status, LiveNow(now), projected, now - startedAt, draining);
      AliveIffWorking(now);
      SnapshotAnswers(s, now);
    }
  }

  // ---- draining ----

  /** Three surfaces, one instant: the snapshot and /ready agree on readiness, draining or not. */
  method SnapshotAgreesWithReadiness(m: HealthMonitor, now: real) returns (s: Snapshot, r: Readiness)
    requires m.Valid()
    modifies m`bootDone
    ensures SnapshotReadiness(s) == r
    ensures m.Valid() && m.Answers(r, now, !m.draining && m.IsWorking(now))
    ensures m.draining ==> r == Unready
  {
    hide Current, Overall, Booted, ReadAt, StateMachine.Valid, IsReadiness, SelfInflicted, LiveStatus, HealthMonitor.Valid;
    s := m.TakeSnapshot(now);
    r := m.Readiness(now);
  }

  /**
   * The readiness a shutdown or a tick records ignores draining: it differs from what /ready serves at the same
   * instant exactly when the worker is alive and not FAILING.
   */
  method TickIgnoresDraining(m: HealthMonitor, now: real) returns (recorded: Readiness, served: Readiness)
    requires m.Valid() && !m.draining
    modifies m`draining, m`bootDone, m`lastLiveness, m`lastReadiness
    ensures m.draining && m.lastReadiness == Some(recorded) && served == Unready
    ensures recorded != served <==>
            m.LivenessNow(now) == Alive
            && Overall(m.machine.specs, m.machine.states, now, InGrace(if m.bootDone then None else m.bootDeadline, now)) != Failing
  {
    hide Overall, Booted, InGrace, HealthMonitor.Valid, HealthMonitor.LivenessNow;
    m.BeginShutdown(now);
    recorded := m.lastReadiness.value;
    served := m.Readiness(now);
  }

  /** The same of every later tick, until the process exits. */
  method EveryTickIgnoresDraining(m: HealthMonitor, now: real) returns (recorded: Readiness, served: Readiness)
    requires m.Valid() && m.draining
    modifies m`bootDone, m`lastLiveness, m`lastReadiness
    ensures m.draining && m.lastReadiness == Some(recorded) && served == Unready
    ensures recorded != served <==>
            m.LivenessNow(now) == Alive
            && Overall(m.machine.specs, m.machine.states, now, InGrace(if m.bootDone then None else m.bootDeadline, now)) != Failing
  {
    hide Overall, Booted, InGrace, HealthMonitor.Valid, HealthMonitor.LivenessNow;
    var _ := m.Tick(now);
    recorded := m.lastReadiness.value;
    served := m.Readiness(now);
  }
}
