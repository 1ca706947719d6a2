/** The monitor and its restart policy together: what each applied result lets the policy see. */
module Supervision {
  import opened Wrappers
  import opened Model
  import opened Machine
  import M = Monitor
  import R = Restart

  /** The clock at one result: of the snapshot, of the uptime, and the policy's own two reads. */
  datatype Moment = Moment(now: real, uptime: real, checked: real, fired: real)

  /** What the policy sees: one snapshot after every applied result. */
  function Observations(config: R.Config, live: bool, h: seq<M.Event>, clock: seq<Moment>): seq<R.Observation>
    requires |clock| == |h|
  {
    if h == [] then []
    else
      var before := Observations(config, live, h[..|h| - 1], clock[..|h| - 1]);
      var m := clock[|h| - 1];
      if !h[|h| - 1].Result? then before
      else
        M.RunsStayCurrent(live, h);
        before + [R.Observation(R.Triggers(config, M.Projected(M.Run(live, h), m.now)), m.uptime, m.checked, m.fired)]
  }

  /** Some check reads FAILING, as its readers see it, and was last reported with a trigger category. */
  predicate ConfirmedTrigger(config: R.Config, c: M.Core, now: real)
    requires c.specs.Keys == c.states.Keys && c.results.Keys <= c.states.Keys
  {
    exists n :: n in c.results && ReadAt(c.specs[n], c.states[n], now) == Failing
                && c.results[n].category.Some? && c.results[n].category.value in config.triggers
  }

  /** The snapshot triggers exactly on a confirmed, fresh failure: a single failing sample is not enough. */
  lemma TriggerIff(config: R.Config, c: M.Core, now: real)
    requires c.specs.Keys == c.states.Keys && c.results.Keys <= c.states.Keys
    ensures R.Triggers(config, M.Projected(c, now)) <==> ConfirmedTrigger(config, c, now)
  {
    hide ReadAt;
    var results := M.Projected(c, now);
    forall n | n in c.results
      ensures n in results && results[n] == M.WithStatus(c.results[n], ReadAt(c.specs[n], c.states[n], now))
    {
    }
    if ConfirmedTrigger(config, c, now) {
      var n :| n in c.results && ReadAt(c.specs[n], c.states[n], now) == Failing
               && c.results[n].category.Some? && c.results[n].category.value in config.triggers;
      assert n in results && results[n].status == Failing && results[n].category == c.results[n].category;
    }
  }

  lemma {:induction false} ResultsComeFromEvents(live: bool, h: seq<M.Event>, n: string)
    requires n in M.Run(live, h).results
    ensures exists i :: 0 <= i < |h| && h[i].Result? && h[i].result == M.Run(live, h).results[n]
  {
    var p, e := h[..|h| - 1], h[|h| - 1];
    var c := M.Run(live, p);
    if n in c.results && M.Run(live, h).results[n] == c.results[n] {
      ResultsComeFromEvents(live, p, n);
      var i :| 0 <= i < |p| && p[i].Result? && p[i].result == c.results[n];
      assert h[i] == p[i];
    } else {
      assert e.Result? && e.result == M.Run(live, h).results[n];
    }
  }

  /** The categories of every result stay clear of the policy's triggers. */
  ghost predicate NoTriggerIn(config: R.Config, h: seq<M.Event>) {
    forall i :: 0 <= i < |h| && h[i].Result? && h[i].result.category.Some? ==>
      h[i].result.category.value !in config.triggers
  }

  lemma {:induction false} NothingSeen(config: R.Config, live: bool, h: seq<M.Event>, clock: seq<Moment>)
    requires |clock| == |h| && NoTriggerIn(config, h)
    ensures forall k :: 0 <= k < |Observations(config, live, h, clock)| ==> !Observations(config, live, h, clock)[k].hit
  {
    if h != [] {
      var p := h[..|h| - 1];
      assert forall i :: 0 <= i < |p| ==> p[i] == h[i];
      NothingSeen(config, live, p, clock[..|h| - 1]);
      if h[|h| - 1].Result? {
        M.RunsStayCurrent(live, h);
        var c, now := M.Run(live, h), clock[|h| - 1].now;
        TriggerIff(config, c, now);
        hide ReadAt, M.Current, R.Triggers;
        if ConfirmedTrigger(config, c, now) {
          var n :| n in c.results && ReadAt(c.specs[n], c.states[n], now) == Failing
                   && c.results[n].category.Some? && c.results[n].category.value in config.triggers;
          ResultsComeFromEvents(live, h, n);
          assert false;
        }
      }
    }
  }

  lemma {:induction false} NoHitNoFire(config: R.Config, obs: seq<R.Observation>)
    requires forall k :: 0 <= k < |obs| ==> !obs[k].hit
    ensures R.FireTimes(config, obs) == []
  {
    if obs != [] {
      var p := obs[..|obs| - 1];
      assert forall k :: 0 <= k < |p| ==> p[k] == obs[k];
      NoHitNoFire(config, p);
    }
  }

  /** Over every run, failures outside the trigger list never restart the worker, whatever the clock does. */
  lemma OutageNeverRestarts(config: R.Config, live: bool, h: seq<M.Event>, clock: seq<Moment>)
    requires |clock| == |h| && NoTriggerIn(config, h)
    ensures R.FireTimes(config, Observations(config, live, h, clock)) == []
  {
    NothingSeen(config, live, h, clock);
    NoHitNoFire(config, Observations(config, live, h, clock));
  }

  /**
   * When the default policy sees a trigger, /live names a self-fault unless some confirmed failure explains it:
   * liveness lets a failing dependency outrank a wedge, the restart policy does not.
   */
  lemma PolicyIgnoresExplanations(config: R.Config, h: seq<M.Event>, now: real)
    requires config.triggers == R.SELF_FAULTS
    requires var c := M.Run(true, h);
             c.specs.Keys == c.states.Keys && c.results.Keys <= c.states.Keys && R.Triggers(config, M.Projected(c, now))
    ensures M.Run(true, h).faults == {} <==> M.DependencyExplains(M.Run(true, h))
  {
    var c := M.Run(true, h);
    M.RunsStayCurrent(true, h);
    TriggerIff(config, c, now);
    var n :| n in c.results && ReadAt(c.specs[n], c.states[n], now) == Failing
             && c.results[n].category.Some? && c.results[n].category.value in config.triggers;
    ReadFailingIsStored(c, n, now);
    hide ReadAt, R.Triggers, M.Projected;
    if !M.DependencyExplains(c) {
      assert !BlamesDependency(c.results[n]);
      assert n in M.Faults(true, c);
    }
  }

  lemma ReadFailingIsStored(c: M.Core, n: string, now: real)
    requires c.specs.Keys == c.states.Keys && c.results.Keys <= c.states.Keys && n in c.results
    requires ReadAt(c.specs[n], c.states[n], now) == Failing
    ensures M.StoredFailing(c, n)
  {
  }

  // ---- exactly when the worker is restarted ----

  datatype Sighting = Sighting(core: M.Core, at: Moment)

  ghost predicate Readable(live: bool, h: seq<M.Event>, s: Sighting) {
    && s.core.specs.Keys == s.core.states.Keys && s.core.results.Keys <= s.core.states.Keys
    && exists i :: 0 <= i <= |h| && s.core == M.Run(live, h[..i])
  }

  /** The monitor's state at every applied result. */
  function Sightings(live: bool, h: seq<M.Event>, clock: seq<Moment>): seq<Sighting>
    requires |clock| == |h|
  {
    if h == [] then []
    else
      var before := Sightings(live, h[..|h| - 1], clock[..|h| - 1]);
      if h[|h| - 1].Result? then before + [Sighting(M.Run(live, h), clock[|h| - 1])] else before
  }

  lemma {:induction false} SightingsAreReadable(live: bool, h: seq<M.Event>, clock: seq<Moment>)
    requires |clock| == |h|
    ensures forall k :: 0 <= k < |Sightings(live, h, clock)| ==> Readable(live, h, Sightings(live, h, clock)[k])
  {
    if h != [] {
      var p := h[..|h| - 1];
      SightingsAreReadable(live, p, clock[..|h| - 1]);
      assert h[..|h|] == h;
      M.RunsStayCurrent(live, h);
      hide M.Run;
      forall s: Sighting | Readable(live, p, s) ensures Readable(live, h, s) {
        var i :| 0 <= i <= |p| && s.core == M.Run(live, p[..i]);
        assert h[..i] == p[..i];
      }
    }
  }

  predicate Seen(config: R.Config, s: Sighting) {
    && s.core.specs.Keys == s.core.states.Keys && s.core.results.Keys <= s.core.states.Keys
    && ConfirmedTrigger(config, s.core, s.at.now)
  }

  /** The policy observes a hit exactly where a confirmed trigger was to be seen. */
  lemma {:induction false} HitsAreSightings(config: R.Config, live: bool, h: seq<M.Event>, clock: seq<Moment>)
    requires |clock| == |h|
    ensures |Observations(config, live, h, clock)| == |Sightings(live, h, clock)|
    ensures forall k :: 0 <= k < |Sightings(live, h, clock)| ==>
              var s := Sightings(live, h, clock)[k];
              Observations(config, live, h, clock)[k] == R.Observation(Seen(config, s), s.at.uptime, s.at.checked, s.at.fired)
  {
    if h != [] {
      HitsAreSightings(config, live, h[..|h| - 1], clock[..|h| - 1]);
      M.RunsStayCurrent(live, h);
      TriggerIff(config, M.Run(live, h), clock[|h| - 1].now);
      hide M.Run, R.Triggers, M.Projected, ConfirmedTrigger;
    }
  }

  /** At sighting i the trigger has stood for `afterCycles` applied results, in a process old enough. */
  predicate Stands(config: R.Config, seen: seq<Sighting>, i: nat)
    requires i < |seen|
  {
    && Seen(config, seen[i]) && seen[i].at.uptime >= config.minUptime && i + 1 >= config.afterCycles
    && forall j :: 0 <= j <= i && i - j < config.afterCycles ==> Seen(config, seen[j])
  }

  /**
   * Over every run and any clock, the worker is restarted exactly when the policy is on, has a budget, and some
   * confirmed trigger stood for `afterCycles` applied results, explained by a failing dependency or not.
   */
  lemma WorkerRestartsIff(config: R.Config, live: bool, h: seq<M.Event>, clock: seq<Moment>)
    requires |clock| == |h|
    ensures var seen := Sightings(live, h, clock);
            R.FireTimes(config, Observations(config, live, h, clock)) != [] <==>
            config.enabled && config.maxPerHour >= 1 && exists i :: 0 <= i < |seen| && Stands(config, seen, i)
  {
    var obs, seen := Observations(config, live, h, clock), Sightings(live, h, clock);
    HitsAreSightings(config, live, h, clock);
    R.NeverFiresIff(config, obs);
    hide Seen, Observations, Sightings, R.FireTimes;
    forall i: nat | i < |obs| ensures R.Earned(config, obs, i) == Stands(config, seen, i) {
    }
    hide R.Earned, Stands;
  }

  lemma {:induction false} FiredAtHits(config: R.Config, obs: seq<R.Observation>, k: nat)
    requires k < |R.FiredAt(config, obs)|
    ensures R.FiredAt(config, obs)[k] < |obs| && obs[R.FiredAt(config, obs)[k]].hit
  {
    R.FiresAreEarned(config, obs, k);
  }

  /** At every restart by the default policy, /live was silent exactly when a confirmed failure explained the wedge. */
  lemma SilentRestartIff(config: R.Config, h: seq<M.Event>, clock: seq<Moment>, k: nat)
    requires |clock| == |h| && config.triggers == R.SELF_FAULTS
    requires k < |R.FiredAt(config, Observations(config, true, h, clock))|
    ensures var i, seen := R.FiredAt(config, Observations(config, true, h, clock))[k], Sightings(true, h, clock);
            i < |seen| && (seen[i].core.faults == {} <==> M.DependencyExplains(seen[i].core))
  {
    var obs, seen := Observations(config, true, h, clock), Sightings(true, h, clock);
    HitsAreSightings(config, true, h, clock);
    FiredAtHits(config, obs, k);
    SightingsAreReadable(true, h, clock);
    var s := seen[R.FiredAt(config, obs)[k]];
    assert Seen(config, s) && Readable(true, h, s);
    hide M.Run, M.DependencyExplains, Observations, Sightings, R.FiredAt, ConfirmedTrigger;
    var i :| 0 <= i <= |h| && s.core == M.Run(true, h[..i]);
    TriggerIff(config, s.core, s.at.now);
    PolicyIgnoresExplanations(config, h[..i], s.at.now);
  }

  // ---- the outage that restarts its worker ----

  function Watched(name: string): CheckSpec {
    CheckSpec(name, true, true, 15.0, 2.0, 60.0, 1, 1, 0.2, 60.0, 5.0, 60.0, 2.0, 0.1)
  }

  function Failed(name: string, category: Category): CheckResult {
    CheckResult(name, Failing, 0.0, 0.0, Probed, None, Some(category), None, None, map[])
  }

  /** The database refuses connections, and so the handler fails on every message. */
  const OUTAGE: seq<M.Event> :=
    [M.Registered(Watched("db")), M.Registered(Watched("queue")),
     M.Result(Failed("db", ConnectionRefused), 0.0, 0.5), M.Result(Failed("queue", PoisonLoop), 0.0, 0.5)]

  const EAGER := R.Config(true, R.SELF_FAULTS, 1, 0.0, 0.0, 1)

  const NOON := Moment(0.0, 0.0, 0.0, 0.0)

  lemma FirstFailureConfirms(name: string, category: Category)
    ensures var st := AfterResult(Watched(name), INITIAL, Failed(name, category), 0.0, 0.5);
            st.effective == Failing && ReadAt(Watched(name), st, 0.0) == Failing
  {
  }

  lemma RunSnoc(live: bool, h: seq<M.Event>, e: M.Event)
    ensures M.Run(live, h + [e]) == M.Step(live, M.Run(live, h), e)
  {
    assert (h + [e])[..|h|] == h;
  }

  lemma OutageState()
    ensures var c, d := M.Run(true, OUTAGE[..3]), M.Run(true, OUTAGE);
            && c.specs.Keys == c.states.Keys == {"db", "queue"} && c.results.Keys == {"db"}
            && c.results["db"] == Failed("db", ConnectionRefused)
            && d.specs.Keys == d.states.Keys == d.results.Keys == {"db", "queue"}
            && d.specs["queue"] == Watched("queue") && d.specs["db"] == Watched("db")
            && d.results["db"] == Failed("db", ConnectionRefused) && d.results["queue"] == Failed("queue", PoisonLoop)
            && d.states["db"] == AfterResult(Watched("db"), INITIAL, Failed("db", ConnectionRefused), 0.0, 0.5)
            && d.states["queue"] == AfterResult(Watched("queue"), INITIAL, Failed("queue", PoisonLoop), 0.0, 0.5)
  {
    hide AfterResult, M.Faults, M.Run;
    assert "db" != "queue" by { assert |"db"| == 2; }
    Nothing();
    RunSnoc(true, [], OUTAGE[0]);
    RunSnoc(true, OUTAGE[..1], OUTAGE[1]);
    RunSnoc(true, OUTAGE[..2], OUTAGE[2]);
    RunSnoc(true, OUTAGE[..3], OUTAGE[3]);
    assert [] + [OUTAGE[0]] == OUTAGE[..1];
    assert OUTAGE[..1] + [OUTAGE[1]] == OUTAGE[..2];
    assert OUTAGE[..2] + [OUTAGE[2]] == OUTAGE[..3];
    assert OUTAGE[..3] + [OUTAGE[3]] == OUTAGE;
  }

  lemma Nothing()
    ensures M.Run(true, []) == M.Core(map[], map[], map[], {})
  {
  }

  lemma ObservationsSnoc(config: R.Config, live: bool, h: seq<M.Event>, e: M.Event, clock: seq<Moment>, m: Moment)
    requires |clock| == |h|
    ensures var c := M.Run(live, h + [e]);
            && c.specs.Keys == c.states.Keys && c.results.Keys <= c.states.Keys
            && Observations(config, live, h + [e], clock + [m]) ==
               Observations(config, live, h, clock)
               + if e.Result? then [R.Observation(R.Triggers(config, M.Projected(c, m.now)), m.uptime, m.checked, m.fired)] else []
  {
    M.RunsStayCurrent(live, h + [e]);
    assert (h + [e])[..|h|] == h && (clock + [m])[..|clock|] == clock;
    hide M.Run, R.Triggers, M.Projected;
  }

  lemma NothingObserved(config: R.Config)
    ensures Observations(config, true, [], []) == []
  {
  }

  lemma DatabaseAlone(c: M.Core)
    requires c.specs.Keys == c.states.Keys && c.results.Keys == {"db"} <= c.states.Keys
    requires c.results["db"] == Failed("db", ConnectionRefused)
    ensures !R.Triggers(EAGER, M.Projected(c, 0.0))
  {
    TriggerIff(EAGER, c, 0.0);
    hide ReadAt, R.Triggers, M.Projected;
  }

  lemma PoisonTriggers(d: M.Core)
    requires d.specs.Keys == d.states.Keys && "queue" in d.results && d.results.Keys <= d.states.Keys
    requires d.results["queue"] == Failed("queue", PoisonLoop) && ReadAt(d.specs["queue"], d.states["queue"], 0.0) == Failing
    ensures R.Triggers(EAGER, M.Projected(d, 0.0))
  {
    TriggerIff(EAGER, d, 0.0);
    hide ReadAt, R.Triggers, M.Projected;
    assert d.results["queue"].category == Some(PoisonLoop);
  }

  /** The database alone asks for nothing; the poison loop it causes does. */
  lemma OutageTriggers()
    ensures var c, d := M.Run(true, OUTAGE[..3]), M.Run(true, OUTAGE);
            && c.specs.Keys == c.states.Keys && c.results.Keys <= c.states.Keys
            && d.specs.Keys == d.states.Keys && d.results.Keys <= d.states.Keys
            && !R.Triggers(EAGER, M.Projected(c, 0.0)) && R.Triggers(EAGER, M.Projected(d, 0.0))
  {
    hide M.Run, R.Triggers, M.Projected, ReadAt, AfterResult, Watched, Failed;
    OutageState();
    FirstFailureConfirms("queue", PoisonLoop);
    DatabaseAlone(M.Run(true, OUTAGE[..3]));
    PoisonTriggers(M.Run(true, OUTAGE));
  }

  lemma OutageSeen()
    ensures Observations(EAGER, true, OUTAGE, [NOON, NOON, NOON, NOON])
            == [R.Observation(false, 0.0, 0.0, 0.0), R.Observation(true, 0.0, 0.0, 0.0)]
  {
    hide Observations, M.Run, R.Triggers, M.Projected;
    OutageTriggers();
    NothingObserved(EAGER);
    ObservationsSnoc(EAGER, true, [], OUTAGE[0], [], NOON);
    ObservationsSnoc(EAGER, true, OUTAGE[..1], OUTAGE[1], [NOON], NOON);
    ObservationsSnoc(EAGER, true, OUTAGE[..2], OUTAGE[2], [NOON, NOON], NOON);
    ObservationsSnoc(EAGER, true, OUTAGE[..3], OUTAGE[3], [NOON, NOON, NOON], NOON);
    assert [] + [OUTAGE[0]] == OUTAGE[..1] && OUTAGE[..1] + [OUTAGE[1]] == OUTAGE[..2];
    assert OUTAGE[..2] + [OUTAGE[2]] == OUTAGE[..3] && OUTAGE[..3] + [OUTAGE[3]] == OUTAGE;
    assert [] + [NOON] == [NOON] && [NOON] + [NOON] == [NOON, NOON];
    assert [NOON, NOON] + [NOON] == [NOON, NOON, NOON] && [NOON, NOON, NOON] + [NOON] == [NOON, NOON, NOON, NOON];
  }

  lemma QuietFirst()
    ensures R.Run(EAGER, [R.Observation(false, 0.0, 0.0, 0.0)]) == R.FRESH
    ensures R.FireTimes(EAGER, [R.Observation(false, 0.0, 0.0, 0.0)]) == []
  {
    assert [R.Observation(false, 0.0, 0.0, 0.0)][..0] == [];
    assert R.Run(EAGER, []) == R.FRESH && R.FireTimes(EAGER, []) == [];
  }

  lemma OneHitFires()
    ensures R.FireTimes(EAGER, [R.Observation(false, 0.0, 0.0, 0.0), R.Observation(true, 0.0, 0.0, 0.0)]) == [0.0]
  {
    var first, second := R.Observation(false, 0.0, 0.0, 0.0), R.Observation(true, 0.0, 0.0, 0.0);
    QuietFirst();
    assert [first, second][..1] == [first];
    assert R.Recent([], -3600.0) == [];
  }

  lemma OutageExplained()
    ensures M.DependencyExplains(M.Run(true, OUTAGE)) && M.Run(true, OUTAGE).faults == {}
  {
    OutageState();
    FirstFailureConfirms("db", ConnectionRefused);
    M.RunsStayCurrent(true, OUTAGE);
    var d := M.Run(true, OUTAGE);
    hide M.Run, AfterResult, ReadAt;
    assert M.StoredFailing(d, "db") && BlamesDependency(d.results["db"]);
  }

  /** While /live holds its tongue because the database explains the wedge, the default triggers restart the worker. */
  lemma OutageRestartsWorker()
    ensures M.DependencyExplains(M.Run(true, OUTAGE)) && M.Run(true, OUTAGE).faults == {}
    ensures R.FireTimes(EAGER, Observations(EAGER, true, OUTAGE, [NOON, NOON, NOON, NOON])) == [0.0]
  {
    hide M.Run, M.DependencyExplains, R.FireTimes, Observations;
    OutageExplained();
    OutageSeen();
    OneHitFires();
  }
}
