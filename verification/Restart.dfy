/** The controlled restart: streak, minimum uptime, cooldown and a latching hourly budget. */
module Restart {
  import opened Wrappers
  import opened Model

  const SELF_FAULTS: set<Category> :=
    {Stalled, NotConsuming, NotSubscribed, CreditExhausted, ConnectionLost, PoisonLoop}

  const DEPENDENCY_FAULTS: set<Category> :=
    {ConnectionRefused, Timeout, Slow, AuthFailed, BrokerAlarm, BrokerShutdown, MemoryPressure, PoolExhausted, ReadOnly}

  const HOUR := 3600.0

  datatype Config = Config(
    enabled: bool,
    triggers: set<Category>,
    afterCycles: int,
    minUptime: real,
    cooldown: real,
    maxPerHour: int)

  datatype State = State(streak: nat, lastRestart: Option<real>, restarts: seq<real>, latched: bool)

  /** One call: whether a trigger was seen, and the two clock reads, in eligibility and in firing. */
  datatype Observation = Observation(hit: bool, uptime: real, checked: real, fired: real)

  predicate Triggers(config: Config, results: map<string, CheckResult>) {
    exists n :: n in results && results[n].status == Failing
                && results[n].category.Some? && results[n].category.value in config.triggers
  }

  function Recent(ts: seq<real>, cutoff: real): seq<real> {
    if ts == [] then []
    else Recent(ts[..|ts| - 1], cutoff) + if ts[|ts| - 1] > cutoff then [ts[|ts| - 1]] else []
  }

  predicate Waiting(config: Config, s: State, o: Observation) {
    || o.uptime < config.minUptime
    || (s.lastRestart.Some? && o.checked - s.lastRestart.value < config.cooldown)
  }

  predicate Ready(config: Config, s: State, o: Observation) {
    config.enabled && !s.latched && o.hit && s.streak + 1 >= config.afterCycles && !Waiting(config, s, o)
  }

  predicate Fires(config: Config, s: State, o: Observation) {
    Ready(config, s, o) && |Recent(s.restarts, o.checked - HOUR)| < config.maxPerHour
  }

  function Step(config: Config, s: State, o: Observation): State {
    if !config.enabled || s.latched then s
    else
      var counted := s.(streak := if o.hit then s.streak + 1 else 0);
      if !Ready(config, s, o) then counted
      else
        var recent := Recent(s.restarts, o.checked - HOUR);
        if |recent| >= config.maxPerHour then counted.(restarts := recent, latched := true)
        else counted.(restarts := recent + [o.fired], lastRestart := Some(o.fired))
  }

  class RestartPolicy {
    const config: Config
    var streak: nat
    var lastRestart: Option<real>
    var restarts: seq<real>
    var latched: bool

    function View(): State
      reads this
    {
      State(streak, lastRestart, restarts, latched)
    }

    constructor (config: Config)
      ensures this.config == config && View() == State(0, None, [], false)
    {
      this.config := config;
      streak, lastRestart, restarts, latched := 0, None, [], false;
    }

    /** `checked` and `fired` are the two reads of the clock; the second happens only if the first passes. */
    method Observe(results: map<string, CheckResult>, uptime: real, checked: real, fired: real) returns (exits: bool)
      modifies this
      ensures var o := Observation(Triggers(config, results), uptime, checked, fired);
              View() == Step(config, old(View()), o) && exits == Fires(config, old(View()), o)
    {
      hide Triggers;
      if !config.enabled || latched {
        return false;
      }
      var hit := Triggering(results);
      streak := if hit then streak + 1 else 0;
      if !hit || streak < config.afterCycles {
        return false;
      }
      var eligible := Eligible(uptime, checked);
      if !eligible {
        return false;
      }
      lastRestart := Some(fired);
      restarts := restarts + [fired];
      return true;
    }

    method Triggering(results: map<string, CheckResult>) returns (hit: bool)
      ensures hit == Triggers(config, results)
    {
      hit := false;
      var rest := results.Keys;
      while rest != {}
        invariant rest <= results.Keys
        invariant hit <==> exists n :: n in results && n !in rest && results[n].status == Failing
                                       && results[n].category.Some? && results[n].category.value in config.triggers
      {
        var name :| name in rest;
        rest := rest - {name};
        var r := results[name];
        if r.status == Failing && r.category.Some? && r.category.value in config.triggers {
          hit := true;
        }
      }
    }

    method Eligible(uptime: real, now: real) returns (eligible: bool)
      modifies this`restarts, this`latched
      ensures var waiting := uptime < config.minUptime
                || (lastRestart.Some? && now - lastRestart.value < config.cooldown);
              var recent := Recent(old(restarts), now - HOUR);
              && restarts == (if waiting then old(restarts) else recent)
              && latched == (if waiting then old(latched) else old(latched) || |recent| >= config.maxPerHour)
              && eligible == (!waiting && |recent| < config.maxPerHour)
    {
      if uptime < config.minUptime {
        return false;
      }
      if lastRestart.Some? && now - lastRestart.value < config.cooldown {
        return false;
      }
      var cutoff := now - 3600.0;
      var kept := [];
      for i := 0 to |restarts|
        invariant kept == Recent(restarts[..i], cutoff)
      {
        assert restarts[..i + 1][..i] == restarts[..i];
        if restarts[i] > cutoff {
          kept := kept + [restarts[i]];
        }
      }
      assert restarts[..|restarts|] == restarts;
      restarts := kept;
      if |restarts| >= config.maxPerHour {
        latched := true;
        return false;
      }
      return true;
    }
  }

  // ---- whole runs ----

  const FRESH := State(0, None, [], false)

  function Run(config: Config, obs: seq<Observation>): State {
    if obs == [] then FRESH else Step(config, Run(config, obs[..|obs| - 1]), obs[|obs| - 1])
  }

  /** The positions of the observations that fired. */
  function FiredAt(config: Config, obs: seq<Observation>): seq<nat> {
    if obs == [] then []
    else FiredAt(config, obs[..|obs| - 1])
         + if Fires(config, Run(config, obs[..|obs| - 1]), obs[|obs| - 1]) then [|obs| - 1] else []
  }

  /** The times at which the process was told to exit. */
  function FireTimes(config: Config, obs: seq<Observation>): seq<real> {
    if obs == [] then []
    else FireTimes(config, obs[..|obs| - 1])
         + if Fires(config, Run(config, obs[..|obs| - 1]), obs[|obs| - 1]) then [obs[|obs| - 1].fired] else []
  }

  /** The clock never goes back, within a call or between calls. */
  predicate Monotone(obs: seq<Observation>) {
    && (forall i :: 0 <= i < |obs| ==> obs[i].checked <= obs[i].fired)
    && (forall i, j :: 0 <= i < j < |obs| ==> obs[i].fired <= obs[j].checked)
  }

  predicate Ascending(ts: seq<real>) {
    forall i, j :: 0 <= i < j < |ts| ==> ts[i] <= ts[j]
  }

  /** Pruning an ascending list keeps a suffix, and drops only what is old enough. */
  lemma {:induction false} RecentIsSuffix(ts: seq<real>, cutoff: real)
    requires Ascending(ts)
    ensures |Recent(ts, cutoff)| <= |ts|
    ensures Recent(ts, cutoff) == ts[|ts| - |Recent(ts, cutoff)|..]
    ensures forall i :: 0 <= i < |ts| - |Recent(ts, cutoff)| ==> ts[i] <= cutoff
  {
    if ts != [] {
      var p := ts[..|ts| - 1];
      RecentIsSuffix(p, cutoff);
      if ts[|ts| - 1] <= cutoff {
        assert forall i :: 0 <= i < |p| ==> p[i] <= cutoff;
        RecentEmpty(p, cutoff);
      }
    }
  }

  lemma RecentEmpty(ts: seq<real>, cutoff: real)
    requires forall i :: 0 <= i < |ts| ==> ts[i] <= cutoff
    ensures Recent(ts, cutoff) == []
  {
  }

  /** Any budget + 1 fires in a row span at least an hour. */
  predicate Spread(ts: seq<real>, budget: int) {
    forall i, j :: 0 <= i < j < |ts| && j - i >= budget ==> ts[j] - ts[i] >= HOUR
  }

  predicate Cooled(ts: seq<real>, cooldown: real) {
    forall i :: 0 < i < |ts| ==> ts[i] - ts[i - 1] >= cooldown
  }

  /** All but the last `kept` fires are an hour old. */
  predicate Forgotten(fires: seq<real>, kept: nat, now: real) {
    forall i :: 0 <= i < |fires| - kept ==> fires[i] <= now - HOUR
  }

  /** What the policy remembers of its fires: the recent ones, and the last. */
  ghost predicate Remembers(config: Config, s: State, fires: seq<real>, now: real) {
    && Ascending(fires)
    && (fires != [] ==> fires[|fires| - 1] <= now)
    && |s.restarts| <= |fires|
    && s.restarts == fires[|fires| - |s.restarts|..]
    && Forgotten(fires, |s.restarts|, now)
    && s.lastRestart == (if fires == [] then None else Some(fires[|fires| - 1]))
    && Spread(fires, config.maxPerHour)
    && Cooled(fires, config.cooldown)
  }

  lemma PruneRemembers(config: Config, s: State, fires: seq<real>, now: real)
    requires Remembers(config, s, fires, now)
    ensures Remembers(config, s.(restarts := Recent(s.restarts, now - HOUR)), fires, now)
  {
    RecentIsSuffix(s.restarts, now - HOUR);
    var recent := Recent(s.restarts, now - HOUR);
    forall i | 0 <= i < |fires| - |recent|
      ensures fires[i] <= now - HOUR
    {
      if i >= |fires| - |s.restarts| {
        assert fires[i] == s.restarts[i - (|fires| - |s.restarts|)];
      }
    }
  }

  /** A new fire keeps the fires apart: any budget + 1 in a row reach back past what is still remembered. */
  lemma SpreadSnoc(fires: seq<real>, kept: nat, budget: int, now: real, at: real)
    requires Spread(fires, budget) && kept <= |fires| && kept < budget && now <= at
    requires Forgotten(fires, kept, now)
    ensures Spread(fires + [at], budget)
  {
  }

  lemma CooledSnoc(fires: seq<real>, cooldown: real, at: real)
    requires Cooled(fires, cooldown) && (fires != [] ==> at - fires[|fires| - 1] >= cooldown)
    ensures Cooled(fires + [at], cooldown)
  {
  }

  lemma AscendingSnoc(fires: seq<real>, at: real)
    requires Ascending(fires) && (fires != [] ==> fires[|fires| - 1] <= at)
    ensures Ascending(fires + [at])
  {
  }

  lemma OlderSnoc(fires: seq<real>, restarts: seq<real>, now: real, at: real)
    requires |restarts| <= |fires| && restarts == fires[|fires| - |restarts|..] && now <= at
    requires Forgotten(fires, |restarts|, now)
    ensures restarts + [at] == (fires + [at])[|fires| - |restarts|..]
    ensures Forgotten(fires + [at], |restarts| + 1, at)
  {
  }

  lemma FireRemembers(config: Config, s: State, fires: seq<real>, now: real, at: real)
    requires Remembers(config, s, fires, now) && now <= at
    requires |s.restarts| < config.maxPerHour
    requires s.lastRestart.Some? ==> now - s.lastRestart.value >= config.cooldown
    ensures Remembers(config, s.(restarts := s.restarts + [at], lastRestart := Some(at)), fires + [at], at)
  {
    SpreadSnoc(fires, |s.restarts|, config.maxPerHour, now, at);
    CooledSnoc(fires, config.cooldown, at);
    AscendingSnoc(fires, at);
    OlderSnoc(fires, s.restarts, now, at);
    hide Spread, Cooled, Ascending, Forgotten;
  }

  lemma LaterRemembers(config: Config, s: State, fires: seq<real>, now: real, later: real)
    requires Remembers(config, s, fires, now) && now <= later
    ensures Remembers(config, s, fires, later)
  {
  }

  lemma FiringStep(config: Config, s: State, o: Observation)
    requires Fires(config, s, o)
    ensures var pruned := s.(restarts := Recent(s.restarts, o.checked - HOUR));
            && |pruned.restarts| < config.maxPerHour
            && (s.lastRestart.Some? ==> o.checked - s.lastRestart.value >= config.cooldown)
            && Step(config, s, o).restarts == pruned.restarts + [o.fired]
            && Step(config, s, o).lastRestart == Some(o.fired)
  {
    hide Recent;
  }

  lemma IdleStep(config: Config, s: State, o: Observation)
    requires !Fires(config, s, o)
    ensures Step(config, s, o).lastRestart == s.lastRestart
    ensures Step(config, s, o).restarts in {s.restarts, Recent(s.restarts, o.checked - HOUR)}
  {
    hide Recent;
  }

  /** Only the fires are remembered: the streak and the latch do not matter. */
  lemma SameFires(config: Config, s: State, t: State, fires: seq<real>, now: real)
    requires Remembers(config, s, fires, now) && t.restarts == s.restarts && t.lastRestart == s.lastRestart
    ensures Remembers(config, t, fires, now)
  {
    hide Spread, Cooled, Ascending;
  }

  lemma StepRemembers(config: Config, s: State, fires: seq<real>, o: Observation)
    requires Remembers(config, s, fires, o.checked) && o.checked <= o.fired
    ensures Remembers(config, Step(config, s, o), fires + if Fires(config, s, o) then [o.fired] else [], o.fired)
  {
    hide Remembers, Recent, Step, Fires;
    var pruned := s.(restarts := Recent(s.restarts, o.checked - HOUR));
    PruneRemembers(config, s, fires, o.checked);
    if Fires(config, s, o) {
      FiringStep(config, s, o);
      var fired := pruned.(restarts := pruned.restarts + [o.fired], lastRestart := Some(o.fired));
      FireRemembers(config, pruned, fires, o.checked, o.fired);
      SameFires(config, fired, Step(config, s, o), fires + [o.fired], o.fired);
    } else {
      assert fires + [] == fires;
      IdleStep(config, s, o);
      LaterRemembers(config, s, fires, o.checked, o.fired);
      LaterRemembers(config, pruned, fires, o.checked, o.fired);
      SameFires(config, if Step(config, s, o).restarts == s.restarts then s else pruned, Step(config, s, o), fires, o.fired);
    }
  }

  lemma FreshRemembers(config: Config, now: real)
    ensures Remembers(config, FRESH, [], now)
  {
  }

  lemma {:induction false} RunRemembers(config: Config, obs: seq<Observation>, now: real)
    requires Monotone(obs)
    requires obs != [] ==> obs[|obs| - 1].fired <= now
    ensures Remembers(config, Run(config, obs), FireTimes(config, obs), now)
  {
    hide Step, Fires, Remembers;
    if obs == [] {
      FreshRemembers(config, now);
    } else {
      var p, o := obs[..|obs| - 1], obs[|obs| - 1];
      RunRemembers(config, p, o.checked);
      StepRemembers(config, Run(config, p), FireTimes(config, p), o);
      LaterRemembers(config, Run(config, obs), FireTimes(config, obs), o.fired, now);
    }
  }

  // ---- the promises ----

  /** The fires that fall into the window of `length` seconds ending at `end`. */
  function InWindow(ts: seq<real>, end: real, length: real): set<nat> {
    set i: nat | i < |ts| && end - length < ts[i] <= end
  }

  lemma {:induction false} RangeSize(s: set<nat>, low: nat, size: nat)
    requires forall i :: i in s ==> low <= i < low + size
    ensures |s| <= size
  {
    if size > 0 {
      var top := low + size - 1;
      RangeSize(s - {top}, low, size - 1);
    } else if i :| i in s {
      assert false;
    }
  }

  /** Any 3600-second window holds at most `maxPerHour` fires, although the two clock reads may differ. */
  lemma WindowBound(config: Config, obs: seq<Observation>, end: real)
    requires Monotone(obs) && config.maxPerHour >= 0
    ensures |InWindow(FireTimes(config, obs), end, HOUR)| <= config.maxPerHour
  {
    var fires := FireTimes(config, obs);
    RunRemembers(config, obs, if obs == [] then 0.0 else obs[|obs| - 1].fired);
    var hits := InWindow(fires, end, HOUR);
    if hits != {} {
      var first := Earliest(hits);
      forall i | i in hits
        ensures first <= i < first + config.maxPerHour
      {
        if config.maxPerHour == 0 {
          NoBudgetNoFire(config, obs);
        }
      }
      RangeSize(hits, first, config.maxPerHour);
    }
  }

  lemma {:induction false} Earliest(s: set<nat>) returns (first: nat)
    requires s != {}
    ensures first in s && forall i :: i in s ==> first <= i
  {
    first :| first in s;
    if s != {first} {
      var other := Earliest(s - {first});
      assert forall i :: i in s ==> i == first || i in s - {first};
      first := if other < first then other else first;
    }
  }

  lemma {:induction false} NoBudgetNoFire(config: Config, obs: seq<Observation>)
    requires config.maxPerHour <= 0
    ensures FireTimes(config, obs) == []
  {
    if obs != [] {
      NoBudgetNoFire(config, obs[..|obs| - 1]);
    }
  }

  /** Consecutive fires are at least the cooldown apart. */
  lemma CooldownHolds(config: Config, obs: seq<Observation>, i: nat)
    requires Monotone(obs) && 0 < i < |FireTimes(config, obs)|
    ensures FireTimes(config, obs)[i] - FireTimes(config, obs)[i - 1] >= config.cooldown
  {
    RunRemembers(config, obs, obs[|obs| - 1].fired);
  }

  lemma {:induction false} StreakIsARunOfHits(config: Config, obs: seq<Observation>)
    requires config.enabled && !Run(config, obs).latched
    ensures Run(config, obs).streak <= |obs|
    ensures forall j :: |obs| - Run(config, obs).streak <= j < |obs| ==> obs[j].hit
  {
    if obs != [] {
      StreakIsARunOfHits(config, obs[..|obs| - 1]);
    }
  }

  /** Every fire follows `afterCycles` hits in a row, in a process at least `minUptime` old. */
  lemma {:induction false} FiresAreEarned(config: Config, obs: seq<Observation>, k: nat)
    requires k < |FiredAt(config, obs)|
    ensures var i := FiredAt(config, obs)[k];
            && i < |obs| && i + 1 >= config.afterCycles
            && obs[i].uptime >= config.minUptime && obs[i].hit
            && forall j :: 0 <= j <= i && i - j < config.afterCycles ==> obs[j].hit
  {
    var p, o := obs[..|obs| - 1], obs[|obs| - 1];
    if k < |FiredAt(config, p)| {
      FiresAreEarned(config, p, k);
    } else {
      StreakIsARunOfHits(config, p);
    }
  }

  /** Once latched, nothing fires again, whatever is observed. */
  lemma {:induction false} LatchedForGood(config: Config, before: seq<Observation>, after: seq<Observation>)
    requires Run(config, before).latched
    ensures Run(config, before + after) == Run(config, before)
    ensures FireTimes(config, before + after) == FireTimes(config, before)
    decreases |after|
  {
    if after == [] {
      assert before + after == before;
    } else {
      var p := after[..|after| - 1];
      assert (before + after)[..|before + after| - 1] == before + p;
      LatchedForGood(config, before, p);
    }
  }

  // ---- exactly when it fires ----

  /** Observation i completes `afterCycles` hits in a row, in a process old enough. */
  predicate Earned(config: Config, obs: seq<Observation>, i: nat)
    requires i < |obs|
  {
    && obs[i].hit && obs[i].uptime >= config.minUptime && i + 1 >= config.afterCycles
    && forall j :: 0 <= j <= i && i - j < config.afterCycles ==> obs[j].hit
  }

  predicate CooledAt(config: Config, obs: seq<Observation>, i: nat)
    requires i < |obs|
  {
    var fires := FireTimes(config, obs[..i]);
    fires == [] || obs[i].checked - fires[|fires| - 1] >= config.cooldown
  }

  /** Fires of the hour before observation i. */
  function SpentAt(config: Config, obs: seq<Observation>, i: nat): nat
    requires i < |obs|
  {
    |Recent(FireTimes(config, obs[..i]), obs[i].checked - HOUR)|
  }

  function TrailingHits(obs: seq<Observation>): nat {
    if obs == [] || !obs[|obs| - 1].hit then 0 else TrailingHits(obs[..|obs| - 1]) + 1
  }

  lemma {:induction false} TrailingHitsMeaning(obs: seq<Observation>, n: nat)
    ensures TrailingHits(obs) >= n <==> n <= |obs| && forall j :: |obs| - n <= j < |obs| ==> obs[j].hit
    decreases |obs|
  {
    if obs != [] {
      var p := obs[..|obs| - 1];
      if n > 0 {
        TrailingHitsMeaning(p, n - 1);
        assert forall j :: 0 <= j < |p| ==> p[j] == obs[j];
      }
    }
  }

  lemma {:induction false} StreakCountsHits(config: Config, obs: seq<Observation>)
    requires config.enabled && !Run(config, obs).latched
    ensures Run(config, obs).streak == TrailingHits(obs)
  {
    if obs != [] {
      hide Recent;
      StreakCountsHits(config, obs[..|obs| - 1]);
    }
  }

  lemma EarnedIsAStreak(config: Config, p: seq<Observation>, o: Observation)
    ensures Earned(config, p + [o], |p|) <==>
            o.hit && o.uptime >= config.minUptime && TrailingHits(p) + 1 >= config.afterCycles
  {
    var n: nat := if config.afterCycles > 0 then config.afterCycles - 1 else 0;
    TrailingHitsMeaning(p, n);
    var obs := p + [o];
    assert forall j :: 0 <= j < |p| ==> obs[j] == p[j];
    hide TrailingHits;
  }

  lemma {:induction false} RecentOfBoth(a: seq<real>, b: seq<real>, cutoff: real)
    ensures Recent(a + b, cutoff) == Recent(a, cutoff) + Recent(b, cutoff)
    decreases |b|
  {
    if b == [] {
      assert a + b == a;
    } else {
      assert (a + b)[..|a + b| - 1] == a + b[..|b| - 1];
      RecentOfBoth(a, b[..|b| - 1], cutoff);
    }
  }

  /** What was forgotten no longer counts: the remembered fires and all fires agree on the last hour. */
  lemma RecentRemembered(config: Config, s: State, fires: seq<real>, now: real)
    requires Remembers(config, s, fires, now)
    ensures Recent(s.restarts, now - HOUR) == Recent(fires, now - HOUR)
  {
    var forgotten := fires[..|fires| - |s.restarts|];
    assert fires == forgotten + s.restarts;
    RecentOfBoth(forgotten, s.restarts, now - HOUR);
    RecentEmpty(forgotten, now - HOUR);
    assert [] + Recent(s.restarts, now - HOUR) == Recent(s.restarts, now - HOUR);
  }

  lemma CooledAtLast(config: Config, p: seq<Observation>, o: Observation)
    ensures CooledAt(config, p + [o], |p|) <==>
            FireTimes(config, p) == [] || o.checked - FireTimes(config, p)[|FireTimes(config, p)| - 1] >= config.cooldown
    ensures SpentAt(config, p + [o], |p|) == |Recent(FireTimes(config, p), o.checked - HOUR)|
  {
    assert (p + [o])[..|p|] == p;
    hide FireTimes, Recent;
  }

  lemma ReadyMeaning(config: Config, s: State, o: Observation, fires: seq<real>)
    requires config.enabled && !s.latched
    requires s.lastRestart == if fires == [] then None else Some(fires[|fires| - 1])
    ensures Ready(config, s, o) <==>
            o.hit && o.uptime >= config.minUptime && s.streak + 1 >= config.afterCycles
            && (fires == [] || o.checked - fires[|fires| - 1] >= config.cooldown)
  {
  }

  /** Before the latch closes, readiness is a matter of the observations and of the earlier fires. */
  lemma ReadyIff(config: Config, p: seq<Observation>, o: Observation)
    requires config.enabled && !Run(config, p).latched && Monotone(p + [o])
    ensures Ready(config, Run(config, p), o) <==> Earned(config, p + [o], |p|) && CooledAt(config, p + [o], |p|)
    ensures |Recent(Run(config, p).restarts, o.checked - HOUR)| == SpentAt(config, p + [o], |p|)
  {
    hide Run, Recent, FireTimes, Remembers, Earned, TrailingHits, Monotone, CooledAt, SpentAt, Ready;
    var s, fires := Run(config, p), FireTimes(config, p);
    MonotonePrefix(p, o);
    StreakCountsHits(config, p);
    EarnedIsAStreak(config, p, o);
    CooledAtLast(config, p, o);
    RunRemembers(config, p, o.checked);
    RecentRemembered(config, s, fires, o.checked);
    LastRemembered(config, s, fires, o.checked);
    ReadyMeaning(config, s, o, fires);
  }

  lemma MonotonePrefix(p: seq<Observation>, o: Observation)
    requires Monotone(p + [o])
    ensures Monotone(p) && o.checked <= o.fired && (p != [] ==> p[|p| - 1].fired <= o.checked)
  {
    var obs := p + [o];
    assert forall i :: 0 <= i < |p| ==> obs[i] == p[i];
    assert obs[|p|] == o;
  }

  lemma LastRemembered(config: Config, s: State, fires: seq<real>, now: real)
    requires Remembers(config, s, fires, now)
    ensures s.lastRestart == if fires == [] then None else Some(fires[|fires| - 1])
  {
  }

  /** Observation i asked for a restart that the hourly budget refused. */
  predicate Refused(config: Config, obs: seq<Observation>, i: nat)
    requires i < |obs|
  {
    Earned(config, obs, i) && CooledAt(config, obs, i) && SpentAt(config, obs, i) >= config.maxPerHour
  }

  predicate AnyRefused(config: Config, obs: seq<Observation>) {
    exists i :: 0 <= i < |obs| && Refused(config, obs, i)
  }

  lemma AnyRefusedSnoc(config: Config, p: seq<Observation>, o: Observation)
    ensures AnyRefused(config, p + [o]) <==> AnyRefused(config, p) || Refused(config, p + [o], |p|)
  {
    hide Refused, Earned;
    forall i: nat | i < |p| ensures Refused(config, p + [o], i) == Refused(config, p, i) {
      EarlierSame(config, p, o, i);
    }
    if AnyRefused(config, p) {
      var i: nat :| i < |p| && Refused(config, p, i);
      assert Refused(config, p + [o], i);
    }
  }

  lemma EarlierSame(config: Config, p: seq<Observation>, o: Observation, i: nat)
    requires i < |p|
    ensures Earned(config, p + [o], i) == Earned(config, p, i)
    ensures Refused(config, p + [o], i) == Refused(config, p, i)
  {
    var obs := p + [o];
    assert obs[..i] == p[..i];
    assert forall j :: 0 <= j < |p| ==> obs[j] == p[j];
    hide Recent, FireTimes;
  }

  /** The latch is closed exactly when some observation was refused for want of budget. */
  lemma {:induction false} LatchedIff(config: Config, obs: seq<Observation>)
    requires Monotone(obs)
    ensures Run(config, obs).latched <==> config.enabled && AnyRefused(config, obs)
  {
    if obs == [] {
      Quiet(config);
    } else {
      var p, o := obs[..|obs| - 1], obs[|obs| - 1];
      assert obs == p + [o];
      assert Run(config, obs) == Step(config, Run(config, p), o);
      hide Run, Step, Ready, Recent, Earned, CooledAt, SpentAt, Monotone, AnyRefused;
      MonotonePrefix(p, o);
      LatchedIff(config, p);
      AnyRefusedSnoc(config, p, o);
      if config.enabled && !Run(config, p).latched {
        ReadyIff(config, p, o);
      }
      LatchStep(config, Run(config, p), o);
    }
  }

  lemma Quiet(config: Config)
    ensures Run(config, []) == FRESH
  {
  }

  lemma LatchStep(config: Config, s: State, o: Observation)
    ensures Step(config, s, o).latched <==>
            s.latched || (config.enabled && Ready(config, s, o) && |Recent(s.restarts, o.checked - HOUR)| >= config.maxPerHour)
  {
    hide Recent;
  }

  lemma FireTimesSnoc(config: Config, p: seq<Observation>, o: Observation)
    ensures FireTimes(config, p + [o]) ==
            FireTimes(config, p) + if Fires(config, Run(config, p), o) then [o.fired] else []
  {
    assert (p + [o])[..|p|] == p;
    hide Fires, Run;
  }

  /**
   * The policy fires at an observation exactly when it is enabled, the observation completes its hits in an
   * old enough process, the last fire has cooled, the hour has budget left, and nothing was ever refused.
   */
  lemma FiresIff(config: Config, p: seq<Observation>, o: Observation)
    requires Monotone(p + [o])
    ensures var obs := p + [o];
            FireTimes(config, obs) == FireTimes(config, p) +
              if config.enabled && Earned(config, obs, |p|) && CooledAt(config, obs, |p|)
                 && SpentAt(config, obs, |p|) < config.maxPerHour && !AnyRefused(config, p)
              then [o.fired] else []
  {
    hide Run, Recent, Earned, CooledAt, SpentAt, AnyRefused, Monotone, FireTimes, Ready;
    MonotonePrefix(p, o);
    LatchedIff(config, p);
    FireTimesSnoc(config, p, o);
    if config.enabled && !Run(config, p).latched {
      ReadyIff(config, p, o);
    } else {
      NotReady(config, Run(config, p), o);
    }
  }

  lemma NotReady(config: Config, s: State, o: Observation)
    requires !config.enabled || s.latched
    ensures !Ready(config, s, o)
  {
  }

  /** Whatever the clock does: no restart at all, exactly when switched off, without budget, or never earned. */
  lemma {:induction false} NeverFiresIff(config: Config, obs: seq<Observation>)
    ensures FireTimes(config, obs) == [] <==>
            !config.enabled || config.maxPerHour <= 0 || forall i :: 0 <= i < |obs| ==> !Earned(config, obs, i)
  {
    if config.maxPerHour <= 0 {
      NoBudgetNoFire(config, obs);
    } else if obs != [] {
      var p, o := obs[..|obs| - 1], obs[|obs| - 1];
      assert obs == p + [o];
      NeverFiresIff(config, p);
      forall i: nat | i < |p| ensures Earned(config, obs, i) == Earned(config, p, i) {
        EarlierSame(config, p, o, i);
      }
      if config.enabled && FireTimes(config, p) == [] {
        NothingYet(config, p);
        StreakCountsHits(config, p);
        EarnedIsAStreak(config, p, o);
        assert Recent([], o.checked - HOUR) == [];
      }
      hide Run, Recent, Earned, TrailingHits;
    }
  }

  lemma {:induction false} NothingYet(config: Config, obs: seq<Observation>)
    requires config.maxPerHour >= 1 && FireTimes(config, obs) == []
    ensures var s := Run(config, obs); !s.latched && s.restarts == [] && s.lastRestart == None
  {
    if obs != [] {
      NothingYet(config, obs[..|obs| - 1]);
      assert Recent([], obs[|obs| - 1].checked - HOUR) == [];
    }
  }

  // ---- the edge of the window ----

  const EDGE := Config(true, SELF_FAULTS, 1, 0.0, 0.0, 1)

  const FIRST := Observation(true, 0.0, 0.0, 0.0)
  const AN_HOUR_LATER := Observation(true, 3600.0, 3600.0, 3600.0)

  lemma FirstObservationFires()
    ensures Run(EDGE, [FIRST]) == State(1, Some(0.0), [0.0], false) && FireTimes(EDGE, [FIRST]) == [0.0]
  {
    assert [FIRST][..0] == [];
    assert Run(EDGE, []) == FRESH && FireTimes(EDGE, []) == [];
  }

  /** The window is half-open: two fires exactly an hour apart both pass a budget of one. */
  lemma ClosedWindowHoldsOneMore()
    ensures var obs := [FIRST, AN_HOUR_LATER];
            Monotone(obs) && FireTimes(EDGE, obs) == [0.0, 3600.0]
  {
    var obs := [FIRST, AN_HOUR_LATER];
    assert obs[..1] == [FIRST];
    FirstObservationFires();
    assert [0.0][..0] == [] && Recent([], 0.0) == [] && Recent([0.0], 0.0) == [];
  }

  /** By default no dependency failure, and in particular no timeout, can ask for a restart. */
  lemma DefaultTriggersExcludeDependencies()
    ensures SELF_FAULTS !! DEPENDENCY_FAULTS
    ensures WEDGED_CATEGORIES < SELF_FAULTS && SELF_FAULTS - WEDGED_CATEGORIES == {ConnectionLost}
  {
    assert ConnectionLost in SELF_FAULTS && ConnectionLost !in WEDGED_CATEGORIES;
  }
}
