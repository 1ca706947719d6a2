/** A declarative probe definition, validated once, and what validation buys the state machine. */
module ProbeConfig {
  import opened Wrappers
  import opened Model
  import opened Machine
  import opened History
  import opened Backoff

  /** A definition as written; `timeout` and `ttl` may be left to be derived. */
  datatype RawProbe = RawProbe(
    kind: string,
    name: string,
    critical: bool,
    enabled: bool,
    interval: real,
    timeout: Option<real>,
    failureThreshold: int,
    successThreshold: int,
    maxSilence: real,
    ttl: Option<real>,
    backoffInitial: real,
    backoffMax: real,
    backoffMultiplier: real,
    backoffJitter: real,
    latencyWarnMs: Option<real>,
    latencyCriticalMs: Option<real>,
    poolWarnRatio: Option<real>,
    poolCriticalRatio: Option<real>,
    staleAfterSeconds: Option<real>)

  datatype ConfigError =
    | MissingType | NotPositive(field: string) | BelowOne(field: string) | Negative(field: string)
    | ShrinkingBackoff | BackoffMaxBelowInitial | BadRatio(field: string) | WarningNeverFires(field: string)
    | TimeoutNotBelowInterval

  /** The engine's default jitter: a probe definition has no field for it. */
  const DEFAULT_JITTER := 0.2

  /** Rounding to three decimals, ties upward. */
  function Round3(x: real): (r: real)
    ensures x - 0.0005 < r <= x + 0.0005
  {
    (x * 1000.0 + 0.5).Floor as real / 1000.0
  }

  function DerivedTimeout(interval: real): real {
    Round3(Min(2.0, interval / 2.0))
  }

  function EffectiveTimeout(raw: RawProbe): real {
    if raw.timeout.Some? then raw.timeout.value else DerivedTimeout(raw.interval)
  }

  function EffectiveTtl(raw: RawProbe): real {
    if raw.ttl.Some? then raw.ttl.value else Round3(raw.interval * 2.0 + EffectiveTimeout(raw))
  }

  predicate PositiveIfSet(x: Option<real>) {
    x.Some? ==> x.value > 0.0
  }

  predicate RatioIfSet(x: Option<real>) {
    x.Some? ==> 0.0 < x.value <= 1.0
  }

  predicate OrderedIfSet(low: Option<real>, high: Option<real>) {
    low.Some? && high.Some? ==> low.value <= high.value
  }

  /** The definitions a worker may start with. */
  predicate Acceptable(raw: RawProbe) {
    && raw.kind != ""
    && raw.interval > 0.0 && raw.maxSilence > 0.0
    && EffectiveTimeout(raw) > 0.0
    && (raw.timeout.Some? ==> raw.timeout.value < raw.interval)
    && raw.failureThreshold >= 1 && raw.successThreshold >= 1
    && 0.0 <= raw.backoffInitial <= raw.backoffMax
    && 0.0 <= raw.backoffJitter
    && raw.backoffMultiplier >= 1.0
    && PositiveIfSet(raw.latencyWarnMs) && PositiveIfSet(raw.latencyCriticalMs)
    && PositiveIfSet(raw.staleAfterSeconds)
    && RatioIfSet(raw.poolWarnRatio) && RatioIfSet(raw.poolCriticalRatio)
    && OrderedIfSet(raw.poolWarnRatio, raw.poolCriticalRatio)
    && OrderedIfSet(raw.latencyWarnMs, raw.latencyCriticalMs)
  }

  /** The registration of an accepted probe with the monitor. */
  function Registered(raw: RawProbe): CheckSpec {
    CheckSpec(
      if raw.name == "" then raw.kind else raw.name,
      raw.critical, raw.enabled,
      raw.interval, EffectiveTimeout(raw), EffectiveTtl(raw),
      raw.failureThreshold, raw.successThreshold,
      DEFAULT_JITTER, raw.maxSilence,
      raw.backoffInitial, raw.backoffMax, raw.backoffMultiplier, raw.backoffJitter)
  }

  /** Validation in the order the fields are checked; a definition is refused exactly when it is not acceptable. */
  method Validate(raw: RawProbe) returns (r: Result<CheckSpec, ConfigError>)
    ensures r.Ok? <==> Acceptable(raw)
    ensures r.Ok? ==> r.value == Registered(raw)
    ensures r == Err(TimeoutNotBelowInterval) ==> raw.timeout.Some? && raw.timeout.value >= raw.interval
  {
    if raw.kind == "" { return Err(MissingType); }
    var name := if raw.name == "" then raw.kind else raw.name;
    if raw.interval <= 0.0 { return Err(NotPositive("interval")); }
    if raw.maxSilence <= 0.0 { return Err(NotPositive("max_silence")); }
    var explicitTimeout := raw.timeout.Some?;
    var timeout := if explicitTimeout then raw.timeout.value else Round3(Min(2.0, raw.interval / 2.0));
    if timeout <= 0.0 { return Err(NotPositive("timeout")); }
    if raw.failureThreshold < 1 { return Err(BelowOne("failure_threshold")); }
    if raw.successThreshold < 1 { return Err(BelowOne("success_threshold")); }
    if raw.backoffInitial < 0.0 { return Err(Negative("backoff_initial")); }
    if raw.backoffMax < 0.0 { return Err(Negative("backoff_max")); }
    if raw.backoffJitter < 0.0 { return Err(Negative("backoff_jitter")); }
    if raw.backoffMultiplier < 1.0 { return Err(ShrinkingBackoff); }
    if raw.backoffMax < raw.backoffInitial { return Err(BackoffMaxBelowInitial); }
    if !PositiveIfSet(raw.latencyWarnMs) { return Err(NotPositive("latency_warn_ms")); }
    if !PositiveIfSet(raw.latencyCriticalMs) { return Err(NotPositive("latency_critical_ms")); }
    if !PositiveIfSet(raw.staleAfterSeconds) { return Err(NotPositive("stale_after_seconds")); }
    if !RatioIfSet(raw.poolWarnRatio) { return Err(BadRatio("pool_warn_ratio")); }
    if !RatioIfSet(raw.poolCriticalRatio) { return Err(BadRatio("pool_critical_ratio")); }
    if !OrderedIfSet(raw.poolWarnRatio, raw.poolCriticalRatio) { return Err(WarningNeverFires("pool")); }
    if !OrderedIfSet(raw.latencyWarnMs, raw.latencyCriticalMs) { return Err(WarningNeverFires("latency")); }
    if explicitTimeout && timeout >= raw.interval { return Err(TimeoutNotBelowInterval); }
    var ttl := if raw.ttl.Some? then raw.ttl.value else Round3(raw.interval * 2.0 + timeout);
    return Ok(CheckSpec(name, raw.critical, raw.enabled, raw.interval, timeout, ttl,
                        raw.failureThreshold, raw.successThreshold, DEFAULT_JITTER, raw.maxSilence,
                        raw.backoffInitial, raw.backoffMax, raw.backoffMultiplier, raw.backoffJitter));
  }

  /** A timeout that was not written down is shorter than the interval, except at an interval of one millisecond. */
  lemma DerivedTimeoutInsideInterval(raw: RawProbe)
    requires Acceptable(raw) && raw.timeout.None?
    ensures raw.interval >= 0.001
    ensures EffectiveTimeout(raw) < raw.interval <==> raw.interval != 0.001
  {
    if raw.interval == 0.001 {
      assert (0.0005 * 1000.0 + 0.5).Floor == 1;
    }
  }

  /** A derived timeout is 2 s, or half of an interval below 4 s to the millisecond; a derived TTL two intervals and the timeout. */
  lemma DerivedValues(raw: RawProbe)
    ensures raw.timeout.None? && raw.interval >= 4.0 ==> EffectiveTimeout(raw) == 2.0
    ensures raw.timeout.None? && raw.interval < 4.0 ==>
              raw.interval / 2.0 - 0.0005 < EffectiveTimeout(raw) <= raw.interval / 2.0 + 0.0005
    ensures raw.ttl.None? ==>
              var exact := raw.interval + raw.interval + EffectiveTimeout(raw);
              exact - 0.0005 < EffectiveTtl(raw) <= exact + 0.0005
  {
    assert (2.0 * 1000.0 + 0.5).Floor == 2000;
  }

  lemma AcceptedIsSane(raw: RawProbe)
    requires Acceptable(raw)
    ensures SaneBackoff(Registered(raw)) && Registered(raw).timeout > 0.0
  {
  }

  /** For a healthy check, freshness until the next evaluation is one inequality on the definition. */
  lemma HealthyFreshnessIff(raw: RawProbe, st: CheckState)
    requires Acceptable(raw) && raw.enabled && st.backoffStep == 0
    ensures StableUntilDue(Registered(raw), st)
            <==> raw.interval * 1.2 + EffectiveTimeout(raw) <= EffectiveTtl(raw)
  {
    AcceptedIsSane(raw);
    StableIffCovered(Registered(raw), st);
  }

  lemma MulStrict(a: real, b: real, c: real)
    requires a < b && c > 0.0
    ensures c * a < c * b
  {
  }

  /** A positive wait with a spread above 1 outgrows the widened TTL: only a configured one can cover it. */
  lemma WideSpread(wait: real, spread: real, timeout: real, ttl: real)
    requires wait > 0.0 && spread > 1.0
    ensures wait * (1.0 + spread) + timeout <= Max(ttl, wait * 2.0 + timeout) <==> wait * (1.0 + spread) + timeout <= ttl
  {
    MulStrict(2.0, 1.0 + spread, wait);
  }

  lemma NoWait(spread: real, timeout: real, ttl: real)
    ensures 0.0 * (1.0 + spread) + timeout <= Max(ttl, 0.0 * 2.0 + timeout)
  {
  }

  lemma BackoffCoveredIff(spec: CheckSpec, step: nat)
    requires SaneBackoff(spec) && step >= 1
    ensures var wait := NextInterval(spec, step);
            TtlCovers(spec, step)
            <==> (spec.backoffJitter <= 1.0 || wait == 0.0 || wait * (1.0 + spec.backoffJitter) + spec.timeout <= spec.ttl)
  {
    IntervalGrows(spec, step);
    hide NextInterval, Max;
    var wait := NextInterval(spec, step);
    if spec.backoffJitter <= 1.0 {
      BackoffIsAlwaysCovered(spec, step);
    } else if wait > 0.0 {
      WideSpread(wait, spec.backoffJitter, spec.timeout, spec.ttl);
    } else {
      NoWait(spec.backoffJitter, spec.timeout, spec.ttl);
    }
  }

  /** While backing off, the only way to lose the status is a spread above 1 that outgrows a configured TTL. */
  lemma BackoffFreshnessIff(raw: RawProbe, st: CheckState)
    requires Acceptable(raw) && raw.enabled && st.backoffStep >= 1
    ensures var wait := NextInterval(Registered(raw), st.backoffStep);
            StableUntilDue(Registered(raw), st)
            <==> (raw.backoffJitter <= 1.0 || wait == 0.0
                  || wait * (1.0 + raw.backoffJitter) + EffectiveTimeout(raw) <= EffectiveTtl(raw))
  {
    hide NextInterval, StableUntilDue, TtlCovers, EffectiveTimeout, EffectiveTtl;
    AcceptedIsSane(raw);
    StableIffCovered(Registered(raw), st);
    BackoffCoveredIff(Registered(raw), st.backoffStep);
  }

  lemma HealthyIsCovered(raw: RawProbe)
    requires Acceptable(raw) && raw.ttl.None? && (raw.timeout.None? || raw.interval >= 0.000625)
    ensures TtlCovers(Registered(raw), 0)
  {
    if raw.timeout.None? {
      DerivedTimeoutInsideInterval(raw);
    }
    DerivedValues(raw);
    hide EffectiveTimeout, EffectiveTtl;
  }

  /**
   * The promise of the derived TTL: from any history, whatever result arrives within its timeout,
   * no read up to the next due time reports UNKNOWN on the strength of age.
   */
  lemma DerivedTtlKeepsReadsFresh(raw: RawProbe, h: seq<Event>, e: Event, t: real)
    requires Acceptable(raw) && raw.enabled && raw.ttl.None? && raw.backoffJitter <= 1.0
    requires raw.timeout.None? || raw.interval >= 0.000625
    requires e.Evaluated? && 0.0 <= e.draw <= 1.0
    requires e.now - EffectiveTimeout(raw) <= e.result.checkedAt <= e.now
    requires t <= Run(Registered(raw), h + [e]).nextDue
    ensures ReadAt(Registered(raw), Run(Registered(raw), h + [e]), t) == Run(Registered(raw), h + [e]).effective
  {
    var spec := Registered(raw);
    AcceptedIsSane(raw);
    assert (h + [e])[..|h|] == h;
    var step := StepAfter(spec, Run(spec, h), e.result.status);
    if step >= 1 {
      BackoffIsAlwaysCovered(spec, step);
    } else {
      HealthyIsCovered(raw);
    }
    hide TtlCovers, Registered, Acceptable, AfterResult, ReadAt, StepAfter, EffectiveTimeout;
    StableIfCovered(spec, Run(spec, h), e.result, e.now, e.draw, t);
  }

  // ---- the two gaps validation leaves ----

  function Plain(interval: real, timeout: Option<real>, jitter: real): RawProbe {
    RawProbe("http", "api", true, true, interval, timeout, 3, 2, 60.0, None, 5.0, 60.0, 2.0, jitter,
             None, None, None, None, None)
  }

  /** An explicit sub-millisecond schedule is accepted, its derived TTL rounds to zero, and its reads age out. */
  lemma TinyIntervalAgesOut()
    ensures Acceptable(Plain(0.00016, Some(0.0001), 0.1))
    ensures !StableUntilDue(Registered(Plain(0.00016, Some(0.0001), 0.1)), INITIAL)
  {
    var raw := Plain(0.00016, Some(0.0001), 0.1);
    assert (0.00042 * 1000.0 + 0.5).Floor == 0;
    HealthyFreshnessIff(raw, INITIAL);
  }

  /** backoff_jitter has no upper bound: at 2 an accepted probe reads UNKNOWN in the middle of its outage. */
  lemma UnboundedJitterAgesOut(st: CheckState)
    requires st.backoffStep == 12
    ensures Acceptable(Plain(15.0, None, 2.0))
    ensures !StableUntilDue(Registered(Plain(15.0, None, 2.0)), st)
  {
    var raw := Plain(15.0, None, 2.0);
    var spec := Registered(raw);
    BackoffFreshnessIff(raw, st);
    assert Power(2.0, 4) == 16.0;
    IntervalMonotone(spec, 5, 12);
    assert NextInterval(spec, 5) == 60.0;
  }

  /** A FAILING result as old as the timeout allows, in that outage: it confirms the failure, and then ages out before its time. */
  lemma FailingReadAgesOut(st: CheckState)
    requires Reachable(st) && st.backoffStep == 12 && st.consecutiveFail + 1 >= 3
    ensures var spec := Registered(Plain(15.0, None, 2.0));
            var r := CheckResult("api", Failing, 0.0, 0.0, Probed, None, Some(Timeout), None, None, map[]);
            var after := AfterResult(spec, st, r, spec.timeout, 1.0);
            && after.effective == Failing && after.backoffStep == 12
            && ReadAt(spec, after, spec.timeout) == Failing
            && ReadAt(spec, after, after.nextDue) == Unknown
  {
    var raw := Plain(15.0, None, 2.0);
    var spec := Registered(raw);
    AcceptedIsSane(raw);
    assert Power(2.0, 4) == 16.0;
    IntervalMonotone(spec, 5, 12);
    assert NextInterval(spec, 5) == 60.0 && NextInterval(spec, 12) == 60.0;
    assert spec.timeout == 2.0 && spec.ttl == 32.0 by {
      assert (2.0 * 1000.0 + 0.5).Floor == 2000 && (32.0 * 1000.0 + 0.5).Floor == 32000;
    }
    assert Spread(spec, 12) == 2.0 && Uniform(-2.0, 2.0, 1.0) == 2.0;
    hide NextInterval, Power, Plain, Registered;
    assert Schedule(spec, 12, 2.0, 1.0) == 182.0 && Ttl(spec, 12) == 122.0;
    hide Schedule, Ttl;
  }

  /** Every outage gets there: fourteen failures in a row, from the first evaluation on, reach the last step. */
  lemma OutageReachesTheLastStep(h: seq<Event>)
    requires |h| >= 14 && forall i :: 0 <= i < |h| ==> Is(h[i], Failing)
    ensures var st := Run(Registered(Plain(15.0, None, 2.0)), h);
            Reachable(st) && st.backoffStep == 12 && st.consecutiveFail + 1 >= 3
  {
    var spec := Registered(Plain(15.0, None, 2.0));
    AcceptedIsSane(Plain(15.0, None, 2.0));
    var first, rest := h[..2], h[2..];
    assert h == first + rest;
    TwoFailures(spec, first);
    FailureSteps(spec, Run(spec, first), rest);
    RunConcat(spec, INITIAL, first, rest);
    RunsStayReachable(spec, INITIAL, h);
    hide RunFrom;
  }

  lemma TwoFailures(spec: CheckSpec, h: seq<Event>)
    requires spec.failureThreshold == 3 && |h| == 2 && Is(h[0], Failing) && Is(h[1], Failing)
    ensures Run(spec, h).consecutiveFail == 2 && Run(spec, h).backoffStep == 0 && Reachable(Run(spec, h))
  {
    hide Schedule;
    assert h[..1] == [] + [h[0]] && h == h[..1] + [h[1]];
    RunSnoc(spec, INITIAL, [], h[0]);
    RunSnoc(spec, INITIAL, h[..1], h[1]);
    RunsStayReachable(spec, INITIAL, h);
  }
}
