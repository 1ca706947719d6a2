/** The per-check state machine: thresholds, hysteresis, backoff, jitter and read-time TTL. */
module Machine {
  import opened Wrappers
  import opened Model

  datatype CheckSpec = CheckSpec(
    name: string,
    critical: bool,
    enabled: bool,
    interval: real,
    timeout: real,
    ttl: real,
    failureThreshold: int,
    successThreshold: int,
    jitter: real,
    maxSilence: real,
    backoffInitial: real,
    backoffMax: real,
    backoffMultiplier: real,
    backoffJitter: real)

  datatype CheckState = CheckState(
    effective: Status,
    consecutiveFail: nat,
    consecutiveOk: nat,
    lastResult: Option<CheckResult>,
    lastOkAt: Option<real>,
    backoffStep: nat,
    transitions: nat,
    nextDue: real,
    enteredAt: real)

  const INITIAL := CheckState(Unknown, 0, 0, None, None, 0, 0, 0.0, 0.0)

  const MAX_BACKOFF_STEP: nat := 12

  function Power(base: real, exponent: nat): real {
    if exponent == 0 then 1.0 else base * Power(base, exponent - 1)
  }

  function Min(a: real, b: real): real {
    if a <= b then a else b
  }

  function Max(a: real, b: real): real {
    if a >= b then a else b
  }

  /** Python's `random.uniform`: `draw` is the generator's number in [0, 1]. */
  function Uniform(lo: real, hi: real, draw: real): real {
    lo + (hi - lo) * draw
  }

  /** The wait before jitter, backoff included. */
  function NextInterval(spec: CheckSpec, step: nat): real {
    if step == 0 then spec.interval
    else Min(spec.backoffInitial * Power(spec.backoffMultiplier, step - 1), spec.backoffMax)
  }

  function Spread(spec: CheckSpec, step: nat): real {
    if step == 0 then spec.jitter else spec.backoffJitter
  }

  function Schedule(spec: CheckSpec, step: nat, now: real, draw: real): real {
    now + NextInterval(spec, step) * (1.0 + Uniform(-Spread(spec, step), Spread(spec, step), draw))
  }

  /** The TTL in force, widened to fit an active backoff. */
  function Ttl(spec: CheckSpec, step: nat): real {
    if step == 0 then spec.ttl
    else Max(spec.ttl, NextInterval(spec, step) * 2.0 + spec.timeout)
  }

  /** OK is never reported for a check that has not been seen OK. */
  ghost predicate Reachable(st: CheckState) {
    && st.effective != Starting && st.effective != Disabled
    && (st.effective == OK ==> st.lastOkAt.Some?)
    && (st.effective != Unknown ==> st.lastResult.Some?)
    && st.backoffStep <= MAX_BACKOFF_STEP
  }

  // ---- what one result does to each counter ----

  predicate IsBad(s: Status) {
    s == Failing || s == Degraded
  }

  function FailsAfter(st: CheckState, status: Status): nat {
    match status
    case Failing => st.consecutiveFail + 1
    case OK => 0
    case Degraded => 0
    case _ => st.consecutiveFail
  }

  function OksAfter(st: CheckState, status: Status): nat {
    if status == OK then st.consecutiveOk + 1 else 0
  }

  function EffectiveAfter(spec: CheckSpec, st: CheckState, status: Status): Status {
    match status
    case Failing => if FailsAfter(st, status) >= spec.failureThreshold then Failing else st.effective
    case OK => if IsBad(st.effective) && OksAfter(st, status) < spec.successThreshold then st.effective else OK
    case Degraded => Degraded
    case _ => Unknown
  }

  function StepAfter(spec: CheckSpec, st: CheckState, status: Status): nat {
    var step := if status == OK then 0 else st.backoffStep;
    if FailsAfter(st, status) < spec.failureThreshold then step
    else if step + 1 <= MAX_BACKOFF_STEP then step + 1 else MAX_BACKOFF_STEP
  }

  function AfterResult(spec: CheckSpec, st: CheckState, r: CheckResult, now: real, draw: real): CheckState {
    var effective := EffectiveAfter(spec, st, r.status);
    var moved := effective != st.effective;
    var step := StepAfter(spec, st, r.status);
    CheckState(
      effective,
      FailsAfter(st, r.status),
      OksAfter(st, r.status),
      Some(r),
      if r.status == OK then Some(r.checkedAt) else st.lastOkAt,
      step,
      if moved then st.transitions + 1 else st.transitions,
      Schedule(spec, step, now, draw),
      if moved then r.checkedAt else st.enteredAt)
  }

  function AfterMarkUnknown(spec: CheckSpec, st: CheckState, now: real, draw: real): CheckState {
    var moved := st.effective != Unknown;
    st.(effective := Unknown,
        consecutiveOk := 0,
        transitions := if moved then st.transitions + 1 else st.transitions,
        enteredAt := if moved then now else st.enteredAt,
        nextDue := Schedule(spec, st.backoffStep, now, draw))
  }

  function AfterSwitch(st: CheckState, on: bool, now: real): CheckState {
    if on then st.(backoffStep := 0, consecutiveFail := 0, nextDue := now) else st
  }

  /** The status a reader sees at `now`: the TTL is applied when reading. */
  function ReadAt(spec: CheckSpec, st: CheckState, now: real): Status {
    if !spec.enabled then Disabled
    else if st.lastResult.None? then Unknown
    else if now - st.lastResult.value.checkedAt > Ttl(spec, st.backoffStep) then Unknown
    else st.effective
  }

  lemma AfterResultReachable(spec: CheckSpec, st: CheckState, r: CheckResult, now: real, draw: real)
    requires Reachable(st)
    ensures Reachable(AfterResult(spec, st, r, now, draw))
  {
  }

  /** Every check's spec and state, in registration order. */
  class StateMachine {
    var order: seq<string>
    var specs: map<string, CheckSpec>
    var states: map<string, CheckState>

    ghost predicate Valid()
      reads this
    {
      && (forall n :: n in order <==> n in specs)
      && specs.Keys == states.Keys
      && (forall i, j :: 0 <= i < j < |order| ==> order[i] != order[j])
      && (forall n :: n in specs ==> specs[n].name == n)
      && (forall n :: n in states ==> Reachable(states[n]))
    }

    constructor ()
      ensures Valid() && order == [] && specs == map[] && states == map[]
    {
      order, specs, states := [], map[], map[];
    }

    method Add(spec: CheckSpec)
      requires Valid()
      modifies this
      ensures Valid()
      ensures specs == old(specs)[spec.name := spec]
      ensures states == if spec.name in old(states) then old(states) else old(states)[spec.name := INITIAL]
      ensures order == if spec.name in old(specs) then old(order) else old(order) + [spec.name]
    {
      if spec.name !in specs {
        order := order + [spec.name];
      }
      specs := specs[spec.name := spec];
      if spec.name !in states {
        states := states[spec.name := INITIAL];
      }
    }

    method Store(name: string, st: CheckState)
      requires Valid() && name in specs && Reachable(st)
      modifies this`states
      ensures Valid()
      ensures states == old(states)[name := st]
    {
      hide Reachable;
      states := states[name := st];
    }

    method SetEnabled(name: string, enabled: bool, now: real)
      requires Valid() && name in specs
      modifies this
      ensures Valid() && order == old(order)
      ensures specs == old(specs)[name := old(specs)[name].(enabled := enabled)]
      ensures states == old(states)[name := AfterSwitch(old(states)[name], enabled, now)]
    {
      assert Reachable(states[name]);
      specs := specs[name := specs[name].(enabled := enabled)];
      if enabled {
        var st := states[name];
        st := st.(backoffStep := 0);
        st := st.(consecutiveFail := 0);
        st := st.(nextDue := now);
        Store(name, st);
      }
    }

    /** The four-way transition, then the backoff step, then the next due time. */
    method Apply(name: string, result: CheckResult, now: real, draw: real)
      requires Valid() && name in specs
      modifies this`states
      ensures Valid()
      ensures states == old(states)[name := AfterResult(specs[name], old(states)[name], result, now, draw)]
    {
      var spec, st := specs[name], states[name];
      AfterResultReachable(spec, st, result, now, draw);
      hide Valid, Reachable, Schedule, EffectiveAfter, FailsAfter, OksAfter;
      var previous := st.effective;
      st := Transition(spec, st, result);
      if st.effective != previous {
        st := st.(transitions := st.transitions + 1, enteredAt := result.checkedAt);
      }
      if st.consecutiveFail >= spec.failureThreshold {
        st := st.(backoffStep := if st.backoffStep + 1 <= 12 then st.backoffStep + 1 else 12);
      }
      st := st.(nextDue := Schedule(spec, st.backoffStep, now, draw));
      assert st == AfterResult(spec, states[name], result, now, draw);
      Store(name, st);
    }

    /** The counters and the effective status, by the status of the result. */
    static method Transition(spec: CheckSpec, before: CheckState, result: CheckResult) returns (st: CheckState)
      ensures st == before.(effective := EffectiveAfter(spec, before, result.status),
                            consecutiveFail := FailsAfter(before, result.status),
                            consecutiveOk := OksAfter(before, result.status),
                            lastResult := Some(result),
                            lastOkAt := if result.status == OK then Some(result.checkedAt) else before.lastOkAt,
                            backoffStep := if result.status == OK then 0 else before.backoffStep)
    {
      st := before.(lastResult := Some(result));
      match result.status {
        case Failing =>
          st := st.(consecutiveFail := st.consecutiveFail + 1, consecutiveOk := 0);
          if st.consecutiveFail >= spec.failureThreshold {
            st := st.(effective := Failing);
          }
        case OK =>
          st := st.(consecutiveOk := st.consecutiveOk + 1, consecutiveFail := 0);
          st := st.(backoffStep := 0, lastOkAt := Some(result.checkedAt));
          var recoveringFromBad := before.effective == Failing || before.effective == Degraded;
          if !recoveringFromBad || st.consecutiveOk >= spec.successThreshold {
            st := st.(effective := OK);
          }
        case Degraded =>
          st := st.(consecutiveFail := 0, consecutiveOk := 0, effective := Degraded);
        case _ =>
          st := st.(consecutiveOk := 0, effective := Unknown);
      }
    }

    method MarkUnknown(name: string, now: real, draw: real)
      requires Valid() && name in specs
      modifies this`states
      ensures Valid()
      ensures states == old(states)[name := AfterMarkUnknown(specs[name], old(states)[name], now, draw)]
    {
      var spec, st := specs[name], states[name];
      if st.effective != Unknown {
        st := st.(transitions := st.transitions + 1, enteredAt := now);
      }
      st := st.(effective := Unknown, consecutiveOk := 0);
      st := st.(nextDue := Schedule(spec, st.backoffStep, now, draw));
      Store(name, st);
    }

    /** The runner's write: push the due time forward at dispatch. */
    method PushDue(name: string, due: real)
      requires Valid() && name in states
      modifies this`states
      ensures Valid()
      ensures states == old(states)[name := old(states)[name].(nextDue := due)]
    {
      Store(name, states[name].(nextDue := due));
    }

    function Effective(name: string, now: real): Status
      requires Valid() && name in specs
      reads this
    {
      ReadAt(specs[name], states[name], now)
    }
  }
}
