/** Backoff: how the wait grows while a check fails, and why it never changes the reported status. */
module Backoff {
  import opened Wrappers
  import opened Model
  import opened Machine
  import opened History

  /** What a validated probe guarantees about the numbers the machine multiplies. */
  predicate SaneBackoff(spec: CheckSpec) {
    && spec.failureThreshold >= 1
    && 0.0 <= spec.backoffInitial <= spec.backoffMax
    && spec.backoffMultiplier >= 1.0
    && 0.0 <= spec.backoffJitter
    && 0.0 <= spec.interval
    && 0.0 <= spec.jitter
  }

  lemma MulMonotone(a: real, b: real, c: real)
    requires a <= b && c >= 0.0
    ensures a * c <= b * c
  {
  }

  lemma {:induction false} PowerGrows(base: real, n: nat)
    requires base >= 1.0
    ensures 1.0 <= Power(base, n) <= Power(base, n + 1)
  {
    if n > 0 {
      PowerGrows(base, n - 1);
    }
    MulMonotone(1.0, base, Power(base, n));
  }

  lemma MulMonotoneLeft(a: real, b: real, c: real)
    requires a <= b && c >= 0.0
    ensures c * a <= c * b
  {
  }

  lemma IntervalGrows(spec: CheckSpec, step: nat)
    requires SaneBackoff(spec) && step >= 1
    ensures 0.0 <= NextInterval(spec, step) <= NextInterval(spec, step + 1) <= spec.backoffMax
  {
    var low, high := Power(spec.backoffMultiplier, step - 1), Power(spec.backoffMultiplier, step);
    PowerGrows(spec.backoffMultiplier, step - 1);
    MulMonotoneLeft(low, high, spec.backoffInitial);
    MulMonotoneLeft(0.0, low, spec.backoffInitial);
    assert NextInterval(spec, step) == Min(spec.backoffInitial * low, spec.backoffMax);
    assert NextInterval(spec, step + 1) == Min(spec.backoffInitial * high, spec.backoffMax);
  }

  lemma {:induction false} IntervalMonotone(spec: CheckSpec, a: nat, b: nat)
    requires SaneBackoff(spec) && 1 <= a <= b
    ensures 0.0 <= NextInterval(spec, a) <= NextInterval(spec, b) <= spec.backoffMax
    decreases b - a
  {
    IntervalGrows(spec, a);
    if a < b {
      IntervalMonotone(spec, a + 1, b);
    }
  }

  /**
   * The waits by their recurrence: the healthy interval, then the initial wait, then each the multiplier times the
   * one before, none above the cap.
   */
  function CappedWait(spec: CheckSpec, step: nat): real {
    if step == 0 then spec.interval
    else if step == 1 then Min(spec.backoffInitial, spec.backoffMax)
    else Grown(spec, CappedWait(spec, step - 1))
  }

  /** The wait after one of length `wait`. */
  function Grown(spec: CheckSpec, wait: real): real {
    Min(spec.backoffMultiplier * wait, spec.backoffMax)
  }

  lemma PowerTurn(base: real, n: nat)
    ensures Power(base, 0) == 1.0 && Power(base, n + 1) == base * Power(base, n)
  {
  }

  lemma Reassociate(a: real, b: real, c: real)
    ensures a * (b * c) == b * (a * c)
  {
  }

  /** Capping early does not change a capped product. */
  lemma CapOnce(factor: real, x: real, cap: real)
    requires factor >= 1.0 && cap >= 0.0
    ensures Min(factor * Min(x, cap), cap) == Min(factor * x, cap)
  {
    MulMonotone(1.0, factor, cap);
    if x > cap {
      MulMonotoneLeft(cap, x, factor);
    }
  }

  lemma FirstInterval(spec: CheckSpec)
    ensures NextInterval(spec, 0) == spec.interval
    ensures NextInterval(spec, 1) == Min(spec.backoffInitial, spec.backoffMax)
  {
    PowerTurn(spec.backoffMultiplier, 0);
  }

  lemma IntervalTurn(spec: CheckSpec, step: nat)
    requires SaneBackoff(spec) && step >= 1
    ensures NextInterval(spec, step + 1) == Grown(spec, NextInterval(spec, step))
  {
    var factor, before := spec.backoffMultiplier, Power(spec.backoffMultiplier, step - 1);
    var x := spec.backoffInitial * before;
    assert NextInterval(spec, step) == Min(x, spec.backoffMax);
    assert NextInterval(spec, step + 1) == Min(factor * x, spec.backoffMax) by {
      PowerTurn(factor, step - 1);
      Reassociate(factor, spec.backoffInitial, before);
    }
    hide Power, NextInterval, Min;
    CapOnce(factor, x, spec.backoffMax);
  }

  /** The closed form in the code computes the recurrence. */
  lemma {:induction false} IntervalIsCappedWait(spec: CheckSpec, step: nat)
    requires SaneBackoff(spec)
    ensures NextInterval(spec, step) == CappedWait(spec, step)
  {
    if step <= 1 {
      FirstInterval(spec);
    } else {
      hide NextInterval, Grown;
      IntervalIsCappedWait(spec, step - 1);
      IntervalTurn(spec, step - 1);
    }
  }

  /** No OK result and no re-enable: the events during which backoff may only grow. */
  predicate Unbroken(h: seq<Event>) {
    forall i :: 0 <= i < |h| ==> !ClearsBackoff(h[i])
  }

  /** Along an outage the step never falls and never passes 12, and the wait never shrinks. */
  lemma {:induction false} OutageShape(spec: CheckSpec, st: CheckState, h: seq<Event>)
    requires SaneBackoff(spec) && Reachable(st) && Unbroken(h)
    ensures st.backoffStep <= RunFrom(spec, st, h).backoffStep <= MAX_BACKOFF_STEP
    ensures st.backoffStep >= 1 ==>
            NextInterval(spec, st.backoffStep) <= NextInterval(spec, RunFrom(spec, st, h).backoffStep) <= spec.backoffMax
  {
    if h != [] {
      OutageShape(spec, st, h[..|h| - 1]);
      RunsStayReachable(spec, st, h[..|h| - 1]);
    }
    if st.backoffStep >= 1 {
      IntervalMonotone(spec, st.backoffStep, RunFrom(spec, st, h).backoffStep);
    }
  }

  // ---- how long an outage is left alone ----

  lemma UniformBounds(spread: real, draw: real)
    requires spread >= 0.0 && 0.0 <= draw <= 1.0
    ensures -spread <= Uniform(-spread, spread, draw) <= spread
  {
    MulMonotoneLeft(0.0, draw, spread - -spread);
    MulMonotoneLeft(draw, 1.0, spread - -spread);
  }

  lemma ScheduleBounds(spec: CheckSpec, step: nat, now: real, draw: real)
    requires SaneBackoff(spec) && 0.0 <= draw <= 1.0
    ensures var wait, spread := NextInterval(spec, step), Spread(spec, step);
            now + wait * (1.0 - spread) <= Schedule(spec, step, now, draw) <= now + wait * (1.0 + spread)
  {
    var wait, spread := NextInterval(spec, step), Spread(spec, step);
    assert wait >= 0.0 by {
      if step >= 1 { IntervalGrows(spec, step); }
    }
    UniformBounds(spread, draw);
    var u := Uniform(-spread, spread, draw);
    MulMonotoneLeft(1.0 - spread, 1.0 + u, wait);
    MulMonotoneLeft(1.0 + u, 1.0 + spread, wait);
  }

  /** The draw spreads the due time evenly, from wait * (1 - jitter) to wait * (1 + jitter) after the clock reading. */
  lemma JitterRange(spec: CheckSpec, step: nat, now: real, draw: real)
    requires SaneBackoff(spec)
    ensures var jitter := if step == 0 then spec.jitter else spec.backoffJitter;
            Schedule(spec, step, now, draw) == now + CappedWait(spec, step) * (1.0 + jitter * (2.0 * draw - 1.0))
  {
    IntervalIsCappedWait(spec, step);
    Spreading(Spread(spec, step), draw);
    hide NextInterval, CappedWait, Uniform;
  }

  lemma Spreading(jitter: real, draw: real)
    ensures Uniform(-jitter, jitter, draw) == jitter * (2.0 * draw - 1.0)
  {
  }

  /** The capped geometric waits of steps from+1 .. from+k. */
  function Waits(spec: CheckSpec, from: nat, k: nat): seq<real> {
    seq(k, i requires 0 <= i < k => CappedWait(spec, Capped(from + i + 1)))
  }

  function Capped(step: nat): nat {
    if step <= MAX_BACKOFF_STEP then step else MAX_BACKOFF_STEP
  }

  function Sum(xs: seq<real>): real {
    if xs == [] then 0.0 else Sum(xs[..|xs| - 1]) + xs[|xs| - 1]
  }

  /** (1 - jitter) times the sum of the waits of steps from+1 .. from+k. */
  function LeastOutage(spec: CheckSpec, from: nat, k: nat): real {
    (1.0 - spec.backoffJitter) * Sum(Waits(spec, from, k))
  }

  /** The least a wait can shrink to under jitter. */
  function LeastWait(spec: CheckSpec, step: nat): real {
    (1.0 - spec.backoffJitter) * CappedWait(spec, step)
  }

  function Held(spec: CheckSpec, from: nat, k: nat): real {
    if k == 0 then 0.0 else Held(spec, from, k - 1) + LeastWait(spec, Capped(from + k))
  }

  lemma Distribute(c: real, a: real, b: real)
    ensures c * a + c * b == c * (a + b)
  {
  }

  lemma HeldStarts(spec: CheckSpec, from: nat)
    ensures Held(spec, from, 0) == 0.0
  {
  }

  lemma HeldLast(spec: CheckSpec, from: nat, k: nat)
    requires k >= 1
    ensures Held(spec, from, k) == Held(spec, from, k - 1) + LeastWait(spec, Capped(from + k))
  {
    hide LeastWait;
  }

  lemma LeastOutageStarts(spec: CheckSpec, from: nat)
    ensures LeastOutage(spec, from, 0) == 0.0
  {
    assert Waits(spec, from, 0) == [];
  }

  lemma LeastOutageLast(spec: CheckSpec, from: nat, k: nat)
    requires k >= 1
    ensures LeastOutage(spec, from, k) == LeastOutage(spec, from, k - 1) + LeastWait(spec, Capped(from + k))
  {
    hide CappedWait;
    var waits := Waits(spec, from, k);
    assert waits[..k - 1] == Waits(spec, from, k - 1);
    Distribute(1.0 - spec.backoffJitter, Sum(Waits(spec, from, k - 1)), waits[k - 1]);
  }

  lemma {:induction false} HeldIsSum(spec: CheckSpec, from: nat, k: nat)
    ensures Held(spec, from, k) == LeastOutage(spec, from, k)
  {
    hide LeastOutage, LeastWait, Held;
    if k == 0 {
      HeldStarts(spec, from);
      LeastOutageStarts(spec, from);
    } else {
      HeldIsSum(spec, from, k - 1);
      HeldLast(spec, from, k);
      LeastOutageLast(spec, from, k);
    }
  }

  /** A scheduling event: it sets the due time from its own clock reading. */
  predicate Schedules(e: Event) {
    e.Evaluated? || e.MarkedUnknown?
  }

  function ClockOf(e: Event): real
    requires Schedules(e)
  {
    match e
    case Evaluated(_, now, _) => now
    case MarkedUnknown(now, _) => now
  }

  function DrawOf(e: Event): real
    requires Schedules(e)
  {
    match e
    case Evaluated(_, _, draw) => draw
    case MarkedUnknown(_, draw) => draw
  }

  lemma StepSchedules(spec: CheckSpec, st: CheckState, e: Event)
    requires Schedules(e)
    ensures Step(spec, st, e).nextDue == Schedule(spec, Step(spec, st, e).backoffStep, ClockOf(e), DrawOf(e))
  {
    hide Schedule;
  }

  /** The position just after the last scheduling event. */
  function LastSet(h: seq<Event>): (i: nat)
    ensures i <= |h|
  {
    AfterLast(h, Schedules)
  }

  lemma LastSetSnoc(h: seq<Event>, e: Event)
    ensures LastSet(h + [e]) == if Schedules(e) then |h| + 1 else LastSet(h)
    ensures LastSet(h) <= |h|
  {
    assert (h + [e])[..|h|] == h;
  }

  /** The due time the last result or mark set: the dispatches after it only push it while the check runs. */
  function DueSet(spec: CheckSpec, st: CheckState, h: seq<Event>): real {
    RunFrom(spec, st, h[..LastSet(h)]).nextDue
  }

  /** Event i respects the schedule: a result comes no earlier than the last set due time, a mark no earlier than the clock. */
  predicate OnTime(spec: CheckSpec, st: CheckState, h: seq<Event>, i: nat)
    requires i < |h|
  {
    var last := LastSet(h[..i]);
    Schedules(h[i]) ==>
      && 0.0 <= DrawOf(h[i]) <= 1.0
      && (last > 0 && last <= i && Schedules(h[last - 1]) ==>
            ClockOf(h[i]) >= if h[i].Evaluated? then DueSet(spec, st, h[..i]) else ClockOf(h[last - 1]))
  }

  predicate Paced(spec: CheckSpec, st: CheckState, h: seq<Event>) {
    forall i :: 0 <= i < |h| ==> OnTime(spec, st, h, i)
  }

  /** Results that find the check confirmed failing: FAILING or UNKNOWN ones at or past the threshold. */
  function Confirmed(spec: CheckSpec, st: CheckState, h: seq<Event>): nat {
    if h == [] then 0
    else Confirmed(spec, st, h[..|h| - 1])
         + if h[|h| - 1].Evaluated? && RunFrom(spec, st, h).consecutiveFail >= spec.failureThreshold then 1 else 0
  }

  lemma RunSnoc(spec: CheckSpec, st: CheckState, h: seq<Event>, e: Event)
    ensures RunFrom(spec, st, h + [e]) == Step(spec, RunFrom(spec, st, h), e)
    ensures Confirmed(spec, st, h + [e]) ==
            Confirmed(spec, st, h)
            + if e.Evaluated? && RunFrom(spec, st, h + [e]).consecutiveFail >= spec.failureThreshold then 1 else 0
  {
    assert (h + [e])[..|h|] == h;
  }

  /** Along an outage the step counts the confirmed failures, up to 12. */
  lemma {:induction false} OutageSteps(spec: CheckSpec, st: CheckState, h: seq<Event>)
    requires SaneBackoff(spec) && Reachable(st) && Unbroken(h)
    ensures RunFrom(spec, st, h).backoffStep == Capped(st.backoffStep + Confirmed(spec, st, h))
  {
    if h != [] {
      var p, e := h[..|h| - 1], h[|h| - 1];
      assert h == p + [e];
      OutageSteps(spec, st, p);
      RunSnoc(spec, st, p, e);
      MachineStep(spec, RunFrom(spec, st, p), e);
      hide RunFrom, Step, Confirmed;
    }
  }

  /** Where a schedule stands: the last clock reading has passed all but the latest wait, the due time all of them. */
  predicate KeptAway(spec: CheckSpec, from: nat, k: nat, first: real, clock: real, due: real) {
    && clock >= first + Held(spec, from, if k == 0 then 0 else k - 1)
    && due >= first + Held(spec, from, k)
    && due >= clock
  }

  lemma WaitsAreNonNegative(spec: CheckSpec, step: nat)
    requires SaneBackoff(spec)
    ensures NextInterval(spec, step) >= 0.0
  {
    if step >= 1 { IntervalGrows(spec, step); }
  }

  lemma ProductIsNonNegative(a: real, b: real)
    requires a >= 0.0 && b >= 0.0
    ensures a * b >= 0.0
  {
  }

  lemma HeldGrows(spec: CheckSpec, from: nat, k: nat)
    requires SaneBackoff(spec) && spec.backoffJitter <= 1.0 && k >= 1
    ensures Held(spec, from, k - 1) <= Held(spec, from, k)
  {
    WaitsAreNonNegative(spec, Capped(from + k));
    IntervalIsCappedWait(spec, Capped(from + k));
    hide NextInterval, CappedWait;
    ProductIsNonNegative(1.0 - spec.backoffJitter, NextInterval(spec, Capped(from + k)));
  }

  lemma DueGains(spec: CheckSpec, step: nat, clock: real, draw: real)
    requires SaneBackoff(spec) && Spread(spec, step) <= 1.0 && 0.0 <= draw <= 1.0
    ensures var gain := NextInterval(spec, step) * (1.0 - Spread(spec, step));
            gain >= 0.0 && Schedule(spec, step, clock, draw) >= clock + gain
  {
    ScheduleBounds(spec, step, clock, draw);
    WaitsAreNonNegative(spec, step);
    hide NextInterval, Schedule, Spread;
    ProductIsNonNegative(NextInterval(spec, step), 1.0 - Spread(spec, step));
  }

  lemma DueIsLater(spec: CheckSpec, step: nat, clock: real, draw: real)
    requires SaneBackoff(spec) && spec.backoffJitter <= 1.0 && spec.jitter <= 1.0 && 0.0 <= draw <= 1.0
    ensures Schedule(spec, step, clock, draw) >= clock
    ensures step >= 1 ==> Schedule(spec, step, clock, draw) >= clock + LeastWait(spec, step)
  {
    DueGains(spec, step, clock, draw);
    if step >= 1 { FailureDue(spec, step, clock, draw); }
    hide NextInterval, Schedule, LeastWait;
  }

  /** One more schedule, at a clock reading past the waits before the latest one. */
  lemma ScheduledAgain(spec: CheckSpec, from: nat, k: nat, first: real, clock: real, draw: real)
    requires SaneBackoff(spec) && spec.backoffJitter <= 1.0 && spec.jitter <= 1.0 && 0.0 <= draw <= 1.0
    requires clock >= first + Held(spec, from, if k == 0 then 0 else k - 1)
    ensures KeptAway(spec, from, k, first, clock, Schedule(spec, Capped(from + k), clock, draw))
  {
    hide NextInterval, Schedule, Spread, LeastWait, Held, SaneBackoff;
    DueIsLater(spec, Capped(from + k), clock, draw);
    if k == 0 {
      HeldStarts(spec, from);
    } else {
      HeldLast(spec, from, k);
    }
  }

  /** The first scheduling event's clock. */
  function FirstClock(h: seq<Event>): Option<real> {
    if h == [] then None
    else
      var before := FirstClock(h[..|h| - 1]);
      if before.Some? then before
      else if Schedules(h[|h| - 1]) then Some(ClockOf(h[|h| - 1])) else None
  }

  lemma {:induction false} FirstClockIff(h: seq<Event>)
    ensures FirstClock(h).Some? <==> LastSet(h) > 0
    ensures LastSet(h) > 0 ==> Schedules(h[LastSet(h) - 1])
  {
    if h != [] {
      FirstClockIff(h[..|h| - 1]);
    }
  }

  lemma PacedPrefix(spec: CheckSpec, st: CheckState, p: seq<Event>, e: Event)
    requires Paced(spec, st, p + [e])
    ensures Paced(spec, st, p)
    ensures OnTime(spec, st, p + [e], |p|)
  {
    var h := p + [e];
    forall i | 0 <= i < |p| ensures OnTime(spec, st, p, i) {
      assert OnTime(spec, st, h, i) && h[..i] == p[..i] && h[i] == p[i];
    }
  }

  lemma {:induction false} NothingConfirmed(spec: CheckSpec, st: CheckState, h: seq<Event>)
    requires FirstClock(h).None?
    ensures Confirmed(spec, st, h) == 0
  {
    if h != [] {
      NothingConfirmed(spec, st, h[..|h| - 1]);
    }
  }

  /** A timely event's clock has passed every wait but the one it starts. */
  lemma ClockAdvances(spec: CheckSpec, st: CheckState, p: seq<Event>, e: Event)
    requires SaneBackoff(spec) && spec.backoffJitter <= 1.0
    requires Schedules(e) && OnTime(spec, st, p + [e], |p|)
    requires LastSet(p) > 0 ==> Schedules(p[LastSet(p) - 1])
    requires FirstClock(p).Some? <==> LastSet(p) > 0
    requires FirstClock(p).Some? ==>
               KeptAway(spec, st.backoffStep, Confirmed(spec, st, p), FirstClock(p).value,
                        ClockOf(p[LastSet(p) - 1]), DueSet(spec, st, p))
    ensures FirstClock(p + [e]).Some?
    ensures var k := Confirmed(spec, st, p + [e]);
            ClockOf(e) >= FirstClock(p + [e]).value + Held(spec, st.backoffStep, if k == 0 then 0 else k - 1)
  {
    hide RunFrom, Step, Confirmed, DueSet, NextInterval, LastSet, Held, LeastWait, FirstClock, SaneBackoff;
    var h, from, k := p + [e], st.backoffStep, Confirmed(spec, st, p);
    assert h[..|p|] == p && h[|p|] == e;
    RunSnoc(spec, st, p, e);
    FirstClockSnoc(p, e);
    HeldStarts(spec, from);
    if FirstClock(p).None? {
      NothingConfirmed(spec, st, p);
    } else {
      if k > 0 { HeldGrows(spec, from, k); }
      assert p[LastSet(p) - 1] == h[LastSet(p) - 1];
    }
  }

  lemma {:induction false} OutageKeepsAway(spec: CheckSpec, st: CheckState, h: seq<Event>)
    requires SaneBackoff(spec) && Reachable(st) && Unbroken(h)
    requires spec.jitter <= 1.0 && spec.backoffJitter <= 1.0 && Paced(spec, st, h)
    requires FirstClock(h).Some?
    ensures LastSet(h) > 0 && Schedules(h[LastSet(h) - 1])
    ensures KeptAway(spec, st.backoffStep, Confirmed(spec, st, h), FirstClock(h).value,
                     ClockOf(h[LastSet(h) - 1]), DueSet(spec, st, h))
  {
    FirstClockIff(h);
    var p, e := h[..|h| - 1], h[|h| - 1];
    assert h == p + [e];
    FirstClockIff(p);
    FirstClockSnoc(p, e);
    UnbrokenPrefix(p, e);
    PacedPrefix(spec, st, p, e);
    LastSetSnoc(p, e);
    RunSnoc(spec, st, p, e);
    hide RunFrom, Confirmed, LastSet, FirstClock, Paced, OnTime, Unbroken, Held, KeptAway, Schedule;
    if FirstClock(p).Some? {
      OutageKeepsAway(spec, st, p);
    }
    if !Schedules(e) {
      assert h[..LastSet(h)] == p[..LastSet(p)];
    } else {
      OutageSteps(spec, st, h);
      StepSchedules(spec, RunFrom(spec, st, p), e);
      assert h[..LastSet(h)] == h;
      ClockAdvances(spec, st, p, e);
      ScheduledAgain(spec, st.backoffStep, Confirmed(spec, st, h), FirstClock(h).value, ClockOf(e), DrawOf(e));
    }
  }

  lemma FirstClockSnoc(h: seq<Event>, e: Event)
    ensures FirstClock(h + [e]) ==
            if FirstClock(h).Some? then FirstClock(h) else if Schedules(e) then Some(ClockOf(e)) else None
  {
    assert (h + [e])[..|h|] == h;
  }

  lemma UnbrokenPrefix(p: seq<Event>, e: Event)
    requires Unbroken(p + [e])
    ensures Unbroken(p)
  {
    assert forall i :: 0 <= i < |p| ==> p[i] == (p + [e])[i];
  }

  /**
   * Along any outage, dispatches, UNKNOWN, DEGRADED and unconfirmed results included: k confirmed failures
   * keep the check away for at least (1 - jitter) times the sum of their capped geometric waits.
   */
  lemma OutageSpacing(spec: CheckSpec, st: CheckState, h: seq<Event>)
    requires SaneBackoff(spec) && Reachable(st) && Unbroken(h)
    requires spec.jitter <= 1.0 && spec.backoffJitter <= 1.0 && Paced(spec, st, h)
    requires FirstClock(h).Some?
    ensures var k := Confirmed(spec, st, h);
            && RunFrom(spec, st, h).backoffStep == Capped(st.backoffStep + k)
            && DueSet(spec, st, h)
               >= FirstClock(h).value + LeastOutage(spec, st.backoffStep, k)
  {
    hide RunFrom, Confirmed, DueSet, LeastOutage, Held, Paced, Unbroken;
    OutageSteps(spec, st, h);
    OutageKeepsAway(spec, st, h);
    HeldIsSum(spec, st.backoffStep, Confirmed(spec, st, h));
  }

  // ---- failures in an unbroken row need no bound on the jitter ----

  function DueAfter(spec: CheckSpec, st: CheckState, h: seq<Event>): real {
    RunFrom(spec, st, h).nextDue
  }

  /** Failures only, each applied no earlier than the check fell due again. */
  predicate PacedFailures(spec: CheckSpec, st: CheckState, h: seq<Event>) {
    && (forall i :: 0 <= i < |h| ==> Is(h[i], Failing))
    && (forall i :: 0 <= i < |h| ==> 0.0 <= h[i].draw <= 1.0)
    && (forall i {:trigger h[i]} :: 0 <= i < |h| ==> h[i].now >= DueAfter(spec, st, h[..i]))
  }

  lemma {:induction false} FailureSteps(spec: CheckSpec, st: CheckState, h: seq<Event>)
    requires SaneBackoff(spec) && Reachable(st)
    requires st.consecutiveFail + 1 >= spec.failureThreshold
    requires forall i :: 0 <= i < |h| ==> Is(h[i], Failing)
    ensures RunFrom(spec, st, h).backoffStep == Capped(st.backoffStep + |h|)
    ensures RunFrom(spec, st, h).consecutiveFail == st.consecutiveFail + |h|
  {
    if h != [] {
      hide Schedule;
      FailureSteps(spec, st, h[..|h| - 1]);
    }
  }

  lemma FailureDue(spec: CheckSpec, step: nat, now: real, draw: real)
    requires SaneBackoff(spec) && step >= 1 && 0.0 <= draw <= 1.0
    ensures Schedule(spec, step, now, draw) >= now + LeastWait(spec, step)
  {
    ScheduleBounds(spec, step, now, draw);
    IntervalIsCappedWait(spec, step);
    hide NextInterval, CappedWait, Schedule;
    assert NextInterval(spec, step) * (1.0 - spec.backoffJitter) == (1.0 - spec.backoffJitter) * CappedWait(spec, step);
  }

  lemma LastWait(spec: CheckSpec, st: CheckState, h: seq<Event>)
    requires SaneBackoff(spec) && Reachable(st) && h != []
    requires st.consecutiveFail + 1 >= spec.failureThreshold
    requires forall i :: 0 <= i < |h| ==> Is(h[i], Failing)
    requires Is(h[|h| - 1], Failing) && 0.0 <= h[|h| - 1].draw <= 1.0
    ensures DueAfter(spec, st, h) >= h[|h| - 1].now + LeastWait(spec, Capped(st.backoffStep + |h|))
  {
    var p, e := h[..|h| - 1], h[|h| - 1];
    assert h == p + [e];
    FailureSteps(spec, st, h);
    RunSnoc(spec, st, p, e);
    StepSchedules(spec, RunFrom(spec, st, p), e);
    FailureDue(spec, Capped(st.backoffStep + |h|), e.now, e.draw);
    hide RunFrom, Step, NextInterval, Schedule, Confirmed, LeastWait;
  }

  lemma PacedFailuresPrefix(spec: CheckSpec, st: CheckState, h: seq<Event>)
    requires PacedFailures(spec, st, h) && |h| > 1
    ensures var p := h[..|h| - 1];
            PacedFailures(spec, st, p) && p[0] == h[0] && h[|h| - 1].now >= DueAfter(spec, st, p)
  {
    var p := h[..|h| - 1];
    assert forall i :: 0 <= i < |p| ==> p[i] == h[i] && p[..i] == h[..i];
    hide DueAfter;
  }

  lemma {:induction false} FailuresKeepAway(spec: CheckSpec, st: CheckState, h: seq<Event>)
    requires SaneBackoff(spec) && Reachable(st)
    requires st.consecutiveFail + 1 >= spec.failureThreshold
    requires h != [] && PacedFailures(spec, st, h)
    ensures DueAfter(spec, st, h) >= h[0].now + Held(spec, st.backoffStep, |h|)
  {
    LastWait(spec, st, h);
    HeldStarts(spec, st.backoffStep);
    hide DueAfter, NextInterval, LeastWait;
    if |h| > 1 {
      PacedFailuresPrefix(spec, st, h);
      hide PacedFailures;
      FailuresKeepAway(spec, st, h[..|h| - 1]);
    }
  }

  /** Failures only, whatever the jitter: each is one more confirmed failure. */
  lemma FailuresSpacing(spec: CheckSpec, st: CheckState, h: seq<Event>)
    requires SaneBackoff(spec) && Reachable(st)
    requires st.consecutiveFail + 1 >= spec.failureThreshold
    requires h != [] && PacedFailures(spec, st, h)
    ensures DueAfter(spec, st, h) >= h[0].now + LeastOutage(spec, st.backoffStep, |h|)
  {
    hide DueAfter, Held, LeastOutage, SaneBackoff, Reachable;
    assert Is(h[0], Failing);
    FailuresKeepAway(spec, st, h);
    hide PacedFailures;
    HeldIsSum(spec, st.backoffStep, |h|);
  }

  // ---- backoff changes how often a check is asked, never what is reported ----

  /** A result at most `timeout` old is applied at `now`; a reader looks before the check falls due again. */
  ghost predicate StableUntilDue(spec: CheckSpec, st: CheckState) {
    forall r: CheckResult, now: real, draw: real, t: real ::
      now - spec.timeout <= r.checkedAt <= now && 0.0 <= draw <= 1.0
      && now <= t <= AfterResult(spec, st, r, now, draw).nextDue
      && StepAfter(spec, st, r.status) == st.backoffStep
      ==> ReadAt(spec, AfterResult(spec, st, r, now, draw), t) == AfterResult(spec, st, r, now, draw).effective
  }

  /** The longest a result can stand between two applications fits the TTL in force. */
  predicate TtlCovers(spec: CheckSpec, step: nat) {
    NextInterval(spec, step) * (1.0 + Spread(spec, step)) + spec.timeout <= Ttl(spec, step)
  }

  lemma StableIfCovered(spec: CheckSpec, st: CheckState, r: CheckResult, now: real, draw: real, t: real)
    requires SaneBackoff(spec) && spec.enabled && 0.0 <= draw <= 1.0
    requires now - spec.timeout <= r.checkedAt <= now
    requires TtlCovers(spec, StepAfter(spec, st, r.status))
    requires t <= AfterResult(spec, st, r, now, draw).nextDue
    ensures ReadAt(spec, AfterResult(spec, st, r, now, draw), t) == AfterResult(spec, st, r, now, draw).effective
  {
    ScheduleBounds(spec, StepAfter(spec, st, r.status), now, draw);
  }

  /** While backing off with a spread of at most 1, the widened TTL always covers the wait. */
  lemma BackoffIsAlwaysCovered(spec: CheckSpec, step: nat)
    requires SaneBackoff(spec) && step >= 1 && spec.backoffJitter <= 1.0
    ensures TtlCovers(spec, step)
  {
    IntervalGrows(spec, step);
    MulMonotone(1.0 + spec.backoffJitter, 2.0, NextInterval(spec, step));
  }

  /**
   * Backoff never changes the reported status: whatever result of an outage is applied,
   * every read until the check falls due again returns the stored status.
   */
  lemma BackoffKeepsStatus(spec: CheckSpec, h: seq<Event>, e: Event, t: real)
    requires SaneBackoff(spec) && spec.enabled && spec.backoffJitter <= 1.0
    requires e.Evaluated? && 0.0 <= e.draw <= 1.0
    requires e.now - spec.timeout <= e.result.checkedAt <= e.now
    requires Run(spec, h + [e]).backoffStep >= 1
    requires t <= Run(spec, h + [e]).nextDue
    ensures ReadAt(spec, Run(spec, h + [e]), t) == Run(spec, h + [e]).effective
  {
    assert (h + [e])[..|h|] == h;
    BackoffIsAlwaysCovered(spec, Run(spec, h + [e]).backoffStep);
    StableIfCovered(spec, Run(spec, h), e.result, e.now, e.draw, t);
  }

  /** The worst case: a DEGRADED result as old as the timeout allows, the longest draw, read as it falls due. */
  function WorstResult(name: string): CheckResult {
    CheckResult(name, Degraded, 0.0, 0.0, NoEvidence, None, None, None, None, map[])
  }

  /**
   * In a state that keeps its backoff step, no read before the due time ages out
   * exactly when the TTL covers the longest wait plus the timeout.
   */
  lemma StableIffCovered(spec: CheckSpec, st: CheckState)
    requires SaneBackoff(spec) && spec.enabled && spec.timeout >= 0.0
    ensures StableUntilDue(spec, st) <==> TtlCovers(spec, st.backoffStep)
  {
    if TtlCovers(spec, st.backoffStep) {
      forall r: CheckResult, now: real, draw: real, t: real |
        now - spec.timeout <= r.checkedAt <= now && 0.0 <= draw <= 1.0
        && now <= t <= AfterResult(spec, st, r, now, draw).nextDue
        && StepAfter(spec, st, r.status) == st.backoffStep
        ensures ReadAt(spec, AfterResult(spec, st, r, now, draw), t) == AfterResult(spec, st, r, now, draw).effective
      {
        StableIfCovered(spec, st, r, now, draw, t);
      }
    } else {
      WorstReadAgesOut(spec, st);
    }
  }

  lemma WorstReadAgesOut(spec: CheckSpec, st: CheckState)
    requires SaneBackoff(spec) && spec.enabled && spec.timeout >= 0.0
    requires !TtlCovers(spec, st.backoffStep)
    ensures var after := AfterResult(spec, st, WorstResult(spec.name), spec.timeout, 1.0);
            && after.nextDue >= spec.timeout
            && after.backoffStep == st.backoffStep
            && after.effective == Degraded
            && ReadAt(spec, after, after.nextDue) == Unknown
  {
    var wait, spread := NextInterval(spec, st.backoffStep), Spread(spec, st.backoffStep);
    assert Uniform(-spread, spread, 1.0) == spread;
    if st.backoffStep >= 1 {
      IntervalGrows(spec, st.backoffStep);
    }
    MulMonotoneLeft(0.0, 1.0 + spread, wait);
  }
}
