/** The runner and the state machine on one clock: every dispatch comes when the check is due. */
module RunnerTiming {
  import opened Wrappers
  import opened Model
  import opened Machine
  import opened Backoff
  import P = RunnerProtocol
  import C = RunnerComparison

  /** One check: its slot in the runner and its state in the machine. */
  datatype Timed = Timed(slot: P.Slot, check: CheckState)

  /** What the monitor does with a verdict of the runner. */
  function AfterFate(spec: CheckSpec, st: CheckState, fate: P.Fate, now: real, draw: real): CheckState {
    match fate
    case TimedOut => AfterResult(spec, st, TimeoutResult(spec.name, now, now, spec.timeout), now, draw)
    case Applied(r) => AfterResult(spec, st, r, now, draw)
    case _ => st
  }

  function TimedStep(spec: CheckSpec, t: Timed, e: P.Event, draw: real): Timed {
    var slot := P.Step(t.slot, e, spec.timeout);
    match e
    case Dispatch(now) => Timed(slot, if P.Running(t.slot) then t.check else t.check.(nextDue := now + spec.interval))
    case Finish(_, _) => Timed(slot, t.check)
    case Collect(now) =>
      Timed(slot, if |slot.log| > |t.slot.log| then AfterFate(spec, t.check, slot.log[|t.slot.log|], now, draw) else t.check)
  }

  /** `draw` gives the jitter of the i-th event. */
  function TimedRun(spec: CheckSpec, h: seq<P.Event>, draw: nat -> real): Timed {
    if h == [] then Timed(P.EMPTY, INITIAL)
    else TimedStep(spec, TimedRun(spec, h[..|h| - 1], draw), h[|h| - 1], draw(|h| - 1))
  }

  lemma TimedSnoc(spec: CheckSpec, h: seq<P.Event>, e: P.Event, draw: nat -> real)
    ensures TimedRun(spec, h + [e], draw) == TimedStep(spec, TimedRun(spec, h, draw), e, draw(|h|))
  {
    assert (h + [e])[..|h|] == h;
  }

  lemma {:induction false} SlotOfTimedRun(spec: CheckSpec, h: seq<P.Event>, draw: nat -> real)
    ensures TimedRun(spec, h, draw).slot == P.Run(h, spec.timeout)
  {
    if h != [] {
      hide P.Step;
      SlotOfTimedRun(spec, h[..|h| - 1], draw);
    }
  }

  /** The clock never goes back, and a check is only dispatched when it is due. */
  ghost predicate Lawful(spec: CheckSpec, h: seq<P.Event>, draw: nat -> real) {
    && P.Monotone(h)
    && forall i :: 0 <= i < |h| && h[i].Dispatch? ==> h[i].now >= TimedRun(spec, h[..i], draw).check.nextDue
  }

  lemma LawfulSnoc(spec: CheckSpec, h: seq<P.Event>, e: P.Event, draw: nat -> real)
    requires Lawful(spec, h, draw) && P.Monotone(h + [e])
    requires e.Dispatch? ==> e.now >= TimedRun(spec, h, draw).check.nextDue
    ensures Lawful(spec, h + [e], draw)
  {
    hide P.Monotone, TimedRun;
    var g := h + [e];
    forall i | 0 <= i < |g| && g[i].Dispatch? ensures g[i].now >= TimedRun(spec, g[..i], draw).check.nextDue {
      assert g[..i] == h[..i];
      if i == |h| { assert h[..i] == h; }
    }
  }

  // ---- the longest a check can be put off ----

  function LongestWait(spec: CheckSpec): real {
    Max(spec.interval * (1.0 + spec.jitter), spec.backoffMax * (1.0 + spec.backoffJitter))
  }

  lemma LongestCovers(spec: CheckSpec)
    ensures spec.interval * (1.0 + spec.jitter) <= LongestWait(spec)
    ensures spec.backoffMax * (1.0 + spec.backoffJitter) <= LongestWait(spec)
  {
  }

  lemma LongestOf(spec: CheckSpec, step: nat)
    requires SaneBackoff(spec)
    ensures NextInterval(spec, step) * (1.0 + Spread(spec, step)) <= LongestWait(spec)
  {
    hide LongestWait, Power, Min;
    LongestCovers(spec);
    if step == 0 {
      assert NextInterval(spec, step) == spec.interval && Spread(spec, step) == spec.jitter;
    } else {
      IntervalGrows(spec, step);
      assert Spread(spec, step) == spec.backoffJitter;
      hide NextInterval, Spread;
      MulMonotone(NextInterval(spec, step), spec.backoffMax, 1.0 + spec.backoffJitter);
    }
  }

  lemma IntervalWithin(spec: CheckSpec)
    requires SaneBackoff(spec)
    ensures 0.0 <= spec.interval <= LongestWait(spec)
  {
    MulMonotoneLeft(1.0, 1.0 + spec.jitter, spec.interval);
  }

  lemma WithinLongest(spec: CheckSpec, step: nat, now: real, draw: real)
    requires SaneBackoff(spec) && 0.0 <= draw <= 1.0
    ensures Schedule(spec, step, now, draw) <= now + LongestWait(spec)
    ensures 0.0 <= spec.interval <= LongestWait(spec)
  {
    hide Schedule, NextInterval, Spread, LongestWait;
    ScheduleBounds(spec, step, now, draw);
    LongestOf(spec, step);
    IntervalWithin(spec);
  }

  // ---- a check that never returns in time, dispatched only when due ----

  /** n timeouts and nothing else have been reported. */
  predicate Down(spec: CheckSpec, st: CheckState, n: nat) {
    && st.consecutiveFail == n && st.lastOkAt.None?
    && st.effective == if n >= spec.failureThreshold then Failing else Unknown
  }

  lemma TimeoutIsOneMore(spec: CheckSpec, st: CheckState, n: nat, now: real, draw: real)
    requires SaneBackoff(spec) && Down(spec, st, n) && 0.0 <= draw <= 1.0
    ensures var after := AfterFate(spec, st, P.TimedOut, now, draw);
            Down(spec, after, n + 1) && after.nextDue <= now + LongestWait(spec)
  {
    WithinLongest(spec, StepAfter(spec, st, Failing), now, draw);
    hide Schedule, LongestWait;
  }

  lemma DispatchIdle(spec: CheckSpec, t: Timed, now: real, draw: real)
    requires t.slot.inflight.None?
    ensures TimedStep(spec, t, P.Dispatch(now), draw) ==
            Timed(P.DispatchStep(t.slot, now), t.check.(nextDue := now + spec.interval))
  {
    hide P.DispatchStep;
  }

  lemma CollectOverdue(spec: CheckSpec, t: Timed, start: real, now: real, draw: real)
    requires P.Running(t.slot) && t.slot.started == Some(start) && now - start > spec.timeout
    ensures TimedStep(spec, t, P.Collect(now), draw) ==
            Timed(P.CollectStep(t.slot, now, spec.timeout), AfterFate(spec, t.check, P.TimedOut, now, draw))
  {
    hide AfterFate;
  }

  lemma DispatchStarts(s: P.Slot, now: real)
    requires s.inflight.None? && forall k :: k in s.done ==> k < s.submitted
    ensures var t := P.DispatchStep(s, now); P.Running(t) && t.started == Some(now)
  {
  }

  /** Dispatched on an idle slot, timed out one second past its timeout. */
  lemma TimeoutRound(spec: CheckSpec, t: Timed, n: nat, now: real, d0: real, d1: real)
    requires SaneBackoff(spec) && 0.0 <= d1 <= 1.0
    requires t.slot.inflight.None? && forall k :: k in t.slot.done ==> k < t.slot.submitted
    requires Down(spec, t.check, n)
    ensures var u := TimedStep(spec, TimedStep(spec, t, P.Dispatch(now), d0), P.Collect(now + spec.timeout + 1.0), d1);
            && Down(spec, u.check, n + 1)
            && u.check.nextDue <= now + spec.timeout + 1.0 + LongestWait(spec)
  {
    var late := now + spec.timeout + 1.0;
    DispatchIdle(spec, t, now, d0);
    DispatchStarts(t.slot, now);
    hide TimedStep, P.DispatchStep, P.CollectStep, AfterFate, LongestWait, P.Running;
    var started := t.check.(nextDue := now + spec.interval);
    CollectOverdue(spec, Timed(P.DispatchStep(t.slot, now), started), now, late, d1);
    TimeoutIsOneMore(spec, started, n, late, d1);
  }

  ghost predicate Draws(draw: nat -> real) {
    forall i :: 0.0 <= draw(i) <= 1.0
  }

  lemma {:induction false} HungCheckStaysDown(spec: CheckSpec, k: nat, gap: real, draw: nat -> real)
    requires SaneBackoff(spec) && spec.timeout >= 0.0 && Draws(draw)
    requires gap >= spec.timeout + 1.0 + LongestWait(spec)
    ensures var h := P.HungRun(k, spec.timeout, gap);
            && Lawful(spec, h, draw)
            && Down(spec, TimedRun(spec, h, draw).check, k)
            && TimedRun(spec, h, draw).check.nextDue <= P.At(k, gap)
  {
    hide P.Run, TimedRun, P.Monotone, Lawful, Down, LongestWait, P.Unfinished, P.HungRun, P.At, SaneBackoff;
    IntervalWithin(spec);
    if k == 0 {
      NothingYet(spec, draw);
      NoRounds(spec.timeout, gap);
    } else {
      HungRunParts(k, spec.timeout, gap);
      HungCheckStaysDown(spec, k - 1, gap, draw);
      HungSlot(spec, k - 1, gap, draw);
      HungSlot(spec, k, gap, draw);
      HungRoundIsLawful(spec, P.HungRun(k - 1, spec.timeout, gap), k - 1, P.At(k - 1, gap), draw);
    }
  }

  lemma HungSlot(spec: CheckSpec, k: nat, gap: real, draw: nat -> real)
    requires spec.timeout >= 0.0 && gap >= spec.timeout + 1.0
    ensures P.Monotone(P.HungRun(k, spec.timeout, gap))
    ensures var slot := TimedRun(spec, P.HungRun(k, spec.timeout, gap), draw).slot;
            slot.inflight.None? && slot.done == map[] && slot.submitted == k && P.Unfinished(slot, k) == k
  {
    hide P.Run, TimedRun, P.Unfinished, P.HungRun, P.Monotone;
    P.HungCheckParksSlots(k, spec.timeout, gap);
    SlotOfTimedRun(spec, P.HungRun(k, spec.timeout, gap), draw);
  }

  /** A hung check, dispatched whenever it is due, is FAILING for ever and holds one more future with every timeout. */
  lemma HungCheckIsLawful(spec: CheckSpec, k: nat, gap: real, draw: nat -> real)
    requires SaneBackoff(spec) && spec.timeout >= 0.0 && Draws(draw)
    requires gap >= spec.timeout + 1.0 + LongestWait(spec)
    ensures var h := P.HungRun(k, spec.timeout, gap);
            && Lawful(spec, h, draw)
            && Down(spec, TimedRun(spec, h, draw).check, k)
            && TimedRun(spec, h, draw).slot.inflight.None?
            && P.Unfinished(TimedRun(spec, h, draw).slot, k) == k
  {
    hide TimedRun, Lawful, Down, P.Unfinished, P.HungRun, SaneBackoff;
    HungCheckStaysDown(spec, k, gap, draw);
    assert LongestWait(spec) >= 0.0 by { IntervalWithin(spec); }
    hide LongestWait;
    HungSlot(spec, k, gap, draw);
  }

  lemma HungRunParts(k: nat, timeout: real, gap: real)
    requires k > 0
    ensures var now := P.At(k - 1, gap);
            P.HungRun(k, timeout, gap)
            == P.HungRun(k - 1, timeout, gap) + [P.Dispatch(now)] + [P.Collect(now + timeout + 1.0)]
    ensures P.At(k, gap) == P.At(k - 1, gap) + gap
  {
  }

  lemma HungRoundIsLawful(spec: CheckSpec, p: seq<P.Event>, n: nat, now: real, draw: nat -> real)
    requires SaneBackoff(spec) && spec.timeout >= 0.0 && Draws(draw)
    requires var t := TimedRun(spec, p, draw);
             && t.slot.inflight.None? && (forall k :: k in t.slot.done ==> k < t.slot.submitted)
             && Down(spec, t.check, n) && t.check.nextDue <= now
    requires Lawful(spec, p, draw) && P.Monotone(p + [P.Dispatch(now)] + [P.Collect(now + spec.timeout + 1.0)])
    ensures var h := p + [P.Dispatch(now)] + [P.Collect(now + spec.timeout + 1.0)];
            && Lawful(spec, h, draw)
            && Down(spec, TimedRun(spec, h, draw).check, n + 1)
            && TimedRun(spec, h, draw).check.nextDue <= now + spec.timeout + 1.0 + LongestWait(spec)
  {
    hide TimedRun, TimedStep, P.Monotone, Lawful, Down, LongestWait, SaneBackoff;
    var late := P.Collect(now + spec.timeout + 1.0);
    var q := p + [P.Dispatch(now)];
    TimedSnoc(spec, p, P.Dispatch(now), draw);
    TimedSnoc(spec, q, late, draw);
    TimeoutRound(spec, TimedRun(spec, p, draw), n, now, draw(|p|), draw(|q|));
    PrefixIsMonotone(q, late);
    LawfulSnoc(spec, p, P.Dispatch(now), draw);
    LawfulSnoc(spec, q, late, draw);
  }

  lemma NothingYet(spec: CheckSpec, draw: nat -> real)
    requires SaneBackoff(spec)
    ensures Lawful(spec, [], draw)
    ensures Down(spec, TimedRun(spec, [], draw).check, 0) && TimedRun(spec, [], draw).check.nextDue == 0.0
  {
  }

  lemma NoRounds(timeout: real, gap: real)
    ensures P.HungRun(0, timeout, gap) == [] && C.AlternatingRun(0, timeout, gap) == [] && P.At(0, gap) == 0.0
  {
  }

  lemma PrefixIsMonotone(h: seq<P.Event>, e: P.Event)
    requires P.Monotone(h + [e])
    ensures P.Monotone(h)
  {
    assert forall i :: 0 <= i < |h| ==> h[i] == (h + [e])[i];
  }

  // ---- a check that succeeds every second time, dispatched only when due ----

  /** A success collected right after a timeout changes nothing but the due time. */
  lemma DroppedRound(spec: CheckSpec, t: Timed, now: real, d0: real, d1: real, d2: real)
    requires t.slot.inflight.None? && t.slot.timedOut && forall k :: k in t.slot.done ==> k < t.slot.submitted
    ensures var started := TimedStep(spec, t, P.Dispatch(now), d0);
            var returned := TimedStep(spec, started, P.Finish(t.slot.submitted, C.GOOD), d1);
            TimedStep(spec, returned, P.Collect(now), d2).check == t.check.(nextDue := now + spec.interval)
  {
    hide AfterResult;
  }

  lemma TimeoutLeavesMark(s: P.Slot, now: real, timeout: real)
    requires timeout >= 0.0 && s.inflight.None? && forall k :: k in s.done ==> k < s.submitted
    ensures var late := P.CollectStep(P.DispatchStep(s, now), now + timeout + 1.0, timeout);
            late.inflight.None? && late.timedOut && late.submitted == s.submitted + 1
            && forall k :: k in late.done ==> k < late.submitted
  {
  }

  lemma SlotStep(spec: CheckSpec, t: Timed, e: P.Event, draw: real)
    ensures TimedStep(spec, t, e, draw).slot == P.Step(t.slot, e, spec.timeout)
  {
    hide P.Step, AfterFate;
  }

  lemma AlternatingRoundDown(spec: CheckSpec, t: Timed, n: nat, start: real, again: real, draw: nat -> real, i: nat)
    requires SaneBackoff(spec) && spec.timeout >= 0.0 && Draws(draw) && n > 0
    requires t.slot.inflight.None? && t.slot.submitted == 2 * n - 2 && forall k :: k in t.slot.done ==> k < t.slot.submitted
    requires Down(spec, t.check, n - 1)
    ensures var u2 := TimedStep(spec, TimedStep(spec, t, P.Dispatch(start), draw(i)),
                                P.Collect(start + spec.timeout + 1.0), draw(i + 1));
            var u4 := TimedStep(spec, TimedStep(spec, u2, P.Dispatch(again), draw(i + 2)),
                                P.Finish(2 * n - 1, C.GOOD), draw(i + 3));
            var u5 := TimedStep(spec, u4, P.Collect(again), draw(i + 4));
            && u2.check.nextDue <= start + spec.timeout + 1.0 + LongestWait(spec)
            && Down(spec, u5.check, n) && u5.check.nextDue <= again + LongestWait(spec)
  {
    hide TimedStep, P.DispatchStep, P.CollectStep, LongestWait, SaneBackoff;
    var late := start + spec.timeout + 1.0;
    TimeoutRound(spec, t, n - 1, start, draw(i), draw(i + 1));
    var u1 := TimedStep(spec, t, P.Dispatch(start), draw(i));
    var u2 := TimedStep(spec, u1, P.Collect(late), draw(i + 1));
    SlotStep(spec, t, P.Dispatch(start), draw(i));
    SlotStep(spec, u1, P.Collect(late), draw(i + 1));
    TimeoutLeavesMark(t.slot, start, spec.timeout);
    IntervalWithin(spec);
    DroppedRound(spec, u2, again, draw(i + 2), draw(i + 3), draw(i + 4));
  }

  lemma TimedFive(spec: CheckSpec, h: seq<P.Event>, a: P.Event, b: P.Event, c: P.Event, d: P.Event, e: P.Event, draw: nat -> real)
    ensures var u2 := TimedStep(spec, TimedStep(spec, TimedRun(spec, h, draw), a, draw(|h|)), b, draw(|h| + 1));
            var u4 := TimedStep(spec, TimedStep(spec, u2, c, draw(|h| + 2)), d, draw(|h| + 3));
            && TimedRun(spec, h + [a] + [b], draw) == u2
            && TimedRun(spec, h + [a] + [b] + [c] + [d], draw) == u4
            && TimedRun(spec, h + [a, b, c, d, e], draw) == TimedStep(spec, u4, e, draw(|h| + 4))
  {
    hide TimedRun, TimedStep;
    TimedSnoc(spec, h, a, draw);
    TimedSnoc(spec, h + [a], b, draw);
    TimedSnoc(spec, h + [a] + [b], c, draw);
    TimedSnoc(spec, h + [a] + [b] + [c], d, draw);
    TimedSnoc(spec, h + [a] + [b] + [c] + [d], e, draw);
    assert h + [a] + [b] + [c] + [d] + [e] == h + [a, b, c, d, e];
  }

  lemma LawfulFive(spec: CheckSpec, h: seq<P.Event>, a: P.Event, b: P.Event, c: P.Event, d: P.Event, e: P.Event, draw: nat -> real)
    requires Lawful(spec, h, draw) && P.Monotone(h + [a, b, c, d, e])
    requires a.Dispatch? && c.Dispatch? && !b.Dispatch? && !d.Dispatch? && !e.Dispatch?
    requires a.now >= TimedRun(spec, h, draw).check.nextDue
    requires c.now >= TimedRun(spec, h + [a] + [b], draw).check.nextDue
    ensures Lawful(spec, h + [a, b, c, d, e], draw)
  {
    hide TimedRun, Lawful, P.Monotone;
    var h1 := h + [a];
    var h2 := h1 + [b];
    var h3 := h2 + [c];
    var h4 := h3 + [d];
    assert h4 + [e] == h + [a, b, c, d, e];
    PrefixIsMonotone(h4, e);
    PrefixIsMonotone(h3, d);
    PrefixIsMonotone(h2, c);
    PrefixIsMonotone(h1, b);
    LawfulSnoc(spec, h, a, draw);
    LawfulSnoc(spec, h1, b, draw);
    LawfulSnoc(spec, h2, c, draw);
    LawfulSnoc(spec, h3, d, draw);
    LawfulSnoc(spec, h4, e, draw);
  }

  /**
   * A check whose every second evaluation succeeds, dispatched only when due on a clock that never goes back, is
   * reported FAILING for ever and never once OK.
   */
  lemma {:induction false} AlternatingCheckIsLawful(spec: CheckSpec, n: nat, gap: real, draw: nat -> real)
    requires SaneBackoff(spec) && spec.timeout >= 0.0 && Draws(draw)
    requires gap >= spec.timeout + 1.0 + LongestWait(spec)
    ensures var h := C.AlternatingRun(n, spec.timeout, gap);
            && Lawful(spec, h, draw)
            && Down(spec, TimedRun(spec, h, draw).check, n)
            && TimedRun(spec, h, draw).check.nextDue <= P.At(2 * n, gap)
  {
    hide P.Run, TimedRun, TimedStep, P.Monotone, Lawful, Down, LongestWait, C.AlternatingRun, P.At, SaneBackoff;
    IntervalWithin(spec);
    C.AlternatingIsMonotone(n, spec.timeout, gap);
    if n == 0 {
      NothingYet(spec, draw);
      NoRounds(spec.timeout, gap);
    } else {
      AlternatingCheckIsLawful(spec, n - 1, gap, draw);
      var h, start, again := C.AlternatingRun(n - 1, spec.timeout, gap), P.At(2 * n - 2, gap), P.At(2 * n - 1, gap);
      C.AlternatingHappens(n - 1, spec.timeout, gap);
      SlotOfTimedRun(spec, h, draw);
      AlternatingParts(n, spec.timeout, gap);
      AlternatingRoundIsLawful(spec, h, n, start, again, draw);
    }
  }

  lemma AlternatingParts(n: nat, timeout: real, gap: real)
    requires n > 0
    ensures C.AlternatingRun(n, timeout, gap)
            == C.AlternatingRun(n - 1, timeout, gap) + C.AlternatingRound(n, P.At(2 * n - 2, gap), P.At(2 * n - 1, gap), timeout)
    ensures P.At(2 * n - 1, gap) == P.At(2 * n - 2, gap) + gap && P.At(2 * n, gap) == P.At(2 * n - 1, gap) + gap
  {
    hide C.AlternatingRound;
  }

  lemma AlternatingRoundIsLawful(spec: CheckSpec, h: seq<P.Event>, n: nat, start: real, again: real, draw: nat -> real)
    requires SaneBackoff(spec) && spec.timeout >= 0.0 && Draws(draw) && n > 0
    requires var t := TimedRun(spec, h, draw);
             && t.slot.inflight.None? && t.slot.submitted == 2 * n - 2
             && (forall k :: k in t.slot.done ==> k < t.slot.submitted)
             && Down(spec, t.check, n - 1) && t.check.nextDue <= start
    requires start + spec.timeout + 1.0 + LongestWait(spec) <= again
    requires Lawful(spec, h, draw) && P.Monotone(h + C.AlternatingRound(n, start, again, spec.timeout))
    ensures var g := h + C.AlternatingRound(n, start, again, spec.timeout);
            && Lawful(spec, g, draw)
            && Down(spec, TimedRun(spec, g, draw).check, n)
            && TimedRun(spec, g, draw).check.nextDue <= again + LongestWait(spec)
  {
    hide TimedRun, TimedStep, P.Monotone, Lawful, Down, LongestWait, SaneBackoff;
    var a, b, c := P.Dispatch(start), P.Collect(start + spec.timeout + 1.0), P.Dispatch(again);
    var d, e := P.Finish(2 * n - 1, C.GOOD), P.Collect(again);
    AlternatingRoundDown(spec, TimedRun(spec, h, draw), n, start, again, draw, |h|);
    TimedFive(spec, h, a, b, c, d, e, draw);
    LawfulFive(spec, h, a, b, c, d, e, draw);
  }
}
