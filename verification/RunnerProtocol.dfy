/**
 * One check under the thread runner: dispatch, in-flight future, timeout, late result.
 * Futures of a check are numbered in the order they were submitted.
 */
module RunnerProtocol {
  import opened Wrappers
  import opened Model

  /** What became of a future that is no longer tracked. */
  datatype Fate =
    | TimedOut                       // reported as a timeout and forgotten
    | Applied(result: CheckResult)   // collected and handed to the monitor
    | Dropped(result: CheckResult)   // collected and thrown away
    | Lost(result: CheckResult)      // finished, but replaced before it was collected

  datatype Slot = Slot(
    submitted: nat,
    done: map<nat, CheckResult>,   // finished futures, abandoned ones included
    inflight: Option<nat>,
    started: Option<real>,
    timedOut: bool,
    log: seq<Fate>)

  const EMPTY := Slot(0, map[], None, None, false, [])

  datatype Event =
    | Dispatch(now: real)
    | Finish(future: nat, result: CheckResult)
    | Collect(now: real)

  predicate Running(s: Slot) {
    s.inflight.Some? && s.inflight.value !in s.done
  }

  /** The check is due: submit it unless it is still running. */
  function DispatchStep(s: Slot, now: real): Slot {
    if Running(s) then s
    else s.(submitted := s.submitted + 1, inflight := Some(s.submitted), started := Some(now),
            log := if s.inflight.Some? then s.log + [Lost(s.done[s.inflight.value])] else s.log)
  }

  /** The pool finishes a future, tracked or abandoned, once. */
  function FinishStep(s: Slot, future: nat, result: CheckResult): Slot {
    if future < s.submitted && future !in s.done then s.(done := s.done[future := result]) else s
  }

  function CollectStep(s: Slot, now: real, timeout: real): Slot {
    if s.inflight.None? then s
    else if Running(s) then
      if s.started.Some? && now - s.started.value > timeout then
        s.(inflight := None, started := None, timedOut := true, log := s.log + [TimedOut])
      else s
    else
      var result := s.done[s.inflight.value];
      if s.timedOut then s.(inflight := None, started := None, timedOut := false, log := s.log + [Dropped(result)])
      else s.(inflight := None, started := None, log := s.log + [Applied(result)])
  }

  function Step(s: Slot, e: Event, timeout: real): Slot {
    match e
    case Dispatch(now) => DispatchStep(s, now)
    case Finish(future, result) => FinishStep(s, future, result)
    case Collect(now) => CollectStep(s, now, timeout)
  }

  function RunFrom(s: Slot, h: seq<Event>, timeout: real): Slot {
    if h == [] then s else Step(RunFrom(s, h[..|h| - 1], timeout), h[|h| - 1], timeout)
  }

  function Run(h: seq<Event>, timeout: real): Slot {
    RunFrom(EMPTY, h, timeout)
  }

  // ---- every future has one fate, and keeps it ----

  /** The last verdict reported for the check, lost results aside, was a timeout. */
  predicate LastIsTimeout(log: seq<Fate>) {
    log != [] && (log[|log| - 1].TimedOut? || (log[|log| - 1].Lost? && LastIsTimeout(log[..|log| - 1])))
  }

  ghost predicate Consistent(s: Slot) {
    && s.submitted == |s.log| + (if s.inflight.Some? then 1 else 0)
    && (s.inflight.Some? ==> s.inflight.value == |s.log|)
    && (forall k :: k in s.done ==> k < s.submitted)
    && (forall k :: 0 <= k < |s.log| && !s.log[k].TimedOut? ==> k in s.done && s.log[k].result == s.done[k])
    && s.started.Some? == s.inflight.Some?
    && s.timedOut == LastIsTimeout(s.log)
  }

  /** The tracked future is given its fate, and perhaps another is submitted. */
  lemma LogOneMore(s: Slot, t: Slot)
    requires Consistent(s) && s.inflight.Some? && |t.log| == |s.log| + 1 && t.log == s.log + [t.log[|s.log|]]
    requires t.done == s.done && t.started.Some? == t.inflight.Some?
    requires t.submitted == s.submitted + (if t.inflight.Some? then 1 else 0)
    requires t.inflight.Some? ==> t.inflight.value == s.submitted
    requires var fate := t.log[|s.log|];
             (!fate.TimedOut? ==> s.inflight.value in s.done && fate.result == s.done[s.inflight.value])
             && t.timedOut == (fate.TimedOut? || (fate.Lost? && s.timedOut))
    ensures Consistent(t) && s.log <= t.log
  {
    assert t.log[..|s.log|] == s.log;
  }

  lemma DispatchKeepsConsistent(s: Slot, now: real)
    requires Consistent(s)
    ensures Consistent(DispatchStep(s, now)) && s.log <= DispatchStep(s, now).log
  {
    var t := DispatchStep(s, now);
    if !Running(s) && s.inflight.Some? {
      LogOneMore(s, t);
    }
  }

  lemma CollectKeepsConsistent(s: Slot, now: real, timeout: real)
    requires Consistent(s)
    ensures Consistent(CollectStep(s, now, timeout)) && s.log <= CollectStep(s, now, timeout).log
  {
    var t := CollectStep(s, now, timeout);
    if t.log != s.log {
      LogOneMore(s, t);
    }
  }

  lemma StepKeepsConsistent(s: Slot, e: Event, timeout: real)
    requires Consistent(s)
    ensures Consistent(Step(s, e, timeout))
    ensures s.log <= Step(s, e, timeout).log
    ensures s.done.Keys <= Step(s, e, timeout).done.Keys
  {
    match e
    case Dispatch(now) => DispatchKeepsConsistent(s, now);
    case Finish(_, _) =>
    case Collect(now) => CollectKeepsConsistent(s, now, timeout);
  }

  /**
   * Over every run, the k-th fate is the fate of the k-th future: a future is tracked or has
   * exactly one fate, a timeout is never followed by its own result, and fates are final.
   */
  lemma {:induction false} FatesAreFinal(s: Slot, h: seq<Event>, timeout: real)
    requires Consistent(s)
    ensures Consistent(RunFrom(s, h, timeout))
    ensures s.log <= RunFrom(s, h, timeout).log
    ensures s.done.Keys <= RunFrom(s, h, timeout).done.Keys
  {
    if h != [] {
      FatesAreFinal(s, h[..|h| - 1], timeout);
      StepKeepsConsistent(RunFrom(s, h[..|h| - 1], timeout), h[|h| - 1], timeout);
    }
  }

  // ---- slot conservation ----

  /** Submitted futures below n that have not returned: the pool slots they hold. */
  function Unfinished(s: Slot, n: nat): nat {
    if n == 0 then 0 else Unfinished(s, n - 1) + if n - 1 in s.done then 0 else 1
  }

  function Timeouts(s: Slot, n: nat): nat
    requires n <= |s.log|
  {
    if n == 0 then 0 else Timeouts(s, n - 1) + if s.log[n - 1].TimedOut? then 1 else 0
  }

  /** Abandoned futures below n that have returned since. */
  function Returned(s: Slot, n: nat): nat
    requires n <= |s.log|
  {
    if n == 0 then 0 else Returned(s, n - 1) + if s.log[n - 1].TimedOut? && n - 1 in s.done then 1 else 0
  }

  lemma {:induction false} SettledSlots(s: Slot, n: nat)
    requires Consistent(s) && n <= |s.log|
    ensures Unfinished(s, n) == Timeouts(s, n) - Returned(s, n)
  {
    if n > 0 {
      SettledSlots(s, n - 1);
    }
  }

  /** Unfinished futures = the tracked one, if running, plus reported timeouts minus abandoned futures that returned. */
  lemma SlotConservation(h: seq<Event>, timeout: real)
    ensures var s := Run(h, timeout);
            Unfinished(s, s.submitted)
            == (if Running(s) then 1 else 0) + Timeouts(s, |s.log|) - Returned(s, |s.log|)
  {
    FatesAreFinal(EMPTY, h, timeout);
    SettledSlots(Run(h, timeout), |Run(h, timeout).log|);
  }

  /** After a collect, nothing still tracked and running is older than its timeout. */
  lemma NothingOverdue(h: seq<Event>, now: real, timeout: real)
    ensures var s := Run(h + [Collect(now)], timeout);
            Running(s) ==> s.started.Some? && now - s.started.value <= timeout
  {
    assert (h + [Collect(now)])[..|h|] == h;
    FatesAreFinal(EMPTY, h, timeout);
  }

  /** The last submission: a dispatch that found the check not running, with none after it. */
  predicate LastSubmission(h: seq<Event>, timeout: real, i: nat)
    requires i < |h|
  {
    && h[i].Dispatch? && !Running(Run(h[..i], timeout))
    && forall j :: i < j < |h| && h[j].Dispatch? ==> Running(Run(h[..j], timeout))
  }

  lemma LastSubmissionPrefix(p: seq<Event>, e: Event, timeout: real, i: nat)
    requires i < |p| && LastSubmission(p + [e], timeout, i)
    ensures LastSubmission(p, timeout, i) && (e.Dispatch? ==> Running(Run(p, timeout)))
  {
    hide Run;
    var h := p + [e];
    assert h[..|p|] == p && h[|p|] == e;
    assert forall j :: 0 <= j < |p| ==> h[..j] == p[..j] && h[j] == p[j];
  }

  lemma {:induction false} StartedAtSubmission(h: seq<Event>, timeout: real, i: nat)
    requires i < |h| && LastSubmission(h, timeout, i)
    ensures Run(h, timeout).started.Some? ==> Run(h, timeout).started.value == h[i].now
  {
    var p, e := h[..|h| - 1], h[|h| - 1];
    assert h == p + [e];
    assert Run(h, timeout) == Step(Run(p, timeout), e, timeout);
    if i < |p| {
      LastSubmissionPrefix(p, e, timeout, i);
      hide LastSubmission, RunFrom;
      StartedAtSubmission(p, timeout, i);
    }
  }

  /** A collect reports a timeout exactly when the future is still running more than its timeout after its submission. */
  lemma TimedOutIff(h: seq<Event>, now: real, timeout: real, i: nat)
    requires i < |h| && LastSubmission(h, timeout, i)
    ensures Run(h + [Collect(now)], timeout).log == Run(h, timeout).log + [TimedOut]
            <==> Running(Run(h, timeout)) && now - h[i].now > timeout
  {
    assert (h + [Collect(now)])[..|h|] == h;
    assert Run(h + [Collect(now)], timeout) == CollectStep(Run(h, timeout), now, timeout);
    StartedAtSubmission(h, timeout, i);
    FatesAreFinal(EMPTY, h, timeout);
    hide RunFrom, LastSubmission, CollectStep;
    CollectTimesOutIff(Run(h, timeout), now, timeout);
  }

  lemma CollectTimesOutIff(s: Slot, now: real, timeout: real)
    requires Consistent(s)
    ensures CollectStep(s, now, timeout).log == s.log + [TimedOut]
            <==> Running(s) && s.started.Some? && now - s.started.value > timeout
    ensures Running(s) ==> s.started.Some?
  {
    var log := CollectStep(s, now, timeout).log;
    if log == s.log + [TimedOut] {
      assert log[|s.log|] == TimedOut;
    }
  }

  // ---- runs on a clock that never goes back ----

  function TimeOf(e: Event): real {
    if e.Finish? then 0.0 else e.now
  }

  /** The scheduler's own clock readings never go back. A future may return at any time. */
  predicate Monotone(h: seq<Event>) {
    forall i, j :: 0 <= i < j < |h| && !h[i].Finish? && !h[j].Finish? ==> TimeOf(h[i]) <= TimeOf(h[j])
  }

  predicate NoLaterThan(h: seq<Event>, t: real) {
    forall i :: 0 <= i < |h| && !h[i].Finish? ==> TimeOf(h[i]) <= t
  }

  lemma MonotoneSnoc(h: seq<Event>, e: Event, t: real)
    requires Monotone(h) && NoLaterThan(h, t) && (!e.Finish? ==> t <= TimeOf(e))
    ensures Monotone(h + [e]) && NoLaterThan(h + [e], if e.Finish? then t else TimeOf(e))
  {
  }

  /** The n-th of equally spaced clock readings. */
  function At(n: nat, gap: real): real {
    if n == 0 then 0.0 else At(n - 1, gap) + gap
  }

  lemma RunSnoc(h: seq<Event>, e: Event, timeout: real)
    ensures Run(h + [e], timeout) == Step(Run(h, timeout), e, timeout)
  {
    assert (h + [e])[..|h|] == h;
  }

  // ---- a hung check holds one future per timeout ----

  /** Submitted, timed out, submitted again `gap` later. */
  function HungRun(rounds: nat, timeout: real, gap: real): seq<Event> {
    if rounds == 0 then []
    else HungRun(rounds - 1, timeout, gap)
         + [Dispatch(At(rounds - 1, gap))] + [Collect(At(rounds - 1, gap) + timeout + 1.0)]
  }

  lemma {:induction false} HungRunIsMonotone(k: nat, timeout: real, gap: real)
    requires timeout >= 0.0 && gap >= timeout + 1.0
    ensures Monotone(HungRun(k, timeout, gap)) && NoLaterThan(HungRun(k, timeout, gap), At(k, gap))
  {
    if k > 0 {
      var p, t := HungRun(k - 1, timeout, gap), At(k - 1, gap);
      HungRunIsMonotone(k - 1, timeout, gap);
      hide Monotone, NoLaterThan;
      MonotoneSnoc(p, Dispatch(t), t);
      MonotoneSnoc(p + [Dispatch(t)], Collect(t + timeout + 1.0), t);
      LaterStill(HungRun(k, timeout, gap), t + timeout + 1.0, At(k, gap));
    }
  }

  lemma LaterStill(h: seq<Event>, t: real, u: real)
    requires NoLaterThan(h, t) && t <= u
    ensures NoLaterThan(h, u)
  {
  }

  lemma HungRound(s: Slot, now: real, timeout: real)
    requires timeout >= 0.0 && s.inflight.None? && s.done == map[]
    ensures var t := CollectStep(DispatchStep(s, now), now + timeout + 1.0, timeout);
            t.inflight.None? && t.done == map[] && t.submitted == s.submitted + 1 && t.log == s.log + [TimedOut]
  {
  }

  /**
   * For every k there is a run, on a clock that never goes back, in which one check that never returns has k
   * submitted futures outstanding, none of them tracked.
   */
  lemma {:induction false} HungCheckParksSlots(k: nat, timeout: real, gap: real)
    requires timeout >= 0.0 && gap >= timeout + 1.0
    ensures Monotone(HungRun(k, timeout, gap))
    ensures var s := Run(HungRun(k, timeout, gap), timeout);
            s.inflight.None? && s.done == map[] && s.submitted == k && Unfinished(s, k) == k
  {
    HungRunIsMonotone(k, timeout, gap);
    if k > 0 {
      HungCheckParksSlots(k - 1, timeout, gap);
      var p, t := HungRun(k - 1, timeout, gap), At(k - 1, gap);
      RunSnoc(p, Dispatch(t), timeout);
      RunSnoc(p + [Dispatch(t)], Collect(t + timeout + 1.0), timeout);
      HungRound(Run(p, timeout), t, timeout);
      hide Run, RunFrom, DispatchStep, CollectStep, Monotone;
      UnfinishedIgnoresLog(Run(p, timeout), Run(HungRun(k, timeout, gap), timeout), k - 1);
    } else {
      assert Run([], timeout) == EMPTY;
    }
  }

  lemma {:induction false} UnfinishedIgnoresLog(a: Slot, b: Slot, n: nat)
    requires a.done == b.done
    ensures Unfinished(a, n) == Unfinished(b, n)
  {
    if n > 0 {
      UnfinishedIgnoresLog(a, b, n - 1);
    }
  }

  // ---- which results are dropped, and which are lost ----

  /** A collected result is dropped exactly when the verdict before it was a timeout: it is never the late one. */
  lemma DroppedIffAfterTimeout(h: seq<Event>, timeout: real, k: nat)
    requires k < |Run(h, timeout).log|
    requires Run(h, timeout).log[k].Applied? || Run(h, timeout).log[k].Dropped?
    ensures Run(h, timeout).log[k].Dropped? <==> LastIsTimeout(Run(h, timeout).log[..k])
    ensures k in Run(h, timeout).done
  {
    DropsMatch(h, timeout);
    FatesAreFinal(EMPTY, h, timeout);
  }

  /** Every applied or dropped result was treated by whether the verdict before it was a timeout. */
  ghost predicate DropsExplained(log: seq<Fate>) {
    forall k :: 0 <= k < |log| ==>
      (log[k].Dropped? ==> LastIsTimeout(log[..k])) && (log[k].Applied? ==> !LastIsTimeout(log[..k]))
  }

  lemma DropsOneMore(log: seq<Fate>, fate: Fate)
    requires DropsExplained(log)
    requires (fate.Dropped? ==> LastIsTimeout(log)) && (fate.Applied? ==> !LastIsTimeout(log))
    ensures DropsExplained(log + [fate])
  {
    forall k | 0 <= k <= |log|
      ensures (log + [fate])[..k] == log[..k]
    {
    }
    assert log[..|log|] == log;
  }

  lemma StepAddsOneFate(s: Slot, e: Event, timeout: real)
    requires Consistent(s)
    ensures var t := Step(s, e, timeout);
            t.log == s.log ||
            (|t.log| == |s.log| + 1 && t.log == s.log + [t.log[|s.log|]]
             && (t.log[|s.log|].Dropped? ==> s.timedOut) && (t.log[|s.log|].Applied? ==> !s.timedOut))
  {
  }

  lemma {:induction false} DropsMatch(h: seq<Event>, timeout: real)
    ensures DropsExplained(Run(h, timeout).log)
  {
    if h != [] {
      var p := h[..|h| - 1];
      DropsMatch(p, timeout);
      FatesAreFinal(EMPTY, p, timeout);
      var s, t := Run(p, timeout), Run(h, timeout);
      StepAddsOneFate(s, h[|h| - 1], timeout);
      hide DropsExplained, LastIsTimeout, Step;
      if t.log != s.log {
        DropsOneMore(s.log, t.log[|s.log|]);
      }
    }
  }

  /** A result is lost exactly when the check falls due again between finishing and being collected. */
  lemma LostIffDispatchedOverDone(s: Slot, e: Event, timeout: real)
    requires Consistent(s)
    ensures (|Step(s, e, timeout).log| > |s.log| && Step(s, e, timeout).log[|s.log|].Lost?)
            <==> e.Dispatch? && s.inflight.Some? && s.inflight.value in s.done
  {
  }

  /**
   * Collecting right before dispatching, as the loop does, loses nothing unless the future finishes between the two:
   * a result is only ever lost to that race.
   */
  lemma NothingLostInOneCycle(s: Slot, now: real, later: real, timeout: real)
    requires Consistent(s)
    ensures var collected := CollectStep(s, later, timeout);
            DispatchStep(collected, now).log == collected.log
  {
  }
}
