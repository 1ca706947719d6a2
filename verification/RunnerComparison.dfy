/** The two runners side by side: what each hands to the monitor for the same evaluations of one check. */
module RunnerComparison {
  import opened Wrappers
  import opened Model
  import P = RunnerProtocol
  import Machine
  import H = History

  /** How one evaluation ended, whichever runner ran it. */
  datatype Evaluation = Timely(result: CheckResult) | Overran

  /** The evaluations behind a thread-runner log; a lost result was never seen by the runner. */
  function Evaluations(log: seq<P.Fate>): seq<Evaluation> {
    if log == [] then []
    else
      Evaluations(log[..|log| - 1])
      + match log[|log| - 1]
        case TimedOut => [Overran]
        case Applied(r) => [Timely(r)]
        case Dropped(r) => [Timely(r)]
        case Lost(_) => []
  }

  /** What the thread runner handed to the monitor. */
  function Reported(log: seq<P.Fate>): seq<Evaluation> {
    if log == [] then []
    else
      Reported(log[..|log| - 1])
      + match log[|log| - 1]
        case TimedOut => [Overran]
        case Applied(r) => [Timely(r)]
        case _ => []
  }

  // ---- the asyncio runner: every evaluation is reported ----

  datatype Task = Task(inflight: bool, applied: seq<Evaluation>)

  datatype AsyncEvent = Start | Complete(result: CheckResult) | Expire

  function AsyncStep(t: Task, e: AsyncEvent): Task {
    match e
    case Start => t.(inflight := true)
    case Complete(r) => if t.inflight then Task(false, t.applied + [Timely(r)]) else t
    case Expire => if t.inflight then Task(false, t.applied + [Overran]) else t
  }

  function AsyncRun(h: seq<AsyncEvent>): Task {
    if h == [] then Task(false, []) else AsyncStep(AsyncRun(h[..|h| - 1]), h[|h| - 1])
  }

  /** A check is started only when it is not running, and ends only when it is. */
  ghost predicate Alternates(h: seq<AsyncEvent>) {
    forall i :: 0 <= i < |h| ==> (h[i].Start? <==> !AsyncRun(h[..i]).inflight)
  }

  function Starts(h: seq<AsyncEvent>): nat {
    if h == [] then 0 else Starts(h[..|h| - 1]) + if h[|h| - 1].Start? then 1 else 0
  }

  /** Under asyncio every evaluation started is reported exactly once, or still running. */
  lemma {:induction false} EveryStartIsReported(h: seq<AsyncEvent>)
    requires Alternates(h)
    ensures Starts(h) == |AsyncRun(h).applied| + if AsyncRun(h).inflight then 1 else 0
  {
    if h != [] {
      var p := h[..|h| - 1];
      forall i | 0 <= i < |p| ensures p[..i] == h[..i] && p[i] == h[i] {}
      EveryStartIsReported(p);
    }
  }

  // ---- the comparison ----

  /** All evaluations except the first timely one after each unbroken group of overruns. */
  function WithoutFirstAfterOverrun(es: seq<Evaluation>): seq<Evaluation> {
    if es == [] then []
    else
      var p := es[..|es| - 1];
      WithoutFirstAfterOverrun(p)
      + if es[|es| - 1].Timely? && p != [] && p[|p| - 1].Overran? then [] else [es[|es| - 1]]
  }

  lemma LogSnoc(log: seq<P.Fate>, fate: P.Fate)
    ensures Evaluations(log + [fate]) ==
            Evaluations(log) + (match fate
                                case TimedOut => [Overran]
                                case Applied(r) => [Timely(r)]
                                case Dropped(r) => [Timely(r)]
                                case Lost(_) => [])
    ensures Reported(log + [fate]) ==
            Reported(log) + (match fate case TimedOut => [Overran] case Applied(r) => [Timely(r)] case _ => [])
  {
    assert (log + [fate])[..|log|] == log;
  }

  lemma {:induction false} LastEvaluation(log: seq<P.Fate>)
    ensures P.LastIsTimeout(log) <==> Evaluations(log) != [] && Evaluations(log)[|Evaluations(log)| - 1].Overran?
  {
    if log != [] {
      LastEvaluation(log[..|log| - 1]);
    }
  }

  lemma WithoutSnoc(es: seq<Evaluation>, e: Evaluation)
    ensures WithoutFirstAfterOverrun(es + [e]) ==
            WithoutFirstAfterOverrun(es) + if e.Timely? && es != [] && es[|es| - 1].Overran? then [] else [e]
  {
    assert (es + [e])[..|es|] == es;
  }

  lemma {:induction false} ThreadReports(log: seq<P.Fate>)
    requires P.DropsExplained(log)
    ensures Reported(log) == WithoutFirstAfterOverrun(Evaluations(log))
  {
    if log != [] {
      var p, fate := log[..|log| - 1], log[|log| - 1];
      assert log == p + [fate];
      assert forall k :: 0 <= k < |p| ==> p[k] == log[k] && p[..k] == log[..k];
      ThreadReports(p);
      LastEvaluation(p);
      LogSnoc(p, fate);
      assert (fate.Dropped? ==> P.LastIsTimeout(p)) && (fate.Applied? ==> !P.LastIsTimeout(p)) by {
        assert log[|p|] == fate && log[..|p|] == p;
      }
      hide P.DropsExplained, Reported, P.LastIsTimeout;
      match fate {
        case TimedOut => WithoutSnoc(Evaluations(p), Overran);
        case Applied(r) => WithoutSnoc(Evaluations(p), Timely(r));
        case Dropped(r) => WithoutSnoc(Evaluations(p), Timely(r));
        case Lost(_) => assert Evaluations(log) == Evaluations(p) && Reported(log) == Reported(p);
      }
    }
  }

  /**
   * Whenever a thread run and an asyncio run saw the same evaluations, the thread runner
   * reported what asyncio reported, minus the first timely result after each group of timeouts.
   */
  lemma RunnersCompared(h: seq<P.Event>, timeout: real, g: seq<AsyncEvent>)
    requires Evaluations(P.Run(h, timeout).log) == AsyncRun(g).applied
    ensures Reported(P.Run(h, timeout).log) == WithoutFirstAfterOverrun(AsyncRun(g).applied)
  {
    P.DropsMatch(h, timeout);
    ThreadReports(P.Run(h, timeout).log);
  }

  // ---- the case where the difference never heals ----

  const GOOD := CheckResult("c", OK, 0.0, 0.0, Probed, None, None, None, None, map[])
  const LATE := TimeoutResult("c", 0.0, 0.0, 0.0)

  /** Every other evaluation overruns; the ones between succeed. */
  function Alternating(n: nat): seq<Evaluation> {
    if n == 0 then [] else Alternating(n - 1) + [Overran, Timely(GOOD)]
  }

  function AlternatingRun(n: nat, timeout: real, gap: real): seq<P.Event> {
    if n == 0 then []
    else AlternatingRun(n - 1, timeout, gap) + AlternatingRound(n, P.At(2 * n - 2, gap), P.At(2 * n - 1, gap), timeout)
  }

  /** Dispatched at `start` and timed out; dispatched again at `again`, and back at once. */
  function AlternatingRound(n: nat, start: real, again: real, timeout: real): seq<P.Event>
    requires n > 0
  {
    [P.Dispatch(start), P.Collect(start + timeout + 1.0), P.Dispatch(again), P.Finish(2 * n - 1, GOOD), P.Collect(again)]
  }

  function AlternatingLog(n: nat): seq<P.Fate> {
    if n == 0 then [] else AlternatingLog(n - 1) + [P.TimedOut, P.Dropped(GOOD)]
  }

  /** Dispatch, overrun, dispatch again, succeed in time: the success is dropped. */
  lemma OneRound(s: P.Slot, start: real, again: real, timeout: real)
    requires timeout >= 0.0 && s.inflight.None? && !s.timedOut && forall k :: k in s.done ==> k < s.submitted
    ensures var late := P.CollectStep(P.DispatchStep(s, start), start + timeout + 1.0, timeout);
            var done := P.FinishStep(P.DispatchStep(late, again), s.submitted + 1, GOOD);
            var t := P.CollectStep(done, again, timeout);
            && t.log == s.log + [P.TimedOut, P.Dropped(GOOD)] && t.submitted == s.submitted + 2
            && t.inflight.None? && !t.timedOut && forall k :: k in t.done ==> k < t.submitted
  {
  }

  lemma FiveSteps(h: seq<P.Event>, a: P.Event, b: P.Event, c: P.Event, d: P.Event, e: P.Event, timeout: real)
    ensures P.Run(h + [a, b, c, d, e], timeout) ==
            P.Step(P.Step(P.Step(P.Step(P.Step(P.Run(h, timeout), a, timeout), b, timeout), c, timeout), d, timeout), e, timeout)
  {
    P.RunSnoc(h, a, timeout);
    P.RunSnoc(h + [a], b, timeout);
    P.RunSnoc(h + [a] + [b], c, timeout);
    P.RunSnoc(h + [a] + [b] + [c], d, timeout);
    P.RunSnoc(h + [a] + [b] + [c] + [d], e, timeout);
    assert h + [a] + [b] + [c] + [d] + [e] == h + [a, b, c, d, e];
    hide P.Run, P.Step;
  }

  /** The alternating run is one of a clock that never goes back. */
  lemma {:induction false} AlternatingIsMonotone(n: nat, timeout: real, gap: real)
    requires timeout >= 0.0 && gap >= timeout + 1.0
    ensures P.Monotone(AlternatingRun(n, timeout, gap)) && P.NoLaterThan(AlternatingRun(n, timeout, gap), P.At(2 * n, gap))
  {
    if n > 0 {
      AlternatingIsMonotone(n - 1, timeout, gap);
      var h, start, again := AlternatingRun(n - 1, timeout, gap), P.At(2 * n - 2, gap), P.At(2 * n - 1, gap);
      hide P.Monotone, P.NoLaterThan;
      RoundIsMonotone(n, h, start, again, timeout);
      P.LaterStill(AlternatingRun(n, timeout, gap), again, P.At(2 * n, gap));
    }
  }

  lemma RoundIsMonotone(n: nat, h: seq<P.Event>, start: real, again: real, timeout: real)
    requires n > 0 && P.Monotone(h) && P.NoLaterThan(h, start) && timeout >= 0.0 && start + timeout + 1.0 <= again
    ensures P.Monotone(h + AlternatingRound(n, start, again, timeout))
    ensures P.NoLaterThan(h + AlternatingRound(n, start, again, timeout), again)
  {
    hide P.Monotone, P.NoLaterThan;
    var late := start + timeout + 1.0;
    var h1 := h + [P.Dispatch(start)];
    var h2 := h1 + [P.Collect(late)];
    var h3 := h2 + [P.Dispatch(again)];
    var h4 := h3 + [P.Finish(2 * n - 1, GOOD)];
    P.MonotoneSnoc(h, P.Dispatch(start), start);
    P.MonotoneSnoc(h1, P.Collect(late), start);
    P.MonotoneSnoc(h2, P.Dispatch(again), late);
    P.MonotoneSnoc(h3, P.Finish(2 * n - 1, GOOD), again);
    P.MonotoneSnoc(h4, P.Collect(again), again);
    assert h4 + [P.Collect(again)] == h + AlternatingRound(n, start, again, timeout);
  }

  lemma {:induction false} AlternatingHappens(n: nat, timeout: real, gap: real)
    requires timeout >= 0.0
    ensures var s := P.Run(AlternatingRun(n, timeout, gap), timeout);
            s.log == AlternatingLog(n) && s.inflight.None? && !s.timedOut && s.submitted == 2 * n
            && forall k :: k in s.done ==> k < s.submitted
  {
    hide P.Run, P.DispatchStep, P.CollectStep, P.FinishStep;
    if n == 0 {
      AlternatingStarts(timeout, gap);
    } else {
      AlternatingHappens(n - 1, timeout, gap);
      var h, start, again := AlternatingRun(n - 1, timeout, gap), P.At(2 * n - 2, gap), P.At(2 * n - 1, gap);
      FiveSteps(h, P.Dispatch(start), P.Collect(start + timeout + 1.0), P.Dispatch(again),
                P.Finish(2 * n - 1, GOOD), P.Collect(again), timeout);
      OneRound(P.Run(h, timeout), start, again, timeout);
    }
  }

  lemma AlternatingStarts(timeout: real, gap: real)
    ensures AlternatingRun(0, timeout, gap) == [] && P.Run([], timeout) == P.EMPTY
  {
  }

  lemma OverrunsSnoc(n: nat)
    requires n > 0
    ensures seq(n, i => Overran) == seq(n - 1, i => Overran) + [Overran]
  {
  }

  lemma AlternatingLogParts(n: nat)
    requires n > 0
    ensures AlternatingLog(n) == AlternatingLog(n - 1) + [P.TimedOut] + [P.Dropped(GOOD)]
    ensures Alternating(n) == Alternating(n - 1) + [Overran] + [Timely(GOOD)]
  {
  }

  lemma {:induction false} AlternatingSeen(n: nat)
    ensures Evaluations(AlternatingLog(n)) == Alternating(n)
    ensures Reported(AlternatingLog(n)) == seq(n, i => Overran)
  {
    if n > 0 {
      AlternatingSeen(n - 1);
      var p := AlternatingLog(n - 1);
      AlternatingLogParts(n);
      hide AlternatingLog, Evaluations, Reported;
      LogSnoc(p, P.TimedOut);
      LogSnoc(p + [P.TimedOut], P.Dropped(GOOD));
      OverrunsSnoc(n);
    }
  }

  /** What the monitor applies to the machine for each report. */
  function MachineEvents(es: seq<Evaluation>): seq<H.Event> {
    if es == [] then []
    else MachineEvents(es[..|es| - 1])
         + [H.Evaluated(if es[|es| - 1].Overran? then LATE else es[|es| - 1].result, 0.0, 0.0)]
  }

  /** One more evaluation is one more result for the machine. */
  lemma MachineSnoc(spec: Machine.CheckSpec, es: seq<Evaluation>, e: Evaluation)
    ensures H.Run(spec, MachineEvents(es + [e])) ==
            Machine.AfterResult(spec, H.Run(spec, MachineEvents(es)), if e.Overran? then LATE else e.result, 0.0, 0.0)
  {
    assert (es + [e])[..|es|] == es;
    var h := MachineEvents(es + [e]);
    assert h[..|h| - 1] == MachineEvents(es);
  }

  lemma {:induction false} OnlyTimeoutsFail(spec: Machine.CheckSpec, n: nat)
    requires spec.failureThreshold >= 1
    ensures var st := H.Run(spec, MachineEvents(seq(n, i => Overran)));
            st.consecutiveFail == n && st.lastOkAt.None?
            && st.effective == if n >= spec.failureThreshold then Failing else Unknown
  {
    if n > 0 {
      OnlyTimeoutsFail(spec, n - 1);
      MachineSnoc(spec, seq(n - 1, i => Overran), Overran);
      OverrunsSnoc(n);
      hide MachineEvents, H.Run, Machine.Schedule;
    }
  }

  lemma OneOverrunOneSuccess(spec: Machine.CheckSpec, st: Machine.CheckState)
    requires spec.failureThreshold >= 2 && st.consecutiveFail == 0 && st.effective in {Unknown, OK}
    ensures var between := Machine.AfterResult(spec, st, LATE, 0.0, 0.0);
            var after := Machine.AfterResult(spec, between, GOOD, 0.0, 0.0);
            after.consecutiveFail == 0 && after.effective == OK
  {
  }

  lemma NothingEvaluated(spec: Machine.CheckSpec)
    ensures H.Run(spec, MachineEvents([])) == Machine.INITIAL
  {
  }

  lemma AlternatingSnoc(n: nat)
    ensures Alternating(n) == if n == 0 then [] else Alternating(n - 1) + [Overran] + [Timely(GOOD)]
  {
  }

  lemma {:induction false} AlternationNeverConfirms(spec: Machine.CheckSpec, n: nat)
    requires spec.failureThreshold >= 2
    ensures var st := H.Run(spec, MachineEvents(Alternating(n)));
            st.consecutiveFail == 0 && st.effective == if n == 0 then Unknown else OK
  {
    AlternatingSnoc(n);
    hide MachineEvents, H.Run, Machine.AfterResult, Alternating;
    if n > 0 {
      AlternationNeverConfirms(spec, n - 1);
      var p := Alternating(n - 1);
      MachineSnoc(spec, p, Overran);
      MachineSnoc(spec, p + [Overran], Timely(GOOD));
      OneOverrunOneSuccess(spec, H.Run(spec, MachineEvents(p)));
    } else {
      NothingEvaluated(spec);
    }
  }

  /**
   * A check whose every second evaluation succeeds in time: under asyncio it is OK for ever,
   * under the thread runner it is FAILING for ever, because each success is dropped.
   */
  lemma AlternatingCheckDiverges(spec: Machine.CheckSpec, n: nat, timeout: real, gap: real)
    requires spec.failureThreshold >= 2 && n >= spec.failureThreshold && timeout >= 0.0 && gap >= timeout + 1.0
    ensures P.Monotone(AlternatingRun(n, timeout, gap))
    ensures var log := P.Run(AlternatingRun(n, timeout, gap), timeout).log;
            && Evaluations(log) == Alternating(n)
            && H.Run(spec, MachineEvents(Reported(log))).effective == Failing
            && H.Run(spec, MachineEvents(Reported(log))).lastOkAt.None?
            && H.Run(spec, MachineEvents(Evaluations(log))).effective == OK
  {
    AlternatingIsMonotone(n, timeout, gap);
    AlternatingHappens(n, timeout, gap);
    AlternatingSeen(n);
    OnlyTimeoutsFail(spec, n);
    AlternationNeverConfirms(spec, n);
  }
}
