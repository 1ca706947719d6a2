/** How often a check can change status: successive transitions consume disjoint blocks of results. */
module Flapping {
  import opened Wrappers
  import opened Model
  import opened Machine
  import opened History

  /** OK and FAILING results only; dispatches and switching off do not matter. */
  predicate TwoValued(h: seq<Event>) {
    forall i :: 0 <= i < |h| ==>
      match h[i]
      case Evaluated(r, _, _) => r.status in {OK, Failing}
      case Dispatched(_) => true
      case Switched(on, _) => !on
      case MarkedUnknown(_, _) => false
  }

  function Results(h: seq<Event>): nat {
    Count(h, (e: Event) => e.Evaluated?)
  }

  /** A multiple `k` of the block length, kept abstract so products stay linear. */
  function Blocks(k: nat, width: nat): nat {
    if k == 0 then 0 else width + Blocks(k - 1, width)
  }

  lemma BlocksIsProduct(k: nat, width: nat)
    ensures Blocks(k, width) == k * width
  {
  }

  /** Progress inside the current block comes on top of the completed ones. */
  predicate Paid(spec: CheckSpec, st: CheckState, n: nat)
    requires spec.failureThreshold >= 1 && spec.successThreshold >= 1
  {
    var f, s := spec.failureThreshold, spec.successThreshold;
    match st.effective
    case Unknown => st.transitions == 0 && st.consecutiveFail < f && st.consecutiveFail <= n
    case OK => st.transitions >= 1 && st.consecutiveFail < f
               && n >= Blocks(st.transitions / 2, f + s) + st.consecutiveFail + st.transitions % 2
    case Failing => st.transitions >= 1 && st.consecutiveOk < s
                    && n >= f + st.consecutiveOk + Blocks((st.transitions - 1) / 2, f + s) + 1 - st.transitions % 2
    case _ => false
  }

  lemma OkPays(spec: CheckSpec, st: CheckState, n: nat, r: CheckResult, now: real, draw: real)
    requires spec.failureThreshold >= 1 && spec.successThreshold >= 1
    requires Paid(spec, st, n) && r.status == OK
    ensures Paid(spec, AfterResult(spec, st, r, now, draw), n + 1)
  {
    hide Schedule;
    if st.effective == Failing {
      assert (st.transitions + 1) / 2 == (st.transitions - 1) / 2 + 1;
    }
  }

  lemma FailurePays(spec: CheckSpec, st: CheckState, n: nat, r: CheckResult, now: real, draw: real)
    requires spec.failureThreshold >= 1 && spec.successThreshold >= 1
    requires Paid(spec, st, n) && r.status == Failing
    ensures Paid(spec, AfterResult(spec, st, r, now, draw), n + 1)
  {
    hide Schedule;
  }

  lemma {:induction false} FlapInvariant(spec: CheckSpec, h: seq<Event>)
    requires spec.failureThreshold >= 1 && spec.successThreshold >= 1
    requires TwoValued(h)
    ensures Paid(spec, Run(spec, h), Results(h))
  {
    if h != [] {
      var p, e := h[..|h| - 1], h[|h| - 1];
      FlapInvariant(spec, p);
      if e.Evaluated? {
        if e.result.status == OK {
          OkPays(spec, Run(spec, p), Results(p), e.result, e.now, e.draw);
        } else {
          FailurePays(spec, Run(spec, p), Results(p), e.result, e.now, e.draw);
        }
        hide AfterResult, Paid;
      }
    }
  }

  /**
   * The fewest results that can make t transitions: one that leaves UNKNOWN, both thresholds for every
   * further pair, and one failure threshold more when t is even.
   */
  function Least(spec: CheckSpec, t: nat): nat
    requires spec.failureThreshold >= 1 && spec.successThreshold >= 1
  {
    if t == 0 then 0
    else Blocks((t - 1) / 2, spec.failureThreshold + spec.successThreshold) + 1
         + if t % 2 == 0 then spec.failureThreshold else 0
  }

  /** No run makes its transitions with fewer results. */
  lemma FlapBound(spec: CheckSpec, h: seq<Event>)
    requires spec.failureThreshold >= 1 && spec.successThreshold >= 1
    requires TwoValued(h)
    ensures Least(spec, Run(spec, h).transitions) <= Results(h)
    ensures var t, width := Run(spec, h).transitions, spec.failureThreshold + spec.successThreshold;
            t >= 1 ==> (t - 1) / 2 * width + 1 <= Results(h)
  {
    FlapInvariant(spec, h);
    var t, width := Run(spec, h).transitions, spec.failureThreshold + spec.successThreshold;
    if t >= 1 {
      BlocksIsProduct((t - 1) / 2, width);
      if t % 2 == 0 {
        assert t / 2 == (t - 1) / 2 + 1;
      }
    }
  }

  // ---- the bound is attained ----

  function Sample(status: Status): Event {
    Evaluated(CheckResult("c", status, 0.0, 0.0, NoEvidence, None, None, None, None, map[]), 0.0, 0.0)
  }

  function Repeat(status: Status, n: nat): seq<Event> {
    if n == 0 then [] else Repeat(status, n - 1) + [Sample(status)]
  }

  /** From OK, `n` failures in a row flip the status exactly when the threshold is reached. */
  lemma {:induction false} FailBlock(spec: CheckSpec, st: CheckState, n: nat)
    requires spec.failureThreshold >= 1 && st.effective == OK && st.consecutiveFail == 0
    requires n <= spec.failureThreshold
    ensures var end := RunFrom(spec, st, Repeat(Failing, n));
            && end.consecutiveFail == n
            && (n > 0 ==> end.consecutiveOk == 0)
            && end.effective == (if n == spec.failureThreshold then Failing else OK)
            && end.transitions == st.transitions + if n == spec.failureThreshold then 1 else 0
  {
    if n > 0 {
      FailBlock(spec, st, n - 1);
      assert Repeat(Failing, n)[..n - 1] == Repeat(Failing, n - 1) by { RepeatLength(Failing, n - 1); }
      RepeatLength(Failing, n);
    }
  }

  lemma {:induction false} OkBlock(spec: CheckSpec, st: CheckState, n: nat)
    requires spec.successThreshold >= 1 && spec.failureThreshold >= 1
    requires st.effective == Failing && st.consecutiveOk == 0
    requires n <= spec.successThreshold
    ensures var end := RunFrom(spec, st, Repeat(OK, n));
            && end.consecutiveOk == n
            && (n > 0 ==> end.consecutiveFail == 0)
            && end.effective == (if n == spec.successThreshold then OK else Failing)
            && end.transitions == st.transitions + if n == spec.successThreshold then 1 else 0
  {
    if n > 0 {
      OkBlock(spec, st, n - 1);
      assert Repeat(OK, n)[..n - 1] == Repeat(OK, n - 1) by { RepeatLength(OK, n - 1); }
      RepeatLength(OK, n);
    }
  }

  lemma RepeatLength(status: Status, n: nat)
    ensures |Repeat(status, n)| == n
  {
  }

  function Cycle(spec: CheckSpec): seq<Event>
    requires spec.failureThreshold >= 1 && spec.successThreshold >= 1
  {
    Repeat(Failing, spec.failureThreshold) + Repeat(OK, spec.successThreshold)
  }

  /** One cycle costs both thresholds and brings the check back to OK, two transitions later. */
  lemma CycleFlaps(spec: CheckSpec, st: CheckState)
    requires spec.failureThreshold >= 1 && spec.successThreshold >= 1
    requires st.effective == OK && st.consecutiveFail == 0
    ensures var end := RunFrom(spec, st, Cycle(spec));
            end.effective == OK && end.consecutiveFail == 0 && end.transitions == st.transitions + 2
  {
    RepeatLength(Failing, spec.failureThreshold);
    RepeatLength(OK, spec.successThreshold);
    FailBlock(spec, st, spec.failureThreshold);
    OkBlock(spec, RunFrom(spec, st, Repeat(Failing, spec.failureThreshold)), spec.successThreshold);
    RunConcat(spec, st, Repeat(Failing, spec.failureThreshold), Repeat(OK, spec.successThreshold));
  }

  function Flaps(spec: CheckSpec, k: nat): seq<Event>
    requires spec.failureThreshold >= 1 && spec.successThreshold >= 1
  {
    if k == 0 then [Sample(OK)] else Flaps(spec, k - 1) + Cycle(spec)
  }

  lemma {:induction false} FlapsTransitions(spec: CheckSpec, k: nat)
    requires spec.failureThreshold >= 1 && spec.successThreshold >= 1
    ensures var end := Run(spec, Flaps(spec, k));
            end.transitions == 2 * k + 1 && end.effective == OK && end.consecutiveFail == 0
  {
    if k == 0 {
      assert Flaps(spec, 0)[..0] == [] && RunFrom(spec, INITIAL, []) == INITIAL;
    } else {
      FlapsTransitions(spec, k - 1);
      CycleFlaps(spec, Run(spec, Flaps(spec, k - 1)));
      RunConcat(spec, INITIAL, Flaps(spec, k - 1), Cycle(spec));
    }
  }

  /** A run with exactly t transitions: full cycles, and one more failure block when t is even. */
  function Fastest(spec: CheckSpec, t: nat): seq<Event>
    requires spec.failureThreshold >= 1 && spec.successThreshold >= 1
  {
    if t == 0 then []
    else Flaps(spec, (t - 1) / 2) + if t % 2 == 0 then Repeat(Failing, spec.failureThreshold) else []
  }

  lemma {:induction false} AllSamples(status: Status, n: nat)
    requires status in {OK, Failing}
    ensures TwoValued(Repeat(status, n)) && Results(Repeat(status, n)) == n
  {
    RepeatLength(status, n);
    if n > 0 {
      AllSamples(status, n - 1);
      assert Repeat(status, n)[..n - 1] == Repeat(status, n - 1) by { RepeatLength(status, n - 1); }
    }
  }

  lemma {:induction false} ResultsOfBoth(a: seq<Event>, b: seq<Event>)
    requires TwoValued(a) && TwoValued(b)
    ensures TwoValued(a + b) && Results(a + b) == Results(a) + Results(b)
    decreases |b|
  {
    if b == [] {
      assert a + b == a;
    } else {
      var p := b[..|b| - 1];
      assert (a + b)[..|a + b| - 1] == a + p;
      ResultsOfBoth(a, p);
    }
  }

  lemma {:induction false} FlapsResults(spec: CheckSpec, k: nat)
    requires spec.failureThreshold >= 1 && spec.successThreshold >= 1
    ensures TwoValued(Flaps(spec, k))
    ensures Results(Flaps(spec, k)) == 1 + Blocks(k, spec.failureThreshold + spec.successThreshold)
  {
    if k == 0 {
      assert Flaps(spec, 0) == Repeat(OK, 0) + [Sample(OK)] == Repeat(OK, 1);
      AllSamples(OK, 1);
    } else {
      FlapsResults(spec, k - 1);
      AllSamples(Failing, spec.failureThreshold);
      AllSamples(OK, spec.successThreshold);
      ResultsOfBoth(Repeat(Failing, spec.failureThreshold), Repeat(OK, spec.successThreshold));
      ResultsOfBoth(Flaps(spec, k - 1), Cycle(spec));
    }
  }

  lemma OneMoreFailureBlock(spec: CheckSpec, k: nat)
    requires spec.failureThreshold >= 1 && spec.successThreshold >= 1
    ensures var h := Flaps(spec, k) + Repeat(Failing, spec.failureThreshold);
            && TwoValued(h)
            && Results(h) == Blocks(k, spec.failureThreshold + spec.successThreshold) + 1 + spec.failureThreshold
            && Run(spec, h).transitions == 2 * k + 2
  {
    var f := spec.failureThreshold;
    FlapsResults(spec, k);
    AllSamples(Failing, f);
    ResultsOfBoth(Flaps(spec, k), Repeat(Failing, f));
    FlapsTransitions(spec, k);
    RunConcat(spec, INITIAL, Flaps(spec, k), Repeat(Failing, f));
    hide TwoValued, Results, Flaps, RunFrom, Repeat, Blocks;
    FailBlock(spec, Run(spec, Flaps(spec, k)), f);
  }

  /** For every t there is a run of OK and FAILING results that makes t transitions with the fewest results. */
  lemma FlapBoundIsTight(spec: CheckSpec, t: nat)
    requires spec.failureThreshold >= 1 && spec.successThreshold >= 1
    ensures TwoValued(Fastest(spec, t)) && Results(Fastest(spec, t)) == Least(spec, t)
    ensures Run(spec, Fastest(spec, t)).transitions == t
  {
    var k := if t == 0 then 0 else (t - 1) / 2;
    NothingFlaps(spec);
    hide TwoValued, Results, Flaps, RunFrom, Repeat, Blocks;
    if t > 0 && t % 2 == 0 {
      OneMoreFailureBlock(spec, k);
    } else if t > 0 {
      FlapsResults(spec, k);
      FlapsTransitions(spec, k);
      assert Flaps(spec, k) + [] == Flaps(spec, k);
    }
  }

  lemma NothingFlaps(spec: CheckSpec)
    ensures TwoValued([]) && Results([]) == 0 && Run(spec, []).transitions == 0
  {
  }
}
