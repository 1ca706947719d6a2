/** What one check's whole history says about it, and that the machine computes exactly that. */
module History {
  import opened Wrappers
  import opened Model
  import opened Machine

  /** Everything that writes a check's state. */
  datatype Event =
    | Evaluated(result: CheckResult, now: real, draw: real)
    | MarkedUnknown(now: real, draw: real)
    | Switched(on: bool, now: real)
    | Dispatched(due: real)

  function Step(spec: CheckSpec, st: CheckState, e: Event): CheckState {
    match e
    case Evaluated(r, now, draw) => AfterResult(spec, st, r, now, draw)
    case MarkedUnknown(now, draw) => AfterMarkUnknown(spec, st, now, draw)
    case Switched(on, now) => AfterSwitch(st, on, now)
    case Dispatched(due) => st.(nextDue := due)
  }

  function RunFrom(spec: CheckSpec, st: CheckState, h: seq<Event>): CheckState {
    if h == [] then st else Step(spec, RunFrom(spec, st, h[..|h| - 1]), h[|h| - 1])
  }

  function Run(spec: CheckSpec, h: seq<Event>): CheckState {
    RunFrom(spec, INITIAL, h)
  }

  lemma {:induction false} RunConcat(spec: CheckSpec, st: CheckState, a: seq<Event>, b: seq<Event>)
    ensures RunFrom(spec, st, a + b) == RunFrom(spec, RunFrom(spec, st, a), b)
    decreases |b|
  {
    if b == [] {
      assert a + b == a;
    } else {
      assert (a + b)[..|a + b| - 1] == a + b[..|b| - 1];
      RunConcat(spec, st, a, b[..|b| - 1]);
    }
  }

  // ---- the declarative reading of a history ----

  predicate Is(e: Event, s: Status) {
    e.Evaluated? && e.result.status == s
  }

  predicate ClearsOks(e: Event) {
    e.MarkedUnknown? || (e.Evaluated? && e.result.status != OK)
  }

  predicate ClearsFails(e: Event) {
    Is(e, OK) || Is(e, Degraded) || (e.Switched? && e.on)
  }

  predicate ClearsBackoff(e: Event) {
    Is(e, OK) || (e.Switched? && e.on)
  }

  /** The position just after the last event satisfying `p`. */
  function AfterLast(h: seq<Event>, p: Event -> bool): (i: nat)
    ensures i <= |h|
    ensures i > 0 ==> p(h[i - 1])
    ensures forall j :: i <= j < |h| ==> !p(h[j])
  {
    if h == [] then 0
    else if p(h[|h| - 1]) then |h|
    else AfterLast(h[..|h| - 1], p)
  }

  function Count(h: seq<Event>, p: Event -> bool): nat {
    if h == [] then 0 else Count(h[..|h| - 1], p) + if p(h[|h| - 1]) then 1 else 0
  }

  /** OK results since the last event that breaks a run of OKs. */
  function TrailingOks(h: seq<Event>): nat {
    Count(h[AfterLast(h, ClearsOks)..], e => Is(e, OK))
  }

  /** FAILING results since the last OK, DEGRADED or re-enable. UNKNOWN does not clear them. */
  function FailsSince(h: seq<Event>): nat {
    Count(h[AfterLast(h, ClearsFails)..], e => Is(e, Failing))
  }

  /** Event i settles the status by itself: no earlier event matters to it except the failure count. */
  predicate Settles(spec: CheckSpec, h: seq<Event>, i: nat)
    requires i < |h|
  {
    match h[i]
    case MarkedUnknown(_, _) => true
    case Evaluated(r, _, _) =>
      r.status != OK && (r.status == Failing ==> FailsSince(h[..i + 1]) >= spec.failureThreshold)
    case _ => false
  }

  function SettledAt(spec: CheckSpec, h: seq<Event>, n: nat): (i: nat)
    requires n <= |h|
    ensures i <= n
    ensures i > 0 ==> Settles(spec, h, i - 1)
    ensures forall j :: i <= j < n ==> !Settles(spec, h, j)
  {
    if n == 0 then 0
    else if Settles(spec, h, n - 1) then n
    else SettledAt(spec, h, n - 1)
  }

  function SettledStatus(spec: CheckSpec, h: seq<Event>): Status {
    var i := SettledAt(spec, h, |h|);
    if i == 0 || !h[i - 1].Evaluated? then Unknown
    else if h[i - 1].result.status in {Failing, Degraded} then h[i - 1].result.status
    else Unknown
  }

  /** Event j is an OK that ends `settled`: recovery from a bad status must be confirmed. */
  predicate Confirms(spec: CheckSpec, settled: Status, h: seq<Event>, j: nat)
    requires j < |h|
  {
    Is(h[j], OK) && (IsBad(settled) ==> TrailingOks(h[..j + 1]) >= spec.successThreshold)
  }

  predicate Recovered(spec: CheckSpec, h: seq<Event>) {
    exists j :: SettledAt(spec, h, |h|) <= j < |h| && Confirms(spec, SettledStatus(spec, h), h, j)
  }

  function DeclaredStatus(spec: CheckSpec, h: seq<Event>): Status {
    if Recovered(spec, h) then OK else SettledStatus(spec, h)
  }

  /** Result i finds the check confirmed failing, so backoff advances: an UNKNOWN result counts too. */
  predicate Advances(spec: CheckSpec, h: seq<Event>, i: nat)
    requires i < |h|
  {
    h[i].Evaluated? && FailsSince(h[..i + 1]) >= spec.failureThreshold
  }

  function AdvancesIn(spec: CheckSpec, h: seq<Event>, from: nat, n: nat): nat
    requires from <= n <= |h|
  {
    if n == from then 0
    else AdvancesIn(spec, h, from, n - 1) + if Advances(spec, h, n - 1) then 1 else 0
  }

  function DeclaredStep(spec: CheckSpec, h: seq<Event>): nat {
    var k := AdvancesIn(spec, h, AfterLast(h, ClearsBackoff), |h|);
    if k <= MAX_BACKOFF_STEP then k else MAX_BACKOFF_STEP
  }

  /** The number of prefixes at which the declared status changed. */
  function StatusChanges(spec: CheckSpec, h: seq<Event>, n: nat): nat
    requires n <= |h|
  {
    if n == 0 then 0
    else StatusChanges(spec, h, n - 1)
         + if DeclaredStatus(spec, h[..n]) != DeclaredStatus(spec, h[..n - 1]) then 1 else 0
  }

  // ---- the counters ----

  lemma CountSnoc(h: seq<Event>, e: Event, p: Event -> bool)
    ensures Count(h + [e], p) == Count(h, p) + if p(e) then 1 else 0
  {
    assert (h + [e])[..|h|] == h;
  }

  lemma TrailingOksSnoc(h: seq<Event>, e: Event)
    ensures TrailingOks(h + [e]) ==
            if ClearsOks(e) then 0 else TrailingOks(h) + if Is(e, OK) then 1 else 0
  {
    var g := h + [e];
    assert g[..|g| - 1] == h;
    if !ClearsOks(e) {
      var i := AfterLast(h, ClearsOks);
      assert g[i..] == h[i..] + [e];
      CountSnoc(h[i..], e, x => Is(x, OK));
    }
  }

  lemma FailsSinceSnoc(h: seq<Event>, e: Event)
    ensures FailsSince(h + [e]) ==
            if ClearsFails(e) then 0 else FailsSince(h) + if Is(e, Failing) then 1 else 0
  {
    var g := h + [e];
    assert g[..|g| - 1] == h;
    if !ClearsFails(e) {
      var i := AfterLast(h, ClearsFails);
      assert g[i..] == h[i..] + [e];
      CountSnoc(h[i..], e, x => Is(x, Failing));
    }
  }

  lemma {:induction false} CountersMatch(spec: CheckSpec, h: seq<Event>)
    ensures Run(spec, h).consecutiveOk == TrailingOks(h)
    ensures Run(spec, h).consecutiveFail == FailsSince(h)
  {
    if h != [] {
      var p, e := h[..|h| - 1], h[|h| - 1];
      assert h == p + [e];
      CountersMatch(spec, p);
      TrailingOksSnoc(p, e);
      FailsSinceSnoc(p, e);
    }
  }

  // ---- the status ----

  lemma {:induction false} SettledAtPrefix(spec: CheckSpec, p: seq<Event>, e: Event, n: nat)
    requires n <= |p|
    ensures SettledAt(spec, p + [e], n) == SettledAt(spec, p, n)
  {
    if n > 0 {
      assert (p + [e])[..n] == p[..n];
      SettledAtPrefix(spec, p, e, n - 1);
    }
  }

  /** A settling event leaves nothing to recover from after it. */
  lemma SettlingStep(spec: CheckSpec, p: seq<Event>, e: Event)
    requires Settles(spec, p + [e], |p|)
    ensures !Recovered(spec, p + [e])
    ensures SettledStatus(spec, p + [e]) ==
            if e.Evaluated? && e.result.status in {Failing, Degraded} then e.result.status else Unknown
  {
    assert SettledAt(spec, p + [e], |p| + 1) == |p| + 1;
  }

  lemma ConfirmsPrefix(spec: CheckSpec, settled: Status, p: seq<Event>, e: Event, j: nat)
    requires j < |p|
    ensures Confirms(spec, settled, p + [e], j) == Confirms(spec, settled, p, j)
  {
    assert (p + [e])[..j + 1] == p[..j + 1];
  }

  lemma SettledSnoc(spec: CheckSpec, p: seq<Event>, e: Event)
    requires !Settles(spec, p + [e], |p|)
    ensures SettledAt(spec, p + [e], |p + [e]|) == SettledAt(spec, p, |p|)
    ensures SettledStatus(spec, p + [e]) == SettledStatus(spec, p)
  {
    SettledAtPrefix(spec, p, e, |p|);
  }

  /** Any other event leaves the settled status, and recovers exactly when it is a confirming OK. */
  lemma QuietStep(spec: CheckSpec, p: seq<Event>, e: Event)
    requires !Settles(spec, p + [e], |p|)
    ensures SettledStatus(spec, p + [e]) == SettledStatus(spec, p)
    ensures Recovered(spec, p + [e]) <==>
            Recovered(spec, p) || Confirms(spec, SettledStatus(spec, p), p + [e], |p|)
  {
    hide SettledAt, SettledStatus, Settles, Confirms;
    var h, settled := p + [e], SettledStatus(spec, p);
    SettledSnoc(spec, p, e);
    forall j: nat | j < |p|
      ensures Confirms(spec, settled, h, j) == Confirms(spec, settled, p, j)
    {
      ConfirmsPrefix(spec, settled, p, e, j);
    }
    if Recovered(spec, p) {
      var j :| SettledAt(spec, p, |p|) <= j < |p| && Confirms(spec, settled, p, j);
      assert Confirms(spec, settled, h, j);
    }
  }

  lemma {:induction false} StatusMatches(spec: CheckSpec, h: seq<Event>)
    ensures Run(spec, h).effective == DeclaredStatus(spec, h)
  {
    if h == [] {
      assert SettledAt(spec, h, 0) == 0;
    } else {
      var p, e := h[..|h| - 1], h[|h| - 1];
      assert h == p + [e];
      StatusMatches(spec, p);
      CountersMatch(spec, p);
      CountersMatch(spec, h);
      assert h[..|p| + 1] == h;
      if Settles(spec, h, |p|) {
        SettlingStep(spec, p, e);
      } else {
        QuietStep(spec, p, e);
      }
    }
  }

  // ---- the backoff step and the transition count ----

  lemma {:induction false} AdvancesInPrefix(spec: CheckSpec, p: seq<Event>, e: Event, from: nat, n: nat)
    requires from <= n <= |p|
    ensures AdvancesIn(spec, p + [e], from, n) == AdvancesIn(spec, p, from, n)
  {
    if n > from {
      assert (p + [e])[..n] == p[..n];
      AdvancesInPrefix(spec, p, e, from, n - 1);
    }
  }

  lemma MachineStep(spec: CheckSpec, st: CheckState, e: Event)
    requires spec.failureThreshold >= 1 && st.backoffStep <= MAX_BACKOFF_STEP
    ensures var after := Step(spec, st, e);
            after.backoffStep ==
            if ClearsBackoff(e) then 0
            else if e.Evaluated? && after.consecutiveFail >= spec.failureThreshold && st.backoffStep < MAX_BACKOFF_STEP
            then st.backoffStep + 1
            else st.backoffStep
  {
    hide Schedule;
  }

  lemma DeclaredStepSnoc(spec: CheckSpec, p: seq<Event>, e: Event)
    ensures DeclaredStep(spec, p + [e]) ==
            if ClearsBackoff(e) then 0
            else if Advances(spec, p + [e], |p|) && DeclaredStep(spec, p) < MAX_BACKOFF_STEP then DeclaredStep(spec, p) + 1
            else DeclaredStep(spec, p)
  {
    var h := p + [e];
    assert h[..|h| - 1] == p;
    var from := AfterLast(p, ClearsBackoff);
    AdvancesInPrefix(spec, p, e, from, |p|);
    if ClearsBackoff(e) {
      assert AfterLast(h, ClearsBackoff) == |h|;
    } else {
      assert AfterLast(h, ClearsBackoff) == from;
    }
  }

  lemma {:induction false} StepMatches(spec: CheckSpec, h: seq<Event>)
    requires spec.failureThreshold >= 1
    ensures Run(spec, h).backoffStep == DeclaredStep(spec, h)
  {
    if h != [] {
      var p, e := h[..|h| - 1], h[|h| - 1];
      assert h == p + [e];
      StepMatches(spec, p);
      CountersMatch(spec, h);
      assert h[..|p| + 1] == h;
      CountersMatch(spec, p);
      DeclaredStepSnoc(spec, p, e);
      MachineStep(spec, Run(spec, p), e);
      assert Run(spec, h) == Step(spec, Run(spec, p), e);
      hide DeclaredStep, FailsSince, TrailingOks, RunFrom, Step;
    }
  }

  lemma {:induction false} StatusChangesPrefix(spec: CheckSpec, p: seq<Event>, e: Event, n: nat)
    requires n <= |p|
    ensures StatusChanges(spec, p + [e], n) == StatusChanges(spec, p, n)
  {
    if n > 0 {
      assert (p + [e])[..n] == p[..n] && (p + [e])[..n - 1] == p[..n - 1];
      StatusChangesPrefix(spec, p, e, n - 1);
    }
  }

  lemma MachineCountsMoves(spec: CheckSpec, st: CheckState, e: Event)
    ensures var after := Step(spec, st, e);
            after.transitions == st.transitions + if after.effective != st.effective then 1 else 0
  {
    hide Schedule;
  }

  lemma {:induction false} TransitionsMatch(spec: CheckSpec, h: seq<Event>)
    ensures Run(spec, h).transitions == StatusChanges(spec, h, |h|)
  {
    if h != [] {
      var p, e := h[..|h| - 1], h[|h| - 1];
      assert h == p + [e] && h[..|h|] == h;
      TransitionsMatch(spec, p);
      StatusMatches(spec, p);
      StatusMatches(spec, h);
      StatusChangesPrefix(spec, p, e, |p|);
      MachineCountsMoves(spec, Run(spec, p), e);
      assert Run(spec, h) == Step(spec, Run(spec, p), e);
      assert h[..|p|] == p;
      hide RunFrom, Step, DeclaredStatus;
    }
  }

  /**
   * The machine keeps no more than its history determines: every counter and the
   * effective status equal a declarative function of the events alone.
   */
  lemma HistoryRefinement(spec: CheckSpec, h: seq<Event>)
    requires spec.failureThreshold >= 1
    ensures Run(spec, h).consecutiveOk == TrailingOks(h)
    ensures Run(spec, h).consecutiveFail == FailsSince(h)
    ensures Run(spec, h).effective == DeclaredStatus(spec, h)
    ensures Run(spec, h).backoffStep == DeclaredStep(spec, h)
    ensures Run(spec, h).transitions == StatusChanges(spec, h, |h|)
  {
    CountersMatch(spec, h);
    StatusMatches(spec, h);
    StepMatches(spec, h);
    TransitionsMatch(spec, h);
  }

  // ---- hysteresis ----

  /** The last n results of the history are all OK, with nothing that breaks the run between them. */
  predicate EndsInOks(h: seq<Event>, n: nat)
    decreases |h|
  {
    n == 0 || (h != [] && !ClearsOks(h[|h| - 1])
               && EndsInOks(h[..|h| - 1], if Is(h[|h| - 1], OK) then n - 1 else n))
  }

  lemma {:induction false} TrailingOksAreConsecutive(h: seq<Event>, n: nat)
    ensures EndsInOks(h, n) <==> TrailingOks(h) >= n
    decreases |h|
  {
    if h != [] {
      var p, e := h[..|h| - 1], h[|h| - 1];
      assert h == p + [e];
      TrailingOksSnoc(p, e);
      if n > 0 {
        TrailingOksAreConsecutive(p, if Is(e, OK) then n - 1 else n);
      }
    }
  }

  /** Leaving FAILING or DEGRADED for OK takes exactly `successThreshold` consecutive OK results. */
  lemma DirectRecovery(spec: CheckSpec, h: seq<Event>, e: Event)
    requires IsBad(Run(spec, h).effective)
    ensures Run(spec, h + [e]).effective == OK <==>
            Is(e, OK) && (spec.successThreshold <= 1 || EndsInOks(h + [e], spec.successThreshold))
  {
    var g := h + [e];
    assert g[..|g| - 1] == h;
    CountersMatch(spec, g);
    CountersMatch(spec, h);
    if spec.successThreshold >= 0 {
      TrailingOksAreConsecutive(g, spec.successThreshold);
    }
  }

  /** An UNKNOWN verdict in between switches the confirmation off: one OK then suffices. */
  lemma UnknownSkipsConfirmation(spec: CheckSpec, h: seq<Event>, gap: Event, e: Event)
    requires gap.MarkedUnknown? || (gap.Evaluated? && gap.result.status !in {OK, Failing, Degraded})
    requires Is(e, OK)
    ensures Run(spec, h + [gap]).effective == Unknown
    ensures Run(spec, h + [gap, e]).effective == OK
    ensures Run(spec, h + [gap]).consecutiveFail == Run(spec, h).consecutiveFail
  {
    var g := h + [gap];
    assert g[..|g| - 1] == h;
    assert (h + [gap, e])[..|g|] == g;
  }

  // ---- what every run keeps ----

  lemma {:induction false} RunsStayReachable(spec: CheckSpec, st: CheckState, h: seq<Event>)
    requires Reachable(st)
    ensures Reachable(RunFrom(spec, st, h))
    ensures st.lastOkAt.Some? ==> RunFrom(spec, st, h).lastOkAt.Some?
  {
    if h != [] {
      RunsStayReachable(spec, st, h[..|h| - 1]);
    }
  }

  // ---- the stamps ----

  predicate HasResult(e: Event) {
    e.Evaluated?
  }

  predicate IsOkResult(e: Event) {
    Is(e, OK)
  }

  lemma ResultStep(spec: CheckSpec, st: CheckState, e: Event)
    ensures var after := Step(spec, st, e);
            && after.lastResult == (if e.Evaluated? then Some(e.result) else st.lastResult)
            && after.lastOkAt == if Is(e, OK) then Some(e.result.checkedAt) else st.lastOkAt
  {
    hide Schedule, EffectiveAfter, FailsAfter, OksAfter, StepAfter;
  }

  /** The stored result is the last one applied, and the last-OK stamp is the time of the last OK result. */
  lemma {:induction false} StampsMatch(spec: CheckSpec, h: seq<Event>)
    ensures var st, last, ok := Run(spec, h), AfterLast(h, HasResult), AfterLast(h, IsOkResult);
            && st.lastResult == (if last == 0 then None else Some(h[last - 1].result))
            && st.lastOkAt == if ok == 0 then None else Some(h[ok - 1].result.checkedAt)
  {
    if h != [] {
      var p, e := h[..|h| - 1], h[|h| - 1];
      assert h == p + [e];
      StampsMatch(spec, p);
      ResultStep(spec, RunFrom(spec, INITIAL, p), e);
      hide Step;
    }
  }

  /** The event before position n at which the status last changed: the position just after it, 0 if it never did. */
  function ChangedAt(spec: CheckSpec, h: seq<Event>, n: nat): (i: nat)
    requires n <= |h|
    ensures i <= n
  {
    if n == 0 then 0
    else if DeclaredStatus(spec, h[..n]) != DeclaredStatus(spec, h[..n - 1]) then n
    else ChangedAt(spec, h, n - 1)
  }

  /** When an event says it happened. */
  function StampOf(e: Event): real {
    match e
    case Evaluated(r, _, _) => r.checkedAt
    case MarkedUnknown(now, _) => now
    case Switched(_, now) => now
    case Dispatched(due) => due
  }

  lemma EnteredStep(spec: CheckSpec, st: CheckState, e: Event)
    ensures var after := Step(spec, st, e);
            after.enteredAt == if after.effective == st.effective then st.enteredAt else StampOf(e)
  {
    hide Schedule, EffectiveAfter, FailsAfter, OksAfter, StepAfter;
  }

  /** At every point of a history the status is dated by the last event that changed it. */
  lemma {:induction false} EnteredAtLastChange(spec: CheckSpec, h: seq<Event>, n: nat)
    requires n <= |h|
    ensures var i := ChangedAt(spec, h, n);
            Run(spec, h[..n]).enteredAt == if i == 0 then 0.0 else StampOf(h[i - 1])
  {
    hide DeclaredStatus, Step;
    if n > 0 {
      EnteredAtLastChange(spec, h, n - 1);
      assert h[..n][..n - 1] == h[..n - 1];
      EnteredStep(spec, Run(spec, h[..n - 1]), h[n - 1]);
      StatusMatches(spec, h[..n]);
      StatusMatches(spec, h[..n - 1]);
    }
  }
}
