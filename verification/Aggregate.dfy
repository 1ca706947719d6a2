/** The worker's verdict: criticality, boot grace and the projection onto readiness. */
module Aggregate {
  import opened Wrappers
  import opened Model
  import opened Machine

  // ---- the verdict, read off the set of checks ----

  predicate ReadsOk(specs: map<string, CheckSpec>, states: map<string, CheckState>, now: real, n: string)
    requires n in specs && n in states
  {
    ReadAt(specs[n], states[n], now) == OK
  }

  /** A critical check with no current measurement blocks the worker as a failing one does. */
  predicate Blocks(specs: map<string, CheckSpec>, states: map<string, CheckState>, now: real, n: string)
    requires n in specs && n in states
  {
    specs[n].enabled && specs[n].critical && ReadAt(specs[n], states[n], now) in {Failing, Unknown}
  }

  predicate Pending(specs: map<string, CheckSpec>, states: map<string, CheckState>, now: real, n: string)
    requires n in specs && n in states
  {
    specs[n].enabled && specs[n].critical && !ReadsOk(specs, states, now, n)
  }

  predicate Impairs(specs: map<string, CheckSpec>, states: map<string, CheckState>, now: real, n: string)
    requires n in specs && n in states
  {
    specs[n].enabled && !ReadsOk(specs, states, now, n)
  }

  /** The aggregate status. It ranges over a map, so registration order cannot matter. */
  function Overall(specs: map<string, CheckSpec>, states: map<string, CheckState>, now: real, grace: bool): Status
    requires specs.Keys == states.Keys
  {
    if grace && exists n :: n in specs && Pending(specs, states, now, n) then Starting
    else if exists n :: n in specs && Blocks(specs, states, now, n) then Failing
    else if exists n :: n in specs && Impairs(specs, states, now, n) then Degraded
    else OK
  }

  predicate InGrace(deadline: Option<real>, now: real) {
    deadline.Some? && now < deadline.value
  }

  /** One check's contribution to the fold. */
  function Contribution(spec: CheckSpec, v: Status): Status {
    if v == Starting then Degraded
    else if v == Failing && !spec.critical then Degraded
    else if v == Unknown then if spec.critical then Failing else Degraded
    else v
  }

  function Worse(a: Status, b: Status): Status {
    if b != Disabled && Severity(b) > Severity(a) then b else a
  }

  /** The worst contribution of the checks listed, met in that order. */
  function Worst(specs: map<string, CheckSpec>, states: map<string, CheckState>, now: real, names: seq<string>): Status
    requires forall n :: n in names ==> n in specs && n in states
  {
    if names == [] then OK
    else
      var n := names[|names| - 1];
      var before := Worst(specs, states, now, names[..|names| - 1]);
      if specs[n].enabled then Worse(before, Contribution(specs[n], ReadAt(specs[n], states[n], now))) else before
  }

  lemma WorseMeaning(specs: map<string, CheckSpec>, states: map<string, CheckState>, now: real, before: Status, n: string)
    requires before in {OK, Degraded, Failing} && n in specs && n in states && Reachable(states[n])
    ensures var v := Contribution(specs[n], ReadAt(specs[n], states[n], now));
            var after := if specs[n].enabled then Worse(before, v) else before;
            && after in {OK, Degraded, Failing}
            && (after == Failing <==> before == Failing || Blocks(specs, states, now, n))
            && (after != OK <==> before != OK || Impairs(specs, states, now, n))
  {
  }

  lemma {:induction false} WorstMeaning(specs: map<string, CheckSpec>, states: map<string, CheckState>, now: real, names: seq<string>)
    requires forall n :: n in names ==> n in specs && n in states && Reachable(states[n])
    ensures var w := Worst(specs, states, now, names);
            && w in {OK, Degraded, Failing}
            && (w == Failing <==> exists n :: n in names && Blocks(specs, states, now, n))
            && (w != OK <==> exists n :: n in names && Impairs(specs, states, now, n))
  {
    hide Worse, Contribution, ReadAt, Blocks, Impairs;
    if names != [] {
      var p, last := names[..|names| - 1], names[|names| - 1];
      assert names == p + [last];
      WorstMeaning(specs, states, now, p);
      WorseMeaning(specs, states, now, Worst(specs, states, now, p), last);
      assert forall n :: n in names <==> n in p || n == last;
    }
  }

  method AggregateChecks(machine: StateMachine, now: real, deadline: Option<real>) returns (s: Status)
    requires machine.Valid()
    ensures s == Overall(machine.specs, machine.states, now, InGrace(deadline, now))
  {
    if deadline.Some? && now < deadline.value {
      var pending := AnyPending(machine, now);
      if pending {
        return Starting;
      }
    }
    var worst := FoldWorst(machine, now);
    WorstMeaning(machine.specs, machine.states, now, machine.order);
    return worst;
  }

  method FoldWorst(machine: StateMachine, now: real) returns (worst: Status)
    requires machine.Valid()
    ensures worst == Worst(machine.specs, machine.states, now, machine.order)
  {
    hide ReadAt;
    worst := OK;
    for i := 0 to |machine.order|
      invariant worst == Worst(machine.specs, machine.states, now, machine.order[..i])
    {
      var name := machine.order[i];
      assert machine.order[..i + 1][..i] == machine.order[..i];
      if machine.specs[name].enabled {
        var v := Contribution(machine.specs[name], machine.Effective(name, now));
        if v != Disabled && Severity(v) > Severity(worst) {
          worst := v;
        }
      }
    }
    assert machine.order[..|machine.order|] == machine.order;
  }

  method AnyPending(machine: StateMachine, now: real) returns (pending: bool)
    requires machine.Valid()
    ensures pending <==> exists n :: n in machine.specs && Pending(machine.specs, machine.states, now, n)
  {
    pending := false;
    for i := 0 to |machine.order|
      invariant pending <==> exists j :: 0 <= j < i && Pending(machine.specs, machine.states, now, machine.order[j])
    {
      var name := machine.order[i];
      if machine.specs[name].enabled && machine.specs[name].critical && machine.Effective(name, now) != OK {
        pending := true;
      }
    }
  }

  /** True once every enabled critical check has been observed OK at least once. */
  method BootComplete(machine: StateMachine) returns (done: bool)
    requires machine.Valid()
    ensures done <==> Booted(machine.specs, machine.states)
  {
    done := true;
    for i := 0 to |machine.order|
      invariant forall j :: 0 <= j < i ==> SeenOk(machine.specs, machine.states, machine.order[j])
    {
      if !SeenOk(machine.specs, machine.states, machine.order[i]) {
        return false;
      }
    }
  }

  predicate SeenOk(specs: map<string, CheckSpec>, states: map<string, CheckState>, n: string)
    requires n in specs && n in states
  {
    specs[n].enabled && specs[n].critical ==> states[n].lastOkAt.Some?
  }

  predicate Booted(specs: map<string, CheckSpec>, states: map<string, CheckState>)
    requires specs.Keys == states.Keys
  {
    forall n :: n in specs ==> SeenOk(specs, states, n)
  }

  function ProjectReadiness(status: Status, liveness: Liveness): Readiness {
    if liveness == Unalive then Unready else ReadinessFromStatus(status)
  }

  // ---- what the verdict means ----

  /** Outside the boot grace, FAILING is exactly a blocked critical check and DEGRADED exactly any other blemish. */
  lemma VerdictMeaning(specs: map<string, CheckSpec>, states: map<string, CheckState>, now: real)
    requires specs.Keys == states.Keys
    ensures Overall(specs, states, now, false) == Failing <==>
            exists n :: n in specs && specs[n].enabled && specs[n].critical
                        && ReadAt(specs[n], states[n], now) in {Failing, Unknown}
    ensures Overall(specs, states, now, false) == OK <==>
            forall n :: n in specs && specs[n].enabled ==> ReadAt(specs[n], states[n], now) == OK
    ensures Overall(specs, states, now, false) in {OK, Degraded, Failing}
  {
    if n :| n in specs && Blocks(specs, states, now, n) {
      assert ReadAt(specs[n], states[n], now) in {Failing, Unknown};
    }
    if n :| n in specs && Impairs(specs, states, now, n) {
      assert ReadAt(specs[n], states[n], now) != OK;
    }
  }

  /** Whatever happens to the checks that are not critical, FAILING neither appears nor goes away. */
  lemma NonCriticalNeverDecides(specs: map<string, CheckSpec>, states: map<string, CheckState>,
                                specs': map<string, CheckSpec>, states': map<string, CheckState>, now: real)
    requires specs.Keys == states.Keys && specs'.Keys == states'.Keys
    requires forall n :: n in specs && specs[n].critical && specs[n].enabled ==>
               n in specs' && specs'[n] == specs[n] && states'[n] == states[n]
    requires forall n :: n in specs' && specs'[n].critical && specs'[n].enabled ==>
               n in specs && specs'[n] == specs[n] && states'[n] == states[n]
    ensures Overall(specs, states, now, false) == Failing <==> Overall(specs', states', now, false) == Failing
  {
    if n :| n in specs && Blocks(specs, states, now, n) {
      assert Blocks(specs', states', now, n);
    }
    if n :| n in specs' && Blocks(specs', states', now, n) {
      assert Blocks(specs, states, now, n);
    }
  }

  /**
   * The boot rule: with every critical check's OK on record the grace is over, so STARTING is reported
   * exactly while the deadline is ahead and some enabled critical check has never been OK.
   */
  lemma StartingIff(specs: map<string, CheckSpec>, states: map<string, CheckState>, now: real,
                    latched: bool, deadline: Option<real>)
    requires specs.Keys == states.Keys && forall n :: n in states ==> Reachable(states[n])
    ensures var done := latched || Booted(specs, states);
            Overall(specs, states, now, InGrace(if done then None else deadline, now)) == Starting
            <==> (!latched && deadline.Some? && now < deadline.value
                  && exists n :: n in specs && specs[n].enabled && specs[n].critical && states[n].lastOkAt.None?)
  {
    if !latched && InGrace(deadline, now) && !Booted(specs, states) {
      var n :| n in specs && !SeenOk(specs, states, n);
      assert states[n].effective != OK;
      assert Pending(specs, states, now, n);
    }
  }

  // ---- readiness, read off the checks ----

  predicate CriticalNotOk(specs: map<string, CheckSpec>, states: map<string, CheckState>, now: real)
    requires specs.Keys == states.Keys
  {
    exists n :: n in specs && specs[n].enabled && specs[n].critical && ReadAt(specs[n], states[n], now) != OK
  }

  predicate CriticalDown(specs: map<string, CheckSpec>, states: map<string, CheckState>, now: real)
    requires specs.Keys == states.Keys
  {
    exists n :: n in specs && specs[n].enabled && specs[n].critical
                && ReadAt(specs[n], states[n], now) in {Failing, Unknown}
  }

  predicate SomeNotOk(specs: map<string, CheckSpec>, states: map<string, CheckState>, now: real)
    requires specs.Keys == states.Keys
  {
    exists n :: n in specs && specs[n].enabled && ReadAt(specs[n], states[n], now) != OK
  }

  /** What each readiness says about the checks. `working`: the worker is alive and not draining. */
  predicate IsReadiness(r: Readiness, specs: map<string, CheckSpec>, states: map<string, CheckState>, now: real,
                        grace: bool, working: bool)
    requires specs.Keys == states.Keys
  {
    match r
    case StartingUp => working && grace && CriticalNotOk(specs, states, now)
    case Unready =>
      !working || (!(grace && CriticalNotOk(specs, states, now)) && CriticalDown(specs, states, now))
    case DegradedReady =>
      && working && !(grace && CriticalNotOk(specs, states, now))
      && !CriticalDown(specs, states, now) && SomeNotOk(specs, states, now)
    case Ready => working && !SomeNotOk(specs, states, now)
  }

  /** At every instant exactly one readiness fits the checks. */
  lemma OneReadinessFits(a: Readiness, b: Readiness, specs: map<string, CheckSpec>, states: map<string, CheckState>,
                         now: real, grace: bool, working: bool)
    requires specs.Keys == states.Keys
    requires IsReadiness(a, specs, states, now, grace, working) && IsReadiness(b, specs, states, now, grace, working)
    ensures a == b
  {
    AllOkOnce(specs, states, now);
    hide CriticalNotOk, CriticalDown, SomeNotOk;
  }

  lemma AllOkOnce(specs: map<string, CheckSpec>, states: map<string, CheckState>, now: real)
    requires specs.Keys == states.Keys
    ensures CriticalDown(specs, states, now) ==> CriticalNotOk(specs, states, now)
    ensures CriticalNotOk(specs, states, now) ==> SomeNotOk(specs, states, now)
  {
    hide ReadAt;
  }

  /** The projected aggregate status is the readiness that fits the checks. */
  lemma ReadinessFits(specs: map<string, CheckSpec>, states: map<string, CheckState>, now: real, grace: bool, liveness: Liveness)
    requires specs.Keys == states.Keys
    ensures IsReadiness(ProjectReadiness(Overall(specs, states, now, grace), liveness), specs, states, now, grace, liveness == Alive)
  {
    AllOkOnce(specs, states, now);
    OverallFits(specs, states, now, grace);
    hide CriticalNotOk, CriticalDown, SomeNotOk, Overall;
  }

  lemma OverallFits(specs: map<string, CheckSpec>, states: map<string, CheckState>, now: real, grace: bool)
    requires specs.Keys == states.Keys
    ensures Overall(specs, states, now, grace) ==
            if grace && CriticalNotOk(specs, states, now) then Starting
            else if CriticalDown(specs, states, now) then Failing
            else if SomeNotOk(specs, states, now) then Degraded
            else OK
  {
    hide ReadAt;
    assert CriticalNotOk(specs, states, now) <==> exists n :: n in specs && Pending(specs, states, now, n);
    assert CriticalDown(specs, states, now) <==> exists n :: n in specs && Blocks(specs, states, now, n);
    assert SomeNotOk(specs, states, now) <==> exists n :: n in specs && Impairs(specs, states, now, n);
  }

  // ---- the reasons behind a verdict ----

  datatype Reason =
    | LoopLag
    | CheckFailing(name: string, critical: bool, category: Option<Category>)
    | CheckDegraded(name: string, category: Option<Category>)
    | NeverEvaluated(name: string, critical: bool)
    | NoCurrentMeasurement(name: string, critical: bool)

  function CategoryOf(st: CheckState): Option<Category> {
    if st.lastResult.None? then None else st.lastResult.value.category
  }

  function ReasonFor(spec: CheckSpec, st: CheckState, now: real): Option<Reason> {
    match ReadAt(spec, st, now)
    case Failing => Some(CheckFailing(spec.name, spec.critical, CategoryOf(st)))
    case Degraded => Some(CheckDegraded(spec.name, CategoryOf(st)))
    case Unknown =>
      if st.lastResult.None? then Some(NeverEvaluated(spec.name, spec.critical))
      else Some(NoCurrentMeasurement(spec.name, spec.critical))
    case _ => None
  }

  /** What each reason says about its check, and that it is the only one given for it. */
  lemma ReasonIff(spec: CheckSpec, st: CheckState, now: real, r: Reason)
    requires spec.enabled
    ensures ReasonFor(spec, st, now) == Some(r) <==>
            About(r, spec.name)
            && (r.CheckFailing? ==> ReadAt(spec, st, now) == Failing && r.critical == spec.critical && r.category == CategoryOf(st))
            && (r.CheckDegraded? ==> ReadAt(spec, st, now) == Degraded && r.category == CategoryOf(st))
            && (r.NeverEvaluated? ==> st.lastResult.None? && r.critical == spec.critical)
            && (r.NoCurrentMeasurement? ==>
                  st.lastResult.Some? && ReadAt(spec, st, now) == Unknown && r.critical == spec.critical)
  {
    hide Ttl;
  }

  /** A reason that by itself takes the worker out of rotation. */
  predicate Decides(r: Reason) {
    (r.CheckFailing? || r.NeverEvaluated? || r.NoCurrentMeasurement?) && r.critical
  }

  predicate GivesDeciding(specs: map<string, CheckSpec>, states: map<string, CheckState>, now: real, n: string)
    requires n in specs && n in states
  {
    specs[n].enabled && ReasonFor(specs[n], states[n], now).Some? && Decides(ReasonFor(specs[n], states[n], now).value)
  }

  /** Outside the boot grace an alive worker is UNREADY exactly when one of its reasons decides it. */
  lemma ReasonsDecideReadiness(specs: map<string, CheckSpec>, states: map<string, CheckState>, now: real)
    requires specs.Keys == states.Keys
    ensures ProjectReadiness(Overall(specs, states, now, false), Alive) == Unready
            <==> exists n :: n in specs && GivesDeciding(specs, states, now, n)
  {
    ReadinessFits(specs, states, now, false, Alive);
    forall n | n in specs
      ensures GivesDeciding(specs, states, now, n)
              <==> specs[n].enabled && specs[n].critical && ReadAt(specs[n], states[n], now) in {Failing, Unknown}
    {
      hide Ttl;
    }
    hide ReadAt, GivesDeciding, Overall, ProjectReadiness;
  }

  /** The reasons of the checks listed, in that order. */
  function ReasonsOf(specs: map<string, CheckSpec>, states: map<string, CheckState>, now: real, names: seq<string>): seq<Reason>
    requires forall n :: n in names ==> n in specs && n in states
  {
    if names == [] then []
    else
      var before, n := ReasonsOf(specs, states, now, names[..|names| - 1]), names[|names| - 1];
      match ReasonFor(specs[n], states[n], now)
      case Some(r) => before + [r]
      case None => before
  }

  predicate Gives(specs: map<string, CheckSpec>, states: map<string, CheckState>, now: real, n: string, r: Reason)
    requires n in specs && n in states
  {
    specs[n].enabled && ReasonFor(specs[n], states[n], now) == Some(r)
  }

  predicate About(r: Reason, name: string) {
    !r.LoopLag? && r.name == name
  }

  lemma ReasonNamesItsCheck(spec: CheckSpec, st: CheckState, now: real)
    ensures ReasonFor(spec, st, now).Some? ==> spec.enabled && About(ReasonFor(spec, st, now).value, spec.name)
  {
    hide Ttl;
  }

  lemma ReasonsSnoc(specs: map<string, CheckSpec>, states: map<string, CheckState>, now: real, p: seq<string>, n: string)
    requires forall m :: m in p + [n] ==> m in specs && m in states
    ensures forall m :: m in p ==> m in specs && m in states
    ensures ReasonsOf(specs, states, now, p + [n]) ==
            match ReasonFor(specs[n], states[n], now)
            case Some(r) => ReasonsOf(specs, states, now, p) + [r]
            case None => ReasonsOf(specs, states, now, p)
  {
    assert n in p + [n];
    assert forall m :: m in p ==> m in p + [n];
    assert (p + [n])[..|p|] == p;
    hide ReasonFor;
  }

  /** Some listed check gives this reason. */
  ghost predicate Given(specs: map<string, CheckSpec>, states: map<string, CheckState>, now: real, names: seq<string>, r: Reason)
    requires forall n :: n in names ==> n in specs && n in states
  {
    exists n :: n in names && Gives(specs, states, now, n, r)
  }

  lemma GivenSnoc(specs: map<string, CheckSpec>, states: map<string, CheckState>, now: real, p: seq<string>, n: string, r: Reason)
    requires (forall m :: m in p + [n] ==> m in specs && m in states) && n in p + [n]
    requires forall m :: m in p ==> m in specs && m in states
    ensures Given(specs, states, now, p + [n], r) <==> Given(specs, states, now, p, r) || Gives(specs, states, now, n, r)
  {
    hide Gives;
    if Given(specs, states, now, p, r) {
      var m :| m in p && Gives(specs, states, now, m, r);
      assert m in p + [n];
    }
  }

  lemma {:induction false} ReasonsAreGiven(specs: map<string, CheckSpec>, states: map<string, CheckState>, now: real,
                                           names: seq<string>, r: Reason)
    requires forall n :: n in names ==> n in specs && n in states && specs[n].name == n
    ensures r in ReasonsOf(specs, states, now, names) <==> Given(specs, states, now, names, r)
  {
    if names != [] {
      var p, n := names[..|names| - 1], names[|names| - 1];
      assert names == p + [n] && n in names;
      hide ReasonFor, ReasonsOf, Given;
      ReasonsSnoc(specs, states, now, p, n);
      ReasonsAreGiven(specs, states, now, p, r);
      ReasonNamesItsCheck(specs[n], states[n], now);
      GivenSnoc(specs, states, now, p, n, r);
    }
  }

  lemma {:induction false} ReasonsDoNotRepeat(specs: map<string, CheckSpec>, states: map<string, CheckState>, now: real,
                                              names: seq<string>)
    requires forall n :: n in names ==> n in specs && n in states && specs[n].name == n
    requires forall i, j :: 0 <= i < j < |names| ==> names[i] != names[j]
    ensures forall r :: r in ReasonsOf(specs, states, now, names) ==> !r.LoopLag? && r.name in names
    ensures NoRepeats(ReasonsOf(specs, states, now, names))
  {
    if names != [] {
      var p, n := names[..|names| - 1], names[|names| - 1];
      assert names == p + [n] && n in names && n !in p;
      hide ReasonFor, ReasonsOf;
      ReasonsSnoc(specs, states, now, p, n);
      ReasonsDoNotRepeat(specs, states, now, p);
      ReasonNamesItsCheck(specs[n], states[n], now);
    }
  }

  predicate NoRepeats(rs: seq<Reason>) {
    forall i, j :: 0 <= i < j < |rs| ==> rs[i] != rs[j]
  }

  /** Loop lag first, then at most one reason per check, in registration order. */
  method Reasons(machine: StateMachine, now: real, liveness: Liveness) returns (out: seq<Reason>)
    requires machine.Valid()
    ensures out == (if liveness == Unalive then [LoopLag] else [])
                   + ReasonsOf(machine.specs, machine.states, now, machine.order)
    ensures NoRepeats(out)
    ensures forall r :: r in out <==>
              (r == LoopLag && liveness == Unalive)
              || exists n :: n in machine.specs && Gives(machine.specs, machine.states, now, n, r)
  {
    hide ReasonFor, NoRepeats, Gives, ReasonsOf, Given;
    var rs := CheckReasons(machine, now);
    out := (if liveness == Unalive then [LoopLag] else []) + rs;
    ReasonsDoNotRepeat(machine.specs, machine.states, now, machine.order);
    LagFirst(liveness == Unalive, rs);
    forall r ensures r in rs <==> exists n :: n in machine.specs && Gives(machine.specs, machine.states, now, n, r) {
      ReasonsAreGiven(machine.specs, machine.states, now, machine.order, r);
      GivenByAny(machine.specs, machine.states, now, machine.order, r);
    }
  }

  lemma GivenByAny(specs: map<string, CheckSpec>, states: map<string, CheckState>, now: real, names: seq<string>, r: Reason)
    requires specs.Keys == states.Keys && forall n :: n in names <==> n in specs
    ensures Given(specs, states, now, names, r) <==> exists n :: n in specs && Gives(specs, states, now, n, r)
  {
    hide Gives;
    if n :| n in specs && Gives(specs, states, now, n, r) {
      assert n in names;
    }
  }

  method CheckReasons(machine: StateMachine, now: real) returns (out: seq<Reason>)
    requires machine.Valid()
    ensures out == ReasonsOf(machine.specs, machine.states, now, machine.order)
  {
    hide ReasonFor;
    out := [];
    for i := 0 to |machine.order|
      invariant out == ReasonsOf(machine.specs, machine.states, now, machine.order[..i])
    {
      var name := machine.order[i];
      assert machine.order[..i + 1][..i] == machine.order[..i];
      ReasonNamesItsCheck(machine.specs[name], machine.states[name], now);
      if machine.specs[name].enabled {
        var reason := ReasonFor(machine.specs[name], machine.states[name], now);
        if reason.Some? {
          out := out + [reason.value];
        }
      }
    }
    assert machine.order[..|machine.order|] == machine.order;
  }

  lemma LagFirst(lag: bool, rs: seq<Reason>)
    requires NoRepeats(rs) && forall r :: r in rs ==> !r.LoopLag?
    ensures NoRepeats((if lag then [LoopLag] else []) + rs)
    ensures forall r :: r in (if lag then [LoopLag] else []) + rs <==> (r == LoopLag && lag) || r in rs
  {
  }

  /** A worker gives no reason exactly when it is plainly ready. */
  lemma NoReasonIffReady(specs: map<string, CheckSpec>, states: map<string, CheckState>, now: real,
                         grace: bool, liveness: Liveness)
    requires specs.Keys == states.Keys && forall n :: n in states ==> Reachable(states[n])
    ensures (liveness == Alive && forall n :: n in specs && specs[n].enabled ==> ReasonFor(specs[n], states[n], now).None?)
            <==> ProjectReadiness(Overall(specs, states, now, grace), liveness) == Ready
  {
    if n :| n in specs && specs[n].enabled && ReasonFor(specs[n], states[n], now).Some? {
      assert Impairs(specs, states, now, n);
    }
    if n :| n in specs && Impairs(specs, states, now, n) {
      assert ReasonFor(specs[n], states[n], now).Some?;
    }
    if n :| n in specs && Pending(specs, states, now, n) {
      assert Impairs(specs, states, now, n);
    }
    if n :| n in specs && Blocks(specs, states, now, n) {
      assert Impairs(specs, states, now, n);
    }
  }
}
