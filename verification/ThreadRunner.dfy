/** The thread runner's scheduler state; each check follows the per-check protocol. */
module ThreadRunner {
  import opened Wrappers
  import opened Model
  import opened Machine
  import P = RunnerProtocol

  ghost predicate Distinct(s: seq<string>) {
    forall i, j :: 0 <= i < j < |s| ==> s[i] != s[j]
  }

  predicate IsDue(spec: CheckSpec, st: CheckState, now: real) {
    spec.enabled && now >= st.nextDue
  }

  /** Switching a check on makes it due at once, whatever backoff it was in; switched off it is never due. */
  lemma SwitchedOnIsDue(spec: CheckSpec, st: CheckState, now: real, later: real)
    requires later >= now
    ensures IsDue(spec.(enabled := true), AfterSwitch(st, true, now), later)
    ensures !IsDue(spec.(enabled := false), AfterSwitch(st, false, now), later)
  {
  }

  /** A dispatched check is next due one interval later, whatever its evaluation does. */
  function Pushed(spec: CheckSpec, st: CheckState, now: real, dispatched: bool): CheckState {
    if dispatched then st.(nextDue := now + spec.interval) else st
  }

  /** A dispatched check falls due again exactly when a whole interval has passed; any other keeps its due time. */
  lemma PushedDueIff(spec: CheckSpec, st: CheckState, now: real, t: real, dispatched: bool)
    requires spec.enabled
    ensures IsDue(spec, Pushed(spec, st, now, dispatched), t) <==>
            if dispatched then t - now >= spec.interval else t >= st.nextDue
  {
  }

  /** The enabled checks whose due time has come, in registration order. */
  method DueChecks(machine: StateMachine, now: real) returns (due: seq<string>)
    requires machine.Valid()
    ensures forall n :: n in due <==> n in machine.specs && IsDue(machine.specs[n], machine.states[n], now)
    ensures Distinct(due)
  {
    due := [];
    for i := 0 to |machine.order|
      invariant forall n :: n in due <==> n in machine.order[..i] && IsDue(machine.specs[n], machine.states[n], now)
      invariant Distinct(due)
    {
      var name := machine.order[i];
      assert name !in machine.order[..i];
      if machine.specs[name].enabled && now >= machine.states[name].nextDue {
        due := due + [name];
      }
      assert machine.order[..i + 1] == machine.order[..i] + [name];
    }
    assert machine.order[..|machine.order|] == machine.order;
  }

  /**
   * The scheduler. Its name-keyed collections (futures in flight, start times, reported timeouts)
   * and the pool's futures are the columns of one table, a row per registered check.
   */
  class Runner {
    const machine: StateMachine
    var slots: map<string, P.Slot>

    constructor (machine: StateMachine)
      requires machine.Valid()
      ensures this.machine == machine && slots == map[]
    {
      this.machine := machine;
      slots := map[];
    }

    /**
     * Submit every due check that is not still running, and push its due time forward. Holds for any order, and
     * for checks registered since the last cycle, which have no row in the table yet.
     */
    method Dispatch(now: real)
      requires machine.Valid() && slots.Keys <= machine.specs.Keys
      modifies this, machine`states
      ensures machine.Valid() && slots.Keys <= machine.specs.Keys
      ensures forall n :: n in machine.specs ==>
                Served(IsDue(machine.specs[n], old(machine.states)[n], now), machine.specs[n], now,
                       SlotOf(old(slots), n), old(machine.states)[n], SlotOf(slots, n), machine.states[n])
    {
      hide IsDue, Served, SlotOf;
      assert machine.specs.Keys == machine.states.Keys;
      hide StateMachine.Valid;
      var due := DueChecks(machine, now);
      SubmitAll((set n | n in due), now);
    }

    method SubmitAll(due: set<string>, now: real)
      requires machine.Valid() && due <= machine.specs.Keys == machine.states.Keys
      requires slots.Keys <= machine.specs.Keys
      modifies this, machine`states
      ensures machine.Valid() && slots.Keys <= machine.specs.Keys
      ensures AllServed(due, machine.specs, now, old(slots), old(machine.states), slots, machine.states)
    {
      var rest := due;
      ghost var slots0, states0 := slots, machine.states;
      hide Served, AllServed, StateMachine.Valid, Effect, SlotOf;
      NoneServed(machine.specs, now, slots0, states0);
      assert due - rest == {};
      while rest != {}
        invariant rest <= due && machine.Valid() && slots.Keys <= machine.specs.Keys
        invariant AllServed(due - rest, machine.specs, now, slots0, states0, slots, machine.states)
      {
        var name :| name in rest;
        ghost var slots1, states1, served := slots, machine.states, due - rest;
        TakeOne(due, rest, name);
        rest := rest - {name};
        Submit(name, now);
        OneMoreServed(served, name, machine.specs, now, slots0, states0, slots1, states1, slots, machine.states);
      }
      assert due - rest == due;
    }

    method Submit(name: string, now: real)
      requires machine.Valid() && name in machine.specs && slots.Keys <= machine.specs.Keys
      modifies this, machine`states
      ensures machine.Valid() && slots.Keys <= machine.specs.Keys
      ensures Effect(name, machine.specs[name], now, old(slots), old(machine.states), slots, machine.states)
    {
      assert name in machine.states;
      hide StateMachine.Valid, Effect, P.DispatchStep, P.Running, SlotOf;
      ghost var slots0, states0 := slots, machine.states;
      var s := SlotOf(slots, name);
      if P.Running(s) {
        NoEffect(name, machine.specs[name], now, slots0, states0);
      } else {
        Replace(name, s, now);
        ReplaceEffect(name, machine.specs[name], now, slots0, states0, slots, machine.states);
      }
    }

    method Replace(name: string, slot: P.Slot, now: real)
      requires machine.Valid() && name in machine.specs && name in machine.states && slots.Keys <= machine.specs.Keys
      requires !P.Running(slot)
      modifies this, machine`states
      ensures machine.Valid() && slots.Keys <= machine.specs.Keys
      ensures slots == old(slots)[name := P.DispatchStep(slot, now)]
      ensures machine.states ==
              old(machine.states)[name := old(machine.states)[name].(nextDue := now + machine.specs[name].interval)]
    {
      hide StateMachine.Valid, P.DispatchStep, P.Running;
      machine.PushDue(name, now + machine.specs[name].interval);
      var s := Enqueued(slot, now);
      slots := slots[name := s];
    }

    /** A new future takes the place of the last one, whether or not that one was collected. */
    static method Enqueued(slot: P.Slot, now: real) returns (s: P.Slot)
      requires !P.Running(slot)
      ensures s == P.DispatchStep(slot, now)
    {
      s := slot;
      if s.inflight.Some? {
        s := s.(log := s.log + [P.Lost(s.done[s.inflight.value])]);
      }
      s := s.(started := Some(now));
      s := s.(inflight := Some(s.submitted), submitted := s.submitted + 1);
    }

    /** The pool finishes a future; the runner finds out when it next collects. */
    method Finish(name: string, future: nat, result: CheckResult)
      requires name in slots
      modifies this
      ensures slots == old(slots)[name := P.FinishStep(old(slots)[name], future, result)]
    {
      var s := slots[name];
      if future < s.submitted && future !in s.done {
        s := s.(done := s.done[future := result]);
      }
      slots := slots[name := s];
    }

    /** Report what timed out, collect what finished; returns the calls made to the monitor. Holds for any order. */
    method Collect(now: real) returns (applied: seq<(string, P.Fate)>)
      requires slots.Keys <= machine.specs.Keys
      modifies this
      ensures slots.Keys == old(slots.Keys)
      ensures forall n :: n in slots ==>
                slots[n] == P.CollectStep(old(slots)[n], now, machine.specs[n].timeout)
      ensures forall n, f :: (n, f) in applied <==> n in slots && Handed(old(slots)[n], slots[n], f)
    {
      var names := set n | n in slots && slots[n].inflight.Some?;
      applied := [];
      while names != {}
        invariant slots.Keys == old(slots.Keys) && names <= slots.Keys
        invariant forall n :: n in names ==> slots[n].inflight.Some? && slots[n] == old(slots)[n]
        invariant forall n :: n in slots && n !in names ==>
                    slots[n] == P.CollectStep(old(slots)[n], now, machine.specs[n].timeout)
        invariant forall n, f :: (n, f) in applied <==> n in slots && Handed(old(slots)[n], slots[n], f)
      {
        var name :| name in names;
        names := names - {name};
        var outcome := CollectOne(name, now);
        forall f: P.Fate
          ensures Handed(old(slots)[name], slots[name], f) <==> outcome == Some(f) && (f.TimedOut? || f.Applied?)
        {
          HandedIff(old(slots)[name], slots[name], outcome, f);
        }
        hide Handed;
        if outcome.Some? && (outcome.value.TimedOut? || outcome.value.Applied?) {
          applied := applied + [(name, outcome.value)];
        }
      }
    }

    method CollectOne(name: string, now: real) returns (outcome: Option<P.Fate>)
      requires name in slots && slots[name].inflight.Some? && name in machine.specs
      modifies this
      ensures slots == old(slots)[name := P.CollectStep(old(slots)[name], now, machine.specs[name].timeout)]
      ensures slots[name].log == old(slots)[name].log + if outcome.Some? then [outcome.value] else []
    {
      var s := slots[name];
      var future := s.inflight.value;
      if future !in s.done {
        if s.started.None? || now - s.started.value <= machine.specs[name].timeout {
          return None;
        }
        outcome := Some(P.TimedOut);
        s := s.(inflight := None);
        s := s.(timedOut := true);
        s := s.(started := None);
      } else {
        s := s.(inflight := None);
        s := s.(started := None);
        if s.timedOut {
          s := s.(timedOut := false);
          outcome := Some(P.Dropped(s.done[future]));
        } else {
          outcome := Some(P.Applied(s.done[future]));
        }
      }
      s := s.(log := s.log + [outcome.value]);
      slots := slots[name := s];
    }
  }

  /** The effect of one dispatch on a check's slot and on its due time. */
  ghost predicate Served(due: bool, spec: CheckSpec, now: real, slot: P.Slot, st: CheckState, slot': P.Slot, st': CheckState) {
    && slot' == (if due then P.DispatchStep(slot, now) else slot)
    && st' == Pushed(spec, st, now, due && !P.Running(slot))
  }

  /** A check without a row has nothing submitted. */
  function SlotOf(slots: map<string, P.Slot>, n: string): P.Slot {
    if n in slots then slots[n] else P.EMPTY
  }

  /** Exactly the checks in `due` were served. */
  ghost predicate AllServed(due: set<string>, specs: map<string, CheckSpec>, now: real,
                            slots: map<string, P.Slot>, states: map<string, CheckState>,
                            slots': map<string, P.Slot>, states': map<string, CheckState>) {
    && states.Keys == states'.Keys == specs.Keys
    && forall n :: n in specs ==>
         Served(n in due, specs[n], now, SlotOf(slots, n), states[n], SlotOf(slots', n), states'[n])
  }

  /** One check was served; no other slot or due time changed. */
  ghost predicate Effect(name: string, spec: CheckSpec, now: real,
                         slots: map<string, P.Slot>, states: map<string, CheckState>,
                         slots': map<string, P.Slot>, states': map<string, CheckState>) {
    && name in states && states'.Keys == states.Keys
    && (forall n :: n != name ==> SlotOf(slots', n) == SlotOf(slots, n))
    && (forall n :: n in states && n != name ==> states'[n] == states[n])
    && Served(true, spec, now, SlotOf(slots, name), states[name], SlotOf(slots', name), states'[name])
  }

  lemma TakeOne(due: set<string>, rest: set<string>, name: string)
    requires name in rest && rest <= due
    ensures due - rest + {name} == due - (rest - {name}) && name !in due - rest
  {
  }

  lemma NoEffect(name: string, spec: CheckSpec, now: real, slots: map<string, P.Slot>, states: map<string, CheckState>)
    requires name in states && P.Running(SlotOf(slots, name))
    ensures Effect(name, spec, now, slots, states, slots, states)
  {
  }

  lemma ReplaceEffect(name: string, spec: CheckSpec, now: real, slots: map<string, P.Slot>, states: map<string, CheckState>,
                      slots': map<string, P.Slot>, states': map<string, CheckState>)
    requires name in states && !P.Running(SlotOf(slots, name))
    requires slots' == slots[name := P.DispatchStep(SlotOf(slots, name), now)]
    requires states' == states[name := states[name].(nextDue := now + spec.interval)]
    ensures Effect(name, spec, now, slots, states, slots', states')
  {
  }

  lemma NoneServed(specs: map<string, CheckSpec>, now: real, slots: map<string, P.Slot>, states: map<string, CheckState>)
    requires states.Keys == specs.Keys
    ensures AllServed({}, specs, now, slots, states, slots, states)
  {
  }

  lemma OneMoreServed(due: set<string>, name: string, specs: map<string, CheckSpec>, now: real,
                      slots0: map<string, P.Slot>, states0: map<string, CheckState>,
                      slots: map<string, P.Slot>, states: map<string, CheckState>,
                      slots': map<string, P.Slot>, states': map<string, CheckState>)
    requires name in specs && name !in due
    requires AllServed(due, specs, now, slots0, states0, slots, states)
    requires Effect(name, specs[name], now, slots, states, slots', states')
    ensures AllServed(due + {name}, specs, now, slots0, states0, slots', states')
  {
    assert SlotOf(slots, name) == SlotOf(slots0, name) && states[name] == states0[name];
    hide Served, SlotOf;
    forall n | n in specs
      ensures Served(n in due + {name}, specs[n], now, SlotOf(slots0, n), states0[n], SlotOf(slots', n), states'[n])
    {
      if n != name {
        assert Served(n in due, specs[n], now, SlotOf(slots0, n), states0[n], SlotOf(slots, n), states[n]);
      }
    }
  }

  /** The step handed verdict `f` to the monitor. */
  ghost predicate Handed(before: P.Slot, after: P.Slot, f: P.Fate) {
    after.log == before.log + [f] && (f.TimedOut? || f.Applied?)
  }

  lemma HandedIff(before: P.Slot, after: P.Slot, outcome: Option<P.Fate>, f: P.Fate)
    requires after.log == before.log + if outcome.Some? then [outcome.value] else []
    ensures Handed(before, after, f) <==> outcome == Some(f) && (f.TimedOut? || f.Applied?)
  {
    if Handed(before, after, f) {
      assert after.log[|before.log|] == f;
    }
  }
}
