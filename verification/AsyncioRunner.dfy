/** The asyncio runner's scheduler state; each check follows the coroutine protocol of the comparison. */
module AsyncioRunner {
  import opened Wrappers
  import opened Model
  import opened Machine
  import T = ThreadRunner
  import C = RunnerComparison

  /** How an awaited evaluation ends. */
  datatype Outcome = Returned(result: CheckResult) | Raised(category: Category) | TimedOut

  function ReportOf(name: string, now: real, wall: real, timeout: real, outcome: Outcome): CheckResult {
    match outcome
    case Returned(result) => result
    case Raised(category) => ErrorResult(name, now, wall, category, "check raised")
    case TimedOut => TimeoutResult(name, now, wall, timeout)
  }

  /** A check that raised is UNKNOWN with the category of its exception, one that overran FAILING as a timeout. */
  lemma ReportMeaning(name: string, now: real, wall: real, timeout: real, outcome: Outcome)
    ensures var r := ReportOf(name, now, wall, timeout, outcome);
            && (outcome.Returned? ==> r == outcome.result)
            && (outcome.Raised? ==> r.status == Unknown && r.category == Some(outcome.category))
            && (outcome.TimedOut? ==> r.status == Failing && r.category == Some(Timeout))
            && (!outcome.Returned? ==> r.name == name && r.checkedAt == now)
  {
  }

  /** A raised error is a result like any other; only a timeout is not. */
  function EventOf(report: CheckResult, outcome: Outcome): C.AsyncEvent {
    if outcome.TimedOut? then C.Expire else C.Complete(report)
  }

  class Runner {
    const machine: StateMachine
    var inflight: set<string>

    ghost predicate Valid()
      reads this, machine
    {
      machine.Valid() && inflight <= machine.specs.Keys
    }

    constructor (machine: StateMachine)
      requires machine.Valid()
      ensures Valid() && this.machine == machine && inflight == {}
    {
      this.machine := machine;
      inflight := {};
    }

    /** Start every due check that is not running, and push its due time forward. */
    method Dispatch(now: real)
      requires Valid()
      modifies this, machine`states
      ensures Valid()
      ensures AllStarted(DueSet(machine.specs, old(machine.states), now), machine.specs, now,
                         old(inflight), old(machine.states), inflight, machine.states)
    {
      ghost var states0, inflight0 := machine.states, inflight;
      KeysAgree();
      var due := T.DueChecks(machine, now);
      NoneStarted(machine.specs, now, inflight, machine.states);
      NoElements();
      assert due[..0] == [];
      hide T.IsDue, Valid, AllStarted, Elements, Effect;
      for i := 0 to |due|
        invariant Valid()
        invariant AllStarted(Elements(due[..i]), machine.specs, now, inflight0, states0, inflight, machine.states)
      {
        OneMoreElement(due, i);
        ghost var states1, inflight1 := machine.states, inflight;
        Consider(due[i], now);
        StartedOneMore(Elements(due[..i]), due[i], machine.specs, now, inflight0, states0,
                       inflight1, states1, inflight, machine.states);
      }
      assert due[..|due|] == due;
      DueElements(due, machine.specs, states0, now);
    }

    lemma KeysAgree()
      requires Valid()
      ensures machine.specs.Keys == machine.states.Keys
    {
    }

    /** One due check: started unless it is already running. */
    method Consider(name: string, now: real)
      requires Valid() && name in machine.specs
      modifies this, machine`states
      ensures Valid()
      ensures Effect(name, machine.specs[name], now, old(inflight), old(machine.states), inflight, machine.states)
    {
      KeysAgree();
      hide StateMachine.Valid, Effect;
      ghost var inflight0, states0 := inflight, machine.states;
      if name in inflight {
        NoEffect(name, machine.specs[name], now, inflight0, states0);
      } else {
        machine.PushDue(name, now + machine.specs[name].interval);
        inflight := inflight + {name};
        StartEffect(name, machine.specs[name], now, inflight0, states0, inflight, machine.states);
      }
    }

    /** An evaluation ends: the check leaves the in-flight set, and its result goes to the monitor whatever it is. */
    method RunOne(name: string, now: real, wall: real, outcome: Outcome) returns (report: CheckResult)
      requires Valid() && name in inflight
      modifies this
      ensures Valid() && inflight == old(inflight) - {name}
      ensures report == ReportOf(name, now, wall, machine.specs[name].timeout, outcome)
      ensures C.Task(name in inflight, [if outcome.TimedOut? then C.Overran else C.Timely(report)])
              == C.AsyncStep(C.Task(name in old(inflight), []), EventOf(report, outcome))
    {
      match outcome {
        case Returned(result) => report := result;
        case Raised(category) => report := ErrorResult(name, now, wall, category, "check raised");
        case TimedOut => report := TimeoutResult(name, now, wall, machine.specs[name].timeout);
      }
      inflight := inflight - {name};
    }
  }

  function Elements(names: seq<string>): set<string> {
    set n | n in names
  }

  function DueSet(specs: map<string, CheckSpec>, states: map<string, CheckState>, now: real): set<string>
    requires specs.Keys == states.Keys
  {
    set n | n in specs && T.IsDue(specs[n], states[n], now)
  }

  lemma NoElements()
    ensures Elements([]) == {}
  {
  }

  lemma OneMoreElement(names: seq<string>, i: nat)
    requires i < |names| && T.Distinct(names)
    ensures Elements(names[..i + 1]) == Elements(names[..i]) + {names[i]} && names[i] !in Elements(names[..i])
  {
    assert names[..i + 1] == names[..i] + [names[i]];
  }

  lemma DueElements(due: seq<string>, specs: map<string, CheckSpec>, states: map<string, CheckState>, now: real)
    requires specs.Keys == states.Keys
    requires forall n :: n in due <==> n in specs && T.IsDue(specs[n], states[n], now)
    ensures Elements(due) == DueSet(specs, states, now)
  {
  }

  /** Dispatch of one check: a running one is left alone, any other is started and pushed; the rest never change. */
  ghost predicate Effect(name: string, spec: CheckSpec, now: real,
                         running: set<string>, states: map<string, CheckState>,
                         running': set<string>, states': map<string, CheckState>) {
    && name in states && states'.Keys == states.Keys
    && running' == running + {name}
    && (forall n :: n in states && n != name ==> states'[n] == states[n])
    && states'[name] == T.Pushed(spec, states[name], now, name !in running)
  }

  lemma NoEffect(name: string, spec: CheckSpec, now: real, running: set<string>, states: map<string, CheckState>)
    requires name in states && name in running
    ensures Effect(name, spec, now, running, states, running, states)
  {
    assert running + {name} == running;
  }

  lemma StartEffect(name: string, spec: CheckSpec, now: real, running: set<string>, states: map<string, CheckState>,
                    running': set<string>, states': map<string, CheckState>)
    requires name in states && name !in running && running' == running + {name}
    requires states' == states[name := states[name].(nextDue := now + spec.interval)]
    ensures Effect(name, spec, now, running, states, running', states')
  {
  }

  /** Exactly the checks in `due` that were not running were pushed, and all of `due` is running. */
  ghost predicate AllStarted(due: set<string>, specs: map<string, CheckSpec>, now: real,
                             running: set<string>, states: map<string, CheckState>,
                             running': set<string>, states': map<string, CheckState>) {
    && specs.Keys == states.Keys == states'.Keys
    && running' == running + due
    && forall n :: n in specs ==> states'[n] == T.Pushed(specs[n], states[n], now, n in due && n !in running)
  }

  lemma NoneStarted(specs: map<string, CheckSpec>, now: real, running: set<string>, states: map<string, CheckState>)
    requires specs.Keys == states.Keys
    ensures AllStarted({}, specs, now, running, states, running, states)
  {
  }

  lemma StartedOneMore(due: set<string>, name: string, specs: map<string, CheckSpec>, now: real,
                       running0: set<string>, states0: map<string, CheckState>,
                       running: set<string>, states: map<string, CheckState>,
                       running': set<string>, states': map<string, CheckState>)
    requires AllStarted(due, specs, now, running0, states0, running, states)
    requires name in specs && name !in due
    requires Effect(name, specs[name], now, running, states, running', states')
    ensures AllStarted(due + {name}, specs, now, running0, states0, running', states')
  {
    assert states[name] == states0[name];
    hide T.Pushed;
  }
}
