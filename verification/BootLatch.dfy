/** The boot latch over whole runs of a monitor: results, registrations, switches, reads and starts in any order. */
module BootLatch {
  import opened Wrappers
  import opened Model
  import opened Machine
  import opened Aggregate
  import M = Monitor

  datatype State = State(core: M.Core, done: bool, deadline: Option<real>)

  datatype Event =
    | Machine(event: M.Event)
    | Asked(now: real)                 // the aggregate status is read
    | Started(grace: real, now: real)

  function Step(live: bool, s: State, e: Event): State {
    match e
    case Machine(event) => s.(core := M.Step(live, s.core, event))
    case Asked(_) => if s.core.specs.Keys == s.core.states.Keys then s.(done := s.done || Booted(s.core.specs, s.core.states)) else s
    case Started(grace, now) => s.(done := false, deadline := if grace != 0.0 then Some(now + grace) else None)
  }

  function Run(live: bool, h: seq<Event>): State {
    if h == [] then State(M.Run(live, []), false, None) else Step(live, Run(live, h[..|h| - 1]), h[|h| - 1])
  }

  /** What a read at `now` returns: it closes the latch first if it can. */
  function Answer(s: State, now: real): Status
    requires s.core.specs.Keys == s.core.states.Keys
  {
    var done := s.done || Booted(s.core.specs, s.core.states);
    Overall(s.core.specs, s.core.states, now, InGrace(if done then None else s.deadline, now))
  }

  function MachinePart(h: seq<Event>): seq<M.Event> {
    if h == [] then []
    else MachinePart(h[..|h| - 1]) + if h[|h| - 1].Machine? then [h[|h| - 1].event] else []
  }

  /** Reads and starts leave the checks alone. */
  lemma {:induction false} CoreOfRun(live: bool, h: seq<Event>)
    ensures Run(live, h).core == M.Run(live, MachinePart(h))
  {
    if h != [] {
      var p, e := h[..|h| - 1], h[|h| - 1];
      CoreOfRun(live, p);
      if e.Machine? {
        MachineSnoc(live, MachinePart(p), e.event);
      } else {
        assert MachinePart(h) == MachinePart(p);
      }
      hide M.Run, M.Step, Booted;
    }
  }

  lemma MachineSnoc(live: bool, h: seq<M.Event>, e: M.Event)
    ensures M.Run(live, h + [e]) == M.Step(live, M.Run(live, h), e)
  {
    assert (h + [e])[..|h|] == h;
  }

  lemma RunsAreCurrent(live: bool, h: seq<Event>)
    ensures M.Current(live, Run(live, h).core)
  {
    CoreOfRun(live, h);
    M.RunsStayCurrent(live, MachinePart(h));
    hide Run, M.Run, M.Current;
  }

  predicate NoStart(h: seq<Event>) {
    forall i :: 0 <= i < |h| ==> !h[i].Started?
  }

  /** Some read since the last start found every critical check's OK on record. */
  ghost predicate BootSeen(live: bool, h: seq<Event>) {
    exists i :: 0 <= i < |h| && SeenAt(live, h, i)
  }

  predicate BootedAt(live: bool, h: seq<Event>) {
    var c := Run(live, h).core;
    c.specs.Keys == c.states.Keys && Booted(c.specs, c.states)
  }

  /** The read at i found the boot complete, and no start came after it. */
  predicate SeenAt(live: bool, h: seq<Event>, i: nat)
    requires i < |h|
  {
    NoStart(h[i..]) && h[i].Asked? && BootedAt(live, h[..i])
  }

  lemma SeenAtSnoc(live: bool, p: seq<Event>, e: Event, i: nat)
    requires i <= |p|
    ensures SeenAt(live, p + [e], i) <==>
            !e.Started? && if i < |p| then SeenAt(live, p, i) else e.Asked? && BootedAt(live, p)
  {
    hide BootedAt;
    var h := p + [e];
    assert h[i..] == p[i..] + [e] && h[..i] == p[..i];
    assert i == |p| ==> p[i..] == [] && h[..i] == p;
    NoStartSnoc(p[i..], e);
  }

  lemma SeenSnoc(live: bool, p: seq<Event>, e: Event)
    ensures BootSeen(live, p + [e]) <==> !e.Started? && (BootSeen(live, p) || (e.Asked? && BootedAt(live, p)))
  {
    hide BootedAt, SeenAt;
    var h := p + [e];
    forall i: nat | i <= |p|
      ensures SeenAt(live, h, i) <==>
              !e.Started? && if i < |p| then SeenAt(live, p, i) else e.Asked? && BootedAt(live, p)
    {
      SeenAtSnoc(live, p, e, i);
    }
    if BootSeen(live, p) && !e.Started? {
      var i: nat :| i < |p| && SeenAt(live, p, i);
      assert SeenAt(live, h, i);
    }
    if e.Asked? && BootedAt(live, p) {
      assert SeenAt(live, h, |p|);
    }
  }

  lemma NoStartSnoc(h: seq<Event>, e: Event)
    ensures NoStart(h + [e]) <==> NoStart(h) && !e.Started?
  {
    assert (h + [e])[|h|] == e;
    assert forall i :: 0 <= i < |h| ==> (h + [e])[i] == h[i];
  }

  /** Over every run, the latch is closed exactly when some read since the last start found the boot complete. */
  lemma {:induction false} LatchIff(live: bool, h: seq<Event>)
    ensures Run(live, h).done <==> BootSeen(live, h)
  {
    if h != [] {
      var p, e := h[..|h| - 1], h[|h| - 1];
      assert h == p + [e];
      LatchIff(live, p);
      SeenSnoc(live, p, e);
      RunsAreCurrent(live, p);
      hide BootSeen, Booted, M.Step, M.Faults;
    }
  }

  /** A read returns STARTING exactly in grace, before the boot was seen, with a critical check never once OK. */
  lemma AnswerIsStartingIff(live: bool, h: seq<Event>, now: real)
    ensures var s := Run(live, h);
            && s.core.specs.Keys == s.core.states.Keys
            && (Answer(s, now) == Starting <==>
                !BootSeen(live, h) && InGrace(s.deadline, now)
                && exists n :: n in s.core.specs && s.core.specs[n].enabled && s.core.specs[n].critical
                               && s.core.states[n].lastOkAt.None?)
  {
    var s := Run(live, h);
    LatchIff(live, h);
    RunsAreCurrent(live, h);
    StartingIff(s.core.specs, s.core.states, now, s.done, s.deadline);
    hide Run, BootSeen, Overall, Booted;
  }

  lemma {:induction false} SeenStays(live: bool, before: seq<Event>, after: seq<Event>)
    requires BootSeen(live, before) && NoStart(after)
    ensures BootSeen(live, before + after)
    decreases |after|
  {
    hide BootSeen;
    if after == [] {
      assert before + after == before;
    } else {
      var p, e := after[..|after| - 1], after[|after| - 1];
      assert after == p + [e];
      NoStartSnoc(p, e);
      SeenStays(live, before, p);
      SeenSnoc(live, before + p, e);
      assert before + p + [e] == before + after;
    }
  }

  /** Once a read has seen the boot complete, nothing short of a new start makes any later read STARTING. */
  lemma NeverStartingAgain(live: bool, before: seq<Event>, after: seq<Event>, now: real)
    requires BootSeen(live, before) && NoStart(after)
    ensures var s := Run(live, before + after);
            s.core.specs.Keys == s.core.states.Keys && Answer(s, now) != Starting
  {
    hide Run, BootSeen, NoStart, Answer;
    SeenStays(live, before, after);
    AnswerIsStartingIff(live, before + after, now);
  }
}
