/** Evidence: real traffic first, a probe only when the worker has been silent, and probes never count as traffic. */
module TrafficEvidence {
  import opened Wrappers
  import opened Model

  datatype TrafficRecord = TrafficRecord(
    successes: nat,
    failures: nat,
    lastSuccessAt: Option<real>,
    lastFailureAt: Option<real>,
    lastCategory: Option<Category>,
    lastLatencyMs: Option<real>,
    consecutiveFailures: nat)

  const BLANK := TrafficRecord(0, 0, None, None, None, None, 0)

  datatype Outcome = Succeeded(latencyMs: Option<real>) | Failed(category: Category)

  function Noted(r: TrafficRecord, o: Outcome, at: real): TrafficRecord {
    match o
    case Succeeded(latency) =>
      r.(successes := r.successes + 1, consecutiveFailures := 0, lastSuccessAt := Some(at),
         lastLatencyMs := latency, lastCategory := None)
    case Failed(category) =>
      r.(failures := r.failures + 1, consecutiveFailures := r.consecutiveFailures + 1,
         lastFailureAt := Some(at), lastCategory := Some(category))
  }

  function Logged(log: map<string, TrafficRecord>, dep: string, o: Outcome, at: real): map<string, TrafficRecord> {
    log[dep := Noted(if dep in log then log[dep] else BLANK, o, at)]
  }

  /** The probe flag of one thread or task: its value, and the values the open scopes will restore. */
  class ProbeContext {
    var active: bool
    var saved: seq<bool>

    constructor ()
      ensures !active && saved == []
    {
      active, saved := false, [];
    }

    method Enter()
      modifies this
      ensures active && saved == old(saved) + [old(active)]
    {
      saved := saved + [active];
      active := true;
    }

    method Leave()
      requires saved != []
      modifies this
      ensures active == old(saved)[|old(saved)| - 1] && saved == old(saved)[..|old(saved)| - 1]
    {
      active := saved[|saved| - 1];
      saved := saved[..|saved| - 1];
    }
  }

  class TrafficLog {
    var records: map<string, TrafficRecord>

    constructor ()
      ensures records == map[]
    {
      records := map[];
    }

    method Success(dep: string, latencyMs: Option<real>, now: real)
      modifies this
      ensures records == Logged(old(records), dep, Succeeded(latencyMs), now)
    {
      var r := if dep in records then records[dep] else BLANK;
      r := r.(successes := r.successes + 1);
      r := r.(consecutiveFailures := 0);
      r := r.(lastSuccessAt := Some(now), lastLatencyMs := latencyMs);
      r := r.(lastCategory := None);
      records := records[dep := r];
    }

    method Failure(dep: string, category: Category, now: real)
      modifies this
      ensures records == Logged(old(records), dep, Failed(category), now)
    {
      var r := if dep in records then records[dep] else BLANK;
      r := r.(failures := r.failures + 1);
      r := r.(consecutiveFailures := r.consecutiveFailures + 1);
      r := r.(lastFailureAt := Some(now), lastCategory := Some(category));
      records := records[dep := r];
    }
  }

  /** The single funnel of every instrumentation hook: silent while a probe is running. */
  class TrafficRecorder {
    const dependency: string
    const traffic: TrafficLog
    const context: ProbeContext

    constructor (dependency: string, traffic: TrafficLog, context: ProbeContext)
      ensures this.dependency == dependency && this.traffic == traffic && this.context == context
    {
      this.dependency := dependency;
      this.traffic := traffic;
      this.context := context;
    }

    method Success(durationMs: real, now: real)
      modifies traffic
      ensures traffic.records == if context.active then old(traffic.records)
                                 else Logged(old(traffic.records), dependency, Succeeded(Some(durationMs)), now)
    {
      if context.active {
        return;
      }
      traffic.Success(dependency, Some(durationMs), now);
    }

    method Failure(category: Category, now: real)
      modifies traffic
      ensures traffic.records == if context.active then old(traffic.records)
                                 else Logged(old(traffic.records), dependency, Failed(category), now)
    {
      if context.active {
        return;
      }
      traffic.Failure(dependency, category, now);
    }
  }

  // ---- whole runs, over any number of threads ----

  datatype Event =
    | EnterProbe(thread: nat)
    | LeaveProbe(thread: nat)
    | Call(thread: nat, dep: string, outcome: Outcome, at: real)

  datatype Flag = Flag(active: bool, saved: seq<bool>)

  datatype World = World(log: map<string, TrafficRecord>, flags: map<nat, Flag>)

  function FlagOf(w: World, thread: nat): Flag {
    if thread in w.flags then w.flags[thread] else Flag(false, [])
  }

  function Step(w: World, e: Event): World {
    match e
    case EnterProbe(t) =>
      var f := FlagOf(w, t);
      w.(flags := w.flags[t := Flag(true, f.saved + [f.active])])
    case LeaveProbe(t) =>
      var f := FlagOf(w, t);
      if f.saved == [] then w
      else w.(flags := w.flags[t := Flag(f.saved[|f.saved| - 1], f.saved[..|f.saved| - 1])])
    case Call(t, dep, outcome, at) =>
      if FlagOf(w, t).active then w else w.(log := Logged(w.log, dep, outcome, at))
  }

  function Run(h: seq<Event>): World {
    if h == [] then World(map[], map[]) else Step(Run(h[..|h| - 1]), h[|h| - 1])
  }

  /** How many probe scopes a thread has open. */
  function Depth(h: seq<Event>, thread: nat): nat {
    if h == [] then 0
    else
      var d := Depth(h[..|h| - 1], thread);
      match h[|h| - 1]
      case EnterProbe(t) => if t == thread then d + 1 else d
      case LeaveProbe(t) => if t == thread && d > 0 then d - 1 else d
      case Call(_, _, _, _) => d
  }

  /** The calls made outside every probe scope: the worker's own. */
  function RealCalls(h: seq<Event>): (calls: seq<Event>)
    ensures forall i :: 0 <= i < |calls| ==> calls[i].Call?
  {
    if h == [] then []
    else RealCalls(h[..|h| - 1])
         + if h[|h| - 1].Call? && Depth(h[..|h| - 1], h[|h| - 1].thread) == 0 then [h[|h| - 1]] else []
  }

  function LogOf(calls: seq<Event>): map<string, TrafficRecord>
    requires forall i :: 0 <= i < |calls| ==> calls[i].Call?
  {
    if calls == [] then map[]
    else Logged(LogOf(calls[..|calls| - 1]), calls[|calls| - 1].dep, calls[|calls| - 1].outcome, calls[|calls| - 1].at)
  }

  /** However scopes nest and threads interleave, the flag is up exactly inside a scope of the same thread. */
  lemma {:induction false} FlagTracksDepth(h: seq<Event>, thread: nat)
    ensures var f := FlagOf(Run(h), thread);
            && |f.saved| == Depth(h, thread)
            && (f.active <==> Depth(h, thread) > 0)
            && forall i :: 0 <= i < |f.saved| ==> (f.saved[i] <==> i > 0)
  {
    if h != [] {
      FlagTracksDepth(h[..|h| - 1], thread);
    }
  }

  lemma RealCallsSnoc(p: seq<Event>, e: Event)
    ensures RealCalls(p + [e]) == if e.Call? && Depth(p, e.thread) == 0 then RealCalls(p) + [e] else RealCalls(p)
  {
    assert (p + [e])[..|p|] == p;
    hide Depth;
  }

  lemma LogSnoc(calls: seq<Event>, e: Event)
    requires (forall i :: 0 <= i < |calls| ==> calls[i].Call?) && e.Call?
    requires forall i :: 0 <= i < |calls + [e]| ==> (calls + [e])[i].Call?
    ensures LogOf(calls + [e]) == Logged(LogOf(calls), e.dep, e.outcome, e.at)
  {
    assert (calls + [e])[..|calls|] == calls;
    hide Logged;
  }

  lemma LogAfter(w: World, e: Event)
    ensures Step(w, e).log ==
            if e.Call? && !FlagOf(w, e.thread).active then Logged(w.log, e.dep, e.outcome, e.at) else w.log
  {
    hide FlagOf, Logged;
  }

  /** Probes leave no trace: the log is the one the real calls alone would have written. */
  lemma {:induction false} ProbesLeaveNoTrace(h: seq<Event>)
    ensures Run(h).log == LogOf(RealCalls(h))
  {
    if h != [] {
      var p, e := h[..|h| - 1], h[|h| - 1];
      assert h == p + [e] && Run(h) == Step(Run(p), e);
      hide Run, Step, Depth, RealCalls, LogOf, Logged, FlagOf;
      ProbesLeaveNoTrace(p);
      RealCallsSnoc(p, e);
      LogAfter(Run(p), e);
      if e.Call? {
        FlagTracksDepth(p, e.thread);
        if Depth(p, e.thread) == 0 { LogSnoc(RealCalls(p), e); }
      }
    } else {
      assert RealCalls(h) == [];
    }
  }

  // ---- the ladder ----

  /** A timestamp as the source tests it: absent or zero counts as never. */
  function OrMinusOne(t: Option<real>): real {
    if t.Some? && t.value != 0.0 then t.value else -1.0
  }

  function Later(a: real, b: real): real {
    if a >= b then a else b
  }

  function Newest(r: TrafficRecord): real {
    Later(OrMinusOne(r.lastSuccessAt), OrMinusOne(r.lastFailureAt))
  }

  predicate LastWasFailure(r: TrafficRecord) {
    r.lastFailureAt.Some? && (r.lastSuccessAt.None? || r.lastFailureAt.value > r.lastSuccessAt.value)
  }

  function ObservedOf(r: TrafficRecord): map<string, real> {
    map["successes" := r.successes as real, "failures" := r.failures as real,
        "consecutive_failures" := r.consecutiveFailures as real]
    + if r.lastLatencyMs.Some? then map["last_latency_ms" := r.lastLatencyMs.value] else map[]
  }

  /** Verdict from the worker's own traffic, or None if there is none recent enough to stand on. */
  function FromTraffic(name: string, dep: string, log: map<string, TrafficRecord>,
                       now: real, wall: real, maxSilence: real): Option<CheckResult>
  {
    if dep == "" || dep !in log then None
    else
      var r := log[dep];
      if Newest(r) < 0.0 || (now - Newest(r)) * 1000.0 > maxSilence * 1000.0 then None
      else
        var failing := LastWasFailure(r);
        Some(CheckResult(name, if failing then Failing else OK, now, wall, Observed, r.lastLatencyMs,
                         if failing then r.lastCategory else None, Some((now - Newest(r)) * 1000.0), None,
                         ObservedOf(r)))
  }

  /** Downgrade an otherwise-OK verdict that took too long. */
  function ApplyLatencyPolicy(warn: Option<real>, critical: Option<real>, r: CheckResult): CheckResult {
    if r.status != OK || r.latencyMs.None? then r
    else if critical.Some? && r.latencyMs.value >= critical.value then
      r.(status := Failing, category := Some(Slow), detail := Some("slow"),
         observed := r.observed["latency_threshold_ms" := critical.value])
    else if warn.Some? && r.latencyMs.value >= warn.value then
      r.(status := Degraded, category := Some(Slow), detail := Some("slow"),
         observed := r.observed["latency_threshold_ms" := warn.value])
    else r
  }

  /** Introspection, then traffic, then a probe; `probed` is what the probe would return, or its classified exception. */
  function Evaluate(name: string, dep: string, warn: Option<real>, critical: Option<real>,
                    introspected: Option<CheckResult>, log: map<string, TrafficRecord>,
                    probed: Result<CheckResult, Category>, now: real, wall: real, maxSilence: real): CheckResult
  {
    if introspected.Some? && introspected.value.status != OK then introspected.value
    else
      var observed := FromTraffic(name, dep, log, now, wall, maxSilence);
      if observed.Some? then ApplyLatencyPolicy(warn, critical, observed.value)
      else
        var r := match probed
          case Ok(r) => r
          case Err(category) =>
            CheckResult(name, Failing, now, wall, Probed, Some(0.0), Some(category), Some(0.0), None, map[]);
        var merged := if introspected.Some? && r.status == OK
                      then r.(observed := introspected.value.observed + r.observed) else r;
        ApplyLatencyPolicy(warn, critical, merged)
  }

  /** The latency policy touches OK results only, and only their verdict; a healthy fast result passes through. */
  lemma LatencyPolicyMeaning(warn: Option<real>, critical: Option<real>, r: CheckResult)
    ensures var out := ApplyLatencyPolicy(warn, critical, r);
            && (r.status != OK ==> out == r)
            && out.evidence == r.evidence && out.checkedAt == r.checkedAt && out.latencyMs == r.latencyMs
            && (out != r ==> out.status in {Failing, Degraded} && out.category == Some(Slow))
            && (r.status == OK && r.latencyMs.Some? ==>
                  (out.status == Failing <==> critical.Some? && r.latencyMs.value >= critical.value)
                  && (out.status == OK <==> !(critical.Some? && r.latencyMs.value >= critical.value)
                                            && !(warn.Some? && r.latencyMs.value >= warn.value)))
  {
  }

  // ---- a silent worker never looks observed ----

  predicate RealCallAt(h: seq<Event>, i: nat, dep: string)
    requires i < |h|
  {
    h[i].Call? && h[i].dep == dep && Depth(h[..i], h[i].thread) == 0
  }

  /** What a record's timestamps mean: each is the time of a real call. */
  lemma {:induction false} StampsAreRealCalls(h: seq<Event>, dep: string)
    ensures dep in Run(h).log ==>
              && (Run(h).log[dep].lastSuccessAt.Some? ==>
                    exists i :: 0 <= i < |h| && RealCallAt(h, i, dep) && h[i].at == Run(h).log[dep].lastSuccessAt.value)
              && (Run(h).log[dep].lastFailureAt.Some? ==>
                    exists i :: 0 <= i < |h| && RealCallAt(h, i, dep) && h[i].at == Run(h).log[dep].lastFailureAt.value)
  {
    if h != [] {
      var p, e := h[..|h| - 1], h[|h| - 1];
      StampsAreRealCalls(p, dep);
      forall i: nat | i < |p|
        ensures RealCallAt(p, i, dep) == RealCallAt(h, i, dep) && p[i] == h[i]
      {
        assert h[..i] == p[..i];
      }
      if e.Call? {
        FlagTracksDepth(p, e.thread);
        if e.dep == dep && Depth(p, e.thread) == 0 {
          assert RealCallAt(h, |p|, dep);
        }
      }
    }
  }

  lemma UsedTrafficIsFresh(name: string, dep: string, log: map<string, TrafficRecord>, now: real, wall: real, maxSilence: real)
    requires FromTraffic(name, dep, log, now, wall, maxSilence).Some?
    ensures dep in log && now - Newest(log[dep]) <= maxSilence
    ensures exists t: real :: Newest(log[dep]) == t && (log[dep].lastSuccessAt == Some(t) || log[dep].lastFailureAt == Some(t))
  {
    var r := log[dep];
    var t := Newest(r);
    assert r.lastSuccessAt == Some(t) || r.lastFailureAt == Some(t);
  }

  /** Traffic is used only if a real call is recent enough. */
  lemma TrafficNeedsRecentCall(h: seq<Event>, name: string, dep: string, now: real, wall: real, maxSilence: real)
    requires FromTraffic(name, dep, Run(h).log, now, wall, maxSilence).Some?
    ensures exists i :: 0 <= i < |h| && RealCallAt(h, i, dep) && now - h[i].at <= maxSilence
  {
    UsedTrafficIsFresh(name, dep, Run(h).log, now, wall, maxSilence);
    StampsAreRealCalls(h, dep);
    hide FromTraffic, RealCallAt, Run;
    var r := Run(h).log[dep];
    var t := Newest(r);
    hide Newest;
    var i :| 0 <= i < |h| && RealCallAt(h, i, dep) && h[i].at == t;
  }

  /** Only the traffic rung produces OBSERVED on its own. */
  lemma ObservedComesFromTraffic(name: string, dep: string, warn: Option<real>, critical: Option<real>,
                                 introspected: Option<CheckResult>, log: map<string, TrafficRecord>,
                                 probed: Result<CheckResult, Category>, now: real, wall: real, maxSilence: real)
    requires introspected.Some? ==> introspected.value.evidence != Observed
    requires probed.Ok? ==> probed.value.evidence != Observed
    requires Evaluate(name, dep, warn, critical, introspected, log, probed, now, wall, maxSilence).evidence == Observed
    ensures FromTraffic(name, dep, log, now, wall, maxSilence).Some?
  {
  }

  /**
   * Over any interleaving of probes and real calls: unless the adapter's own introspection or probe says so,
   * an evaluation is labelled OBSERVED only on the strength of a real call no older than max_silence.
   */
  lemma SilentWorkerNeverObserved(h: seq<Event>, name: string, dep: string, warn: Option<real>, critical: Option<real>,
                                  introspected: Option<CheckResult>, probed: Result<CheckResult, Category>,
                                  now: real, wall: real, maxSilence: real)
    requires introspected.Some? ==> introspected.value.evidence != Observed
    requires probed.Ok? ==> probed.value.evidence != Observed
    requires Evaluate(name, dep, warn, critical, introspected, Run(h).log, probed, now, wall, maxSilence).evidence == Observed
    ensures exists i :: 0 <= i < |h| && RealCallAt(h, i, dep) && now - h[i].at <= maxSilence
  {
    ObservedComesFromTraffic(name, dep, warn, critical, introspected, Run(h).log, probed, now, wall, maxSilence);
    hide Evaluate;
    TrafficNeedsRecentCall(h, name, dep, now, wall, maxSilence);
  }

  predicate ClockRuns(h: seq<Event>) {
    && (forall i :: 0 <= i < |h| && h[i].Call? ==> h[i].at > 0.0)
    && (forall i, j :: 0 <= i < j < |h| && h[i].Call? && h[j].Call? ==> h[i].at <= h[j].at)
  }

  lemma {:induction false} NewestCoversCalls(h: seq<Event>, dep: string, i: nat)
    requires ClockRuns(h) && i < |h| && RealCallAt(h, i, dep)
    ensures dep in Run(h).log && Newest(Run(h).log[dep]) >= h[i].at
  {
    var p, e := h[..|h| - 1], h[|h| - 1];
    if e.Call? {
      FlagTracksDepth(p, e.thread);
    }
    if i < |p| {
      assert h[..i] == p[..i];
      NewestCoversCalls(p, dep, i);
      if e.Call? {
        assert p[i].at <= e.at;
      }
    }
  }

  /** With a running clock the converse holds too: real traffic within max_silence is always used. */
  lemma ObservedIffRecentCall(h: seq<Event>, name: string, dep: string, now: real, wall: real, maxSilence: real)
    requires ClockRuns(h) && dep != ""
    ensures FromTraffic(name, dep, Run(h).log, now, wall, maxSilence).Some?
            <==> exists i :: 0 <= i < |h| && RealCallAt(h, i, dep) && now - h[i].at <= maxSilence
  {
    if FromTraffic(name, dep, Run(h).log, now, wall, maxSilence).Some? {
      TrafficNeedsRecentCall(h, name, dep, now, wall, maxSilence);
    }
    if i :| 0 <= i < |h| && RealCallAt(h, i, dep) && now - h[i].at <= maxSilence {
      NewestCoversCalls(h, dep, i);
    }
  }

  // ---- what traffic answers ----

  /** A real call of one kind. */
  predicate KindAt(h: seq<Event>, i: nat, dep: string, failed: bool)
    requires i < |h|
  {
    RealCallAt(h, i, dep) && h[i].outcome.Failed? == failed
  }

  /** The time of the newest call of one kind, if there was any. */
  predicate IsNewest(h: seq<Event>, dep: string, failed: bool, t: Option<real>) {
    match t
    case None => forall i :: 0 <= i < |h| ==> !KindAt(h, i, dep, failed)
    case Some(at) =>
      && (exists i :: 0 <= i < |h| && KindAt(h, i, dep, failed) && h[i].at == at)
      && (forall i :: 0 <= i < |h| && KindAt(h, i, dep, failed) ==> h[i].at <= at)
  }

  /** The worker's last real call of a dependency. */
  predicate LastCall(h: seq<Event>, i: nat, dep: string)
    requires i < |h|
  {
    RealCallAt(h, i, dep) && forall j :: i < j < |h| ==> !RealCallAt(h, j, dep)
  }

  /** Some real failure of the dependency is later than every real success of it. */
  predicate FailedSince(h: seq<Event>, dep: string) {
    exists i :: 0 <= i < |h| && KindAt(h, i, dep, true)
                && forall j :: 0 <= j < |h| && KindAt(h, j, dep, false) ==> h[j].at < h[i].at
  }

  function RecordOf(h: seq<Event>, dep: string): TrafficRecord {
    if dep in Run(h).log then Run(h).log[dep] else BLANK
  }

  lemma RealCallPrefix(p: seq<Event>, e: Event, i: nat, dep: string)
    requires i < |p|
    ensures (p + [e])[i] == p[i] && RealCallAt(p + [e], i, dep) == RealCallAt(p, i, dep)
  {
    assert (p + [e])[..i] == p[..i];
    hide Depth;
  }

  lemma RecordSnoc(p: seq<Event>, e: Event, dep: string)
    ensures RecordOf(p + [e], dep) ==
            if RealCallAt(p + [e], |p|, dep) then Noted(RecordOf(p, dep), e.outcome, e.at) else RecordOf(p, dep)
  {
    var h := p + [e];
    assert h[..|p|] == p && h[|p|] == e;
    assert Run(h) == Step(Run(p), e);
    if e.Call? {
      FlagTracksDepth(p, e.thread);
    }
    LogAfter(Run(p), e);
    assert RealCallAt(h, |p|, dep) <==> e.Call? && e.dep == dep && Depth(p, e.thread) == 0;
    assert RealCallAt(h, |p|, dep) ==> Run(h).log == Logged(Run(p).log, e.dep, e.outcome, e.at);
    assert !RealCallAt(h, |p|, dep) ==> RecordOf(h, dep) == RecordOf(p, dep);
    hide Run, Step, Depth, FlagOf, Noted;
  }

  lemma NewestSnoc(p: seq<Event>, e: Event, dep: string, failed: bool, t: Option<real>)
    requires ClockRuns(p + [e]) && IsNewest(p, dep, failed, t)
    ensures IsNewest(p + [e], dep, failed, if KindAt(p + [e], |p|, dep, failed) then Some(e.at) else t)
  {
    var h := p + [e];
    hide RealCallAt;
    forall i: nat | i < |p|
      ensures h[i] == p[i] && KindAt(h, i, dep, failed) == KindAt(p, i, dep, failed)
      ensures KindAt(h, i, dep, failed) ==> h[i].Call?
    {
      RealCallPrefix(p, e, i, dep);
      RealIsCall(h, i, dep);
    }
    RealIsCall(h, |p|, dep);
    if KindAt(h, |p|, dep, failed) {
      assert h[|p|].at == e.at;
    } else if t.Some? {
      var i :| 0 <= i < |p| && KindAt(p, i, dep, failed) && p[i].at == t.value;
      assert KindAt(h, i, dep, failed) && h[i].at == t.value;
    }
  }

  lemma RealIsCall(h: seq<Event>, i: nat, dep: string)
    requires i < |h|
    ensures RealCallAt(h, i, dep) ==> h[i].Call?
  {
  }

  lemma ClockPrefix(p: seq<Event>, e: Event)
    requires ClockRuns(p + [e])
    ensures ClockRuns(p)
  {
    assert forall i :: 0 <= i < |p| ==> p[i] == (p + [e])[i];
  }

  /** The two stamps of a record are the times of the newest real success and the newest real failure. */
  lemma {:induction false} StampsAreNewest(h: seq<Event>, dep: string)
    requires ClockRuns(h)
    ensures IsNewest(h, dep, false, RecordOf(h, dep).lastSuccessAt)
    ensures IsNewest(h, dep, true, RecordOf(h, dep).lastFailureAt)
  {
    if h != [] {
      var p, e := h[..|h| - 1], h[|h| - 1];
      assert h == p + [e];
      hide IsNewest, RealCallAt, Run, ClockRuns;
      ClockPrefix(p, e);
      StampsAreNewest(p, dep);
      RecordSnoc(p, e, dep);
      RealIsCall(h, |p|, dep);
      NewestSnoc(p, e, dep, false, RecordOf(p, dep).lastSuccessAt);
      NewestSnoc(p, e, dep, true, RecordOf(p, dep).lastFailureAt);
      hide RecordOf;
    }
  }

  lemma LastCallPrefix(p: seq<Event>, e: Event, i: nat, dep: string)
    requires i < |p| && LastCall(p + [e], i, dep)
    ensures LastCall(p, i, dep) && !RealCallAt(p + [e], |p|, dep)
  {
    hide RealCallAt;
    forall j: nat | j < |p| ensures RealCallAt(p + [e], j, dep) == RealCallAt(p, j, dep) {
      RealCallPrefix(p, e, j, dep);
    }
  }

  /** The category of a record is that of the last real call: none after a success. */
  lemma {:induction false} CategoryIsLast(h: seq<Event>, dep: string, i: nat)
    requires i < |h| && LastCall(h, i, dep)
    ensures h[i].Call?
    ensures RecordOf(h, dep).lastCategory == if h[i].outcome.Failed? then Some(h[i].outcome.category) else None
  {
    RealIsCall(h, i, dep);
    var p, e := h[..|h| - 1], h[|h| - 1];
    assert h == p + [e];
    hide RealCallAt, Run;
    RecordSnoc(p, e, dep);
    hide RecordOf;
    if i < |p| {
      LastCallPrefix(p, e, i, dep);
      hide LastCall;
      CategoryIsLast(p, dep, i);
    }
  }

  lemma {:induction false} LastCallExists(h: seq<Event>, dep: string, i: nat) returns (last: nat)
    requires i < |h| && RealCallAt(h, i, dep)
    ensures i <= last < |h| && LastCall(h, last, dep)
    decreases |h| - i
  {
    hide RealCallAt;
    if j :| i < j < |h| && RealCallAt(h, j, dep) {
      last := LastCallExists(h, dep, j);
    } else {
      last := i;
    }
  }

  lemma LastWasFailureIff(h: seq<Event>, dep: string)
    requires ClockRuns(h)
    ensures LastWasFailure(RecordOf(h, dep)) <==> FailedSince(h, dep)
  {
    StampsAreNewest(h, dep);
    var r := RecordOf(h, dep);
    hide RecordOf, KindAt, ClockRuns;
    if LastWasFailure(r) {
      var i :| 0 <= i < |h| && KindAt(h, i, dep, true) && h[i].at == r.lastFailureAt.value;
    }
    if FailedSince(h, dep) {
      var i :| 0 <= i < |h| && KindAt(h, i, dep, true)
               && forall j :: 0 <= j < |h| && KindAt(h, j, dep, false) ==> h[j].at < h[i].at;
      if r.lastSuccessAt.Some? {
        var j :| 0 <= j < |h| && KindAt(h, j, dep, false) && h[j].at == r.lastSuccessAt.value;
      }
    }
  }

  /** If some failure is later than every success, the last call of all was a failure. */
  lemma FailureIsLast(h: seq<Event>, dep: string) returns (last: nat)
    requires ClockRuns(h) && FailedSince(h, dep)
    ensures last < |h| && LastCall(h, last, dep) && h[last].outcome.Failed?
  {
    var i :| 0 <= i < |h| && KindAt(h, i, dep, true)
             && forall j :: 0 <= j < |h| && KindAt(h, j, dep, false) ==> h[j].at < h[i].at;
    last := LastCallExists(h, dep, i);
    RealIsCall(h, i, dep);
    RealIsCall(h, last, dep);
    hide RealCallAt;
    assert h[i].at <= h[last].at;
    assert KindAt(h, last, dep, h[last].outcome.Failed?);
  }

  lemma AnswerOfRecord(name: string, dep: string, log: map<string, TrafficRecord>, now: real, wall: real, maxSilence: real)
    requires FromTraffic(name, dep, log, now, wall, maxSilence).Some?
    ensures dep in log
    ensures var r, failing := FromTraffic(name, dep, log, now, wall, maxSilence).value, LastWasFailure(log[dep]);
            && r.status == (if failing then Failing else OK)
            && r.category == if failing then log[dep].lastCategory else None
  {
    hide Newest, LastWasFailure;
  }

  /**
   * On a running clock, when traffic answers: FAILING exactly if some real failure of the dependency is later than
   * every real success of it, with the category of the last real call, and otherwise OK without a category.
   */
  lemma TrafficVerdict(h: seq<Event>, name: string, dep: string, now: real, wall: real, maxSilence: real)
    requires ClockRuns(h) && FromTraffic(name, dep, Run(h).log, now, wall, maxSilence).Some?
    ensures var r := FromTraffic(name, dep, Run(h).log, now, wall, maxSilence).value;
            if FailedSince(h, dep) then
              r.status == Failing
              && exists i :: 0 <= i < |h| && LastCall(h, i, dep) && h[i].outcome.Failed?
                             && r.category == Some(h[i].outcome.category)
            else r.status == OK && r.category == None
  {
    AnswerOfRecord(name, dep, Run(h).log, now, wall, maxSilence);
    LastWasFailureIff(h, dep);
    hide FromTraffic, Run, LastCall, ClockRuns, LastWasFailure;
    if FailedSince(h, dep) {
      var i := FailureIsLast(h, dep);
      CategoryIsLast(h, dep, i);
    }
    hide FailedSince;
  }

  /** The same of a whole evaluation: a failure seen in traffic stands; a success can only be found too slow. */
  lemma ObservedVerdict(h: seq<Event>, name: string, dep: string, warn: Option<real>, critical: Option<real>,
                        introspected: Option<CheckResult>, probed: Result<CheckResult, Category>,
                        now: real, wall: real, maxSilence: real)
    requires ClockRuns(h)
    requires introspected.Some? ==> introspected.value.evidence != Observed
    requires probed.Ok? ==> probed.value.evidence != Observed
    requires Evaluate(name, dep, warn, critical, introspected, Run(h).log, probed, now, wall, maxSilence).evidence == Observed
    ensures var r := Evaluate(name, dep, warn, critical, introspected, Run(h).log, probed, now, wall, maxSilence);
            if FailedSince(h, dep) then
              r.status == Failing
              && exists i :: 0 <= i < |h| && LastCall(h, i, dep) && h[i].outcome.Failed?
                             && r.category == Some(h[i].outcome.category)
            else (r.status == OK && r.category == None) || (r.status in {Failing, Degraded} && r.category == Some(Slow))
  {
    hide Evaluate, Run, FromTraffic, FailedSince, LastCall, ApplyLatencyPolicy, ClockRuns;
    ObservedComesFromTraffic(name, dep, warn, critical, introspected, Run(h).log, probed, now, wall, maxSilence);
    EvaluatedFromTraffic(name, dep, warn, critical, introspected, Run(h).log, probed, now, wall, maxSilence);
    TrafficVerdict(h, name, dep, now, wall, maxSilence);
    LatencyPolicyMeaning(warn, critical, FromTraffic(name, dep, Run(h).log, now, wall, maxSilence).value);
  }

  lemma EvaluatedFromTraffic(name: string, dep: string, warn: Option<real>, critical: Option<real>,
                             introspected: Option<CheckResult>, log: map<string, TrafficRecord>,
                             probed: Result<CheckResult, Category>, now: real, wall: real, maxSilence: real)
    requires introspected.Some? ==> introspected.value.evidence != Observed
    requires Evaluate(name, dep, warn, critical, introspected, log, probed, now, wall, maxSilence).evidence == Observed
    requires FromTraffic(name, dep, log, now, wall, maxSilence).Some?
    ensures Evaluate(name, dep, warn, critical, introspected, log, probed, now, wall, maxSilence)
            == ApplyLatencyPolicy(warn, critical, FromTraffic(name, dep, log, now, wall, maxSilence).value)
  {
    hide FromTraffic, ApplyLatencyPolicy;
  }

  // ---- what a record counts ----

  function CallCount(h: seq<Event>, dep: string, failed: bool): nat {
    if h == [] then 0
    else CallCount(h[..|h| - 1], dep, failed) + if KindAt(h, |h| - 1, dep, failed) then 1 else 0
  }

  /** The last n real calls of the dependency all failed. */
  predicate EndsInFailures(h: seq<Event>, dep: string, n: nat)
    decreases |h|
  {
    n == 0
    || (h != []
        && if !RealCallAt(h, |h| - 1, dep) then EndsInFailures(h[..|h| - 1], dep, n)
           else h[|h| - 1].outcome.Failed? && EndsInFailures(h[..|h| - 1], dep, n - 1))
  }

  /** The counts of a record are numbers of real calls, and its run of failures is that of the last calls. */
  lemma {:induction false} CountsAreCalls(h: seq<Event>, dep: string, n: nat)
    ensures RecordOf(h, dep).successes == CallCount(h, dep, false)
    ensures RecordOf(h, dep).failures == CallCount(h, dep, true)
    ensures RecordOf(h, dep).consecutiveFailures >= n <==> EndsInFailures(h, dep, n)
    decreases |h|
  {
    if h != [] {
      var p, e := h[..|h| - 1], h[|h| - 1];
      assert h == p + [e];
      hide RealCallAt, Run;
      RecordSnoc(p, e, dep);
      hide RecordOf;
      RealIsCall(h, |p|, dep);
      CountsAreCalls(p, dep, n);
      if n > 0 { CountsAreCalls(p, dep, n - 1); }
    } else {
      assert RecordOf(h, dep) == BLANK;
    }
  }

  /** The latency of a record is that of the newest real success. */
  predicate LastSuccess(h: seq<Event>, i: nat, dep: string)
    requires i < |h|
  {
    KindAt(h, i, dep, false) && forall j :: i < j < |h| ==> !KindAt(h, j, dep, false)
  }

  lemma LastSuccessPrefix(p: seq<Event>, e: Event, i: nat, dep: string)
    requires i < |p| && LastSuccess(p + [e], i, dep)
    ensures LastSuccess(p, i, dep) && !KindAt(p + [e], |p|, dep, false)
  {
    hide RealCallAt;
    forall j: nat | j < |p| ensures KindAt(p + [e], j, dep, false) == KindAt(p, j, dep, false) {
      RealCallPrefix(p, e, j, dep);
    }
  }

  lemma {:induction false} LatencyIsLast(h: seq<Event>, dep: string, i: nat)
    requires i < |h| && LastSuccess(h, i, dep)
    ensures h[i].Call? && h[i].outcome.Succeeded?
    ensures RecordOf(h, dep).lastLatencyMs == h[i].outcome.latencyMs
  {
    RealIsCall(h, i, dep);
    var p, e := h[..|h| - 1], h[|h| - 1];
    assert h == p + [e];
    hide RealCallAt, Run;
    RecordSnoc(p, e, dep);
    hide RecordOf;
    if i < |p| {
      LastSuccessPrefix(p, e, i, dep);
      hide LastSuccess;
      LatencyIsLast(p, dep, i);
    }
  }

  /** The newest real call of the dependency. */
  predicate IsNewestCall(h: seq<Event>, i: nat, dep: string)
    requires i < |h|
  {
    RealCallAt(h, i, dep) && forall j :: 0 <= j < |h| && RealCallAt(h, j, dep) ==> h[j].at <= h[i].at
  }

  /** An answer of traffic carries the age of the newest real call, the latency of the newest success and the counts. */
  lemma TrafficDetails(h: seq<Event>, name: string, dep: string, now: real, wall: real, maxSilence: real)
    requires ClockRuns(h) && FromTraffic(name, dep, Run(h).log, now, wall, maxSilence).Some?
    ensures var r := FromTraffic(name, dep, Run(h).log, now, wall, maxSilence).value;
            && (exists i :: 0 <= i < |h| && IsNewestCall(h, i, dep) && r.evidenceAgeMs == Some((now - h[i].at) * 1000.0))
            && (forall i :: 0 <= i < |h| && LastSuccess(h, i, dep) ==> r.latencyMs == h[i].outcome.latencyMs)
            && {"successes", "failures", "consecutive_failures"} <= r.observed.Keys
            && r.observed["successes"] == CallCount(h, dep, false) as real
            && r.observed["failures"] == CallCount(h, dep, true) as real
            && (forall n: nat :: r.observed["consecutive_failures"] >= n as real <==> EndsInFailures(h, dep, n))
            && r.evidence == Observed && r.name == name && r.checkedAt == now && r.wallClock == wall
  {
    DetailsOfRecord(name, dep, Run(h).log, now, wall, maxSilence);
    UsedTrafficIsFresh(name, dep, Run(h).log, now, wall, maxSilence);
    CountsAreCalls(h, dep, 0);
    forall n: nat ensures RecordOf(h, dep).consecutiveFailures >= n <==> EndsInFailures(h, dep, n) {
      CountsAreCalls(h, dep, n);
    }
    ObservedByKey(RecordOf(h, dep));
    hide FromTraffic, Run, ClockRuns, Newest, IsNewestCall, CallCount, LastSuccess, ObservedOf, EndsInFailures;
    var i := NewestCallExists(h, dep);
    forall i: nat | i < |h| && LastSuccess(h, i, dep)
      ensures h[i].Call? && h[i].outcome.Succeeded? && RecordOf(h, dep).lastLatencyMs == h[i].outcome.latencyMs
    {
      LatencyIsLast(h, dep, i);
    }
  }

  lemma ObservedByKey(r: TrafficRecord)
    ensures var o := ObservedOf(r);
            && {"successes", "failures", "consecutive_failures"} <= o.Keys
            && o["successes"] == r.successes as real && o["failures"] == r.failures as real
            && o["consecutive_failures"] == r.consecutiveFailures as real
  {
    assert "successes"[0] == 's' && "failures"[0] == 'f' && "consecutive_failures"[0] == 'c' && "last_latency_ms"[0] == 'l';
  }

  lemma NewestCallExists(h: seq<Event>, dep: string) returns (i: nat)
    requires ClockRuns(h) && dep in Run(h).log
    requires exists t: real :: Newest(Run(h).log[dep]) == t
                               && (Run(h).log[dep].lastSuccessAt == Some(t) || Run(h).log[dep].lastFailureAt == Some(t))
    ensures i < |h| && IsNewestCall(h, i, dep) && h[i].Call? && h[i].at == Newest(Run(h).log[dep])
  {
    StampsAreRealCalls(h, dep);
    hide Run, ClockRuns, RealCallAt;
    var t := Newest(Run(h).log[dep]);
    hide Newest;
    forall j: nat | j < |h| ensures RealCallAt(h, j, dep) ==> h[j].Call? {
      RealIsCall(h, j, dep);
    }
    i :| 0 <= i < |h| && RealCallAt(h, i, dep) && h[i].at == t;
    forall j: nat | j < |h| && RealCallAt(h, j, dep) ensures h[j].at <= t {
      NewestCoversCalls(h, dep, j);
    }
  }

  lemma DetailsOfRecord(name: string, dep: string, log: map<string, TrafficRecord>, now: real, wall: real, maxSilence: real)
    requires FromTraffic(name, dep, log, now, wall, maxSilence).Some?
    ensures dep in log
    ensures var r, rec := FromTraffic(name, dep, log, now, wall, maxSilence).value, log[dep];
            && r.evidenceAgeMs == Some((now - Newest(rec)) * 1000.0) && r.latencyMs == rec.lastLatencyMs
            && r.observed == ObservedOf(rec)
            && r.evidence == Observed && r.name == name && r.checkedAt == now && r.wallClock == wall
  {
    hide Newest;
  }

  // ---- the other rungs ----

  /** A key of the probe's own wins over the same key of the introspection; only the latency limit is added to both. */
  ghost predicate Carries(out: CheckResult, own: map<string, real>, introspected: map<string, real>) {
    forall k :: k != "latency_threshold_ms" ==>
      (k in out.observed <==> k in own || k in introspected)
      && (k in own ==> out.observed[k] == own[k])
      && (k !in own && k in introspected ==> out.observed[k] == introspected[k])
  }

  /**
   * The order of the ladder: a complaint of the introspection stands alone; otherwise traffic answers if it can; only
   * then is the probe asked, and an exception of it is a failure of its category.
   */
  lemma LadderOrder(name: string, dep: string, warn: Option<real>, critical: Option<real>,
                    introspected: Option<CheckResult>, log: map<string, TrafficRecord>,
                    probed: Result<CheckResult, Category>, now: real, wall: real, maxSilence: real)
    ensures var out := Evaluate(name, dep, warn, critical, introspected, log, probed, now, wall, maxSilence);
            var traffic := FromTraffic(name, dep, log, now, wall, maxSilence);
            if introspected.Some? && introspected.value.status != OK then out == introspected.value
            else if traffic.Some? then out.evidence == Observed
            else match probed
                 case Err(category) => out.status == Failing && out.category == Some(category) && out.evidence == Probed
                 case Ok(r) =>
                   && out.evidence == r.evidence && out.latencyMs == r.latencyMs
                   && (r.status != OK ==> out == r)
                   && (r.status == OK ==>
                         Carries(out, r.observed, if introspected.Some? then introspected.value.observed else map[]))
  {
    hide FromTraffic;
    if FromTraffic(name, dep, log, now, wall, maxSilence).Some? {
      TrafficIsObserved(name, dep, log, now, wall, maxSilence);
    }
  }

  lemma TrafficIsObserved(name: string, dep: string, log: map<string, TrafficRecord>, now: real, wall: real, maxSilence: real)
    requires FromTraffic(name, dep, log, now, wall, maxSilence).Some?
    ensures FromTraffic(name, dep, log, now, wall, maxSilence).value.evidence == Observed
  {
    hide Newest;
  }

  /** A call recorded at monotonic zero is not evidence: the test for "never" also catches 0.0. */
  lemma ZeroStampIsIgnored()
    ensures var h := [Call(0, "db", Succeeded(None), 0.0)];
            RealCallAt(h, 0, "db") && FromTraffic("db", "db", Run(h).log, 0.0, 0.0, 60.0).None?
  {
    var h := [Call(0, "db", Succeeded(None), 0.0)];
    assert h[..0] == [] && Run([]) == World(map[], map[]) && Depth([], 0) == 0;
  }
}
