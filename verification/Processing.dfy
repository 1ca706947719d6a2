/** Message counters, aggregate and per queue, and the verdict on whether the worker still works. */
module Processing {
  import opened Wrappers
  import opened Model

  datatype Counters = Counters(
    received: nat,
    succeeded: nat,
    failed: nat,
    inFlight: nat,
    lastReceivedAt: Option<real>,
    lastSuccessAt: Option<real>,
    lastFailureAt: Option<real>,
    consecutiveFailures: nat)

  const ZERO := Counters(0, 0, 0, 0, None, None, None, 0)

  datatype Kind = Begin | Success | Failure

  /** `queue` is "" when the handler named no queue. */
  datatype Event = Event(kind: Kind, queue: string, at: real)

  function Count(c: Counters, kind: Kind, at: real): Counters {
    var left := if c.inFlight > 0 then c.inFlight - 1 else 0;
    match kind
    case Begin => c.(received := c.received + 1, inFlight := c.inFlight + 1, lastReceivedAt := Some(at))
    case Success => c.(succeeded := c.succeeded + 1, inFlight := left, consecutiveFailures := 0, lastSuccessAt := Some(at))
    case Failure => c.(failed := c.failed + 1, inFlight := left,
                       consecutiveFailures := c.consecutiveFailures + 1, lastFailureAt := Some(at))
  }

  /** The counters of one stream of events. */
  function Tally(h: seq<Event>): Counters {
    if h == [] then ZERO else Count(Tally(h[..|h| - 1]), h[|h| - 1].kind, h[|h| - 1].at)
  }

  function Of(h: seq<Event>, queue: string): seq<Event> {
    if h == [] then []
    else Of(h[..|h| - 1], queue) + if h[|h| - 1].queue == queue then [h[|h| - 1]] else []
  }

  /** Queue names, in the order they were first seen. */
  function Names(h: seq<Event>): seq<string> {
    if h == [] then []
    else
      var p, q := Names(h[..|h| - 1]), h[|h| - 1].queue;
      if q == "" || q in p then p else p + [q]
  }

  class ProcessingState {
    const startedAt: real
    var total: Counters
    var queues: map<string, Counters>
    ghost var history: seq<Event>

    ghost predicate Valid()
      reads this
    {
      total == Tally(history) && Tracks(queues, history)
    }

    constructor (now: real)
      ensures Valid() && history == [] && startedAt == now
    {
      startedAt := now;
      total, queues, history := ZERO, map[], [];
    }

    method OnReceive(queue: string, now: real)
      requires Valid()
      modifies this
      ensures Valid() && history == old(history) + [Event(Begin, queue, now)]
    {
      var c := total;
      c := c.(received := c.received + 1);
      c := c.(inFlight := c.inFlight + 1);
      total := c.(lastReceivedAt := Some(now));
      Record(queue, Begin, now);
    }

    method OnSuccess(queue: string, now: real)
      requires Valid()
      modifies this
      ensures Valid() && history == old(history) + [Event(Success, queue, now)]
    {
      var c := total;
      c := c.(succeeded := c.succeeded + 1);
      c := c.(inFlight := if c.inFlight - 1 > 0 then c.inFlight - 1 else 0);
      total := c.(consecutiveFailures := 0, lastSuccessAt := Some(now));
      Record(queue, Success, now);
    }

    method OnFailure(queue: string, now: real)
      requires Valid()
      modifies this
      ensures Valid() && history == old(history) + [Event(Failure, queue, now)]
    {
      var c := total;
      c := c.(failed := c.failed + 1);
      c := c.(inFlight := if c.inFlight - 1 > 0 then c.inFlight - 1 else 0);
      total := c.(consecutiveFailures := c.consecutiveFailures + 1, lastFailureAt := Some(now));
      Record(queue, Failure, now);
    }

    /** The queue's own counters, created on first use. */
    method Record(queue: string, kind: Kind, now: real)
      requires total == Count(Tally(history), kind, now) && Tracks(queues, history)
      modifies this`queues, this`history
      ensures Valid() && history == old(history) + [Event(kind, queue, now)]
    {
      TracksOneMore(queues, history, Event(kind, queue, now));
      TallySnoc(history, Event(kind, queue, now));
      history := history + [Event(kind, queue, now)];
      if queue != "" {
        if queue !in queues {
          queues := queues[queue := ZERO];
        }
        queues := queues[queue := Count(queues[queue], kind, now)];
      }
    }
  }

  /** Each queue's counters are the tally of its own part of the stream. */
  ghost predicate Tracks(queues: map<string, Counters>, h: seq<Event>) {
    && (forall q :: q in queues <==> q in Names(h))
    && (forall q :: q in queues ==> queues[q] == Tally(Of(h, q)))
  }

  lemma TracksOneMore(queues: map<string, Counters>, h: seq<Event>, e: Event)
    requires Tracks(queues, h)
    ensures Tracks(if e.queue == "" then queues
                   else queues[e.queue := Count(if e.queue in queues then queues[e.queue] else ZERO, e.kind, e.at)], h + [e])
  {
    hide Names, Of, Tally, Count;
    NamesSnoc(h, e);
    NamesNotEmpty(h);
    if e.queue != "" && e.queue !in queues {
      NewQueueIsEmpty(h, e.queue);
    }
    forall q | q in Names(h + [e])
      ensures Tally(Of(h + [e], q)) == if q == e.queue then Count(Tally(Of(h, q)), e.kind, e.at) else Tally(Of(h, q))
    {
      StreamSnoc(h, e, q);
    }
  }

  lemma {:induction false} NamesNotEmpty(h: seq<Event>)
    ensures "" !in Names(h)
  {
    if h != [] {
      NamesNotEmpty(h[..|h| - 1]);
    }
  }

  lemma StreamSnoc(h: seq<Event>, e: Event, q: string)
    ensures Of(h + [e], q) == if e.queue == q then Of(h, q) + [e] else Of(h, q)
    ensures e.queue == q ==> Tally(Of(h + [e], q)) == Count(Tally(Of(h, q)), e.kind, e.at)
  {
    assert (h + [e])[..|h|] == h;
    assert (Of(h, q) + [e])[..|Of(h, q)|] == Of(h, q);
  }

  lemma TallySnoc(h: seq<Event>, e: Event)
    ensures Tally(h + [e]) == Count(Tally(h), e.kind, e.at)
  {
    assert (h + [e])[..|h|] == h;
  }

  lemma NamesSnoc(h: seq<Event>, e: Event)
    ensures forall q :: q in Names(h + [e]) <==> q in Names(h) || (q == e.queue && q != "")
  {
    assert (h + [e])[..|h|] == h;
  }

  lemma {:induction false} NewQueueIsEmpty(h: seq<Event>, q: string)
    requires q != "" && q !in Names(h)
    ensures Of(h, q) == [] && Tally(Of(h, q)) == ZERO
  {
    if h != [] {
      NewQueueIsEmpty(h[..|h| - 1], q);
    }
  }

  // ---- conservation ----

  function Balance(h: seq<Event>): int {
    if h == [] then 0 else Balance(h[..|h| - 1]) + if h[|h| - 1].kind == Begin then 1 else -1
  }

  /** Every end has a begin: no prefix has more ends than begins. */
  predicate Paired(h: seq<Event>) {
    forall i :: 0 <= i <= |h| ==> Balance(h[..i]) >= 0
  }

  lemma PairedPrefix(h: seq<Event>)
    requires h != []
    ensures Paired(h) <==> Paired(h[..|h| - 1]) && Balance(h) >= 0
  {
    var p := h[..|h| - 1];
    assert h[..|h|] == h;
    assert forall i :: 0 <= i <= |p| ==> h[..i] == p[..i];
    if Paired(p) && Balance(h) >= 0 {
      forall i | 0 <= i <= |h|
        ensures Balance(h[..i]) >= 0
      {
        if i < |h| { assert h[..i] == p[..i]; }
      }
    }
    if Paired(h) {
      forall i | 0 <= i <= |p|
        ensures Balance(p[..i]) >= 0
      {
        assert h[..i] == p[..i];
      }
    }
  }

  /** Nothing is lost or counted twice exactly while every end has a begin. */
  lemma {:induction false} Conservation(h: seq<Event>)
    ensures var c := Tally(h);
            && c.received <= c.succeeded + c.failed + c.inFlight
            && (c.received == c.succeeded + c.failed + c.inFlight <==> Paired(h))
            && (Paired(h) ==> c.inFlight == Balance(h))
  {
    if h == [] {
      assert forall i :: 0 <= i <= |h| ==> h[..i] == [];
    } else {
      Conservation(h[..|h| - 1]);
      PairedPrefix(h);
    }
  }

  lemma {:induction false} NamesDistinct(h: seq<Event>)
    ensures forall i, j :: 0 <= i < j < |Names(h)| ==> Names(h)[i] != Names(h)[j]
  {
    if h != [] {
      NamesDistinct(h[..|h| - 1]);
    }
  }

  datatype Field = Received | Succeeded | Failed | InFlight

  function Get(c: Counters, f: Field): int {
    match f
    case Received => c.received
    case Succeeded => c.succeeded
    case Failed => c.failed
    case InFlight => c.inFlight
  }

  function SumOver(h: seq<Event>, names: seq<string>, f: Field): int {
    if names == [] then 0
    else SumOver(h, names[..|names| - 1], f) + Get(Tally(Of(h, names[|names| - 1])), f)
  }

  function QueueSum(h: seq<Event>, f: Field): int {
    SumOver(h, Names(h), f)
  }

  function Delta(p: seq<Event>, e: Event, f: Field): int {
    Get(Count(Tally(Of(p, e.queue)), e.kind, e.at), f) - Get(Tally(Of(p, e.queue)), f)
  }

  /** One more event moves the sum by what it does to its own queue. */
  lemma {:induction false} SumChanges(p: seq<Event>, e: Event, names: seq<string>, f: Field)
    requires forall i, j :: 0 <= i < j < |names| ==> names[i] != names[j]
    ensures SumOver(p + [e], names, f) == SumOver(p, names, f) + if e.queue in names then Delta(p, e, f) else 0
  {
    if names != [] {
      var rest, last := names[..|names| - 1], names[|names| - 1];
      SumChanges(p, e, rest, f);
      StreamSnoc(p, e, last);
      assert e.queue in names <==> e.queue in rest || e.queue == last;
    }
  }

  predicate AllNamed(h: seq<Event>) {
    forall i :: 0 <= i < |h| ==> h[i].queue != ""
  }

  predicate EachPaired(h: seq<Event>) {
    forall q :: q in Names(h) ==> Paired(Of(h, q))
  }

  lemma QueueSumSnoc(p: seq<Event>, e: Event, f: Field)
    requires e.queue != ""
    ensures QueueSum(p + [e], f) == QueueSum(p, f) + Delta(p, e, f)
  {
    var h, q := p + [e], e.queue;
    assert h[..|p|] == p;
    NamesDistinct(p);
    SumChanges(p, e, Names(p), f);
    if q !in Names(p) {
      NewQueueIsEmpty(p, q);
      StreamSnoc(p, e, q);
      assert Names(h)[..|Names(p)|] == Names(p);
    }
  }

  lemma {:induction false} OneQueueInSum(h: seq<Event>, names: seq<string>, q: string)
    requires q in names
    ensures SumOver(h, names, InFlight) >= Tally(Of(h, q)).inFlight
  {
    var rest, last := names[..|names| - 1], names[|names| - 1];
    if q in rest {
      OneQueueInSum(h, rest, q);
    } else {
      SumNonNegative(h, rest);
      assert q == last;
    }
  }

  lemma {:induction false} SumNonNegative(h: seq<Event>, names: seq<string>)
    ensures SumOver(h, names, InFlight) >= 0
  {
    if names != [] {
      SumNonNegative(h, names[..|names| - 1]);
    }
  }

  function KindDelta(kind: Kind, f: Field): int {
    match f
    case Received => if kind == Begin then 1 else 0
    case Succeeded => if kind == Success then 1 else 0
    case Failed => if kind == Failure then 1 else 0
    case InFlight => if kind == Begin then 1 else -1
  }

  lemma CountDelta(c: Counters, kind: Kind, at: real, f: Field)
    requires f == InFlight && kind != Begin ==> c.inFlight >= 1
    ensures Get(Count(c, kind, at), f) == Get(c, f) + KindDelta(kind, f)
  {
  }

  /** A paired end finds its own queue, and so the aggregate, with something in flight. */
  lemma PairedEndFindsWork(p: seq<Event>, e: Event)
    requires e.queue != "" && e.kind != Begin && EachPaired(p + [e])
    ensures e.queue in Names(p) && Tally(Of(p, e.queue)).inFlight >= 1
    ensures QueueSum(p, InFlight) >= 1
  {
    EachPairedPrefix(p, e);
    assert Of(p + [e], e.queue)[..|Of(p, e.queue)|] == Of(p, e.queue);
    PairedPrefix(Of(p + [e], e.queue));
    Conservation(Of(p, e.queue));
    if e.queue !in Names(p) {
      NewQueueIsEmpty(p, e.queue);
      assert false;
    }
    OneQueueInSum(p, Names(p), e.queue);
  }

  lemma {:induction false} FieldIsSum(h: seq<Event>, f: Field)
    requires AllNamed(h) && (f == InFlight ==> EachPaired(h))
    ensures Get(Tally(h), f) == QueueSum(h, f)
  {
    if h != [] {
      var p, e := h[..|h| - 1], h[|h| - 1];
      assert h == p + [e];
      FieldStep(p, e, f);
      FieldIsSum(p, f);
    }
  }

  lemma FieldStep(p: seq<Event>, e: Event, f: Field)
    requires e.queue != "" && (f == InFlight ==> EachPaired(p + [e]))
    ensures f == InFlight ==> EachPaired(p)
    ensures QueueSum(p + [e], f) == QueueSum(p, f) + KindDelta(e.kind, f)
    ensures Get(Tally(p), f) == QueueSum(p, f) ==> Get(Tally(p + [e]), f) == Get(Tally(p), f) + KindDelta(e.kind, f)
  {
    if f == InFlight {
      EachPairedPrefix(p, e);
      if e.kind != Begin {
        PairedEndFindsWork(p, e);
      }
    }
    QueueSumSnoc(p, e, f);
    TallySnoc(p, e);
    hide QueueSum, Tally, Count;
    CountDelta(Tally(Of(p, e.queue)), e.kind, e.at, f);
    if Get(Tally(p), f) == QueueSum(p, f) {
      CountDelta(Tally(p), e.kind, e.at, f);
    }
  }

  /** The aggregate counters are the sums over the queues; the in-flight count too, if each queue's ends are paired. */
  lemma AggregateIsSum(h: seq<Event>)
    requires AllNamed(h)
    ensures Tally(h).received == QueueSum(h, Received)
    ensures Tally(h).succeeded == QueueSum(h, Succeeded)
    ensures Tally(h).failed == QueueSum(h, Failed)
    ensures EachPaired(h) ==> Tally(h).inFlight == QueueSum(h, InFlight)
  {
    FieldIsSum(h, Received);
    FieldIsSum(h, Succeeded);
    FieldIsSum(h, Failed);
    if EachPaired(h) {
      FieldIsSum(h, InFlight);
    }
  }

  lemma EachPairedPrefix(p: seq<Event>, e: Event)
    requires e.queue != "" && EachPaired(p + [e])
    ensures EachPaired(p) && Paired(Of(p, e.queue)) && e.queue in Names(p + [e])
    ensures Of(p + [e], e.queue) == Of(p, e.queue) + [e]
  {
    var h := p + [e];
    assert h[..|p|] == p;
    forall q | q in Names(p) || q == e.queue
      ensures Paired(Of(p, q))
    {
      StreamSnoc(p, e, q);
      assert Paired(Of(h, q));
      if q == e.queue {
        assert Of(h, q)[..|Of(h, q)| - 1] == Of(p, q);
        PairedPrefix(Of(h, q));
      }
    }
    StreamSnoc(p, e, e.queue);
  }

  // ---- the verdict ----

  datatype Config = Config(maxIdle: real, maxSinceSuccess: real, poisonThreshold: int)

  predicate Backlogged(depth: Option<int>) {
    depth.Some? && depth.value > 0
  }

  /** None is OK; otherwise the category of the failure. */
  function Evaluate(config: Config, c: Counters, startedAt: real, depth: Option<int>, now: real): Option<Category> {
    if c.consecutiveFailures >= config.poisonThreshold then Some(PoisonLoop)
    else if c.lastReceivedAt.None? then
      if Backlogged(depth) && now - startedAt > config.maxIdle then Some(NotConsuming) else None
    else if now - c.lastReceivedAt.value > config.maxIdle then
      if Backlogged(depth) then Some(NotConsuming) else None
    else if c.lastSuccessAt.Some? then
      if now - c.lastSuccessAt.value > config.maxSinceSuccess && c.received > c.succeeded then Some(Stalled) else None
    else if c.received > 0 && now - startedAt > config.maxSinceSuccess then Some(Stalled)
    else None
  }

  /** Every failure this check reports is one a restart repairs. */
  lemma VerdictsAreSelfFaults(config: Config, c: Counters, startedAt: real, depth: Option<int>, now: real)
    ensures Evaluate(config, c, startedAt, depth, now).Some? ==>
              Evaluate(config, c, startedAt, depth, now).value in WEDGED_CATEGORIES
  {
  }

  // ---- the verdict, read off the history ----

  function NumberOf(h: seq<Event>, kind: Kind): nat {
    if h == [] then 0 else NumberOf(h[..|h| - 1], kind) + if h[|h| - 1].kind == kind then 1 else 0
  }

  /** When an event of this kind last happened, or when the worker started if none did. */
  function Since(h: seq<Event>, kind: Kind, startedAt: real): (t: real)
    ensures (forall i :: 0 <= i < |h| ==> h[i].kind != kind) ==> t == startedAt
    ensures forall i :: 0 <= i < |h| && h[i].kind == kind && (forall j :: i < j < |h| ==> h[j].kind != kind) ==> t == h[i].at
  {
    if h == [] then startedAt
    else if h[|h| - 1].kind == kind then h[|h| - 1].at
    else
      var p := h[..|h| - 1];
      assert forall i :: 0 <= i < |p| ==> p[i] == h[i];
      Since(p, kind, startedAt)
  }

  /** The last n handlings to end all failed. */
  predicate EndsInFailures(h: seq<Event>, n: nat)
    decreases |h|
  {
    n == 0
    || (h != [] && h[|h| - 1].kind != Success
        && EndsInFailures(h[..|h| - 1], if h[|h| - 1].kind == Failure then n - 1 else n))
  }

  lemma {:induction false} TallyCounts(h: seq<Event>, startedAt: real)
    ensures var c := Tally(h);
            && c.received == NumberOf(h, Begin) && c.succeeded == NumberOf(h, Success) && c.failed == NumberOf(h, Failure)
            && (c.lastReceivedAt.Some? <==> c.received > 0)
            && (c.lastSuccessAt.Some? <==> c.succeeded > 0)
            && (c.lastFailureAt.Some? <==> c.failed > 0)
            && Since(h, Begin, startedAt) == (if c.lastReceivedAt.Some? then c.lastReceivedAt.value else startedAt)
            && Since(h, Success, startedAt) == (if c.lastSuccessAt.Some? then c.lastSuccessAt.value else startedAt)
            && Since(h, Failure, startedAt) == (if c.lastFailureAt.Some? then c.lastFailureAt.value else startedAt)
  {
    if h != [] {
      TallyCounts(h[..|h| - 1], startedAt);
    }
  }

  lemma {:induction false} FailuresInARow(h: seq<Event>, n: nat)
    ensures Tally(h).consecutiveFailures >= n <==> EndsInFailures(h, n)
    decreases |h|
  {
    if h != [] && n > 0 {
      FailuresInARow(h[..|h| - 1], if h[|h| - 1].kind == Failure then n - 1 else n);
    }
  }

  /**
   * The whole verdict, from the history: a poison loop after enough failures in a row; otherwise not consuming when
   * there is a backlog and nothing came for too long; otherwise stalled when something did come lately, nothing
   * succeeded for too long and, after a first success, not everything received has succeeded. The two clocks start
   * with the worker.
   */
  lemma VerdictIff(config: Config, h: seq<Event>, startedAt: real, depth: Option<int>, now: real)
    ensures var v := Evaluate(config, Tally(h), startedAt, depth, now);
            var poisoned := config.poisonThreshold <= 0 || EndsInFailures(h, config.poisonThreshold);
            var silent := now - Since(h, Begin, startedAt) > config.maxIdle;
            var fruitless := now - Since(h, Success, startedAt) > config.maxSinceSuccess;
            && (v == Some(PoisonLoop) <==> poisoned)
            && (v == Some(NotConsuming) <==> !poisoned && silent && Backlogged(depth))
            && (v == Some(Stalled) <==> !poisoned && !silent && fruitless && NumberOf(h, Begin) > 0
                                        && (NumberOf(h, Success) > 0 ==> NumberOf(h, Begin) > NumberOf(h, Success)))
            && (v.None? || v.value in {PoisonLoop, NotConsuming, Stalled})
  {
    TallyCounts(h, startedAt);
    if config.poisonThreshold > 0 {
      FailuresInARow(h, config.poisonThreshold);
    }
    hide Tally, Since, NumberOf, EndsInFailures;
  }

  ghost predicate HealthyForever(config: Config, c: Counters, startedAt: real, depth: Option<int>, from: real) {
    forall now: real :: now >= from ==> Evaluate(config, c, startedAt, depth, now).None?
  }

  /**
   * A quiet queue after a success: OK at every later time exactly when nothing is unaccounted for,
   * or the idle rule takes over before the success is too old.
   */
  lemma QuietQueueIff(config: Config, c: Counters, startedAt: real, depth: Option<int>)
    requires c.lastReceivedAt.Some? && c.lastSuccessAt.Some? && c.lastReceivedAt.value <= c.lastSuccessAt.value
    requires c.consecutiveFailures < config.poisonThreshold && !Backlogged(depth)
    ensures HealthyForever(config, c, startedAt, depth, c.lastSuccessAt.value)
            <==> (c.received <= c.succeeded
                  || c.lastReceivedAt.value + config.maxIdle < c.lastSuccessAt.value
                  || c.lastReceivedAt.value + config.maxIdle - c.lastSuccessAt.value <= config.maxSinceSuccess)
  {
    var received, succeeded := c.lastReceivedAt.value, c.lastSuccessAt.value;
    var worst := received + config.maxIdle;
    if c.received > c.succeeded && worst >= succeeded && worst - succeeded > config.maxSinceSuccess {
      assert Evaluate(config, c, startedAt, depth, worst) == Some(Stalled);
    }
  }

  predicate Timely(h: seq<Event>) {
    forall i, j :: 0 <= i < j < |h| ==> h[i].at <= h[j].at
  }

  lemma {:induction false} LastTimes(h: seq<Event>)
    requires Timely(h) && Paired(h) && h != []
    ensures Tally(h).lastReceivedAt.Some? && Tally(h).lastReceivedAt.value <= h[|h| - 1].at
  {
    var p := h[..|h| - 1];
    PairedPrefix(h);
    if p != [] {
      LastTimes(p);
    } else {
      assert Balance(p) == 0;
    }
  }

  /** After any paired history that ends in a success, with the defaults' ordering, an empty queue is healthy for ever. */
  lemma QuietQueueStaysHealthy(config: Config, h: seq<Event>, startedAt: real, depth: Option<int>, now: real)
    requires h != [] && Timely(h) && Paired(h) && h[|h| - 1].kind == Success
    requires config.poisonThreshold >= 1 && config.maxIdle <= config.maxSinceSuccess
    requires !Backlogged(depth) && now >= h[|h| - 1].at
    ensures Evaluate(config, Tally(h), startedAt, depth, now) == None
  {
    LastTimes(h);
  }

  /** Depth is what tells a quiet queue from a stuck consumer: nothing else about the verdict differs. */
  lemma DepthDiscriminates(config: Config, h: seq<Event>, startedAt: real, depth: Option<int>, now: real)
    requires h != [] && Timely(h) && Paired(h)
    requires Tally(h).consecutiveFailures < config.poisonThreshold
    requires now - h[|h| - 1].at > config.maxIdle
    ensures Evaluate(config, Tally(h), startedAt, depth, now) == if Backlogged(depth) then Some(NotConsuming) else None
  {
    LastTimes(h);
  }

  /** With an idle limit above the success limit, one old failure turns an empty queue into a stall for a while. */
  lemma LongIdleLimitStalls()
    ensures var h := [Event(Begin, "q", 0.0), Event(Failure, "q", 0.0), Event(Begin, "q", 0.0), Event(Success, "q", 0.0)];
            Evaluate(Config(300.0, 120.0, 10), Tally(h), 0.0, Some(0), 200.0) == Some(Stalled)
  {
    var a, b, c, d := Event(Begin, "q", 0.0), Event(Failure, "q", 0.0), Event(Begin, "q", 0.0), Event(Success, "q", 0.0);
    var h := [a, b, c, d];
    assert h[..3] == [a, b, c] && [a, b, c][..2] == [a, b] && [a, b][..1] == [a] && [a][..0] == [];
    assert Tally([a]) == Count(ZERO, Begin, 0.0);
    assert Tally([a, b]) == Count(Tally([a]), Failure, 0.0);
    assert Tally([a, b, c]) == Count(Tally([a, b]), Begin, 0.0);
  }
}
