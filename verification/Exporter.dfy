/** The telemetry exporter's bounded queue: newest wins, a flush stops at the first failed post. */
module Exporter {
  import opened Wrappers

  /** The queue together with everything ever offered, posted and dropped, by position of the offer. */
  datatype Trace<T> = Trace(
    capacity: int,     // no bound when not positive
    offers: seq<T>,
    queue: seq<T>,
    posts: seq<nat>,
    drops: seq<nat>)

  datatype Event<T> = Offer(item: T) | Post

  predicate Full<T>(t: Trace<T>) {
    t.capacity > 0 && |t.queue| >= t.capacity
  }

  /** The position of the oldest queued offer. */
  function Head<T>(t: Trace<T>): int {
    |t.offers| - |t.queue|
  }

  function OfferStep<T>(t: Trace<T>, item: T): Trace<T> {
    if Full(t) && t.queue != [] && Head(t) >= 0 then
      t.(offers := t.offers + [item], queue := t.queue[1..] + [item], drops := t.drops + [Head(t)])
    else t.(offers := t.offers + [item], queue := t.queue + [item])
  }

  /** One post attempt takes the oldest item off the queue, whether or not it arrives. */
  function PostStep<T>(t: Trace<T>): Trace<T> {
    if t.queue == [] || Head(t) < 0 then t
    else t.(queue := t.queue[1..], posts := t.posts + [Head(t)])
  }

  function Step<T>(t: Trace<T>, e: Event<T>): Trace<T> {
    match e
    case Offer(item) => OfferStep(t, item)
    case Post => PostStep(t)
  }

  function Run<T>(capacity: int, h: seq<Event<T>>): Trace<T> {
    if h == [] then Trace(capacity, [], [], [], []) else Step(Run(capacity, h[..|h| - 1]), h[|h| - 1])
  }

  predicate Ascending(s: seq<nat>, below: int) {
    && (forall i, j :: 0 <= i < j < |s| ==> s[i] < s[j])
    && (forall i :: 0 <= i < |s| ==> s[i] < below)
  }

  ghost predicate Consistent<T>(t: Trace<T>) {
    && 0 <= Head(t)
    && t.queue == t.offers[Head(t)..]
    && |t.posts| + |t.drops| == Head(t)
    && Ascending(t.posts, Head(t)) && Ascending(t.drops, Head(t))
    && (forall i :: 0 <= i < Head(t) ==> (i in t.posts) != (i in t.drops))
    && (forall i :: i in t.drops ==> i < |t.offers| - t.capacity)
    && (if t.capacity > 0 then |t.queue| <= t.capacity else t.drops == [])
  }

  lemma EmptyQueue<T>(capacity: int)
    ensures Run<T>(capacity, []) == Trace(capacity, [], [], [], [])
    ensures Consistent(Run<T>(capacity, []))
  {
  }

  lemma OfferKeepsConsistent<T>(t: Trace<T>, item: T)
    requires Consistent(t)
    ensures Consistent(OfferStep(t, item))
  {
    var t' := OfferStep(t, item);
    assert t'.queue == t'.offers[Head(t')..];
  }

  lemma PostKeepsConsistent<T>(t: Trace<T>)
    requires Consistent(t)
    ensures Consistent(PostStep(t)) && Head(t) >= 0
  {
  }

  /**
   * Over every interleaving of offers and post attempts: offered = attempted + dropped + queued, each offer
   * in exactly one of the three; the queue is the most recent run of offers, in order; attempts are a
   * duplicate-free subsequence of the offers; and none of the newest `capacity` offers is ever dropped.
   */
  lemma {:induction false} QueueConservation<T>(capacity: int, h: seq<Event<T>>)
    ensures var t := Run(capacity, h);
            && Consistent(t)
            && t.capacity == capacity
            && |t.offers| == |t.posts| + |t.drops| + |t.queue|
            && t.queue == t.offers[|t.offers| - |t.queue|..]
  {
    if h != [] {
      QueueConservation(capacity, h[..|h| - 1]);
      match h[|h| - 1]
      case Offer(item) => OfferKeepsConsistent(Run(capacity, h[..|h| - 1]), item);
      case Post => PostKeepsConsistent(Run(capacity, h[..|h| - 1]));
    }
  }

  /** The payload offered last is always either queued or already handed to the network. */
  lemma NewestSurvives<T>(capacity: int, h: seq<Event<T>>, i: nat)
    requires i < |Run(capacity, h).offers|
    requires i >= |Run(capacity, h).offers| - (if capacity > 0 then capacity else |Run(capacity, h).offers|)
    ensures i in Run(capacity, h).posts || (i >= Head(Run(capacity, h))
            && Run(capacity, h).queue[i - Head(Run(capacity, h))] == Run(capacity, h).offers[i])
  {
    QueueConservation(capacity, h);
  }

  // ---- a flush ----

  /** Post until the queue is empty or a post fails; `link[k]` is the outcome of the k-th post. */
  function FlushRun<T>(t: Trace<T>, link: seq<bool>): Trace<T>
    requires |link| >= |t.queue|
    decreases |t.queue|
  {
    if t.queue == [] || Head(t) < 0 then t
    else if !link[0] then PostStep(t)
    else FlushRun(PostStep(t), link[1..])
  }

  /** A flush empties the queue over a good link, and gives up exactly one item per dead link. */
  lemma {:induction false} FlushOutcome<T>(t: Trace<T>, link: seq<bool>, k: nat)
    requires Consistent(t) && |link| >= |t.queue| >= k
    requires forall i :: 0 <= i < k ==> link[i]
    requires k == |t.queue| || !link[k]
    ensures var attempts := if k == |t.queue| then k else k + 1;
            && FlushRun(t, link).queue == t.queue[attempts..]
            && FlushRun(t, link).posts == t.posts + Numbers(Head(t), attempts)
            && FlushRun(t, link).drops == t.drops && FlushRun(t, link).offers == t.offers
    decreases k
  {
    hide Numbers;
    if k == 0 {
      FlushStops(t, link);
    } else {
      PostKeepsConsistent(t);
      hide Consistent;
      var attempts := if k == |t.queue| then k else k + 1;
      FlushOutcome(PostStep(t), link[1..], k - 1);
      NumbersCons(Head(t), attempts);
      assert t.queue[1..][attempts - 1..] == t.queue[attempts..];
      assert t.posts + [Head(t)] + Numbers(Head(t) + 1, attempts - 1) == t.posts + ([Head(t)] + Numbers(Head(t) + 1, attempts - 1));
    }
  }

  /** Nothing to post, or the first post fails. */
  lemma FlushStops<T>(t: Trace<T>, link: seq<bool>)
    requires Consistent(t) && |link| >= |t.queue| && (t.queue == [] || !link[0])
    ensures var attempts := if t.queue == [] then 0 else 1;
            && FlushRun(t, link).queue == t.queue[attempts..]
            && FlushRun(t, link).posts == t.posts + Numbers(Head(t), attempts)
            && FlushRun(t, link).drops == t.drops && FlushRun(t, link).offers == t.offers
  {
    assert Head(t) >= 0;
    hide Consistent, Numbers;
    NumbersCons(Head(t), 1);
    NumbersNone(Head(t));
    NumbersNone(Head(t) + 1);
    assert t.posts + [] == t.posts;
  }

  /** The n numbers from `first` on. */
  function Numbers(first: nat, n: nat): (s: seq<nat>)
    ensures |s| == n
  {
    seq(n, i => first + i)
  }

  lemma NumbersCons(first: nat, n: nat)
    requires n > 0
    ensures Numbers(first, n) == [first] + Numbers(first + 1, n - 1)
  {
  }

  lemma NumbersNone(first: nat)
    ensures Numbers(first, 0) == []
  {
  }

  const MAX_PENDING := 256

  function Newest<E>(s: seq<E>, n: nat): seq<E> {
    if |s| <= n then s else s[|s| - n..]
  }

  class OTLPExporter<T, E> {
    const capacity: int
    var queue: seq<T>
    var dropped: nat
    var exported: nat
    var failed: nat
    var pending: seq<E>
    ghost var offers: seq<T>
    ghost var posts: seq<nat>
    ghost var drops: seq<nat>
    ghost var emitted: seq<E>   // since the last drain

    ghost function View(): Trace<T>
      reads this
    {
      Trace(capacity, offers, queue, posts, drops)
    }

    ghost predicate Valid()
      reads this
    {
      ValidQueue() && ValidEvents()
    }

    ghost predicate ValidQueue()
      reads this`queue, this`offers, this`posts, this`drops, this`dropped, this`exported, this`failed
    {
      && Consistent(Trace(capacity, offers, queue, posts, drops))
      && dropped == |drops|
      && exported + failed == |posts|
    }

    ghost predicate ValidEvents()
      reads this`pending, this`emitted
    {
      pending == Newest(emitted, MAX_PENDING)
    }

    constructor (maxQueue: int)
      ensures Valid() && capacity == maxQueue && View() == Run(maxQueue, []) && pending == []
    {
      capacity := maxQueue;
      queue, dropped, exported, failed, pending := [], 0, 0, 0, [];
      offers, posts, drops, emitted := [], [], [], [];
      new;
      EmptyQueue<T>(maxQueue);
      hide Consistent, Run;
    }

    /** Enqueue, dropping the oldest item when full. The second attempt to enqueue cannot find the queue full. */
    method Enqueue(item: T)
      requires ValidQueue()
      modifies this`queue, this`dropped, this`offers, this`drops
      ensures ValidQueue() && View() == OfferStep(old(View()), item)
      ensures |queue| <= old(|queue|) + 1
    {
      OfferKeepsConsistent(View(), item);
      ghost var after := OfferStep(View(), item);
      hide Consistent;
      offers := offers + [item];
      if !(capacity > 0 && |queue| >= capacity) {
        queue := queue + [item];
        assert View() == after;
        return;
      }
      drops := drops + [|offers| - 1 - |queue|];
      queue := queue[1..];
      dropped := dropped + 1;
      if capacity > 0 && |queue| >= capacity {
        assert false;
      } else {
        queue := queue + [item];
      }
      assert View() == after;
    }

    method Flush(link: seq<bool>)
      requires ValidQueue() && |link| >= |queue|
      modifies this`queue, this`exported, this`failed, this`posts
      ensures ValidQueue() && View() == FlushRun(old(View()), link)
      ensures exported + failed - old(exported + failed) == old(|queue|) - |queue|
      ensures failed <= old(failed) + 1 && (failed > old(failed) || queue == [])
    {
      hide Consistent;
      var k := 0;
      while queue != []
        invariant ValidQueue() && k + |queue| == old(|queue|) && k <= |link|
        invariant FlushRun(View(), link[k..]) == FlushRun(old(View()), link)
        invariant failed == old(failed) && exported == old(exported) + k
        decreases |queue|
      {
        PostKeepsConsistent(View());
        posts := posts + [|offers| - |queue|];
        queue := queue[1..];
        if !link[k] {
          failed := failed + 1;
          return;
        }
        exported := exported + 1;
        k := k + 1;
      }
    }

    /** Event sink: keeps the newest 256 events since the last drain. */
    method CollectEvent(event: E)
      requires ValidEvents()
      modifies this`pending, this`emitted
      ensures ValidEvents() && emitted == old(emitted) + [event]
    {
      if |pending| >= 256 {
        pending := pending[1..];
      }
      pending := pending + [event];
      emitted := emitted + [event];
    }

    method DrainEvents() returns (events: seq<E>)
      requires ValidEvents()
      modifies this`pending, this`emitted
      ensures ValidEvents() && emitted == [] && pending == []
      ensures events == old(pending) == Newest(old(emitted), MAX_PENDING)
    {
      events := pending;
      pending, emitted := [], [];
    }

    /** One export cycle: metrics, then the drained events if any, then flush. */
    method Cycle(metrics: T, logs: seq<E> -> T, exportLogs: bool, link: seq<bool>)
      requires Valid() && |link| >= |queue| + 2
      modifies this
      ensures Valid()
      ensures var sampled := OfferStep(old(View()), metrics);
              View() == FlushRun(if exportLogs && old(pending) != [] then OfferStep(sampled, logs(old(pending))) else sampled, link)
      ensures queue == [] || failed == old(failed) + 1
      ensures exportLogs ==> pending == []
    {
      hide Consistent, OfferStep, FlushRun, Newest;
      Enqueue(metrics);
      var events := [];
      if exportLogs {
        events := DrainEvents();
      }
      if events != [] {
        Enqueue(logs(events));
      }
      Flush(link);
    }
  }
}
