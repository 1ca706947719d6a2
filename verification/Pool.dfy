/** The bounded worker pool behind the thread runner: what one hung check does to all the others. */
module Pool {
  import opened Wrappers
  import P = RunnerProtocol

  /** Futures are numbered in the order they were submitted, and started in that order. */
  datatype State = State(owners: seq<string>, started: nat, finished: set<nat>)

  const EMPTY := State([], 0, {})

  datatype Event = Submit(check: string) | Start | Finish(future: nat)

  /** Unfinished futures below n: with n the number started, the busy workers. */
  function Busy(p: State, n: nat): nat {
    if n == 0 then 0 else Busy(p, n - 1) + if n - 1 in p.finished then 0 else 1
  }

  /** A free worker takes the oldest waiting future. */
  function Step(workers: nat, p: State, e: Event): State {
    match e
    case Submit(check) => p.(owners := p.owners + [check])
    case Start => if p.started < |p.owners| && Busy(p, p.started) < workers then p.(started := p.started + 1) else p
    case Finish(k) => if k < p.started && k !in p.finished then p.(finished := p.finished + {k}) else p
  }

  function Run(workers: nat, h: seq<Event>): State {
    if h == [] then EMPTY else Step(workers, Run(workers, h[..|h| - 1]), h[|h| - 1])
  }

  /** Futures of one check among the first n. */
  function Owned(p: State, check: string, n: nat): nat
    requires n <= |p.owners|
  {
    if n == 0 then 0 else Owned(p, check, n - 1) + if p.owners[n - 1] == check then 1 else 0
  }

  predicate Sound(p: State) {
    p.started <= |p.owners| && forall k :: k in p.finished ==> k < p.started
  }

  /** No evaluation of the check ever returns. */
  predicate Hangs(p: State, check: string) {
    forall k :: k in p.finished && k < |p.owners| ==> p.owners[k] != check
  }

  lemma {:induction false} RunIsSound(workers: nat, h: seq<Event>)
    ensures Sound(Run(workers, h))
  {
    if h != [] {
      RunIsSound(workers, h[..|h| - 1]);
      hide Busy;
    }
  }

  /** Every started future of a hung check occupies a worker. */
  lemma {:induction false} HungAreBusy(p: State, check: string, n: nat)
    requires n <= |p.owners| && Hangs(p, check)
    ensures Owned(p, check, n) <= Busy(p, n)
  {
    if n > 0 {
      HungAreBusy(p, check, n - 1);
    }
  }

  lemma {:induction false} BusyAfterFinish(p: State, k: nat, n: nat)
    ensures Busy(p.(finished := p.finished + {k}), n) <= Busy(p, n)
  {
    if n > 0 {
      BusyAfterFinish(p, k, n - 1);
    }
  }

  lemma {:induction false} BusyIgnoresOwners(p: State, owners: seq<string>, started: nat, n: nat)
    ensures Busy(State(owners, started, p.finished), n) == Busy(p, n)
  {
    if n > 0 {
      BusyIgnoresOwners(p, owners, started, n - 1);
    }
  }

  lemma {:induction false} OwnedOfPrefix(p: State, q: State, check: string, n: nat)
    requires n <= |p.owners| <= |q.owners| && p.owners == q.owners[..|p.owners|]
    ensures Owned(q, check, n) == Owned(p, check, n)
  {
    if n > 0 {
      OwnedOfPrefix(p, q, check, n - 1);
    }
  }

  lemma {:induction false} OwnedGrows(p: State, check: string, m: nat, n: nat)
    requires m <= n <= |p.owners|
    ensures Owned(p, check, m) <= Owned(p, check, n)
  {
    if m < n {
      OwnedGrows(p, check, m, n - 1);
    }
  }

  /** Never more workers than the pool has. */
  lemma {:induction false} NeverOverfull(workers: nat, h: seq<Event>)
    ensures Busy(Run(workers, h), Run(workers, h).started) <= workers
  {
    if h != [] {
      var p := Run(workers, h[..|h| - 1]);
      NeverOverfull(workers, h[..|h| - 1]);
      match h[|h| - 1]
      case Submit(check) => BusyIgnoresOwners(p, p.owners + [check], p.started, p.started);
      case Start => BusyIgnoresOwners(p, p.owners, p.started + 1, p.started);
      case Finish(k) => BusyAfterFinish(p, k, p.started);
    }
  }

  lemma HungPrefix(workers: nat, h: seq<Event>, check: string)
    requires h != [] && Hangs(Run(workers, h), check)
    ensures Hangs(Run(workers, h[..|h| - 1]), check)
  {
    var p, q := Run(workers, h[..|h| - 1]), Run(workers, h);
    RunIsSound(workers, h[..|h| - 1]);
    hide Busy;
    forall k | k in p.finished && k < |p.owners| ensures p.owners[k] != check {
      assert k in q.finished && q.owners[k] == p.owners[k];
    }
  }

  /** A started future has fewer than `workers` futures of a hung check ahead of it. */
  lemma {:induction false} StartedAheadOfHung(workers: nat, h: seq<Event>, check: string, k: nat)
    requires Hangs(Run(workers, h), check) && k < Run(workers, h).started
    ensures k < |Run(workers, h).owners| && Owned(Run(workers, h), check, k) < workers
  {
    RunIsSound(workers, h);
    var p, q := Run(workers, h[..|h| - 1]), Run(workers, h);
    RunIsSound(workers, h[..|h| - 1]);
    HungPrefix(workers, h, check);
    assert q.owners[..|p.owners|] == p.owners;
    if k < p.started {
      StartedAheadOfHung(workers, h[..|h| - 1], check, k);
    } else {
      HungAreBusy(p, check, k);
    }
    hide Run, Busy;
    OwnedOfPrefix(p, q, check, k);
  }

  /**
   * One black-holed dependency can stop every other check: once a check that never returns has `workers` futures
   * submitted, no future submitted after them, of whatever check, ever starts.
   */
  lemma NoLaterFutureStarts(workers: nat, h: seq<Event>, check: string, k: nat)
    requires Hangs(Run(workers, h), check) && k < |Run(workers, h).owners|
    requires Owned(Run(workers, h), check, k) >= workers
    ensures k >= Run(workers, h).started && k !in Run(workers, h).finished
  {
    RunIsSound(workers, h);
    if k < Run(workers, h).started {
      StartedAheadOfHung(workers, h, check, k);
    }
  }

  lemma {:induction false} BusyIsHung(p: State, check: string, n: nat)
    requires n <= |p.owners| && Hangs(p, check)
    requires forall k :: 0 <= k < n && p.owners[k] != check ==> k in p.finished
    ensures Busy(p, n) == Owned(p, check, n)
  {
    if n > 0 {
      BusyIsHung(p, check, n - 1);
    }
  }

  /** With every other evaluation back, the next future can start exactly while fewer than `workers` hang. */
  lemma NextStartsIff(workers: nat, h: seq<Event>, check: string)
    requires var p := Run(workers, h);
             && Hangs(p, check) && p.started < |p.owners|
             && forall k :: 0 <= k < p.started && p.owners[k] != check ==> k in p.finished
    ensures var p := Run(workers, h);
            Step(workers, p, Start).started == p.started + 1 <==> Owned(p, check, p.started) < workers
  {
    BusyIsHung(Run(workers, h), check, Run(workers, h).started);
  }

  lemma {:induction false} OwnersOnlyGrow(workers: nat, a: seq<Event>, b: seq<Event>)
    ensures Run(workers, a).owners <= Run(workers, a + b).owners
    decreases |b|
  {
    if b == [] {
      assert a + b == a;
    } else {
      assert (a + b)[..|a + b| - 1] == a + b[..|b| - 1];
      OwnersOnlyGrow(workers, a, b[..|b| - 1]);
      hide Busy;
    }
  }

  lemma {:induction false} TimeoutsWereSubmitted(s: P.Slot, n: nat)
    requires n <= |s.log|
    ensures P.Timeouts(s, n) <= n
  {
    if n > 0 {
      TimeoutsWereSubmitted(s, n - 1);
    }
  }

  /**
   * After as many timeouts of one hung check as the pool has workers, nothing submitted from then on ever starts.
   * The check's futures in the pool are the ones its slot in the runner submitted.
   */
  lemma TimeoutsStarveThePool(workers: nat, check: string, slot: seq<P.Event>, timeout: real,
                              before: seq<Event>, after: seq<Event>, k: nat)
    requires P.Timeouts(P.Run(slot, timeout), |P.Run(slot, timeout).log|) >= workers
    requires Owned(Run(workers, before), check, |Run(workers, before).owners|) == P.Run(slot, timeout).submitted
    requires Hangs(Run(workers, before + after), check)
    requires |Run(workers, before).owners| <= k < |Run(workers, before + after).owners|
    ensures k >= Run(workers, before + after).started && k !in Run(workers, before + after).finished
  {
    var s, p, q := P.Run(slot, timeout), Run(workers, before), Run(workers, before + after);
    P.FatesAreFinal(P.EMPTY, slot, timeout);
    TimeoutsWereSubmitted(s, |s.log|);
    OwnersOnlyGrow(workers, before, after);
    hide Run, P.Run, P.RunFrom, Hangs;
    OwnedOfPrefix(p, q, check, |p.owners|);
    OwnedGrows(q, check, |p.owners|, k);
    NoLaterFutureStarts(workers, before + after, check, k);
  }
}
