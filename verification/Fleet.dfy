/** The fleet board's entries: polled bodies, pushed views, and who may be forgotten. */
module Fleet {
  import opened Wrappers

  /** A health document; an unreachable worker has none, and an empty document counts as none. */
  datatype Body = Body(instance: string, status: string, empty: bool)

  /** A decoded push. */
  datatype View = View(service: string, instance: string, environment: Option<string>, status: string)

  datatype Source = Poll | Otlp | PollAndOtlp

  datatype Entry = Entry(
    url: string,
    at: real,
    pollAt: Option<real>,
    otlpAt: Option<real>,
    reachable: bool,
    error: Option<string>,
    body: Option<Body>,
    source: Source,
    environment: Option<string>)

  predicate HasBody(body: Option<Body>) {
    body.Some? && !body.value.empty
  }

  /** A timestamp as the source tests it: absent and zero are both false. */
  predicate IsTime(t: Option<real>) {
    t.Some? && t.value != 0.0
  }

  predicate Polled(e: Entry) {
    HasBody(e.body) && IsTime(e.pollAt)
  }

  function AsBody(v: View): Body {
    Body(v.instance, v.status, false)
  }

  function AfterUpdate(previous: Option<Entry>, url: string, body: Option<Body>, error: Option<string>, now: real): Entry {
    var pushed := if previous.Some? then previous.value.otlpAt else None;
    Entry(url, now, Some(now), pushed, error.None?, error, body,
          if IsTime(pushed) then PollAndOtlp else Poll,
          if previous.Some? then previous.value.environment else None)
  }

  const NEW_ENTRY := Entry("", 0.0, None, None, true, None, None, Otlp, None)

  function AfterPush(e: Entry, v: View, now: real): Entry {
    var warmed := e.(otlpAt := Some(now), at := now, environment := v.environment);
    if Polled(e) then warmed.(source := PollAndOtlp)
    else warmed.(source := Otlp, reachable := true, error := None, body := Some(AsBody(v)))
  }

  /** What the decoder can produce: an instance falls back to the service, and a view with neither is dropped. */
  predicate Decoded(v: View) {
    v.instance != ""
  }

  predicate MatchesInstance(e: Entry, instance: string) {
    instance != "" && e.body.Some? && !e.body.value.empty && e.body.value.instance == instance
  }

  /** Which entry a push belongs to: the first with that instance, else the service's, else its own. */
  function Identify(order: seq<string>, latest: map<string, Entry>, v: View): string {
    if order != [] && order[0] in latest && MatchesInstance(latest[order[0]], v.instance) then order[0]
    else if order == [] then
      if v.service != "" && v.service in latest then v.service
      else if v.instance != "" then v.instance else v.service
    else Identify(order[1..], latest, v)
  }

  predicate Expired(e: Entry, cutoff: real) {
    e.source == Otlp && (if e.otlpAt.Some? then e.otlpAt.value else 0.0) < cutoff
  }

  // ---- the board as a value ----

  datatype State = State(order: seq<string>, latest: map<string, Entry>)

  ghost predicate Listed(s: State) {
    forall n :: n in s.order <==> n in s.latest
  }

  datatype Event =
    | Update(name: string, url: string, body: Option<Body>, error: Option<string>, now: real)
    | Push(view: View, now: real)
    | Expire(now: real)

  function PutEntry(s: State, name: string, e: Entry): State {
    State(if name in s.latest then s.order else s.order + [name], s.latest[name := e])
  }

  function Keep(order: seq<string>, latest: map<string, Entry>, cutoff: real): seq<string> {
    if order == [] then []
    else Keep(order[..|order| - 1], latest, cutoff)
         + if order[|order| - 1] in latest && Expired(latest[order[|order| - 1]], cutoff) then [] else [order[|order| - 1]]
  }

  function Step(ttl: real, s: State, e: Event): State {
    match e
    case Update(name, url, body, error, now) =>
      PutEntry(s, name, AfterUpdate(if name in s.latest then Some(s.latest[name]) else None, url, body, error, now))
    case Push(view, now) =>
      var name := Identify(s.order, s.latest, view);
      PutEntry(s, name, AfterPush(if name in s.latest then s.latest[name] else NEW_ENTRY, view, now))
    case Expire(now) =>
      State(Keep(s.order, s.latest, now - ttl),
            map n | n in s.latest && !Expired(s.latest[n], now - ttl) :: s.latest[n])
  }

  function RunFrom(ttl: real, s: State, h: seq<Event>): State {
    if h == [] then s else Step(ttl, RunFrom(ttl, s, h[..|h| - 1]), h[|h| - 1])
  }

  class FleetBoard {
    const ttl: real
    var order: seq<string>
    var latest: map<string, Entry>

    function AsState(): State
      reads this
    {
      State(order, latest)
    }

    constructor (ttl: real)
      ensures this.ttl == ttl && AsState() == State([], map[]) && Listed(AsState())
    {
      this.ttl := ttl;
      order, latest := [], map[];
    }

    /** A poll's outcome: whatever it found, or did not find, replaces the body. */
    method Poll(name: string, url: string, body: Option<Body>, error: Option<string>, now: real)
      requires Listed(AsState())
      modifies this
      ensures Listed(AsState())
      ensures AsState() == Step(ttl, old(AsState()), Update(name, url, body, error, now))
    {
      var entry := if name in latest then latest[name] else NEW_ENTRY;
      entry := entry.(url := url, at := now, pollAt := Some(now));
      entry := entry.(reachable := error.None?, error := error, body := body);
      entry := entry.(source := if entry.otlpAt.Some? && entry.otlpAt.value != 0.0 then PollAndOtlp else Source.Poll);
      if name !in latest {
        order := order + [name];
      }
      latest := latest[name := entry];
    }

    /** One pushed view: a polled body wins over it, otherwise the view becomes the body. */
    method Ingest(view: View, now: real)
      requires Listed(AsState())
      modifies this
      ensures Listed(AsState())
      ensures AsState() == Step(ttl, old(AsState()), Push(view, now))
    {
      var name := FindEntry(view);
      var entry := if name in latest then latest[name] else NEW_ENTRY;
      var polled := name in latest && HasBody(entry.body) && IsTime(entry.pollAt);
      if name !in latest {
        order := order + [name];
      }
      entry := entry.(otlpAt := Some(now));
      entry := entry.(at := now);
      entry := entry.(source := if polled then PollAndOtlp else Otlp);
      entry := entry.(environment := view.environment);
      if !polled {
        entry := entry.(reachable := true, error := None);
        entry := entry.(body := Some(AsBody(view)));
      }
      latest := latest[name := entry];
    }

    method FindEntry(view: View) returns (name: string)
      requires Listed(AsState())
      ensures name == Identify(order, latest, view)
    {
      for i := 0 to |order|
        invariant Identify(order[i..], latest, view) == Identify(order, latest, view)
      {
        assert order[i..][1..] == order[i + 1..];
        if view.instance != "" && MatchesInstance(latest[order[i]], view.instance) {
          return order[i];
        }
      }
      return if view.service != "" && view.service in latest then view.service
             else if view.instance != "" then view.instance else view.service;
    }

    /** Forget pushed-only workers that have gone quiet. */
    method ExpireQuiet(now: real) returns (dropped: seq<string>)
      requires Listed(AsState())
      modifies this
      ensures Listed(AsState())
      ensures AsState() == Step(ttl, old(AsState()), Expire(now))
      ensures forall n :: n in dropped <==> n in old(latest) && Expired(old(latest)[n], now - ttl)
    {
      var cutoff := now - ttl;
      var kept;
      dropped, kept := Sweep(cutoff);
      StepKeepsListed(ttl, AsState(), Expire(now));
      hide Expired, Keep, Listed;
      order := kept;
      latest := map n | n in latest && !Expired(latest[n], cutoff) :: latest[n];
    }

    method Sweep(cutoff: real) returns (dropped: seq<string>, kept: seq<string>)
      requires Listed(AsState())
      ensures kept == Keep(order, latest, cutoff)
      ensures forall n :: n in dropped <==> n in latest && Expired(latest[n], cutoff)
    {
      hide Expired;
      dropped, kept := [], [];
      for i := 0 to |order|
        invariant kept == Keep(order[..i], latest, cutoff)
        invariant forall n :: n in dropped <==> n in order[..i] && Expired(latest[n], cutoff)
      {
        assert order[..i + 1][..i] == order[..i];
        assert order[..i + 1] == order[..i] + [order[i]];
        if Expired(latest[order[i]], cutoff) {
          dropped := dropped + [order[i]];
        } else {
          kept := kept + [order[i]];
        }
      }
      assert order[..|order|] == order;
    }
  }

  lemma {:induction false} KeepMeaning(order: seq<string>, latest: map<string, Entry>, cutoff: real)
    requires forall n :: n in order ==> n in latest
    ensures forall n :: n in Keep(order, latest, cutoff) <==> n in order && !Expired(latest[n], cutoff)
  {
    if order != [] {
      KeepMeaning(order[..|order| - 1], latest, cutoff);
    }
  }

  lemma StepKeepsListed(ttl: real, s: State, e: Event)
    requires Listed(s)
    ensures Listed(Step(ttl, s, e))
  {
    if e.Expire? {
      KeepMeaning(s.order, s.latest, e.now - ttl);
    }
  }

  // ---- what an entry says ----

  predicate ShowsInstance(e: Entry, instance: string) {
    HasBody(e.body) && e.body.value.instance == instance != ""
  }

  /** A push belongs to the first listed worker with its instance, else to its service if listed, else to itself. */
  lemma {:induction false} IdentifyMeaning(order: seq<string>, latest: map<string, Entry>, v: View, at: nat)
    requires at <= |order| && forall n :: n in order ==> n in latest
    requires forall i :: 0 <= i < at ==> !ShowsInstance(latest[order[i]], v.instance)
    requires at < |order| ==> ShowsInstance(latest[order[at]], v.instance)
    ensures Identify(order, latest, v) ==
            if at < |order| then order[at]
            else if v.service != "" && v.service in latest then v.service
            else if v.instance != "" then v.instance
            else v.service
  {
    if at > 0 {
      assert forall i :: 0 <= i < at - 1 ==> order[1..][i] == order[i + 1];
      IdentifyMeaning(order[1..], latest, v, at - 1);
    }
  }

  /** An expiry forgets exactly the workers known by push alone whose last push is more than `ttl` old. */
  lemma ExpiryForgetsIff(ttl: real, s: State, now: real, name: string)
    requires Listed(s) && name in s.latest && s.latest[name].otlpAt.Some?
    ensures name in Step(ttl, s, Expire(now)).latest
            <==> s.latest[name].source != Otlp || now - s.latest[name].otlpAt.value <= ttl
    ensures name in Step(ttl, s, Expire(now)).order <==> name in Step(ttl, s, Expire(now)).latest
  {
    KeepMeaning(s.order, s.latest, now - ttl);
  }

  /** No clock reading is zero, the one time the source cannot tell from none. */
  predicate Timed(h: seq<Event>) {
    forall i :: 0 <= i < |h| ==> h[i].now != 0.0
  }

  /** The source names what was seen of the worker, and a reachable worker has no error. */
  predicate Honest(e: Entry) {
    && (e.source == Poll <==> e.otlpAt.None?)
    && (e.source == PollAndOtlp ==> IsTime(e.pollAt) && IsTime(e.otlpAt))
    && (e.source == Otlp ==> IsTime(e.otlpAt) && HasBody(e.body))
    && (e.reachable <==> e.error.None?)
    && (e.at != 0.0 && (Some(e.at) == e.pollAt || Some(e.at) == e.otlpAt))
  }

  lemma UpdateIsHonest(previous: Option<Entry>, url: string, body: Option<Body>, error: Option<string>, now: real)
    requires now != 0.0 && (previous.Some? ==> Honest(previous.value))
    ensures Honest(AfterUpdate(previous, url, body, error, now))
    ensures AfterUpdate(previous, url, body, error, now).body == body
  {
  }

  lemma PushIsHonest(e: Entry, v: View, now: real)
    requires now != 0.0 && (Honest(e) || e == NEW_ENTRY)
    ensures Honest(AfterPush(e, v, now)) && AfterPush(e, v, now).environment == v.environment
    ensures AfterPush(e, v, now).body == if Polled(e) then e.body else Some(AsBody(v))
  {
  }

  /** Over every interleaving of polls, pushes and expiries, every entry on the board is honest about where it is from. */
  lemma {:induction false} EntriesAreHonest(ttl: real, h: seq<Event>, name: string)
    requires Timed(h) && name in RunFrom(ttl, State([], map[]), h).latest
    ensures Honest(RunFrom(ttl, State([], map[]), h).latest[name])
  {
    hide Honest, AfterUpdate, AfterPush, Identify, Keep;
    var p, e := h[..|h| - 1], h[|h| - 1];
    var s := RunFrom(ttl, State([], map[]), p);
    assert forall i :: 0 <= i < |p| ==> p[i] == h[i];
    if name in s.latest {
      EntriesAreHonest(ttl, p, name);
    }
    match e
    case Update(_, url, body, error, now) =>
      UpdateIsHonest(if name in s.latest then Some(s.latest[name]) else None, url, body, error, now);
    case Push(v, now) =>
      PushIsHonest(if name in s.latest then s.latest[name] else NEW_ENTRY, v, now);
    case Expire(_) =>
  }

  // ---- who stays on the board ----

  predicate Untouched(h: seq<Event>, name: string) {
    forall i :: 0 <= i < |h| ==> !(h[i].Update? && h[i].name == name)
  }

  /** A worker with a polled body keeps that body through any pushes, expiries and updates of others. */
  lemma {:induction false} PolledBodyPersists(ttl: real, s: State, h: seq<Event>, name: string)
    requires Listed(s) && name in s.latest && Polled(s.latest[name]) && s.latest[name].source != Otlp
    requires Untouched(h, name)
    ensures var t := RunFrom(ttl, s, h);
            && Listed(t) && name in t.latest
            && t.latest[name].body == s.latest[name].body && t.latest[name].pollAt == s.latest[name].pollAt
            && t.latest[name].source != Otlp
  {
    if h != [] {
      var p := h[..|h| - 1];
      PolledBodyPersists(ttl, s, p, name);
      StepKeepsListed(ttl, RunFrom(ttl, s, p), h[|h| - 1]);
    }
  }

  /**
   * Over every interleaving: a worker whose latest update carried a non-empty body keeps that body,
   * and stays on the board, until its next update.
   */
  lemma UpdatedWorkerStays(ttl: real, s: State, name: string, url: string, body: Option<Body>, error: Option<string>,
                           now: real, h: seq<Event>)
    requires Listed(s) && HasBody(body) && now != 0.0 && Untouched(h, name)
    ensures var t := RunFrom(ttl, Step(ttl, s, Update(name, url, body, error, now)), h);
            name in t.latest && t.latest[name].body == body
  {
    var u := Step(ttl, s, Update(name, url, body, error, now));
    StepKeepsListed(ttl, s, Update(name, url, body, error, now));
    PolledBodyPersists(ttl, u, h, name);
  }

  predicate AllDecoded(h: seq<Event>) {
    forall i :: 0 <= i < |h| && h[i].Push? ==> Decoded(h[i].view)
  }

  /** The worker is on the board after every run of other events. */
  ghost predicate StaysWhateverHappens(ttl: real, s: State, name: string) {
    forall h: seq<Event> :: Untouched(h, name) && AllDecoded(h) ==> name in RunFrom(ttl, s, h).latest
  }

  /** A push under the worker's own service name, with an instance no listed body carries, lands on the worker. */
  lemma {:induction false} UnknownInstanceFindsService(order: seq<string>, latest: map<string, Entry>, v: View)
    requires forall n :: n in latest ==> !MatchesInstance(latest[n], v.instance)
    requires v.service != "" && v.service in latest
    ensures Identify(order, latest, v) == v.service
  {
    if order != [] {
      UnknownInstanceFindsService(order[1..], latest, v);
    }
  }

  /** There is always an instance name that no listed body carries. */
  lemma {:induction false} LongerThanAll(latest: map<string, Entry>, names: set<string>) returns (length: nat)
    requires names <= latest.Keys
    ensures forall n :: n in names && latest[n].body.Some? ==> |latest[n].body.value.instance| < length
  {
    if names == {} {
      length := 1;
    } else {
      var n :| n in names;
      var rest := LongerThanAll(latest, names - {n});
      var own := if latest[n].body.Some? then |latest[n].body.value.instance| + 1 else 1;
      length := if own <= rest then rest else own;
      assert forall m :: m in names ==> m == n || m in names - {n};
    }
  }

  lemma FreshInstance(latest: map<string, Entry>) returns (instance: string)
    ensures instance != "" && forall n :: n in latest ==> !MatchesInstance(latest[n], instance)
  {
    var length := LongerThanAll(latest, latest.Keys);
    instance := seq(length + 1, _ => 'x');
  }

  /**
   * The board's promise that a polled worker which stops answering stays listed: true exactly when
   * its latest update carried a body. Without one, a single push turns it into an expirable entry.
   */
  lemma PolledWorkerStaysIff(ttl: real, s: State, name: string, url: string, body: Option<Body>, error: Option<string>, now: real)
    requires Listed(s) && name != "" && now != 0.0
    ensures StaysWhateverHappens(ttl, Step(ttl, s, Update(name, url, body, error, now)), name) <==> HasBody(body)
  {
    var u := Step(ttl, s, Update(name, url, body, error, now));
    StepKeepsListed(ttl, s, Update(name, url, body, error, now));
    if HasBody(body) {
      forall h: seq<Event> | Untouched(h, name) && AllDecoded(h)
        ensures name in RunFrom(ttl, u, h).latest
      {
        PolledBodyPersists(ttl, u, h, name);
      }
    } else {
      var instance := FreshInstance(u.latest);
      var push := Push(View(name, instance, None, "ok"), now);
      var expire := Expire(now + ttl + 1.0);
      PushThenExpireForgets(ttl, u, name, push, expire);
      assert Untouched([push, expire], name) && AllDecoded([push, expire]);
    }
  }

  lemma PushThenExpireForgets(ttl: real, u: State, name: string, push: Event, expire: Event)
    requires Listed(u) && name in u.latest && !Polled(u.latest[name]) && name != ""
    requires push.Push? && push.view.service == name && Decoded(push.view)
    requires forall n :: n in u.latest ==> !MatchesInstance(u.latest[n], push.view.instance)
    requires expire.Expire? && expire.now > push.now + ttl
    ensures name !in RunFrom(ttl, u, [push, expire]).latest
  {
    UnknownInstanceFindsService(u.order, u.latest, push.view);
    PushMakesExpirable(ttl, u, name, push);
    hide Step, Polled, MatchesInstance, Identify;
    TwoEvents(ttl, u, push, expire);
    ExpireForgets(ttl, Step(ttl, u, push), name, expire);
  }

  lemma TwoEvents(ttl: real, u: State, a: Event, b: Event)
    ensures RunFrom(ttl, u, [a, b]) == Step(ttl, Step(ttl, u, a), b)
  {
    hide Step;
    assert [a, b][..1] == [a] && [a][..0] == [];
    assert RunFrom(ttl, u, [a]) == Step(ttl, u, a);
  }

  lemma PushMakesExpirable(ttl: real, u: State, name: string, push: Event)
    requires name in u.latest && !Polled(u.latest[name])
    requires push.Push? && Identify(u.order, u.latest, push.view) == name
    ensures var t := Step(ttl, u, push);
            name in t.latest && t.latest[name].source == Otlp && t.latest[name].otlpAt == Some(push.now)
  {
  }

  lemma ExpireForgets(ttl: real, t: State, name: string, expire: Event)
    requires name in t.latest && t.latest[name].source == Otlp && t.latest[name].otlpAt.Some?
    requires expire.Expire? && expire.now > t.latest[name].otlpAt.value + ttl
    ensures name !in Step(ttl, t, expire).latest
  {
  }

  /**
   * A poll that brought no body and then two pushes: the body of the first push counts as polled, so the board shows
   * it through any further pushes and expiries, whatever they say, and never forgets the worker until its next poll.
   */
  lemma FailedPollFreezesFirstPush(ttl: real, s: State, name: string, first: View, second: View, t1: real, t2: real, h: seq<Event>)
    requires Listed(s) && name in s.latest && !HasBody(s.latest[name].body) && IsTime(s.latest[name].pollAt)
    requires Identify(s.order, s.latest, first) == name
    requires var u := Step(ttl, s, Push(first, t1)); Identify(u.order, u.latest, second) == name
    requires Untouched(h, name)
    ensures var t := RunFrom(ttl, Step(ttl, Step(ttl, s, Push(first, t1)), Push(second, t2)), h);
            name in t.latest && t.latest[name].body == Some(AsBody(first)) && t.latest[name].source != Otlp
  {
    var u := Step(ttl, s, Push(first, t1));
    var w := Step(ttl, u, Push(second, t2));
    StepKeepsListed(ttl, s, Push(first, t1));
    StepKeepsListed(ttl, u, Push(second, t2));
    PolledBodyPersists(ttl, w, h, name);
  }
}
