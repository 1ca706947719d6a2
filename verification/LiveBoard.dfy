/** The worker's /live and the fleet board judge the same snapshot: when do they agree? */
module LiveBoard {
  import opened Wrappers
  import opened Model
  import opened Machine
  import opened Monitor
  import Board

  /** The category names a worker puts on the wire. */
  function CategoryName(c: Category): string {
    match c
    case Timeout => "timeout"
    case Slow => "slow"
    case ConnectionRefused => "connection_refused"
    case ConnectionLost => "connection_lost"
    case ProtocolError => "protocol_error"
    case AuthFailed => "auth_failed"
    case ResourceMissing => "resource_missing"
    case ResourceLocked => "resource_locked"
    case ConfigDrift => "config_drift"
    case DependencyVersion => "dependency_version"
    case PoolExhausted => "pool_exhausted"
    case ReadOnly => "read_only"
    case HeartbeatTimeout => "heartbeat_timeout"
    case BrokerAlarm => "broker_alarm"
    case BrokerShutdown => "broker_shutdown"
    case NoConsumers => "no_consumers"
    case NotSubscribed => "not_subscribed"
    case NotConsuming => "not_consuming"
    case CreditExhausted => "credit_exhausted"
    case Backlog => "backlog"
    case MemoryPressure => "memory_pressure"
    case Loading => "loading"
    case RoleChanged => "role_changed"
    case Stalled => "stalled"
    case PoisonLoop => "poison_loop"
    case Stale => "stale"
    case Internal => "internal"
    case UnknownCategory => "unknown"
  }

  function StatusName(s: Status): string {
    match s
    case OK => "ok"
    case Degraded => "degraded"
    case Failing => "failing"
    case Unknown => "unknown"
    case Starting => "starting"
    case Disabled => "disabled"
  }

  /** The board's copied list of wedged categories is the worker's own, and no category has an empty name. */
  lemma WedgedNamesAgree(c: Category)
    ensures CategoryName(c) in Board.WEDGED <==> c in WEDGED_CATEGORIES
    ensures CategoryName(c) != ""
  {
    var name := CategoryName(c);
    assert |name| == |CategoryName(c)|;
    match c
    case Timeout => assert name[0] == 't';
    case Slow => assert |name| == 4;
    case ConnectionRefused => assert name[1] == 'o' && name[0] == 'c';
    case ConnectionLost => assert name[1] == 'o' && name[0] == 'c';
    case ProtocolError => assert name[1] == 'r';
    case AuthFailed => assert name[0] == 'a';
    case ResourceMissing => assert name[0] == 'r';
    case ResourceLocked => assert name[0] == 'r';
    case ConfigDrift => assert name[1] == 'o' && name[0] == 'c';
    case DependencyVersion => assert name[0] == 'd';
    case PoolExhausted => assert name[2] == 'o';
    case ReadOnly => assert name[0] == 'r';
    case HeartbeatTimeout => assert name[0] == 'h';
    case BrokerAlarm => assert name[0] == 'b';
    case BrokerShutdown => assert name[0] == 'b';
    case NoConsumers => assert name[2] == '_';
    case Backlog => assert name[0] == 'b';
    case MemoryPressure => assert name[0] == 'm';
    case Loading => assert name[0] == 'l';
    case RoleChanged => assert name[0] == 'r';
    case Stale => assert |name| == 5;
    case Internal => assert name[0] == 'i';
    case UnknownCategory => assert name[0] == 'u';
    case _ =>
  }

  function CheckOf(c: Core, n: string, now: real): Board.CheckBody
    requires c.specs.Keys == c.states.Keys && c.results.Keys <= c.states.Keys && n in c.results
  {
    var r := WithStatus(c.results[n], ReadAt(c.specs[n], c.states[n], now));
    Board.CheckBody(n, StatusName(r.status),
                    if r.category.Some? then Some(CategoryName(r.category.value)) else None,
                    c.specs[n].critical)
  }

  /** The checks of the health document, in whatever order the results were first stored. */
  predicate Documents(checks: seq<Board.CheckBody>, c: Core, now: real) {
    && c.specs.Keys == c.states.Keys && c.results.Keys <= c.states.Keys
    && (forall n :: n in c.results ==> CheckOf(c, n, now) in checks)
    && (forall b :: b in checks ==> b.name in c.results && b == CheckOf(c, b.name, now))
  }

  lemma CheckOfMeaning(live: bool, c: Core, n: string, now: real)
    requires Current(live, c) && n in c.results
    ensures var read, r, b := ReadAt(c.specs[n], c.states[n], now), c.results[n], CheckOf(c, n, now);
            && (Board.ShowsWedge(b) <==> IsWedged(r) && (read != OK || r.status == OK))
            && (Board.Explains(b) <==> read == Failing && BlamesDependency(r))
            && (read == Failing ==> StoredFailing(c, n))
  {
    if c.results[n].category.Some? {
      WedgedNamesAgree(c.results[n].category.value);
    }
    var read := ReadAt(c.specs[n], c.states[n], now);
    assert StatusName(read) == "failing" <==> read == Failing by {
      assert |StatusName(Failing)| == 7 && |StatusName(OK)| == 2 && |StatusName(Disabled)| == 8 && |StatusName(Starting)| == 8;
      assert StatusName(Unknown)[0] == 'u' && StatusName(Degraded)[0] == 'd' && StatusName(Failing)[0] == 'f';
    }
  }

  /**
   * Whenever /live fails and not for lag, in any reachable state and at any instant, the board says a restart
   * would help: aging results, switched-off checks and other failures cannot make the two disagree this way.
   */
  lemma LiveFaultShowsOnBoard(live: bool, h: seq<Event>, now: real, beat: real, thresholdMs: real, checks: seq<Board.CheckBody>)
    requires !Lags(now, beat, thresholdMs) && LiveStatus(Run(live, h).faults, now, beat, thresholdMs) == Failing
    requires Documents(checks, Run(live, h), now)
    ensures Board.RestartWouldHelp(checks)
  {
    LiveFailsIff(live, h, now, beat, thresholdMs);
    SelfInflictedShows(live, h, now, checks);
    hide Run, SelfInflicted, Board.RestartWouldHelp;
  }

  lemma SelfInflictedShows(live: bool, h: seq<Event>, now: real, checks: seq<Board.CheckBody>)
    requires SelfInflicted(Run(live, h)) && Documents(checks, Run(live, h), now)
    ensures Board.RestartWouldHelp(checks)
  {
    var c := Run(live, h);
    RunsStayCurrent(live, h);
    hide Run, IsWedged, ReadAt, CheckOf, Board.ShowsWedge, Board.Explains;
    var n :| n in c.results && StoredFailing(c, n) && IsWedged(c.results[n]);
    CheckOfMeaning(live, c, n, now);
    NotReadOk(c, n, now);
    assert CheckOf(c, n, now) in checks && Board.ShowsWedge(CheckOf(c, n, now));
    forall b | b in checks
      ensures !Board.Explains(b)
    {
      CheckOfMeaning(live, c, b.name, now);
    }
  }

  lemma NotReadOk(c: Core, n: string, now: real)
    requires c.specs.Keys == c.states.Keys && StoredFailing(c, n)
    ensures ReadAt(c.specs[n], c.states[n], now) != OK
  {
  }

  /** A wedged category the board can see: of a check not reading OK, or stored with an OK result. */
  predicate ShownWedge(c: Core, now: real)
    requires c.specs.Keys == c.states.Keys && c.results.Keys <= c.states.Keys
  {
    exists n :: n in c.results && IsWedged(c.results[n])
                && (ReadAt(c.specs[n], c.states[n], now) != OK || c.results[n].status == OK)
  }

  /** A dependency fault the board can see: its check reads FAILING at this instant. */
  predicate ShownExplanation(c: Core, now: real)
    requires c.specs.Keys == c.states.Keys && c.results.Keys <= c.states.Keys
  {
    exists n :: n in c.results && ReadAt(c.specs[n], c.states[n], now) == Failing && BlamesDependency(c.results[n])
  }

  /** In any reachable state, at any instant: the board goes by what is read, aged results and switched-off checks included. */
  lemma BoardMeaning(live: bool, h: seq<Event>, now: real, checks: seq<Board.CheckBody>)
    requires Documents(checks, Run(live, h), now)
    ensures Board.RestartWouldHelp(checks)
            <==> ShownWedge(Run(live, h), now) && !ShownExplanation(Run(live, h), now)
  {
    var c := Run(live, h);
    RunsStayCurrent(live, h);
    hide ReadAt, CheckOf, Board.ShowsWedge, Board.Explains, Run;
    forall n | n in c.results
      ensures var read, b := ReadAt(c.specs[n], c.states[n], now), CheckOf(c, n, now);
              && b in checks
              && (Board.ShowsWedge(b) <==> IsWedged(c.results[n]) && (read != OK || c.results[n].status == OK))
              && (Board.Explains(b) <==> read == Failing && BlamesDependency(c.results[n]))
    {
      CheckOfMeaning(live, c, n, now);
    }
  }

  /**
   * The board and /live agree on whether a restart would help: with a lagging loop exactly when the board sees a
   * wedge and no explanation, and otherwise exactly when the failure is self-inflicted by the stored statuses and
   * counts, or the board still sees an explanation, or it sees no wedge at all. For every run, instant and setting.
   */
  lemma BoardAgreesIff(live: bool, h: seq<Event>, now: real, beat: real, thresholdMs: real, checks: seq<Board.CheckBody>)
    requires Documents(checks, Run(live, h), now)
    ensures var c := Run(live, h);
            (Board.RestartWouldHelp(checks) <==> LiveStatus(c.faults, now, beat, thresholdMs) == Failing)
            <==> if Lags(now, beat, thresholdMs) then ShownWedge(c, now) && !ShownExplanation(c, now)
                 else (live && SelfInflicted(c)) || ShownExplanation(c, now) || !ShownWedge(c, now)
  {
    BoardMeaning(live, h, now, checks);
    LiveFailsIff(live, h, now, beat, thresholdMs);
    if SelfInflicted(Run(live, h)) {
      SelfInflictedShows(live, h, now, checks);
    }
    hide Run, ShownWedge, ShownExplanation, SelfInflicted, Board.RestartWouldHelp, LiveStatus;
  }

  /**
   * An explanation that has aged out: the stored statuses keep /live OK in spite of the wedge, while the board,
   * which reads them, no longer sees the dependency failing and says a restart would help.
   */
  lemma AgedExplanation(live: bool, h: seq<Event>, now: real, beat: real, thresholdMs: real,
                        checks: seq<Board.CheckBody>, wedge: string)
    requires Documents(checks, Run(live, h), now) && !Lags(now, beat, thresholdMs)
    requires DependencyExplains(Run(live, h)) && !ShownExplanation(Run(live, h), now)
    requires StoredFailing(Run(live, h), wedge) && IsWedged(Run(live, h).results[wedge])
    ensures LiveStatus(Run(live, h).faults, now, beat, thresholdMs) == OK && Board.RestartWouldHelp(checks)
  {
    var c := Run(live, h);
    LiveFailsIff(live, h, now, beat, thresholdMs);
    BoardMeaning(live, h, now, checks);
    NotReadOk(c, wedge, now);
    hide Run, Board.RestartWouldHelp, ShownExplanation, ReadAt, LiveStatus;
    assert ShownWedge(c, now);
  }

  /** When the last of these results has aged past its TTL. */
  lemma {:induction false} AllAgeOut(c: Core, names: set<string>) returns (horizon: real)
    requires c.specs.Keys == c.states.Keys && names <= c.states.Keys
    ensures forall n, now: real :: n in names && now > horizon ==> ReadAt(c.specs[n], c.states[n], now) in {Disabled, Unknown}
  {
    if names == {} {
      horizon := 0.0;
    } else {
      var n :| n in names;
      var rest := AllAgeOut(c, names - {n});
      var st := c.states[n];
      var own := if st.lastResult.None? then 0.0 else st.lastResult.value.checkedAt + Ttl(c.specs[n], st.backoffStep);
      horizon := if rest <= own then own else rest;
      forall m, now: real | m in names && now > horizon
        ensures ReadAt(c.specs[m], c.states[m], now) in {Disabled, Unknown}
      {
        if m != n {
          assert m in names - {n};
        }
      }
    }
  }

  /**
   * If nothing more arrives, every explained wedge ends that way: from some instant on, whenever the loop keeps its
   * cadence, /live is OK and the board asks for a restart.
   */
  lemma EveryExplanationAges(live: bool, h: seq<Event>, wedge: string) returns (horizon: real)
    requires DependencyExplains(Run(live, h))
    requires StoredFailing(Run(live, h), wedge) && IsWedged(Run(live, h).results[wedge])
    ensures forall now: real, beat: real, thresholdMs: real, checks ::
              now > horizon && !Lags(now, beat, thresholdMs) && Documents(checks, Run(live, h), now) ==>
                LiveStatus(Run(live, h).faults, now, beat, thresholdMs) == OK && Board.RestartWouldHelp(checks)
  {
    var c := Run(live, h);
    RunsStayCurrent(live, h);
    horizon := AllAgeOut(c, c.states.Keys);
    hide Run, Board.RestartWouldHelp, ReadAt, LiveStatus, Lags;
    forall now: real, beat: real, thresholdMs: real, checks |
      now > horizon && !Lags(now, beat, thresholdMs) && Documents(checks, c, now)
      ensures LiveStatus(c.faults, now, beat, thresholdMs) == OK && Board.RestartWouldHelp(checks)
    {
      assert !ShownExplanation(c, now);
      AgedExplanation(live, h, now, beat, thresholdMs, checks, wedge);
    }
  }
}
