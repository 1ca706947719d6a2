/** The vocabulary of the package: statuses, error categories and the immutable result record. */
module Model {
  import opened Wrappers

  datatype Status = OK | Degraded | Failing | Unknown | Starting | Disabled

  datatype Readiness = Ready | DegradedReady | Unready | StartingUp

  datatype Liveness = Alive | Unalive

  datatype Evidence = Observed | Introspected | Probed | NoEvidence

  datatype Category =
    | Timeout | Slow | ConnectionRefused | ConnectionLost | ProtocolError
    | AuthFailed
    | ResourceMissing | ResourceLocked | ConfigDrift | DependencyVersion
    | PoolExhausted | ReadOnly
    | HeartbeatTimeout | BrokerAlarm | BrokerShutdown | NoConsumers
    | NotSubscribed | NotConsuming | CreditExhausted | Backlog
    | MemoryPressure | Loading | RoleChanged
    | Stalled | PoisonLoop
    | Stale | Internal | UnknownCategory

  // The faults a restart repairs: the only categories allowed to fail /live.
  const WEDGED_CATEGORIES: set<Category> :=
    {Stalled, NotConsuming, NotSubscribed, CreditExhausted, PoisonLoop}

  // UNKNOWN ranks with DEGRADED, below a confirmed failure.
  function Severity(s: Status): nat {
    match s
    case Disabled => 0
    case OK => 0
    case Starting => 1
    case Degraded => 2
    case Unknown => 2
    case Failing => 3
  }

  function ReadinessFromStatus(s: Status): Readiness {
    match s
    case OK => Ready
    case Disabled => Ready
    case Starting => StartingUp
    case Degraded => DegradedReady
    case Unknown => DegradedReady
    case Failing => Unready
  }

  /** One observation of one dependency; `checkedAt` is monotonic time. */
  datatype CheckResult = CheckResult(
    name: string,
    status: Status,
    checkedAt: real,
    wallClock: real,
    evidence: Evidence,
    latencyMs: Option<real>,
    category: Option<Category>,
    evidenceAgeMs: Option<real>,
    detail: Option<string>,
    observed: map<string, real>)

  predicate IsWedged(r: CheckResult) {
    r.category.Some? && r.category.value in WEDGED_CATEGORIES
  }

  /** A category that blames something other than this process. */
  predicate BlamesDependency(r: CheckResult) {
    r.category.Some? && r.category.value !in WEDGED_CATEGORIES
  }

  // ---- what a runner reports when a check gives no result of its own ----

  function TimeoutResult(name: string, now: real, wall: real, timeout: real): CheckResult {
    CheckResult(name, Failing, now, wall, Probed, Some(timeout * 1000.0), Some(Timeout), Some(0.0),
                Some("check exceeded its timeout"), map[])
  }

  function ErrorResult(name: string, now: real, wall: real, category: Category, detail: string): CheckResult {
    CheckResult(name, Unknown, now, wall, NoEvidence, None, Some(category), Some(0.0), Some(detail), map[])
  }
}
