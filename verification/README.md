# worker_health: a verified model

`worker_health` decides when a message worker is alive, ready, degraded or due for a restart. This project
models its interacting state machines in Dafny and proves what they keep over every run.

- `Model`, `Machine`, `History`, `Flapping`, `Backoff`, `ProbeConfig`: one check's state machine. `Machine` holds
  the class that updates counters, status and due time in place, proved against step functions. `History` shows
  that those counters and the status are a declarative function of the events so far. `Flapping` bounds
  transitions. `Backoff` and `ProbeConfig` are about scheduling, the read-time TTL and what validation of a probe
  definition buys.
- `RunnerProtocol`, `ThreadRunner`, `AsyncioRunner`, `RunnerComparison`, `RunnerTiming`, `Pool`: dispatch, in-flight
  futures, timeouts and late results, as a per-check protocol, as each scheduler's loops, with the two runners
  compared, on one clock with the state machine, and behind a bounded pool.
- `Aggregate`, `Monitor`, `BootLatch`, `Restart`, `Supervision`: the worker's verdicts, self-fault liveness, the boot
  latch, draining, the latching restart policy, and what the policy sees of the monitor.
- `Ordering`, `Board`, `LiveBoard`, `Fleet`: the fleet dashboard's grouping, its agreement with `/live`, and the
  life of a worker on the board.
- `Processing`, `TrafficEvidence`, `Exporter`: message counters, the traffic-first evidence ladder with the probe
  flag, and the drop-oldest telemetry queue.
- `YamlText`, `YamlParser`, `YamlPrinter`, `YamlRoundTrip`, `YamlDocument`, `YamlDocumentRoundTrip`, `YamlEntries`,
  `YamlLoss`, `YamlSilences`: the indentation parser (a subset of section 8.2, Block Collection Styles, of YAML 1.2.2), a
  canonical printer that serves as the specification of the round trip, the text level, words, keys and refused lines, the
  lines the parser never reads, and the input outside the subset that it takes in without an error.

Conventions. Clock values are reals; a jitter draw is a parameter in [0, 1] and the completion of a check is a
step of the environment. A body under a lock is one atomic step. Where the code iterates over a set or a dictionary
the model takes any order. DISABLED and STARTING are never stored: they are computed on read, as in the code.
Theorems about backoff and flapping take thresholds of at least 1, which validation of a probe definition
demands. Nothing in the package calls `mark_unknown`; histories include it anyway.

Where the code and its own text differ, the model follows the code, and a lemma says exactly when the text holds:

- `src/worker_health/runners/thread_.py:3` promises that a hung check costs one pool slot. After each timeout the
  check is dispatched again, so it leaves one more submitted future behind with every timeout
  (`HungCheckParksSlots`, and `HungCheckIsLawful` with every dispatch when due); what is conserved is
  `SlotConservation`. Lines 4-5 promise that one black-holed dependency cannot stop every other check. Once as many of
  its futures are submitted as the pool has workers, nothing submitted later ever starts (`NoLaterFutureStarts`,
  `TimeoutsStarveThePool`); `NextStartsIff` is the exact bound.
- The comment at `src/worker_health/runners/thread_.py:149-151` speaks of the late result. The late future was
  already forgotten; what is dropped is the next fresh result (`DroppedIffAfterTimeout`, `FatesAreFinal`), and a check that
  succeeds every second time is FAILING for ever under one runner and OK for ever under the other
  (`AlternatingCheckDiverges`, and `AlternatingCheckIsLawful` with every dispatch when due).
- Recovery is said to need `success_threshold` OKs. That holds of a direct move (`DirectRecovery`); an UNKNOWN
  result in between skips it (`UnknownSkipsConfirmation`).
- Backoff is said to change frequency and never the reported status. `StableIffCovered` gives the exact condition on
  a registered check, `HealthyFreshnessIff` and `BackoffFreshnessIff` restate it on a probe definition, and
  `FailingReadAgesOut`, `UnboundedJitterAgesOut` and `TinyIntervalAgesOut` are about definitions that pass validation
  and violate it.
- The derived timeout is said to lie strictly inside the interval; it does for every accepted interval but
  0.001 (`DerivedTimeoutInsideInterval`).
- The restart policy is said never to turn a dependency outage into restarts. `OutageNeverRestarts` is what holds. A
  wedge that a failing dependency explains still triggers: `WorkerRestartsIff` says exactly which runs restart the
  worker, and `SilentRestartIff` that `/live` was silent at a restart exactly when the wedge was explained;
  `OutageRestartsWorker` is one such run.
- The dashboard says a polled worker is never expired. That holds exactly for workers whose last poll
  carried a non-empty body (`PolledWorkerStaysIff`). It also says that a polled body wins over a push: after a poll
  without a body the first pushed one counts as polled and stays, whatever later pushes say (`FailedPollFreezesFirstPush`).
- The board and `/live` are said never to disagree. `BoardAgreesIff` is the exact condition, at every instant of every
  run, with `/live` as `LiveFailsIff` pins it; `LiveFaultShowsOnBoard` is the direction that always holds. An explanation that has aged out makes them part
  (`AgedExplanation`), and every explained wedge comes to that if nothing more arrives (`EveryExplanationAges`).
- The YAML loader is said to reject loudly what it does not support. It rejects anchors, aliases, merge keys, block marks
  and tabs (`FeatureRefusedIff`, `TabRefusedIff`, `ErrorRefusesDocument`). It does not reject: under-indented continuation
  lines (`SilentLoss` says exactly which it skips); flow mappings with content, loaded as text (`FlowMappingIsText`,
  `FlowMappingUnderKey`) or torn apart behind a dash (`FlowMappingOnDash`); multiple documents, loaded as one
  (`DocumentsMerge`, `TwoDocumentsLoadAsOne`); a dash line such as `- "a": "b"`, loaded as one string exactly when it
  begins and ends with the same quote (`QuotedPairIsTextIff`, `PairLooksQuotedIff`); an inline list with a comma inside
  an item (`InlineListReadsBackIff`); a key with a colon inside its quotes (`KeyReadsBackIff`).
- A quiet queue is said to be healthy for ever. `QuietQueueIff` is the exact condition, `LongIdleLimitStalls` a
  configuration outside it.

## Model

| member | source | states |
|---|---|---|
| Machine.StateMachine.Add | src/worker_health/core/machine.py:80-82 | a registration replaces the spec, keeps an existing state and adds a name to the order once |
| Machine.StateMachine.SetEnabled | src/worker_health/core/machine.py:94-107 | enabling clears failures and backoff and makes the check due now; disabling touches only the flag |
| Machine.StateMachine.Transition | src/worker_health/core/machine.py:111-144 | the four-way branch on a result's status updates exactly the counters, the effective status and the last-OK stamp |
| Machine.StateMachine.Apply | src/worker_health/core/machine.py:111-162 | one result moves one check's whole state as the step function says, its due time by the interval of the new backoff step, and leaves every other check alone |
| Machine.StateMachine.MarkUnknown | src/worker_health/core/machine.py:190-198 | the status becomes UNKNOWN, the failure count and backoff step stay |
| History.HistoryRefinement | src/worker_health/core/machine.py:94-198 | over every run, both counters, the effective status, the backoff step and the transition count equal declarative functions of the history |
| History.TrailingOksAreConsecutive | src/worker_health/core/machine.py:129-137 | the OK counter is at least n exactly when the history ends in n OK results with only dispatches and switches between them |
| History.DirectRecovery | src/worker_health/core/machine.py:134-137 | a check that is FAILING or DEGRADED moves to OK exactly on the OK that completes `success_threshold` consecutive ones |
| History.UnknownSkipsConfirmation | src/worker_health/core/machine.py:134-148 | after an UNKNOWN result one OK suffices, and the failure count survives the gap |
| History.StampsMatch | src/worker_health/core/machine.py:111-126 | over every run the stored result is the last one applied and the last-OK stamp the time of the last OK result |
| History.EnteredAtLastChange | src/worker_health/core/machine.py:150-152 | at every point of every run the status is dated by the last event that changed it |
| Flapping.FlapInvariant | src/worker_health/core/machine.py:111-152 | over OK/FAILING results, the transition count and the unfinished counters are paid for by disjoint blocks of results |
| Flapping.FlapBound | src/worker_health/core/machine.py:111-152 | T transitions need at least `Least(T)` results, which for T >= 1 is floor((T-1)/2) x (failure_threshold + success_threshold) + 1, and failure_threshold more for even T |
| Flapping.FlapBoundIsTight | src/worker_health/core/machine.py:111-152 | for every T some run of OK and FAILING results makes T transitions with exactly that many, so the bound is the minimum |
| Backoff.FirstInterval | src/worker_health/core/machine.py:180-188 | a healthy check waits its interval; the first wait of an outage is the smaller of `backoff_initial` and `backoff_max` |
| Backoff.IntervalTurn | src/worker_health/core/machine.py:180-188 | each further wait is the multiplier times the one before, capped at `backoff_max` |
| Backoff.IntervalIsCappedWait | src/worker_health/core/machine.py:164-188 | at every step the power formula gives the wait of that recurrence |
| Backoff.JitterRange | src/worker_health/core/machine.py:164-178 | the due time lies that wait times (1 + jitter (2 draw - 1)) after the clock reading, with the jitter of the phase the check is in |
| Backoff.IntervalMonotone | src/worker_health/core/machine.py:180-188 | from step 1 on, the interval never decreases with the step and never exceeds `backoff_max` |
| Backoff.OutageShape | src/worker_health/core/machine.py:154-188 | along any run without an OK or a re-enable the step stays in 0..12 and never falls, and the interval never shrinks |
| Backoff.OutageSpacing | src/worker_health/core/machine.py:154-188 | along any outage of evaluations made when due, dispatches and UNKNOWN, DEGRADED and unconfirmed results included, k confirmed failures advance the step by k up to 12 and take at least (1 - jitter) times the sum of their waits, each given by the recurrence from `backoff_initial` |
| Backoff.FailuresSpacing | src/worker_health/core/machine.py:154-188 | the same for failures in an unbroken row, whatever the jitter |
| Backoff.StableIfCovered | src/worker_health/core/machine.py:202-233 | if the TTL covers wait, spread and timeout, every read up to the next due time returns the stored status |
| Backoff.BackoffIsAlwaysCovered | src/worker_health/core/machine.py:217-233 | while backing off with jitter at most 1, the widened TTL always covers |
| Backoff.BackoffKeepsStatus | src/worker_health/core/machine.py:202-233 | after any run that ends backing off, no read before the next due time ages out to UNKNOWN |
| Backoff.StableIffCovered | src/worker_health/core/machine.py:164-233 | reads stay stable for every permitted result and draw exactly when the TTL covers the worst wait |
| ProbeConfig.Validate | src/worker_health/probes/spec.py:86-191 | a definition is accepted exactly when it meets the stated limits, and then registers with its derived timeout and TTL |
| ProbeConfig.DerivedTimeoutInsideInterval | src/worker_health/probes/spec.py:94-101 | a derived timeout is below the interval, except at 0.001 where they are equal |
| ProbeConfig.DerivedValues | src/worker_health/probes/spec.py:94-191 | a derived timeout is 2 s, or half of an interval below 4 s to the millisecond; a derived TTL is two intervals and the timeout to the millisecond |
| ProbeConfig.AcceptedIsSane | src/worker_health/probes/spec.py:103-136 | an accepted definition meets every precondition of the backoff theorems |
| ProbeConfig.HealthyFreshnessIff | src/worker_health/probes/spec.py:190-191 | a healthy check never ages out between evaluations exactly when 1.2 intervals plus the timeout fit in the TTL |
| ProbeConfig.BackoffFreshnessIff | src/worker_health/probes/spec.py:59-136 | a check backing off never ages out exactly when the jitter is at most 1, the wait is zero, or the TTL still fits |
| ProbeConfig.DerivedTtlKeepsReadsFresh | src/worker_health/probes/spec.py:190-191 | with a derived TTL and jitter at most 1, every read up to the next due time returns the stored status, healthy or backing off |
| ProbeConfig.TinyIntervalAgesOut | src/worker_health/probes/spec.py:190-191 | an accepted interval so small that the rounded TTL does not cover it |
| ProbeConfig.UnboundedJitterAgesOut | src/worker_health/probes/spec.py:59-136 | with an accepted jitter of 2, a check at the last backoff step does not keep its status until its due time |
| ProbeConfig.FailingReadAgesOut | src/worker_health/probes/spec.py:59-136 | with that jitter a check confirmed FAILING reads UNKNOWN before it falls due again |
| ProbeConfig.OutageReachesTheLastStep | src/worker_health/core/machine.py:154-188 | fourteen failures in a row bring any check so defined to that step |
| RunnerProtocol.FatesAreFinal | src/worker_health/runners/thread_.py:78-155 | over every run each future is tracked or has exactly one fate, fates never change, and an abandoned future's result is never applied |
| RunnerProtocol.SlotConservation | src/worker_health/runners/thread_.py:78-155 | unfinished futures = the tracked one if still running + reported timeouts - abandoned futures that have returned |
| RunnerProtocol.NothingOverdue | src/worker_health/runners/thread_.py:117-135 | after a collect, no tracked running future is older than its timeout |
| RunnerProtocol.TimedOutIff | src/worker_health/runners/thread_.py:117-135 | a collect reports a timeout exactly when the future is still running more than its timeout after its submission |
| RunnerProtocol.HungCheckParksSlots | src/worker_health/runners/thread_.py:129-131 | for every k, on a clock that never goes back, one check that never returns can have k submitted futures outstanding, none tracked |
| RunnerTiming.HungCheckIsLawful | src/worker_health/runners/thread_.py:78-131 | the same with every dispatch at or after the due time the state machine set; the check is FAILING from the threshold on |
| Pool.NoLaterFutureStarts | src/worker_health/runners/thread_.py:3-5 | over every run of a pool of W workers, once a check that never returns has W futures submitted, no later future of any check starts |
| Pool.TimeoutsStarveThePool | src/worker_health/runners/thread_.py:23-28 | so W reported timeouts of one hung check starve everything submitted after them |
| Pool.NextStartsIff | src/worker_health/runners/thread_.py:23-28 | with all other evaluations back, the next future can start exactly while fewer than W of the started ones hang |
| RunnerProtocol.DroppedIffAfterTimeout | src/worker_health/runners/thread_.py:148-154 | a collected result is dropped exactly when the verdict before it was a timeout |
| RunnerProtocol.LostIffDispatchedOverDone | src/worker_health/runners/thread_.py:78-95 | a result is lost exactly when the check falls due between finishing and being collected |
| RunnerProtocol.NothingLostInOneCycle | src/worker_health/runners/thread_.py:68-71 | collecting right before dispatching loses nothing unless the future finishes between the two |
| RunnerComparison.ThreadReports | src/worker_health/runners/thread_.py:117-155 | the thread runner reports every evaluation except the first timely one after each unbroken group of timeouts |
| RunnerComparison.RunnersCompared | src/worker_health/runners/asyncio_.py:116-151 | on the same evaluations the thread runner reports what asyncio reports, minus those |
| RunnerComparison.AlternatingCheckDiverges | src/worker_health/runners/asyncio_.py:116-151 | on a clock that never goes back, a check that succeeds every second time ends OK under asyncio and FAILING, never once OK, under the thread runner |
| RunnerTiming.AlternatingCheckIsLawful | src/worker_health/runners/thread_.py:78-155 | the thread runner's side with every dispatch at or after the due time the state machine set |
| ThreadRunner.DueChecks | src/worker_health/runners/base.py:20-25 | exactly the enabled checks whose due time has come, each once |
| ThreadRunner.SwitchedOnIsDue | src/worker_health/core/machine.py:94-107 | a check switched on is due at once whatever backoff it was in; switched off it is never due |
| ThreadRunner.PushedDueIff | src/worker_health/runners/thread_.py:78-95 | a dispatched check falls due again exactly when a whole interval has passed |
| ThreadRunner.Runner.Dispatch | src/worker_health/runners/thread_.py:78-95 | every due check that is not running is submitted and pushed one interval on, checks registered since the last cycle included; all others keep slot and due time |
| ThreadRunner.Runner.Submit | src/worker_health/runners/thread_.py:78-95 | one submission, one check touched |
| ThreadRunner.Runner.Collect | src/worker_health/runners/thread_.py:117-155 | every slot takes its protocol step, and the monitor is handed exactly the timeouts and applied results |
| AsyncioRunner.Runner.Dispatch | src/worker_health/runners/asyncio_.py:105-114 | all due checks are running afterwards, and exactly those that were not running before were pushed one interval on |
| AsyncioRunner.Runner.RunOne | src/worker_health/runners/asyncio_.py:116-151 | whatever ends an evaluation, the check leaves the in-flight set and one result is reported: its own, an error or a timeout |
| AsyncioRunner.ReportMeaning | src/worker_health/runners/base.py:39-55 | a check that raised is reported UNKNOWN with the category of its exception, one that overran FAILING as a timeout |
| RunnerComparison.EveryStartIsReported | src/worker_health/runners/asyncio_.py:105-151 | under asyncio every evaluation started is reported exactly once or is still running |
| Aggregate.AggregateChecks | src/worker_health/core/aggregate.py:9-48 | the fold over registration order computes the order-free verdict |
| Aggregate.WorstMeaning | src/worker_health/core/aggregate.py:28-48 | the folded worst status is FAILING iff a listed critical check reads FAILING or UNKNOWN, and OK iff every enabled one reads OK |
| Aggregate.VerdictMeaning | src/worker_health/core/aggregate.py:28-48 | outside grace: FAILING iff an enabled critical check reads FAILING or UNKNOWN, OK iff every enabled check reads OK, else DEGRADED |
| Aggregate.NonCriticalNeverDecides | src/worker_health/core/aggregate.py:28-48 | changing, adding or removing non-critical checks never creates or clears FAILING |
| Aggregate.BootComplete | src/worker_health/core/aggregate.py:51-56 | true iff every enabled critical check has been OK once |
| Aggregate.StartingIff | src/worker_health/core/aggregate.py:24-27 | STARTING iff boot is not latched, the deadline has not passed and some enabled critical check has never been OK |
| Aggregate.ReadinessFits | src/worker_health/core/model.py:123-130 | the projected aggregate is STARTING iff alive, in grace and an enabled critical check does not read OK; UNREADY iff not alive, or not so and an enabled critical check reads FAILING or UNKNOWN; DEGRADED iff alive, neither, and some enabled check does not read OK; READY iff alive and all read OK |
| Aggregate.OneReadinessFits | src/worker_health/core/aggregate.py:59-69 | these four conditions exclude one another |
| Aggregate.Reasons | src/worker_health/core/aggregate.py:72-99 | loop lag first iff not alive, then exactly one reason per impaired enabled check, in registration order, no reason twice |
| Aggregate.ReasonIff | src/worker_health/core/aggregate.py:81-99 | which reason a check gives, with its criticality and last category: failing, degraded, never evaluated, or no current measurement |
| Aggregate.ReasonsDecideReadiness | src/worker_health/core/aggregate.py:59-99 | outside the grace an alive worker is UNREADY exactly when one of its reasons is a critical check that is failing, was never evaluated or has no current measurement |
| Aggregate.NoReasonIffReady | src/worker_health/core/aggregate.py:59-99 | no reason is given iff the worker is READY |
| Monitor.RunsStayCurrent | src/worker_health/monitor.py:276-365 | in every reachable state the stored fault set is the one the stored statuses and results call for |
| Monitor.SelfFaultsAreOwnFaults | src/worker_health/monitor.py:333-365 | a self-fault is a stored FAILING check with a wedged category, and then no stored FAILING check blames anything else |
| Monitor.NoWedgeNoFault | src/worker_health/monitor.py:333-365 | runs without a wedged category never name a self-fault |
| Monitor.LiveFailsIff | src/worker_health/monitor.py:333-388 | over every run `/live` is FAILING exactly when the loop lags or, with the switch on, some stored FAILING check has a wedged category and none has another; otherwise OK |
| Monitor.OnlyLagWithoutWedge | src/worker_health/monitor.py:367-388 | in such runs `/live` fails exactly when the loop lags |
| Monitor.UnconfirmedRecoveryStopsExplaining | src/worker_health/monitor.py:358-363 | one unconfirmed OK of the failing dependency uncovers the self-faults it had outranked |
| Monitor.TimeoutSilencesSelfFaults | src/worker_health/runners/base.py:39-45 | a timed-out check is never a self-fault, and once its timeout confirms FAILING no check is |
| Monitor.RaisedIsUnknown | src/worker_health/runners/base.py:48-55 | a check that raised is UNKNOWN and no self-fault, whatever its exception was classified as, and its failure count stays |
| Monitor.ProjectionMeaning | src/worker_health/monitor.py:697-708 | a projected result has the status its readers see and loses its category and detail exactly when that hides a complaint |
| Monitor.HealthMonitor.Apply | src/worker_health/monitor.py:276-298 | one result is stored, applied and followed by a recomputed fault set |
| Monitor.HealthMonitor.RecomputeSelfFaults | src/worker_health/monitor.py:333-365 | the loop computes the declarative fault set |
| Monitor.HealthMonitor.Start | src/worker_health/monitor.py:215-229 | the clock, the deadline and the boot latch are reset, results are kept |
| Monitor.HealthMonitor.AggregateStatus | src/worker_health/monitor.py:419-433 | the latch only closes, and STARTING comes out iff it was open, in grace, with a critical check never OK |
| Monitor.HealthMonitor.Readiness | src/worker_health/monitor.py:405-408 | `/ready` gives the one readiness its checks call for, with "alive" spelled out as no lag and no self-inflicted failure; UNREADY while draining |
| Monitor.HealthMonitor.Tick | src/worker_health/monitor.py:304-329 | the liveness of LiveFailsIff and the readiness the checks call for are noted, draining aside, and a change is announced iff there was a different one before |
| Monitor.HealthMonitor.BeginShutdown | src/worker_health/monitor.py:231-251 | readiness drains, liveness is untouched, a second call changes nothing |
| Monitor.HealthMonitor.TakeSnapshot | src/worker_health/monitor.py:435-474 | status, liveness and results of one instant: liveness OK exactly without lag and self-inflicted failure, readiness the one the checks call for, each result projected to the status a reader sees |
| Monitor.SnapshotAgreesWithReadiness | src/worker_health/core/model.py:270-285 | the snapshot and `/ready` give the same readiness at one instant, draining or not, and it is the one the checks call for |
| Monitor.TickIgnoresDraining | src/worker_health/monitor.py:323 | what a shutdown records differs from what `/ready` then serves exactly when the worker is alive and not FAILING |
| Monitor.EveryTickIgnoresDraining | src/worker_health/monitor.py:304-329 | the same of every tick while draining |
| BootLatch.LatchIff | src/worker_health/monitor.py:419-433 | over every run, the latch is closed exactly when some read since the last start found every critical check's OK on record |
| BootLatch.AnswerIsStartingIff | src/worker_health/monitor.py:419-433 | a read returns STARTING exactly in grace, before that, with an enabled critical check never OK |
| BootLatch.NeverStartingAgain | src/worker_health/monitor.py:215-229 | once the latch is closed, no read is STARTING again until `start` runs, whatever is applied, registered or switched |
| Restart.RestartPolicy.Observe | src/worker_health/policy/restart.py:107-164 | one observation moves streak, window, last fire and latch as the step function says, and fires iff it says so |
| Restart.WindowBound | src/worker_health/policy/restart.py:126-142 | over every run with a monotone clock any hour holds at most `max_per_hour` fires |
| Restart.CooldownHolds | src/worker_health/policy/restart.py:126-148 | consecutive fires are at least `cooldown` apart although the two clock reads may differ |
| Restart.FiresAreEarned | src/worker_health/policy/restart.py:107-130 | each fire follows `after_cycles` consecutive hits, with uptime at least `min_uptime` |
| Restart.LatchedForGood | src/worker_health/policy/restart.py:107-142 | once latched, no observation changes anything or fires |
| Restart.LatchedIff | src/worker_health/policy/restart.py:133-142 | the latch is closed exactly when an earned and cooled restart was refused for want of hourly budget |
| Restart.FiresIff | src/worker_health/policy/restart.py:107-164 | each observation fires exactly when enabled, earned, cooled, within budget and nothing was refused before, all read off the earlier observations and fires |
| Restart.NeverFiresIff | src/worker_health/policy/restart.py:107-164 | whatever the clock does, nothing fires exactly when switched off, without budget, or never earned |
| Restart.ClosedWindowHoldsOneMore | src/worker_health/policy/restart.py:133-134 | the window is half-open: two fires exactly an hour apart fit a budget of one |
| Restart.DefaultTriggersExcludeDependencies | src/worker_health/policy/restart.py:26-46 | the default triggers are disjoint from dependency faults |
| Supervision.TriggerIff | src/worker_health/policy/restart.py:120-124 | a snapshot triggers exactly on a check that reads FAILING to its readers and was last reported with a trigger category |
| Supervision.OutageNeverRestarts | src/worker_health/policy/restart.py:120-124 | over every run and any clock, failures outside the trigger list never fire a restart |
| Supervision.PolicyIgnoresExplanations | src/worker_health/monitor.py:333-365 | when the default policy sees a trigger, `/live` names no self-fault exactly when some confirmed failure explains it |
| Supervision.WorkerRestartsIff | src/worker_health/policy/restart.py:107-164 | the worker is restarted exactly when the policy is on, has a budget, and a confirmed trigger stood for `after_cycles` applied results, explained or not |
| Supervision.SilentRestartIff | src/worker_health/monitor.py:333-365 | at every restart by the default policy `/live` named no self-fault exactly when a confirmed failure explained the wedge |
| Supervision.OutageRestartsWorker | src/worker_health/policy/restart.py:107-124 | such a run: a refused database explains the poison loop, `/live` is silent and the default triggers fire |
| Board.SharedOutages | dashboard/app.py:209-246 | one row per broken (check, category-or-unknown) pair, exact in every field, in stable sort order, and no other row |
| Board.RowMeaning | dashboard/app.py:222-246 | a row lists exactly the workers that show its check so, sorted, without duplicates, and says whether they are enough to share it and whether one of them shows it critical or FAILING |
| Board.RowIffShown | dashboard/app.py:209-246 | a broken (check, category-or-unknown) pair has a row exactly when some worker shows the check FAILING or DEGRADED under it, and only one |
| Board.RowOrder | dashboard/app.py:242-245 | of two rows the first is shared, or critical, or failing, or wider, or has the smaller name, the first difference deciding; rows that tie stand in the order in which they were first reported |
| Ordering.LessMeaning | dashboard/app.py:239-245 | the order of names is by the first character that differs, a proper prefix first |
| Board.RowsIgnoreEntryOrder | dashboard/app.py:209-246 | permuting or repeating entries gives the same rows |
| Board.StaleWorkers | dashboard/app.py:249-303 | one row per deserving entry, in entry order, each stating that entry's wedges, backlog, silence and whether a restart helps |
| Board.DeservingMeaning | dashboard/app.py:262-289 | the deserving entries are exactly those with a body and a wedged check or a silent queue with a backlog |
| Board.StaleRowOf | dashboard/app.py:259-299 | one entry's row: wedge, explanation, backlog and silence |
| LiveBoard.WedgedNamesAgree | dashboard/app.py:75-78 | the dashboard's copied category names are the monitor's wedged categories |
| LiveBoard.LiveFaultShowsOnBoard | dashboard/app.py:262-302 | in every reachable state, when `/live` is FAILING and the loop does not lag the board says a restart would help |
| LiveBoard.BoardMeaning | dashboard/app.py:262-302 | at every instant of every run the board asks for a restart exactly when it sees a wedge and no check reads FAILING for another cause |
| LiveBoard.BoardAgreesIff | src/worker_health/monitor.py:333-388 | board and `/live` agree exactly when: on a lagging loop, a wedge is shown and no explanation; otherwise, the failure is self-inflicted and counts, or an explanation still reads FAILING, or no wedge is shown |
| LiveBoard.AgedExplanation | dashboard/app.py:262-302 | an explained wedge whose explanation has aged out: without lag `/live` is OK and the board asks for a restart |
| LiveBoard.EveryExplanationAges | src/worker_health/core/machine.py:202-233 | if nothing more arrives, every explained wedge ends that way whenever the loop does not lag |
| Fleet.FleetBoard.Poll | dashboard/app.py:348-376 | a poll replaces the body, whatever it found |
| Fleet.FleetBoard.Ingest | dashboard/app.py:397-433 | a push finds its entry and fills the body only where no poll has |
| Fleet.FleetBoard.ExpireQuiet | dashboard/app.py:465-481 | exactly the pushed-only workers that have gone quiet are forgotten |
| Fleet.IdentifyMeaning | dashboard/app.py:435-450 | a push belongs to the first listed worker with its instance, else to its service if listed, else to itself |
| Fleet.EntriesAreHonest | dashboard/app.py:348-433 | over every run an entry's source names what was seen of the worker, and it is reachable exactly without an error |
| Fleet.PushIsHonest | dashboard/app.py:413-427 | a push sets the environment and keeps a polled body |
| Fleet.ExpiryForgetsIff | dashboard/app.py:465-478 | an expiry forgets exactly the workers known by push alone whose last push is older than the limit |
| Fleet.PolledBodyPersists | dashboard/app.py:397-481 | over every interleaving of pushes, expiries and other workers' polls a polled body and its entry stay |
| Fleet.UpdatedWorkerStays | dashboard/app.py:348-376 | a poll with a non-empty body keeps its worker on the board, with that body, until its next poll |
| Fleet.PolledWorkerStaysIff | dashboard/app.py:435-481 | a polled worker survives every run of decoded pushes, expiries and other workers' polls exactly when its body was non-empty |
| Fleet.FailedPollFreezesFirstPush | dashboard/app.py:405-427 | after a poll without a body and two pushes the board shows the first push, whatever later ones say, and never forgets the worker until its next poll |
| Processing.ProcessingState.OnReceive | src/worker_health/checks/processing.py:70-81 | the counters equal the tally of the history extended by one begin |
| Processing.ProcessingState.OnSuccess | src/worker_health/checks/processing.py:83-97 | the same for a success |
| Processing.ProcessingState.OnFailure | src/worker_health/checks/processing.py:99-113 | the same for a failure |
| Processing.Conservation | src/worker_health/checks/processing.py:70-113 | received = succeeded + failed + in flight exactly when every end had a begin; received never exceeds them |
| Processing.AggregateIsSum | src/worker_health/checks/processing.py:62-113 | each of the worker's counters, received, succeeded, failed and in flight, is the sum over its queues |
| Processing.VerdictIff | src/worker_health/checks/processing.py:155-241 | the whole verdict read off the history: poison loop, not consuming, stalled or healthy, by failures in a row, the last begin and success, their numbers and the backlog |
| Processing.VerdictsAreSelfFaults | src/worker_health/checks/processing.py:155-241 | every complaint of the processing check is a wedged category |
| Processing.QuietQueueIff | src/worker_health/checks/processing.py:155-241 | a caught-up worker stays healthy at every later time exactly under the stated relation of its two limits |
| Processing.QuietQueueStaysHealthy | src/worker_health/checks/processing.py:155-241 | after any paired run that ends in a success, with no backlog and max_idle at most max_since_success, the check is OK at every later time |
| Processing.DepthDiscriminates | src/worker_health/checks/processing.py:155-241 | once idle too long, the verdict is "not consuming" or healthy, by broker depth alone |
| Processing.LongIdleLimitStalls | src/worker_health/checks/processing.py:155-241 | a configuration in which a quiet healthy queue is called stalled |
| TrafficEvidence.FlagTracksDepth | src/worker_health/instrument/context.py:26-41 | over every run the flag is set exactly inside a probe scope of that thread, and nested scopes restore it |
| TrafficEvidence.ProbesLeaveNoTrace | src/worker_health/instrument/recorder.py:34-44 | the traffic log is that of the run with every probe's calls removed |
| TrafficEvidence.LatencyPolicyMeaning | src/worker_health/checks/base.py:162-190 | only OK results change, to FAILING or DEGRADED by the two limits, always as slow |
| TrafficEvidence.StampsAreRealCalls | src/worker_health/checks/base.py:47-76 | every stamp in the log is the time of a real call |
| TrafficEvidence.SilentWorkerNeverObserved | src/worker_health/checks/base.py:129-232 | an evaluation returns OBSERVED only if a real call was recorded within `max_silence` |
| TrafficEvidence.ObservedIffRecentCall | src/worker_health/checks/base.py:192-232 | on a running clock traffic answers exactly when there was such a call |
| TrafficEvidence.StampsAreNewest | src/worker_health/checks/base.py:47-76 | on a running clock the two stamps of a record are the times of the newest real success and failure |
| TrafficEvidence.TrafficVerdict | src/worker_health/checks/base.py:192-232 | when traffic answers: FAILING iff some real failure of the dependency is later than every real success, with the category of the last real call; otherwise OK without one |
| TrafficEvidence.ObservedVerdict | src/worker_health/checks/base.py:129-232 | the same of a whole evaluation labelled OBSERVED: a failure stands, a success can only be found too slow |
| TrafficEvidence.TrafficDetails | src/worker_health/checks/base.py:199-232 | such an answer carries the age of the newest real call, the latency of the newest success and the numbers of real calls |
| TrafficEvidence.CountsAreCalls | src/worker_health/checks/base.py:58-76 | the counts of a record are numbers of real calls, its run of failures that of the last calls |
| TrafficEvidence.LadderOrder | src/worker_health/checks/base.py:129-160 | a complaint of the introspection stands alone, then traffic answers, then the probe, whose own observations win over the introspection's |
| TrafficEvidence.ZeroStampIsIgnored | src/worker_health/checks/base.py:199-206 | a call stamped 0 is not seen |
| Exporter.QueueConservation | src/worker_health/telemetry/otel.py:415-471 | offered = attempted + dropped + queued, each offer in exactly one, queue the latest run in order, attempts a duplicate-free subsequence |
| Exporter.NewestSurvives | src/worker_health/telemetry/otel.py:415-437 | none of the newest `capacity` offers is ever dropped |
| Exporter.FlushOutcome | src/worker_health/telemetry/otel.py:461-471 | a flush attempts items in order and gives up exactly one per dead link |
| Exporter.OTLPExporter.Enqueue | src/worker_health/telemetry/otel.py:415-437 | an offer drops the oldest item iff full, and the second Full branch is never taken |
| Exporter.OTLPExporter.Flush | src/worker_health/telemetry/otel.py:461-471 | the loop posts as the trace says, at most one failure |
| Exporter.OTLPExporter.Cycle | src/worker_health/telemetry/otel.py:440-457 | metrics, then drained events, then a flush |
| YamlParser.Block | src/worker_health/_yaml.py:89-95 | dispatch on the first line, terminating on every input |
| YamlParser.MapAt | src/worker_health/_yaml.py:98-124 | the mapping loop agrees with the recursive form, errors included |
| YamlParser.ListAt | src/worker_health/_yaml.py:127-156 | the list loop agrees with the recursive form, errors included |
| YamlParser.ItemAt | src/worker_health/_yaml.py:135-155 | one dash line, re-fed lines included, with the inner index ignored |
| YamlParser.RefedIsSmaller | src/worker_health/_yaml.py:145-152 | the re-fed lines are smaller than the lines they came from, so parsing terminates |
| YamlParser.PutMeaning | src/worker_health/_yaml.py:106-122 | a key already there keeps its place and takes the new value, a new one goes last |
| YamlRoundTrip.MapRoundTrip | src/worker_health/_yaml.py:98-124 | a printed mapping is read back, takes exactly its lines and leaves shallower lines untouched |
| YamlRoundTrip.ListRoundTrip | src/worker_health/_yaml.py:127-156 | the same for a list, at its key's level or deeper |
| YamlRoundTrip.BlockRoundTrip | src/worker_health/_yaml.py:89-156 | every nested value, in every style, is read back from its printed lines |
| YamlRoundTrip.RefedGivesBack | src/worker_health/_yaml.py:145-152 | gathering behind a dash line takes back exactly the printed lines of the mapping |
| YamlLoss.BlockIsLocal | src/worker_health/_yaml.py:89-156 | a block is read without looking past its first shallower line |
| YamlLoss.SilentLoss | src/worker_health/_yaml.py:145-152 | a list item reads as if the ignored lines were deleted; they start at the first gathered line one column past the dash, and there are none exactly when there is no such line |
| YamlLoss.JunkVanishes | src/worker_health/_yaml.py:149-152 | any lines so placed behind a printed mapping vanish, whatever they say |
| YamlDocument.StripComment | src/worker_health/_yaml.py:75-86 | a line is cut at its first '#' that starts the line or follows a blank, outside quotes |
| YamlDocument.SignificantLines | src/worker_health/_yaml.py:56-72 | the meaningful lines in order, or the first error |
| YamlDocument.SafeLoad | src/worker_health/_yaml.py:35-53 | the value of the whole document, or an error when lines are left over; what its scalars read as is WordsReadIff |
| YamlDocument.NoiseIsIgnored | src/worker_health/_yaml.py:63-64 | a line without meaning (blank, comment or document marker) changes no significant line before or after it |
| YamlDocument.TrailingComment | src/worker_health/_yaml.py:75-86 | a comment behind a line with no open quote changes nothing |
| YamlDocument.SurvivesIff | src/worker_health/_yaml.py:56-86 | a printed line is read back from text exactly when nothing in it reads as a comment, a marker or an unsupported feature |
| YamlDocumentRoundTrip.DocumentRoundTrip | src/worker_health/_yaml.py:35-72 | the text of a value gives its lines back exactly when each survives, and then loads as the value |
| YamlDocumentRoundTrip.ScalarDocumentRefused | src/worker_health/_yaml.py:35-53 | a document that is one scalar does not load |
| YamlDocumentRoundTrip.QuietLineSurvives | src/worker_health/_yaml.py:32-86 | a line without the special characters always survives |
| YamlDocumentRoundTrip.QuotedHashIsText | src/worker_health/_yaml.py:75-86 | inside quotes a '#' is text |
| YamlDocumentRoundTrip.KeyReadsBackIff | src/worker_health/_yaml.py:106-109 | a key is read back exactly when its text has no colon, quoted or not |
| YamlText.InlineListIgnoresQuotes | src/worker_health/_yaml.py:177-179 | an inline list has one item more than it has commas, wherever they stand |
| YamlText.InlineListReadsBackIff | src/worker_health/_yaml.py:177-179 | a list of texts is read back item by item exactly when no text has a comma |
| YamlText.FlowMappingIsText | src/worker_health/_yaml.py:15-17 | a flow mapping with content is read as its own text (as a number only if the text reads as one) |
| YamlText.WordsReadIff | src/worker_health/_yaml.py:163-172 | of all texts, exactly the letters of "true", "false" and "null" in any mixture of cases read as true, false and null, and "~" and "" as null |
| YamlText.EmptiesReadIff | src/worker_health/_yaml.py:173-179 | exactly a pair of braces reads as the empty mapping, and exactly brackets around nothing but white space as the empty list |
| YamlEntries.WordUnderKey | src/worker_health/_yaml.py:98-124 | a document of one key and one such word loads as that value, and as it only for such a word |
| YamlEntries.RepeatedKey | src/worker_health/_yaml.py:106-122 | a key met again keeps its place, takes the last value and changes no other entry |
| YamlEntries.DashIff | src/worker_health/_yaml.py:89-95 | a block is a list exactly when its first line is a dash alone or a dash and a blank |
| YamlEntries.DashWordGivesEmptyList | src/worker_health/_yaml.py:114-122 | a key without a value, followed at its own level by a word that begins with a dash, gets an empty list |
| YamlEntries.TabRefusedIff | src/worker_health/_yaml.py:60-61 | a line is refused for a tab exactly when nothing but white space precedes one |
| YamlEntries.FeatureRefusedIff | src/worker_health/_yaml.py:32-70 | a line is refused as unsupported exactly when an anchor, an alias, a merge key or a block mark stands in it outside its comment, with white space around it |
| YamlEntries.ErrorRefusesDocument | src/worker_health/_yaml.py:56-72 | one such line refuses the whole document |
| YamlEntries.LeftoverRefused | src/worker_health/_yaml.py:48-52 | a line shallower than the first line of the document refuses it |
| YamlEntries.CollectionKeyRefused | src/worker_health/_yaml.py:106-122 | a mapping or a list is refused as a key |
| YamlEntries.UnquotedComment | src/worker_health/_yaml.py:75-86 | without quotes, a '#' starts the comment exactly when nothing or a blank stands before it |
| YamlSilences.FlowMappingUnderKey | src/worker_health/_yaml.py:98-124 | under a key it is loaded so, with no error, whatever it says |
| YamlSilences.FlowMappingOnDash | src/worker_health/_yaml.py:144-153 | behind a dash its braces go to the first key and the last value |
| YamlSilences.QuotedPairIsTextIff | src/worker_health/_yaml.py:144-160 | a dash line with a colon is one string exactly when it begins and ends with the same quote, and otherwise a mapping or an error |
| YamlSilences.PairLooksQuotedIff | src/worker_health/_yaml.py:159-160 | which printed entries look so |
| YamlSilences.DocumentsMerge | src/worker_health/_yaml.py:63-64 | a document marker between lines changes nothing about how a stream loads or fails |
| YamlSilences.TwoDocumentsLoadAsOne | src/worker_health/_yaml.py:63-64 | two documents with keys of their own load as one mapping |

## Left out

- HTTP server, CLI, host registry, dashboard handlers, streaming, polling and OTLP encoding and decoding: transport.
- Django and FastAPI wiring, drivers and exception classifiers: check outcomes are arbitrary inputs.
- Redaction, environment expansion, `@` references, `with_params` and `from_raw`: string rewriting before validation.
- Event and log emission, listeners, timing windows, latency percentiles, board history and rollups.
- `last_duration_ms` of the message counters.
- Floats are reals. Rounding to three decimals is exact with ties upward; ages and latencies in evidence are not rounded.
- Integer and float literals keep their text: a parameter says which words are numbers, and keys that are equal as
  Python numbers (1, 1.0, true) but written differently count as different keys.
- PyYAML, when installed, replaces the whole loader; that path is not modelled.
- Python's line splitting and Unicode lower-casing beyond ASCII in YAML text; its recursion limit on deep nesting.
- The words and line numbers of YAML error messages: an error is its kind.
- The class of word characters in the unsupported-feature pattern is a parameter.
- Threads and locks: lock-protected bodies are atomic; the unlocked read of the restart latch is part of its step.
- Each monitor operation reads the clock once; the restart policy has its own two reads.
- The order in which different checks are served within one runner cycle: the result is proved for any order.
- Task cancellation and base exceptions inside the runners; runner start-up and stop; the exporter's last flush on stop and its
  payload-building failures.
- The process exit, its timer and jitter: a fire is an event.
- The pool's futures and the runner's slots are two models of one thing, joined in `Pool.TimeoutsStarveThePool` by the number
  of futures a check has submitted.
- `breaker_open`, `due`, `describe_config` and other read-only views of the same state.
- YamlRoundTrip.BlockRoundTrip: keys whose text has a colon are excluded, because the code never reads one back
  (`YamlDocumentRoundTrip.KeyReadsBackIff`).
- YamlDocumentRoundTrip.DocumentRoundTrip: starts from raw lines, because joining and splitting text at line breaks is
  Python's own.
