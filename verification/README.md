# Verified model of the Hapax gateway's state machines

This project models the stateful core of Hapax, a gateway in front of LLM providers, and proves
what it keeps over every run: the failover loop with its circuit breakers, provider selection and
health map, deduplication of identical requests, the request queue with its persistence, and the
smaller machines for environment expansion, replay protection, hot reload, route health and rate
limiting. `dafny verify dfyconfig.toml` checks everything.

## How it is built

- Objects the source updates in place are classes (`CircuitBreaker`, `Manager`,
  `QueueMiddleware`, `ReplayProtectionHandler`, `ConfigWatcher`, `RouteMonitor`, `RateLimiters`);
  their methods are proved against functions on values, and the promises are proved about those.
- Functions on values are pinned from outside: laws over events and histories, or statements in
  the fields themselves, say what they mean without calling them.
- Concurrent protocols (`BreakerLedger`, `HealthProtocol`, `Deduplication`, `QueueProtocol`,
  `QueuePersistence`) are labelled transition systems over any number of participants. A result
  about a run holds in every state of every interleaving.
- The failover loop (`FailoverLoop`) is proved against arbitrary readings, one for each
  iteration, so nothing is assumed there about the breakers or about other requests. The run
  results (`FailoverCost`) use real breakers.
- Durations and times are integers in nanoseconds. Counters are unbounded.

Three libraries the source calls are written down as assumptions, each in one marked place:
sony/gobreaker v1.0.0 (`Gobreaker`), golang.org/x/sync/singleflight (`Deduplication`),
golang.org/x/time/rate (`RateLimits`). So is `os.Expand` of the Go library (`ShellExpand`).

## Where the code and its documentation disagree

The model follows the code.

- `Shutdown` is said to return an error when requests do not finish in time
  (server/middleware/queue.go:239-240). It returns none (lines 276-279); only a cancelled
  context gives one. It also does not stop the admission of new requests.
- A new size limit is said to take effect immediately (server/middleware/queue.go:287-288). A
  handler that has read the old limit under the lock is still admitted by it.
- The state file is said to be safe from corruption (server/middleware/queue.go:169-170,
  docs/security.md:104). All savers share one temporary file, so this holds exactly when saves
  do not overlap; the source starts several at once.
- Replay entries are said to go after five minutes (server/server.go:664). They go with the first
  request accepted after that; until then a replay is refused however old it is.
- Expansion is said to run until no further substitution is possible (config/config.go:524-526).
  On mutual references it never ends. A `${A:-${B}}` with A set leaves a brace behind.
- The circuit breaker's `interval` and `failure_threshold` can be configured (config/config.go:286-293,
  docs/configuration.md:311-315). No breaker looks at them (server/provider/provider.go:90-105, 176-183).
- `processResult` is said to update provider health (server/provider/execution.go:213). It only
  ever reports success: the failure status built in lines 151-162 is never stored.
- The last-provider test of the failover loop (server/provider/execution.go:98) compares names,
  not positions, so it misfires on lists with an early repetition of the last name.

## Model

| member | source | states |
|---|---|---|
| CircuitBreakers.CircuitBreaker.constructor | server/circuitbreaker/circuitbreaker.go:60-101 | a fresh breaker is closed, its gauge agrees, and it is metered only with a registry outside test mode |
| CircuitBreakers.NewCircuitBreaker | server/circuitbreaker/circuitbreaker.go:55-64 | there is a breaker if and only if it has a name |
| CircuitBreakers.CircuitBreaker.Advance | server/circuitbreaker/circuitbreaker.go:128-147 | whatever the state change, the gauge shows the new state and the trip counter counts entries into the open state |
| CircuitBreakers.CircuitBreaker.Execute | server/circuitbreaker/circuitbreaker.go:171-202 | refused calls count nothing; a call let through counts one failure if it fails and one trip if it leaves the breaker open; the error is the operation's or the refusal |
| CircuitBreakers.CircuitBreaker.State | server/circuitbreaker/circuitbreaker.go:205-207 | reading the state lets the clock act and counts nothing |
| BreakerLedger.EveryTripIsPaidFor | server/circuitbreaker/circuitbreaker.go:114-125 | over every interleaving of calls: closed means fewer than threshold failures in a row, half-open never has more than the quota of its calls in flight, and every trip from closed was paid for by threshold failed calls |
| BreakerHistory.BreakerFollowsHistory | server/circuitbreaker/circuitbreaker.go:103-149 | in every run, read off the events: the count of failures in a row is the run of failed calls that ends the present period's log; a closed breaker opens exactly when a call of the period fails as the threshold-th in a row; an open one turns half-open exactly at the first event after its timeout |
| BreakerHistory.HalfOpenFollowsHistory | server/circuitbreaker/circuitbreaker.go:103-149 | a half-open breaker lets no more than its quota in, opens exactly at the first failure and closes exactly at the last of as many successes |
| BreakerHistory.AdmissionFollowsHistory | server/circuitbreaker/circuitbreaker.go:169-202 | who is let in and when a new period begins, in the same terms, and what the ledger's counters count |
| BreakerHistory.CallIsEnterThenLeave | server/circuitbreaker/circuitbreaker.go:171-202 | one undisturbed call is an entry directly followed, if it is let in, by its exit |
| BreakerHistory.AttemptIsACall | server/provider/execution.go:121-142 | one attempt is such a call and one look, or two after an error; its error is the refusal or what the operation returned |
| FailoverLoop.LoopMeaning | server/provider/execution.go:49-118 | for any readings the attempts are, in order, exactly the eligible providers not cut off by an earlier return; the last one's error is returned |
| FailoverLoop.ReachedMeaning | server/provider/execution.go:50-106 | an iteration attempts its provider exactly if that is registered, guarded and healthy and every such one before failed, left its breaker open and did not have the last name |
| ProviderViews.AnswerMeaning | server/provider/execution.go:39-118 | the loop says that no providers are configured exactly for an empty list, and that none is healthy exactly if no entry can be used; otherwise an attempt really made on a usable entry decides |
| ProviderViews.ServeMeaning | server/provider/execution.go:22-37 | the same for the whole request, and that only a success writes: Healthy for the provider that answered |
| FailoverLoop.OnlyOpenFailuresGoOn | server/provider/execution.go:95-106 | every attempt but the last failed and left an open breaker |
| FailoverLoop.SuccessMeaning | server/provider/execution.go:60-63 | the request succeeds if and only if a provider it reaches answers |
| FailoverLoop.ShortcutIsHarmless | server/provider/execution.go:95-102 | the last-name test makes no difference for any readings if and only if the last name does not occur earlier in the list |
| Managers.Manager.constructor | server/provider/provider.go:39-47 | a manager starts without providers |
| Managers.Manager.InitializeProviders | server/provider/provider.go:67-116 | fails exactly if some client cannot be made or some name is empty, and names one; otherwise exactly the configured providers are registered, healthy, each behind a new breaker of its own with the configured or default quota and timeout |
| Managers.Manager.InstallConfigured | server/provider/provider.go:71-113 | one configured provider needs a client and a name |
| Managers.Manager.UpdateHealthStatus | server/provider/health.go:137-168 | only the health flag, the time and the error count are stored, the count reset when the provider becomes healthy |
| Managers.Manager.ExecuteOperation | server/provider/execution.go:121-177 | the attempt's error and the status it would report, both for success and failure |
| Managers.Manager.TryProvider | server/provider/execution.go:51-58 | one provider's attempt moves that provider's breaker and no other |
| Managers.Manager.Iterate | server/provider/execution.go:50-106 | an iteration skips, goes on or returns as the loop's specification says |
| Managers.Manager.IterateUsable | server/provider/execution.go:56-106 | the same on a provider that can be used |
| Managers.Manager.TryEach | server/provider/execution.go:47-107 | the loop over live breakers makes exactly the specified iterations and keeps the last attempt's result |
| Managers.Manager.ExecuteWithRetries | server/provider/execution.go:39-118 | the result is never missing and carries the returned error, which is the one the loop's specification decides; health is not written |
| Managers.Manager.ProcessResult | server/provider/execution.go:214-219 | a named result is stored, an unnamed one is not |
| Managers.Manager.Conclude | server/provider/execution.go:30-36 | a failure of the shared run is passed on, a success counted if shared and reported |
| Managers.Manager.Execute | server/provider/execution.go:22-37 | a whole request: which error without a usable provider; a failure leaves health and the counter alone, a success reports the provider that answered and counts once if shared |
| FailoverCost.FailingTry | server/provider/execution.go:95-106 | a failing provider's breaker answers the request with its error as often as the threshold allows and then lets it pass on |
| FailoverCost.OneRequest | server/provider/execution.go:50-107 | during an outage a request fails and pays off one owed failure, or nothing is owed and it succeeds |
| FailoverCost.SettledRequest | server/provider/execution.go:95-102 | once the breakers in front are open, only the answering provider is invoked, and they stay open |
| FailoverCost.FailoverCost | server/provider/execution.go:50-107 | with the breakers in front open, closed or half-open with room, exactly the first so many requests of a run fail as the failing providers still owe together, all later ones succeed, and after the first success no failing provider is invoked |
| FailoverCost.SaturatedBreakerStopsFailover | server/provider/execution.go:95-106 | a half-open breaker in front whose quota is used up makes every request of a run fail |
| FailoverCost.FreshFailoverCost | server/provider/execution.go:71-85 | j failing providers with fresh breakers of threshold k cost exactly the first j * (k - 1) requests, and after one more none of them is invoked |
| Selection.Select | server/provider/provider.go:138-157 | the first entry that exists, is healthy and is not behind an open breaker |
| Selection.SelectMeaning | server/provider/provider.go:138-157 | the choice falls on an entry exactly if it is registered, known to be healthy and not behind an open breaker, and no earlier one is |
| Selection.PolledMeaning | server/provider/provider.go:146-154 | reading moves the clock of exactly the breakers of registered, healthy entries looked at |
| Selection.SelectionAgreement | server/provider/provider.go:133-160 | with state and clock frozen, the provider the failover loop first invokes is the one GetProvider returns, unless a usable entry with the list's last name stands before it |
| Selection.SelectionAgreesWithoutDuplicates | server/provider/provider.go:133-160 | on duplicate-free lists the two always agree |
| Managers.Manager.PollState | server/provider/provider.go:151-154 | reading one breaker's state moves that breaker's clock only |
| Managers.Manager.Consider | server/provider/provider.go:138-157 | one entry is handed out if and only if it exists, is healthy and is not behind an open breaker |
| Managers.Manager.GetProvider | server/provider/provider.go:133-160 | returns the selected entry's provider, or none; the breakers looked at have had their clocks moved |
| PreferenceMerge.MergePreference | server/provider/provider.go:203-220 | the two loops compute the merged list for any iteration order |
| PreferenceMerge.KeepIsInOrder | server/provider/provider.go:206-212 | what is kept is the list's entries at certain positions, in their order |
| PreferenceMerge.PositionsMeaning | server/provider/provider.go:206-212 | those positions ascend and are just those of the names that still exist |
| PreferenceMerge.MergeMeaning | server/provider/provider.go:203-222 | the list names exactly the new providers, survivors first in their old order; it is duplicate-free if and only if no survivor was listed twice |
| PreferenceMerge.MergeIsIdempotent | server/provider/provider.go:203-222 | setting the same providers again, in any iteration order, changes nothing |
| Managers.Manager.Install | server/provider/provider.go:172-200 | a provider gets a fresh breaker of its own and a clean status; one with an empty name gets neither |
| Managers.Manager.InstallAll | server/provider/provider.go:167-201 | after the loop exactly the new providers are registered, each behind a new breaker |
| Managers.Manager.SetProviders | server/provider/provider.go:163-224 | the whole new state: providers, breakers, health and preference, for any map iteration orders |
| ProviderViews.ResetHealthMeaning | server/provider/provider.go:195-200 | every named provider is then healthy with all counts zero, and no other status has changed |
| Managers.Manager.StoreCheck | server/provider/health.go:203-213 | a check adds one to the loaded error count or clears it |
| Managers.Manager.PerformHealthCheck | server/provider/health.go:186-215 | after an undisturbed sweep each registered provider is healthy exactly if its check passed, its count zero or one more than before, its time the sweep's, and no other entry has changed |
| HealthProtocol.CheckIsBeginThenEnd | server/provider/health.go:189-213 | an uninterrupted check of the sweep is the protocol's begin directly followed by its end |
| HealthProtocol.SweepIsARun | server/provider/health.go:186-215 | an undisturbed sweep is a run of the protocol that checks every provider once |
| HealthProtocol.HealthIsAlwaysSound | server/provider/health.go:137-160 | over every interleaving of checks, requests and resets, every stored status is healthy exactly when its error count is zero, and its other counters are zero |
| HealthProtocol.ErrorCountIsExact | server/provider/health.go:39-68 | over every interleaving, the error count is always the run of failed checks just ended if and only if across every failed check of the provider that run is the same at its end as at its beginning |
| HealthProtocol.FailedCheckCounts | server/provider/health.go:43-66 | a failed check loses exactly what was counted since it loaded the status |
| HealthProtocol.UndisturbedChecksCount | server/provider/health.go:39-68 | the count is exact if nothing else writes the provider's status during a failed check of it |
| HealthProtocol.AtomicChecksCountTrailingFailures | server/provider/health.go:39-68 | in particular with checks that nothing overtakes |
| HealthProtocol.OverlappingChecksLoseACount | server/provider/health.go:43-66 | of two overlapping failed checks one is lost |
| HealthProtocol.RequestsOnlyReportSuccess | server/provider/execution.go:30-36 | the only health write of a request is Healthy for a provider that just answered it, so no request makes a provider unhealthy |
| Deduplication.KeyCollisions | server/provider/execution.go:180-182 | two roles can produce one key if and only if they are equal or one ends with a dash and the other |
| Deduplication.DashFreeRolesSeparate | server/provider/execution.go:180-182 | given roles without a dash, keys are equal exactly when content and role are |
| Deduplication.DeduplicationIsSound | server/provider/execution.go:22-37 | in every interleaving at most one failover run is active per key, all callers of a group return one error, and the counter ends as the sum, over the groups of two or more whose run ended without an error, of their sizes |
| Deduplication.EveryoneGetsTheRunsError | server/provider/execution.go:26-36 | in every interleaving a returned caller has the error with which its group's run ended, once, between its arrival with the group's key and its return |
| Deduplication.EveryoneCanProceed | server/provider/execution.go:26-28 | nobody waits for anything but the run it joined |
| QueueProtocol.QueueAccounting | server/middleware/queue.go:345-398 | in every state of every run: length is the number of handlers between Add and Remove, processing the number between increment and decrement and never larger, Remove never meets an empty queue, the queue is the end of the admission history, each channel is closed at most once and by its owner, the gauge is the length or one behind |
| QueueProtocol.QueueContent | server/middleware/queue.go:382-384 | the queue holds exactly the channels in flight if and only if the handlers gone are the first ones admitted |
| QueueProtocol.FifoQueueIsExact | server/middleware/queue.go:382-384 | if handlers leave in admission order, the queue is always exactly the channels in flight |
| QueueProtocol.EmptyMeansIdle | server/middleware/queue.go:257-258 | with the lock free an empty queue means that nothing runs and every channel is closed |
| QueueProtocol.EveryoneCanProceed | server/middleware/queue.go:345-398 | every phase of a handler leads to the next, waiting for nothing but the lock |
| QueueProtocol.LateChannelStays | server/middleware/queue.go:382-384 | a reachable state whose queue holds the closed channel of a request that has gone while another runs |
| QueueCapacity.PeakBounds | server/middleware/queue.go:348-368 | the length never exceeds the largest of zero and all limits in effect so far |
| QueueCapacity.PeakMeaning | server/middleware/queue.go:348-368 | that bound is the largest of zero and the limits so far |
| QueueCapacity.UnloweredLimitBounds | server/middleware/queue.go:348-368 | it never exceeds the current limit, or zero, if that was never lowered |
| QueueCapacity.OvergrowthIsLateAdmission | server/middleware/queue.go:289-299 | a full queue can still grow under an unchanged limit if and only if a handler inside the lock has read a larger one |
| QueueCapacity.LoweredLimitBounds | server/middleware/queue.go:289-299 | after a change the length stays within the new limit or its value then, plus one for a late admission |
| QueueCapacity.LateAdmissionHappens | server/middleware/queue.go:348-368 | a concrete run admits a request after the limit became zero |
| Queues.QueueMiddleware.constructor | server/middleware/queue.go:101-129 | starts with the limit on disk, or the initial size if no whole file is there |
| Queues.QueueMiddleware.Admit | server/middleware/queue.go:348-369 | admits exactly when there is room; the position handed on is the number of handlers in flight |
| Queues.QueueMiddleware.Begin | server/middleware/queue.go:372-375 | counts the handler as processing; the object stays in a state that some run of the protocol reaches |
| Queues.QueueMiddleware.Finish | server/middleware/queue.go:377-389 | uncounts it, closes its channel and removes the head, which is there |
| Queues.QueueMiddleware.SetMaxSize | server/middleware/queue.go:289-290 | replaces the limit and nothing else |
| Queues.QueueMiddleware.SaveState | server/middleware/queue.go:171-200 | an undisturbed save makes a restart take this limit; a failed one leaves the state file as it was |
| Queues.AwaitDrain | server/middleware/queue.go:254-274 | ends within 50 polls; drained if and only if some poll in time and before any cancellation found the queue empty |
| Queues.Shutdown | server/middleware/queue.go:254-279 | beside any run of the protocol: a drained exit finds nothing in flight and every channel closed, and saves the state if there is persistence; it fails only on a cancelled context |
| Queues.DrainedMeansIdle | server/middleware/queue.go:256-265 | a poll finds the queue drained exactly when its length is zero, the processing test adding nothing, and nothing is then in flight |
| Queues.IdlenessCanEnd | server/middleware/queue.go:348-369 | nothing stops the next request from being admitted after a drained exit |
| QueuePersistence.SavesAreAtomic | server/middleware/queue.go:171-200 | with one save at a time, by whatever goroutines, after every step the state path holds the earlier file or the last renamed snapshot whole, and a restart takes its limit |
| QueuePersistence.RestartMeaning | server/middleware/queue.go:109-118 | a restart takes the limit of a whole state file and the initial size otherwise |
| QueuePersistence.LastRenamed | server/middleware/queue.go:176-200 | that last snapshot holds the limit and length in force when the last renamed save was captured |
| QueuePersistence.SaveCompletes | server/middleware/queue.go:176-200 | an undisturbed save can always be made and stores the limit in force |
| QueuePersistence.TwoSaversTear | server/middleware/queue.go:194-199 | from any sane disk two overlapping saves have an interleaving that leaves a torn state file |
| QueuePersistence.AtomicExactlyWithoutOverlap | server/middleware/queue.go:171-200 | the state file is never torn in any run with at most n saves at a time if and only if n is at most one |
| EnvExpansion.ExpandEnvVars | config/config.go:496-544 | whenever the loop ends at all: the result is unchanged by expanding again, and the pass count is bounded by when it settled; the syntax error is reported exactly for an opened `${VALID_KEY` in a text without a closing brace |
| EnvExpansion.ExpandNested | config/config.go:524-531 | the nested loop returns the settled text, a fixpoint, after at most one pass more than it takes to settle |
| EnvExpansion.ExpandTokens | config/config.go:505-522 | expansion of text with references and defaults is substitution, reference by reference |
| ShellExpand.ExpandBareName | config/config.go:505-522 | `$NAME` is replaced like `${NAME}`, up to the first character that cannot be in a name |
| ShellExpand.ExpandSpecial | config/config.go:505-522 | `$` takes one special character or digit |
| ShellExpand.ExpandEmptyBraces | config/config.go:505-522 | `${}` is swallowed |
| ShellExpand.ExpandUnclosed | config/config.go:505-522 | so is an unclosed `${` |
| ShellExpand.ExpandLoneDollar | config/config.go:505-522 | any other lone dollar sign stays |
| EnvExpansion.ExpansionTerminates | config/config.go:527-531 | references that resolve within d levels settle after d - 1 further expansions |
| EnvExpansion.AcyclicExpansionTerminates | config/config.go:527-531 | without reference cycles the loop always ends within as many passes as there are levels |
| EnvExpansion.NestedDefaultLeavesBrace | config/config.go:507-518 | a reference as default leaves its second brace behind if and only if the variable is set to something; otherwise the next expansion resolves it |
| EnvTermination.SettlesExactlyWhenAtRest | config/config.go:527-531 | plain expansion settles if and only if the references come to rest: at text, at a reference that vanishes, or at one of whose value just itself is left |
| EnvTermination.LoopEndsExactlyWhenAtRest | config/config.go:505-531 | the loop ends, on any text with references and defaults, if and only if that comes to rest |
| EnvTermination.VanishingNeighbourEndsCycle | config/config.go:527-531 | a self reference beside an unset name ends although its references never resolve |
| EnvTermination.LoopEndsExactlyWhenResolvable | config/config.go:527-531 | where no reference vanishes, the loop ends if and only if the references resolve to text or self references |
| EnvTermination.MutualReferencesRunForever | config/config.go:527-531 | two names referring to each other make it run forever, one self reference does not |
| ReplayProtection.ReplayProtectionHandler.constructor | server/server.go:601-608 | starts with nothing seen |
| ReplayProtection.ReplayProtectionHandler.CleanupOldEntries | server/server.go:660-671 | drops exactly the entries older than five minutes, in any order of the map |
| ReplayProtection.ReplayProtectionHandler.ServeHTTP | server/server.go:610-636 | a POST is refused exactly when its hash is remembered; after an acceptance the map is exactly the hashes accepted within five minutes of that cleanup |
| ReplayProtection.ReplaysAreApart | server/server.go:622-632 | two acceptances of one hash are more than five minutes apart in every sequential run |
| ReplayProtection.ForgottenByLaterTraffic | server/server.go:660-671 | a hash is forgotten if and only if the last cleanup came more than five minutes after its acceptance |
| ReplayProtection.QuietHandlerNeverForgets | server/server.go:622-632 | without other traffic a replay is refused however late it comes |
| ConfigWatch.ConfigWatcher.constructor | config/config_watcher.go:27-53 | starts on a validated configuration |
| ConfigWatch.ConfigWatcher.Subscribe | config/config_watcher.go:56-60 | a new subscriber has an empty channel; the others are untouched |
| ConfigWatch.ConfigWatcher.Receive | config/config_watcher.go:56-60 | taking the waiting configuration keeps every history in storing order |
| ConfigWatch.ConfigWatcher.HandleConfigChange | config/config_watcher.go:86-114 | an invalid file changes nothing; a valid one becomes current, reaches exactly the subscribers with an empty channel, and keeps every history an in-order part of the stored ones |
| ConfigWatch.AttentiveSubscriberSeesAll | config/config_watcher.go:104-111 | a subscriber has every configuration stored since it joined if and only if its channel was empty at each publication |
| RouteHealth.RouteMonitor.constructor | server/routing/router.go:202-207 | a route starts healthy |
| RouteHealth.RouteMonitor.Tick | server/routing/router.go:209-238 | a tick fails exactly when some check fails, in any order, and the route is unhealthy exactly when max(1, threshold) ticks in a row have |
| RouteHealth.TrailingMeansAllFailed | server/routing/router.go:225-237 | the failure counter reaches n if and only if the last n ticks all failed |
| RateLimits.RateLimiters.Allow | server/middleware/ratelimit.go:53-68 | each visitor keeps its one bucket and no other visitor's is touched |
| RateLimits.SameHostSameBucket | server/middleware/ratelimit.go:55-59 | host:port addresses share a bucket exactly when the hosts are equal |
| RateLimits.BareAddressIsKey | server/middleware/ratelimit.go:55-59 | an address without a port is its own key |
| RateLimits.RateBound | server/middleware/ratelimit.go:62-68 | in any window a visitor's admitted requests number at most ten plus the full minutes it lasts |
| RateLimits.RefusedExactlyWhenSpent | server/middleware/ratelimit.go:64-68 | a request is refused if and only if admitting it would break that bound for some window |

## Left out

- HTTP servers, HTTP/3, TLS, UDP buffers and the command line: input and output.
- Configuration validation, authentication, CORS, request ids, logging, errors, prompt processing and the completion handler: they would only add easy members.
- server/middleware/timeout.go: its two branches race on the writer, so there is no strong invariant.
- Metrics other than the breaker's, the deduplication counter and the queued gauge; the gauge of healthy providers is not written by `SetProviders`.
- Integer widths: gobreaker's 32-bit counts, the 64-bit error count and the 32-bit processing count are unbounded here.
- A second `SetProviders` for the same name outside test mode panics when the breaker's metrics are registered again; the model has no registry.
- Health checks of one sweep and new breakers of one `SetProviders` share one reading of the clock.
- `ProvidersReset` is one step although the source stores one provider's status after another under the manager's lock, which readers of the health map do not take.
- Panics inside a provider call (the breaker counts them as failures) and nil providers.
- Managers.Manager.Execute: one request at a time, because overlapping requests are the subject of `FailoverLoop` (any readings), `BreakerLedger`, `HealthProtocol` and `Deduplication`.
- FailoverCost.FailoverCost: for sequential requests within one window in which no breaker's interval or timeout runs out, because an expiry resets what the failing providers owe.
- EnvTermination.LoopEndsExactlyWhenAtRest: for environments of plain text and whole `${NAME}` references, because text in which references arise across a value's edges has no such structure.
- ReplayProtection.ReplayProtectionHandler.ServeHTTP: requests one at a time on a clock that never goes back, because the cleanup checks and deletes in separate steps; SHA-256 is an uninterpreted key and different requests may share one.
- QueuePersistence.SavesAreAtomic: a crash loses no completed file operation, because the source does not flush files and the model has no power failure.
- Queues.Shutdown: one call at a time, and what the closing of the done channel sets off (the last save of the persistence goroutine) is a save like any other in `QueuePersistence`.
- CircuitBreakers.CircuitBreaker.constructor: presupposes a name; `NewCircuitBreaker` tests for it.
- Managers.Manager.UpdateHealthStatus: does not write the gauge of healthy providers, a metric that nothing reads back.
- Managers.Manager.InitializeProviders: leaves open what a failure leaves half built, because `NewManager` then drops the manager.
- Managers.Manager.constructor: does not start the ticker of health checks; checks are events of `HealthProtocol`, at any time.
- RateLimits.RateBound: exact tokens between resets of the limiters, because the library's floating-point rounding is not modelled.
- RouteHealth.RouteMonitor.Tick: two routes with one path share a health entry in the source; here each has its own.
