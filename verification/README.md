# Verified model of the EasyProtocol runtime

EasyProtocol routes requests to provider services, runs protocol steps in a pool of
worker processes, scales containers of a provider up and down, and frees team seats.
This project models the components whose correctness does not show in any one function
and proves what they keep over whole runs:

- **Python step-execution pool** (`WorkerPool`, `WorkerProtocol`, `WorkerLives`). The pool
  object with its lock-held regions, and the protocol around it as a step system: calls,
  worker processes with one-slot queues, deaths, stop sentinels, the reaper and close
  interleave freely. `WorkerLives` says what a step does to a worker and how long a
  released worker stays.
- **Gateway dispatch** (`Text`, `Selector`, `Cooling`, `Stats`, `ServiceRegistry`,
  `Routing`, `Policy`, `Dispatch`, `Serving`). Candidates are evaluated, ordered and
  selected, then tried under a retry policy while cooling and three statistics tables are
  kept. The transport is an oracle from services to results, and time is a function of
  the call.
  `Serving` says who may be called, in which order, how far failures are followed and
  what they do to later requests.
- **Provider container pool** (`ReplicaNames`, `Containers`, `Autoscaler`,
  `FamilyLives`). One provider family as an object, and as a step system in which acquire
  calls and the reconcile loop give up the lock while they spawn. `FamilyLives` says how
  long a replica stays and which replicas are never stopped.
- **Seat planner** (`SeatPlanner`, `PlanOrder`). The two greedy planning loops, which seat
  they take next, and what they leave.
- **Audit log** (`AuditLog`). A bounded list in memory beside an append-only file.

`Ordering` holds the order and sorting facts the others share. Objects that the source
updates in place are classes; each method is proved against a function on the object's
value, and the lemmas are about those functions. In the two step systems a step that is
not enabled changes nothing, so a run is any sequence of actions.

`dafny verify dfyconfig.toml` checks everything.

## What the code does not promise

Where a property one would expect is false of the code, the model keeps the code and states
exactly when the property holds.

- A child of the container pool is idle between being registered and being marked busy, so
  overlapping acquires can lease it twice (`Autoscaler.TwoCallersShare`); two is the most
  (`AtMostTwoHolders`), and one is guaranteed iff acquires never overlap (`ExclusiveIff`).
- The replica maximum holds in every run iff at most one acquire is under way and no warm
  replicas are configured (`CapHoldsIff`); the overshoot bound is reached by every
  configuration (`OvershootIsReached`).
- The worker pool's drop restores the warm floor without looking at the closed flag, so a
  closed pool can register workers again (`ClosedPoolRefills`); it stays empty in every run
  iff no warm workers are configured (`ClosedStaysEmptyIff`).
- Balance and sequential picks are fair across the 64-bit wrap of the counter iff the
  number of services taken in turn divides 2^64 (`FairnessIsExact`).
- A snapshot of an empty global retryable list does not restore it
  (`EmptyListIsNotRestored`); `Dispatch.RollbackIsExact` says for which operations that
  changes attempts or retries. A blank policy entry changes the reported attempt budget
  (`BlankEntryChangesBudget`, exactly when in `RollbackReportsBudget`).
- A request mode other than strategy and specified routes like strategy but never retries,
  and a blank service name in the chain makes the retry test count one attempt too many
  (`BlankNameIsCounted`, exactly when in `Dispatch.BudgetsAgree`).
- Policies are looked up by the operation as sent, routes and preferences by the trimmed
  one (`Dispatcher.Dispatch` states both).
- Two seats that share an email can make the planner plan more removals than it needs
  (`SharedEmailMissesTarget`): for seats with distinct ids, plans are always minimal iff no
  codex seat stands before an unprotected chatgpt seat of its kind with the same email
  (`PlanIsMinimalIff`).
- A reset of one service leaves the operation table alone, so operation rows can exceed the
  sum over services (`ResetBreaksColumn`, exactly when in `ColumnsAddUpIff`), and a reset
  during a call hides it (`ResetHidesCall`, exactly when in `ActiveIsExactIff`).
- A preference list that names a candidate twice puts it into the chain twice
  (`PreferenceMultiplicity`, `PermutationIff`); normalisation rules such lists out.

## Model

| member | source | states |
|---|---|---|
| `WorkerPool.FromEnv` | providers/python/src/worker_pool.py:140-163 | Settings read from the environment always satisfy 0 <= minWarm <= maxWorkers, maxWorkers >= 1 and a task quota of at least 1; in-range values are kept, others go to the nearest bound, unset or unparsable ones to the defaults |
| `WorkerPool.WarmGrows` | providers/python/src/worker_pool.py:364-385 | Warming up adds exactly the missing workers, each new and idle, and touches no other worker |
| `WorkerPool.TimeoutMeansAllBusy` | providers/python/src/worker_pool.py:257-278 | An acquire times out iff the pool is open, the deadline has passed and, once dead workers are pruned, all maxWorkers workers are left and busy |
| `WorkerPool.ShrinkIsExact` | providers/python/src/worker_pool.py:394-414 | Scale-down removes exactly min(expired idle workers, surplus over the warm floor): only expired idle ones, the longest idle first, all others unchanged |
| `WorkerPool.RemovesAPrefix` | providers/python/src/worker_pool.py:404-414 | The removal loop takes exactly the first workers of its queue, as many as the warm floor allows, however the queue was built |
| `WorkerPool.StepExecutionPool.constructor` | providers/python/src/worker_pool.py:178-194 | A new pool is open and holds exactly the warm workers |
| `WorkerPool.StepExecutionPool.EnsureMinWarm` | providers/python/src/worker_pool.py:383-385 | The warm-up loop ends in the state WarmGrows describes |
| `WorkerPool.StepExecutionPool.PruneDeadWorkers` | providers/python/src/worker_pool.py:387-392 | Exactly the workers whose process is dead leave the table |
| `WorkerPool.StepExecutionPool.TryAcquire` | providers/python/src/worker_pool.py:257-278 | One pass of the acquire loop: closed, leased (the first idle worker, or a new one while below the maximum), timed out or waiting |
| `WorkerPool.StepExecutionPool.ReleaseWorker` | providers/python/src/worker_pool.py:280-295 | A registered worker goes idle, stamped with the time of the release and otherwise unchanged, or is retired and replaced unless the pool is at its warm floor; an unregistered one changes nothing |
| `WorkerPool.StepExecutionPool.RecordTaskCompletion` | providers/python/src/worker_pool.py:297-303 | Counts the task and says whether the quota is used up |
| `WorkerPool.StepExecutionPool.DropWorker` | providers/python/src/worker_pool.py:305-315 | The worker leaves the table and the warm floor is restored without a look at the closed flag |
| `WorkerPool.StepExecutionPool.ShrinkIdleWorkers` | providers/python/src/worker_pool.py:394-414 | The scale-down loops end in the state ShrinkIsExact describes |
| `WorkerPool.StepExecutionPool.ReaperTick` | providers/python/src/worker_pool.py:354-362 | One tick prunes, shrinks and warms up, in that order, unless the pool is closed |
| `WorkerPool.StepExecutionPool.Shutdown` | providers/python/src/worker_pool.py:196-207 | Closing empties the table once and for all |
| `WorkerProtocol.StepKeepsInv` | providers/python/src/worker_pool.py:65-414 | Every step of every interleaving of calls, worker processes, deaths, reaper, snapshots and close keeps the protocol invariant |
| `WorkerProtocol.LeasesAreExclusive` | providers/python/src/worker_pool.py:257-315 | In every reachable state a registered worker is busy iff exactly one call holds it, and no worker, registered or removed, has two holders |
| `WorkerProtocol.IdleWorkersAreQuiet` | providers/python/src/worker_pool.py:65-124 | In every reachable state an idle registered worker has empty task and result queues and no task in progress |
| `WorkerProtocol.ReplyIsOwn` | providers/python/src/worker_pool.py:317-352 | A reply found by a waiting call carries the task id of that call, and nothing else is pending behind it |
| `WorkerProtocol.MismatchIsUnreachable` | providers/python/src/worker_pool.py:317-352 | No reachable state has a call that read a reply with another task id, not even on workers dropped while the call waited |
| `WorkerProtocol.QueuesNeverBlock` | providers/python/src/worker_pool.py:65-124 | A running worker always finds its one-slot result queue empty, and a call that just leased a registered worker finds the task queue empty |
| `WorkerProtocol.PoolStaysInBounds` | providers/python/src/worker_pool.py:257-315 | In every reachable state at most maxWorkers are registered, at most minWarm idle workers have used up their quota (none for minWarm = 0), and no call holds a registered worker of a closed pool |
| `WorkerProtocol.WarmFloorIsRestored` | providers/python/src/worker_pool.py:280-315 | Every tick of an open pool, every drop and every release of a registered worker ends with at least minWarm workers |
| `WorkerProtocol.ClosedPoolGrowsOnlyByDrops` | providers/python/src/worker_pool.py:305-315 | After close a step registers workers iff it is a drop that finds fewer than minWarm, because the drop ignores the closed flag |
| `WorkerProtocol.ClosedPoolRefills` | providers/python/src/worker_pool.py:196-315 | With minWarm >= 1 some run ends with a closed pool of minWarm workers: a call leases, the pool closes, the call fails and drops its worker |
| `WorkerProtocol.ClosedStaysEmptyIff` | providers/python/src/worker_pool.py:196-315 | A closed pool stays empty in every run iff minWarm is 0 |
| `WorkerLives.FinishIsExact` | providers/python/src/worker_pool.py:280-295 | A call that ends leaves its worker idle, stamped now and with its task count, or without it iff it is retired above the warm floor; all others stay and only fresh workers join, up to the floor |
| `WorkerLives.DropIsExact` | providers/python/src/worker_pool.py:305-315 | A failed call removes its worker and no other, and the pool is filled up to the warm floor |
| `WorkerLives.RecordIsExact` | providers/python/src/worker_pool.py:297-303 | A counted reply adds one task to its worker and retires it iff the quota is now used up |
| `WorkerLives.AcquireIsExact` | providers/python/src/worker_pool.py:257-278 | An acquire pass of an open pool forgets exactly the dead workers and leases the first living idle one, or a new one iff all living ones are busy and there is room; otherwise all are busy and the pool is full |
| `WorkerLives.TickIsExact` | providers/python/src/worker_pool.py:354-414 | A tick of an open pool removes exactly dead workers and living ones idle for the timeout, the longest idle first; above the warm floor none of those stays |
| `WorkerLives.CloseIsExact` | providers/python/src/worker_pool.py:196-207 | Closing forgets all workers and leaves calls alone; a second close changes nothing |
| `WorkerLives.TasksAreCounted` | providers/python/src/worker_pool.py:297-303 | After every run a registered worker is charged with exactly the replies counted for it while it was registered |
| `WorkerLives.IdleStays` | providers/python/src/worker_pool.py:257-414 | No step but closing, its own death, a lease and a late enough tick touches an idle worker |
| `WorkerLives.ReleasedWorkerStays` | providers/python/src/worker_pool.py:280-414 | In every run a worker released at t that is still registered reads idle since t with its task count, and stays so until it dies, is leased again, the pool is closed, or a tick comes at t + idle timeout or later |
| `WorkerLives.LongIdleWorkerGoes` | providers/python/src/worker_pool.py:354-414 | The converse: a tick that finds a worker idle for the timeout removes it, unless it leaves no more than the warm floor |
| `WorkerLives.TaskRoundTrip` | providers/python/src/worker_pool.py:65-124 | A task sent, taken, answered and read gives the call the reply to its own task and leaves the worker as it was |
| `WorkerLives.RemovedWorkerStops` | providers/python/src/worker_pool.py:65-79 | A removed idle worker that is sent the stop sentinel ends |
| `Selector.SortIgnoresInputOrder` | service/base/strategy/selector.go:37-46 | The candidate order depends on the candidates only, not on the order they are given in |
| `Selector.BalancePickIsLeastLoaded` | service/base/strategy/selector.go:97-109 | A balance pick has least load among the candidates; there is no pick iff there are no candidates |
| `Selector.RotationIsFair` | service/base/strategy/selector.go:97-109 | Over any n consecutive counter values each of m positions comes up floor(n/m) or ceil(n/m) times, unless the window crosses the 64-bit wrap and m does not divide 2^64 |
| `Selector.WrapIsUnfair` | service/base/strategy/selector.go:97-109 | If m does not divide 2^64 there is a window across the wrap in which position 0 comes up too often |
| `Selector.FairnessIsExact` | service/base/strategy/selector.go:97-109 | Rotation over m positions is fair in every window from every counter value iff m divides 2^64 |
| `Selector.BalanceIsFair` | service/base/strategy/selector.go:97-109 | Over n consecutive balance picks on an unchanged list each of the m least-loaded services is picked floor(n/m) or ceil(n/m) times, from any counter value, unless the window crosses the 64-bit wrap and m does not divide 2^64 |
| `Selector.SequentialRotates` | service/base/strategy/selector.go:65-95 | Over n consecutive sequential picks on an unchanged list each of its m services is picked floor(n/m) or ceil(n/m) times, and over m picks exactly once, with the same exception |
| `Selector.SortedByLoadThenName` | service/base/strategy/selector.go:37-46 | In the candidate order a less loaded candidate comes first, and of equally loaded ones the smaller name |
| `Selector.Selector.Select` | service/base/strategy/selector.go:65-109 | The stateful selector picks by its mode and moves the 64-bit counter by one exactly when it used it |
| `Cooling.ManagerMatchesHistory` | service/base/cooling/manager.go:37-87 | For a clock that never goes back: the stored count is the number of counted failures since the last success, trigger or reset and below the threshold, and the service reads as cooled at t iff a trigger since the last reset covers t |
| `Cooling.CategoryMatchesHistory` | service/base/cooling/manager.go:60-87 | The error category shown is that of the last failure of the service since it was last reset; a success keeps it |
| `Cooling.LooksAreInvisible` | service/base/cooling/manager.go:37-58 | Dropping any Snapshot, IsCooled or All calls from a run changes no later answer, although each of them may write |
| `Cooling.TriggersAreFloor` | service/base/cooling/manager.go:60-78 | Without a success or reset the triggers are the counted failures divided by the threshold, rounded down |
| `Cooling.Manager.Snapshot` | service/base/cooling/manager.go:47-53 | Answers the current state and stores it |
| `Cooling.Manager.IsCooled` | service/base/cooling/manager.go:55-58 | Answers whether the service is cooled now and stores the current state |
| `Cooling.Manager.RecordFailure` | service/base/cooling/manager.go:60-78 | The failure step of the history, for exactly the named service |
| `Cooling.Manager.RecordSuccess` | service/base/cooling/manager.go:80-87 | The success step of the history, for exactly the named service |
| `Cooling.Manager.Forget` | service/base/cooling/manager.go:89-93 | Reset of one service |
| `Cooling.Manager.ForgetAll` | service/base/cooling/manager.go:95-99 | Reset of all services |
| `Stats.CountersAreCounts` | service/base/stats/stats.go:89-172 | In every run, resets included, each counter of each of the three tables is the number of entries for its row since the row was last cleared |
| `Stats.ErrorsMatchHistory` | service/base/stats/stats.go:126-161 | The error category a row shows is that of its last failure since it was cleared |
| `Stats.ServicesMatchHistory` | service/base/stats/stats.go:89-150 | The service an operation shows is that of its last call since all was cleared |
| `Stats.RowsAddUp` | service/base/stats/stats.go:89-172 | In every run, resets included, a service counter is the sum of its counters over operations plus the entries without an operation since it was last cleared |
| `Stats.ColumnsAddUp` | service/base/stats/stats.go:89-245 | In every run, resets included, an operation counter is the sum over services, plus resolution failures for the failure counter, plus what resets of single services erased |
| `Stats.ColumnsAddUpIff` | service/base/stats/stats.go:89-245 | An operation counter is the sum over services iff no reset of a single service, since all was cleared, hit a run that had counted |
| `Stats.ResetBreaksColumn` | service/base/stats/stats.go:240-245 | One success and a reset of its service leave the operation at one and the sum at zero |
| `Stats.ActiveIsInFlight` | service/base/stats/stats.go:89-245 | In every interleaving of calls and resets a row shows the calls really in flight, less the fewest there were at any moment since the row was last cleared |
| `Stats.ActiveIsExactIff` | service/base/stats/stats.go:89-245 | A row shows exactly the calls in flight iff since it was last cleared there was a moment with none (the start of the run is one) |
| `Stats.ResetHidesCall` | service/base/stats/stats.go:240-245 | A reset of a service during its only call leaves the row at zero with one call in flight |
| `Stats.ActiveRowsAddUp` | service/base/stats/stats.go:89-245 | Active counts over the operations of a service, together with its calls in flight without an operation, sum to its own without resets; with resets they do together with what each row fails to show |
| `Stats.ActiveColumnsAddUp` | service/base/stats/stats.go:89-245 | The same over the services of an operation |
| `Stats.CallsAreConserved` | service/base/stats/stats.go:89-161 | Without resets, begun calls (and resolution failures, for an operation) = successes + failures + active |
| `Stats.RowAfter` | service/base/stats/stats.go:89-172 | An entry reaches exactly the rows it covers and leaves every other row of the three tables alone |
| `Stats.Manager.Begin` | service/base/stats/stats.go:89-101 | The new tables are the old ones after one begun entry |
| `Stats.Manager.EndSuccess` | service/base/stats/stats.go:103-124 | The new tables are the old ones after one success entry |
| `Stats.Manager.EndFailure` | service/base/stats/stats.go:126-150 | The new tables are the old ones after one failure entry |
| `Stats.Manager.RecordResolutionFailure` | service/base/stats/stats.go:152-161 | The new tables are the old ones after one resolution failure, which a blank operation does not record |
| `Stats.Manager.RecordCooldown` | service/base/stats/stats.go:163-172 | The new tables are the old ones after one cooldown entry |
| `Stats.Manager.Reset` | service/base/stats/stats.go:232-238 | Clears all three tables |
| `Stats.Manager.ResetService` | service/base/stats/stats.go:240-245 | Clears the rows of one service in two tables and leaves the operation table alone |
| `ServiceRegistry.Registry.Register` | service/base/registry/registry.go:75-79 | Stores the service under its own name and no other |
| `ServiceRegistry.Registry.Remove` | service/base/registry/registry.go:81-89 | Removes exactly the named service and says whether it was there |
| `ServiceRegistry.Registry.UpdateHealth` | service/base/registry/registry.go:91-104 | Changes only health, last error and time of check of the named service: no name or endpoint, no other service |
| `ServiceRegistry.Registry.UpdateCapabilities` | service/base/registry/registry.go:106-116 | Replaces the operations by the trimmed, de-duplicated list; no name or endpoint changes |
| `ServiceRegistry.Registry.SetEnabled` | service/base/registry/registry.go:118-128 | Changes only the enabled flag of the named service |
| `ServiceRegistry.Registry.ResetHealth` | service/base/registry/registry.go:130-143 | Forgets health, error and time of check of the named service, which counts as healthy iff it is enabled |
| `ServiceRegistry.Registry.List` | service/base/registry/registry.go:152-163 | Every registered service exactly once, in name order |
| `Routing.PreferenceOrdersPermutation` | service/base/routing/resolver.go:365-390 | With distinct names and no candidate named twice the order is a permutation: preferred services first in preference order, the rest by (load, name) |
| `Routing.PreferenceMultiplicity` | service/base/routing/resolver.go:365-390 | For every preference list a candidate comes into the order as often as the list names it, and once if it does not |
| `Routing.PermutationIff` | service/base/routing/resolver.go:365-390 | The order is a permutation of the candidates iff the list names none of them twice |
| `Routing.DuplicatePreferenceDuplicates` | service/base/routing/resolver.go:365-390 | A concrete list: the one candidate, named twice, is in the order twice |
| `Routing.ChainIsOrderedScope` | service/base/routing/resolver.go:206-278 | The fallback chain is a permutation of the eligible, language-narrowed scope in the promised order and names no service twice |
| `Routing.ChainNamesEligible` | service/base/routing/resolver.go:206-278 | Every name in the fallback chain is that of an eligible candidate |
| `Routing.ExactlyOneIsSelected` | service/base/routing/resolver.go:206-278 | On a resolved route exactly one candidate is marked selected, and it is eligible and in scope |
| `Routing.ScopeIsEligible` | service/base/routing/resolver.go:329-352 | The scope holds eligible candidates only and is empty iff none is eligible, so narrowing by language never loses the last one |
| `Routing.OrderWithPreference` | service/base/routing/resolver.go:365-390 | The three loops compute the order of PreferenceOrdersPermutation |
| `Routing.MarkRoute` | service/base/routing/resolver.go:245-277 | After the marking loops a candidate is in scope iff the chain names it and selected iff it is the selected service |
| `Routing.OrderScope` | service/base/routing/resolver.go:206-242 | Nothing is ordered iff nothing is eligible; the preference reason is given iff a preferred service is in scope and no language was asked for, the language reason iff some eligible candidate speaks it |
| `Routing.Resolver.EvaluateCandidates` | service/base/routing/resolver.go:280-327 | One candidate per registered service, as Serving.EligibleIff describes it, not yet in scope or selected; looking at cooling changes no later answer |
| `Routing.Resolver.PreviewStrategy` | service/base/routing/resolver.go:206-278 | Strategy mode fails iff no candidate is eligible; otherwise the selected service is in the chain: its head when a preference decided, the pick of the selector when not, with the reason that says which |
| `Routing.Resolver.PreviewSpecified` | service/base/routing/resolver.go:161-204 | Specified mode selects the requested service iff it is registered and eligible, and otherwise reports why and marks it as the scope |
| `Routing.Resolver.Resolve` | service/base/routing/resolver.go:127-159 | The route of a request over the services registered now: blank operation, specified mode or strategy mode, with the pick of the selector where it decides |
| `Text.NormalizedListIsClean` | service/base/services/policy.go:365-380 | A normalised list holds no blanks, no untrimmed names and no duplicates |
| `Text.NormalizedListHolds` | service/base/services/policy.go:365-380 | A normalised list holds exactly the trimmed items that are not blank, in the order in which they first come |
| `Text.NormalizeStringList` | service/base/services/policy.go:365-380 | The loop with its seen set computes the normalised list |
| `Policy.UpdateKeepsValid` | service/base/services/policy.go:224-273 | Every update keeps names trimmed, lists de-duplicated and the attempt budget positive |
| `Policy.LastEntryDecides` | service/base/services/policy.go:224-273 | The last entry of an update decides on its operation field by field: what it gives is stored trimmed and de-duplicated, what it resets is gone, and what it leaves out, like every other operation, stays |
| `Policy.GlobalPartDecides` | service/base/services/policy.go:224-273 | The global part of an update decides on the global settings alone, and a budget that is not positive is ignored |
| `Policy.RollbackRestoresTables` | service/base/services/policy.go:104-164 | Applying a snapshot of a valid store gives back all preferences and all operation policies except the blank ones |
| `Policy.RollbackRestoresRouting` | service/base/services/policy.go:104-164 | Per operation, a rollback restores fallback and, with fallback, budget and categories iff these do not hang on a global list that was empty at the snapshot and no longer is |
| `Policy.RollbackUndoesUpdates` | service/base/services/policy.go:104-164 | After any sequence of updates, applying an earlier snapshot with a non-empty global list restores preferences and routing of every operation |
| `Policy.RollbackReportsBudget` | service/base/services/policy.go:104-164 | The reported attempt budget survives a rollback iff the operation had no blank entry that pinned it to one |
| `Policy.BlankEntryChangesBudget` | service/base/services/policy.go:104-164 | A concrete store: a blank entry reports a budget of one before the rollback and two after |
| `Policy.PolicyStore.UpdatePolicies` | service/base/services/policy.go:224-273 | The loops over the update end in the updated store |
| `Policy.PolicyStore.ApplyState` | service/base/services/policy.go:133-164 | The new tables hold exactly what the snapshot entries say, whichever entry wins where names agree once trimmed |
| `Dispatch.AttemptServices` | service/base/services/dispatcher.go:300-330 | The loop with its seen set, and the cut after it, compute the attempt order |
| `Dispatch.AttemptsAreDistinct` | service/base/services/dispatcher.go:300-330 | No service is tried twice, whatever the preview and the policy |
| `Dispatch.BudgetsAgree` | service/base/services/dispatcher.go:300-341 | On resolved routes shouldRetry at i agrees with the attempt order (retry a retryable failure iff i + 1 is inside the order and the mode is strategy) iff it is not one past an order that leaves out a blank name of the chain |
| `Dispatch.BlankNameIsCounted` | service/base/services/dispatcher.go:332-341 | A concrete route with a blank name in the chain: the retry test goes one attempt beyond the order |
| `Dispatch.ShortestPrefixIsUnique` | service/base/services/dispatcher.go:106-174 | There is exactly one prefix of an order that ends at the first stop or at its end |
| `Dispatch.SameRoutingSameDecisions` | service/base/services/dispatcher.go:300-341 | Policies that agree on fallback and, with fallback, on budget and categories give the same attempt order and retry decision for every preview, failure and attempt |
| `Dispatch.RollbackIsExact` | service/base/services/policy.go:104-164 | A rollback restores preferences, and every attempt order and retry decision, of an operation iff not all of these hold: the global list was empty at the snapshot and no longer is, fallback is allowed with a budget other than one, and the operation has no list of its own |
| `Dispatch.EmptyListIsNotRestored` | service/base/services/policy.go:104-164 | A concrete rollback: a category set by an update after the snapshot still makes its failures retry |
| `Dispatch.RollbackRestoresDispatch` | service/base/services/policy.go:104-164 | After any updates a rollback to a snapshot with a non-empty global list restores preferences, attempt order and every retry decision of every operation |
| `Dispatch.ResolvedIsRouted` | service/base/routing/resolver.go:127-278 | Every resolved request has a chain without duplicates that contains the selected service |
| `Dispatch.UnresolvedRows` | service/base/stats/stats.go:152-161 | A request without a route leaves every active count and success alone and adds one failure to its operation only |
| `Dispatch.Dispatcher.Attempt` | service/base/services/dispatcher.go:109-164 | One call changes the three tables by exactly its begin, its outcome and, when a failure leaves the service cooled, a cooldown; moves the cooling of that service only; and says whether a cooldown applies |
| `Dispatch.Dispatcher.RecordTransportFailure` | service/base/services/dispatcher.go:227-260 | A failure counts toward cooling by its category and notes a cooldown whenever the service is cooled afterwards |
| `Dispatch.CallsAreAccounted` | service/base/stats/stats.go:89-172 | After any calls every row has counted each success, each failure and each failure that left its service cooled, and shows as many active calls as before |
| `Dispatch.Dispatcher.CallInTurn` | service/base/services/dispatcher.go:106-187 | Calls exactly the shortest prefix of the attempt order that ends in success, a failure that is not retryable, or an exhausted budget; no service twice; the three tables and the cooling states are exactly those after these calls |
| `Dispatch.Dispatcher.Dispatch` | service/base/services/dispatcher.go:78-187 | For every transport oracle and valid policy: the route of the registered services with the pick of the selector, the calls along it (who, in which order and how far is in Serving), the response, the exact three tables and the cooling states |
| `Serving.EligibleIff` | service/base/routing/resolver.go:280-327 | From registry, statistics, clock and cooling history: a candidate is eligible iff the operation is not blank, the service is enabled, lists the operation or none, is not known to be unhealthy, and no trigger since its last reset covers the present; the exclusion is the literal category of the first that fails |
| `Serving.ScopeIsNarrowed` | service/base/routing/resolver.go:329-352 | The scope is all eligible candidates or, if some of them speak the language asked for, exactly those |
| `Serving.CalledMayServe` | service/base/services/dispatcher.go:78-187 | Every service a dispatch calls is registered, enabled, supports the operation, is not known to be unhealthy and is not cooled when the request comes |
| `Serving.CallsFollowChain` | service/base/services/dispatcher.go:300-330 | The selected service is called first, and each further call goes to the first service of the chain that is not blank and was not called yet |
| `Serving.NextCallIff` | service/base/services/dispatcher.go:332-341 | A call is followed by another iff the mode is strategy, fallback is on for the operation, the failure is recorded under a category listed for it, and neither route nor budget is used up; the own mode, budget and list of the operation apply where it has them, else the global ones |
| `Serving.OneCallOnly` | service/base/services/dispatcher.go:432-460 | An operation stored as disabled, or not stored as enabled while the global flag is off, or a mode other than strategy, means at most one call |
| `Serving.EnabledReachesSecond` | service/base/services/dispatcher.go:432-460 | An operation stored as enabled lets a listed failure of the first service reach a second one of the chain even with the global flag off |
| `Serving.CallsAreEvents` | service/base/attribution/attribution.go:28-35 | Over any calls the cooling states develop as over the history of successes and failures, in which only recorded delegation, transport and timeout errors count |
| `Serving.CooledForNextIff` | service/base/services/dispatcher.go:227-260 | After any calls a service reads as cooled for a later request iff a trigger among all failures, past and new, since its last reset covers that time |
| `ReplicaNames.ParseOfFormat` | service/base/services/provider_container_pool.go:733-772 | Parsing a printed replica index gives it back iff it is a positive 64-bit integer, for every prefix |
| `ReplicaNames.FormatIsInjective` | service/base/services/provider_container_pool.go:743-749 | Different prefixes or different positive indexes give different names |
| `ReplicaNames.FormatIsPadded` | service/base/services/provider_container_pool.go:743-749 | A name is prefix, dash and the index in decimal digits, with leading zeros only to make them three; an index that is not positive is printed as 1 |
| `ReplicaNames.FreeIndex` | service/base/services/provider_container_pool.go:733-741 | The name search ends for every set of taken names, at an index from the counter on whose name is free |
| `ReplicaNames.FreeIndexIsFirst` | service/base/services/provider_container_pool.go:733-741 | Every name the search passes over was taken |
| `ReplicaNames.ReservationsAreDistinct` | service/base/services/provider_container_pool.go:733-741 | No run of reservations and adoptions reserves a name twice, whatever names are in use at each spawn |
| `Containers.EndpointsAreDistinct` | service/base/services/provider_container_pool.go:751-765 | Children never share an endpoint: the index parsed back from a name is the one that was printed into it |
| `Containers.EndpointIsPrinted` | service/base/services/provider_container_pool.go:751-753 | An endpoint is the host prefix, the padded index and the port |
| `Containers.ReserveKeepsValid` | service/base/services/provider_container_pool.go:496-506 | The reserved name belongs to no child and was never issued before |
| `Containers.SearchEndsAtOnce` | service/base/services/provider_container_pool.go:733-741 | In a family that keeps its invariant the name search ends at its first candidate |
| `Containers.RegisterKeepsValid` | service/base/services/provider_container_pool.go:594-604 | Registering a spawned child keeps registry and children in agreement and adds one active child, or none once the pool is stopped |
| `Containers.PruneKeepsValid` | service/base/services/provider_container_pool.go:690-708 | Dropping exited children keeps registry and children in agreement |
| `Containers.RefreshKeepsValid` | service/base/registry/registry.go:91-143 | Any change of the registry that keeps names and endpoints keeps the agreement |
| `Containers.AdoptingIsExact` | service/base/services/provider_container_pool.go:444-494 | Adopting into an empty family registers exactly the running containers that respond, each managed iff its inspection said so, idle since now, healthy and not stopping; the names of all running ones stay reserved |
| `Containers.ScaleDownIsExact` | service/base/services/provider_container_pool.go:396-437 | Reconcile stops exactly min(expired idle managed, max(0, active - warm)) children: never a busy or unmanaged one, the longest idle first, in any iteration order |
| `Containers.ScaleDownKeepsValid` | service/base/services/provider_container_pool.go:396-437 | Scale-down keeps registry and children in agreement and never goes below the warm replicas |
| `Containers.Family.constructor` | service/base/services/provider_container_pool.go:157-177 | A family starts empty and in agreement with a registry that holds none of its names |
| `Containers.Family.ActiveCount` | service/base/services/provider_container_pool.go:710-718 | Counts exactly the children that are not stopping |
| `Containers.Family.PruneExited` | service/base/services/provider_container_pool.go:690-708 | Exactly the exited children leave the family and the registry |
| `Containers.Family.FirstIdleChild` | service/base/services/provider_container_pool.go:720-731 | Finds an idle healthy child that no other was idle longer than, or there is none |
| `Containers.Family.TryAcquire` | service/base/services/provider_container_pool.go:301-319 | The locked pass of acquire: stopped, leased the longest idle child, may grow (below the maximum, nothing idle) or full |
| `Containers.Family.NextServiceName` | service/base/services/provider_container_pool.go:733-741 | The loop without a visible bound ends for any children and reserves the first free name |
| `Containers.Family.RegisterChild` | service/base/services/provider_container_pool.go:585-604 | The locked tail of spawn: learn capabilities, refuse when stopped, otherwise enter child and service together |
| `Containers.Family.SpawnChild` | service/base/services/provider_container_pool.go:496-604 | An uninterrupted spawn adds exactly the child of the next name, or nothing on failure or after stop |
| `Containers.Family.Acquire` | service/base/services/provider_container_pool.go:293-343 | An acquire that nothing interrupts leases the longest idle child or, below the maximum, a new one, with the exact state after each outcome; active stays <= maximum and the lease is exclusive |
| `Containers.Family.ReleaseLease` | service/base/services/provider_container_pool.go:345-358 | The child goes idle, stamped with the time of the release and otherwise unchanged; an unknown name changes nothing |
| `Containers.Family.Start` | service/base/services/provider_container_pool.go:245-261 | Start adopts, then spawns exactly the missing warm replicas, and fails at the first unreachable container or failed launch; adopted children are as they were found, the others managed; never more than the maximum are active |
| `Containers.Family.AdoptExisting` | service/base/services/provider_container_pool.go:444-494 | Adoption goes through indexes 1 to maximum and stops at the first unreachable container; every adopted child is managed iff its inspection said so, idle since now, healthy and not stopping |
| `Containers.Family.ScaleDown` | service/base/services/provider_container_pool.go:396-437 | The collecting, sorting and stopping loops stop exactly the children ScaleDownIsExact describes |
| `Containers.Family.Close` | service/base/services/provider_container_pool.go:263-291 | Marks every child as stopping once, and hands the managed ones to be stopped |
| `Autoscaler.StepKeepsInv` | service/base/services/provider_container_pool.go:293-442 | Every lock-held region, in any interleaving of acquires, releases, the reconcile loop, exits, refreshes and close, keeps the invariant |
| `Autoscaler.RegistryAgrees` | service/base/services/provider_container_pool.go:373-494 | In every reachable state the family names in the registry are exactly the children, at equal endpoints, and no spawn under way shares a name with a child or another spawn |
| `Autoscaler.StepPotential` | service/base/services/provider_container_pool.go:293-394 | Only a decision to grow or a reconcile turn can raise active plus owed spawns, the one to the maximum and the other to warm, on top of what is already decided |
| `Autoscaler.OvershootIsBounded` | service/base/services/provider_container_pool.go:293-394 | With at most k overlapping acquires and one reconcile loop, active children plus spawns under way never exceed maximum - 1 + k + warm |
| `Autoscaler.OvershootIsReached` | service/base/services/provider_container_pool.go:293-394 | Every configuration, whatever its warm replicas, has a run from what a successful start leaves that reaches this bound |
| `Autoscaler.CapHoldsIff` | service/base/services/provider_container_pool.go:293-394 | Every run stays within the maximum iff at most one acquire is under way at a time and warm is 0 |
| `Autoscaler.AtMostTwoHolders` | service/base/services/provider_container_pool.go:319-331 | No child ever has more than two lease holders, however many calls overlap |
| `Autoscaler.TwoCallersShare` | service/base/services/provider_container_pool.go:319-331 | With two overlapping acquires some run leases one child to both: it is idle between registering and marking |
| `Autoscaler.ExclusiveIff` | service/base/services/provider_container_pool.go:319-331 | Leases are exclusive in every run iff at most one acquire is under way at a time |
| `Autoscaler.SequentialRunsAreSafe` | service/base/services/provider_container_pool.go:293-442 | In runs whose acquires and reconcile turns do not overlap, active <= maximum and every lease is exclusive, for any warm |
| `FamilyLives.AcquireTurn` | service/base/services/provider_container_pool.go:301-331 | The locked pass of an acquire forgets exited replicas, leases the longest idle healthy one, and decides to grow iff there is none and fewer than the maximum are active |
| `FamilyLives.ReleaseTurn` | service/base/services/provider_container_pool.go:345-358 | A released replica is idle since the release, and no other replica or service is touched |
| `FamilyLives.SpawnTurn` | service/base/services/provider_container_pool.go:585-604 | A spawn that ends adds one managed idle replica and its service, with the operations learnt, or nothing once the pool is stopped |
| `FamilyLives.KeeperSpawnTurn` | service/base/services/provider_container_pool.go:360-394 | The same for a spawn of the reconcile loop, which then counts one more |
| `FamilyLives.MarkTurn` | service/base/services/provider_container_pool.go:319-331 | Taking a new child makes it busy and touches no other |
| `FamilyLives.ScaleTurn` | service/base/services/provider_container_pool.go:396-437 | A scale-down stops only managed replicas idle for the scale-down time, the longest idle first, never below the warm ones; while more are active none of those stays; services go exactly with their replicas |
| `FamilyLives.ReleasedReplicaStays` | service/base/services/provider_container_pool.go:345-437 | In every run a replica released at t stays registered and idle since t until it exits, is leased or released again, the pool is closed, or a scale-down comes at t + scale-down time or later |
| `FamilyLives.LongIdleReplicaGoes` | service/base/services/provider_container_pool.go:396-437 | The converse: a scale-down that finds a managed replica idle for the scale-down time stops it, unless no more than the warm ones are left |
| `FamilyLives.ForeignIsNeverStopped` | service/base/services/provider_container_pool.go:396-494 | No run ever stops a replica that was not managed at its start: it never reads as managed and leaves only when its container is found gone |
| `FamilyLives.UnlabelledIsNeverStopped` | service/base/services/provider_container_pool.go:245-494 | After a start, no run ever stops a replica whose container was inspected as running without the managed label |
| `AuditLog.RestartEquality` | service/base/services/audit_log.go:81-251 | After any run of Record, Prune and Load, reloading the file gives exactly the records in memory, iff the log is disabled, or kept in a file, or nothing was recorded since memory was last pruned to nothing |
| `AuditLog.RunKeepsInStep` | service/base/services/audit_log.go:81-251 | In every run memory is the reverse of the last min(limit, lines) lines of the file |
| `AuditLog.MemoryIsNewest` | service/base/services/audit_log.go:81-251 | After any run of an enabled log memory holds the newest of what was loaded and recorded since, newest first, and as many as the limit and the prunes left |
| `AuditLog.StepKeepsInStep` | service/base/services/audit_log.go:123-251 | Each of Record, Prune and Load keeps memory and file in step |
| `AuditLog.AuditStore.Load` | service/base/services/audit_log.go:81-121 | Memory becomes the last lines of the file, newest first; nothing happens without a file |
| `AuditLog.AuditStore.NewestFirst` | service/base/services/audit_log.go:112-116 | The in-place loop with two indexes reverses |
| `AuditLog.AuditStore.Append` | service/base/services/audit_log.go:123-159 | One line is appended and its record comes first in memory, the oldest beyond the limit dropped |
| `AuditLog.AuditStore.Prune` | service/base/services/audit_log.go:190-251 | Memory keeps its newest records and the file is rewritten to hold exactly those, oldest first |
| `AuditLog.AuditStore.List` | service/base/services/audit_log.go:253-276 | The loop lists exactly the records that ListIsExact describes |
| `AuditLog.ListIsExact` | service/base/services/audit_log.go:253-276 | The listed records are those whose action, target type and target equal the ones asked for, blank ones aside, in order, and no more than a positive limit |
| `SeatPlanner.LimitsFrom` | providers/python/src/new_protocol_register/magic.py:57-71 | Configured limits: each seat limit lies between 0 and the capacity, in-range values are kept, others go to the nearest bound, unset ones to the defaults |
| `SeatPlanner.UserEntriesSkipOwners` | providers/python/src/new_protocol_register/magic.py:2029-2046 | A user entry comes from a listed user that is not an owner, and every such user with an id or email has one |
| `SeatPlanner.CollectEntries` | providers/python/src/new_protocol_register/magic.py:1229-1243 | Entries are those of all invites, then of all users that are not owners |
| `SeatPlanner.EnoughCapacityIsTargetsMet` | providers/python/src/new_protocol_register/magic.py:1270-1279 | The early-exit test holds iff nothing is required, or the request fits the chatgpt limit and both targets are met |
| `SeatPlanner.RemoveMatchingTakesOne` | providers/python/src/new_protocol_register/magic.py:2101-2131 | Removing by kind and id or email takes exactly one matching entry when there is one |
| `SeatPlanner.RemoveMatchingEntry` | providers/python/src/new_protocol_register/magic.py:2101-2131 | The flagged loop computes that removal |
| `SeatPlanner.PlanRemovals` | providers/python/src/new_protocol_register/magic.py:1311-1354 | The two planner loops end, each iteration taking one entry, and compute the plan whose order PlanIsInOrder gives |
| `PlanOrder.PlanIsInOrder` | providers/python/src/new_protocol_register/magic.py:1308-1354 | Over the seats left before each removal: while there are too many chatgpt seats and one may go, an unprotected chatgpt seat is planned; then, while there are too many seats, an unprotected one, no chatgpt seat while a codex seat may go; no user while an invite of the category may go; within category and kind none with a smaller email is left |
| `PlanOrder.PlanEndsInOrder` | providers/python/src/new_protocol_register/magic.py:1311-1354 | The plan ends when there are no longer too many chatgpt seats, or none that may go, and no longer too many seats, or none that may go |
| `PlanOrder.RemovalTakesFirst` | providers/python/src/new_protocol_register/magic.py:2101-2131 | A planned removal takes the first entry of its kind with its id or its email and leaves all others in their order |
| `PlanOrder.EntriesAreListed` | providers/python/src/new_protocol_register/magic.py:1229-1243 | The seats are exactly those of the invites and of the users that are no owners by role or email, with trimmed id, normalised email, and codex iff the type is one of the codex types |
| `SeatPlanner.PlanIsSafe` | providers/python/src/new_protocol_register/magic.py:1311-1354 | No protected entry is ever planned, and planned plus remaining entries account for every seat |
| `SeatPlanner.PlanIsFixpoint` | providers/python/src/new_protocol_register/magic.py:1311-1354 | Planning again on the planned remaining seats removes nothing |
| `SeatPlanner.PlanIsExact` | providers/python/src/new_protocol_register/magic.py:1270-1354 | For seats without a confusable or exposed pair: the plan has max(0, usedChatgpt - targetChatgpt, usedTotal - targetTotal) removals, each target raised to what is protected, and a target is met iff the protected entries alone meet it |
| `SeatPlanner.PlanLength` | providers/python/src/new_protocol_register/magic.py:1270-1354 | For any seats: a plan that meets both targets has that many removals, each codex seat lost in the first loop counting as one more chatgpt seat |
| `SeatPlanner.NeededIsLeast` | providers/python/src/new_protocol_register/magic.py:1270-1276 | For any seats: no choice of seats to keep meets both targets by removing fewer |
| `SeatPlanner.PlanIsMinimalIff` | providers/python/src/new_protocol_register/magic.py:1311-1354 | For seats with distinct ids: every plan that meets both targets is as short as possible, whatever the limits and the seats required, iff no codex seat stands before an unprotected chatgpt seat of its kind that shares its email; without such a pair plans are minimal for any ids |
| `SeatPlanner.PlanStopsAtProtected` | providers/python/src/new_protocol_register/magic.py:1314-1354 | For any seats: the planned remaining seats miss a target iff the protected ones among them miss it |
| `SeatPlanner.NoneTaken` | providers/python/src/new_protocol_register/magic.py:2101-2131 | A loop takes no seat of a sort, codex or protected, none of which stands before a candidate whose removal would match it |
| `SeatPlanner.ConfusableIsLonger` | providers/python/src/new_protocol_register/magic.py:1311-1354 | For seats with distinct ids and a confusable pair there are limits under which the plan meets both targets and is longer than needed |
| `SeatPlanner.ReachableIsReached` | providers/python/src/new_protocol_register/magic.py:1311-1354 | For any seats: the plan meets both targets whenever the protected entries alone do |
| `SeatPlanner.PlanIsMinimal` | providers/python/src/new_protocol_register/magic.py:1270-1354 | For seats without a confusable pair whose protected ones meet the targets, the plan has exactly the needed length and no choice of seats to keep meets both targets by removing fewer |
| `SeatPlanner.PlanMakesRoom` | providers/python/src/new_protocol_register/magic.py:1274-1354 | For any seats: after the plan the early-exit test succeeds iff nothing is required, or the request fits the chatgpt limit and the protected entries that remain meet both targets; without an exposed pair all protected entries remain |
| `SeatPlanner.DistinctSeatsAreInterchangeable` | providers/python/src/new_protocol_register/magic.py:2101-2131 | Distinct ids and emails among the entries of a kind leave no removal that can match seats that count differently |
| `SeatPlanner.InterchangeableIsClear` | providers/python/src/new_protocol_register/magic.py:2101-2131 | Entries no removal of which can match one that counts differently have no confusable and no exposed pair, so the count is exact and the plan minimal |
| `SeatPlanner.SharedEmailMissesTarget` | providers/python/src/new_protocol_register/magic.py:2101-2131 | With the default limits and four seats required, two invites that share an email make the planner plan two removals where keeping one seat would do |
| `SeatPlanner.CarryOut` | providers/python/src/new_protocol_register/magic.py:1362-1404 | The projected seats after carrying out a plan, for any outcome of each call |
| `SeatPlanner.FullSuccessIsAsPlanned` | providers/python/src/new_protocol_register/magic.py:1362-1404 | If every call frees its seat (done, or the user was already gone), the projected seats are the planned remaining ones, for any entries |
| `SeatPlanner.UnfreedSeatsStay` | providers/python/src/new_protocol_register/magic.py:1362-1404 | If every call fails or does not find its invite, the projected seats are the ones at the start |
| `SeatPlanner.DecideCleanup` | providers/python/src/new_protocol_register/magic.py:1229-1354 | Idle, already enough capacity for the seats requested or by default, or a plan for them that removes no preserved member, no owner by role or email and only listed users |

## Left out

- Process start, Docker, HTTP, JSON and YAML: every call that can succeed or fail is an oracle or a step that may fail. A worker process that cannot be started is not modelled.
- `_stop_worker` and `_cleanup_queues`: a removed worker leaves the table; its stop sentinel and its late replies stay in the protocol model, join and kill timings do not.
- Fresh ids: worker ids, task ids and replica indexes are counters; wrap-around of the replica counter is not modelled. Worker ids grow, so the insertion order of the worker table is the order of ids.
- Time is a natural number of ticks, and zero is the zero time; timeouts and deadlines are flags given to a pass of the loop that waits.
- Waiting inside acquire: the wait loops are repetitions of the modelled pass.
- The process pool (`service/base/services/provider_process_pool.go`): the simpler twin of the container pool, with an unsorted scale-down.
- Several provider families: one family and the registry are modelled; which family a name belongs to when prefixes overlap is not.
- Children of a family are values in a map that the methods replace; the source's pointers to children are never shared outside the map, so no aliasing is lost.
- Labels, ports, environments and images of containers: an adopted container is running and fitting, outdated, unreachable or absent.
- Statistics rows that a read creates with all counters zero: a missing row reads as zero.
- Health and capability refresh before a dispatch, and concurrent changes during it: the services and the policy of a dispatch are those at its start.
- The trace store and attribution details: a response reports its attempts as with tracing on, and its error category as long as failures are recorded.
- The identity of the random selector's pick: the drawn number is a parameter.
- Trimming and lower-casing are those of ASCII.
- Audit records are stored as values: line formats, scanner limits and write errors are not modelled, nor writes that overlap outside the lock.
- Config defaults, HTTP handlers, account registration, mail, phone and browser flows, import-code encryption and the provider servers in other languages: nothing that spans operations, or scripting against third parties.
- Dispatch.Dispatcher.Dispatch: says nothing about messages, trace ids and the route reason text of the response, which only restate the route.
- Selector.SequentialRotates: like BalanceIsFair it is about an unchanged list; when loads change between picks the sorted list changes, and no rotation is promised.
- Cooling.ManagerMatchesHistory: needs a clock that never goes back, as calls at one manager have.
- SeatPlanner.PlanIsExact: is about entries without a confusable or exposed pair, where the count is false in general; PlanLength and PlanStopsAtProtected are about any entries.
- SeatPlanner.PlanIsMinimal: is about entries without a confusable pair; PlanIsMinimalIff says that with one it is false.
- SeatPlanner.PlanIsMinimalIff: where two seats of a kind share an id the condition is enough but not needed, since the order of removals then decides whether the pair meets.
- WorkerPool.FromEnv: the idle timeout is a whole number of seconds, the other timeouts are flags of the passes that wait.
- SeatPlanner.LimitsFrom: a value that is not a number stops the program and has no model.
