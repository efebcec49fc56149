# A model of redress: when a failing call may run again

redress decides when a failing operation may be retried and when it must be refused. This project
models the parts that decide and proves what they guarantee over whole runs.

| file | what it holds |
|---|---|
| `Basics.dfy`, `RollingWindow.dfy` | shared vocabulary; queues pruned at the front against full logs |
| `Budget.dfy` | the retry budget, with clock readings in order and out of order |
| `Circuit.dfy` | the circuit breaker as a protocol: steps, effects, runs |
| `CircuitErasure.dfy`, `CircuitHistory.dfy`, `CircuitOwnership.dfy`, `CircuitTripping.dfy`, `CircuitLaws.dfy` | theorems over all runs of that protocol |
| `CircuitBreaker.dfy` | the breaker object, updated in place, proved to follow the protocol |
| `Retry.dfy` | what a retry run does, as a function of what the outside answers |
| `RetryLoops.dfy` | the mutable retry state and the loops of `call` and `execute`, proved against it |
| `RetryAgreement.dfy`, `RetryTraces.dfy`, `RetryLimits.dfy` | agreement of the two loops, event grammar, bounds on work and sleep |
| `RetryLaws.dfy` | when a run retries and how it ends, said on the answers of the outside alone |
| `SharedBudget.dfy` | many executions on one budget |
| `Policy.dfy` | executions around a shared breaker: admission, settlement, exit |
| `Adaptive.dfy` | the adaptive backoff multiplier |
| `BodySnapshot.dfy` | copying request bodies that may share and may loop |

`dafny verify dfyconfig.toml` checks the whole project.

## How things are modelled

- **Interleavings.** Every operation of the breaker and of the budget holds a lock, so a concurrent
  run is a list of operations in lock order. Theorems quantify over all such lists. An admission is
  named by its place among all that were issued; the object version compares references, as
  `circuit.py` does, and carries its list of operations as a ghost history.
- **Executions beside others.** `Policies.Meanwhile` stands for other threads: its contract lets
  them do anything to the breaker except settle an admission they do not hold. Its body does
  nothing, but `PolicyCall` and `PolicyExecute` are proved from the contract alone.
- **Clocks.** A reading is a parameter of the operation. `Budget`, `AdaptiveStrategy`, `allow` and
  a manual `record_failure` read before they lock, so readings may run backwards in lock order;
  completions read under the lock.
- **The outside of a retry run.** Operation, classifier, `abort_if`, strategy, budget, sleep handler,
  sleeper and clock are asked at most once per attempt each, so an environment is one script per
  attempt, and theorems quantify over all environments. The trace holds invocations, attempt hooks,
  consumed tokens, events and sleeps.
- **Numbers.** Times are reals; a strategy's answer is a real or not finite; `random.uniform(a, b)` is
  any value between its arguments in either order.
- **Bodies.** A body is a value over a heap of containers; its meaning is the tree it unfolds to. The
  copier returns that tree beside the copy, because key equality is decided on it.

## Where the code and its promises part

- The `Budget` docstring promises a limit per rolling window. Readings are taken before the lock, so
  the limit holds for windows shortened by the lag, and `Budgets.WindowGuarantee` shows that no longer
  window is safe (`src/redress/budget.py:29-45`).
- `call` and `execute` agree exactly when `max_attempts >= 1`. With none, `call` raises RuntimeError
  while `execute` returns an outcome (`src/redress/policy/runner/logic.py:262-304`).
- `call` runs no attempt-end hook when `abort_if` fires after a failure; `execute` does
  (`src/redress/policy/runner/sync_core.py:158-164`, `:356-371`).
- A CircuitOpenError or RetryExhaustedError raised by the operation itself is settled differently by
  `Policy.call` and `Policy.execute`; `Policies.SettlementsAgree` gives the exact condition.
- A manual `record_cancel` while a probe is out always lets a second one out beside it
  (`src/redress/circuit.py:126-129`). `CircuitOwnership.ProbeUniquenessExactly` shows that this is the
  only way: uniqueness holds all along a run exactly when no such call is made.
- `AdaptiveStrategy` reads its clock before it locks. If a query reads a time before a failure that is
  already recorded, that failure may lower the multiplier by pushing older ones out;
  `Adaptive.OneMoreSampleExactly` gives the condition and `Adaptive.SetbackLowers` the history.
- The docstring of `decorrelated_jitter` gives `[base_s, prev_sleep * 3]` as the range. A draw below
  that range exists exactly when the previous sleep was under a third of the base
  (`RetryLimits.DocumentedRange`); the bounds on whole runs allow for it.

## Model

| member | source | states |
|---|---|---|
| RollingWindow.PruneDropsPrefix | src/redress/budget.py:24-27 | popping the front while it is at or before the cutoff drops exactly the longest such prefix |
| RollingWindow.PruneRefines | src/redress/budget.py:24-27 | a queue that shows an ordered log since one cutoff shows it since a later one after pruning |
| RollingWindow.KeptExactly | src/redress/budget.py:24-27 | whatever the order of stamps and cutoffs, a queue popped only at its front has dropped exactly the leading entries that have all expired |
| Budgets.QueueIsLogSuffix | src/redress/budget.py:24-39 | for any readings, the deque is a suffix of the full grant log, never longer than the limit, and everything dropped was a whole window older than some reading |
| Budgets.QueueExactly | src/redress/budget.py:24-39 | for any readings, the deque is the full grant log without its leading expired tokens, expired meaning that a later operation read a time a full window past them |
| Budgets.GrantedExactly | src/redress/budget.py:29-39 | for any readings, a request is granted exactly when the grant log, without its leading tokens expired by the readings so far and its own, plus the cost fits the limit |
| Budgets.LaggedWindowBound | src/redress/budget.py:29-39 | readings that lag earlier-locked ones by at most d leave at most max_retries tokens in every window of window_s - d, in every run and for any costs |
| Budgets.WindowGuarantee | src/redress/budget.py:29-39 | and that is exact: a window length is safe in every run with lag d if and only if it is at most max(0, window_s - d), or max_retries is zero |
| Budgets.LaggingRunOverflows | src/redress/budget.py:29-45 | the three-operation run that grants one token too many in any longer window |
| Budgets.QueueRefinesLog | src/redress/budget.py:24-45 | with ordered readings the deque equals the full grant log filtered to (now - window, now] after every operation |
| Budgets.PrunedRefinesLog | src/redress/budget.py:24-27 | the same for what an operation at a later reading finds after pruning |
| Budgets.OrderedConsume | src/redress/budget.py:29-39 | with ordered readings a request is all-or-nothing and is granted exactly when the tokens logged in the window plus its cost stay within the limit |
| Budgets.RemainingIsUnused | src/redress/budget.py:41-45 | the pruned deque never exceeds the limit for any readings, and with ordered readings its length is the log count of the window |
| Budgets.Budget.Create | src/redress/budget.py:14-22 | which constructor arguments are turned down, and the empty history of a new budget |
| Budgets.Budget.PruneEvents | src/redress/budget.py:24-27 | the popping loop leaves the pruned deque |
| Budgets.Budget.Consume | src/redress/budget.py:29-39 | rejects cost < 1 without touching anything; otherwise one more operation in the history and the answer the protocol gives |
| Budgets.Budget.Remaining | src/redress/budget.py:41-45 | the unused part of the limit by the full grant log when readings are ordered, and never outside 0..max_retries |
| Circuit.InvRun | src/redress/circuit.py:89-183 | in every reachable state: no admission is ahead of the generation, OPEN has an opening time and no current admission, non-CLOSED has empty windows, a probe means HALF_OPEN and an uncompleted current admission |
| Circuit.MonotoneRun | src/redress/circuit.py:131-157 | along any run admissions are never withdrawn and never un-completed |
| CircuitLaws.CompletionExactly | src/redress/circuit.py:131-157 | completing an uncompleted admission of the current generation that is, while HALF_OPEN, the probe does what the manual record call does; completing any other does nothing |
| CircuitLaws.AllowExactly | src/redress/circuit.py:89-115 | who is let in: everyone while CLOSED, from the recovery time on while OPEN, only without a probe while HALF_OPEN; with the event and the new probe |
| CircuitLaws.HalfOpenFailureReopens | src/redress/circuit.py:169-183 | a HALF_OPEN failure of any class, trip_on or not, opens the breaker as of its reading |
| CircuitLaws.ProbeDecides | src/redress/circuit.py:89-183 | a caller let in as the probe and left alone leaves the breaker CLOSED on success, OPEN on any failure, HALF_OPEN without a probe when cancelled |
| CircuitLaws.ClosedMeansFewFailures | src/redress/circuit.py:169-200 | in any interleaving during which the breaker stays CLOSED, the failures it counts within one window are fewer than the threshold |
| CircuitLaws.ThresholdFailuresOpen | src/redress/circuit.py:131-200 | from any reachable CLOSED state, as many current admissions as the threshold failing within one window in tripping classes leave the breaker OPEN |
| CircuitErasure.Erasure | src/redress/circuit.py:131-157 | deleting every stale completion from any interleaving leaves states, generations, windows, events and grants unchanged, and leaves nothing more to delete |
| CircuitErasure.StaleForever | src/redress/circuit.py:138-147 | an admission whose completion would be ignored stays so for ever, whatever happens |
| CircuitErasure.StaleIsInvisible | src/redress/circuit.py:138-147 | a completion by an old generation, a replaced probe or a completed admission changes and returns nothing |
| CircuitErasure.FreshKeepsAlike | src/redress/circuit.py:89-183 | two breakers that differ only in irrelevant completion marks behave alike and stay so |
| CircuitHistory.TraceIsOutages | src/redress/circuit.py:89-183 | the events other than rejections, completed as the final state suggests, are opened half_open (opened half_open)* closed, any number of times |
| CircuitHistory.GenerationCountsChanges | src/redress/circuit.py:159-183 | the generation is the number of opened and closed events of the run |
| CircuitHistory.RecoveryTimeRespected | src/redress/circuit.py:89-103 | after an opening failure read at t, the next grant goes to a caller whose reading is at least recovery_timeout_s later |
| CircuitOwnership.ProbeUniqueness | src/redress/circuit.py:89-157 | unless record_cancel is called by hand while a probe is out: OPEN has no current admission; HALF_OPEN has at most one uncompleted current admission, the probe; a probe means HALF_OPEN and an execution that has not ended |
| CircuitOwnership.ProbeUniquenessExactly | src/redress/circuit.py:89-157 | all along a run only the probe is out while HALF_OPEN if and only if every manual record_cancel comes when no probe is out |
| CircuitOwnership.ManualCancelAllowsSecondProbe | src/redress/circuit.py:126-129 | a manual record_cancel while a probe is out lets the next caller, whoever it is, out beside it |
| CircuitOwnership.EndedIsCompleted | src/redress/circuit.py:138-156 | the completion mark is set exactly when the owner has settled |
| CircuitOwnership.EffectiveOnce | src/redress/circuit.py:138-157 | an admission affects the breaker at most once, however often it is settled |
| CircuitOwnership.NoStrandedProbe | src/redress/circuit.py:89-157 | once every admitted execution has ended no probe is held, and a caller is admitted exactly when the breaker is not OPEN or the recovery time has passed |
| CircuitTripping.TripExactness | src/redress/circuit.py:169-200 | a CLOSED breaker opens on a counted failure at t exactly when the log since the last close reaches the global or the class threshold in (t - window, t] |
| CircuitTripping.WindowsShowLog | src/redress/circuit.py:185-209 | with ordered readings every resting CLOSED state shows that log in all its windows, each below its threshold; every other state has empty windows |
| CircuitTripping.WindowsBelowThresholds | src/redress/circuit.py:169-209 | in whatever order readings come, every resting state has all its windows below their thresholds, and empty windows unless CLOSED |
| CircuitTripping.SlideRefines | src/redress/circuit.py:185-205 | prune-and-append keeps a window equal to the ordered log filtered to its last reading |
| CircuitBreakers.CircuitBreaker.Create | src/redress/circuit.py:48-81 | which settings are turned down, the default classes, and that every class with a threshold trips |
| CircuitBreakers.CircuitBreaker.Allow | src/redress/circuit.py:89-115 | one protocol step; a fresh admission exactly when allowed |
| CircuitBreakers.CircuitBreaker.RecordSuccess | src/redress/circuit.py:117-119 | one protocol step with its event |
| CircuitBreakers.CircuitBreaker.RecordFailure | src/redress/circuit.py:121-124 | one protocol step with its event |
| CircuitBreakers.CircuitBreaker.RecordCancel | src/redress/circuit.py:126-129 | one protocol step |
| CircuitBreakers.CircuitBreaker.Complete | src/redress/circuit.py:131-157 | one protocol step on this admission, by object identity; marks it completed, issues nothing |
| CircuitBreakers.CircuitBreaker.RecordSuccessLocked | src/redress/circuit.py:159-167 | the success transition on the fields is the one of the protocol |
| CircuitBreakers.CircuitBreaker.RecordFailureLocked | src/redress/circuit.py:169-183 | the failure transition on the fields is the one of the protocol |
| CircuitBreakers.CircuitBreaker.NoteFailure | src/redress/circuit.py:185-200 | the failure is in the windows it belongs to, and the answer is whether any threshold is reached |
| CircuitBreakers.CircuitBreaker.NoteInClass | src/redress/circuit.py:189-198 | the bucket of a class with a threshold, created on demand, gets the failure; other buckets are left alone |
| CircuitBreakers.CircuitBreaker.PruneBucket | src/redress/circuit.py:202-205 | the popping loop leaves the pruned bucket |
| RetryLoops.RetryState.CheckAbort | src/redress/policy/state.py:72-85 | an abort answer is recorded and announced once, nothing else changes |
| RetryLoops.RetryState.RecordFailure | src/redress/policy/state.py:137-153 | exactly one of exception and result is on record, with class and cause |
| RetryLoops.RetryState.HandleFailure | src/redress/policy/state.py:193-357 | the mutable counters decide as the list of past failures does: the first applicable stop with its one event, or a delay, one token and one retry event |
| RetryLoops.RetryState.PlanRetry | src/redress/policy/state.py:319-357 | delay made finite, non-negative and cut to the remaining time; a refused token stops, a granted one is followed by the retry event |
| RetryLoops.RetryState.SleepAction | src/redress/policy/retry_helpers.py:360-435 | sleep, defer, abort or an escaping signal, each with its stop reason and event |
| RetryLoops.RetryState.FailureOutcome | src/redress/policy/retry_helpers.py:194-312 | following a plan ends as the reference says, the last deadline check included |
| RetryLoops.RetryState.BuildOutcome | src/redress/policy/retry_helpers.py:42-70 | an outcome reports exactly the failure on record, and none on success |
| RetryLoops.RetryState.AbortOutcome | src/redress/policy/retry_helpers.py:73-87 | the abort event is emitted exactly once |
| RetryLoops.RetryState.NoteAbort | src/redress/policy/runner/logic.py:179-195 | the abort event is emitted only if none was |
| RetryLoops.RetryState.RaiseExhausted | src/redress/policy/runner/logic.py:262-282 | how call ends when the loop runs out: the result error, the captured exception if it has a traceback, else RuntimeError |
| RetryLoops.RetryState.EmitMaxAttemptsExceeded | src/redress/policy/runner/logic.py:245-259 | one event and the stop reason |
| RetryLoops.TallyCounts | src/redress/policy/state.py:208-212 | the per-class counters are the class counts of the past failures |
| RetryLoops.FollowRetry | src/redress/policy/runner/sync_core.py:163-177 | a planned retry: second abort check, sleep and deadline check come to what the reference says |
| RetryLoops.ProcessFailure | src/redress/policy/runner/sync_core.py:160-177 | abort check, stop conditions and following the plan come to what the reference judges |
| RetryLoops.CallFailure | src/redress/policy/runner/sync_core.py:158-190 | call on a failed attempt: goes on, or ends as the reference says |
| RetryLoops.ExecuteFailure | src/redress/policy/runner/sync_core.py:300-345 | execute on a failed attempt, likewise |
| RetryLoops.ExecuteHandled | src/redress/policy/runner/sync_core.py:385-409 | the end hook with the outcome's decision, then another attempt or the outcome with the failure on record |
| RetryLoops.CallAttempt | src/redress/policy/runner/sync_core.py:136-242 | one turn of the loop of call |
| RetryLoops.ExecuteAttempt | src/redress/policy/runner/sync_core.py:274-409 | one turn of the loop of execute |
| RetryLoops.RunSyncCall | src/redress/policy/runner/sync_core.py:112-244 | for every script and policy: the result and the whole trace of the reference run; the code after the loop is reached only when max_attempts < 1 |
| RetryLoops.RunSyncExecute | src/redress/policy/runner/sync_core.py:247-411 | the same for execute |
| RetryAgreement.RunBoth | src/redress/policy/runner/sync_core.py:112-411 | the two loops end in matching results exactly when max_attempts >= 1, and differ observably in attempt-end hooks only |
| RetryAgreement.CallAndExecuteAgree | src/redress/policy/runner/sync_core.py:112-411 | matching results and equal traces but for end hooks, for every script |
| RetryAgreement.StylesDiffer | src/redress/policy/runner/sync_core.py:358-371 | the one difference: execute alone runs the end hook when abort_if fires after a failure |
| RetryAgreement.RunEnds | src/redress/policy/runner/sync_core.py:136-242 | every retried attempt and the last one were judged on exactly the attempts before them |
| RetryLaws.ReachedExactly | src/redress/policy/runner/sync_core.py:136-190 | a run ends at the first attempt that does not go on: does not plan a retry, or is aborted, deferred, interrupted or late after planning it |
| RetryLaws.RetriesExactly | src/redress/policy/state.py:193-357 | an attempt plans a retry exactly when it failed unaborted with a class that is not permanent and within its limits, in time, with a strategy, another attempt left and a granted token; and the retry events count those |
| RetryLaws.EveryAttemptIsUsed | src/redress/policy/state.py:208-317 | from below: failing throughout with uncapped classes and nothing else stopping the run uses max_attempts attempts |
| RetryLaws.CapIsUsedUp | src/redress/policy/state.py:208-254 | from below: failing throughout with one capped class uses min(max_attempts, 1 + cap) attempts |
| RetryLaws.ValueExactly | src/redress/policy/runner/sync_core.py:192-196 | call returns v, and execute an ok outcome with v, exactly when the last attempt was not aborted before and its operation returned v unclassified |
| RetryLaws.AbortExactly | src/redress/policy/runner/sync_core.py:136-191 | a run is aborted exactly by abort_if at its three places, the operation, or the sleep handler |
| RetryLaws.SignalExactly | src/redress/policy/runner/sync_core.py:148-157 | a signal leaves both loops exactly when the operation or the sleep of the last attempt let it out, and as it is |
| RetryLaws.ScheduledExactly | src/redress/policy/retry_helpers.py:216-225 | deferring a planned retry is reported as SCHEDULED with its delay as the next sleep, and nothing else is |
| RetryLaws.StopExactly | src/redress/policy/state.py:211-345 | every other stop reason is reported exactly when its own condition, and none before it, ends the run, a late awakening included; call then raises the last exception or an error with the last result |
| RetryLaws.OutcomeReports | src/redress/policy/retry_helpers.py:42-70 | class, exception, result and cause of an outcome are those the last attempt answered, or the one before if the last was aborted before its failure got on record; none when ok |
| RetryLaws.RunFits | src/redress/policy/runner/sync_core.py:136-190 | every earlier attempt failed and is on record with the exception or result and class its operation answered |
| RetryLaws.DelayExactly | src/redress/policy/state.py:326-332 | the delay of a retry is the strategy's answer cut to the remaining time, and zero if negative or not finite |
| RetryTraces.TraceGrammar | src/redress/policy/runner/sync_core.py:247-411 | retry@1..retry@k, then exactly one terminal event at attempt n in {k, k+1}; n is outcome.attempts and the number of invocations; its stop reason is the outcome's, none exactly when ok |
| RetryLaws.EventsTell | src/redress/policy/state.py:211-357 | each retry event carries its attempt's class and delay; the last event is the one that goes with the outcome's stop reason, class, attempts and next sleep |
| RetryLaws.AttemptInOrder | src/redress/policy/runner/sync_core.py:136-190 | the order of hooks, invocation, token, events and sleep within an attempt, for every way it can end |
| RetryTraces.ObserversPaired | src/redress/policy/runner/sync_core.py:274-409 | start and end hooks alternate with matching numbers, all but the last say RETRY, the last says what the outcome says unless an abort before the next start leaves RETRY last |
| RetryTraces.TokensPerRun | src/redress/policy/state.py:334-357 | tokens consumed equal retry events, at least invocations - 1 and at most max_attempts - 1 |
| RetryTraces.RetriesOf | src/redress/policy/state.py:306-357 | retry events are the retried attempts plus a last planned one, within max_attempts - 1 |
| RetryLimits.BoundedWork | src/redress/policy/state.py:208-317 | at most max_attempts invocations, at most cap retries per capped class, at most 1 plus the sum of caps when all are capped; the class counts sum to the failures retried |
| RetryLimits.PastWithinCap | src/redress/policy/state.py:211-254 | retried failures of a class stay within its cap: zero for the permanent classes, the smaller of the two limits for UNKNOWN |
| RetryLimits.CountsAddUp | src/redress/policy/state.py:208-209 | per-class counts sum to the failures handled |
| RetryLimits.SleepWithinDeadline | src/redress/policy/retry_helpers.py:238-257 | all scheduled sleep fits the deadline when sleeps take at least what was asked for; every later invocation follows an in-deadline reading |
| RetryLimits.CutSleepIsLast | src/redress/policy/state.py:288-347 | a sleep cut to the remaining time is never followed by another retry |
| RetryLimits.JitterBounds | src/redress/strategies.py:170-183 | the k-th scheduled sleep of a decorrelated_jitter run lies between min(base, max, remaining) and min(max, base*3^k, remaining), negative settings counting as zero |
| RetryLimits.JitterStep | src/redress/strategies.py:179-181 | one draw keeps the growing bound, uniform taking its ends in either order |
| RetryLimits.DocumentedRange | src/redress/strategies.py:174-181 | a draw below the documented range exists if and only if three times the previous sleep is less than the base; likewise an answer below min(base, max) |
| SharedBudget.RetriesAcrossExecutions | src/redress/policy/state.py:334-357 | any interleaving of executions on one budget: their retries in any window of window_s - d number at most max_retries |
| SharedBudget.TokensAreGrantedRequests | src/redress/policy/state.py:334-348 | the tokens of a run are the requests it was granted, in order |
| SharedBudget.ServedWithinGrants | src/redress/budget.py:29-39 | what all executions were granted is no more than the budget granted |
| Policies.SettlementsAgree | src/redress/policy/policy.py:83-113 | call and execute settle with the same outcome unless the operation itself raised CircuitOpenError or RetryExhaustedError, and then exactly in the harmless case |
| Policies.OrdinaryWorkSettlesAlike | src/redress/policy/policy.py:83-288 | so they always agree when neither the operation nor the sleeper raises one of the two |
| Policies.BareIsOneAttempt | src/redress/policy/policy.py:115-140 | work without a retry ends as one unaborted attempt of the retry loop does, but for the stop reason and the attempts of an abort |
| Policies.BareExhaustionFails | src/redress/policy/policy.py:324-339 | a RetryExhaustedError of the operation's own, without a retry, is a failure like any in execute |
| Policies.NobodyElse | src/redress/circuit.py:89-183 | an execution let in as the probe and alone with the breaker decides its state by its one settlement |
| Policies.ExecutionContext.CheckBreaker | src/redress/policy/execution.py:109-123 | one allow step; an admission is held exactly when allowed; an observer of the event may then let a signal through |
| Policies.ExecutionContext.CompleteBreaker | src/redress/policy/execution.py:141-165 | a held admission gets one completion and is let go, otherwise nothing; a signal gets out exactly when there is an event and its observer lets one through, the admission being settled by then |
| Policies.ExecutionContext.Exit | src/redress/policy/execution.py:53-63 | what is still held is cancelled |
| Policies.RunAndLeave | src/redress/policy/policy.py:75-113 | whatever other threads do meanwhile and wherever a signal gets out, a held admission gets exactly one settlement: the handler's, or the exit's cancel |
| Policies.IdleBreakerHoldsNoProbe | src/redress/circuit.py:89-115 | with every admission settled the breaker holds no probe, and a caller is admitted exactly when it is not OPEN or the recovery time has passed |
| Policies.PolicyCall | src/redress/policy/policy.py:61-196 | a rejected or preflight-aborted execution settles nothing, even if a signal gets out at the rejection; any other settles exactly once: cancelled if a signal got out before settling, else success for a value, failure with the exception's or error's class (UNKNOWN if none), cancelled for an abort; alone as the probe it thereby closes, reopens or frees the breaker |
| Policies.PolicyExecute | src/redress/policy/policy.py:198-354 | the same for execute, by its outcome: success if ok, cancelled if ABORTED, else failure with the last class; its end hook without a retry may also let a signal out after settling |
| Adaptive.MultiplierLaw | src/redress/strategies.py:109-133 | for every history, in any order of readings: within [min, max]; min exactly when failures are within the target share of the samples seen; max exactly when samples are seen and all failed; past the target in proportion to the excess; with ordered readings the samples are those logged in the window |
| Adaptive.QueueIsLogSuffix | src/redress/strategies.py:98-107 | for any readings, the deque is a suffix of the full log, and everything dropped was a whole window older than some reading |
| Adaptive.SeenExactly | src/redress/strategies.py:98-112 | for any readings, a query sees the full log without its leading samples that the readings so far and its own have expired |
| Adaptive.OneMoreSample | src/redress/strategies.py:98-133 | after every history, in any order of readings, one more success never raises it and one more failure never lowers it |
| Adaptive.OneMoreSampleExactly | src/redress/strategies.py:98-133 | which holds for all histories if and only if the query reads no time before the new sample, or min equals max |
| Adaptive.WindowRefinesLog | src/redress/strategies.py:98-107 | with ordered readings the pruned deque is the full log filtered to the window |
| Adaptive.ScaleMonotone | src/redress/strategies.py:113-133 | the same on counts alone |
| Adaptive.AdaptiveStrategy.RecordSample | src/redress/strategies.py:98-102 | one more sample in the history |
| Adaptive.AdaptiveStrategy.Multiplier | src/redress/strategies.py:109-133 | the multiplier of the history, by counting the pruned deque |
| BodySnapshot.SnapshotBodyValue | src/redress/contrib/httpx.py:199-223 | terminates on every finite graph; refused exactly when a loop or an unsupported object is reachable, or a mapping with an unusable key or two equal keys (with string keys: one given twice); else the copy shows the body's tree and mirrors it position by position in containers that are all new |
| BodySnapshot.MeaningIff | src/redress/contrib/httpx.py:203-205 | a value means a finite tree exactly when no loop and no unsupported object is reachable from it, and looking out for loops does not change the tree |
| BodySnapshot.AnswersMean | src/redress/contrib/httpx.py:199-223 | what a refusal says about the body alone |
| BodySnapshot.BadlyKeyedExactly | src/redress/contrib/httpx.py:207-217 | a body that unfolds has no clean tree exactly when a mapping with an unusable key or two equal keys is reachable |
| BodySnapshot.StringKeysExactly | src/redress/contrib/httpx.py:207-217 | with string keys only, that means a mapping with the same key twice |
| BodySnapshot.HashableExactly | src/redress/contrib/httpx.py:210-211 | a key is usable exactly when no list or mapping is found anywhere inside its tuples |
| BodySnapshot.SameKeyExactly | src/redress/contrib/httpx.py:210-211 | two usable keys clash exactly when they are equal atom by atom: numbers by value across bool, int and float, everything else only to itself, tuples by length and items |
| BodySnapshot.EqualKeysReflexive | src/redress/contrib/httpx.py:211 | equality of keys is reflexive |
| BodySnapshot.EqualKeysSymmetric | src/redress/contrib/httpx.py:211 | symmetric |
| BodySnapshot.EqualKeysTransitive | src/redress/contrib/httpx.py:211 | and transitive |
| BodySnapshot.CopyMirrors | src/redress/contrib/httpx.py:199-223 | wherever a path of positions leads in the original it leads in the copy, to the same atom or to a new container of the same kind and size |
| BodySnapshot.CopyIsIndependent | src/redress/contrib/httpx.py:199-223 | whatever is later done to the original's containers, the copy shows the same tree |
| BodySnapshot.OneTree | src/redress/contrib/httpx.py:199-223 | a value shows at most one tree, wherever it is met |
| BodySnapshot.UnfoldOrStuck | src/redress/contrib/httpx.py:203-221 | a value unfolds, or some way down from it gets stuck |
| BodySnapshot.WalkDown | src/redress/contrib/httpx.py:203-205 | a value that unfolds has no way down that loops or ends at an unsupported object |
| BodySnapshot.SnapshotValue | src/redress/contrib/httpx.py:199-223 | copied or uncopyable inside the containers around it, and the active set is put back on every path |
| BodySnapshot.SnapshotItems | src/redress/contrib/httpx.py:218-220 | all items copied in order, or some item is uncopyable |
| BodySnapshot.SnapshotEntries | src/redress/contrib/httpx.py:208-217 | all entries copied with hashable, pairwise different keys, or no clean tree exists |
| BodySnapshot.KeyUncopyable | src/redress/contrib/httpx.py:211-216 | an unhashable key or one equal to an earlier key rules every clean tree out |

## Left out

- `_call_with_timeout`: threads and timeouts; a timeout is an operation that raised.
- `async_core.py`, `async_policy.py`: the same loop and settlement with await points.
- Contents of tags, logs, timelines and outcome durations; an event keeps name, attempt, sleep, class and stop reason.
- Classifiers: a failure arrives with its class; header and date parsing is not part of this model.
- Callbacks that raise: classifiers, strategies and `abort_if` are taken not to, a sleeper or hook may let a signal through; a sleep handler returning something else than a decision.
- `_last_strategy` and the `record_success` / `record_failure` calls into strategies; the adaptive strategy is modelled on its own.
- `equal_jitter`, `token_backoff`, `retry_after_or` and strategy normalisation: bounds that follow from one body.
- `FakeCircuitBreaker` and the duck-typed branch of `_complete_breaker`, which carry no ownership guarantee.
- What the context tells observers of breaker events; that one of them may let a signal through, before or after settling, is modelled.
- Attempt hooks of an execution without a retry: they appear only as places where a signal may get out, before settling or, in `execute`, after it.
- `Policy.context`, decorators, request wrappers, middleware, adapters and the command line: plumbing.
- `_snapshot_body`: the type check of `content` and one snapshot per argument; copies made for each attempt.
- Floating point: rounding, NaN as a mapping key or clock reading, and the microseconds of `timedelta`.
- BodySnapshot.SnapshotBodyValue: every copied tuple is a new container here, while the runtime may reuse the empty tuple; nothing mutable is shared either way. A refusal does not say which of its two messages is raised.
