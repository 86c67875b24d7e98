# Worker-fleet scaling: resolver and executor

This project models the two components of the `org.jlinhart.excercises`
package that decide and carry out the scaling of a fleet of workers, and
proves properties of the model in Dafny.

- **ScalingActionResolver** (`scaling_action_resolver.dfy`, pure functions).
  From a workload snapshot (waiting requests, average job duration) and a
  fleet snapshot (worker id → state) it computes the number of workers
  needed to serve the waiting work within one minute, counts the active
  workers (initializing, running or idling), and returns `NoAction`,
  `ScaleUp(n)` for the shortfall, or `ScaleDown(ids)` naming up to the
  surplus of idling workers in snapshot order (falling back to `NoAction`
  when none is idle).
- **ScalingActionExecutor** (`scaling_action_executor.dfy`, classes with
  loop methods). It performs an action through a `WorkerOperator`: for
  `ScaleUp(n)` it calls `start()` once for each of `1..n`, keeping the ids
  of the starts that succeeded; for `ScaleDown(ids)` it calls `stop(id)`
  for each id in order, counting "no such worker" as success and dropping
  ids whose stop failed with an I/O error. It never lets either failure
  escape. The operator is a class holding the scripted outcomes of its
  next calls and a log of the calls it received; the loop methods are
  proved against pure functions of those outcomes (`StartedIds`,
  `StoppedIds`, `RunResult`, `OperatorCalls`).
- `subsequences.dfy` defines "obtained by deleting elements" and
  distinctness, used to state that the chosen and the stopped ids keep
  their order.

Durations are whole seconds and the target is 60. The fleet snapshot is a
sequence of (id, state) entries in the map's iteration order;
`DistinctIds` states that it came from a map.

The class comment (`Excercise1_ScalingActionResolver.kt:8`) states the goal:
enough workers to serve all waiting requests within one minute. The rounding
test at line 53 multiplies the quotient by the job duration instead of the
target, so the required count is not the ceiling of total time over one
minute. The model follows the code; the lemmas
`RequiredWorkersCountCharacterization`, `EnoughCapacityForShortJobs` and
`CapacityForLongJobs` say exactly what it computes. For ten 30-second jobs
with one running and two idling workers, a ceiling would require 5 workers
and give `ScaleUp(2)`; the code requires 6 and gives `ScaleUp(3)`
(`ScaleUpExample`).

## Model

| member | source | states |
|---|---|---|
| `ScalingActionResolver.RequiredWorkersCount` | src/main/kotlin/org/jlinhart/excercises/Excercise1_ScalingActionResolver.kt:50-55 | no waiting requests need no worker; the count lies between floor(w·d/60) and one more, and fits a 32-bit integer even at the largest quotient |
| `ScalingActionResolver.RequiredWorkersCountCharacterization` | src/main/kotlin/org/jlinhart/excercises/Excercise1_ScalingActionResolver.kt:50-55 | the extra worker is added exactly when there are waiting requests and 0 < d < 60, so the count is floor(w·d/60) plus that indicator |
| `ScalingActionResolver.EnoughCapacityForShortJobs` | src/main/kotlin/org/jlinhart/excercises/Excercise1_ScalingActionResolver.kt:50-55 | when jobs last at most the target, required × 60 ≥ w·d: the fleet finishes the waiting work within one minute |
| `ScalingActionResolver.CapacityForLongJobs` | src/main/kotlin/org/jlinhart/excercises/Excercise1_ScalingActionResolver.kt:50-55 | with waiting work and jobs of at least one minute, required × 60 ≥ w·d exactly when w·d is a whole number of minutes: otherwise the fleet cannot finish within one minute |
| `ScalingActionResolver.LongJobExample` | src/main/kotlin/org/jlinhart/excercises/Excercise1_ScalingActionResolver.kt:53 | one 61-second job yields one worker |
| `ScalingActionResolver.LargestCountExample` | src/main/kotlin/org/jlinhart/excercises/Excercise1_ScalingActionResolver.kt:50-55 | 2³¹ − 1 one-minute jobs are a valid workload and need exactly 2³¹ − 1 workers, so the count reaches the 32-bit maximum without truncation |
| `ScalingActionResolver.ShortJobsExample` | src/main/kotlin/org/jlinhart/excercises/Excercise1_ScalingActionResolver.kt:53 | ten 30-second jobs yield six workers |
| `ScalingActionResolver.IntendedRequiredWorkersCount` | src/main/kotlin/org/jlinhart/excercises/Excercise1_ScalingActionResolver.kt:50-55 | corrected count: the smallest r with r × 60 ≥ w·d |
| `ScalingActionResolver.RequiredWorkersCountAgreement` | src/main/kotlin/org/jlinhart/excercises/Excercise1_ScalingActionResolver.kt:50-55 | with waiting work, the code's count equals the ceiling exactly when "job shorter than a minute" coincides with "total not a whole number of minutes" |
| `ScalingActionResolver.CountActiveWorkers` | src/main/kotlin/org/jlinhart/excercises/Excercise1_ScalingActionResolver.kt:46-48 | the active count never exceeds the snapshot size |
| `ScalingActionResolver.CountActiveWorkersIsActiveIdCount` | src/main/kotlin/org/jlinhart/excercises/Excercise1_ScalingActionResolver.kt:45-48 | the active count is the number of distinct workers in INITIALIZING, RUNNING or IDLING; STOPPING and FAILED never count |
| `ScalingActionResolver.IdleIds` | src/main/kotlin/org/jlinhart/excercises/Excercise1_ScalingActionResolver.kt:32-34 | an id is listed iff its entry is IDLING, and the list keeps snapshot order |
| `ScalingActionResolver.IdleIdsPrefixDistinct` | src/main/kotlin/org/jlinhart/excercises/Excercise1_ScalingActionResolver.kt:32-35 | with unique keys every prefix taken of the idle ids is duplicate-free |
| `ScalingActionResolver.IdleIdsDistinct` | src/main/kotlin/org/jlinhart/excercises/Excercise1_ScalingActionResolver.kt:32-37 | with unique keys no idle id is listed twice |
| `ScalingActionResolver.ResolveScaleDown` | src/main/kotlin/org/jlinhart/excercises/Excercise1_ScalingActionResolver.kt:31-43 | never scales up; `NoAction` iff the limit is 0 or nothing is idle; otherwise the first min(limit, #idle) idle ids in snapshot order, all IDLING, distinct for unique keys |
| `ScalingActionResolver.ResolveAction` | src/main/kotlin/org/jlinhart/excercises/Excercise1_ScalingActionResolver.kt:20-29 | `ScaleUp` iff active < required, by required − active > 0; `NoAction` iff required = active or (required < active and none idle); `ScaleDown` only when required < active, with the first min(active − required, #idle) > 0 idle ids, distinct and in snapshot order; zero requests never scale up |
| `ScalingActionResolver.ScaleUpExample` | src/main/kotlin/org/jlinhart/excercises/Excercise1_ScalingActionResolver.kt:20-29 | ten 30-second jobs, one running and two idle workers give `ScaleUp(3)` |
| `ScalingActionResolver.ScaleDownExample` | src/main/kotlin/org/jlinhart/excercises/Excercise1_ScalingActionResolver.kt:31-43 | no work and two idle workers give `ScaleDown` of both, in snapshot order |
| `ScalingActionResolver.NoIdleSurplusExample` | src/main/kotlin/org/jlinhart/excercises/Excercise1_ScalingActionResolver.kt:38-42 | a surplus with no idle worker gives `NoAction` |
| `ScalingActionExecutor.StartedIdsAccount` | src/main/kotlin/org/jlinhart/excercises/Exercise2_ScalingActionExecutor.kt:25-37 | one id is reported per successful start and failures make up the rest; an id is reported iff some start returned it |
| `ScalingActionExecutor.StartedIdsAppend` | src/main/kotlin/org/jlinhart/excercises/Exercise2_ScalingActionExecutor.kt:25-27 | the report of consecutive start attempts is the concatenation of the parts' reports (call order is kept) |
| `ScalingActionExecutor.StoppedIdsAccount` | src/main/kotlin/org/jlinhart/excercises/Exercise2_ScalingActionExecutor.kt:39-55 | stopped ids are an order-preserving subsequence of the requested ids, shorter by exactly the number of I/O failures |
| `ScalingActionExecutor.StoppedIdsAppend` | src/main/kotlin/org/jlinhart/excercises/Exercise2_ScalingActionExecutor.kt:39-41 | the report of consecutive stops is the concatenation of the parts' reports |
| `ScalingActionExecutor.StoppedIdsMembership` | src/main/kotlin/org/jlinhart/excercises/Exercise2_ScalingActionExecutor.kt:43-55 | for distinct ids, an id is reported stopped iff its own stop did not fail with an I/O error |
| `ScalingActionExecutor.NotFoundCountsAsStopped` | src/main/kotlin/org/jlinhart/excercises/Exercise2_ScalingActionExecutor.kt:43-55 | a stop reporting "no such worker" is reported exactly like a completed stop |
| `ScalingActionExecutor.AllStopsSucceed` | src/main/kotlin/org/jlinhart/excercises/Exercise2_ScalingActionExecutor.kt:39-55 | with no I/O failure every requested id is reported, in order |
| `ScalingActionExecutor.RunResult` | src/main/kotlin/org/jlinhart/excercises/Exercise2_ScalingActionExecutor.kt:16-23 | `NoAction` reports nothing; `ScaleUp(n)` stops nothing and reports at most max(n, 0) ids, each returned by one of the first max(n, 0) starts; `ScaleDown(ids)` starts nothing and reports a subsequence of `ids` |
| `ScalingActionExecutor.WorkerOperator.Start` | src/main/kotlin/org/jlinhart/excercises/Exercise2_ScalingActionExecutor.kt:63-65 | consumes the next start outcome and logs the call |
| `ScalingActionExecutor.WorkerOperator.Stop` | src/main/kotlin/org/jlinhart/excercises/Exercise2_ScalingActionExecutor.kt:67-68 | consumes the next stop outcome and logs the call with its id |
| `ScalingActionExecutor.ScalingActionExecutor.Run` | src/main/kotlin/org/jlinhart/excercises/Exercise2_ScalingActionExecutor.kt:16-23 | always returns `RunResult` of the action and the operator's outcomes; the operator receives exactly `OperatorCalls(action)` and only the outcomes those calls use are consumed |
| `ScalingActionExecutor.ScalingActionExecutor.StartWorkers` | src/main/kotlin/org/jlinhart/excercises/Exercise2_ScalingActionExecutor.kt:25-27 | max(count, 0) start calls; the result is `StartedIds` of the outcomes consumed; stop outcomes untouched |
| `ScalingActionExecutor.ScalingActionExecutor.StartOrNull` | src/main/kotlin/org/jlinhart/excercises/Exercise2_ScalingActionExecutor.kt:29-37 | one start call; the new id on success, nothing on an I/O error |
| `ScalingActionExecutor.ScalingActionExecutor.StopWorkers` | src/main/kotlin/org/jlinhart/excercises/Exercise2_ScalingActionExecutor.kt:39-41 | one stop call per id in order; the result is `StoppedIds` of the ids and outcomes consumed; start outcomes untouched |
| `ScalingActionExecutor.ScalingActionExecutor.StopOrNull` | src/main/kotlin/org/jlinhart/excercises/Exercise2_ScalingActionExecutor.kt:43-55 | one stop call; the id when stopped or not found, nothing on an I/O error |
| `ScalingActionExecutor.PartialStartFailureScenario` | src/main/kotlin/org/jlinhart/excercises/Exercise2_ScalingActionExecutor.kt:25-37 | `ScaleUp(3)` with success, failure, success makes three start calls and reports the two new ids |
| `ScalingActionExecutor.StopOutcomesScenario` | src/main/kotlin/org/jlinhart/excercises/Exercise2_ScalingActionExecutor.kt:39-55 | stopping three workers that are missing, failing and stopped reports the first and third, after three stop calls in order |
| `ScalingActionExecutor.NegativeScaleUpScenario` | src/main/kotlin/org/jlinhart/excercises/Exercise2_ScalingActionExecutor.kt:25-27 | a scale-up by a negative count makes no call and reports nothing |

## Left out

- Logging: the messages printed by the executor are output only and are not modelled.
- Durations are whole seconds; the nanosecond precision of the program's duration type is not modelled.
- Overflow: `ValidWorkload` requires non-negative inputs, at most 2³¹ − 1 waiting requests, floor(w·d/60) ≤ 2³¹ − 1 and d · floor(w·d/60) ≤ 2⁶³ − 1 seconds. The quotient bound is what the conversion of the required count to a 32-bit integer needs (at the largest quotient the rounding test adds nothing, `LargestCountExample`); the last bound keeps the rounding test's duration multiplication (line 53) from throwing its overflow exception, which is not modelled (`DurationProductOverflowExcluded` shows an input it rules out). The program itself does not validate its inputs.
- `ScalingActionResolver.IntendedRequiredWorkersCount` is not bounded to 32 bits: at the largest quotient with a remainder it yields 2³¹, which a corrected program would have to reject or widen.
- The fleet map's iteration order is the order of the snapshot sequence; the program leaves that order to the map implementation.
- Exceptions other than I/O errors and "no such element" would escape from the executor in the program; the operator's outcomes here are a closed set, so they cannot arise.
- The action provider's implementation is not part of this model: `Run` takes the action it would return as a parameter.
- `ScalingActionExecutor.ScalingActionExecutor.Run` requires the operator's script to hold an outcome for every call the action makes; this bounds the scripted stand-in, not the program.
- `ScalingActionResolver.ResolveScaleDown` requires a non-negative limit, since taking a negative number of elements throws in the program; the resolver only calls it with a positive difference.

## Findings

| source | as written | input that shows it | evidently intended | confidence | as-written member | corrected member |
|---|---|---|---|---|---|---|
| src/main/kotlin/org/jlinhart/excercises/Excercise1_ScalingActionResolver.kt:53 | the round-up test compares `averageJobDuration × fullyLoadedWorkers` with the total time | one 61-second job gets 1 worker, whose 60 seconds of capacity fall short of the 61 seconds of work; ten 30-second jobs get 6 workers where 5 suffice | compare `targetDuration × fullyLoadedWorkers` with the total time, giving the ceiling of total time over one minute | not executed; high (the class comment states the one-minute goal) | `ScalingActionResolver.CapacityForLongJobs` | `ScalingActionResolver.IntendedRequiredWorkersCount` |

The resolver model keeps the count as written (`RequiredWorkersCount`), since it
models the program; `IntendedRequiredWorkersCount` is the corrected count with
its ceiling property proved, and `RequiredWorkersCountAgreement` says exactly
where the two differ.
