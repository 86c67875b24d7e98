/**
  The scaling action resolver: a pure function from a workload snapshot and a
  worker-fleet snapshot to the action that brings the fleet to the size needed
  to serve every waiting job within one minute.

  Durations are whole seconds. The fleet snapshot, a map from worker id to
  state in the program, is a sequence of entries in the map's iteration
  order, so "snapshot order" is well defined; key uniqueness is `DistinctIds`.
 */
module ScalingActionResolver {
  import opened Subsequences

  /** The one-minute service objective, in seconds. */
  const TargetDuration: nat := 60

  /** The largest value of a 32-bit signed integer, the width of the counts. */
  const MaxInt: int := 0x7fff_ffff

  /** The largest value of a 64-bit signed integer, the range of a duration in seconds. */
  const MaxLong: int := 0x7fff_ffff_ffff_ffff

  datatype Workload = Workload(waitingRequests: int, averageJobDuration: int)

  datatype WorkerId = WorkerId(value: int)

  datatype WorkerState = Initializing | Running | Idling | Stopping | Failed

  /** One entry of the fleet snapshot. */
  datatype Instance = Instance(id: WorkerId, state: WorkerState)

  type Workers = seq<Instance>

  datatype ScalingAction =
    | NoAction
    | ScaleUp(workersToAdd: int)
    | ScaleDown(workersToStop: seq<WorkerId>)

  /**
    Inputs the resolver handles without overflow: no negative counts or
    durations, a quotient of total time over the target that fits a 32-bit
    integer (the required count then fits as well), and a product of the job
    duration and that quotient (formed by the rounding test) that fits a
    duration.
   */
  predicate ValidWorkload(workload: Workload)
  {
    && 0 <= workload.waitingRequests <= MaxInt
    && 0 <= workload.averageJobDuration
    && workload.waitingRequests * workload.averageJobDuration / TargetDuration <= MaxInt
    && workload.averageJobDuration * (workload.waitingRequests * workload.averageJobDuration / TargetDuration) <= MaxLong
  }

  /**
    One job of 2^35 seconds: the required count fits 32 bits, but the
    rounding test's product of duration and quotient exceeds a duration's
    range, so the input is outside the modelled domain.
   */
  lemma DurationProductOverflowExcluded()
    ensures Workload(1, 34359738368).waitingRequests * Workload(1, 34359738368).averageJobDuration / TargetDuration < MaxInt
    ensures !ValidWorkload(Workload(1, 34359738368))
  {
  }

  /** The snapshot is a map: no worker id occurs twice. */
  predicate DistinctIds(workers: Workers)
  {
    forall i, j :: 0 <= i < j < |workers| ==> workers[i].id != workers[j].id
  }

  /** The worker ids of the snapshot, in snapshot order. */
  function Ids(workers: Workers): (ids: seq<WorkerId>)
    ensures |ids| == |workers|
    ensures forall k :: 0 <= k < |workers| ==> ids[k] == workers[k].id
  {
    if workers == [] then [] else [workers[0].id] + Ids(workers[1..])
  }

  function Min(a: int, b: int): int
  {
    if a <= b then a else b
  }

  function Abs(x: int): nat
  {
    if x < 0 then -x else x
  }

  // ---------------------------------------------------------------------------
  // Required workers
  // ---------------------------------------------------------------------------

  /**
    The number of workers the workload calls for, computed as the program
    does: the total time divided by the target, plus one when the test
    `averageJobDuration * fullyLoadedWorkers < totalTimeRequired` holds.
    That test multiplies by the job duration rather than by the target, so
    the result is not the ceiling of the quotient (see the lemmas below).
   */
  function RequiredWorkersCount(workload: Workload): (r: nat)
    requires ValidWorkload(workload)
    ensures workload.waitingRequests == 0 ==> r == 0
    ensures r <= MaxInt
    ensures
      var exact := workload.waitingRequests * workload.averageJobDuration / TargetDuration;
      exact <= r <= exact + 1
  {
    var totalTimeRequired := workload.averageJobDuration * workload.waitingRequests;
    var fullyLoadedWorkers := totalTimeRequired / TargetDuration;
    var extra := if workload.averageJobDuration * fullyLoadedWorkers < totalTimeRequired then 1 else 0;
    // At the largest quotient there are at least as many fully loaded
    // workers as requests, so nothing is added and the sum still fits.
    assert fullyLoadedWorkers >= workload.waitingRequests ==> extra == 0 by {
      if fullyLoadedWorkers >= workload.waitingRequests {
        MultiplyMonotone(workload.waitingRequests, fullyLoadedWorkers, workload.averageJobDuration);
      }
    }
    fullyLoadedWorkers + extra
  }

  /**
    What the rounding test actually decides: one worker is added to the
    floor of the quotient exactly when there is work and each job is shorter
    than the target.
   */
  lemma {:induction false} RequiredWorkersCountCharacterization(workload: Workload)
    requires ValidWorkload(workload)
    ensures
      var w, d := workload.waitingRequests, workload.averageJobDuration;
      RequiredWorkersCount(workload) == w * d / TargetDuration + (if w > 0 && 0 < d < TargetDuration then 1 else 0)
  {
    var w, d := workload.waitingRequests, workload.averageJobDuration;
    var total := d * w;
    var q := total / TargetDuration;
    assert total == w * d;
    DivisionBounds(total, TargetDuration);
    if w > 0 && 0 < d < TargetDuration {
      MultiplyStrictlyMonotone(d, TargetDuration, w);
      assert q < w by {
        if q >= w {
          MultiplyMonotone(w, q, TargetDuration);
        }
      }
      MultiplyStrictlyMonotone(q, w, d);
    } else if d >= TargetDuration {
      MultiplyMonotone(TargetDuration, d, w);
      assert q >= w by {
        if q < w {
          MultiplyMonotone(q + 1, w, TargetDuration);
        }
      }
      MultiplyMonotone(w, q, d);
    } else if w == 0 {
      assert total == 0;
    } else {
      assert d == 0;
    }
  }

  lemma DivisionBounds(n: nat, m: nat)
    requires 0 < m
    ensures (n / m) * m <= n < (n / m) * m + m
  {
  }

  lemma MultiplyMonotone(a: int, b: int, c: nat)
    requires a <= b
    ensures a * c <= b * c
  {
  }

  lemma MultiplyStrictlyMonotone(a: int, b: int, c: nat)
    requires a < b && 0 < c
    ensures a * c < b * c
  {
  }

  /**
    The one-minute objective holds when jobs are no longer than the target:
    the required workers can together finish all waiting work in one minute.
   */
  lemma {:induction false} EnoughCapacityForShortJobs(workload: Workload)
    requires ValidWorkload(workload)
    requires workload.averageJobDuration <= TargetDuration
    ensures RequiredWorkersCount(workload) * TargetDuration >= workload.waitingRequests * workload.averageJobDuration
  {
    var w, d := workload.waitingRequests, workload.averageJobDuration;
    RequiredWorkersCountCharacterization(workload);
    var q := w * d / TargetDuration;
    if d == TargetDuration {
      assert w * d == q * TargetDuration;
    } else if w > 0 && 0 < d {
      assert (q + 1) * TargetDuration > w * d;
    }
  }

  /**
    For jobs of at least the target length the one-minute objective holds
    exactly when the total time is a whole number of minutes; otherwise the
    required count leaves work unfinished after one minute.
   */
  lemma {:induction false} CapacityForLongJobs(workload: Workload)
    requires ValidWorkload(workload)
    requires workload.waitingRequests > 0
    requires workload.averageJobDuration >= TargetDuration
    ensures
      var w, d := workload.waitingRequests, workload.averageJobDuration;
      (RequiredWorkersCount(workload) * TargetDuration >= w * d) <==> (w * d % TargetDuration == 0)
  {
    var w, d := workload.waitingRequests, workload.averageJobDuration;
    RequiredWorkersCountCharacterization(workload);
    var q := w * d / TargetDuration;
    assert RequiredWorkersCount(workload) == q;
    assert q * TargetDuration + w * d % TargetDuration == w * d;
  }

  /**
    The largest quotient is handled: 2^31 - 1 one-minute jobs need exactly
    that many workers, with nothing added by the rounding test.
   */
  lemma LargestCountExample()
    ensures ValidWorkload(Workload(MaxInt, 60))
    ensures RequiredWorkersCount(Workload(MaxInt, 60)) == MaxInt
  {
  }

  /** One 61-second job gets one worker, not two. */
  lemma LongJobExample()
    ensures RequiredWorkersCount(Workload(1, 61)) == 1
  {
  }

  /** Ten 30-second jobs get six workers, not five. */
  lemma ShortJobsExample()
    ensures RequiredWorkersCount(Workload(10, 30)) == 6
  {
  }

  /**
    The count the rounding step evidently means to compute: the ceiling of
    total time over the target, the smallest fleet that finishes the waiting
    work within one minute.
   */
  function IntendedRequiredWorkersCount(workload: Workload): (r: nat)
    requires ValidWorkload(workload)
    ensures r * TargetDuration >= workload.waitingRequests * workload.averageJobDuration
    ensures r == 0 || (r - 1) * TargetDuration < workload.waitingRequests * workload.averageJobDuration
  {
    var totalTimeRequired := workload.averageJobDuration * workload.waitingRequests;
    var fullyLoadedWorkers := totalTimeRequired / TargetDuration;
    var extra := if TargetDuration * fullyLoadedWorkers < totalTimeRequired then 1 else 0;
    fullyLoadedWorkers + extra
  }

  /**
    The program's count agrees with the intended one exactly when "each job
    is shorter than the target" coincides with "the total time is not a
    whole number of minutes".
   */
  lemma {:induction false} RequiredWorkersCountAgreement(workload: Workload)
    requires ValidWorkload(workload)
    requires workload.waitingRequests > 0
    ensures
      var w, d := workload.waitingRequests, workload.averageJobDuration;
      (RequiredWorkersCount(workload) == IntendedRequiredWorkersCount(workload))
        <==> ((0 < d < TargetDuration) <==> (w * d % TargetDuration != 0))
  {
    RequiredWorkersCountCharacterization(workload);
  }

  // ---------------------------------------------------------------------------
  // Active and idle workers
  // ---------------------------------------------------------------------------

  /** Workers that count toward capacity. */
  predicate IsActive(state: WorkerState)
  {
    state == Initializing || state == Running || state == Idling
  }

  /** The number of snapshot entries in an active state. */
  function CountActiveWorkers(workers: Workers): (n: nat)
    ensures n <= |workers|
  {
    if workers == [] then 0
    else (if IsActive(workers[0].state) then 1 else 0) + CountActiveWorkers(workers[1..])
  }

  /** The ids of the active workers. */
  function ActiveIds(workers: Workers): set<WorkerId>
  {
    set i | 0 <= i < |workers| && IsActive(workers[i].state) :: workers[i].id
  }

  /**
    The active count is the number of distinct workers in an active state;
    stopping and failed workers never contribute.
   */
  lemma {:induction false} CountActiveWorkersIsActiveIdCount(workers: Workers)
    requires DistinctIds(workers)
    ensures CountActiveWorkers(workers) == |ActiveIds(workers)|
  {
    if workers != [] {
      var rest := workers[1..];
      assert DistinctIds(rest) by {
        forall i, j | 0 <= i < j < |rest| ensures rest[i].id != rest[j].id {
          assert rest[i] == workers[i + 1] && rest[j] == workers[j + 1];
        }
      }
      CountActiveWorkersIsActiveIdCount(rest);
      ActiveIdsSplit(workers);
    }
  }

  /** The active ids are the first entry's, if active, next to those of the rest, which do not repeat it. */
  lemma ActiveIdsSplit(workers: Workers)
    requires workers != [] && DistinctIds(workers)
    ensures ActiveIds(workers) == (if IsActive(workers[0].state) then {workers[0].id} else {}) + ActiveIds(workers[1..])
    ensures workers[0].id !in ActiveIds(workers[1..])
  {
    var rest := workers[1..];
    forall id | id in ActiveIds(workers)
      ensures id in (if IsActive(workers[0].state) then {workers[0].id} else {}) + ActiveIds(rest)
    {
      var i :| 0 <= i < |workers| && IsActive(workers[i].state) && workers[i].id == id;
      if i > 0 {
        assert rest[i - 1] == workers[i];
      }
    }
    forall id | id in ActiveIds(rest) ensures id in ActiveIds(workers) {
      var i :| 0 <= i < |rest| && IsActive(rest[i].state) && rest[i].id == id;
      assert workers[i + 1] == rest[i];
    }
    forall i | 0 <= i < |rest| ensures rest[i].id != workers[0].id {
      assert rest[i] == workers[i + 1];
    }
  }

  /** The ids of the idle workers, in snapshot order. */
  function IdleIds(workers: Workers): (ids: seq<WorkerId>)
    ensures forall id :: id in ids <==> Instance(id, Idling) in workers
    ensures Subsequence(ids, Ids(workers))
  {
    if workers == [] then []
    else
      var rest := IdleIds(workers[1..]);
      assert Ids(workers)[1..] == Ids(workers[1..]);
      if workers[0].state == Idling then [workers[0].id] + rest else rest
  }

  /** With unique keys, no idle worker is listed twice. */
  lemma {:induction false} IdleIdsDistinct(workers: Workers)
    requires DistinctIds(workers)
    ensures Distinct(IdleIds(workers))
  {
    assert Distinct(Ids(workers));
    SubsequenceDistinct(IdleIds(workers), Ids(workers));
  }

  /** Any leading part of the idle list is free of repeats when the keys are unique. */
  lemma IdleIdsPrefixDistinct(workers: Workers, k: nat)
    requires k <= |IdleIds(workers)|
    ensures DistinctIds(workers) ==> Distinct(IdleIds(workers)[..k])
  {
    if DistinctIds(workers) {
      IdleIdsDistinct(workers);
    }
  }

  // ---------------------------------------------------------------------------
  // The decision
  // ---------------------------------------------------------------------------

  /**
    Up to `maxShutdownCount` idle workers, the first ones in snapshot order,
    or no action when there is none to stop.
   */
  function ResolveScaleDown(maxShutdownCount: int, workers: Workers): (r: ScalingAction)
    requires 0 <= maxShutdownCount
    ensures !r.ScaleUp?
    ensures r.NoAction? <==> maxShutdownCount == 0 || IdleIds(workers) == []
    ensures r.ScaleDown? ==>
      && |r.workersToStop| == Min(maxShutdownCount, |IdleIds(workers)|)
      && r.workersToStop == IdleIds(workers)[..|r.workersToStop|]
      && Subsequence(r.workersToStop, Ids(workers))
      && (forall id :: id in r.workersToStop ==> Instance(id, Idling) in workers)
      && (DistinctIds(workers) ==> Distinct(r.workersToStop))
  {
    var idle := IdleIds(workers);
    var toShutdown := if maxShutdownCount <= |idle| then idle[..maxShutdownCount] else idle;
    SubsequencePrefix(idle, Ids(workers), |toShutdown|);
    IdleIdsPrefixDistinct(workers, |toShutdown|);
    assert toShutdown == idle[..|toShutdown|];
    if toShutdown != [] then ScaleDown(toShutdown) else NoAction
  }

  /**
    The action for one snapshot: scale up by the shortfall, scale down by
    stopping surplus idle workers, or nothing.
   */
  function ResolveAction(workload: Workload, workers: Workers): (r: ScalingAction)
    requires ValidWorkload(workload)
    ensures
      var required, active := RequiredWorkersCount(workload), CountActiveWorkers(workers);
      && (r.ScaleUp? <==> active < required)
      && (r.ScaleUp? ==> r.workersToAdd == required - active > 0)
      && (r.NoAction? <==> required == active || (required < active && IdleIds(workers) == []))
      && (r.ScaleDown? ==>
            && required < active
            && 0 < |r.workersToStop| == Min(active - required, |IdleIds(workers)|)
            && r.workersToStop == IdleIds(workers)[..|r.workersToStop|]
            && Subsequence(r.workersToStop, Ids(workers))
            && (forall id :: id in r.workersToStop ==> Instance(id, Idling) in workers)
            && (DistinctIds(workers) ==> Distinct(r.workersToStop)))
    ensures workload.waitingRequests == 0 ==> !r.ScaleUp?
  {
    var requiredWorkersCount := RequiredWorkersCount(workload);
    var activeWorkers := CountActiveWorkers(workers);
    var diff := Abs(requiredWorkersCount - activeWorkers);
    if requiredWorkersCount < activeWorkers then
      assert diff == activeWorkers - requiredWorkersCount > 0;
      ResolveScaleDown(diff, workers)
    else if activeWorkers < requiredWorkersCount then
      ScaleUp(diff)
    else
      NoAction
  }

  /**
    Ten 30-second jobs with one running and two idle workers: six workers
    are required and three are active, so three more are requested.
   */
  lemma ScaleUpExample()
    ensures ResolveAction(Workload(10, 30),
      [Instance(WorkerId(1), Running), Instance(WorkerId(2), Idling), Instance(WorkerId(3), Idling)])
      == ScaleUp(3)
  {
  }

  /** No waiting jobs and two idle workers: both are stopped, in snapshot order. */
  lemma ScaleDownExample()
    ensures ResolveAction(Workload(0, 10), [Instance(WorkerId(1), Idling), Instance(WorkerId(2), Idling)])
      == ScaleDown([WorkerId(1), WorkerId(2)])
  {
  }

  /** Surplus workers that are all busy or leaving are left alone. */
  lemma NoIdleSurplusExample()
    ensures ResolveAction(Workload(0, 10), [Instance(WorkerId(1), Running), Instance(WorkerId(2), Stopping)])
      == NoAction
  {
  }
}
