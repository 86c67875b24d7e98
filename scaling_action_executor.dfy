/**
  The scaling action executor: performs a scaling action by starting or
  stopping workers through a worker operator, one attempt per worker, and
  reports what actually completed.

  The operator's exceptions become outcome values: a start either returns a
  new worker id or fails with an I/O error; a stop either completes, reports
  that the worker does not exist, or fails with an I/O error. The operator
  itself is a scripted stand-in that hands out the outcomes of its next calls
  in order and logs every call it receives.
 */
module ScalingActionExecutor {
  import opened Subsequences
  import opened ScalingActionResolver

  datatype Option<T> = None | Some(value: T)

  datatype ScalingActionResult = ScalingActionResult(workersStarted: seq<WorkerId>, workersStopped: seq<WorkerId>)

  /** The outcome of one `start()` call. */
  datatype StartOutcome = Started(id: WorkerId) | StartIOError

  /** The outcome of one `stop(id)` call. */
  datatype StopOutcome = Stopped | StopNotFound | StopIOError

  /** One call received by the worker operator. */
  datatype OperatorCall = StartCall | StopCall(id: WorkerId)

  function Max(a: int, b: int): int
  {
    if a >= b then a else b
  }

  // ---------------------------------------------------------------------------
  // What the executor reports, as functions of the operator's outcomes
  // ---------------------------------------------------------------------------

  /** One start attempt: the new id, or nothing when the start failed. */
  function StartResult(outcome: StartOutcome): Option<WorkerId>
  {
    match outcome
    case Started(id) => Some(id)
    case StartIOError => None
  }

  /** One stop attempt: a worker that is already gone counts as stopped. */
  function StopResult(id: WorkerId, outcome: StopOutcome): Option<WorkerId>
  {
    match outcome
    case Stopped => Some(id)
    case StopNotFound => Some(id)
    case StopIOError => None
  }

  function Present<T>(o: Option<T>): seq<T>
  {
    if o.Some? then [o.value] else []
  }

  /**
    The ids reported after a run of start attempts: the id of every
    successful start, in call order; every failed start is dropped.
   */
  function StartedIds(outcomes: seq<StartOutcome>): seq<WorkerId>
  {
    if outcomes == [] then [] else Present(StartResult(outcomes[0])) + StartedIds(outcomes[1..])
  }

  /**
    Every successful start and only those is reported: one id per success,
    and the failures make up the difference.
   */
  lemma {:induction false} StartedIdsAccount(outcomes: seq<StartOutcome>)
    ensures |StartedIds(outcomes)| + multiset(outcomes)[StartIOError] == |outcomes|
    ensures forall id :: id in StartedIds(outcomes) <==> Started(id) in outcomes
  {
    if outcomes != [] {
      assert outcomes == [outcomes[0]] + outcomes[1..];
      StartedIdsAccount(outcomes[1..]);
    }
  }

  /**
    The ids reported after stopping `ids` one by one: every id whose stop
    did not fail with an I/O error, in request order.
   */
  function StoppedIds(ids: seq<WorkerId>, outcomes: seq<StopOutcome>): seq<WorkerId>
    requires |outcomes| == |ids|
  {
    if ids == [] then [] else Present(StopResult(ids[0], outcomes[0])) + StoppedIds(ids[1..], outcomes[1..])
  }

  /**
    The stopped ids keep the request order and drop exactly one id per
    stop that failed with an I/O error.
   */
  lemma {:induction false} StoppedIdsAccount(ids: seq<WorkerId>, outcomes: seq<StopOutcome>)
    requires |outcomes| == |ids|
    ensures Subsequence(StoppedIds(ids, outcomes), ids)
    ensures |StoppedIds(ids, outcomes)| + multiset(outcomes)[StopIOError] == |ids|
  {
    if ids != [] {
      assert outcomes == [outcomes[0]] + outcomes[1..];
      StoppedIdsAccount(ids[1..], outcomes[1..]);
      var rest := StoppedIds(ids[1..], outcomes[1..]);
      var head := Present(StopResult(ids[0], outcomes[0]));
      assert head == [] ==> head + rest == rest;
      assert head != [] ==> (head + rest)[0] == ids[0] && (head + rest)[1..] == rest;
    }
  }

  /** Start outcomes are reported piecewise: the report for a run is the reports of its parts. */
  lemma {:induction false} StartedIdsAppend(a: seq<StartOutcome>, b: seq<StartOutcome>)
    ensures StartedIds(a + b) == StartedIds(a) + StartedIds(b)
  {
    if a != [] {
      assert (a + b)[1..] == a[1..] + b;
      StartedIdsAppend(a[1..], b);
    } else {
      assert a + b == b;
    }
  }

  /** Stop outcomes are reported piecewise as well. */
  lemma {:induction false} StoppedIdsAppend(ids1: seq<WorkerId>, out1: seq<StopOutcome>, ids2: seq<WorkerId>, out2: seq<StopOutcome>)
    requires |out1| == |ids1| && |out2| == |ids2|
    ensures StoppedIds(ids1 + ids2, out1 + out2) == StoppedIds(ids1, out1) + StoppedIds(ids2, out2)
  {
    if ids1 != [] {
      var ids, out := ids1 + ids2, out1 + out2;
      assert ids[0] == ids1[0] && out[0] == out1[0];
      assert ids[1..] == ids1[1..] + ids2;
      assert out[1..] == out1[1..] + out2;
      var head := Present(StopResult(ids1[0], out1[0]));
      assert StoppedIds(ids, out) == head + StoppedIds(ids[1..], out[1..]);
      assert StoppedIds(ids1, out1) == head + StoppedIds(ids1[1..], out1[1..]);
      StoppedIdsAppend(ids1[1..], out1[1..], ids2, out2);
    } else {
      assert ids1 + ids2 == ids2 && out1 + out2 == out2;
    }
  }

  /** Consuming the head of a script's suffix leaves the next suffix. */
  lemma DropOne<T>(s: seq<T>, i: nat)
    requires i < |s|
    ensures s[i..][0] == s[i] && s[i..][1..] == s[i + 1..]
  {
  }

  /** One more start attempt extends the report by that attempt's result. */
  lemma StartedIdsStep(outcomes: seq<StartOutcome>, i: nat)
    requires i < |outcomes|
    ensures StartedIds(outcomes[..i + 1]) == StartedIds(outcomes[..i]) + Present(StartResult(outcomes[i]))
    ensures StartCalls(i + 1) == StartCalls(i) + [StartCall]
  {
    assert outcomes[..i + 1] == outcomes[..i] + [outcomes[i]];
    StartedIdsAppend(outcomes[..i], [outcomes[i]]);
    assert StartedIds([outcomes[i]]) == Present(StartResult(outcomes[i])) + StartedIds([]);
  }

  /** One more stop attempt extends the report by that attempt's result. */
  lemma StoppedIdsStep(ids: seq<WorkerId>, outcomes: seq<StopOutcome>, i: nat)
    requires |outcomes| == |ids| && i < |ids|
    ensures StoppedIds(ids[..i + 1], outcomes[..i + 1]) == StoppedIds(ids[..i], outcomes[..i]) + Present(StopResult(ids[i], outcomes[i]))
    ensures StopCalls(ids[..i + 1]) == StopCalls(ids[..i]) + [StopCall(ids[i])]
  {
    assert ids[..i + 1] == ids[..i] + [ids[i]];
    assert outcomes[..i + 1] == outcomes[..i] + [outcomes[i]];
    assert ids[..i + 1][..i] == ids[..i];
    StoppedIdsAppend(ids[..i], outcomes[..i], [ids[i]], [outcomes[i]]);
    assert StoppedIds([ids[i]], [outcomes[i]]) == Present(StopResult(ids[i], outcomes[i])) + StoppedIds([], []);
  }

  /**
    A stop that finds no such worker is reported exactly like one that
    stopped it.
   */
  lemma {:induction false} NotFoundCountsAsStopped(ids: seq<WorkerId>, outcomes: seq<StopOutcome>, k: nat)
    requires |outcomes| == |ids| && k < |ids|
    ensures StoppedIds(ids, outcomes[k := StopNotFound]) == StoppedIds(ids, outcomes[k := Stopped])
  {
    if k > 0 {
      assert outcomes[k := StopNotFound][1..] == outcomes[1..][k - 1 := StopNotFound];
      assert outcomes[k := Stopped][1..] == outcomes[1..][k - 1 := Stopped];
      NotFoundCountsAsStopped(ids[1..], outcomes[1..], k - 1);
    }
  }

  /** An id is reported stopped exactly when its own stop did not fail with an I/O error. */
  lemma {:induction false} StoppedIdsMembership(ids: seq<WorkerId>, outcomes: seq<StopOutcome>, k: nat)
    requires |outcomes| == |ids| && k < |ids|
    requires Distinct(ids)
    ensures ids[k] in StoppedIds(ids, outcomes) <==> outcomes[k] != StopIOError
  {
    assert ids == [ids[0]] + ids[1..];
    var rest := StoppedIds(ids[1..], outcomes[1..]);
    StoppedIdsAccount(ids[1..], outcomes[1..]);
    SubsequenceElements(rest, ids[1..]);
    if k == 0 {
      assert ids[0] !in ids[1..] by {
        forall j | 0 <= j < |ids[1..]| ensures ids[1..][j] != ids[0] {
          assert ids[1..][j] == ids[j + 1];
        }
      }
    } else {
      assert Distinct(ids[1..]) by {
        forall i, j | 0 <= i < j < |ids[1..]| ensures ids[1..][i] != ids[1..][j] {
          assert ids[1..][i] == ids[i + 1] && ids[1..][j] == ids[j + 1];
        }
      }
      assert ids[1..][k - 1] == ids[k];
      StoppedIdsMembership(ids[1..], outcomes[1..], k - 1);
    }
  }

  /** Without I/O errors every requested worker is reported stopped, in order. */
  lemma {:induction false} AllStopsSucceed(ids: seq<WorkerId>, outcomes: seq<StopOutcome>)
    requires |outcomes| == |ids|
    requires forall k :: 0 <= k < |outcomes| ==> outcomes[k] != StopIOError
    ensures StoppedIds(ids, outcomes) == ids
  {
    if ids != [] {
      assert outcomes[0] != StopIOError;
      AllStopsSucceed(ids[1..], outcomes[1..]);
      assert ids == [ids[0]] + ids[1..];
    }
  }

  /** The number of `start()` calls an action makes: none unless it scales up. */
  function StartCallsNeeded(action: ScalingAction): nat
  {
    if action.ScaleUp? then Max(action.workersToAdd, 0) else 0
  }

  /** The number of `stop(id)` calls an action makes: one per id to stop. */
  function StopCallsNeeded(action: ScalingAction): nat
  {
    if action.ScaleDown? then |action.workersToStop| else 0
  }

  /** The calls made by `n` start attempts. */
  function StartCalls(n: nat): (calls: seq<OperatorCall>)
    ensures |calls| == n
    ensures forall k :: 0 <= k < n ==> calls[k] == StartCall
  {
    if n == 0 then [] else StartCalls(n - 1) + [StartCall]
  }

  /** The calls made by stopping `ids` one by one. */
  function StopCalls(ids: seq<WorkerId>): (calls: seq<OperatorCall>)
    ensures |calls| == |ids|
    ensures forall k :: 0 <= k < |ids| ==> calls[k] == StopCall(ids[k])
  {
    if ids == [] then [] else StopCalls(ids[..|ids| - 1]) + [StopCall(ids[|ids| - 1])]
  }

  /** The calls an action makes on the operator, in order. */
  function OperatorCalls(action: ScalingAction): (calls: seq<OperatorCall>)
    ensures |calls| == StartCallsNeeded(action) + StopCallsNeeded(action)
  {
    match action
    case NoAction => []
    case ScaleUp(n) => StartCalls(Max(n, 0))
    case ScaleDown(ids) => StopCalls(ids)
  }

  /**
    The result of executing `action` against an operator whose next start
    and stop outcomes are `starts` and `stops`.
   */
  function RunResult(action: ScalingAction, starts: seq<StartOutcome>, stops: seq<StopOutcome>): (r: ScalingActionResult)
    requires StartCallsNeeded(action) <= |starts| && StopCallsNeeded(action) <= |stops|
    ensures action.NoAction? ==> r.workersStarted == [] && r.workersStopped == []
    ensures action.ScaleUp? ==> r.workersStopped == [] && |r.workersStarted| <= StartCallsNeeded(action)
    ensures action.ScaleUp? ==> forall id :: id in r.workersStarted ==> Started(id) in starts[..StartCallsNeeded(action)]
    ensures action.ScaleDown? ==> r.workersStarted == [] && Subsequence(r.workersStopped, action.workersToStop)
  {
    match action
    case NoAction => ScalingActionResult([], [])
    case ScaleUp(n) =>
      StartedIdsAccount(starts[..Max(n, 0)]);
      ScalingActionResult(StartedIds(starts[..Max(n, 0)]), [])
    case ScaleDown(ids) =>
      StoppedIdsAccount(ids, stops[..|ids|]);
      ScalingActionResult([], StoppedIds(ids, stops[..|ids|]))
  }

  // ---------------------------------------------------------------------------
  // The operator and the executor
  // ---------------------------------------------------------------------------

  /**
    A worker operator that answers its calls from two scripts of outcomes
    and records every call.
   */
  class WorkerOperator {
    var startScript: seq<StartOutcome>
    var stopScript: seq<StopOutcome>
    var calls: seq<OperatorCall>

    constructor (startScript: seq<StartOutcome>, stopScript: seq<StopOutcome>)
      ensures this.startScript == startScript && this.stopScript == stopScript
      ensures calls == []
    {
      this.startScript := startScript;
      this.stopScript := stopScript;
      calls := [];
    }

    /** Starts a worker: the next scripted start outcome. */
    method Start() returns (outcome: StartOutcome)
      requires startScript != []
      modifies this
      ensures outcome == old(startScript[0])
      ensures startScript == old(startScript[1..]) && stopScript == old(stopScript)
      ensures calls == old(calls) + [StartCall]
    {
      outcome := startScript[0];
      startScript := startScript[1..];
      calls := calls + [StartCall];
    }

    /** Stops worker `id`: the next scripted stop outcome. */
    method Stop(id: WorkerId) returns (outcome: StopOutcome)
      requires stopScript != []
      modifies this
      ensures outcome == old(stopScript[0])
      ensures stopScript == old(stopScript[1..]) && startScript == old(startScript)
      ensures calls == old(calls) + [StopCall(id)]
    {
      outcome := stopScript[0];
      stopScript := stopScript[1..];
      calls := calls + [StopCall(id)];
    }
  }

  class ScalingActionExecutor {
    const workerOperator: WorkerOperator

    constructor (workerOperator: WorkerOperator)
      ensures this.workerOperator == workerOperator
    {
      this.workerOperator := workerOperator;
    }

    /**
      Performs `scalingAction` (what the action provider supplies) and
      reports what completed. Operator failures never escape: every path
      returns a result.
     */
    method Run(scalingAction: ScalingAction) returns (result: ScalingActionResult)
      requires StartCallsNeeded(scalingAction) <= |workerOperator.startScript|
      requires StopCallsNeeded(scalingAction) <= |workerOperator.stopScript|
      modifies workerOperator
      ensures result == RunResult(scalingAction, old(workerOperator.startScript), old(workerOperator.stopScript))
      ensures workerOperator.calls == old(workerOperator.calls) + OperatorCalls(scalingAction)
      ensures workerOperator.startScript == old(workerOperator.startScript)[StartCallsNeeded(scalingAction)..]
      ensures workerOperator.stopScript == old(workerOperator.stopScript)[StopCallsNeeded(scalingAction)..]
    {
      match scalingAction
      case NoAction =>
        result := ScalingActionResult([], []);
      case ScaleUp(workersToAdd) =>
        var started := StartWorkers(workersToAdd);
        result := ScalingActionResult(started, []);
      case ScaleDown(workersToStop) =>
        var stopped := StopWorkers(workersToStop);
        result := ScalingActionResult([], stopped);
    }

    /** Attempts `count` starts, once each for 1..count, keeping the ids of those that succeeded. */
    method StartWorkers(count: int) returns (started: seq<WorkerId>)
      requires Max(count, 0) <= |workerOperator.startScript|
      modifies workerOperator
      ensures started == StartedIds(old(workerOperator.startScript)[..Max(count, 0)])
      ensures workerOperator.startScript == old(workerOperator.startScript)[Max(count, 0)..]
      ensures workerOperator.stopScript == old(workerOperator.stopScript)
      ensures workerOperator.calls == old(workerOperator.calls) + StartCalls(Max(count, 0))
    {
      ghost var script := workerOperator.startScript;
      ghost var calls0 := workerOperator.calls;
      ghost var n := Max(count, 0);
      assert n <= |script|;
      ghost var outcomes := script[..n];
      started := [];
      var i := 1;
      while i <= count
        invariant 1 <= i <= n + 1 && n <= |script|
        invariant workerOperator.startScript == script[i - 1..]
        invariant workerOperator.stopScript == old(workerOperator.stopScript)
        invariant started == StartedIds(outcomes[..i - 1])
        invariant workerOperator.calls == calls0 + StartCalls(i - 1)
      {
        DropOne(script, i - 1);
        var id := StartOrNull();
        StartedIdsStep(outcomes, i - 1);
        assert outcomes[i - 1] == script[i - 1];
        assert calls0 + StartCalls(i - 1) + [StartCall] == calls0 + StartCalls(i);
        if id.Some? {
          started := started + [id.value];
        }
        i := i + 1;
      }
      assert i - 1 == n;
      assert outcomes[..n] == outcomes;
    }

    /** One start attempt; an I/O error yields nothing. */
    method StartOrNull() returns (id: Option<WorkerId>)
      requires workerOperator.startScript != []
      modifies workerOperator
      ensures id == StartResult(old(workerOperator.startScript[0]))
      ensures workerOperator.startScript == old(workerOperator.startScript[1..])
      ensures workerOperator.stopScript == old(workerOperator.stopScript)
      ensures workerOperator.calls == old(workerOperator.calls) + [StartCall]
    {
      var outcome := workerOperator.Start();
      match outcome
      case Started(workerId) =>
        id := Some(workerId);
      case StartIOError =>
        id := None;
    }

    /** Attempts to stop each worker of `workersToStop` in order, keeping the ids that are gone afterwards. */
    method StopWorkers(workersToStop: seq<WorkerId>) returns (stopped: seq<WorkerId>)
      requires |workersToStop| <= |workerOperator.stopScript|
      modifies workerOperator
      ensures stopped == StoppedIds(workersToStop, old(workerOperator.stopScript)[..|workersToStop|])
      ensures workerOperator.stopScript == old(workerOperator.stopScript)[|workersToStop|..]
      ensures workerOperator.startScript == old(workerOperator.startScript)
      ensures workerOperator.calls == old(workerOperator.calls) + StopCalls(workersToStop)
    {
      ghost var script := workerOperator.stopScript;
      ghost var calls0 := workerOperator.calls;
      ghost var outcomes := script[..|workersToStop|];
      stopped := [];
      var i := 0;
      while i < |workersToStop|
        invariant 0 <= i <= |workersToStop| <= |script|
        invariant workerOperator.stopScript == script[i..]
        invariant workerOperator.startScript == old(workerOperator.startScript)
        invariant stopped == StoppedIds(workersToStop[..i], outcomes[..i])
        invariant workerOperator.calls == calls0 + StopCalls(workersToStop[..i])
      {
        DropOne(script, i);
        var id := StopOrNull(workersToStop[i]);
        StoppedIdsStep(workersToStop, outcomes, i);
        assert outcomes[i] == script[i];
        assert calls0 + StopCalls(workersToStop[..i]) + [StopCall(workersToStop[i])] == calls0 + StopCalls(workersToStop[..i + 1]);
        if id.Some? {
          stopped := stopped + [id.value];
        }
        i := i + 1;
      }
      assert workersToStop[..i] == workersToStop;
      assert outcomes[..i] == outcomes;
    }

    /** One stop attempt; a missing worker counts as stopped, an I/O error yields nothing. */
    method StopOrNull(id: WorkerId) returns (stoppedId: Option<WorkerId>)
      requires workerOperator.stopScript != []
      modifies workerOperator
      ensures stoppedId == StopResult(id, old(workerOperator.stopScript[0]))
      ensures workerOperator.stopScript == old(workerOperator.stopScript[1..])
      ensures workerOperator.startScript == old(workerOperator.startScript)
      ensures workerOperator.calls == old(workerOperator.calls) + [StopCall(id)]
    {
      var outcome := workerOperator.Stop(id);
      match outcome
      case Stopped =>
        stoppedId := Some(id);
      case StopNotFound =>
        stoppedId := Some(id);
      case StopIOError =>
        stoppedId := None;
    }
  }

  // ---------------------------------------------------------------------------
  // Scenarios
  // ---------------------------------------------------------------------------

  /** Scaling up by three while the second start fails: two workers are reported, nothing escapes. */
  method PartialStartFailureScenario() returns (result: ScalingActionResult, calls: seq<OperatorCall>)
    ensures result == ScalingActionResult([WorkerId(1), WorkerId(3)], [])
    ensures calls == [StartCall, StartCall, StartCall]
  {
    var outcomes := [Started(WorkerId(1)), StartIOError, Started(WorkerId(3))];
    var operator := new WorkerOperator(outcomes, []);
    var executor := new ScalingActionExecutor(operator);
    result := executor.Run(ScaleUp(3));
    calls := operator.calls;
    assert outcomes[..3] == outcomes;
    assert StartedIds(outcomes[2..]) == [WorkerId(3)];
    assert StartedIds(outcomes[1..]) == [WorkerId(3)];
    assert StartedIds(outcomes) == [WorkerId(1), WorkerId(3)];
    assert StartCalls(3) == [StartCall, StartCall, StartCall];
  }

  /**
    Scaling down three workers: the first is already gone, the second fails
    with an I/O error, the third stops. The first and third are reported.
   */
  method StopOutcomesScenario() returns (result: ScalingActionResult, calls: seq<OperatorCall>)
    ensures result == ScalingActionResult([], [WorkerId(1), WorkerId(3)])
    ensures calls == [StopCall(WorkerId(1)), StopCall(WorkerId(2)), StopCall(WorkerId(3))]
  {
    var ids, outcomes := [WorkerId(1), WorkerId(2), WorkerId(3)], [StopNotFound, StopIOError, Stopped];
    var operator := new WorkerOperator([], outcomes);
    var executor := new ScalingActionExecutor(operator);
    result := executor.Run(ScaleDown(ids));
    calls := operator.calls;
    assert outcomes[..3] == outcomes;
    assert StoppedIds(ids[2..], outcomes[2..]) == [WorkerId(3)];
    assert StoppedIds(ids[1..], outcomes[1..]) == [WorkerId(3)];
    assert StoppedIds(ids, outcomes) == [WorkerId(1), WorkerId(3)];
    assert StopCalls(ids) == [StopCall(WorkerId(1)), StopCall(WorkerId(2)), StopCall(WorkerId(3))];
  }

  /** A scale-up by a negative count makes no call at all. */
  method NegativeScaleUpScenario() returns (result: ScalingActionResult, calls: seq<OperatorCall>)
    ensures result == ScalingActionResult([], [])
    ensures calls == []
  {
    var operator := new WorkerOperator([], []);
    var executor := new ScalingActionExecutor(operator);
    result := executor.Run(ScaleUp(-2));
    calls := operator.calls;
  }
}
