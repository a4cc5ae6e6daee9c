/**
 No state of the server is a dead end: without any error of the worker pool, every unfinished call waits at most for a
 job on a worker, and from every reachable state all calls and jobs can be driven to their ends.
 */
module CallProgress {
  import opened Wrappers
  import opened CallProtocol
  import opened CallInvariants
  import opened CallTheorems

  predicate Over(c: Call) { CallOver(c) && JobOver(c) }

  /** The pool has returned no error, and has dropped no job. */
  predicate PoolWorks(a: Step) { !a.PoolFails? && !a.Abandon? }

  // ---- A step for every unfinished call --------------------------------------------------------------------------

  /** The next step of a job on a worker, whose handler makes no more replies. */
  function JobStep(c: Call): Step
    requires WorkerOf(c).Some?
  {
    if c.job.Handling? then HandlerReturn else JobAdvance
  }

  lemma JobStepIsPossible(s: State, j: nat)
    requires j < |s.calls| && WorkerOf(s.calls[j]).Some?
    ensures Next(s, Do(j, JobStep(s.calls[j]))).Some?
  {
    var a := JobStep(s.calls[j]);
    assert StepCall(s.calls[j], a).Some? && Permitted(s, j, a);
  }

  /** A queued job starts, or the worker it could have is taken, and that worker's job has a step. */
  lemma QueuedJobStep(s: State, i: nat) returns (j: nat, a: Step)
    requires s.workers > 0 && i < |s.calls| && s.calls[i].job == Queued
    ensures j < |s.calls| && Next(s, Do(j, a)).Some?
    ensures (j == i && a == Start(0)) || (WorkerOf(s.calls[j]) == Some(0) && a == JobStep(s.calls[j]))
  {
    if k: nat :| k < |s.calls| && WorkerOf(s.calls[k]) == Some(0) {
      j, a := k, JobStep(s.calls[k]);
      JobStepIsPossible(s, k);
    } else {
      j, a := i, Start(0);
      assert StepCall(s.calls[i], a).Some? && Permitted(s, i, a);
    }
  }

  /** A step towards the end of a call, its own or that of the job on the worker it waits for. */
  lemma ForwardStep(s: State, i: nat) returns (j: nat, a: Step)
    requires Reachable(s) && s.workers > 0 && i < |s.calls| && !Over(s.calls[i])
    ensures j < |s.calls| && Next(s, Do(j, a)).Some? && PoolWorks(a)
    ensures j == i || (s.calls[i].job == Queued && WorkerOf(s.calls[j]) == Some(0))
    ensures Forward(a)
  {
    ReachableInv(s);
    var c := s.calls[i];
    assert CallInv(c);
    if !CallOver(c) && c.caller != Waiting {
      j, a := i, CallerStep(s, c);
      CallerStepIsPossible(s, i);
    } else if c.job == Finished {
      j, a := i, PoolReturns;
      assert StepCall(c, a).Some? && Permitted(s, i, a);
    } else if c.job == Queued {
      j, a := QueuedJobStep(s, i);
    } else {
      j, a := i, JobStep(c);
      JobStepIsPossible(s, i);
    }
  }

  /** The steps that lead forward. */
  predicate Forward(a: Step) {
    match a
    case Start(_) => true
    case HandlerReturn => true
    case JobAdvance => true
    case PoolReturns => true
    case Admit => true
    case Find(_) => true
    case CallerAdvance => true
    case TakeEvent(_) => true
    case ReadResponse(_) => true
    case Record(_) => true
    case Fire(_, _) => true
    case Release => true
    case _ => false
  }

  /** Until a call has returned, it can take a step, or one of its job or of the job on the worker it waits for can. */
  lemma ProgressWithoutPoolError(s: State, i: nat) returns (j: nat, a: Step)
    requires Reachable(s) && s.workers > 0 && i < |s.calls| && !CallOver(s.calls[i])
    ensures j < |s.calls| && Next(s, Do(j, a)).Some? && PoolWorks(a)
    ensures j == i || (s.calls[i].caller == Waiting && s.calls[i].job == Queued && WorkerOf(s.calls[j]) == Some(0))
  {
    j, a := ForwardStep(s, i);
    if s.calls[i].caller != Waiting {
      ReachableInv(s);
      assert CallInv(s.calls[i]);
      CallerStepIsPossible(s, i);
      j, a := i, CallerStep(s, s.calls[i]);
    }
  }

  // ---- How far a call is from its end ----------------------------------------------------------------------------

  function StageRank(stage: Stage): nat {
    match stage case Claim => 2 case Store => 1 case Send => 0
  }

  function JobRank(job: Job): nat {
    match job
    case NotSubmitted => 0
    case Queued => 6
    case Handling(_) => 5
    case JobReplying(_, _, stage, origin) => (if origin == FromHandler then 6 else 1) + StageRank(stage)
    case Finished => 0
    case Dropped => 0
  }

  function CallerRank(caller: Caller, callbacks: nat): nat {
    match caller
    case Limiting => callbacks + 20
    case Looking => callbacks + 19
    case CallerReplying(_, stage) => callbacks + 6 + StageRank(stage)
    case Waiting => callbacks + 6
    case Acquiring => callbacks + 5
    case Reading(_) => callbacks + 4
    case Checking(_) => callbacks + 3
    case Emitting(_, next) => if next <= callbacks then callbacks - next + 1 else 0
    case Returned => 0
    case Crashed => 0
  }

  function Rank(c: Call, callbacks: nat): nat {
    CallerRank(c.caller, callbacks) + JobRank(c.job)
  }

  /** Each forward step brings its call nearer to its end. */
  lemma StepIsNearer(s: State, c: Call, a: Step, c': Call)
    requires Forward(a) && StepCall(c, a) == Some(c')
    requires a.Fire? ==> c.caller.next < |s.callbacks|
    requires a.Release? ==> c.caller.next <= |s.callbacks|
    ensures Rank(c', |s.callbacks|) < Rank(c, |s.callbacks|)
  {
    match a {
      case JobAdvance =>
      case CallerAdvance =>
      case _ =>
    }
  }

  function TotalRank(calls: seq<Call>, callbacks: nat): nat {
    if calls == [] then 0 else Rank(calls[0], callbacks) + TotalRank(calls[1..], callbacks)
  }

  lemma {:induction false} OneNearer(calls: seq<Call>, j: nat, c: Call, callbacks: nat)
    requires j < |calls| && Rank(c, callbacks) < Rank(calls[j], callbacks)
    ensures TotalRank(calls[j := c], callbacks) < TotalRank(calls, callbacks)
    decreases |calls|
  {
    if j == 0 {
      assert calls[j := c][1..] == calls[1..];
    } else {
      assert calls[j := c][1..] == calls[1..][j - 1 := c];
      OneNearer(calls[1..], j - 1, c, callbacks);
    }
  }

  /** Only steps of calls, and none that is an error of the pool. */
  predicate WithoutPoolError(actions: seq<Action>) {
    forall k :: 0 <= k < |actions| ==> actions[k].Do? && PoolWorks(actions[k].step)
  }

  /**
   From every reachable state some run, in which the pool reports no error and drops no job, ends all calls and all jobs,
   those included that timed out before.
   */
  lemma {:induction false} EveryCallCanFinish(s: State) returns (actions: seq<Action>)
    requires Reachable(s) && s.workers > 0
    ensures WithoutPoolError(actions) && Run(s, actions).Some?
    ensures
      var s' := Run(s, actions).value;
      |s'.calls| == |s.calls| && forall i :: 0 <= i < |s'.calls| ==> Over(s'.calls[i])
    decreases TotalRank(s.calls, |s.callbacks|)
  {
    if i: nat :| i < |s.calls| && !Over(s.calls[i]) {
      var j, a := ForwardStep(s, i);
      var c, _ := DoEffect(s, j, a);
      StepIsNearer(s, s.calls[j], a, c);
      OneNearer(s.calls, j, c, |s.callbacks|);
      var s1 := ReachableNext(s, Do(j, a));
      var rest := EveryCallCanFinish(s1);
      actions := [Do(j, a)] + rest;
      assert actions[1..] == rest;
    } else {
      actions := [];
    }
  }
}
