/** The sequential specification of one call, and the invariants that every step of every interleaving keeps. */
module CallInvariants {
  import opened Wrappers
  import opened Rrpc
  import opened CallProtocol

  // ---- The sequential specification ------------------------------------------------------------------------------

  /** The response the caller side asks for, if any. */
  function CallerResponse(c: Call): Option<Response> {
    match c.verdict
    case Undecided => None
    case Refused(reject) => Some(RefusalResponse(reject))
    case Unregistered => Some(UnregisteredResponse(c.name))
    case Submitted =>
      if c.poolError.Some? then Some(ErrorResponse(STATUS_SERVER_ERROR, c.poolError.value)) else None
  }

  /** The response of a call, given who claimed it first. */
  function Outcome(c: Call, winner: Winner): Option<Response> {
    match winner
    case ByCaller => CallerResponse(c)
    case ByJob(FromHandler) => if c.replies != [] then Some(c.replies[0]) else None
    case ByJob(FromPanic) =>
      if c.replies == [] && c.ending.Panicked? then Some(PanicResponse(c.name, c.ending.detail)) else None
    case ByJob(FromFallback) =>
      if c.replies == [] && c.ending == Completed then Some(NoReplyResponse()) else None
  }

  // ---- The invariant of one call ---------------------------------------------------------------------------------

  predicate CallerInside(c: Call) { c.caller.CallerReplying? && c.caller.stage != Claim }

  predicate JobInside(c: Call) { c.job.JobReplying? && c.job.stage != Claim }

  /** The caller has left the protocol proper and runs the deferred function. */
  predicate Deferred(c: Call) {
    match c.caller
    case Limiting => false
    case Looking => false
    case Waiting => false
    case CallerReplying(_, _) => false
    case _ => true
  }

  predicate Holding(c: Call, stage: Stage, res: Response) {
    c.cell.sent == [] && c.cell.res == if stage == Store then None else Some(res)
  }

  /** The cell agrees with whoever is inside Reply, and its response is the winner's. */
  predicate CellInv(c: Call) {
    && !(CallerInside(c) && JobInside(c))
    && (!c.cell.replyed ==>
          !CallerInside(c) && !JobInside(c) && c.cell == FRESH_CELL && c.winner == None)
    && (c.cell.replyed ==>
          && c.winner.Some?
          && var r := Outcome(c, c.winner.value);
          && r.Some?
          && if CallerInside(c) then
               c.winner.value == ByCaller && c.caller.res == r.value && Holding(c, c.caller.stage, r.value)
             else if JobInside(c) then
               c.winner.value == ByJob(c.job.origin) && c.job.res == r.value && Holding(c, c.job.stage, r.value)
             else
               c.cell.res == r && c.cell.sent == [r.value])
  }

  predicate JobInv(c: Call) {
    && (c.verdict == Submitted <==> c.job != NotSubmitted)
    && (c.job.NotSubmitted? || c.job.Queued? || c.job.Dropped? ==> c.replies == [] && c.ending == Open)
    && (c.job.Handling? ==> c.ending == Open)
    && (c.job.JobReplying? ==>
          match c.job.origin
          case FromHandler => c.ending == Open && c.replies != [] && c.job.res == c.replies[|c.replies| - 1]
          case FromPanic => c.ending.Panicked? && c.job.res == PanicResponse(c.name, c.ending.detail)
          case FromFallback => c.ending == Completed && c.job.res == NoReplyResponse())
    && (c.job == Finished ==> c.ending != Open && c.cell.replyed)
    && (c.job == Dropped ==> c.poolError.Some?)
    && (!c.cell.replyed ==>
          |c.replies| == if c.job.JobReplying? && c.job.origin == FromHandler then 1 else 0)
  }

  predicate CallerInv(c: Call) {
    && (c.verdict == Undecided <==> c.caller == Limiting || c.caller == Looking)
    && (c.caller == Waiting ==> c.verdict == Submitted && c.poolError == None)
    && (c.poolError.Some? ==> c.verdict == Submitted)
    && (c.caller.CallerReplying? ==> CallerResponse(c) == Some(c.caller.res))
    && (Deferred(c) ==> c.cell.replyed && (CallerResponse(c) == None ==> c.job == Finished))
  }

  /** What the deferred function has seen and done. */
  predicate DeferInv(c: Call) {
    && (c.observed.Some? <==> c.caller.Checking? || c.caller.Emitting? || c.caller.Returned? || c.caller.Crashed?)
    && (c.observed.Some? && c.observed.value.res.Some? ==> c.cell.res == c.observed.value.res)
    && (c.caller.Crashed? ==> c.observed.value.res == None)
    && (c.caller.Emitting? || c.caller.Returned? ==> c.observed.value.res.Some?)
    && (c.caller.Emitting? ==> |c.fired| == c.caller.next)
    && (!c.caller.Emitting? && !c.caller.Returned? ==> c.fired == [])
    && (forall k :: 0 <= k < |c.fired| ==> Some(c.fired[k].event) == c.observed)
  }

  predicate CallInv(c: Call) {
    CellInv(c) && JobInv(c) && CallerInv(c) && DeferInv(c)
  }

  lemma JobClaimKeepsCallInv(c: Call)
    requires CallInv(c) && c.job.JobReplying? && c.job.stage == Claim
    ensures CallInv(JobAdvanced(c))
  {
  }

  lemma JobProgressKeepsCallInv(c: Call)
    requires CallInv(c) && c.job.JobReplying? && c.job.stage != Claim
    ensures CallInv(JobAdvanced(c))
  {
  }

  lemma CallerClaimKeepsCallInv(c: Call)
    requires CallInv(c) && c.caller.CallerReplying? && c.caller.stage == Claim
    ensures CallInv(CallerAdvanced(c))
  {
  }

  lemma CallerProgressKeepsCallInv(c: Call)
    requires CallInv(c) && c.caller.CallerReplying? && c.caller.stage != Claim
    ensures CallInv(CallerAdvanced(c))
  {
  }

  lemma ReplyStepKeepsCallInv(c: Call, a: Step)
    requires CallInv(c) && StepCall(c, a).Some?
    requires a.JobAdvance? || a.CallerAdvance?
    ensures CallInv(StepCall(c, a).value)
  {
    if a.JobAdvance? {
      if c.job.stage == Claim { JobClaimKeepsCallInv(c); } else { JobProgressKeepsCallInv(c); }
    } else {
      if c.caller.stage == Claim { CallerClaimKeepsCallInv(c); } else { CallerProgressKeepsCallInv(c); }
    }
  }

  lemma SendPanicKeepsCallInv(c: Call, detail: string)
    requires CallInv(c) && StepCall(c, JobSendPanics(detail)).Some?
    ensures CallInv(StepCall(c, JobSendPanics(detail)).value)
  {
    assert c.job.origin == FromHandler;
  }

  lemma HandlerStepKeepsCallInv(c: Call, a: Step)
    requires CallInv(c) && StepCall(c, a).Some?
    requires a.HandlerReply? || a.HandlerPanic? || a.HandlerReturn?
    ensures CallInv(StepCall(c, a).value)
  {
    var c' := StepCall(c, a).value;
    if a.HandlerReply? && c.replies != [] {
      assert c'.replies[0] == c.replies[0];
    }
  }

  lemma QueueStepKeepsCallInv(c: Call, a: Step)
    requires CallInv(c) && StepCall(c, a).Some?
    requires a.Start? || a.Abandon?
    ensures CallInv(StepCall(c, a).value)
  {
  }

  lemma CallerStepKeepsCallInv(c: Call, a: Step)
    requires CallInv(c) && StepCall(c, a).Some?
    requires a.Admit? || a.Refuse? || a.Find? || a.PoolReturns? || a.PoolFails?
    ensures CallInv(StepCall(c, a).value)
  {
  }

  lemma ReadStepKeepsCallInv(c: Call, a: Step)
    requires CallInv(c) && StepCall(c, a).Some?
    requires a.TakeEvent? || a.ReadResponse?
    ensures CallInv(StepCall(c, a).value)
  {
  }

  lemma EmitStepKeepsCallInv(c: Call, a: Step)
    requires CallInv(c) && StepCall(c, a).Some?
    requires a.Record? || a.Fire? || a.Release?
    requires a.Record? ==> c.observed.Some? && a.seen == c.observed.value.res
    requires a.Fire? ==> Some(a.event) == c.observed
    ensures CallInv(StepCall(c, a).value)
  {
  }

  lemma StepKeepsCallInv(c: Call, a: Step)
    requires CallInv(c) && StepCall(c, a).Some?
    requires a.Record? ==> c.observed.Some? && a.seen == c.observed.value.res
    requires a.Fire? ==> Some(a.event) == c.observed
    ensures CallInv(StepCall(c, a).value)
  {
    match a {
      case JobAdvance => ReplyStepKeepsCallInv(c, a);
      case CallerAdvance => ReplyStepKeepsCallInv(c, a);
      case Admit => CallerStepKeepsCallInv(c, a);
      case Refuse(_) => CallerStepKeepsCallInv(c, a);
      case Find(_) => CallerStepKeepsCallInv(c, a);
      case PoolReturns => CallerStepKeepsCallInv(c, a);
      case PoolFails(_) => CallerStepKeepsCallInv(c, a);
      case TakeEvent(_) => ReadStepKeepsCallInv(c, a);
      case ReadResponse(_) => ReadStepKeepsCallInv(c, a);
      case Record(_) => EmitStepKeepsCallInv(c, a);
      case Fire(_, _) => EmitStepKeepsCallInv(c, a);
      case Release => EmitStepKeepsCallInv(c, a);
      case Start(_) => QueueStepKeepsCallInv(c, a);
      case Abandon => QueueStepKeepsCallInv(c, a);
      case JobSendPanics(detail) => SendPanicKeepsCallInv(c, detail);
      case _ => HandlerStepKeepsCallInv(c, a);
    }
  }

  // ---- The invariant of the server -------------------------------------------------------------------------------

  ghost predicate CallsInv(s: State) {
    forall i :: 0 <= i < |s.calls| ==> CallInv(s.calls[i])
  }

  /** No worker runs two jobs. */
  ghost predicate WorkersInv(s: State) {
    && (forall i :: 0 <= i < |s.calls| && WorkerOf(s.calls[i]).Some? ==> WorkerOf(s.calls[i]).value < s.workers)
    && (forall i, j :: 0 <= i < j < |s.calls| && WorkerOf(s.calls[i]).Some? ==>
          WorkerOf(s.calls[i]) != WorkerOf(s.calls[j]))
  }

  /** An event is in the pool at most once or held by one call, and a filled one holds what its call read. */
  ghost predicate EventsInv(s: State) {
    && (forall e :: e in s.pool ==> e < |s.heap| && s.pool[e] == 1)
    && (forall i :: 0 <= i < |s.calls| && EventOf(s.calls[i]).Some? ==>
          && EventOf(s.calls[i]).value < |s.heap|
          && EventOf(s.calls[i]).value !in s.pool
          && (s.calls[i].observed.Some? ==> Some(s.heap[EventOf(s.calls[i]).value]) == s.calls[i].observed))
    && (forall i, j :: 0 <= i < j < |s.calls| && EventOf(s.calls[i]).Some? ==>
          EventOf(s.calls[i]) != EventOf(s.calls[j]))
  }

  /** The callbacks that ran are the registered ones, in order, and all of them once the call returned. */
  ghost predicate FiredInv(s: State) {
    && (forall i :: 0 <= i < |s.calls| ==> |s.calls[i].fired| <= |s.callbacks|)
    && (forall i, k :: 0 <= i < |s.calls| && 0 <= k < |s.calls[i].fired| ==>
          s.calls[i].fired[k].callback == s.callbacks[k])
    && (forall i :: 0 <= i < |s.calls| && s.calls[i].caller == Returned ==> |s.calls[i].fired| == |s.callbacks|)
  }

  ghost predicate Inv(s: State) {
    CallsInv(s) && WorkersInv(s) && EventsInv(s) && FiredInv(s)
  }

  /** What a step does to the worker and the event of its call. */
  lemma StepResources(c: Call, a: Step)
    requires StepCall(c, a).Some?
    ensures
      var c' := StepCall(c, a).value;
      && (if a.Start? then WorkerOf(c) == None && WorkerOf(c') == Some(a.worker)
          else WorkerOf(c') == None || WorkerOf(c') == WorkerOf(c))
      && (if a.TakeEvent? then EventOf(c) == None && EventOf(c') == Some(a.evt) && c'.observed == c.observed
          else if a.ReadResponse? then
            EventOf(c).Some? && EventOf(c') == EventOf(c) && c'.observed == Some(Event(a.duration, c.cell.res))
          else if a.Release? then EventOf(c).Some? && EventOf(c') == None
          else (EventOf(c') == None || EventOf(c') == EventOf(c)) && c'.observed == c.observed)
  {
    match a {
      case JobAdvance =>
      case CallerAdvance =>
      case _ =>
    }
  }

  lemma StepFired(c: Call, a: Step)
    requires StepCall(c, a).Some?
    ensures
      var c' := StepCall(c, a).value;
      && c'.fired == (if a.Fire? then c.fired + [Firing(a.callback, a.event)] else c.fired)
      && (c'.caller == Returned ==> a.Release? || c.caller == Returned)
  {
    match a {
      case JobAdvance =>
      case CallerAdvance =>
      case _ =>
    }
  }

  /** How the server changes under one step, with everything but the call itself spelled out. */
  lemma DoEffect(s: State, i: nat, a: Step) returns (c': Call, s': State)
    requires Next(s, Do(i, a)).Some?
    ensures i < |s.calls| && Permitted(s, i, a)
    ensures StepCall(s.calls[i], a) == Some(c') && Next(s, Do(i, a)) == Some(s')
    ensures s' == s.(calls := s.calls[i := c'], heap := HeapAfter(s, s.calls[i], a), pool := PoolAfter(s, s.calls[i], a))
  {
    c' := StepCall(s.calls[i], a).value;
    s' := Next(s, Do(i, a)).value;
  }

  lemma DoKeepsCalls(s: State, i: nat, a: Step)
    requires Inv(s) && Next(s, Do(i, a)).Some?
    ensures CallsInv(Next(s, Do(i, a)).value)
  {
    StepKeepsCallInv(s.calls[i], a);
  }

  lemma WorkersKept(s: State, s': State, i: nat, started: Option<nat>)
    requires WorkersInv(s) && i < |s.calls| == |s'.calls| && s'.workers == s.workers
    requires forall j :: 0 <= j < |s.calls| && j != i ==> s'.calls[j] == s.calls[j]
    requires WorkerOf(s'.calls[i]) == None || WorkerOf(s'.calls[i]) == WorkerOf(s.calls[i])
      || WorkerOf(s'.calls[i]) == started
    requires started.Some? ==>
      started.value < s.workers && forall j :: 0 <= j < |s.calls| ==> WorkerOf(s.calls[j]) != started
    ensures WorkersInv(s')
  {
  }

  lemma DoKeepsWorkers(s: State, i: nat, a: Step)
    requires Inv(s) && Next(s, Do(i, a)).Some?
    ensures WorkersInv(Next(s, Do(i, a)).value)
  {
    var c', s' := DoEffect(s, i, a);
    StepResources(s.calls[i], a);
    WorkersKept(s, s', i, if a.Start? then Some(a.worker) else None);
  }

  lemma EventsKept(s: State, s': State, i: nat)
    requires EventsInv(s) && i < |s.calls| == |s'.calls| && |s.heap| <= |s'.heap|
    requires forall j :: 0 <= j < |s.calls| && j != i ==> s'.calls[j] == s.calls[j]
    requires forall e :: e in s'.pool ==>
      e < |s'.heap| && s'.pool[e] == 1 && (e in s.pool || EventOf(s.calls[i]) == Some(e))
    requires forall e :: 0 <= e < |s.heap| && EventOf(s.calls[i]) != Some(e) ==> s'.heap[e] == s.heap[e]
    requires var mine := EventOf(s'.calls[i]);
      mine.Some? ==>
        && mine.value < |s'.heap| && mine.value !in s'.pool
        && (s'.calls[i].observed.Some? ==> Some(s'.heap[mine.value]) == s'.calls[i].observed)
        && (mine == EventOf(s.calls[i]) || mine.value in s.pool || |s.heap| <= mine.value)
    ensures EventsInv(s')
  {
  }

  /** A call takes an event that is pooled or new. */
  lemma TakeKeepsEvents(s: State, i: nat, evt: nat)
    requires Inv(s) && Next(s, Do(i, TakeEvent(evt))).Some?
    ensures EventsInv(Next(s, Do(i, TakeEvent(evt))).value)
  {
    var c', s' := DoEffect(s, i, TakeEvent(evt));
    assert CallInv(s.calls[i]);
    assert c'.observed == None;
    EventsKept(s, s', i);
  }

  /** A call fills the event it holds. */
  lemma ReadKeepsEvents(s: State, i: nat, duration: int)
    requires Inv(s) && Next(s, Do(i, ReadResponse(duration))).Some?
    ensures EventsInv(Next(s, Do(i, ReadResponse(duration))).value)
  {
    var c', s' := DoEffect(s, i, ReadResponse(duration));
    EventsKept(s, s', i);
  }

  /** A call puts its event back. */
  lemma ReleaseKeepsEvents(s: State, i: nat)
    requires Inv(s) && Next(s, Do(i, Release)).Some?
    ensures EventsInv(Next(s, Do(i, Release)).value)
  {
    var c', s' := DoEffect(s, i, Release);
    EventsKept(s, s', i);
  }

  /** Every other step leaves the events alone. */
  lemma OtherStepKeepsEvents(s: State, i: nat, a: Step)
    requires Inv(s) && Next(s, Do(i, a)).Some?
    requires !a.TakeEvent? && !a.ReadResponse? && !a.Release?
    ensures EventsInv(Next(s, Do(i, a)).value)
  {
    var c', s' := DoEffect(s, i, a);
    StepResources(s.calls[i], a);
    EventsKept(s, s', i);
  }

  lemma DoKeepsEvents(s: State, i: nat, a: Step)
    requires Inv(s) && Next(s, Do(i, a)).Some?
    ensures EventsInv(Next(s, Do(i, a)).value)
  {
    match a {
      case TakeEvent(evt) => TakeKeepsEvents(s, i, evt);
      case ReadResponse(duration) => ReadKeepsEvents(s, i, duration);
      case Release => ReleaseKeepsEvents(s, i);
      case _ => OtherStepKeepsEvents(s, i, a);
    }
  }

  lemma DoKeepsFired(s: State, i: nat, a: Step)
    requires Inv(s) && Next(s, Do(i, a)).Some?
    ensures FiredInv(Next(s, Do(i, a)).value)
  {
    var c', s' := DoEffect(s, i, a);
    assert CallInv(s.calls[i]);
    StepFired(s.calls[i], a);
  }

  /** A call that holds nothing and has fired nothing. */
  predicate Bare(c: Call) {
    WorkerOf(c) == None && EventOf(c) == None && c.fired == [] && c.caller != Returned
  }

  lemma BareKeepsWorkers(s: State, s': State, c: Call)
    requires WorkersInv(s) && Bare(c) && s'.calls == s.calls + [c] && s'.workers == s.workers
    ensures WorkersInv(s')
  {
  }

  lemma BareKeepsEvents(s: State, s': State, c: Call)
    requires EventsInv(s) && Bare(c) && s'.calls == s.calls + [c] && s'.heap == s.heap && s'.pool == s.pool
    ensures EventsInv(s')
  {
  }

  lemma BareKeepsFired(s: State, s': State, c: Call)
    requires FiredInv(s) && Bare(c) && s'.calls == s.calls + [c] && s'.callbacks == s.callbacks
    ensures FiredInv(s')
  {
  }

  lemma ArriveKeepsInv(s: State, name: string)
    requires Inv(s)
    ensures Inv(Next(s, Arrive(name)).value)
  {
    var s' := Next(s, Arrive(name)).value;
    var c := NewCall(name);
    BareKeepsWorkers(s, s', c);
    BareKeepsEvents(s, s', c);
    BareKeepsFired(s, s', c);
    assert CallInv(c);
  }

  lemma EnvironmentKeepsInv(s: State, a: Action)
    requires Inv(s) && !a.Do? && !a.Arrive? && Next(s, a).Some?
    ensures Inv(Next(s, a).value)
  {
    var s' := Next(s, a).value;
    assert s'.calls == s.calls && s'.workers == s.workers && s'.heap == s.heap;
    assert forall e :: e in s'.pool ==> e in s.pool && s'.pool[e] <= s.pool[e];
  }

  lemma NextKeepsInv(s: State, a: Action)
    requires Inv(s) && Next(s, a).Some?
    ensures Inv(Next(s, a).value)
  {
    match a {
      case Do(i, step) =>
        DoKeepsCalls(s, i, step);
        DoKeepsWorkers(s, i, step);
        DoKeepsEvents(s, i, step);
        DoKeepsFired(s, i, step);
      case Arrive(name) =>
        ArriveKeepsInv(s, name);
      case _ =>
        EnvironmentKeepsInv(s, a);
    }
  }

  lemma {:induction false} RunKeepsInv(s: State, actions: seq<Action>)
    requires Inv(s) && Run(s, actions).Some?
    ensures Inv(Run(s, actions).value)
    decreases |actions|
  {
    if actions != [] {
      NextKeepsInv(s, actions[0]);
      RunKeepsInv(Next(s, actions[0]).value, actions[1..]);
    }
  }

  lemma ReachableInv(s: State)
    requires Reachable(s)
    ensures Inv(s)
  {
    var actions: seq<Action> :| Run(Init(s.workers, s.reject), actions) == Some(s);
    RunKeepsInv(Init(s.workers, s.reject), actions);
  }
}
