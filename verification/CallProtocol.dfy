/**
 The concurrent protocol of Server.Call.  A server runs any number of calls; each call has a caller (the
 goroutine inside Call) and a job (the function handed to the worker pool), and both race on one request
 context.  The compare-and-swap, the store of the response and the invocation of the child context are separate
 steps, so any interleaving of any calls is a sequence of actions.
 */
module CallProtocol {
  import opened Wrappers
  import opened Rrpc

  /** The three atomic steps of RequestContext.Reply. */
  datatype Stage = Claim | Store | Send

  /** The fields of a RequestContext, and the responses its child context was asked to send. */
  datatype Cell = Cell(replyed: bool, res: Option<Response>, sent: seq<Response>)

  const FRESH_CELL := Cell(false, None, [])

  /** One atomic step of Reply(res): the cell afterwards, and the next stage or None once Reply has returned. */
  function Advance(cell: Cell, res: Response, stage: Stage): (Cell, Option<Stage>) {
    match stage
    case Claim => if cell.replyed then (cell, None) else (cell.(replyed := true), Some(Store))
    case Store => (cell.(res := Some(res)), Some(Send))
    case Send => (cell.(sent := cell.sent + [res]), None)
  }

  /** Why the job is inside Reply: the handler asked, the recovery of a panic, or the fallback after the handler. */
  datatype Origin = FromHandler | FromPanic | FromFallback

  /** Who won the compare-and-swap. */
  datatype Winner = ByCaller | ByJob(origin: Origin)

  datatype Caller =
    | Limiting
    | Looking
    | Waiting
    | CallerReplying(res: Response, stage: Stage)
    | Acquiring
    | Reading(evt: nat)
    | Checking(evt: nat)
    | Emitting(evt: nat, next: nat)
    | Returned
    | Crashed

  datatype Job =
    | NotSubmitted
    | Queued
    | Handling(worker: nat)
    | JobReplying(worker: nat, res: Response, stage: Stage, origin: Origin)
    | Finished
    | Dropped

  /** What happened before the worker pool. */
  datatype Verdict = Undecided | Refused(reject: bool) | Unregistered | Submitted

  /** How the handler ended. */
  datatype Ending = Open | Completed | Panicked(detail: string)

  /** An AfterResponseEvent; its response is None while the pointer is nil. */
  datatype Event = Event(duration: int, res: Option<Response>)

  /** A callback that ran, and the event it saw. */
  datatype Firing = Firing(callback: nat, event: Event)

  /**
   A call.  The fields from verdict on are history: what the limiter and the lookup decided, every reply the handler
   asked for in order, how the handler ended, the error the pool returned, who won the compare-and-swap, what the
   deferred read saw, and the callbacks run.
   */
  datatype Call = Call(
    name: string,
    caller: Caller,
    job: Job,
    cell: Cell,
    verdict: Verdict,
    replies: seq<Response>,
    ending: Ending,
    poolError: Option<string>,
    winner: Option<Winner>,
    observed: Option<Event>,
    fired: seq<Firing>)

  function NewCall(name: string): Call {
    Call(name, Limiting, NotSubmitted, FRESH_CELL, Undecided, [], Open, None, None, None, [])
  }

  /** The steps of one call. */
  datatype Step =
    | Admit
    | Refuse(reject: bool)
    | Find(registered: bool)
    | Start(worker: nat)
    | HandlerReply(res: Response)
    | HandlerPanic(detail: string)
    | HandlerReturn
    | JobAdvance
    | JobSendPanics(detail: string)
    | PoolReturns
    | PoolFails(text: string)
    | Abandon
    | CallerAdvance
    | TakeEvent(evt: nat)
    | ReadResponse(duration: int)
    | Record(seen: Option<Response>)
    | Fire(callback: nat, event: Event)
    | Release

  /** Where the job goes once Reply has returned to it. */
  function AfterReply(worker: nat, origin: Origin): Job {
    if origin == FromHandler then Handling(worker) else Finished
  }

  function WinnerAfter(c: Call, stage: Stage, who: Winner): Option<Winner> {
    if stage == Claim && !c.cell.replyed then Some(who) else c.winner
  }

  function JobAdvanced(c: Call): Call
    requires c.job.JobReplying?
  {
    var (cell, next) := Advance(c.cell, c.job.res, c.job.stage);
    c.(cell := cell,
       winner := WinnerAfter(c, c.job.stage, ByJob(c.job.origin)),
       job := if next.Some? then c.job.(stage := next.value) else AfterReply(c.job.worker, c.job.origin))
  }

  function CallerAdvanced(c: Call): Call
    requires c.caller.CallerReplying?
  {
    var (cell, next) := Advance(c.cell, c.caller.res, c.caller.stage);
    c.(cell := cell,
       winner := WinnerAfter(c, c.caller.stage, ByCaller),
       caller := if next.Some? then c.caller.(stage := next.value) else Acquiring)
  }

  /** One step of one call, or None where the call cannot take it. */
  function StepCall(c: Call, a: Step): Option<Call> {
    match a
    case Admit =>
      if c.caller != Limiting then None
      else Some(c.(caller := Looking))
    case Refuse(reject) =>
      if c.caller != Limiting then None
      else Some(c.(caller := CallerReplying(RefusalResponse(reject), Claim), verdict := Refused(reject)))
    case Find(registered) =>
      if c.caller != Looking then None
      else if registered then Some(c.(caller := Waiting, job := Queued, verdict := Submitted))
      else Some(c.(caller := CallerReplying(UnregisteredResponse(c.name), Claim), verdict := Unregistered))
    case Start(worker) =>
      if c.job != Queued then None
      else Some(c.(job := Handling(worker)))
    case HandlerReply(res) =>
      if !c.job.Handling? then None
      else Some(c.(job := JobReplying(c.job.worker, res, Claim, FromHandler), replies := c.replies + [res]))
    case HandlerPanic(detail) =>
      if !c.job.Handling? then None
      else Some(c.(job := JobReplying(c.job.worker, PanicResponse(c.name, detail), Claim, FromPanic),
                   ending := Panicked(detail)))
    case HandlerReturn =>
      if !c.job.Handling? then None
      else Some(c.(job := JobReplying(c.job.worker, NoReplyResponse(), Claim, FromFallback), ending := Completed))
    case JobAdvance =>
      if !c.job.JobReplying? then None else Some(JobAdvanced(c))
    case JobSendPanics(detail) =>
      // Only a response without an error is built from a message that may fail to encode.
      if !(c.job.JobReplying? && c.job.stage == Send && c.job.res.error.None?) then None
      else Some(c.(cell := c.cell.(sent := c.cell.sent + [c.job.res]),
                   job := JobReplying(c.job.worker, PanicResponse(c.name, detail), Claim, FromPanic),
                   ending := Panicked(detail)))
    case PoolReturns =>
      if !(c.caller == Waiting && c.job == Finished) then None
      else Some(c.(caller := Acquiring))
    case PoolFails(text) =>
      if c.caller != Waiting then None
      else Some(c.(caller := CallerReplying(ErrorResponse(STATUS_SERVER_ERROR, text), Claim), poolError := Some(text)))
    case Abandon =>
      if !(c.job == Queued && c.poolError.Some?) then None
      else Some(c.(job := Dropped))
    case CallerAdvance =>
      if !c.caller.CallerReplying? then None else Some(CallerAdvanced(c))
    case TakeEvent(evt) =>
      if c.caller != Acquiring then None
      else Some(c.(caller := Reading(evt)))
    case ReadResponse(duration) =>
      if !c.caller.Reading? then None
      else Some(c.(caller := Checking(c.caller.evt), observed := Some(Event(duration, c.cell.res))))
    case Record(seen) =>
      if !c.caller.Checking? then None
      else Some(c.(caller := if seen.None? then Crashed else Emitting(c.caller.evt, 0)))
    case Fire(callback, event) =>
      if !c.caller.Emitting? then None
      else Some(c.(caller := Emitting(c.caller.evt, c.caller.next + 1), fired := c.fired + [Firing(callback, event)]))
    case Release =>
      if !c.caller.Emitting? then None
      else Some(c.(caller := Returned))
  }

  /** A server: its options, its registrations, its calls, and the heap and pool of its events. */
  datatype State = State(
    workers: nat,
    reject: bool,
    handlers: set<string>,
    callbacks: seq<nat>,
    calls: seq<Call>,
    heap: seq<Event>,
    pool: multiset<nat>)

  function Init(workers: nat, reject: bool): State {
    State(workers, reject, {}, [], [], [], multiset{})
  }

  datatype Action =
    | Register(name: string)
    | AddCallback(callback: nat)
    | Arrive(name: string)
    | Evict(evt: nat)
    | Do(call: nat, step: Step)

  function WorkerOf(c: Call): Option<nat> {
    match c.job
    case Handling(w) => Some(w)
    case JobReplying(w, _, _, _) => Some(w)
    case _ => None
  }

  function EventOf(c: Call): Option<nat> {
    match c.caller
    case Reading(e) => Some(e)
    case Checking(e) => Some(e)
    case Emitting(e, _) => Some(e)
    case _ => None
  }

  /** Whether the server as a whole lets call i take the step: a free worker, an event that is pooled or new. */
  predicate Permitted(s: State, i: nat, a: Step)
    requires i < |s.calls|
  {
    var c := s.calls[i];
    match a
    case Refuse(reject) => reject == s.reject
    case Find(registered) => registered == (c.name in s.handlers)
    case Start(w) => w < s.workers && forall j :: 0 <= j < |s.calls| ==> WorkerOf(s.calls[j]) != Some(w)
    case TakeEvent(e) => e in s.pool || e == |s.heap|
    case ReadResponse(_) => EventOf(c).Some? && EventOf(c).value < |s.heap|
    case Record(seen) => EventOf(c).Some? && EventOf(c).value < |s.heap| && s.heap[EventOf(c).value].res == seen
    case Fire(callback, event) =>
      && c.caller.Emitting? && c.caller.next < |s.callbacks| && callback == s.callbacks[c.caller.next]
      && c.caller.evt < |s.heap| && s.heap[c.caller.evt] == event
    case Release => c.caller.Emitting? && c.caller.next == |s.callbacks|
    case _ => true
  }

  function HeapAfter(s: State, c: Call, a: Step): seq<Event> {
    match a
    case TakeEvent(e) => if e == |s.heap| then s.heap + [Event(0, None)] else s.heap
    case ReadResponse(d) =>
      if EventOf(c).Some? && EventOf(c).value < |s.heap| then s.heap[EventOf(c).value := Event(d, c.cell.res)]
      else s.heap
    case _ => s.heap
  }

  function PoolAfter(s: State, c: Call, a: Step): multiset<nat> {
    match a
    case TakeEvent(e) => s.pool - multiset{e}
    case Release => if EventOf(c).Some? then s.pool + multiset{EventOf(c).value} else s.pool
    case _ => s.pool
  }

  /** One action of the server, or None where it is not possible. */
  function Next(s: State, a: Action): Option<State> {
    match a
    case Register(name) => Some(s.(handlers := s.handlers + {name}))
    case AddCallback(cb) => if s.calls == [] then Some(s.(callbacks := s.callbacks + [cb])) else None
    case Arrive(name) => Some(s.(calls := s.calls + [NewCall(name)]))
    case Evict(e) => if e in s.pool then Some(s.(pool := s.pool - multiset{e})) else None
    case Do(i, step) =>
      if i < |s.calls| && Permitted(s, i, step) then
        match StepCall(s.calls[i], step)
        case None => None
        case Some(c) =>
          Some(s.(calls := s.calls[i := c],
                  heap := HeapAfter(s, s.calls[i], step),
                  pool := PoolAfter(s, s.calls[i], step)))
      else None
  }

  /** A whole run. */
  function Run(s: State, actions: seq<Action>): Option<State>
    decreases |actions|
  {
    if actions == [] then Some(s)
    else match Next(s, actions[0])
      case None => None
      case Some(s') => Run(s', actions[1..])
  }

  /** The states of a server with the given options that some interleaving reaches. */
  ghost predicate Reachable(s: State) {
    exists actions: seq<Action> :: Run(Init(s.workers, s.reject), actions) == Some(s)
  }
}
