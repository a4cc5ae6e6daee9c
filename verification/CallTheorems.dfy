/** What holds of every reachable state of the server, and the runs that show where the code's limits lie. */
module CallTheorems {
  import opened Wrappers
  import opened Rrpc
  import opened CallProtocol
  import opened CallInvariants

  // ---- One reply per context -------------------------------------------------------------------------------------

  /** The job has ended, or never will run. */
  predicate JobOver(c: Call) { c.job.NotSubmitted? || c.job.Finished? || c.job.Dropped? }

  predicate CallOver(c: Call) { c.caller.Returned? || c.caller.Crashed? }

  lemma RepliesAtMostOnce(s: State, i: nat)
    requires Reachable(s) && i < |s.calls|
    ensures |s.calls[i].cell.sent| <= 1
  {
    ReachableInv(s);
    assert CallInv(s.calls[i]);
  }

  lemma RepliesExactlyOnce(s: State, i: nat)
    requires Reachable(s) && i < |s.calls|
    requires CallOver(s.calls[i]) && JobOver(s.calls[i])
    ensures |s.calls[i].cell.sent| == 1
  {
    ReachableInv(s);
    assert CallInv(s.calls[i]);
  }

  // ---- Which reply -----------------------------------------------------------------------------------------------

  /** What the environment decides about a call, with no reference to the order of its steps. */
  datatype Script = Script(
    admitted: bool,
    registered: bool,
    replies: seq<Response>,
    ending: Ending,
    poolError: Option<string>)

  /** The response of a sequential execution of Call: callerFirst says whether the pool's error came before the job. */
  function Sequential(reject: bool, name: string, script: Script, callerFirst: bool): Response {
    if !script.admitted then RefusalResponse(reject)
    else if !script.registered then UnregisteredResponse(name)
    else if callerFirst && script.poolError.Some? then ErrorResponse(STATUS_SERVER_ERROR, script.poolError.value)
    else if script.replies != [] then script.replies[0]
    else if script.ending.Panicked? then PanicResponse(name, script.ending.detail)
    else NoReplyResponse()
  }

  function ScriptOf(c: Call): Script {
    Script(!c.verdict.Refused?, !c.verdict.Unregistered?, c.replies, c.ending, c.poolError)
  }

  /** The one response sent is that of a sequential execution, whatever the interleaving was. */
  lemma SentIsSequential(s: State, i: nat)
    requires Reachable(s) && i < |s.calls| && s.calls[i].cell.sent != []
    ensures
      var c := s.calls[i];
      && c.winner.Some?
      && (c.winner == Some(ByCaller) ==> c.verdict != Submitted || c.poolError.Some?)
      && c.cell.sent == [Sequential(s.reject, c.name, ScriptOf(c), c.winner == Some(ByCaller))]
  {
    ReachableInv(s);
    assert CallInv(s.calls[i]);
    if s.calls[i].verdict.Refused? {
      RefusalMode(s, i);
    }
  }

  /** The status and the text of what is sent, for each way a call can go. */
  lemma SentStatusAndText(s: State, i: nat)
    requires Reachable(s) && i < |s.calls| && s.calls[i].cell.sent != []
    ensures
      var c := s.calls[i];
      var r := c.cell.sent[0];
      && (c.verdict.Refused? && s.reject ==>
            r.status == 429 && r.error == Some("[RRPC] too frequently, try again later"))
      && (c.verdict.Refused? && !s.reject ==> r.status == 408 && r.error == Some("[RRPC] timeout"))
      && (c.verdict.Unregistered? ==> r.status == 500 && r.error == Some("Unhandled method: " + c.name))
      && (c.winner == Some(ByCaller) && c.verdict.Submitted? ==> r.status == 500 && r.error == c.poolError)
      && (c.winner == Some(ByJob(FromHandler)) ==> c.replies != [] && r == c.replies[0])
      && (c.winner == Some(ByJob(FromPanic)) ==>
            c.ending.Panicked? && r.status == 500
            && r.error == Some("panic in method " + c.name + " " + c.ending.detail))
      && (c.winner == Some(ByJob(FromFallback)) ==> r.status == 500 && r.error == Some("[RRPC] empty reply"))
  {
    ReachableInv(s);
    assert CallInv(s.calls[i]);
    SentIsSequential(s, i);
  }

  /** The fallback wins only over a handler that returned without a reply, and then the caller never wins. */
  lemma NoReplyOnlyWithoutReplies(s: State, i: nat)
    requires Reachable(s) && i < |s.calls| && s.calls[i].winner == Some(ByJob(FromFallback))
    ensures
      var c := s.calls[i];
      && c.replies == [] && c.ending == Completed && c.verdict == Submitted
      && (c.cell.sent != [] ==> c.cell.sent == [NoReplyResponse()])
      && (JobOver(c) ==> c.cell.sent == [NoReplyResponse()])
  {
    ReachableInv(s);
    assert CallInv(s.calls[i]);
  }

  /** A refusal is recorded with the mode of the server. */
  predicate ModeInv(s: State) {
    forall i :: 0 <= i < |s.calls| && s.calls[i].verdict.Refused? ==> s.calls[i].verdict.reject == s.reject
  }

  lemma StepVerdict(c: Call, a: Step)
    requires StepCall(c, a).Some?
    ensures
      var v := StepCall(c, a).value.verdict;
      v.Refused? ==> if a.Refuse? then v.reject == a.reject else v == c.verdict
  {
    match a {
      case JobAdvance =>
      case CallerAdvance =>
      case _ =>
    }
  }

  lemma {:induction false} RunKeepsMode(s: State, actions: seq<Action>)
    requires ModeInv(s) && Run(s, actions).Some?
    ensures ModeInv(Run(s, actions).value)
    decreases |actions|
  {
    if actions != [] {
      if actions[0].Do? {
        StepVerdict(s.calls[actions[0].call], actions[0].step);
      }
      RunKeepsMode(Next(s, actions[0]).value, actions[1..]);
    }
  }

  lemma RefusalMode(s: State, i: nat)
    requires Reachable(s) && i < |s.calls| && s.calls[i].verdict.Refused?
    ensures s.calls[i].verdict.reject == s.reject
  {
    var actions: seq<Action> :| Run(Init(s.workers, s.reject), actions) == Some(s);
    RunKeepsMode(Init(s.workers, s.reject), actions);
  }

  // ---- The window in which the deferred read sees nil ------------------------------------------------------------

  /**
   A call about to run GetResponse reads nil exactly when its job has won the compare-and-swap and has not stored
   its response; the pool has then returned an error.  Otherwise it reads the winner's response.
   */
  lemma ExactWindow(s: State, i: nat)
    requires Reachable(s) && i < |s.calls| && s.calls[i].caller.Reading?
    ensures
      var c := s.calls[i];
      && c.winner.Some? && Outcome(c, c.winner.value).Some?
      && (c.cell.res == None <==> c.job.JobReplying? && c.job.stage == Store)
      && (c.cell.res == None ==> c.poolError.Some? && c.winner == Some(ByJob(c.job.origin)))
      && (c.cell.res != None ==> c.cell.res == Outcome(c, c.winner.value))
  {
    ReachableInv(s);
    assert CallInv(s.calls[i]);
  }

  /** The dereference that follows fails exactly when that read saw nil; a call without a pool error never crashes. */
  lemma CrashesExactlyInTheWindow(s: State, i: nat)
    requires Reachable(s) && i < |s.calls|
    ensures
      var c := s.calls[i];
      && (CallOver(c) ==> c.observed.Some? && (c.caller.Crashed? <==> c.observed.value.res == None))
      && (c.caller.Crashed? ==> c.verdict == Submitted && c.poolError.Some? && c.winner.Some? && c.winner.value.ByJob?)
  {
    ReachableInv(s);
    assert CallInv(s.calls[i]);
    if s.calls[i].caller.Crashed? {
      CrashOrigin(s, i);
    }
  }

  /** A nil read was made after a pool error, while the job held the claim. */
  predicate NilReadInv(s: State) {
    forall i :: 0 <= i < |s.calls| && s.calls[i].observed.Some? && s.calls[i].observed.value.res == None ==>
      s.calls[i].poolError.Some? && s.calls[i].winner.Some? && s.calls[i].winner.value.ByJob?
  }

  lemma StepNilRead(c: Call, a: Step)
    requires CallInv(c) && StepCall(c, a).Some?
    ensures
      var c' := StepCall(c, a).value;
      && (c.poolError.Some? ==> c'.poolError == c.poolError)
      && (c.winner.Some? ==> c'.winner == c.winner)
      && (a.ReadResponse? && c'.observed.value.res == None ==>
            c'.poolError.Some? && c'.winner.Some? && c'.winner.value.ByJob?)
      && (!a.ReadResponse? ==> c'.observed == c.observed)
  {
    match a {
      case JobAdvance =>
      case CallerAdvance =>
      case _ =>
    }
  }

  lemma NextKeepsNilRead(s: State, a: Action, s': State)
    requires Inv(s) && NilReadInv(s) && Next(s, a) == Some(s')
    ensures NilReadInv(s')
  {
    if a.Do? {
      var c, _ := DoEffect(s, a.call, a.step);
      assert CallInv(s.calls[a.call]);
      StepNilRead(s.calls[a.call], a.step);
    }
  }

  lemma {:induction false} RunKeepsNilRead(s: State, actions: seq<Action>)
    requires Inv(s) && NilReadInv(s) && Run(s, actions).Some?
    ensures NilReadInv(Run(s, actions).value)
    decreases |actions|
  {
    if actions != [] {
      NextKeepsNilRead(s, actions[0], Next(s, actions[0]).value);
      NextKeepsInv(s, actions[0]);
      RunKeepsNilRead(Next(s, actions[0]).value, actions[1..]);
    }
  }

  lemma CrashOrigin(s: State, i: nat)
    requires Reachable(s) && i < |s.calls| && s.calls[i].caller.Crashed?
    ensures s.calls[i].poolError.Some? && s.calls[i].winner.Some? && s.calls[i].winner.value.ByJob?
  {
    var actions: seq<Action> :| Run(Init(s.workers, s.reject), actions) == Some(s);
    RunKeepsNilRead(Init(s.workers, s.reject), actions);
    ReachableInv(s);
    assert CallInv(s.calls[i]);
  }

  // ---- No call is stuck ------------------------------------------------------------------------------------------

  /** The step that a call's goroutine takes next; where it has a choice, one that needs nobody else. */
  function CallerStep(s: State, c: Call): Step
    requires !CallOver(c) && (EventOf(c).Some? ==> EventOf(c).value < |s.heap|)
  {
    match c.caller
    case Limiting => Admit
    case Looking => Find(c.name in s.handlers)
    case Waiting => PoolFails("")
    case CallerReplying(_, _) => CallerAdvance
    case Acquiring => TakeEvent(|s.heap|)
    case Reading(_) => ReadResponse(0)
    case Checking(e) => Record(s.heap[e].res)
    case Emitting(e, k) => if k < |s.callbacks| then Fire(s.callbacks[k], s.heap[e]) else Release
  }

  lemma CallerStepIsPossible(s: State, i: nat)
    requires i < |s.calls| && !CallOver(s.calls[i])
    requires EventOf(s.calls[i]).Some? ==> EventOf(s.calls[i]).value < |s.heap|
    requires s.calls[i].caller.Emitting? ==> s.calls[i].caller.next <= |s.callbacks|
    ensures Next(s, Do(i, CallerStep(s, s.calls[i]))).Some?
  {
    var a := CallerStep(s, s.calls[i]);
    assert StepCall(s.calls[i], a).Some?;
    assert Permitted(s, i, a);
  }

  /** Until Call has returned, its goroutine has a step of its own, whatever every other call does. */
  lemma CallerCanProceed(s: State, i: nat) returns (a: Step)
    requires Reachable(s) && i < |s.calls| && !CallOver(s.calls[i])
    ensures Next(s, Do(i, a)).Some?
    ensures !a.Start? && !a.Abandon? && !a.JobAdvance? && !a.JobSendPanics?
    ensures !a.HandlerReply? && !a.HandlerPanic? && !a.HandlerReturn?
  {
    ReachableInv(s);
    assert CallInv(s.calls[i]);
    CallerStepIsPossible(s, i);
    a := CallerStep(s, s.calls[i]);
  }

  // ---- Exhibited runs --------------------------------------------------------------------------------------------

  lemma {:induction false} RunAppend(s: State, actions: seq<Action>, a: Action)
    requires Run(s, actions).Some?
    ensures Run(s, actions + [a]) == Next(Run(s, actions).value, a)
    decreases |actions|
  {
    if actions == [] {
      assert [a][1..] == [];
    } else {
      assert (actions + [a])[1..] == actions[1..] + [a];
      RunAppend(Next(s, actions[0]).value, actions[1..], a);
    }
  }

  lemma ReachableNext(s: State, a: Action) returns (s': State)
    requires Reachable(s) && Next(s, a).Some?
    ensures Next(s, a) == Some(s') && Reachable(s')
  {
    var actions: seq<Action> :| Run(Init(s.workers, s.reject), actions) == Some(s);
    RunAppend(Init(s.workers, s.reject), actions, a);
    s' := Next(s, a).value;
  }

  lemma InitReachable(workers: nat, reject: bool)
    ensures Reachable(Init(workers, reject))
  {
    assert Run(Init(workers, reject), []) == Some(Init(workers, reject));
  }

  /** One step of the only call of a server. */
  lemma OnlyCallSteps(s: State, a: Step, c': Call) returns (s': State)
    requires Reachable(s) && |s.calls| == 1 && Permitted(s, 0, a) && StepCall(s.calls[0], a) == Some(c')
    ensures Reachable(s')
    ensures s' == s.(calls := [c'], heap := HeapAfter(s, s.calls[0], a), pool := PoolAfter(s, s.calls[0], a))
  {
    s' := ReachableNext(s, Do(0, a));
    assert s.calls[0 := c'] == [c'];
  }

  /** A server with one registered method, one call of it, and its job on a worker. */
  lemma JobStarted(workers: nat, reject: bool, name: string) returns (s: State, c: Call)
    requires workers > 0
    ensures Reachable(s) && c == NewCall(name).(caller := Waiting, job := Handling(0), verdict := Submitted)
    ensures s == State(workers, reject, {name}, [], [c], [], multiset{})
  {
    InitReachable(workers, reject);
    s := ReachableNext(Init(workers, reject), Register(name));
    c := NewCall(name);
    s := ReachableNext(s, Arrive(name));
    assert s.calls == [c];
    c := c.(caller := Looking);
    s := OnlyCallSteps(s, Admit, c);
    c := c.(caller := Waiting, job := Queued, verdict := Submitted);
    s := OnlyCallSteps(s, Find(true), c);
    c := c.(job := Handling(0));
    s := OnlyCallSteps(s, Start(0), c);
  }

  /** The handler has asked for a reply, and nobody has won the compare-and-swap. */
  lemma HandlerAsks(workers: nat, reject: bool, name: string, res: Response) returns (s: State, c: Call)
    requires workers > 0
    ensures Reachable(s)
    ensures c == NewCall(name).(caller := Waiting, job := JobReplying(0, res, Claim, FromHandler),
                                verdict := Submitted, replies := [res])
    ensures s == State(workers, reject, {name}, [], [c], [], multiset{})
  {
    s, c := JobStarted(workers, reject, name);
    c := c.(job := JobReplying(0, res, Claim, FromHandler), replies := [res]);
    assert [] + [res] == [res];
    s := OnlyCallSteps(s, HandlerReply(res), c);
  }

  /** The job has won, the pool has timed out, and the caller's own reply was refused. */
  lemma TimedOutInTheWindow(workers: nat, reject: bool, name: string, res: Response, text: string)
    returns (s: State, c: Call)
    requires workers > 0
    ensures Reachable(s) && s.calls == [c] && s.heap == [] && s.pool == multiset{}
    ensures c.caller == Acquiring && c.cell == Cell(true, None, [])
    ensures c.job == JobReplying(0, res, Store, FromHandler)
  {
    s, c := HandlerAsks(workers, reject, name, res);
    c := c.(cell := Cell(true, None, []), winner := Some(ByJob(FromHandler)),
            job := JobReplying(0, res, Store, FromHandler));
    s := OnlyCallSteps(s, JobAdvance, c);
    c := c.(caller := CallerReplying(ErrorResponse(STATUS_SERVER_ERROR, text), Claim), poolError := Some(text));
    s := OnlyCallSteps(s, PoolFails(text), c);
    c := c.(caller := Acquiring);
    s := OnlyCallSteps(s, CallerAdvance, c);
  }

  /**
   The window is real: with any handler that replies, a timeout between the compare-and-swap and the store makes the
   deferred function dereference nil, while the reply itself is still to be sent.
   */
  lemma WindowIsReachable(workers: nat, reject: bool, name: string, res: Response, text: string) returns (s: State)
    requires workers > 0
    ensures Reachable(s) && |s.calls| == 1 && s.calls[0].caller.Crashed? && s.calls[0].cell.sent == []
  {
    var c;
    s, c := TimedOutInTheWindow(workers, reject, name, res, text);
    c := c.(caller := Reading(0));
    s := OnlyCallSteps(s, TakeEvent(0), c);
    c := c.(caller := Checking(0), observed := Some(Event(0, None)));
    s := OnlyCallSteps(s, ReadResponse(0), c);
    c := c.(caller := Crashed);
    s := OnlyCallSteps(s, Record(None), c);
  }

  /** The handler asks for a reply, and then the pool reports an error before either side has claimed. */
  lemma BothAboutToClaim(workers: nat, reject: bool, name: string, res: Response, text: string)
    returns (s: State, c: Call)
    requires workers > 0
    ensures Reachable(s) && s.calls == [c]
    ensures c.caller == CallerReplying(ErrorResponse(STATUS_SERVER_ERROR, text), Claim)
    ensures c.job == JobReplying(0, res, Claim, FromHandler) && c.cell == FRESH_CELL && c.winner == None
    ensures c.replies == [res] && c.poolError == Some(text)
  {
    s, c := HandlerAsks(workers, reject, name, res);
    c := c.(caller := CallerReplying(ErrorResponse(STATUS_SERVER_ERROR, text), Claim), poolError := Some(text));
    s := OnlyCallSteps(s, PoolFails(text), c);
  }

  lemma JobMayWin(workers: nat, reject: bool, name: string, res: Response, text: string) returns (s: State)
    requires workers > 0
    ensures Reachable(s) && |s.calls| == 1 && s.calls[0].cell.sent == [res]
    ensures s.calls[0].replies == [res] && s.calls[0].poolError == Some(text)
  {
    var c;
    s, c := BothAboutToClaim(workers, reject, name, res, text);
    c := c.(cell := Cell(true, None, []), winner := Some(ByJob(FromHandler)),
            job := JobReplying(0, res, Store, FromHandler));
    s := OnlyCallSteps(s, JobAdvance, c);
    c := c.(cell := Cell(true, Some(res), []), job := JobReplying(0, res, Send, FromHandler));
    s := OnlyCallSteps(s, JobAdvance, c);
    c := c.(cell := Cell(true, Some(res), [res]), job := Handling(0));
    assert [] + [res] == [res];
    s := OnlyCallSteps(s, JobAdvance, c);
  }

  /** The same handler and the same pool error as in JobMayWin, and the other response. */
  lemma CallerMayWin(workers: nat, reject: bool, name: string, res: Response, text: string) returns (s: State)
    requires workers > 0
    ensures Reachable(s) && |s.calls| == 1 && s.calls[0].cell.sent == [ErrorResponse(STATUS_SERVER_ERROR, text)]
    ensures s.calls[0].replies == [res] && s.calls[0].poolError == Some(text)
  {
    var c;
    s, c := BothAboutToClaim(workers, reject, name, res, text);
    var err := ErrorResponse(STATUS_SERVER_ERROR, text);
    c := c.(cell := Cell(true, None, []), winner := Some(ByCaller), caller := CallerReplying(err, Store));
    s := OnlyCallSteps(s, CallerAdvance, c);
    c := c.(cell := Cell(true, Some(err), []), caller := CallerReplying(err, Send));
    s := OnlyCallSteps(s, CallerAdvance, c);
    c := c.(cell := Cell(true, Some(err), [err]), caller := Acquiring);
    assert [] + [err] == [err];
    s := OnlyCallSteps(s, CallerAdvance, c);
  }

  // ---- Workers and events ----------------------------------------------------------------------------------------

  /** The calls whose job occupies a worker. */
  ghost function Running(s: State): set<nat> {
    set i | 0 <= i < |s.calls| && WorkerOf(s.calls[i]).Some?
  }

  lemma {:induction false} InjectionBound(indices: set<nat>, image: nat -> nat, bound: nat)
    requires forall i :: i in indices ==> image(i) < bound
    requires forall i, j :: i in indices && j in indices && i != j ==> image(i) != image(j)
    ensures |indices| <= bound
    decreases bound
  {
    if indices != {} {
      if k :| k in indices && image(k) == bound - 1 {
        InjectionBound(indices - {k}, image, bound - 1);
      } else {
        assert bound > 0 by {
          var i :| i in indices;
        }
        InjectionBound(indices, image, bound - 1);
      }
    }
  }

  /** At most workerNum jobs run at once, timed-out ones included. */
  lemma AtMostWorkerNumJobs(s: State)
    requires Reachable(s)
    ensures |Running(s)| <= s.workers
  {
    ReachableInv(s);
    var image := (i: nat) =>
      if i < |s.calls| then match WorkerOf(s.calls[i]) case Some(w) => w case None => 0 else 0;
    InjectionBound(Running(s), image, s.workers);
  }

  /** No event is held by two calls, nor by a call and the pool. */
  lemma EventsAreIsolated(s: State, i: nat, j: nat)
    requires Reachable(s) && i < |s.calls| && j < |s.calls| && i != j && EventOf(s.calls[i]).Some?
    ensures EventOf(s.calls[j]) != EventOf(s.calls[i])
    ensures EventOf(s.calls[i]).value !in s.pool
  {
    ReachableInv(s);
  }

  ghost predicate Held(s: State, e: nat) {
    exists i :: 0 <= i < |s.calls| && EventOf(s.calls[i]) == Some(e)
  }

  /** Unless a call has crashed, every event is in the pool or held by a call. */
  ghost predicate Conserved(s: State) {
    (forall i :: 0 <= i < |s.calls| ==> !s.calls[i].caller.Crashed?) ==>
      forall e: nat :: e < |s.heap| ==> e in s.pool || Held(s, e)
  }

  lemma StepHolds(c: Call, a: Step)
    requires StepCall(c, a).Some?
    ensures
      var c' := StepCall(c, a).value;
      && (c.caller.Crashed? ==> c'.caller.Crashed?)
      && (EventOf(c).Some? && !a.Release? && !c'.caller.Crashed? ==> EventOf(c') == EventOf(c))
      && (a.TakeEvent? ==> EventOf(c') == Some(a.evt))
  {
    match a {
      case JobAdvance =>
      case CallerAdvance =>
      case _ =>
    }
  }

  lemma DoKeepsConserved(s: State, i: nat, a: Step, s': State)
    requires Conserved(s) && Next(s, Do(i, a)) == Some(s')
    ensures Conserved(s')
  {
    var c', _ := DoEffect(s, i, a);
    StepHolds(s.calls[i], a);
    if forall j :: 0 <= j < |s'.calls| ==> !s'.calls[j].caller.Crashed? {
      assert s'.calls[i] == c' && !s.calls[i].caller.Crashed?;
      assert forall j :: 0 <= j < |s.calls| && j != i ==> s.calls[j] == s'.calls[j];
      forall e: nat | e < |s'.heap|
        ensures e in s'.pool || Held(s', e)
      {
        if a == TakeEvent(e) {
          assert EventOf(s'.calls[i]) == Some(e);
        } else if e !in s'.pool {
          assert Held(s, e);
          var j :| 0 <= j < |s.calls| && EventOf(s.calls[j]) == Some(e);
          assert EventOf(s'.calls[j]) == Some(e);
        }
      }
    }
  }

  lemma {:induction false} RunKeepsConserved(s: State, actions: seq<Action>)
    requires Conserved(s) && Run(s, actions).Some?
    requires forall k :: 0 <= k < |actions| ==> !actions[k].Evict?
    ensures Conserved(Run(s, actions).value)
    decreases |actions|
  {
    if actions != [] {
      var a, s1 := actions[0], Next(s, actions[0]).value;
      if a.Do? {
        DoKeepsConserved(s, a.call, a.step, s1);
      } else {
        OtherKeepsConserved(s, a, s1);
      }
      RunKeepsConserved(s1, actions[1..]);
    }
  }

  lemma OtherKeepsConserved(s: State, a: Action, s': State)
    requires Conserved(s) && Next(s, a) == Some(s') && !a.Do? && !a.Evict?
    ensures Conserved(s')
  {
    assert forall j :: 0 <= j < |s.calls| ==> s.calls[j] == s'.calls[j];
    forall e: nat | e < |s'.heap| && Held(s, e)
      ensures Held(s', e)
    {
      var j :| 0 <= j < |s.calls| && EventOf(s.calls[j]) == Some(e);
      assert EventOf(s'.calls[j]) == Some(e);
    }
  }

  lemma RunConserves(workers: nat, reject: bool, actions: seq<Action>, s: State)
    requires Run(Init(workers, reject), actions) == Some(s)
    requires forall k :: 0 <= k < |actions| ==> !actions[k].Evict?
    ensures Conserved(s)
  {
    RunKeepsConserved(Init(workers, reject), actions);
  }

  /**
   Events are reused, not lost: as long as the pool evicts none and no call has crashed, every event that was ever made is
   in the pool or held by a call; with no call in its deferred function, all are in the pool.
   */
  lemma EventsAreConserved(workers: nat, reject: bool, actions: seq<Action>, s: State, e: nat)
    requires Run(Init(workers, reject), actions) == Some(s)
    requires forall k :: 0 <= k < |actions| ==> !actions[k].Evict?
    requires forall i :: 0 <= i < |s.calls| ==> !s.calls[i].caller.Crashed?
    requires e < |s.heap|
    ensures e in s.pool || Held(s, e)
    ensures (forall i :: 0 <= i < |s.calls| ==> EventOf(s.calls[i]) == None) ==> e in s.pool
  {
    RunConserves(workers, reject, actions, s);
  }

  /**
   A call that returned has run every callback once, in the order of registration, each on an event that holds the
   duration and the response of this call; one that crashed has run none.
   */
  lemma CallbacksSeeTheirOwnCall(s: State, i: nat)
    requires Reachable(s) && i < |s.calls| && CallOver(s.calls[i])
    ensures
      var c := s.calls[i];
      && c.observed.Some?
      && (c.caller.Crashed? ==> c.fired == [])
      && (c.caller.Returned? ==>
            && c.winner.Some? && c.observed.value.res == Outcome(c, c.winner.value)
            && |c.fired| == |s.callbacks|
            && forall k :: 0 <= k < |s.callbacks| ==> c.fired[k] == Firing(s.callbacks[k], c.observed.value))
  {
    ReachableInv(s);
    assert CallInv(s.calls[i]);
  }

  /** The options of a server never change. */
  lemma {:induction false} RunKeepsOptions(s: State, actions: seq<Action>)
    requires Run(s, actions).Some?
    ensures Run(s, actions).value.workers == s.workers && Run(s, actions).value.reject == s.reject
    decreases |actions|
  {
    if actions != [] {
      RunKeepsOptions(Next(s, actions[0]).value, actions[1..]);
    }
  }

  /** The callbacks that a run registers, in order. */
  function Added(actions: seq<Action>): seq<nat>
    decreases |actions|
  {
    if actions == [] then []
    else (if actions[0].AddCallback? then [actions[0].callback] else []) + Added(actions[1..])
  }

  lemma {:induction false} RunAddsCallbacks(s: State, actions: seq<Action>)
    requires Run(s, actions).Some?
    ensures Run(s, actions).value.callbacks == s.callbacks + Added(actions)
    decreases |actions|
  {
    if actions != [] {
      RunAddsCallbacks(Next(s, actions[0]).value, actions[1..]);
    }
  }

  /** A call that returned has run the callbacks that the run registered, each once and in that order. */
  lemma CallbacksFireInOrder(workers: nat, reject: bool, actions: seq<Action>, s: State, i: nat)
    requires Run(Init(workers, reject), actions) == Some(s)
    requires i < |s.calls| && s.calls[i].caller.Returned?
    ensures |s.calls[i].fired| == |Added(actions)|
    ensures forall k :: 0 <= k < |Added(actions)| ==> s.calls[i].fired[k].callback == Added(actions)[k]
  {
    RunKeepsOptions(Init(workers, reject), actions);
    assert Reachable(s);
    CallbacksSeeTheirOwnCall(s, i);
    RunAddsCallbacks(Init(workers, reject), actions);
    assert s.callbacks == Added(actions);
  }
}
