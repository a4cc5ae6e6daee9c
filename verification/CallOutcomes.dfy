/** The sequential specification is exact: each of its outcomes is the outcome of some run of the concurrent server. */
module CallOutcomes {
  import opened Wrappers
  import opened Rrpc
  import opened CallProtocol
  import opened CallInvariants
  import opened CallTheorems

  /**
   A script that some environment can play: only an admitted, registered call has a handler, and the handler ends
   unless the pool's error came first.
   */
  predicate Playable(script: Script, callerFirst: bool) {
    && (callerFirst ==> script.poolError.Some?)
    && if script.admitted && script.registered then script.ending != Open || callerFirst
       else script == Script(script.admitted, !script.admitted, [], Open, None)
  }

  /** One server with one call, its job on a worker or over. */
  ghost predicate Only(s: State, c: Call) {
    Reachable(s) && s.calls == [c] && s.workers > 0
  }

  /** The job's Reply runs through: it claims, stores and sends, or it finds the claim taken. */
  lemma JobReplies(s: State, c: Call, after: Call) returns (s': State)
    requires Only(s, c) && c.job.JobReplying? && c.job.stage == Claim
    requires c.cell.replyed || c.cell == FRESH_CELL
    requires after == c.(job := AfterReply(c.job.worker, c.job.origin),
                         winner := if c.cell.replyed then c.winner else Some(ByJob(c.job.origin)),
                         cell := if c.cell.replyed then c.cell else Cell(true, Some(c.job.res), [c.job.res]))
    ensures Only(s', after) && s'.reject == s.reject
  {
    if c.cell.replyed {
      s' := OnlyCallSteps(s, JobAdvance, after);
    } else {
      var c1 := c.(cell := Cell(true, None, []), winner := Some(ByJob(c.job.origin)), job := c.job.(stage := Store));
      s' := OnlyCallSteps(s, JobAdvance, c1);
      var c2 := c1.(cell := Cell(true, Some(c.job.res), []), job := c1.job.(stage := Send));
      s' := OnlyCallSteps(s', JobAdvance, c2);
      assert [] + [c.job.res] == [c.job.res];
      s' := OnlyCallSteps(s', JobAdvance, after);
    }
  }

  /** The caller's Reply, likewise. */
  lemma CallerReplies(s: State, c: Call, after: Call) returns (s': State)
    requires Only(s, c) && c.caller.CallerReplying? && c.caller.stage == Claim
    requires c.cell.replyed || c.cell == FRESH_CELL
    requires after == c.(caller := Acquiring,
                         winner := if c.cell.replyed then c.winner else Some(ByCaller),
                         cell := if c.cell.replyed then c.cell else Cell(true, Some(c.caller.res), [c.caller.res]))
    ensures Only(s', after) && s'.reject == s.reject
  {
    if c.cell.replyed {
      s' := OnlyCallSteps(s, CallerAdvance, after);
    } else {
      var c1 := c.(cell := Cell(true, None, []), winner := Some(ByCaller), caller := c.caller.(stage := Store));
      s' := OnlyCallSteps(s, CallerAdvance, c1);
      var c2 := c1.(cell := Cell(true, Some(c.caller.res), []), caller := c1.caller.(stage := Send));
      s' := OnlyCallSteps(s', CallerAdvance, c2);
      assert [] + [c.caller.res] == [c.caller.res];
      s' := OnlyCallSteps(s', CallerAdvance, after);
    }
  }

  /** The cell and the winner after a list of replies of the handler. */
  function Handled(c: Call, replies: seq<Response>): Call {
    if replies == [] then c
    else c.(replies := c.replies + replies,
            winner := if c.cell.replyed then c.winner else Some(ByJob(FromHandler)),
            cell := if c.cell.replyed then c.cell else Cell(true, Some(replies[0]), [replies[0]]))
  }

  lemma {:induction false} HandlerReplies(s: State, c: Call, replies: seq<Response>) returns (s': State)
    requires Only(s, c) && c.job.Handling? && (c.cell.replyed || c.cell == FRESH_CELL)
    ensures Only(s', Handled(c, replies)) && s'.reject == s.reject
    decreases |replies|
  {
    if replies == [] {
      s' := s;
    } else {
      var asking := c.(job := JobReplying(c.job.worker, replies[0], Claim, FromHandler),
                       replies := c.replies + [replies[0]]);
      s' := OnlyCallSteps(s, HandlerReply(replies[0]), asking);
      var after := Handled(c, [replies[0]]);
      s' := JobReplies(s', asking, after);
      s' := HandlerReplies(s', after, replies[1..]);
      assert [replies[0]] + replies[1..] == replies;
      assert c.replies + [replies[0]] + replies[1..] == c.replies + replies;
      assert Handled(after, replies[1..]) == Handled(c, replies);
    }
  }

  /** The reply that follows the handler. */
  function EndReply(name: string, ending: Ending): Response {
    if ending.Panicked? then PanicResponse(name, ending.detail) else NoReplyResponse()
  }

  function EndOrigin(ending: Ending): Origin {
    if ending.Panicked? then FromPanic else FromFallback
  }

  function Ended(c: Call, ending: Ending): Call {
    c.(job := Finished, ending := ending,
       winner := if c.cell.replyed then c.winner else Some(ByJob(EndOrigin(ending))),
       cell := if c.cell.replyed then c.cell
               else Cell(true, Some(EndReply(c.name, ending)), [EndReply(c.name, ending)]))
  }

  lemma HandlerEnds(s: State, c: Call, ending: Ending) returns (s': State)
    requires Only(s, c) && c.job.Handling? && ending != Open && (c.cell.replyed || c.cell == FRESH_CELL)
    ensures Only(s', Ended(c, ending)) && s'.reject == s.reject
  {
    var asking := c.(job := JobReplying(c.job.worker, EndReply(c.name, ending), Claim, EndOrigin(ending)),
                     ending := ending);
    s' := OnlyCallSteps(s, if ending.Panicked? then HandlerPanic(ending.detail) else HandlerReturn, asking);
    s' := JobReplies(s', asking, Ended(c, ending));
  }

  /** The pool's error, before or after the job. */
  lemma PoolErrs(s: State, c: Call, text: string, after: Call) returns (s': State)
    requires Only(s, c) && c.caller == Waiting && (c.cell.replyed || c.cell == FRESH_CELL)
    requires
      var e := ErrorResponse(STATUS_SERVER_ERROR, text);
      after == c.(caller := Acquiring, poolError := Some(text),
                  winner := if c.cell.replyed then c.winner else Some(ByCaller),
                  cell := if c.cell.replyed then c.cell else Cell(true, Some(e), [e]))
    ensures Only(s', after) && s'.reject == s.reject
  {
    var asking := c.(caller := CallerReplying(ErrorResponse(STATUS_SERVER_ERROR, text), Claim), poolError := Some(text));
    s' := OnlyCallSteps(s, PoolFails(text), asking);
    s' := CallerReplies(s', asking, after);
  }

  lemma SubmittedOutcomes(workers: nat, reject: bool, name: string, script: Script, callerFirst: bool)
    returns (s: State, c: Call)
    requires workers > 0 && Playable(script, callerFirst) && script.admitted && script.registered
    ensures Reachable(s) && s.reject == reject && s.calls == [c] && c.name == name && ScriptOf(c) == script
    ensures c.cell.sent == [Sequential(reject, name, script, callerFirst)]
  {
    s, c := JobStarted(workers, reject, name);
    if callerFirst {
      var text := script.poolError.value;
      var e := ErrorResponse(STATUS_SERVER_ERROR, text);
      var c1 := c.(caller := Acquiring, poolError := Some(text), winner := Some(ByCaller),
                   cell := Cell(true, Some(e), [e]));
      s := PoolErrs(s, c, text, c1);
      c := c1;
    }
    s := HandlerReplies(s, c, script.replies);
    assert [] + script.replies == script.replies;
    c := Handled(c, script.replies);
    if script.ending != Open {
      s := HandlerEnds(s, c, script.ending);
      c := Ended(c, script.ending);
    }
    if !callerFirst && script.poolError.Some? {
      var c1 := c.(caller := Acquiring, poolError := script.poolError);
      s := PoolErrs(s, c, script.poolError.value, c1);
      c := c1;
    }
  }

  /** A call that never reaches the pool. */
  lemma EarlyOutcomes(workers: nat, reject: bool, name: string, admitted: bool) returns (s: State, c: Call)
    requires workers > 0
    ensures Reachable(s) && s.reject == reject && s.calls == [c] && c.name == name
    ensures ScriptOf(c) == Script(admitted, !admitted, [], Open, None)
    ensures c.cell.sent == [if admitted then UnregisteredResponse(name) else RefusalResponse(reject)]
  {
    InitReachable(workers, reject);
    c := NewCall(name);
    s := ReachableNext(Init(workers, reject), Arrive(name));
    assert s.calls == [c];
    if admitted {
      c := c.(caller := Looking);
      s := OnlyCallSteps(s, Admit, c);
      c := c.(caller := CallerReplying(UnregisteredResponse(name), Claim), verdict := Unregistered);
      s := OnlyCallSteps(s, Find(false), c);
    } else {
      c := c.(caller := CallerReplying(RefusalResponse(reject), Claim), verdict := Refused(reject));
      s := OnlyCallSteps(s, Refuse(reject), c);
    }
    var r := c.caller.res;
    var c1 := c.(caller := Acquiring, winner := Some(ByCaller), cell := Cell(true, Some(r), [r]));
    s := CallerReplies(s, c, c1);
    c := c1;
  }

  /** The other direction: a finished call has played such a script, and sent its sequential outcome. */
  lemma FinishedCallPlayedItsScript(s: State, i: nat)
    requires Reachable(s) && i < |s.calls| && CallOver(s.calls[i]) && JobOver(s.calls[i])
    ensures
      var c := s.calls[i];
      var callerFirst := c.winner == Some(ByCaller) && c.poolError.Some?;
      && Playable(ScriptOf(c), callerFirst)
      && c.cell.sent == [Sequential(s.reject, c.name, ScriptOf(c), callerFirst)]
  {
    ReachableInv(s);
    assert CallInv(s.calls[i]);
    RepliesExactlyOnce(s, i);
    SentIsSequential(s, i);
  }

  /** With any worker at all, every outcome that the sequential specification allows is one that some run sends. */
  lemma EverySequentialOutcomeArises(workers: nat, reject: bool, name: string, script: Script, callerFirst: bool)
    returns (s: State, c: Call)
    requires workers > 0 && Playable(script, callerFirst)
    ensures Reachable(s) && s.reject == reject && s.calls == [c] && c.name == name && ScriptOf(c) == script
    ensures c.cell.sent == [Sequential(reject, name, script, callerFirst)]
  {
    if script.admitted && script.registered {
      s, c := SubmittedOutcomes(workers, reject, name, script, callerFirst);
    } else {
      s, c := EarlyOutcomes(workers, reject, name, script.admitted);
    }
  }
}
