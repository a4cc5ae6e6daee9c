/** What the lookup of a call finds: the registrations of the run decide who is answered "Unhandled method". */
module CallLookups {
  import opened Wrappers
  import opened Rrpc
  import opened CallProtocol
  import opened CallInvariants
  import opened CallTheorems

  /** The call is past the lookup, or past a limiter that let it go to the lookup. */
  predicate LookedUp(c: Call) { c.verdict == Submitted || c.verdict == Unregistered }

  // ---- The handlers of a state are the registrations of its run --------------------------------------------------

  lemma {:induction false} HandlersAreRegistered(s: State, actions: seq<Action>)
    requires Run(s, actions).Some?
    ensures forall name :: name in Run(s, actions).value.handlers <==> name in s.handlers || Register(name) in actions
    decreases |actions|
  {
    if actions != [] {
      HandlersAreRegistered(Next(s, actions[0]).value, actions[1..]);
      assert forall name :: Register(name) in actions <==>
          actions[0] == Register(name) || Register(name) in actions[1..] by {
        assert actions == [actions[0]] + actions[1..];
      }
    }
  }

  // ---- One lookup ------------------------------------------------------------------------------------------------

  lemma StepLooksUp(c: Call, a: Step)
    requires StepCall(c, a).Some?
    ensures
      var v := StepCall(c, a).value.verdict;
      && (v == Submitted && c.verdict != Submitted ==> a == Find(true))
      && (v == Unregistered && c.verdict != Unregistered ==> a == Find(false))
      && (LookedUp(c) && !a.Find? && !a.Refuse? ==> v == c.verdict)
      && StepCall(c, a).value.name == c.name
      && (a.Find? || a.Refuse? ==> c.caller == Looking || c.caller == Limiting)
  {
    match a {
      case JobAdvance =>
      case CallerAdvance =>
      case _ =>
    }
  }

  /**
   In any reachable state, a call at the lookup finds its method exactly if it is registered in that state, and a step
   makes a call unregistered, or submits it, only so.
   */
  lemma LookupFindsTheHandlers(s: State, i: nat, a: Step)
    requires Reachable(s) && i < |s.calls|
    ensures s.calls[i].caller == Looking ==>
      && (Next(s, Do(i, Find(true))).Some? <==> s.calls[i].name in s.handlers)
      && (Next(s, Do(i, Find(false))).Some? <==> s.calls[i].name !in s.handlers)
    ensures Next(s, Do(i, a)).Some? ==>
      var c, c' := s.calls[i], Next(s, Do(i, a)).value.calls[i];
      && (c'.verdict == Unregistered && c.verdict != Unregistered ==> c.name !in s.handlers)
      && (c'.verdict == Submitted && c.verdict != Submitted ==> c.name in s.handlers)
  {
    if Next(s, Do(i, a)).Some? {
      StepLooksUp(s.calls[i], a);
    }
  }

  // ---- Over whole runs -------------------------------------------------------------------------------------------

  predicate SubmittedInv(s: State) {
    forall i :: 0 <= i < |s.calls| && s.calls[i].verdict == Submitted ==> s.calls[i].name in s.handlers
  }

  predicate UnregisteredInv(s: State) {
    forall i :: 0 <= i < |s.calls| && s.calls[i].verdict == Unregistered ==> s.calls[i].name !in s.handlers
  }

  lemma NextKeepsSubmitted(s: State, a: Action, s': State)
    requires SubmittedInv(s) && Next(s, a) == Some(s')
    ensures SubmittedInv(s')
  {
    if a.Do? {
      var _, _ := DoEffect(s, a.call, a.step);
      StepLooksUp(s.calls[a.call], a.step);
    }
  }

  lemma NextKeepsUnregistered(s: State, a: Action, s': State)
    requires UnregisteredInv(s) && Next(s, a) == Some(s') && (a.Register? ==> s.calls == [])
    ensures UnregisteredInv(s')
  {
    if a.Do? {
      var _, _ := DoEffect(s, a.call, a.step);
      StepLooksUp(s.calls[a.call], a.step);
    }
  }

  lemma {:induction false} RunKeepsSubmitted(s: State, actions: seq<Action>)
    requires SubmittedInv(s) && Run(s, actions).Some?
    ensures SubmittedInv(Run(s, actions).value)
    decreases |actions|
  {
    if actions != [] {
      NextKeepsSubmitted(s, actions[0], Next(s, actions[0]).value);
      RunKeepsSubmitted(Next(s, actions[0]).value, actions[1..]);
    }
  }

  /** A call is only ever submitted for a method that has a handler. */
  lemma SubmittedIsRegistered(s: State, i: nat)
    requires Reachable(s) && i < |s.calls| && s.calls[i].verdict == Submitted
    ensures s.calls[i].name in s.handlers
  {
    var actions: seq<Action> :| Run(Init(s.workers, s.reject), actions) == Some(s);
    RunKeepsSubmitted(Init(s.workers, s.reject), actions);
  }

  /** No method is registered after the first call has come. */
  predicate RegisteredFirst(actions: seq<Action>) {
    forall j, k :: 0 <= j < k < |actions| && actions[j].Arrive? ==> !actions[k].Register?
  }

  predicate NoRegister(actions: seq<Action>) {
    forall k :: 0 <= k < |actions| ==> !actions[k].Register?
  }

  lemma {:induction false} RunKeepsUnregistered(s: State, actions: seq<Action>)
    requires UnregisteredInv(s) && Run(s, actions).Some?
    requires RegisteredFirst(actions) && (s.calls == [] || NoRegister(actions))
    ensures UnregisteredInv(Run(s, actions).value)
    decreases |actions|
  {
    if actions != [] {
      var s1, rest := Next(s, actions[0]).value, actions[1..];
      assert forall k :: 0 <= k < |rest| ==> rest[k] == actions[k + 1];
      NextKeepsUnregistered(s, actions[0], s1);
      RunKeepsUnregistered(s1, rest);
    }
  }

  /**
   Where registration is finished before the first call, a call past the lookup is unregistered exactly if the run has
   not registered its method, and otherwise submitted.
   */
  lemma UnregisteredExactlyWithoutRegistration(workers: nat, reject: bool, actions: seq<Action>, s: State, i: nat)
    requires Run(Init(workers, reject), actions) == Some(s) && RegisteredFirst(actions)
    requires i < |s.calls| && LookedUp(s.calls[i])
    ensures s.calls[i].verdict == Unregistered <==> s.calls[i].name !in s.handlers
    ensures s.calls[i].verdict == Unregistered <==> Register(s.calls[i].name) !in actions
  {
    var s0 := Init(workers, reject);
    RunKeepsSubmitted(s0, actions);
    RunKeepsUnregistered(s0, actions);
    HandlersAreRegistered(s0, actions);
  }

  /**
   What an admitted call is sent, by the registrations of the run: the error of an unhandled method if there is none of
   its name; else, unless the pool reports an error, the first reply of the handler, its panic, or that it made none.
   */
  lemma AnsweredByRegistration(workers: nat, reject: bool, actions: seq<Action>, s: State, i: nat)
    requires Run(Init(workers, reject), actions) == Some(s) && RegisteredFirst(actions)
    requires i < |s.calls| && s.calls[i].cell.sent != [] && !s.calls[i].verdict.Refused?
    ensures
      var c := s.calls[i];
      && (Register(c.name) !in actions ==> c.cell.sent == [Response(Nil, Some("Unhandled method: " + c.name), 500)])
      && (Register(c.name) in actions && c.poolError == None ==>
            c.cell.sent == [if c.replies != [] then c.replies[0]
                            else if c.ending.Panicked? then
                              Response(Nil, Some("panic in method " + c.name + " " + c.ending.detail), 500)
                            else Response(Nil, Some("[RRPC] empty reply"), 500)])
  {
    RunKeepsOptions(Init(workers, reject), actions);
    assert Reachable(s);
    ReachableInv(s);
    assert CallInv(s.calls[i]);
    UnregisteredExactlyWithoutRegistration(workers, reject, actions, s, i);
    SentIsSequential(s, i);
  }
}
