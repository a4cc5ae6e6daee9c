/** server.go as one goroutine runs it: the registrations, Call with its job run before or never, and the callbacks. */
module Servers {
  import opened Wrappers
  import opened Rrpc
  import opened CallProtocol
  import opened CallTheorems
  import opened RequestContexts

  /** A handler, by what it does with its context: the replies it asks for, and how it ends. */
  datatype Handler = Handler(replies: seq<Response>, ending: Ending)

  /** What the worker pool makes of a job: it runs, it never runs, or it runs and the pool reports an error as well. */
  datatype PoolOutcome = Ran | NeverRan(text: string) | RanLate(text: string)

  class AfterResponseEvent {
    var duration: int
    var res: Option<Response>

    constructor ()
    {
      duration, res := 0, None;
    }
  }

  function Firings(callbacks: seq<nat>, event: Event): (f: seq<Firing>)
    ensures |f| == |callbacks| && forall k :: 0 <= k < |f| ==> f[k] == Firing(callbacks[k], event)
  {
    seq(|callbacks|, k requires 0 <= k < |callbacks| => Firing(callbacks[k], event))
  }

  function ScriptFor(admitted: bool, handlers: map<string, Handler>, name: string, pool: PoolOutcome): Script {
    var registered := name in handlers;
    Script(admitted, registered,
           if registered then handlers[name].replies else [],
           if registered then handlers[name].ending else Open,
           match pool case Ran => None case NeverRan(text) => Some(text) case RanLate(text) => Some(text))
  }

  /** The replies a job asks for, from its first to its last. */
  function JobReplies(name: string, h: Handler): seq<Response> {
    h.replies + [if h.ending.Panicked? then PanicResponse(name, h.ending.detail) else NoReplyResponse()]
  }

  /** What a handler that runs answers: its first reply, its panic, or that it made none. */
  function FirstAnswer(name: string, h: Handler): Response {
    if h.replies != [] then h.replies[0]
    else if h.ending.Panicked? then Response(Nil, Some("panic in method " + name + " " + h.ending.detail), 500)
    else Response(Nil, Some("[RRPC] empty reply"), 500)
  }

  class Server {
    const reject: bool
    var handlerMap: map<string, Handler>
    var cbList: seq<nat>
    var afterResPool: seq<AfterResponseEvent>
    /** The callbacks run so far. */
    var fired: seq<Firing>

    constructor (reject: bool)
      ensures this.reject == reject && handlerMap == map[] && cbList == [] && afterResPool == [] && fired == []
    {
      this.reject := reject;
      handlerMap, cbList, afterResPool, fired := map[], [], [], [];
    }

    method Register(name: string, h: Handler)
      modifies this`handlerMap
      ensures name in handlerMap && handlerMap[name] == h
      ensures forall n :: n != name ==>
        (n in handlerMap <==> n in old(handlerMap)) && (n in handlerMap ==> handlerMap[n] == old(handlerMap)[n])
    {
      handlerMap := handlerMap[name := h];
    }

    method OnAfterResponse(callback: nat)
      modifies this`cbList
      ensures cbList == old(cbList) + [callback]
    {
      cbList := cbList + [callback];
    }

    /** Every callback sees the event once, in the order of registration; then the event goes back to the pool. */
    method EmitAfterResponse(e: AfterResponseEvent)
      modifies this`fired, this`afterResPool
      ensures fired == old(fired) + Firings(cbList, Event(e.duration, e.res))
      ensures afterResPool == old(afterResPool) + [e]
    {
      var event := Event(e.duration, e.res);
      for k := 0 to |cbList|
        invariant fired == old(fired) + Firings(cbList, event)[..k]
        invariant afterResPool == old(afterResPool)
      {
        fired := fired + [Firing(cbList[k], event)];
      }
      afterResPool := afterResPool + [e];
    }

    /** The job: the handler's replies, then the recovery of its panic or the fallback. */
    method RunJob(c: RequestContext, name: string, h: Handler)
      modifies c
      ensures c.View() == RepliesTo(old(c.View()), JobReplies(name, h))
    {
      for k := 0 to |h.replies|
        invariant c.View() == RepliesTo(old(c.View()), h.replies[..k])
      {
        RepliesAppend(old(c.View()), h.replies[..k], h.replies[k]);
        assert h.replies[..k + 1] == h.replies[..k] + [h.replies[k]];
        var _ := c.Reply(h.replies[k]);
      }
      assert h.replies[..|h.replies|] == h.replies;
      ghost var last := if h.ending.Panicked? then PanicResponse(name, h.ending.detail) else NoReplyResponse();
      RepliesAppend(old(c.View()), h.replies, last);
      if h.ending.Panicked? {
        var _ := c.ReplyError(STATUS_SERVER_ERROR, "panic in method " + name + " " + h.ending.detail);
      } else {
        var _ := c.ReplyError(STATUS_SERVER_ERROR, ERR_NO_REPLY);
      }
    }

    /**
     The deferred function; pick is what the event pool hands out, a pooled event or a new one.  Without a response it
     dereferences nil before any callback runs, and the event is lost to the pool.
     */
    method AfterCall(c: RequestContext, duration: int, pick: nat) returns (crashed: bool)
      modifies this`fired, this`afterResPool, afterResPool
      ensures crashed <==> c.View().res == None
      ensures forall e :: e in afterResPool ==> e in old(afterResPool) || fresh(e)
      ensures crashed ==> fired == old(fired) && multiset(afterResPool) <= multiset(old(afterResPool))
      ensures !crashed ==>
        && fired == old(fired) + Firings(cbList, Event(duration, c.View().res))
        && multiset(old(afterResPool)) <= multiset(afterResPool)
    {
      var evt: AfterResponseEvent;
      if pick < |afterResPool| {
        evt := afterResPool[pick];
        var pool := afterResPool;
        assert pool == pool[..pick] + [evt] + pool[pick + 1..];
        afterResPool := pool[..pick] + pool[pick + 1..];
      } else {
        evt := new AfterResponseEvent();
      }
      evt.duration := duration;
      var res := c.GetResponse();
      evt.res := res;
      crashed := evt.res.None?;
      if !crashed {
        EmitAfterResponse(evt);
      }
    }

    /**
     Call on a fresh context, with the job run to its end or never: exactly one response reaches the child context,
     it is the sequential one, and every callback sees it.
     */
    method Call(c: RequestContext, name: string, admitted: bool, pool: PoolOutcome, duration: int, pick: nat)
      requires c.View() == FRESH_CELL
      modifies c, this`fired, this`afterResPool, afterResPool
      ensures
        var r := Sequential(reject, name, ScriptFor(admitted, old(handlerMap), name, pool), pool.NeverRan?);
        && c.View() == Cell(true, Some(r), [r])
        && fired == old(fired) + Firings(cbList, Event(duration, Some(r)))
      ensures !admitted ==>
        c.sent == [if reject then Response(Nil, Some("[RRPC] too frequently, try again later"), 429)
                   else Response(Nil, Some("[RRPC] timeout"), 408)]
      ensures admitted && name !in handlerMap ==> c.sent == [Response(Nil, Some("Unhandled method: " + name), 500)]
      ensures admitted && name in handlerMap ==>
        c.sent == [if pool.NeverRan? then Response(Nil, Some(pool.text), 500) else FirstAnswer(name, handlerMap[name])]
      ensures forall e :: e in afterResPool ==> e in old(afterResPool) || fresh(e)
    {
      if !admitted {
        if reject {
          var _ := c.ReplyError(STATUS_TOO_FREQUENTLY, ERR_TOO_FREQUENTLY);
        } else {
          var _ := c.ReplyError(STATUS_REQUEST_TIMEOUT, ERR_TIMEOUT);
        }
      } else if name !in handlerMap {
        var _ := c.ReplyError(STATUS_SERVER_ERROR, "Unhandled method: " + name);
      } else {
        if !pool.NeverRan? {
          FirstReplyWins(JobReplies(name, handlerMap[name]));
          RunJob(c, name, handlerMap[name]);
        }
        if !pool.Ran? {
          var _ := c.ReplyError(STATUS_SERVER_ERROR, pool.text);
        }
      }
      var _ := AfterCall(c, duration, pick);
    }
  }

  // ---- Whole runs of one goroutine -------------------------------------------------------------------------------

  /** A call, with what the limiter and the pool make of it, its duration, and the choice of the event pool. */
  datatype Incoming = Incoming(name: string, admitted: bool, pool: PoolOutcome, duration: int, pick: nat)

  /** The handlers after registrations: the last one of a name counts. */
  function HandlersOf(registrations: seq<(string, Handler)>): map<string, Handler>
    decreases |registrations|
  {
    if registrations == [] then map[]
    else
      var n := |registrations| - 1;
      HandlersOf(registrations[..n])[registrations[n].0 := registrations[n].1]
  }

  /** The registration at position j is the last one of its name. */
  predicate LastNamed(registrations: seq<(string, Handler)>, j: int, name: string) {
    && 0 <= j < |registrations| && registrations[j].0 == name
    && forall k :: j < k < |registrations| ==> registrations[k].0 != name
  }

  predicate Unnamed(registrations: seq<(string, Handler)>, name: string) {
    forall k :: 0 <= k < |registrations| ==> registrations[k].0 != name
  }

  lemma {:induction false} LastRegistrationCounts(registrations: seq<(string, Handler)>, j: int, name: string)
    requires LastNamed(registrations, j, name)
    ensures name in HandlersOf(registrations) && HandlersOf(registrations)[name] == registrations[j].1
    decreases |registrations|
  {
    if j < |registrations| - 1 {
      LastRegistrationCounts(registrations[..|registrations| - 1], j, name);
    }
  }

  lemma {:induction false} NoRegistrationNoHandler(registrations: seq<(string, Handler)>, name: string)
    requires Unnamed(registrations, name)
    ensures name !in HandlersOf(registrations)
    decreases |registrations|
  {
    if registrations != [] {
      NoRegistrationNoHandler(registrations[..|registrations| - 1], name);
    }
  }

  function Expected(reject: bool, handlers: map<string, Handler>, i: Incoming): Response {
    Sequential(reject, i.name, ScriptFor(i.admitted, handlers, i.name, i.pool), i.pool.NeverRan?)
  }

  /** What a call is answered, by the list of registrations alone. */
  ghost predicate AnsweredBy(reject: bool, registrations: seq<(string, Handler)>, i: Incoming, sent: Response) {
    && (!i.admitted ==>
          sent == if reject then Response(Nil, Some("[RRPC] too frequently, try again later"), 429)
                  else Response(Nil, Some("[RRPC] timeout"), 408))
    && (i.admitted && Unnamed(registrations, i.name) ==> sent == Response(Nil, Some("Unhandled method: " + i.name), 500))
    && (forall j :: i.admitted && LastNamed(registrations, j, i.name) ==>
          sent == if i.pool.NeverRan? then Response(Nil, Some(i.pool.text), 500)
                  else FirstAnswer(i.name, registrations[j].1))
  }

  lemma ExpectedIsAnsweredBy(reject: bool, registrations: seq<(string, Handler)>, i: Incoming)
    ensures AnsweredBy(reject, registrations, i, Expected(reject, HandlersOf(registrations), i))
  {
    if Unnamed(registrations, i.name) {
      NoRegistrationNoHandler(registrations, i.name);
    }
    forall j | LastNamed(registrations, j, i.name)
      ensures i.name in HandlersOf(registrations) && HandlersOf(registrations)[i.name] == registrations[j].1
    {
      LastRegistrationCounts(registrations, j, i.name);
    }
  }

  /** Every callback, once for each call, in order, with that call's own event. */
  function AllFirings(reject: bool, handlers: map<string, Handler>, callbacks: seq<nat>, calls: seq<Incoming>)
    : seq<Firing>
    decreases |calls|
  {
    if calls == [] then []
    else
      var n := |calls| - 1;
      AllFirings(reject, handlers, callbacks, calls[..n])
      + Firings(callbacks, Event(calls[n].duration, Some(Expected(reject, handlers, calls[n]))))
  }

  /** A server with these handlers and callbacks. */
  method Started(reject: bool, registrations: seq<(string, Handler)>, callbacks: seq<nat>) returns (server: Server)
    ensures fresh(server) && server.reject == reject && server.afterResPool == [] && server.fired == []
    ensures server.handlerMap == HandlersOf(registrations) && server.cbList == callbacks
  {
    server := new Server(reject);
    for k := 0 to |registrations|
      invariant server.handlerMap == HandlersOf(registrations[..k])
      invariant server.afterResPool == [] && server.fired == [] && server.cbList == []
    {
      assert registrations[..k + 1][..k] == registrations[..k];
      ghost var before := server.handlerMap;
      server.Register(registrations[k].0, registrations[k].1);
      assert server.handlerMap == before[registrations[k].0 := registrations[k].1];
    }
    assert registrations[..|registrations|] == registrations;
    for k := 0 to |callbacks|
      invariant server.handlerMap == HandlersOf(registrations) && server.cbList == callbacks[..k]
      invariant server.afterResPool == [] && server.fired == []
    {
      server.OnAfterResponse(callbacks[k]);
    }
  }

  /** One call on a context of its own. */
  method ServeOne(server: Server, i: Incoming) returns (sent: Response)
    modifies server`fired, server`afterResPool, server.afterResPool
    ensures sent == Expected(server.reject, server.handlerMap, i)
    ensures server.fired == old(server.fired) + Firings(server.cbList, Event(i.duration, Some(sent)))
    ensures forall j :: 0 <= j < |server.afterResPool| ==>
      server.afterResPool[j] in old(server.afterResPool) || fresh(server.afterResPool[j])
  {
    var c := new RequestContext();
    server.Call(c, i.name, i.admitted, i.pool, i.duration, i.pick);
    assert forall j :: 0 <= j < |server.afterResPool| ==> server.afterResPool[j] in server.afterResPool;
    assert c.View().sent == c.sent;
    sent := c.sent[0];
  }

  /** Calls one after the other on a started server. */
  method ServeAll(server: Server, calls: seq<Incoming>) returns (sent: seq<Response>)
    requires server.afterResPool == [] && server.fired == []
    modifies server`fired, server`afterResPool
    ensures |sent| == |calls|
    ensures forall k :: 0 <= k < |calls| ==> sent[k] == Expected(server.reject, server.handlerMap, calls[k])
    ensures server.fired == AllFirings(server.reject, server.handlerMap, server.cbList, calls)
  {
    sent := [];
    for k := 0 to |calls|
      invariant forall j :: 0 <= j < |server.afterResPool| ==> fresh(server.afterResPool[j])
      invariant |sent| == k
      invariant forall j :: 0 <= j < k ==> sent[j] == Expected(server.reject, server.handlerMap, calls[j])
      invariant server.fired == AllFirings(server.reject, server.handlerMap, server.cbList, calls[..k])
    {
      assert calls[..k + 1][..k] == calls[..k];
      var one := ServeOne(server, calls[k]);
      sent := sent + [one];
    }
    assert calls[..|calls|] == calls;
  }

  /**
   Any registrations, then any calls: each is answered as the registrations and its own script say, whatever the calls
   before it, and the callbacks fire for each call in turn.
   */
  method Serve(reject: bool, registrations: seq<(string, Handler)>, callbacks: seq<nat>, calls: seq<Incoming>)
    returns (sent: seq<Response>, fired: seq<Firing>)
    ensures |sent| == |calls|
    ensures forall k :: 0 <= k < |calls| ==> AnsweredBy(reject, registrations, calls[k], sent[k])
    ensures forall k :: 0 <= k < |calls| ==> sent[k] == Expected(reject, HandlersOf(registrations), calls[k])
    ensures fired == AllFirings(reject, HandlersOf(registrations), callbacks, calls)
  {
    var server := Started(reject, registrations, callbacks);
    sent := ServeAll(server, calls);
    fired := server.fired;
    forall k | 0 <= k < |calls|
      ensures AnsweredBy(reject, registrations, calls[k], sent[k])
    {
      ExpectedIsAnsweredBy(reject, registrations, calls[k]);
    }
  }

  /**
   A finished call of the concurrent server sends exactly what Server.Call sends, run by one goroutine with some
   handler and some pool outcome that the concurrent run's own history names.
   */
  lemma ConcurrentCallRefinesCall(s: State, i: nat) returns (h: Handler, pool: PoolOutcome)
    requires Reachable(s) && i < |s.calls| && CallOver(s.calls[i]) && JobOver(s.calls[i])
    ensures h == Handler(s.calls[i].replies, s.calls[i].ending)
    ensures pool == Ran || (s.calls[i].poolError.Some? && pool == NeverRan(s.calls[i].poolError.value))
    ensures
      var c := s.calls[i];
      var handlers := if c.verdict == Unregistered then map[] else map[c.name := h];
      var script := ScriptFor(!c.verdict.Refused?, handlers, c.name, pool);
      c.cell.sent == [Sequential(s.reject, c.name, script, pool.NeverRan?)]
  {
    var c := s.calls[i];
    h := Handler(c.replies, c.ending);
    RepliesExactlyOnce(s, i);
    SentIsSequential(s, i);
    pool := if c.winner == Some(ByCaller) && c.poolError.Some? then NeverRan(c.poolError.value) else Ran;
  }
}
