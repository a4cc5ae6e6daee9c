/**
 The server of the protobuf transport as a whole: messages arrive, are rejected or become calls of the concurrent
 server, and every reply that a call sends is published for the message of that call.  All calls marshal with one codec:
 a compressed body is written into a buffer of the shared pool, put back with it, and copied from there later.
 */
module Gateways {
  import opened Wrappers
  import opened Rrpc
  import opened CallProtocol
  import opened CallInvariants
  import opened CallTheorems
  import opened Compression
  import opened Wire
  import opened RpcClients
  import opened Paths
  import opened Topics
  import opened MqttPb
  import opened SharedPools

  const ERR_RETAINED: string := "[RRPC] reatain message is not allowed, please set retaind=false"

  /** A message on the subscription. */
  datatype Delivered = Delivered(topic: string, retained: bool, payload: Bytes)

  /** The bytes that a call's reply copied: from which array, its own ones, and the log from its put-back to the copy. */
  datatype Window = Window(call: nat, own: Bytes, arr: nat, from: nat, to: nat)

  /**
   A reply for a received message, and what was published for it: nothing where it did not marshal.  The window is that
   of a body that went through the shared pool.
   */
  datatype Attempt =
    Attempt(message: nat, response: Response, publication: Option<Publication>, window: Option<Window>)

  /** rejections holds the callback's own reply to each received message, and owner names the message of each call. */
  datatype Gateway = Gateway(
    server: State,
    received: seq<Delivered>,
    rejections: seq<Option<Response>>,
    owner: seq<nat>,
    attempts: seq<Attempt>,
    memory: Memory)

  function Empty(workers: nat, reject: bool): Gateway {
    Gateway(CallProtocol.Init(workers, reject), [], [], [], [], NEW_MEMORY)
  }

  /** What the callback has parsed when it replies or starts the call; a retained message is not parsed. */
  function RequestOf(libs: Libs, m: Delivered): RequestData {
    RequestData(m.topic, if m.retained then ZERO_REQUEST else Arrived(libs, m.payload).message)
  }

  /** The reply of the callback itself. */
  function Rejection(libs: Libs, m: Delivered): Option<Response> {
    if m.retained then Some(ErrorResponse(STATUS_CLIENT_ERROR, ERR_RETAINED))
    else
      match Arrived(libs, m.payload).error
      case None => None
      case Some(text) => Some(ErrorResponse(STATUS_CLIENT_ERROR, text))
  }

  /** An event is a message, an action of the server, or a step of a call inside Marshal. */
  datatype Event = Deliver(message: Delivered) | Act(action: Action) | Pack(call: nat, step: PoolStep)

  /** Reply panics in the job exactly where the handler's message does not marshal. */
  predicate SendAllowed(libs: Libs, r: RequestData, c: Call, a: Step) {
    && (a.JobSendPanics? && c.job.JobReplying? ==> BuildResponse(libs, r, c.job.res) == None)
    && (a.JobAdvance? && c.job.JobReplying? && c.job.stage == Send ==> BuildResponse(libs, r, c.job.res) != None)
  }

  /** The compressed body that a job is about to send; the other replies are errors, which have no body. */
  function Packing(libs: Libs, r: RequestData, c: Call): Option<Bytes> {
    if !(c.job.JobReplying? && c.job.stage == Send) then None
    else
      match BuildResponse(libs, r, c.job.res)
      case None => None
      case Some(data) => Encoded(libs, data.response)
  }

  predicate Owned(g: Gateway, i: nat) {
    i < |g.owner| && g.owner[i] < |g.received| && i < |g.server.calls| && i < |g.memory.users|
  }

  function RequestFor(libs: Libs, g: Gateway, i: nat): RequestData
    requires Owned(g, i)
  {
    RequestOf(libs, g.received[g.owner[i]])
  }

  /** A reply without a compressed body. */
  function PlainAttempt(libs: Libs, g: Gateway, i: nat, response: Response): Attempt
    requires Owned(g, i)
  {
    Attempt(g.owner[i], response, Replied(libs, RequestFor(libs, g, i), response), None)
  }

  /** A reply whose compressed body is copied from the shared pool now. */
  function CopiedAttempt(libs: Libs, g: Gateway, i: nat, response: Response): Option<Attempt>
    requires Owned(g, i)
  {
    var m := g.memory;
    var u := m.users[i];
    if !u.Holding? || u.arr >= |m.arrays| || |u.own| > |m.arrays[u.arr]| then None
    else
      Some(Attempt(g.owner[i], response, RepliedWith(libs, RequestFor(libs, g, i), response, Seen(m, i)),
                   Some(Window(i, u.own, u.arr, u.since, |m.log|))))
  }

  /** A step of call i, after which the server is the given one. */
  function AfterStep(libs: Libs, g: Gateway, i: nat, step: Step, server: State): Option<Gateway>
    requires Owned(g, i) && i < |server.calls|
  {
    var c, c' := g.server.calls[i], server.calls[i];
    if !SendAllowed(libs, RequestFor(libs, g, i), c, step) then None
    else if |c'.cell.sent| <= |c.cell.sent| then Some(g.(server := server))
    else if step.JobAdvance? && Packing(libs, RequestFor(libs, g, i), c).Some? then
      match CopiedAttempt(libs, g, i, c.job.res)
      case None => None
      case Some(a) =>
        Some(g.(server := server, attempts := g.attempts + [a], memory := WithUser(g.memory, i, Idle)))
    else
      Some(g.(server := server, attempts := g.attempts + [PlainAttempt(libs, g, i, c'.cell.sent[|c.cell.sent|])]))
  }

  function AfterDelivery(libs: Libs, g: Gateway, m: Delivered): Option<Gateway> {
    var g1 := g.(received := g.received + [m], rejections := g.rejections + [Rejection(libs, m)]);
    match Rejection(libs, m)
    case Some(r) =>
      Some(g1.(attempts := g.attempts + [Attempt(|g.received|, r, Replied(libs, RequestOf(libs, m), r), None)]))
    case None =>
      match Next(g.server, Arrive(RequestOf(libs, m).request.head.name))
      case None => None
      case Some(server) =>
        Some(g1.(server := server, owner := g.owner + [|g.received|], memory := Joined(g.memory)))
  }

  /** A call draws a buffer for its own body only, and copies only as part of its send. */
  predicate PackAllowed(libs: Libs, g: Gateway, i: nat, step: PoolStep) {
    && Owned(g, i) && !step.Finish?
    && (step.Draw? ==> Packing(libs, RequestFor(libs, g, i), g.server.calls[i]) == Some(step.own))
  }

  function After(libs: Libs, g: Gateway, e: Event): Option<Gateway> {
    match e
    case Deliver(m) => AfterDelivery(libs, g, m)
    case Pack(i, step) =>
      if !PackAllowed(libs, g, i, step) then None
      else (
        match StepPool(g.memory, i, step)
        case None => None
        case Some(memory) => Some(g.(memory := memory)))
    case Act(a) =>
      if a.Arrive? then None
      else
        match Next(g.server, a)
        case None => None
        case Some(server) =>
          if !a.Do? then Some(g.(server := server))
          else if !Owned(g, a.call) || a.call >= |server.calls| then None
          else AfterStep(libs, g, a.call, a.step, server)
  }

  function RunGateway(libs: Libs, g: Gateway, events: seq<Event>): Option<Gateway>
    decreases |events|
  {
    if events == [] then Some(g)
    else match After(libs, g, events[0])
      case None => None
      case Some(g') => RunGateway(libs, g', events[1..])
  }

  ghost predicate Arises(libs: Libs, g: Gateway) {
    exists events: seq<Event> ::
      RunGateway(libs, Empty(g.server.workers, g.server.reject), events) == Some(g)
  }

  // ---- Invariant -------------------------------------------------------------------------------------------------

  /** The message at m is answered by the attempt at k. */
  predicate Answers(g: Gateway, k: nat, m: nat) {
    k < |g.attempts| && g.attempts[k].message == m
  }

  /** What was computed from each message, with the libraries. */
  ghost predicate MessagesInv(libs: Libs, g: Gateway) {
    && |g.rejections| == |g.received|
    && (forall m :: 0 <= m < |g.received| ==> g.rejections[m] == Rejection(libs, g.received[m]))
    && |g.owner| == |g.server.calls| == |g.memory.users|
    && (forall i :: 0 <= i < |g.owner| ==>
          && g.owner[i] < |g.received|
          && g.server.calls[i].name == RequestOf(libs, g.received[g.owner[i]]).request.head.name)
  }

  /** What a window saw: what the writes in it made of the call's own bytes. */
  function SeenIn(g: Gateway, w: Window): Bytes
    requires w.from <= w.to <= |g.memory.log|
  {
    Overwritten(w.own, w.arr, g.memory.log[w.from..w.to])
  }

  /** A window is of a call that answers the message, and every write in it is of another call. */
  predicate WindowInv(libs: Libs, g: Gateway, a: Attempt, w: Window)
    requires a.message < |g.received|
  {
    var r := RequestOf(libs, g.received[a.message]);
    && w.call < |g.owner| && g.owner[w.call] == a.message
    && BuildResponse(libs, r, a.response).Some?
    && Encoded(libs, BuildResponse(libs, r, a.response).value.response) == Some(w.own)
    && w.from <= w.to <= |g.memory.log|
    && a.publication == RepliedWith(libs, r, a.response, SeenIn(g, w))
    && forall k :: w.from <= k < w.to ==> g.memory.log[k].user != w.call
  }

  predicate AttemptInv(libs: Libs, g: Gateway, a: Attempt) {
    && a.message < |g.received|
    && match a.window
       case None => a.publication == Replied(libs, RequestOf(libs, g.received[a.message]), a.response)
       case Some(w) => WindowInv(libs, g, a, w)
  }

  ghost predicate AttemptsInv(libs: Libs, g: Gateway) {
    forall k :: 0 <= k < |g.attempts| ==> AttemptInv(libs, g, g.attempts[k])
  }

  /** Whoever is using the pool is a job about to send that body. */
  ghost predicate MemoryInv(libs: Libs, g: Gateway) {
    && PoolInv(g.memory)
    && forall i: nat :: Owned(g, i) && g.memory.users[i] != Idle ==>
         Packing(libs, RequestFor(libs, g, i), g.server.calls[i]) == Some(g.memory.users[i].own)
  }

  /** Every message is rejected or has one call. */
  ghost predicate OwnersInv(g: Gateway) {
    && |g.owner| == |g.server.calls|
    && (forall i :: 0 <= i < |g.owner| ==> g.owner[i] < |g.rejections| && g.rejections[g.owner[i]] == None)
    && (forall i, j :: 0 <= i < j < |g.owner| ==> g.owner[i] != g.owner[j])
    && (forall m: nat :: m < |g.rejections| && g.rejections[m] == None ==> m in g.owner)
  }

  /** A message has at most one attempt, and has it exactly when it was rejected or its call has sent that response. */
  ghost predicate AnswersInv(g: Gateway)
    requires |g.owner| == |g.server.calls|
  {
    && (forall k :: 0 <= k < |g.attempts| ==> g.attempts[k].message < |g.rejections|)
    && (forall j, k :: 0 <= j < k < |g.attempts| ==> g.attempts[j].message != g.attempts[k].message)
    && (forall m: nat :: m < |g.rejections| && g.rejections[m].Some? ==> exists k: nat :: Answers(g, k, m))
    && (forall k: nat, m: nat :: Answers(g, k, m) && m < |g.rejections| && g.rejections[m].Some? ==>
          Some(g.attempts[k].response) == g.rejections[m])
    && (forall i :: 0 <= i < |g.owner| && g.server.calls[i].cell.sent != [] ==>
          exists k: nat :: Answers(g, k, g.owner[i]))
    && (forall k: nat, i :: 0 <= i < |g.owner| && Answers(g, k, g.owner[i]) ==>
          g.server.calls[i].cell.sent == [g.attempts[k].response])
  }

  ghost predicate GatewayInv(libs: Libs, g: Gateway) {
    && Reachable(g.server) && MessagesInv(libs, g) && AttemptsInv(libs, g) && MemoryInv(libs, g)
    && OwnersInv(g) && AnswersInv(g)
  }

  /** A step keeps the name of its call, and sends at most one response, and only from inside Reply. */
  lemma StepSends(c: Call, a: Step)
    requires StepCall(c, a).Some?
    ensures
      var c' := StepCall(c, a).value;
      && c'.name == c.name
      && (c'.cell.sent == c.cell.sent || exists r :: c'.cell.sent == c.cell.sent + [r])
  {
    var c' := StepCall(c, a).value;
    match a {
      case JobAdvance => assert c'.cell.sent == c.cell.sent || c'.cell.sent == c.cell.sent + [c.job.res];
      case CallerAdvance => assert c'.cell.sent == c.cell.sent || c'.cell.sent == c.cell.sent + [c.caller.res];
      case JobSendPanics(_) => assert c'.cell.sent == c.cell.sent + [c.job.res];
      case _ =>
    }
  }

  lemma RejectionKeepsOwners(g: Gateway, g': Gateway, r: Response)
    requires OwnersInv(g) && g'.rejections == g.rejections + [Some(r)]
    requires g'.server == g.server && g'.owner == g.owner
    ensures OwnersInv(g')
  {
  }

  /** A rejected message with its attempt. */
  lemma RejectionKeepsAnswers(g: Gateway, g': Gateway, a: Attempt)
    requires |g.owner| == |g.server.calls| && AnswersInv(g)
    requires forall i :: 0 <= i < |g.owner| ==> g.owner[i] < |g.rejections|
    requires a.message == |g.rejections| && g'.rejections == g.rejections + [Some(a.response)]
    requires g'.server == g.server && g'.owner == g.owner && g'.attempts == g.attempts + [a]
    ensures AnswersInv(g')
  {
    assert Answers(g', |g.attempts|, a.message);
    assert forall k: nat, n: nat :: Answers(g', k, n) <==> Answers(g, k, n) || (k == |g.attempts| && n == a.message);
    forall m: nat | m < |g'.rejections| && g'.rejections[m].Some?
      ensures exists k: nat :: Answers(g', k, m)
    {
      if m < |g.rejections| {
        var k: nat :| Answers(g, k, m);
        assert Answers(g', k, m);
      }
    }
    forall i | 0 <= i < |g'.owner| && g'.server.calls[i].cell.sent != []
      ensures exists k: nat :: Answers(g', k, g'.owner[i])
    {
      var k: nat :| Answers(g, k, g.owner[i]);
      assert Answers(g', k, g'.owner[i]);
    }
  }

  /** A message that becomes a call. */
  lemma AcceptanceKeepsOwners(g: Gateway, g': Gateway, c: Call)
    requires OwnersInv(g)
    requires g'.rejections == g.rejections + [None] && g'.owner == g.owner + [|g.rejections|]
    requires g'.server.calls == g.server.calls + [c]
    ensures OwnersInv(g')
  {
    assert g'.owner[|g.owner|] == |g.rejections|;
    assert forall n: nat :: n in g.owner ==> n in g'.owner;
  }

  lemma AcceptanceKeepsAnswers(g: Gateway, g': Gateway, c: Call)
    requires |g.owner| == |g.server.calls| && AnswersInv(g) && c.cell.sent == []
    requires forall i :: 0 <= i < |g.owner| ==> g.owner[i] < |g.rejections|
    requires g'.rejections == g.rejections + [None] && g'.owner == g.owner + [|g.rejections|]
    requires g'.server.calls == g.server.calls + [c] && g'.attempts == g.attempts
    ensures AnswersInv(g')
  {
    assert forall k: nat, n: nat :: Answers(g, k, n) <==> Answers(g', k, n);
    forall m: nat | m < |g'.rejections| && g'.rejections[m].Some?
      ensures exists k: nat :: Answers(g', k, m)
    {
      assert g.rejections[m].Some?;
      var k: nat :| Answers(g, k, m);
      assert Answers(g', k, m);
    }
    forall i | 0 <= i < |g'.owner| && g'.server.calls[i].cell.sent != []
      ensures exists k: nat :: Answers(g', k, g'.owner[i])
    {
      var k: nat :| Answers(g, k, g.owner[i]);
      assert Answers(g', k, g'.owner[i]);
    }
    forall k: nat, i | 0 <= i < |g'.owner| && Answers(g', k, g'.owner[i])
      ensures g'.server.calls[i].cell.sent == [g'.attempts[k].response]
    {
      assert g'.attempts[k].message < |g.rejections|;
      assert Answers(g, k, g.owner[i]);
    }
  }

  /** Steps that send nothing. */
  lemma SilenceKept(g: Gateway, g': Gateway)
    requires OwnersInv(g) && AnswersInv(g)
    requires g'.rejections == g.rejections && g'.owner == g.owner && g'.attempts == g.attempts
    requires |g'.server.calls| == |g.server.calls|
    requires forall i :: 0 <= i < |g.server.calls| ==> g'.server.calls[i].cell.sent == g.server.calls[i].cell.sent
    ensures OwnersInv(g') && AnswersInv(g')
  {
    assert forall k: nat, n: nat :: Answers(g, k, n) <==> Answers(g', k, n);
  }

  /** Call i sends its one response. */
  lemma SendKept(g: Gateway, g': Gateway, i: nat, a: Attempt)
    requires OwnersInv(g) && AnswersInv(g) && i < |g.owner|
    requires g'.rejections == g.rejections && g'.owner == g.owner && g'.attempts == g.attempts + [a]
    requires |g'.server.calls| == |g.server.calls|
    requires forall j :: 0 <= j < |g.server.calls| && j != i ==>
      g'.server.calls[j].cell.sent == g.server.calls[j].cell.sent
    requires g.server.calls[i].cell.sent == [] && g'.server.calls[i].cell.sent == [a.response]
    requires a.message == g.owner[i]
    ensures OwnersInv(g') && AnswersInv(g')
  {
    assert forall k: nat :: !Answers(g, k, g.owner[i]);
    SendKeepsAnswers(g, g', i, a);
  }

  lemma SendKeepsAnswers(g: Gateway, g': Gateway, i: nat, a: Attempt)
    requires |g.owner| == |g.server.calls| == |g'.server.calls| && AnswersInv(g) && i < |g.owner|
    requires forall j, k :: 0 <= j < k < |g.owner| ==> g.owner[j] != g.owner[k]
    requires g.owner[i] < |g.rejections| && g.rejections[g.owner[i]] == None
    requires g'.rejections == g.rejections && g'.owner == g.owner && g'.attempts == g.attempts + [a]
    requires forall j :: 0 <= j < |g.owner| && j != i ==>
      g'.server.calls[j].cell.sent == g.server.calls[j].cell.sent
    requires g'.server.calls[i].cell.sent == [a.response] && a.message == g.owner[i]
    requires forall k: nat :: !Answers(g, k, g.owner[i])
    ensures AnswersInv(g')
  {
    assert Answers(g', |g.attempts|, g.owner[i]);
    assert forall k: nat, n: nat :: Answers(g', k, n) <==> Answers(g, k, n) || (k == |g.attempts| && n == a.message);
  }

  /** An attempt stays what it is while messages, calls and the log grow. */
  lemma AttemptStays(libs: Libs, g: Gateway, g': Gateway, a: Attempt)
    requires AttemptInv(libs, g, a)
    requires g.received <= g'.received && g.owner <= g'.owner && g.memory.log <= g'.memory.log
    ensures AttemptInv(libs, g', a)
  {
    if a.window.Some? {
      var w := a.window.value;
      assert g'.memory.log[w.from..w.to] == g.memory.log[w.from..w.to];
    }
  }

  /** Earlier attempts stay, and at most one more comes. */
  lemma AttemptsKept(libs: Libs, g: Gateway, g': Gateway, added: seq<Attempt>)
    requires AttemptsInv(libs, g) && g'.attempts == g.attempts + added
    requires g.received <= g'.received && g.owner <= g'.owner && g.memory.log <= g'.memory.log
    requires forall k :: 0 <= k < |added| ==> AttemptInv(libs, g', added[k])
    ensures AttemptsInv(libs, g')
  {
    forall k | 0 <= k < |g'.attempts|
      ensures AttemptInv(libs, g', g'.attempts[k])
    {
      if k < |g.attempts| {
        AttemptStays(libs, g, g', g.attempts[k]);
      }
    }
  }

  lemma RejectKeepsInv(libs: Libs, g: Gateway, m: Delivered)
    requires GatewayInv(libs, g) && Rejection(libs, m).Some?
    ensures After(libs, g, Deliver(m)).Some? && GatewayInv(libs, After(libs, g, Deliver(m)).value)
  {
    var g' := After(libs, g, Deliver(m)).value;
    var r := Rejection(libs, m).value;
    var a := Attempt(|g.received|, r, Replied(libs, RequestOf(libs, m), r), None);
    assert g' == g.(received := g.received + [m], rejections := g.rejections + [Some(r)], attempts := g.attempts + [a]);
    RejectionKeepsMessages(libs, g, m, a);
    RejectionKeepsOwners(g, g', r);
    RejectionKeepsAnswers(g, g', a);
    AttemptsKept(libs, g, g', [a]);
  }

  /** A rejected message starts no call and touches no buffer. */
  lemma RejectionKeepsMessages(libs: Libs, g: Gateway, m: Delivered, a: Attempt)
    requires MessagesInv(libs, g) && MemoryInv(libs, g) && Rejection(libs, m) == Some(a.response)
    ensures
      var g' := g.(received := g.received + [m], rejections := g.rejections + [Some(a.response)],
                   attempts := g.attempts + [a]);
      MessagesInv(libs, g') && MemoryInv(libs, g')
  {
    var g' := g.(received := g.received + [m], rejections := g.rejections + [Some(a.response)],
                 attempts := g.attempts + [a]);
    forall i: nat | Owned(g', i) && g'.memory.users[i] != Idle
      ensures Packing(libs, RequestFor(libs, g', i), g'.server.calls[i]) == Some(g'.memory.users[i].own)
    {
      assert Owned(g, i);
    }
  }

  lemma AcceptKeepsInv(libs: Libs, g: Gateway, m: Delivered)
    requires GatewayInv(libs, g) && Rejection(libs, m) == None
    ensures After(libs, g, Deliver(m)).Some? && GatewayInv(libs, After(libs, g, Deliver(m)).value)
  {
    var g' := After(libs, g, Deliver(m)).value;
    var name := RequestOf(libs, m).request.head.name;
    var server := ReachableNext(g.server, Arrive(name));
    assert g' == g.(server := server, received := g.received + [m], rejections := g.rejections + [None],
                    owner := g.owner + [|g.received|], memory := Joined(g.memory));
    AcceptanceKeepsMessages(libs, g, g', m, NewCall(name));
    AcceptanceKeepsOwners(g, g', NewCall(name));
    AcceptanceKeepsAnswers(g, g', NewCall(name));
    AttemptsKept(libs, g, g', []);
    AcceptanceKeepsMemory(libs, g, g');
  }

  lemma AcceptanceKeepsMessages(libs: Libs, g: Gateway, g': Gateway, m: Delivered, c: Call)
    requires MessagesInv(libs, g) && Rejection(libs, m) == None && c.name == RequestOf(libs, m).request.head.name
    requires g'.received == g.received + [m] && g'.rejections == g.rejections + [None]
    requires g'.owner == g.owner + [|g.received|] && g'.server.calls == g.server.calls + [c]
    requires g'.memory == Joined(g.memory)
    ensures MessagesInv(libs, g')
  {
  }

  /** A new call uses no buffer. */
  lemma AcceptanceKeepsMemory(libs: Libs, g: Gateway, g': Gateway)
    requires MessagesInv(libs, g) && MemoryInv(libs, g) && g'.memory == Joined(g.memory)
    requires g.received <= g'.received && g.owner <= g'.owner && g.server.calls <= g'.server.calls
    ensures MemoryInv(libs, g')
  {
    JoinKeepsPoolInv(g.memory);
    forall i: nat | Owned(g', i) && g'.memory.users[i] != Idle
      ensures Packing(libs, RequestFor(libs, g', i), g'.server.calls[i]) == Some(g'.memory.users[i].own)
    {
      assert Owned(g, i);
    }
  }

  lemma DeliverKeepsInv(libs: Libs, g: Gateway, m: Delivered)
    requires GatewayInv(libs, g)
    ensures After(libs, g, Deliver(m)).Some? && GatewayInv(libs, After(libs, g, Deliver(m)).value)
  {
    if Rejection(libs, m).Some? {
      RejectKeepsInv(libs, g, m);
    } else {
      AcceptKeepsInv(libs, g, m);
    }
  }

  /** A step inside Marshal touches the memory only, and one user of it. */
  lemma PackKeepsMemory(libs: Libs, g: Gateway, i: nat, step: PoolStep, memory: Memory)
    requires MemoryInv(libs, g) && PackAllowed(libs, g, i, step) && StepPool(g.memory, i, step) == Some(memory)
    ensures MemoryInv(libs, g.(memory := memory)) && g.memory.log <= memory.log && |memory.users| == |g.memory.users|
  {
    StepKeepsPoolInv(g.memory, i, step);
    StepFrame(g.memory, i, step);
    var g' := g.(memory := memory);
    forall j: nat | Owned(g', j) && g'.memory.users[j] != Idle
      ensures Packing(libs, RequestFor(libs, g', j), g'.server.calls[j]) == Some(g'.memory.users[j].own)
    {
      assert Owned(g, j);
    }
  }

  lemma PackKeepsInv(libs: Libs, g: Gateway, i: nat, step: PoolStep)
    requires GatewayInv(libs, g) && After(libs, g, Pack(i, step)).Some?
    ensures GatewayInv(libs, After(libs, g, Pack(i, step)).value)
  {
    var memory := StepPool(g.memory, i, step).value;
    var g' := g.(memory := memory);
    assert After(libs, g, Pack(i, step)) == Some(g');
    PackKeepsMemory(libs, g, i, step, memory);
    AttemptsKept(libs, g, g', []);
    SilenceKept(g, g');
  }

  /** A job that is about to send stays there until it sends. */
  lemma SendingJobStays(s: State, i: nat, a: Step)
    requires Reachable(s) && i < |s.calls| && StepCall(s.calls[i], a).Some?
    requires s.calls[i].job.JobReplying? && s.calls[i].job.stage == Send
    ensures a.JobAdvance? || a.JobSendPanics? || StepCall(s.calls[i], a).value.job == s.calls[i].job
    ensures a.JobAdvance? ==> StepCall(s.calls[i], a).value.cell.sent == s.calls[i].cell.sent + [s.calls[i].job.res]
  {
    ReachableInv(s);
    assert CallInv(s.calls[i]);
    match a {
      case JobAdvance =>
      case CallerAdvance =>
      case _ =>
    }
  }

  /** A job in the pool is still there after any step but the one that copies. */
  lemma PackingStays(libs: Libs, r: RequestData, s: State, i: nat, a: Step, c: Call)
    requires Reachable(s) && i < |s.calls| && StepCall(s.calls[i], a) == Some(c)
    requires Packing(libs, r, s.calls[i]).Some? && SendAllowed(libs, r, s.calls[i], a) && !a.JobAdvance?
    ensures Packing(libs, r, c) == Packing(libs, r, s.calls[i])
  {
    SendingJobStays(s, i, a);
  }

  /** A step of call i leaves every other user of the pool alone, and call i uses none after its send. */
  lemma StepKeepsMemory(libs: Libs, g: Gateway, i: nat, step: Step, server: State, c: Call)
    requires Reachable(g.server) && MemoryInv(libs, g) && Owned(g, i)
    requires StepCall(g.server.calls[i], step) == Some(c) && server.calls == g.server.calls[i := c]
    requires AfterStep(libs, g, i, step, server).Some?
    ensures MemoryInv(libs, AfterStep(libs, g, i, step, server).value)
  {
    var g' := AfterStep(libs, g, i, step, server).value;
    if g'.memory != g.memory {
      FinishKeepsInv(g.memory, i);
    }
    if g'.memory.users[i] != Idle {
      if step.JobAdvance? {
        SendingJobStays(g.server, i, step);
      } else {
        PackingStays(libs, RequestFor(libs, g, i), g.server, i, step, c);
      }
    }
    forall j: nat | Owned(g', j) && g'.memory.users[j] != Idle
      ensures Packing(libs, RequestFor(libs, g', j), g'.server.calls[j]) == Some(g'.memory.users[j].own)
    {
      assert Owned(g, j);
    }
  }

  /** What a call copies makes an attempt that says so. */
  lemma CopiedAttemptInv(libs: Libs, g: Gateway, g': Gateway, i: nat)
    requires GatewayInv(libs, g) && Owned(g, i) && g'.received == g.received && g'.owner == g.owner
    requires g'.memory.log == g.memory.log
    requires Packing(libs, RequestFor(libs, g, i), g.server.calls[i]).Some?
    requires CopiedAttempt(libs, g, i, g.server.calls[i].job.res).Some?
    ensures AttemptInv(libs, g', CopiedAttempt(libs, g, i, g.server.calls[i].job.res).value)
  {
    CopyIsOwnExactlyWhenIntact(g.memory, i);
    var log := g.memory.log;
    var u := g.memory.users[i];
    assert log[u.since..] == log[u.since..|log|];
  }

  lemma StepKeepsMessages(libs: Libs, g: Gateway, i: nat, step: Step, server: State)
    requires MessagesInv(libs, g) && Owned(g, i) && Next(g.server, Do(i, step)) == Some(server)
    requires AfterStep(libs, g, i, step, server).Some?
    ensures MessagesInv(libs, AfterStep(libs, g, i, step, server).value)
  {
    var c, _ := DoEffect(g.server, i, step);
    StepSends(g.server.calls[i], step);
  }

  lemma SilentStepKeepsInv(libs: Libs, g: Gateway, i: nat, server: State, c: Call)
    requires AttemptsInv(libs, g) && OwnersInv(g) && AnswersInv(g) && i < |g.server.calls|
    requires server.calls == g.server.calls[i := c] && c.cell.sent == g.server.calls[i].cell.sent
    ensures var g' := g.(server := server); AttemptsInv(libs, g') && OwnersInv(g') && AnswersInv(g')
  {
    AttemptsKept(libs, g, g.(server := server), []);
    SilenceKept(g, g.(server := server));
  }

  /** A step of call i of the server, and what it means for the messages. */
  lemma DoKeepsInv(libs: Libs, g: Gateway, i: nat, step: Step)
    requires GatewayInv(libs, g) && After(libs, g, Act(Do(i, step))).Some?
    ensures GatewayInv(libs, After(libs, g, Act(Do(i, step))).value)
  {
    var g' := After(libs, g, Act(Do(i, step))).value;
    var server := ReachableNext(g.server, Do(i, step));
    assert AfterStep(libs, g, i, step, server) == Some(g');
    var c, _ := DoEffect(g.server, i, step);
    StepSends(g.server.calls[i], step);
    StepKeepsMemory(libs, g, i, step, server, c);
    StepKeepsMessages(libs, g, i, step, server);
    if c.cell.sent == g.server.calls[i].cell.sent {
      SilentStepKeepsInv(libs, g, i, server, c);
    } else {
      SendKeepsInv(libs, g, g', i, step, server, c);
    }
  }

  lemma SendKeepsInv(libs: Libs, g: Gateway, g': Gateway, i: nat, step: Step, server: State, c: Call)
    requires GatewayInv(libs, g) && Owned(g, i) && Reachable(server)
    requires StepCall(g.server.calls[i], step) == Some(c)
    requires server.calls == g.server.calls[i := c]
    requires c.cell.sent != g.server.calls[i].cell.sent
    requires AfterStep(libs, g, i, step, server) == Some(g')
    ensures AttemptsInv(libs, g') && OwnersInv(g') && AnswersInv(g')
  {
    StepSends(g.server.calls[i], step);
    RepliesAtMostOnce(server, i);
    var a := g'.attempts[|g.attempts|];
    if step.JobAdvance? && Packing(libs, RequestFor(libs, g, i), g.server.calls[i]).Some? {
      SendingJobStays(g.server, i, step);
      CopiedAttemptInv(libs, g, g', i);
    }
    assert g'.attempts == g.attempts + [a];
    AttemptsKept(libs, g, g', [a]);
    SendKept(g, g', i, a);
  }

  lemma ActKeepsInv(libs: Libs, g: Gateway, a: Action)
    requires GatewayInv(libs, g) && After(libs, g, Act(a)).Some?
    ensures GatewayInv(libs, After(libs, g, Act(a)).value)
  {
    if a.Do? {
      DoKeepsInv(libs, g, a.call, a.step);
    } else {
      var g' := After(libs, g, Act(a)).value;
      var server := ReachableNext(g.server, a);
      AttemptsKept(libs, g, g', []);
      SilenceKept(g, g');
      assert forall i: nat :: Owned(g', i) ==> Owned(g, i);
    }
  }

  lemma {:induction false} RunKeepsGatewayInv(libs: Libs, g: Gateway, events: seq<Event>)
    requires GatewayInv(libs, g) && RunGateway(libs, g, events).Some?
    ensures GatewayInv(libs, RunGateway(libs, g, events).value)
    decreases |events|
  {
    if events != [] {
      match events[0] {
        case Deliver(m) => DeliverKeepsInv(libs, g, m);
        case Act(a) => ActKeepsInv(libs, g, a);
        case Pack(i, step) => PackKeepsInv(libs, g, i, step);
      }
      RunKeepsGatewayInv(libs, After(libs, g, events[0]).value, events[1..]);
    }
  }

  lemma ArisesInv(libs: Libs, g: Gateway)
    requires Arises(libs, g)
    ensures GatewayInv(libs, g)
  {
    var start := Empty(g.server.workers, g.server.reject);
    var events: seq<Event> :| RunGateway(libs, start, events) == Some(g);
    InitReachable(g.server.workers, g.server.reject);
    RunKeepsGatewayInv(libs, start, events);
  }

  // ---- What is published -----------------------------------------------------------------------------------------

  /** What other calls wrote to the array between the put-back and the copy has left the call's own bytes as they are. */
  ghost predicate Intact(libs: Libs, g: Gateway, k: nat)
    requires Arises(libs, g) && k < |g.attempts|
  {
    ArisesInv(libs, g);
    assert AttemptInv(libs, g, g.attempts[k]);
    match g.attempts[k].window
    case None => true
    case Some(w) => Overwritten(w.own, w.arr, g.memory.log[w.from..w.to]) == w.own
  }

  /** Nobody has written to the array meanwhile. */
  ghost predicate Undisturbed(g: Gateway, k: nat)
    requires k < |g.attempts|
  {
    match g.attempts[k].window
    case None => true
    case Some(w) => forall j :: w.from <= j < w.to && j < |g.memory.log| ==> g.memory.log[j].arr != w.arr
  }

  /**
   All calls share one codec, and what a call publishes is its own response exactly when the writes of other calls to the
   array it copies, between its compression and its copy, leave its bytes as they were.  That nobody drew the buffer is
   enough.
   */
  lemma PublishedIsOwnExactlyWhenIntact(libs: Libs, g: Gateway, k: nat)
    requires LibsLawful(libs) && Arises(libs, g) && k < |g.attempts|
    ensures g.attempts[k].message < |g.received|
    ensures
      var a := g.attempts[k];
      var own := Replied(libs, RequestOf(libs, g.received[a.message]), a.response);
      && (Intact(libs, g, k) ==> a.publication == own)
      && (a.publication.Some? && a.publication == own ==> Intact(libs, g, k))
      && (Undisturbed(g, k) ==> Intact(libs, g, k))
    ensures g.attempts[k].window.Some? ==>
      var w := g.attempts[k].window.value;
      && w.call < |g.owner| && g.owner[w.call] == g.attempts[k].message && w.from <= w.to <= |g.memory.log|
      && forall j :: w.from <= j < w.to ==> g.memory.log[j].user != w.call
  {
    ArisesInv(libs, g);
    var a := g.attempts[k];
    assert AttemptInv(libs, g, a);
    if a.window.Some? {
      var w := a.window.value;
      OwnExactlyWithOwnBytes(libs, RequestOf(libs, g.received[a.message]), a.response, w.own, SeenIn(g, w));
      if Undisturbed(g, k) {
        UntouchedIsIntact(w.own, w.arr, g.memory.log[w.from..w.to]);
      }
    }
  }

  // ---- Correlation -----------------------------------------------------------------------------------------------

  /**
   Everything published answers a received message of its own: on that message's reply topic, with the id parsed from
   that message, 0 where it was retained, with the status and error text of its own response, and no two publications
   answer the same message.  Only the body needs the call's marshalling to have been left intact.
   */
  lemma PublicationsCorrelate(libs: Libs, g: Gateway, k: nat)
    requires LibsLawful(libs) && Arises(libs, g) && k < |g.attempts| && g.attempts[k].publication.Some?
    ensures
      var a := g.attempts[k];
      && a.message < |g.received|
      && var m := g.received[a.message];
         var got := Unmarshalled(libs.alg, libs.response, a.publication.value.payload);
         && a.publication.value.topic == ReplyTopic(m.topic)
         && got.message.head.id == RequestOf(libs, m).request.head.id
         && (m.retained ==> got.message.head.id == 0 && got.message.head.status == 400)
         && (!m.retained && Arrived(libs, m.payload).error.Some? ==>
               got.message.head.status == 400 && Some(got.message.head.errorMessage) == Arrived(libs, m.payload).error)
         && got.message.head.errorMessage == (if a.response.error.Some? then a.response.error.value else "")
         && (Intact(libs, g, k) || a.response.error.Some? ==> got.error == None)
    ensures forall j :: 0 <= j < |g.attempts| && j != k ==> g.attempts[j].message != g.attempts[k].message
  {
    ArisesInv(libs, g);
    var a := g.attempts[k];
    assert AttemptInv(libs, g, a);
    var r := RequestOf(libs, g.received[a.message]);
    assert g.rejections[a.message].Some? ==> Answers(g, k, a.message);
    PublishedIsOwnExactlyWhenIntact(libs, g, k);
    if Intact(libs, g, k) {
      PublicationCarriesTheResponse(libs, r, a.response);
    } else {
      PublicationWithBytes(libs, r, a.response, SeenIn(g, a.window.value));
    }
  }

  /**
   A job whose result does not marshal panics in the middle of its reply: it cannot go on, and nothing is published.  Any
   other job never panics there.
   */
  lemma UnmarshallableResultPanics(libs: Libs, g: Gateway, i: nat, detail: string)
    requires Arises(libs, g) && Owned(g, i)
    requires g.server.calls[i].job.JobReplying? && g.server.calls[i].job.stage == Send
    ensures
      var none := BuildResponse(libs, RequestFor(libs, g, i), g.server.calls[i].job.res) == None;
      var panics := After(libs, g, Act(Do(i, JobSendPanics(detail))));
      && (panics.Some? <==> none)
      && (none ==>
            && After(libs, g, Act(Do(i, JobAdvance))) == None
            && |panics.value.attempts| == |g.attempts| + 1
            && panics.value.attempts[|g.attempts|].publication == None
            && panics.value.server.calls[i].ending == Panicked(detail))
  {
    var c := g.server.calls[i];
    var r := RequestFor(libs, g, i);
    UnmarshallableResult(libs, r, c.job.res);
    if BuildResponse(libs, r, c.job.res) == None {
      assert StepCall(c, JobSendPanics(detail)).Some? && Permitted(g.server, i, JobSendPanics(detail));
      assert |g.server.calls[i].cell.sent| < |StepCall(c, JobSendPanics(detail)).value.cell.sent|;
    }
  }

  // ---- Which messages become calls -------------------------------------------------------------------------------

  /** Why the callback answers a message itself, by the parser and the decoder of the message's own encoding. */
  function Refusal(libs: Libs, m: Delivered): Option<string> {
    if m.retained then Some("[RRPC] reatain message is not allowed, please set retaind=false")
    else FailureOf(libs.alg, libs.request, m.payload)
  }

  /** The call that a message became, by its index. */
  predicate CallOf(g: Gateway, i: nat, m: nat) {
    i < |g.owner| && i < |g.server.calls| && g.owner[i] == m
  }

  /**
   Every received message that is retained, does not parse, or does not decompress starts no call and is answered with
   status 400 and that reason; every other one becomes exactly one call, of the method that the parser found.
   */
  lemma MessagesBecomeCallsOrAreRefused(libs: Libs, g: Gateway, m: nat)
    requires LibsLawful(libs) && Arises(libs, g) && m < |g.received|
    ensures Refusal(libs, g.received[m]).Some? ==>
      && (forall i: nat :: !CallOf(g, i, m))
      && exists k: nat :: Answers(g, k, m)
           && g.attempts[k].response == Response(Nil, Refusal(libs, g.received[m]), 400)
           && (g.attempts[k].publication.Some? ==>
                 var got := libs.response.unmarshal(g.attempts[k].publication.value.payload);
                 && got.error == None && got.message.head.status == 400
                 && Some(got.message.head.errorMessage) == Refusal(libs, g.received[m]))
    ensures Refusal(libs, g.received[m]) == None ==>
      exists i: nat :: CallOf(g, i, m)
        && g.server.calls[i].name == libs.request.unmarshal(g.received[m].payload).message.head.name
        && forall j: nat :: CallOf(g, j, m) ==> j == i
  {
    ArisesInv(libs, g);
    UnmarshalFailsExactly(libs.alg, libs.request, g.received[m].payload);
    assert g.rejections[m] == Rejection(libs, g.received[m]);
    if Refusal(libs, g.received[m]).Some? {
      var k := RefusalIsAnswered(libs, g, m);
      assert Answers(g, k, m);
    } else {
      var i :| 0 <= i < |g.owner| && g.owner[i] == m;
      assert CallOf(g, i, m);
    }
  }

  lemma RefusalIsAnswered(libs: Libs, g: Gateway, m: nat) returns (k: nat)
    requires LibsLawful(libs) && Arises(libs, g) && m < |g.received| && Refusal(libs, g.received[m]).Some?
    ensures Answers(g, k, m) && g.attempts[k].response == Response(Nil, Refusal(libs, g.received[m]), 400)
    ensures g.attempts[k].publication.Some? ==>
      var got := libs.response.unmarshal(g.attempts[k].publication.value.payload);
      && got.error == None && got.message.head.status == 400
      && Some(got.message.head.errorMessage) == Refusal(libs, g.received[m])
  {
    ArisesInv(libs, g);
    UnmarshalFailsExactly(libs.alg, libs.request, g.received[m].payload);
    assert g.rejections[m] == Rejection(libs, g.received[m]);
    k :| Answers(g, k, m);
    assert AttemptInv(libs, g, g.attempts[k]);
  }

  // ---- Conservation ----------------------------------------------------------------------------------------------

  ghost predicate AllOver(g: Gateway) {
    forall i :: 0 <= i < |g.server.calls| ==> CallOver(g.server.calls[i]) && JobOver(g.server.calls[i])
  }

  function Published(attempts: seq<Attempt>): seq<Publication>
    decreases |attempts|
  {
    if attempts == [] then []
    else
      Published(attempts[..|attempts| - 1]) +
      match attempts[|attempts| - 1].publication case Some(p) => [p] case None => []
  }

  lemma {:induction false} PublishedCount(attempts: seq<Attempt>)
    ensures |Published(attempts)| <= |attempts|
    ensures |Published(attempts)| == |attempts|
      <==> forall k :: 0 <= k < |attempts| ==> attempts[k].publication.Some?
    decreases |attempts|
  {
    if attempts != [] {
      PublishedCount(attempts[..|attempts| - 1]);
    }
  }

  ghost function Below(n: nat): (s: set<nat>)
    ensures (forall k: nat :: k in s <==> k < n) && |s| == n
  {
    if n == 0 then {} else Below(n - 1) + {n - 1}
  }

  ghost function AttemptFor(g: Gateway, m: nat): nat {
    if k: nat :| Answers(g, k, m) then k else 0
  }

  /** Once every call and job is over, every message has its attempt. */
  lemma EveryMessageIsAnswered(libs: Libs, g: Gateway, m: nat)
    requires Arises(libs, g) && AllOver(g) && m < |g.received|
    ensures exists k: nat :: Answers(g, k, m)
  {
    ArisesInv(libs, g);
    if g.rejections[m] == None {
      var i :| 0 <= i < |g.owner| && g.owner[i] == m;
      RepliesExactlyOnce(g.server, i);
    }
  }

  lemma AttemptsBelowMessages(g: Gateway)
    requires |g.owner| == |g.server.calls| && AnswersInv(g)
    ensures |g.attempts| <= |g.rejections|
  {
    ghost var image := (k: nat) => if k < |g.attempts| then g.attempts[k].message else 0;
    InjectionBound(Below(|g.attempts|), image, |g.rejections|);
  }

  lemma MessagesBelowAttempts(g: Gateway, messages: nat)
    requires forall m: nat :: m < messages ==> Answers(g, AttemptFor(g, m), m)
    ensures messages <= |g.attempts|
  {
    ghost var image := (m: nat) => AttemptFor(g, m);
    assert forall m: nat :: m < messages ==> Answers(g, image(m), m);
    InjectionBound(Below(messages), image, |g.attempts|);
  }

  lemma AttemptsEqualMessages(libs: Libs, g: Gateway)
    requires Arises(libs, g) && AllOver(g)
    ensures |g.attempts| == |g.received|
  {
    ArisesInv(libs, g);
    AttemptsBelowMessages(g);
    forall m: nat | m < |g.received|
      ensures Answers(g, AttemptFor(g, m), m)
    {
      EveryMessageIsAnswered(libs, g, m);
    }
    MessagesBelowAttempts(g, |g.received|);
  }

  /**
   Once every call and job is over, as many messages were published as received, across the retained ones, those that
   did not parse and those that became calls, exactly when every response marshalled.
   */
  lemma PublishesEqualMessages(libs: Libs, g: Gateway)
    requires Arises(libs, g) && AllOver(g)
    ensures |Published(g.attempts)| <= |g.received|
    ensures |Published(g.attempts)| == |g.received|
      <==> forall k :: 0 <= k < |g.attempts| ==> g.attempts[k].publication.Some?
  {
    AttemptsEqualMessages(libs, g);
    PublishedCount(g.attempts);
  }

  // ---- From the client's Call through the concurrent server and back ---------------------------------------------

  lemma AttemptIsSequential(libs: Libs, g: Gateway, k: nat) returns (i: nat, callerFirst: bool)
    requires Arises(libs, g) && k < |g.attempts|
    requires g.attempts[k].message < |g.rejections| && g.rejections[g.attempts[k].message] == None
    ensures CallOf(g, i, g.attempts[k].message)
    ensures g.attempts[k].response
      == Sequential(g.server.reject, g.server.calls[i].name, ScriptOf(g.server.calls[i]), callerFirst)
  {
    ArisesInv(libs, g);
    i :| 0 <= i < |g.owner| && g.owner[i] == g.attempts[k].message;
    assert Answers(g, k, g.owner[i]);
    SentIsSequential(g.server, i);
    callerFirst := g.server.calls[i].winner == Some(ByCaller);
  }

  /**
   A client's request among any others, in any interleaving of any calls: whatever is published for it goes to the topic
   on which that client waits, and where its marshalling was left intact, its Call then returns the outcome of one
   sequential execution of its own method.
   */
  lemma ClientGetsASequentialOutcome(libs: Libs, g: Gateway, k: nat, calls: seq<CallInput>, c: CallInput,
                                     prefix: string, device: string, id: string, reply: Message)
    returns (i: nat, callerFirst: bool)
    requires LibsLawful(libs) && Arises(libs, g) && k < |g.attempts| && g.attempts[k].publication.Some?
    requires Plain(id) && !Occurs(Base(prefix, device), REQUEST)
    requires c.reply == GoValue.Proto(reply) && CallOnce(libs, AfterCalls(libs, calls), c).1.sent.Ok?
    requires g.attempts[k].message < |g.received|
    requires g.received[g.attempts[k].message]
      == Delivered(ClientTopic(prefix, device, REQUEST, id), false,
                   CallOnce(libs, AfterCalls(libs, calls), c).1.sent.value)
    requires Reportable(g.attempts[k].response) && Intact(libs, g, k)
    ensures CallOf(g, i, g.attempts[k].message) && g.server.calls[i].name == c.name
    ensures
      var p := g.attempts[k].publication.value;
      var r := Sequential(g.server.reject, c.name, ScriptOf(g.server.calls[i]), callerFirst);
      var t := CallOnce(libs, AfterCalls(libs, calls), c.(incoming := Some(p.payload))).1;
      && p.topic == ClientTopic(prefix, device, RESPONSE, id)
      && t.error == ClientSees(libs, r, reply).0
      && t.reply == GoValue.Proto(ClientSees(libs, r, reply).1)
  {
    ArisesInv(libs, g);
    var m := g.received[g.attempts[k].message];
    HandlerBindsTheArgument(libs, calls, c, m.topic, c.args);
    assert Rejection(libs, m) == None;
    PublishedIsOwnExactlyWhenIntact(libs, g, k);
    i, callerFirst := AttemptIsSequential(libs, g, k);
    WholeExchange(libs, calls, c, prefix, device, id, g.attempts[k].response, reply);
  }
}
