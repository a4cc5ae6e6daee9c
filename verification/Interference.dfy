/**
 When calls of one server can interfere through the shared codec, and when they cannot: with one worker, with a plain
 encoding, or with an error, never; else some run publishes another call's body, through the buffer that both drew.
 */
module Interferences {
  import opened Wrappers
  import opened Rrpc
  import opened CallProtocol
  import opened CallInvariants
  import opened CallTheorems
  import opened Compression
  import opened Buffers
  import opened SharedPools
  import opened Wire
  import opened RpcClients
  import opened MqttPb
  import opened Gateways

  lemma {:induction false} GatewayAppend(libs: Libs, g: Gateway, events: seq<Gateways.Event>, e: Gateways.Event)
    requires RunGateway(libs, g, events).Some?
    ensures RunGateway(libs, g, events + [e]) == After(libs, RunGateway(libs, g, events).value, e)
    decreases |events|
  {
    if events == [] {
      assert [e][1..] == [];
    } else {
      assert (events + [e])[1..] == events[1..] + [e];
      GatewayAppend(libs, After(libs, g, events[0]).value, events[1..], e);
    }
  }

  lemma ArisesNext(libs: Libs, g: Gateway, e: Gateways.Event) returns (g': Gateway)
    requires Arises(libs, g) && After(libs, g, e).Some?
    ensures After(libs, g, e) == Some(g') && Arises(libs, g')
  {
    var start := Empty(g.server.workers, g.server.reject);
    var events: seq<Gateways.Event> :| RunGateway(libs, start, events) == Some(g);
    GatewayAppend(libs, start, events, e);
    g' := After(libs, g, e).value;
    AfterKeepsOptions(libs, g, e, g');
  }

  lemma EmptyArises(libs: Libs, workers: nat, reject: bool)
    ensures Arises(libs, Empty(workers, reject))
  {
    assert RunGateway(libs, Empty(workers, reject), []) == Some(Empty(workers, reject));
  }

  function WithCall(g: Gateway, i: nat, c: Call): Gateway
    requires i < |g.server.calls|
  {
    g.(server := g.server.(calls := g.server.calls[i := c]))
  }

  /** One step of a call that sends nothing and touches no event. */
  lemma CallSteps(libs: Libs, g: Gateway, i: nat, a: Step, c: Call) returns (g': Gateway)
    requires Arises(libs, g) && Owned(g, i) && Permitted(g.server, i, a) && StepCall(g.server.calls[i], a) == Some(c)
    requires c.cell.sent == g.server.calls[i].cell.sent && !a.JobSendPanics?
    requires !a.TakeEvent? && !a.ReadResponse? && !a.Release?
    ensures Arises(libs, g') && g' == WithCall(g, i, c)
  {
    var server := g.server.(calls := g.server.calls[i := c]);
    assert Next(g.server, Do(i, a)) == Some(server);
    assert AfterStep(libs, g, i, a, server) == Some(WithCall(g, i, c));
    g' := ArisesNext(libs, g, Act(Do(i, a)));
  }

  /** A call whose handler has replied, and which is about to hand the response to the child context. */
  function AboutToSend(name: string, worker: nat, res: Response): Call {
    NewCall(name).(caller := Waiting, verdict := Submitted, replies := [res], winner := Some(ByJob(FromHandler)),
                   cell := Cell(true, Some(res), []), job := JobReplying(worker, res, Send, FromHandler))
  }

  /** A call whose job is on a worker. */
  lemma CallStarts(libs: Libs, g: Gateway, i: nat, name: string, worker: nat) returns (g': Gateway)
    requires Arises(libs, g) && Owned(g, i) && g.server.calls[i] == NewCall(name) && name in g.server.handlers
    requires worker < g.server.workers
    requires forall j :: 0 <= j < |g.server.calls| ==> WorkerOf(g.server.calls[j]) != Some(worker)
    ensures Arises(libs, g')
    ensures g' == WithCall(g, i, NewCall(name).(caller := Waiting, job := Handling(worker), verdict := Submitted))
  {
    var c := NewCall(name).(caller := Looking);
    g' := CallSteps(libs, g, i, Admit, c);
    c := c.(caller := Waiting, job := Queued, verdict := Submitted);
    g' := CallSteps(libs, g', i, Find(true), c);
    c := c.(job := Handling(worker));
    g' := CallSteps(libs, g', i, Start(worker), c);
  }

  lemma CallReachesSend(libs: Libs, g: Gateway, i: nat, name: string, worker: nat, res: Response) returns (g': Gateway)
    requires Arises(libs, g) && Owned(g, i) && g.server.calls[i] == NewCall(name) && name in g.server.handlers
    requires worker < g.server.workers
    requires forall j :: 0 <= j < |g.server.calls| ==> WorkerOf(g.server.calls[j]) != Some(worker)
    ensures Arises(libs, g') && g' == WithCall(g, i, AboutToSend(name, worker, res))
  {
    g' := CallStarts(libs, g, i, name, worker);
    var c := g'.server.calls[i].(job := JobReplying(worker, res, Claim, FromHandler), replies := [res]);
    assert [] + [res] == [res];
    g' := CallSteps(libs, g', i, HandlerReply(res), c);
    c := c.(cell := Cell(true, None, []), winner := Some(ByJob(FromHandler)),
            job := JobReplying(worker, res, Store, FromHandler));
    g' := CallSteps(libs, g', i, JobAdvance, c);
    g' := CallSteps(libs, g', i, JobAdvance, AboutToSend(name, worker, res));
  }

  /** A call in the pool emits all that is left of its stream. */
  lemma {:induction false} CallEmits(libs: Libs, g: Gateway, i: nat, slack: nat -> Bytes) returns (g': Gateway)
    requires Arises(libs, g) && Owned(g, i) && g.memory.users[i].Writing? && EmitAll(g.memory, i, slack).Some?
    ensures Arises(libs, g') && g' == g.(memory := EmitAll(g.memory, i, slack).value)
    decreases |g.memory.users[i].todo|
  {
    if g.memory.users[i].todo == [] {
      g' := g;
    } else {
      g' := ArisesNext(libs, g, Pack(i, Emit(slack(|g.memory.users[i].todo|))));
      StepFrame(g.memory, i, Emit(slack(|g.memory.users[i].todo|)));
      g' := CallEmits(libs, g', i, slack);
    }
  }

  /** A call compresses its body, with nobody in between. */
  lemma CallPacks(libs: Libs, g: Gateway, i: nat, own: Bytes, pieces: seq<Bytes>, pick: nat, slack: nat -> Bytes)
    returns (g': Gateway)
    requires Arises(libs, g) && Owned(g, i) && PackAlone(g.memory, i, own, pieces, pick, slack).Some?
    requires Packing(libs, RequestFor(libs, g, i), g.server.calls[i]) == Some(own)
    ensures Arises(libs, g') && g' == g.(memory := PackAlone(g.memory, i, own, pieces, pick, slack).value)
  {
    StepFrame(g.memory, i, Draw(own, pieces, pick));
    g' := ArisesNext(libs, g, Pack(i, Draw(own, pieces, pick)));
    g' := CallEmits(libs, g', i, slack);
    g' := ArisesNext(libs, g', Pack(i, PutBack));
  }

  const NOBODY_YET := Memory([], [], [], [Idle, Idle])

  /** Both users have compressed, the second into the buffer of the first; over is what that made of the first's bytes. */
  predicate BothHold(m: Memory, a: Bytes, b: Bytes, over: Bytes, capacity: nat) {
    && |m.users| == 2 && m.users[0].Holding? && m.users[0].own == a && m.users[0].since <= |m.log|
    && m.users[0].arr < |m.arrays| && |a| <= |m.arrays[m.users[0].arr]| == capacity
    && m.users[1].Holding? && m.users[1].own == b
    && Seen(m, 0) == over
  }

  /** What two users make of new memory, one after the other, in any pieces and with any slack in new arrays. */
  lemma TwoUsersOneBuffer(a: Bytes, piecesA: seq<Bytes>, b: Bytes, piecesB: seq<Bytes>, slack: nat -> Bytes)
    returns (capacity: nat)
    requires Concat(piecesA) == a && Concat(piecesB) == b
    ensures PackAlone(NOBODY_YET, 0, a, piecesA, 0, slack).Some?
    ensures
      var m1 := PackAlone(NOBODY_YET, 0, a, piecesA, 0, slack).value;
      && PoolInv(m1) && PackAlone(m1, 1, b, piecesB, 0, slack).Some?
      && BothHold(PackAlone(m1, 1, b, piecesB, 0, slack).value, a, b, WriteAt(a, 0, Fitting(piecesB, capacity)),
                  capacity)
      && |a| <= capacity
  {
    PackedAlone(NOBODY_YET, 0, a, piecesA, 0, slack);
    PackAloneKeepsInv(NOBODY_YET, 0, a, piecesA, 0, slack);
    var m1 := PackAlone(NOBODY_YET, 0, a, piecesA, 0, slack).value;
    var arr := m1.pooled[0].arr;
    capacity := |m1.arrays[arr]|;
    PackedAlone(m1, 1, b, piecesB, 0, slack);
    PackAloneKeepsInv(m1, 1, b, piecesB, 0, slack);
    var m2 := PackAlone(m1, 1, b, piecesB, 0, slack).value;
    assert HolderInv(m2, 0, m2.users[0]);
    FilledFront(m1.arrays[arr], |a|, piecesB);
  }

  lemma {:induction false} EmitAllKeepsInv(m: Memory, i: nat, slack: nat -> Bytes)
    requires PoolInv(m) && EmitAll(m, i, slack).Some?
    ensures PoolInv(EmitAll(m, i, slack).value)
    decreases if i < |m.users| && m.users[i].Writing? then |m.users[i].todo| else 0
  {
    if m.users[i].todo != [] {
      var piece := Emit(slack(|m.users[i].todo|));
      StepKeepsPoolInv(m, i, piece);
      EmitAllKeepsInv(StepPool(m, i, piece).value, i, slack);
    }
  }

  lemma PackAloneKeepsInv(m: Memory, i: nat, own: Bytes, pieces: seq<Bytes>, pick: nat, slack: nat -> Bytes)
    requires PoolInv(m) && PackAlone(m, i, own, pieces, pick, slack).Some?
    ensures PoolInv(PackAlone(m, i, own, pieces, pick, slack).value)
  {
    var draw := Draw(own, pieces, pick);
    StepKeepsPoolInv(m, i, draw);
    var m1 := StepPool(m, i, draw).value;
    EmitAllKeepsInv(m1, i, slack);
    StepKeepsPoolInv(EmitAll(m1, i, slack).value, i, PutBack);
  }

  // ---- The run ---------------------------------------------------------------------------------------------------

  /** A message that parses becomes a call. */
  lemma Accepted(libs: Libs, g: Gateway, m: Delivered) returns (g': Gateway)
    requires Arises(libs, g) && Rejection(libs, m) == None
    ensures Arises(libs, g')
    ensures g' == Gateway(g.server.(calls := g.server.calls + [NewCall(RequestOf(libs, m).request.head.name)]),
                          g.received + [m], g.rejections + [None], g.owner + [|g.received|], g.attempts,
                          Joined(g.memory))
  {
    g' := ArisesNext(libs, g, Deliver(m));
  }

  lemma Registered(libs: Libs, workers: nat, reject: bool, name: string) returns (g: Gateway)
    ensures Arises(libs, g)
    ensures g == Gateway(State(workers, reject, {name}, [], [], [], multiset{}), [], [], [], [], NEW_MEMORY)
  {
    EmptyArises(libs, workers, reject);
    g := ArisesNext(libs, Empty(workers, reject), Act(Register(name)));
    assert {} + {name} == {name};
  }

  /** Two requests of one registered method have become calls. */
  lemma BothArrived(libs: Libs, workers: nat, reject: bool, name: string, first: Delivered, second: Delivered)
    returns (g: Gateway)
    requires Rejection(libs, first) == None && Rejection(libs, second) == None
    requires RequestOf(libs, first).request.head.name == RequestOf(libs, second).request.head.name == name
    ensures Arises(libs, g)
    ensures g == Gateway(State(workers, reject, {name}, [], [NewCall(name), NewCall(name)], [], multiset{}),
                         [first, second], [None, None], [0, 1], [], NOBODY_YET)
  {
    g := Registered(libs, workers, reject, name);
    g := Accepted(libs, g, first);
    g := Accepted(libs, g, second);
    assert g.received == [first, second] && g.rejections == [None, None] && g.owner == [0, 1];
    assert g.server.calls == [NewCall(name), NewCall(name)] && g.memory.users == [Idle, Idle];
  }

  /** Two requests of one registered method have become calls, and their handlers have replied. */
  lemma BothAboutToSend(libs: Libs, workers: nat, reject: bool, name: string, first: Delivered, second: Delivered,
                        a: Response, b: Response)
    returns (g: Gateway)
    requires workers >= 2 && Rejection(libs, first) == None && Rejection(libs, second) == None
    requires RequestOf(libs, first).request.head.name == RequestOf(libs, second).request.head.name == name
    ensures Arises(libs, g) && g.received == [first, second] && g.owner == [0, 1] && g.attempts == []
    ensures g.server.calls == [AboutToSend(name, 0, a), AboutToSend(name, 1, b)] && g.memory == NOBODY_YET
  {
    g := BothArrived(libs, workers, reject, name, first, second);
    g := CallReachesSend(libs, g, 0, name, 0, a);
    g := CallReachesSend(libs, g, 1, name, 1, b);
  }

  /** Both bodies have been compressed, the second into the buffer that the first still reads from. */
  lemma BothPacked(libs: Libs, g: Gateway, a: Bytes, piecesA: seq<Bytes>, b: Bytes, piecesB: seq<Bytes>,
                   slack: nat -> Bytes)
    returns (g': Gateway, capacity: nat)
    requires Arises(libs, g) && Owned(g, 0) && Owned(g, 1) && g.memory == NOBODY_YET
    requires Packing(libs, RequestFor(libs, g, 0), g.server.calls[0]) == Some(a) && Concat(piecesA) == a
    requires Packing(libs, RequestFor(libs, g, 1), g.server.calls[1]) == Some(b) && Concat(piecesB) == b
    ensures Arises(libs, g') && g' == g.(memory := g'.memory) && |a| <= capacity
    ensures BothHold(g'.memory, a, b, WriteAt(a, 0, Fitting(piecesB, capacity)), capacity)
  {
    capacity := TwoUsersOneBuffer(a, piecesA, b, piecesB, slack);
    var m1 := PackAlone(NOBODY_YET, 0, a, piecesA, 0, slack).value;
    PackedAlone(NOBODY_YET, 0, a, piecesA, 0, slack);
    assert |m1.users| == 2;
    g' := CallPacks(libs, g, 0, a, piecesA, 0, slack);
    assert g' == g.(memory := m1) && RequestFor(libs, g', 1) == RequestFor(libs, g, 1);
    g' := CallPacks(libs, g', 1, b, piecesB, 0, slack);
    assert g'.memory == PackAlone(m1, 1, b, piecesB, 0, slack).value;
  }

  /** The first call copies, and publishes. */
  lemma FirstSends(libs: Libs, g: Gateway, name: string, worker: nat, res: Response, a: Bytes, b: Bytes, over: Bytes,
                   capacity: nat)
    returns (g': Gateway)
    requires Arises(libs, g) && Owned(g, 0) && g.server.calls[0] == AboutToSend(name, worker, res)
    requires g.attempts == [] && g.owner[0] == 0 && BothHold(g.memory, a, b, over, capacity)
    requires Packing(libs, RequestFor(libs, g, 0), g.server.calls[0]).Some?
    ensures Arises(libs, g') && g'.received == g.received && g'.memory.log == g.memory.log
    ensures
      var u := g.memory.users[0];
      g'.attempts == [Attempt(0, res, RepliedWith(libs, RequestFor(libs, g, 0), res, over),
                              Some(Window(0, a, u.arr, u.since, |g.memory.log|)))]
  {
    var c := AboutToSend(name, worker, res).(cell := Cell(true, Some(res), [res]), job := Handling(worker));
    assert [] + [res] == [res];
    assert StepCall(g.server.calls[0], JobAdvance) == Some(c);
    var server := g.server.(calls := g.server.calls[0 := c]);
    assert Next(g.server, Do(0, JobAdvance)) == Some(server);
    g' := ArisesNext(libs, g, Act(Do(0, JobAdvance)));
  }

  /** What a job is about to compress. */
  lemma PackingOf(libs: Libs, r: RequestData, name: string, worker: nat, m: Message)
    requires libs.messages.marshal(m).Some? && FormatOf(ConvertEncoding(r.request.encoding)).Some?
    ensures Packing(libs, r, AboutToSend(name, worker, OkResponse(GoValue.Proto(m))))
      == Some(libs.alg.encode(FormatOf(ConvertEncoding(r.request.encoding)).value, libs.messages.marshal(m).value))
  {
  }

  /** One's response with the other's compressed body is one's response to the other's message. */
  lemma OtherBody(libs: Libs, r: RequestData, a: Message, b: Message)
    requires LibsLawful(libs) && a.typeName == b.typeName
    requires libs.messages.marshal(a).Some? && libs.messages.marshal(b).Some?
    requires FormatOf(ConvertEncoding(r.request.encoding)).Some?
    ensures
      var format := FormatOf(ConvertEncoding(r.request.encoding)).value;
      RepliedWith(libs, r, OkResponse(GoValue.Proto(a)), libs.alg.encode(format, libs.messages.marshal(b).value))
      == Replied(libs, r, OkResponse(GoValue.Proto(b)))
  {
    var own := libs.alg.encode(FormatOf(ConvertEncoding(r.request.encoding)).value, libs.messages.marshal(b).value);
    var res := OkResponse(GoValue.Proto(b));
    OwnExactlyWithOwnBytes(libs, r, res, own, own);
  }

  /** The requests and results of the runs below: one method and one compressed encoding, and results that marshal. */
  predicate Pair(libs: Libs, first: Delivered, second: Delivered, a: Message, b: Message) {
    var p, q := RequestOf(libs, first).request, RequestOf(libs, second).request;
    && Rejection(libs, first) == None && Rejection(libs, second) == None
    && p.head.name == q.head.name && p.encoding == q.encoding && FormatOf(ConvertEncoding(p.encoding)).Some?
    && libs.messages.marshal(a).Some? && libs.messages.marshal(b).Some?
  }

  /** The compressed form of a result. */
  function StreamOf(libs: Libs, m: Delivered, result: Message): Bytes
    requires FormatOf(ConvertEncoding(RequestOf(libs, m).request.encoding)).Some? && libs.messages.marshal(result).Some?
  {
    libs.alg.encode(FormatOf(ConvertEncoding(RequestOf(libs, m).request.encoding)).value,
                    libs.messages.marshal(result).value)
  }

  /**
   For any two requests of one method with the same compressed encoding, any results, any pieces in which their streams
   are emitted, and any slack in new arrays, there is a run in which the second is compressed before the first is copied.
   What it publishes first has the leading pieces of the second stream that fit over the first stream, and is intact
   exactly when one of the two is a prefix of the other.
   */
  lemma CallsInterfere(libs: Libs, workers: nat, reject: bool, first: Delivered, second: Delivered, a: Message,
                       b: Message, piecesA: seq<Bytes>, piecesB: seq<Bytes>, slack: nat -> Bytes)
    returns (g: Gateway, capacity: nat)
    requires LibsLawful(libs) && workers >= 2 && Pair(libs, first, second, a, b)
    requires Concat(piecesA) == StreamOf(libs, first, a) && Concat(piecesB) == StreamOf(libs, second, b)
    ensures Arises(libs, g) && g.received == [first, second] && |g.attempts| == 1
    ensures g.attempts[0].message == 0 && g.attempts[0].response == OkResponse(GoValue.Proto(a))
    ensures
      var own, written := StreamOf(libs, first, a), Fitting(piecesB, capacity);
      && |own| <= capacity
      && g.attempts[0].publication
         == RepliedWith(libs, RequestOf(libs, first), OkResponse(GoValue.Proto(a)), WriteAt(own, 0, written))
      && (Intact(libs, g, 0) <==> written <= own || own <= written)
  {
    var r := RequestOf(libs, first);
    var x, y := StreamOf(libs, first, a), StreamOf(libs, second, b);
    var name := r.request.head.name;
    var one, other := OkResponse(GoValue.Proto(a)), OkResponse(GoValue.Proto(b));
    var before := BothAboutToSend(libs, workers, reject, name, first, second, one, other);
    PackingOf(libs, r, name, 0, a);
    PackingOf(libs, RequestOf(libs, second), name, 1, b);
    before, capacity := BothPacked(libs, before, x, piecesA, y, piecesB, slack);
    g := FirstSends(libs, before, name, 0, one, x, y, WriteAt(x, 0, Fitting(piecesB, capacity)), capacity);
    ArisesInv(libs, before);
    CopyIsOwnExactlyWhenIntact(before.memory, 0);
    WindowToEnd(before.memory.log, before.memory.users[0].since);
    IntactUnderWrite(x, Fitting(piecesB, capacity));
  }

  lemma WindowToEnd(log: seq<Written>, since: nat)
    requires since <= |log|
    ensures log[since..] == log[since..|log|]
  {
  }

  /**
   In particular, for results of one type whose streams are equally long, and again for any pieces and any slack: the
   first request is answered, on its own topic and with its own id, with the second's result.
   */
  lemma CallsMaySwapBodies(libs: Libs, workers: nat, reject: bool, first: Delivered, second: Delivered, a: Message,
                           b: Message, piecesA: seq<Bytes>, piecesB: seq<Bytes>, slack: nat -> Bytes)
    returns (g: Gateway)
    requires LibsLawful(libs) && workers >= 2 && Pair(libs, first, second, a, b)
    requires Concat(piecesA) == StreamOf(libs, first, a) && Concat(piecesB) == StreamOf(libs, second, b)
    requires a != b && a.typeName == b.typeName && |StreamOf(libs, first, a)| == |StreamOf(libs, second, b)|
    ensures Arises(libs, g) && g.received == [first, second] && |g.attempts| == 1 && !Intact(libs, g, 0)
    ensures g.attempts[0].message == 0 && g.attempts[0].response == OkResponse(GoValue.Proto(a))
    ensures g.attempts[0].publication == Replied(libs, RequestOf(libs, first), OkResponse(GoValue.Proto(b)))
  {
    var capacity;
    g, capacity := CallsInterfere(libs, workers, reject, first, second, a, b, piecesA, piecesB, slack);
    var x, y := StreamOf(libs, first, a), StreamOf(libs, second, b);
    AllFits(piecesB, capacity);
    assert WriteAt(x, 0, y) == y;
    OtherBody(libs, RequestOf(libs, first), a, b);
    DifferentStreams(libs, FormatOf(ConvertEncoding(RequestOf(libs, first).request.encoding)).value, a, b);
  }

  lemma DifferentStreams(libs: Libs, format: Format, a: Message, b: Message)
    requires LibsLawful(libs) && a != b && a.typeName == b.typeName
    requires libs.messages.marshal(a).Some? && libs.messages.marshal(b).Some?
    ensures libs.alg.encode(format, libs.messages.marshal(a).value)
      != libs.alg.encode(format, libs.messages.marshal(b).value)
  {
    var x, y := libs.messages.marshal(a).value, libs.messages.marshal(b).value;
    assert libs.messages.unmarshal(a.typeName, x).message == a && libs.messages.unmarshal(b.typeName, y).message == b;
    assert libs.alg.decode(format, libs.alg.encode(format, x)) == Whole(x);
    assert libs.alg.decode(format, libs.alg.encode(format, y)) == Whole(y);
  }

  // ---- Where calls cannot interfere ------------------------------------------------------------------------------

  /** Nobody writes while somebody holds a slice, nor has while an attempt's bytes waited to be copied. */
  ghost predicate Alone(g: Gateway) {
    && (forall i :: 0 <= i < |g.memory.users| && g.memory.users[i].Holding? ==>
          g.memory.users[i].since == |g.memory.log|)
    && (forall k :: 0 <= k < |g.attempts| && g.attempts[k].window.Some? ==>
          g.attempts[k].window.value.from == g.attempts[k].window.value.to)
  }

  /** With one worker, two jobs on workers are one. */
  lemma OneWorkerOneJob(s: State, i: nat, j: nat)
    requires Reachable(s) && s.workers <= 1 && i < |s.calls| && j < |s.calls|
    requires WorkerOf(s.calls[i]).Some? && WorkerOf(s.calls[j]).Some?
    ensures i == j
  {
    ReachableInv(s);
    assert WorkerOf(s.calls[i]) == WorkerOf(s.calls[j]) == Some(0);
  }

  lemma PackingIsOnAWorker(libs: Libs, r: RequestData, c: Call)
    requires Packing(libs, r, c).Some?
    ensures WorkerOf(c).Some?
  {
  }

  /** With one worker at most one call is inside Marshal with a body. */
  lemma OneUserAtATime(libs: Libs, g: Gateway, i: nat, j: nat)
    requires Reachable(g.server) && MemoryInv(libs, g) && g.server.workers <= 1 && Owned(g, i) && Owned(g, j)
    requires g.memory.users[i] != Idle && g.memory.users[j] != Idle
    ensures i == j
  {
    PackingIsOnAWorker(libs, RequestFor(libs, g, i), g.server.calls[i]);
    PackingIsOnAWorker(libs, RequestFor(libs, g, j), g.server.calls[j]);
    OneWorkerOneJob(g.server, i, j);
  }

  lemma PackKeepsAlone(libs: Libs, g: Gateway, i: nat, step: PoolStep, memory: Memory)
    requires Reachable(g.server) && MessagesInv(libs, g) && MemoryInv(libs, g) && Alone(g) && g.server.workers <= 1
    requires PackAllowed(libs, g, i, step) && StepPool(g.memory, i, step) == Some(memory)
    ensures Alone(g.(memory := memory))
  {
    StepFrame(g.memory, i, step);
    forall j | 0 <= j < |memory.users| && memory.users[j].Holding?
      ensures memory.users[j].since == |memory.log|
    {
      if j != i && g.memory.users[i] != Idle {
        OneUserAtATime(libs, g, i, j);
        assert false;
      }
    }
  }

  lemma AfterStepKeepsAlone(libs: Libs, g: Gateway, i: nat, step: Step, server: State)
    requires Alone(g) && Owned(g, i) && i < |server.calls| && AfterStep(libs, g, i, step, server).Some?
    ensures Alone(AfterStep(libs, g, i, step, server).value)
  {
    var g' := AfterStep(libs, g, i, step, server).value;
    assert forall j :: 0 <= j < |g'.memory.users| && g'.memory.users[j].Holding? ==>
        g'.memory.users[j] == g.memory.users[j];
  }

  lemma DeliveryKeepsAlone(libs: Libs, g: Gateway, m: Delivered)
    requires Alone(g) && AfterDelivery(libs, g, m).Some?
    ensures Alone(AfterDelivery(libs, g, m).value)
  {
  }

  lemma AfterKeepsAlone(libs: Libs, g: Gateway, e: Gateways.Event, g': Gateway)
    requires GatewayInv(libs, g) && Alone(g) && g.server.workers <= 1 && After(libs, g, e) == Some(g')
    ensures Alone(g')
  {
    match e {
      case Deliver(m) => DeliveryKeepsAlone(libs, g, m);
      case Pack(i, step) => PackKeepsAlone(libs, g, i, step, StepPool(g.memory, i, step).value);
      case Act(a) =>
        if a.Do? {
          AfterStepKeepsAlone(libs, g, a.call, a.step, Next(g.server, a).value);
        }
    }
  }

  /** Every event keeps the invariant, and the server's options. */
  lemma AfterKeepsInv(libs: Libs, g: Gateway, e: Gateways.Event, g': Gateway)
    requires GatewayInv(libs, g) && After(libs, g, e) == Some(g')
    ensures GatewayInv(libs, g')
  {
    match e {
      case Deliver(m) => DeliverKeepsInv(libs, g, m);
      case Act(a) => ActKeepsInv(libs, g, a);
      case Pack(i, step) => PackKeepsInv(libs, g, i, step);
    }
  }

  lemma AfterKeepsOptions(libs: Libs, g: Gateway, e: Gateways.Event, g': Gateway)
    requires After(libs, g, e) == Some(g')
    ensures g'.server.workers == g.server.workers && g'.server.reject == g.server.reject
  {
  }

  lemma {:induction false} RunKeepsAlone(libs: Libs, g: Gateway, events: seq<Gateways.Event>)
    requires GatewayInv(libs, g) && Alone(g) && g.server.workers <= 1 && RunGateway(libs, g, events).Some?
    ensures Alone(RunGateway(libs, g, events).value)
    decreases |events|
  {
    if events != [] {
      var g1 := After(libs, g, events[0]).value;
      AfterKeepsInv(libs, g, events[0], g1);
      AfterKeepsAlone(libs, g, events[0], g1);
      AfterKeepsOptions(libs, g, events[0], g1);
      RunKeepsAlone(libs, g1, events[1..]);
    }
  }

  /** With one worker, no call's bytes are touched between its compression and its copy. */
  lemma OneWorkerIsAlone(libs: Libs, g: Gateway)
    requires Arises(libs, g) && g.server.workers <= 1
    ensures Alone(g)
  {
    var start := Empty(g.server.workers, g.server.reject);
    var events: seq<Gateways.Event> :| RunGateway(libs, start, events) == Some(g);
    InitReachable(g.server.workers, g.server.reject);
    RunKeepsAlone(libs, start, events);
  }

  /**
   What a caller can check beforehand: a server with one worker, a request with a plain or unknown encoding, and an error
   response are never interfered with, whatever the interleaving, and each publishes the call's own response.
   */
  lemma SafeConfigurations(libs: Libs, g: Gateway, k: nat)
    requires LibsLawful(libs) && Arises(libs, g) && k < |g.attempts|
    ensures g.attempts[k].message < |g.received|
    ensures
      var a := g.attempts[k];
      var r := RequestOf(libs, g.received[a.message]);
      g.server.workers <= 1 || FormatOf(ConvertEncoding(r.request.encoding)) == None || a.response.error.Some? ==>
        && Undisturbed(g, k) && Intact(libs, g, k)
        && a.publication == Replied(libs, r, a.response)
  {
    ArisesInv(libs, g);
    assert AttemptInv(libs, g, g.attempts[k]);
    if g.server.workers <= 1 {
      OneWorkerIsAlone(libs, g);
    }
    PublishedIsOwnExactlyWhenIntact(libs, g, k);
  }
}
