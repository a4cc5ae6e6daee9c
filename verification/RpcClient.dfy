/** mqttpb/rpc_client.go: the client codec, as functions of its state, as an object, and as net/rpc drives it. */
module RpcClients {
  import opened Wrappers
  import opened Rrpc
  import opened Compression
  import opened Compressors
  import opened Wire
  import opened Codecs
  import opened Pendings

  /** proto.Unmarshal into a message: what is left in it, and the error. */
  datatype MessageParse = MessageParse(message: Message, error: Option<string>)

  /** proto.Marshal of a message, and proto.Unmarshal into a message of a given type. */
  datatype MessageLib = MessageLib(marshal: Message -> Option<Bytes>, unmarshal: (string, Bytes) -> MessageParse)

  /**
   Unmarshalling undoes marshalling, and no bytes stand for no field set.  A message with no field set need not marshal:
   its type may have required fields.
   */
  ghost predicate MessagesLawful(lib: MessageLib) {
    && (forall m: Message :: lib.marshal(m).Some? ==>
          lib.unmarshal(m.typeName, lib.marshal(m).value) == MessageParse(m, None))
    && (forall t: string :: lib.marshal(Message(t, [])).Some? ==> lib.marshal(Message(t, [])) == Some([]))
    && (forall t: string :: lib.unmarshal(t, []).message == Message(t, []))
  }

  const ZERO_REQUEST: Request := Envelope(RequestHead(0, "", map[]), 0, None)
  const ZERO_RESPONSE: ReplyMessage := Envelope(ResponseHead(0, 0, "", map[]), 0, None)

  /** Everything the two ends of the protobuf transport use. */
  datatype Libs = Libs(
    alg: Algorithms,
    request: Proto<RequestHead>,
    response: Proto<ResponseHead>,
    messages: MessageLib)

  ghost predicate LibsLawful(libs: Libs) {
    && Lawful(libs.alg)
    && ProtoLawful(libs.request)
    && ProtoLawful(libs.response)
    && libs.response.unmarshal([]) == Parsed(ZERO_RESPONSE, None)
    && MessagesLawful(libs.messages)
  }

  const ERR_INVALID_BODY: string := "[RRPC] invalid request body"
  const ERR_TYPE_MISMATCH: string := "[RRPC] message type not match"
  const EOF: string := "EOF"
  const UNEXPECTED_EOF: string := "unexpected EOF"
  const READING_BODY: string := "reading body "

  /** The fields of RPCClientCodec that outlive a call. */
  datatype CodecState = CodecState(encoding: int, request: Request, response: ReplyMessage, pending: Table)

  const FRESH_CODEC := CodecState(0, ZERO_REQUEST, ZERO_RESPONSE, map[])

  // ---- The methods as functions ----------------------------------------------------------------------------------

  /** The request that WriteRequest hands to the codec; injected is what the trace propagator adds. */
  function BuildRequest(st: CodecState, number: nat, name: string, m: Message, value: Bytes,
                        injected: map<string, string>): Request {
    Envelope(RequestHead(number, name, st.request.head.metadata + injected), st.encoding,
             Some(AnyBody(m.typeName, Some(value))))
  }

  function WrittenRequest(libs: Libs, st: CodecState, number: nat, name: string, param: GoValue,
                        injected: map<string, string>): (CodecState, Result<Bytes, string>) {
    var st1 := st.(pending := Apply(st.pending, Write(number, name)));
    if !param.Proto? then (st1, Err(ERR_INVALID_BODY))
    else
      match libs.messages.marshal(param.message)
      case None => (st1, Err(ERR_MARSHAL))
      case Some(value) =>
        var request := BuildRequest(st, number, name, param.message, value, injected);
        match Packed(libs.alg, request)
        case Err(e) => (st1.(request := request), Err(e))
        case Ok(packed) => (st1.(request := packed), Marshalled(libs.alg, libs.request, request))
  }

  lemma WrittenRequestUnfolds(libs: Libs, st: CodecState, number: nat, name: string, param: GoValue,
                              injected: map<string, string>)
    requires param.Proto? && libs.messages.marshal(param.message).Some?
    ensures
      var q := BuildRequest(st, number, name, param.message, libs.messages.marshal(param.message).value, injected);
      && Packed(libs.alg, q).Ok?
      && WrittenRequest(libs, st, number, name, param, injected)
         == (st.(pending := st.pending[number := name], request := Packed(libs.alg, q).value),
             Marshalled(libs.alg, libs.request, q))
  {
  }

  datatype ReplyHeader = ReplyHeader(name: string, number: nat, error: string)

  /** ReadResponseHeader, given all that can be read from the connection. */
  function ReadHeader(libs: Libs, st: CodecState, incoming: Bytes): (CodecState, Result<ReplyHeader, string>) {
    if incoming == [] then (st.(response := ZERO_RESPONSE), Err(EOF))
    else
      var parsed := Unmarshalled(libs.alg, libs.response, incoming);
      if parsed.error.Some? then (st.(response := parsed.message), Err(parsed.error.value))
      else
        var head := parsed.message.head;
        (st.(response := parsed.message, pending := Apply(st.pending, Header(head.id))),
         Ok(ReplyHeader(Reported(st.pending, head.id), head.id, head.errorMessage)))
  }

  /** ReadResponseBody into a target: the target afterwards, and the error. */
  function ReadBody(libs: Libs, st: CodecState, target: GoValue): (GoValue, Option<string>) {
    if target.Nil? then (target, None)
    else if !target.Proto? then (target, Some(ERR_INVALID_BODY))
    else if st.response.body.None? || st.response.body.value.value.None? || st.response.body.value.value.value == [] then
      (target, None)
    else if st.response.body.value.typeUrl != target.message.typeName then (target, Some(ERR_TYPE_MISMATCH))
    else
      var parse := libs.messages.unmarshal(target.message.typeName, st.response.body.value.value.value);
      (GoValue.Proto(parse.message), parse.error)
  }

  // ---- One Call, as net/rpc drives the codec ---------------------------------------------------------------------

  /** What a Call did: the request it built, the bytes it sent, the method reported, and what it returned. */
  datatype CallTrace = CallTrace(
    request: Request,
    sent: Result<Bytes, string>,
    reported: string,
    error: Option<string>,
    reply: GoValue)

  /**
   The reader of net/rpc, for the one call with number 0.  A response to another number is skipped, and the end of the
   stream then ends the call.
   */
  function Input(libs: Libs, st: CodecState, reply: GoValue, incoming: Bytes)
    : (CodecState, string, Option<string>, GoValue)
  {
    var (st1, header) := ReadHeader(libs, st, incoming);
    match header
    case Err(e) => (st1, "", Some(if e == EOF then UNEXPECTED_EOF else e), reply)
    case Ok(h) =>
      if h.number != 0 then (st1, h.name, Some(UNEXPECTED_EOF), reply)
      else if h.error != "" then (st1, h.name, Some(h.error), reply)
      else
        var (reply', e) := ReadBody(libs, st1, reply);
        (st1, h.name, if e.Some? then Some(READING_BODY + e.value) else None, reply')
  }

  /** The arguments of Client.Call, and what comes back: a message on the response topic, or the end of the context. */
  datatype CallInput = CallInput(
    encoding: int,
    name: string,
    args: GoValue,
    reply: GoValue,
    injected: map<string, string>,
    incoming: Option<Bytes>)

  const CONTEXT_ERROR: string := "context deadline exceeded"

  /** One Client.Call on a codec from the pool; its reader has stopped when the codec goes back. */
  function CallOnce(libs: Libs, st: CodecState, c: CallInput): (CodecState, CallTrace) {
    var (st1, sent) := WrittenRequest(libs, st.(encoding := c.encoding), 0, c.name, c.args, c.injected);
    if sent.Err? then
      (st1.(response := ZERO_RESPONSE), CallTrace(st1.request, sent, "", Some(sent.error), c.reply))
    else if c.incoming.None? then
      (st1.(response := ZERO_RESPONSE), CallTrace(st1.request, sent, "", Some(CONTEXT_ERROR), c.reply))
    else
      var (st2, reported, error, reply) := Input(libs, st1, c.reply, c.incoming.value);
      (st2.(response := ZERO_RESPONSE), CallTrace(st1.request, sent, reported, error, reply))
  }

  /** What a call leaves and returns, by its parts. */
  lemma CallOnceParts(libs: Libs, st: CodecState, c: CallInput)
    ensures
      var (st1, sent) := WrittenRequest(libs, st.(encoding := c.encoding), 0, c.name, c.args, c.injected);
      var (st2, _, error, reply) := Input(libs, st1, c.reply, if c.incoming.Some? then c.incoming.value else []);
      var answered := sent.Ok? && c.incoming.Some?;
      && CallOnce(libs, st, c).0
         == CodecState(c.encoding, st1.request, ZERO_RESPONSE, if answered then st2.pending else st1.pending)
      && CallOnce(libs, st, c).1.error
         == (if sent.Err? then Some(sent.error) else if answered then error else Some(CONTEXT_ERROR))
      && CallOnce(libs, st, c).1.reply == if answered then reply else c.reply
  {
  }

  /** The codec after any calls. */
  function AfterCalls(libs: Libs, calls: seq<CallInput>): CodecState
    decreases |calls|
  {
    if calls == [] then FRESH_CODEC
    else CallOnce(libs, AfterCalls(libs, calls[..|calls| - 1]), calls[|calls| - 1]).0
  }

  lemma CallKeepsPendingSmall(libs: Libs, st: CodecState, c: CallInput)
    requires st.pending.Keys <= {0}
    ensures CallOnce(libs, st, c).0.pending.Keys <= {0}
  {
  }

  /** A pooled codec never holds a number other than 0, answered or not. */
  lemma {:induction false} PendingHoldsOnlyZero(libs: Libs, calls: seq<CallInput>)
    ensures AfterCalls(libs, calls).pending.Keys <= {0}
    decreases |calls|
  {
    if calls != [] {
      PendingHoldsOnlyZero(libs, calls[..|calls| - 1]);
      CallKeepsPendingSmall(libs, AfterCalls(libs, calls[..|calls| - 1]), calls[|calls| - 1]);
    }
  }

  function Anonymous(q: Request): Request {
    q.(head := q.head.(metadata := map[]))
  }

  /** What the server parses out of the bytes sent. */
  function Arrived(libs: Libs, sent: Bytes): Parsed<RequestHead> {
    Unmarshalled(libs.alg, libs.request, sent)
  }

  /** What net/rpc makes of a response depends on no field of the codec but the pending table. */
  lemma InputDependsOnPending(libs: Libs, st: CodecState, st': CodecState, reply: GoValue, incoming: Bytes)
    requires st.pending == st'.pending
    ensures
      var (after, name, error, got) := Input(libs, st, reply, incoming);
      var (after', name', error', got') := Input(libs, st', reply, incoming);
      after.pending == after'.pending && name == name' && error == error' && got == got'
  {
    var (st1, header) := ReadHeader(libs, st, incoming);
    var (st1', header') := ReadHeader(libs, st', incoming);
    assert header == header';
    assert header.Ok? ==> st1.response == st1'.response;
  }

  /** A call whose request is sent: what is sent, and what comes of it. */
  lemma SentCall(libs: Libs, st: CodecState, c: CallInput)
    requires st.pending.Keys <= {0} && CallOnce(libs, st, c).1.sent.Ok?
    ensures
      var t := CallOnce(libs, st, c).1;
      && c.args.Proto? && libs.messages.marshal(c.args.message).Some?
      && t.sent == Marshalled(libs.alg, libs.request,
                              BuildRequest(st.(encoding := c.encoding), 0, c.name, c.args.message,
                                           libs.messages.marshal(c.args.message).value, c.injected))
      && if c.incoming.None? then t.reported == "" && t.error == Some(CONTEXT_ERROR) && t.reply == c.reply
         else
           var (_, name, error, got) :=
             Input(libs, FRESH_CODEC.(pending := map[0 := c.name]), c.reply, c.incoming.value);
           t.reported == name && t.error == error && t.reply == got
  {
    var (st1, sent) := WrittenRequest(libs, st.(encoding := c.encoding), 0, c.name, c.args, c.injected);
    assert st1.pending == map[0 := c.name];
    if c.incoming.Some? {
      InputDependsOnPending(libs, st1, FRESH_CODEC.(pending := map[0 := c.name]), c.reply, c.incoming.value);
    }
  }

  lemma SentRequestForgetsMetadata(libs: Libs, st: CodecState, st': CodecState, c: CallInput)
    requires LibsLawful(libs) && st.pending.Keys <= {0} && st'.pending.Keys <= {0}
    requires CallOnce(libs, st, c).1.sent.Ok? && CallOnce(libs, st', c).1.sent.Ok?
    ensures
      var got := Arrived(libs, CallOnce(libs, st, c).1.sent.value);
      var got' := Arrived(libs, CallOnce(libs, st', c).1.sent.value);
      got.error == got'.error == None && Anonymous(got.message) == Anonymous(got'.message)
  {
    SentCall(libs, st, c);
    SentCall(libs, st', c);
    var value := libs.messages.marshal(c.args.message).value;
    SentArrives(libs, BuildRequest(st.(encoding := c.encoding), 0, c.name, c.args.message, value, c.injected));
    SentArrives(libs, BuildRequest(st'.(encoding := c.encoding), 0, c.name, c.args.message, value, c.injected));
  }

  /** A call whose request is not sent. */
  lemma UnsentCall(libs: Libs, st: CodecState, c: CallInput)
    requires CallOnce(libs, st, c).1.sent.Err?
    ensures
      var t := CallOnce(libs, st, c).1;
      && t.reported == "" && t.reply == c.reply
      && t.error == Some(if c.args.Proto? then ERR_MARSHAL else ERR_INVALID_BODY)
  {
    if c.args.Proto? && libs.messages.marshal(c.args.message).Some? {
      WrittenRequestUnfolds(libs, st.(encoding := c.encoding), 0, c.name, c.args, c.injected);
    }
  }

  /**
   After any calls, a call on the pooled codec does what it does on a new one: the request that the server parses is
   the same apart from the metadata, and so are the method reported, the error and the reply.  A call that is sent on
   neither fails in the same way on both; on one alone it can only be because of the metadata, since its own message
   marshals.
   */
  lemma PooledCodecActsFresh(libs: Libs, calls: seq<CallInput>, c: CallInput)
    requires LibsLawful(libs)
    ensures
      var pooled := CallOnce(libs, AfterCalls(libs, calls), c).1;
      var renewed := CallOnce(libs, FRESH_CODEC, c).1;
      && (pooled.sent.Ok? == renewed.sent.Ok? ==>
            pooled.reported == renewed.reported && pooled.error == renewed.error && pooled.reply == renewed.reply)
      && (pooled.sent.Ok? && renewed.sent.Ok? ==>
            && Arrived(libs, pooled.sent.value).error == Arrived(libs, renewed.sent.value).error == None
            && Anonymous(Arrived(libs, pooled.sent.value).message)
               == Anonymous(Arrived(libs, renewed.sent.value).message))
      && (pooled.sent.Ok? != renewed.sent.Ok? ==> c.args.Proto? && libs.messages.marshal(c.args.message).Some?)
  {
    var st := AfterCalls(libs, calls);
    PendingHoldsOnlyZero(libs, calls);
    if CallOnce(libs, st, c).1.sent.Ok? {
      SentCall(libs, st, c);
    } else {
      UnsentCall(libs, st, c);
    }
    if CallOnce(libs, FRESH_CODEC, c).1.sent.Ok? {
      SentCall(libs, FRESH_CODEC, c);
    } else {
      UnsentCall(libs, FRESH_CODEC, c);
    }
    if CallOnce(libs, st, c).1.sent.Ok? && CallOnce(libs, FRESH_CODEC, c).1.sent.Ok? {
      SentRequestForgetsMetadata(libs, st, FRESH_CODEC, c);
    }
  }

  /** The header of any response: the method registered under its number, whatever that is, which it unregisters. */
  lemma HeaderOfAnyResponse(libs: Libs, st: CodecState, incoming: Bytes)
    requires incoming != [] && FailureOf(libs.alg, libs.response, incoming) == None
    ensures
      var head := libs.response.unmarshal(incoming).message.head;
      var (st', header) := ReadHeader(libs, st, incoming);
      && header == Ok(ReplyHeader(if head.id in st.pending then st.pending[head.id] else "", head.id, head.errorMessage))
      && st'.pending == st.pending - {head.id}
      && st'.response == Unmarshalled(libs.alg, libs.response, incoming).message
  {
    UnmarshalFailsExactly(libs.alg, libs.response, incoming);
  }

  /**
   A Call ends before its body where nothing came back, or a message that does not parse or decompress, or one with
   another number or an error text; the reply object then stays.
   */
  lemma CallEndsAtHeader(libs: Libs, st: CodecState, reply: GoValue, incoming: Bytes)
    ensures
      var failure := FailureOf(libs.alg, libs.response, incoming);
      var head := libs.response.unmarshal(incoming).message.head;
      var (_, _, error, result) := Input(libs, st, reply, incoming);
      && (incoming == [] ==> error == Some("unexpected EOF") && result == reply)
      && (incoming != [] && failure.Some? ==>
            error == Some(if failure.value == "EOF" then "unexpected EOF" else failure.value) && result == reply)
      && (incoming != [] && failure == None && head.id != 0 ==> error == Some("unexpected EOF") && result == reply)
      && (incoming != [] && failure == None && head.id == 0 && head.errorMessage != "" ==>
            error == Some(head.errorMessage) && result == reply)
  {
    UnmarshalFailsExactly(libs.alg, libs.response, incoming);
  }

  /** What a body read from any response object leaves in the target, and the error. */
  lemma BodyReads(libs: Libs, st: CodecState, target: GoValue)
    ensures
      var body := st.response.body;
      var empty := body.None? || body.value.value.None? || body.value.value.value == [];
      var (result, error) := ReadBody(libs, st, target);
      if target == GoValue.Nil then result == target && error == None
      else if !target.Proto? then result == target && error == Some("[RRPC] invalid request body")
      else if empty then result == target && error == None
      else if body.value.typeUrl != target.message.typeName then
        result == target && error == Some("[RRPC] message type not match")
      else
        var parse := libs.messages.unmarshal(body.value.typeUrl, body.value.value.value);
        result == GoValue.Proto(parse.message) && error == parse.error
  {
  }

  /**
   Else it ends with the body: BodyReads says what is left in the reply object, and an error comes back as "reading body"
   and its text.
   */
  lemma CallEndsWithBody(libs: Libs, st: CodecState, reply: GoValue, incoming: Bytes)
    requires incoming != [] && FailureOf(libs.alg, libs.response, incoming) == None
    requires libs.response.unmarshal(incoming).message.head.id == 0
    requires libs.response.unmarshal(incoming).message.head.errorMessage == ""
    ensures
      var filled := st.(response := Unmarshalled(libs.alg, libs.response, incoming).message);
      var (result, failure) := ReadBody(libs, filled, reply);
      var (_, _, error, got) := Input(libs, st, reply, incoming);
      && got == result
      && error == match failure case None => None case Some(text) => Some("reading body " + text)
  {
    UnmarshalFailsExactly(libs.alg, libs.response, incoming);
    var (st1, header) := ReadHeader(libs, st, incoming);
    var filled := st.(response := Unmarshalled(libs.alg, libs.response, incoming).message);
    assert header.Ok? && header.value.number == 0 && header.value.error == "";
    assert st1.response == filled.response;
    assert ReadBody(libs, st1, reply) == ReadBody(libs, filled, reply);
  }

  /** What is sent for any number, method, message and encoding arrives so; a parameter that is none is refused. */
  lemma WrittenRequestArrives(libs: Libs, st: CodecState, number: nat, name: string, param: GoValue,
                              injected: map<string, string>)
    requires LibsLawful(libs)
    ensures
      var (st', sent) := WrittenRequest(libs, st, number, name, param, injected);
      && st'.pending == st.pending[number := name]
      && (!param.Proto? ==> sent == Err("[RRPC] invalid request body"))
      && (param.Proto? && libs.messages.marshal(param.message) == None ==> sent.Err?)
      && (sent.Ok? ==>
            var got := Arrived(libs, sent.value);
            && got.error == None && got.message.head.id == number && got.message.head.name == name
            && got.message.encoding == st.encoding && got.message.body.Some?
            && got.message.body.value.typeUrl == param.message.typeName
            && (if got.message.body.value.value.Some? then got.message.body.value.value.value else [])
               == libs.messages.marshal(param.message).value)
  {
    if param.Proto? && libs.messages.marshal(param.message).Some? {
      var value := libs.messages.marshal(param.message).value;
      WrittenRequestUnfolds(libs, st, number, name, param, injected);
      var q := BuildRequest(st, number, name, param.message, value, injected);
      if Marshalled(libs.alg, libs.request, q).Ok? {
        SentArrives(libs, q);
      }
    }
  }

  /** What arrives of a request: its own fields, and its value up to nil and empty. */
  lemma SentArrives(libs: Libs, q: Request)
    requires LibsLawful(libs) && Marshalled(libs.alg, libs.request, q).Ok?
    ensures
      var got := Arrived(libs, Marshalled(libs.alg, libs.request, q).value);
      && got.error == None && SameContent(got.message, q)
      && (q.body.Some? && q.body.value.value == Some([]) ==>
            got.message == if FormatOf(ConvertEncoding(q.encoding)).Some? then q else Normal(q))
      && (q.body.None? || q.body.value.value != Some([]) ==> got.message == q)
  {
    CodecRoundTrip(libs.alg, libs.request, q);
  }

  /** Only the metadata of earlier calls survives: it is never cleared. */
  lemma {:induction false} MetadataAccumulates(libs: Libs, calls: seq<CallInput>, c: CallInput)
    requires c.args.Proto? && libs.messages.marshal(c.args.message).Some?
    ensures
      var st := AfterCalls(libs, calls);
      CallOnce(libs, st, c).1.request.head.metadata == st.request.head.metadata + c.injected
    ensures AfterCalls(libs, calls + [c]).request.head.metadata
      == AfterCalls(libs, calls).request.head.metadata + c.injected
  {
    assert (calls + [c])[..|calls|] == calls;
  }

  /**
   What goes wrong when an earlier call's reader is still at work on a codec that a new call has taken: the late
   response takes the new call's entry, and the new call's own response then reports no method.
   */
  lemma LateReaderTakesTheEntry(libs: Libs, st: CodecState, name: string, late: Bytes, own: Bytes)
    requires st.pending == map[0 := name] && late != [] && own != []
    requires Unmarshalled(libs.alg, libs.response, late).error == None
    requires Unmarshalled(libs.alg, libs.response, own).error == None
    requires Unmarshalled(libs.alg, libs.response, late).message.head.id == 0
    requires Unmarshalled(libs.alg, libs.response, own).message.head.id == 0
    ensures
      var (st1, first) := ReadHeader(libs, st, late);
      var (st2, second) := ReadHeader(libs, st1, own);
      && first.Ok? && first.value.name == name
      && second.Ok? && second.value.name == "" && st2.pending == map[]
  {
    var (st1, _) := ReadHeader(libs, st, late);
    assert st1.pending == map[];
  }

  // ---- The codec as an object ------------------------------------------------------------------------------------

  /** RPCClientCodec: one request and one response object for all calls, rewritten in place by each method. */
  class RPCClientCodec {
    const libs: Libs
    const codec: Codec
    const request: MessageObject<RequestHead>
    const response: MessageObject<ResponseHead>
    var encoding: int
    var pending: Table
    /** The payloads written to the connection. */
    var written: seq<Bytes>

    constructor (libs: Libs)
      ensures Valid() && State() == FRESH_CODEC && written == [] && this.libs == libs
      ensures fresh(codec) && fresh(codec.compressor) && fresh(request) && fresh(response)
    {
      this.libs := libs;
      codec := new Codec(libs.alg);
      request := new MessageObject(ZERO_REQUEST.head, 0, null);
      response := new MessageObject(ZERO_RESPONSE.head, 0, null);
      encoding, pending, written := 0, map[], [];
    }

    /** The request's value may point into the compressor's buffers; nothing else is shared. */
    ghost predicate Valid()
      reads this, codec.compressor, codec.compressor.buffers, request, request.body, response, response.body
    {
      codec.compressor.Valid() && codec.compressor.alg == libs.alg && request.Valid() && response.Valid()
    }

    ghost function State(): CodecState
      requires Valid()
      reads this, codec.compressor, codec.compressor.buffers, request, request.body, request.Storage()
      reads response, response.body, response.Storage()
    {
      CodecState(encoding, request.View(), response.View(), pending)
    }

    method SetEncoding(encoding: int)
      requires Valid()
      modifies this`encoding
      ensures Valid() && State() == old(State()).(encoding := encoding)
    {
      this.encoding := encoding;
    }

    method FillRequest(number: nat, name: string, m: Message, value: Bytes, injected: map<string, string>)
      requires Valid()
      modifies request
      ensures Valid() && request.body != null && request.body.value.Slice? && fresh(request.body)
      ensures fresh(request.body.value.arr)
      ensures request.View() == BuildRequest(old(State()), number, name, m, value, injected)
    {
      request.head := RequestHead(number, name, request.head.metadata + injected);
      request.encoding := encoding;
      var slice := NewSlice(value);
      request.body := new AnyObject(m.typeName, slice);
    }

    /** Marshal the request in place, and write the result to the connection. */
    method SendRequest(picks: Picks) returns (err: Option<string>)
      requires Valid() && request.body != null && request.body.value.Slice?
      requires request.body.value.arr !in codec.compressor.Stores()
      modifies this`written, request.body
      modifies codec.compressor`buffers, codec.compressor`writers
      modifies codec.compressor.buffers, codec.compressor.writers, codec.compressor.Stores()
      ensures Valid() && Packed(libs.alg, old(request.View())) == Ok(request.View())
      ensures
        var sent := Marshalled(libs.alg, libs.request, old(request.View()));
        && written == old(written) + (if sent.Ok? then [sent.value] else [])
        && err == (if sent.Ok? then None else Some(sent.error))
    {
      var body := codec.Marshal(libs.request, request, picks);
      if body.Err? {
        return Some(body.error);
      }
      written := written + [body.value];
      err := None;
    }

    /** The part of WriteRequest after the message has been marshalled. */
    method WriteMessage(number: nat, name: string, m: Message, value: Bytes, injected: map<string, string>, picks: Picks)
      returns (err: Option<string>)
      requires Valid()
      modifies this`written, request
      modifies codec.compressor`buffers, codec.compressor`writers
      modifies codec.compressor.buffers, codec.compressor.writers, codec.compressor.Stores()
      ensures Valid()
      ensures
        var q := BuildRequest(old(State()), number, name, m, value, injected);
        var sent := Marshalled(libs.alg, libs.request, q);
        && Packed(libs.alg, q) == Ok(request.View())
        && written == old(written) + (if sent.Ok? then [sent.value] else [])
        && err == (if sent.Ok? then None else Some(sent.error))
    {
      FillRequest(number, name, m, value, injected);
      err := SendRequest(picks);
    }

    /** WriteRequest; injected is what the trace propagator adds for the context of the call. */
    method WriteRequest(number: nat, name: string, param: GoValue, injected: map<string, string>, picks: Picks)
      returns (err: Option<string>)
      requires Valid()
      modifies this`pending, this`written, request
      modifies codec.compressor`buffers, codec.compressor`writers
      modifies codec.compressor.buffers, codec.compressor.writers, codec.compressor.Stores()
      ensures Valid() && encoding == old(encoding)
      ensures pending == WrittenRequest(libs, old(State()), number, name, param, injected).0.pending
      ensures request.View() == WrittenRequest(libs, old(State()), number, name, param, injected).0.request
      ensures
        var sent := WrittenRequest(libs, old(State()), number, name, param, injected).1;
        && written == old(written) + (if sent.Ok? then [sent.value] else [])
        && err == (if sent.Ok? then None else Some(sent.error))
    {
      ghost var before := State();
      pending := pending[number := name];
      if !param.Proto? {
        return Some(ERR_INVALID_BODY);
      }
      var value := libs.messages.marshal(param.message);
      if value.None? {
        return Some(ERR_MARSHAL);
      }
      WrittenRequestUnfolds(libs, before, number, name, param, injected);
      err := WriteMessage(number, name, param.message, value.value, injected, picks);
    }

    /** The response object after Reset and Unmarshal. */
    method Receive(incoming: Bytes, picks: Picks) returns (err: Option<string>)
      requires Valid()
      modifies response, codec.compressor`readers, codec.compressor.readers
      ensures Valid()
      ensures Parsed(response.View(), err) ==
        if incoming == [] then Parsed(ZERO_RESPONSE, Some(EOF)) else Unmarshalled(libs.alg, libs.response, incoming)
    {
      response.head, response.encoding, response.body := ZERO_RESPONSE.head, 0, null;
      if incoming == [] {
        return Some(EOF);
      }
      err := codec.Unmarshal(libs.response, incoming, response, picks);
    }

    /** ReadResponseHeader, given all that can be read from the connection. */
    method ReadResponseHeader(incoming: Bytes, picks: Picks) returns (r: Result<ReplyHeader, string>)
      requires Valid()
      modifies this`pending, response, codec.compressor`readers, codec.compressor.readers
      ensures Valid()
      ensures
        var (st, header) := ReadHeader(libs, old(State()), incoming);
        && response.View() == st.response && pending == st.pending && encoding == st.encoding
        && r == header
    {
      var err := Receive(incoming, picks);
      if err.Some? {
        return Err(err.value);
      }
      var id := response.head.id;
      var name := if id in pending then pending[id] else "";
      pending := pending - {id};
      r := Ok(ReplyHeader(name, id, response.head.errorMessage));
    }

    method ReadResponseBody(target: GoValue) returns (result: GoValue, err: Option<string>)
      requires Valid()
      ensures (result, err) == ReadBody(libs, State(), target)
    {
      if target.Nil? {
        return target, None;
      }
      if !target.Proto? {
        return target, Some(ERR_INVALID_BODY);
      }
      if response.body == null || response.body.value.Null? || response.body.value.len == 0 {
        return target, None;
      }
      if response.body.typeUrl != target.message.typeName {
        return target, Some(ERR_TYPE_MISMATCH);
      }
      var value := response.body.value;
      var parse := libs.messages.unmarshal(target.message.typeName, value.arr[..value.len]);
      return GoValue.Proto(parse.message), parse.error;
    }

    /** The reader's turn for a response: what net/rpc makes of it, on any codec with this table. */
    method ReadReply(ghost st: CodecState, reply: GoValue, incoming: Bytes, picks: Picks)
      returns (error: Option<string>, got: GoValue)
      requires Valid() && st.pending == pending
      modifies this`pending, response, codec.compressor`readers, codec.compressor.readers
      ensures Valid() && encoding == old(encoding) && request.View() == old(request.View())
      ensures
        var (after, _, e, g) := Input(libs, st, reply, incoming);
        pending == after.pending && error == e && got == g
    {
      InputDependsOnPending(libs, st, State(), reply, incoming);
      var header := ReadResponseHeader(incoming, picks);
      got := reply;
      if header.Err? {
        error := Some(if header.error == EOF then UNEXPECTED_EOF else header.error);
      } else if header.value.number != 0 {
        error := Some(UNEXPECTED_EOF);
      } else if header.value.error != "" {
        error := Some(header.value.error);
      } else {
        var failure;
        got, failure := ReadResponseBody(reply);
        error := if failure.Some? then Some(READING_BODY + failure.value) else None;
      }
    }

    /** The reader's last turn: it clears the response object, and finds the end of the stream. */
    method FindEnd()
      requires Valid()
      modifies response
      ensures Valid() && response.View() == ZERO_RESPONSE && request.View() == old(request.View())
    {
      response.head, response.encoding, response.body := ZERO_RESPONSE.head, 0, null;
    }

    /** One Client.Call on this codec, as net/rpc drives it: what it returns and leaves is CallOnce. */
    method Call(c: CallInput, picks: Picks) returns (error: Option<string>, reply: GoValue)
      requires Valid()
      modifies this, request, response
      modifies codec.compressor, codec.compressor.buffers, codec.compressor.writers, codec.compressor.readers
      modifies codec.compressor.Stores()
      ensures Valid() && State() == CallOnce(libs, old(State()), c).0
      ensures error == CallOnce(libs, old(State()), c).1.error && reply == CallOnce(libs, old(State()), c).1.reply
    {
      CallOnceParts(libs, State(), c);
      SetEncoding(c.encoding);
      ghost var (st1, sent) := WrittenRequest(libs, State(), 0, c.name, c.args, c.injected);
      reply := c.reply;
      error := WriteRequest(0, c.name, c.args, c.injected, picks);
      if error == None {
        if c.incoming.None? {
          error := Some(CONTEXT_ERROR);
        } else {
          error, reply := ReadReply(st1, c.reply, c.incoming.value, picks);
        }
      }
      FindEnd();
    }
  }
}
