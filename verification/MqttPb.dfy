/** The server of the protobuf transport: what a request context binds, and what it publishes as reply. */
module MqttPb {
  import opened Wrappers
  import opened Rrpc
  import opened Compression
  import opened Wire
  import opened RpcClients
  import opened Topics
  import opened Paths

  /** A request and the topic it came on. */
  datatype RequestData = RequestData(topic: string, request: Request)

  datatype ResponseData = ResponseData(topic: string, response: ReplyMessage)

  /** A message handed to the broker. */
  datatype Publication = Publication(topic: string, payload: Bytes)

  /** Go's conversion of an int to int32: it keeps exactly the numbers that fit, and the low 32 bits of the others. */
  function ToInt32(n: int): (m: int)
    ensures -0x8000_0000 <= m < 0x8000_0000
    ensures m == n <==> -0x8000_0000 <= n < 0x8000_0000
    ensures (n - m) % 0x1_0000_0000 == 0
  {
    var low := n % 0x1_0000_0000;
    if low >= 0x8000_0000 then low - 0x1_0000_0000 else low
  }

  function GetResponse(r: RequestData): ResponseData {
    ResponseData(ReplyTopic(r.topic),
                 Envelope(ResponseHead(r.request.head.id, 0, "", map[]), r.request.encoding, None))
  }

  /** None where the message does not marshal; the caller then panics on the nil response. */
  function MakeOKResponse(libs: Libs, r: RequestData, data: Message): Option<ResponseData> {
    match libs.messages.marshal(data)
    case None => None
    case Some(value) =>
      var res := GetResponse(r);
      Some(res.(response := res.response.(head := res.response.head.(status := STATUS_OK),
                                          body := Some(AnyBody(data.typeName, Some(value))))))
  }

  function MakeErrResponse(r: RequestData, status: int, text: string): ResponseData {
    var res := GetResponse(r);
    res.(response := res.response.(head := res.response.head.(status := ToInt32(status), errorMessage := text)))
  }

  const EMPTY: Message := Message("*emptypb.Empty", [])

  /** The response that MQTTContext.Reply builds: the error, the message, or an empty message for anything else. */
  function BuildResponse(libs: Libs, r: RequestData, res: Response): Option<ResponseData> {
    if res.error.Some? then Some(MakeErrResponse(r, res.status, res.error.value))
    else if res.result.Proto? then MakeOKResponse(libs, r, res.result.message)
    else MakeOKResponse(libs, r, EMPTY)
  }

  /** Server.reply: nothing is published where the response does not marshal. */
  function Publish(libs: Libs, res: ResponseData): Option<Publication> {
    match Marshalled(libs.alg, libs.response, res.response)
    case Err(_) => None
    case Ok(payload) => Some(Publication(res.topic, payload))
  }

  /** MQTTContext.Reply as a whole. */
  function Replied(libs: Libs, r: RequestData, res: Response): Option<Publication> {
    match BuildResponse(libs, r, res)
    case None => None
    case Some(data) => Publish(libs, data)
  }

  // ---- Publishing in two steps -----------------------------------------------------------------------------------

  /** The compressed body, where it goes through one of the compressor's buffers. */
  function Encoded(libs: Libs, m: ReplyMessage): Option<Bytes> {
    var format := FormatOf(ConvertEncoding(m.encoding));
    if m.body.Some? && m.body.value.value.Some? && format.Some? then
      Some(libs.alg.encode(format.value, m.body.value.value.value))
    else None
  }

  function WithValue(m: ReplyMessage, value: Bytes): ReplyMessage
    requires m.body.Some?
  {
    m.(body := Some(m.body.value.(value := Some(value))))
  }

  /** Server.reply where the bytes found in the buffer, when they are copied, are the given ones. */
  function PublishWith(libs: Libs, res: ResponseData, value: Bytes): Option<Publication>
    requires res.response.body.Some?
  {
    match libs.response.marshal(WithValue(res.response, value))
    case None => None
    case Some(payload) => Some(Publication(res.topic, payload))
  }

  /** MQTTContext.Reply as a whole, likewise. */
  function RepliedWith(libs: Libs, r: RequestData, res: Response, value: Bytes): Option<Publication> {
    match BuildResponse(libs, r, res)
    case None => None
    case Some(data) => if data.response.body.None? then None else PublishWith(libs, data, value)
  }

  /** What a publication carries that was made from any bytes: everything but the body is the response's own. */
  lemma PublicationWithBytes(libs: Libs, r: RequestData, res: Response, value: Bytes)
    requires LibsLawful(libs) && RepliedWith(libs, r, res, value).Some?
    ensures
      var pub := RepliedWith(libs, r, res, value).value;
      var parsed := libs.response.unmarshal(pub.payload);
      && pub.topic == ReplyTopic(r.topic)
      && parsed == Parsed(Wire.Normal(WithValue(BuildResponse(libs, r, res).value.response, value)), None)
      && Unmarshalled(libs.alg, libs.response, pub.payload).message.head
         == BuildResponse(libs, r, res).value.response.head
  {
  }

  /** It is the response's own publication exactly when the bytes are those of its own compressed body. */
  lemma OwnExactlyWithOwnBytes(libs: Libs, r: RequestData, res: Response, own: Bytes, value: Bytes)
    requires LibsLawful(libs) && BuildResponse(libs, r, res).Some? && value != []
    requires Encoded(libs, BuildResponse(libs, r, res).value.response) == Some(own)
    ensures RepliedWith(libs, r, res, own) == Replied(libs, r, res)
    ensures RepliedWith(libs, r, res, value).Some? ==>
      (RepliedWith(libs, r, res, value) == Replied(libs, r, res) <==> value == own)
  {
    if RepliedWith(libs, r, res, value).Some? && RepliedWith(libs, r, res, own).Some? {
      PublicationWithBytes(libs, r, res, value);
      PublicationWithBytes(libs, r, res, own);
    }
  }

  datatype Binding = Bound(message: Message) | BindFails(text: string) | BindPanics

  const ERR_NOT_PROTO: string := "[RRPC] request type is not protobuf message"

  /** MQTTContext.Bind into a target; a request without body makes it dereference nil. */
  function Bind(libs: Libs, r: RequestData, target: GoValue): Binding {
    if !target.Proto? then BindFails(ERR_NOT_PROTO)
    else if r.request.body.None? then BindPanics
    else if target.message.typeName != r.request.body.value.typeUrl then
      BindFails("[RRPC] type " + target.message.typeName + " is not found")
    else
      var value := r.request.body.value.value;
      var parse := libs.messages.unmarshal(target.message.typeName, if value.Some? then value.value else []);
      if parse.error.Some? then BindFails(parse.error.value) else Bound(parse.message)
  }

  /**
   A target is bound exactly if it is a message of the body's type and the body's value parses as one; else the handler
   gets the reason, the parser's own for a value that does not parse.
   */
  lemma BindsExactlyWhatParses(libs: Libs, r: RequestData, target: GoValue)
    requires r.request.body.Some?
    ensures
      var body := r.request.body.value;
      var bytes := if body.value.Some? then body.value.value else [];
      var bound := Bind(libs, r, target);
      && (bound.Bound? <==>
            target.Proto? && target.message.typeName == body.typeUrl
            && libs.messages.unmarshal(body.typeUrl, bytes).error == None)
      && (bound.Bound? ==> bound.message == libs.messages.unmarshal(body.typeUrl, bytes).message)
      && (!target.Proto? ==> bound == BindFails("[RRPC] request type is not protobuf message"))
      && (target.Proto? && target.message.typeName != body.typeUrl ==>
            bound == BindFails("[RRPC] type " + target.message.typeName + " is not found"))
      && (target.Proto? && target.message.typeName == body.typeUrl && !bound.Bound? ==>
            libs.messages.unmarshal(body.typeUrl, bytes).error == Some(bound.text))
  {
  }

  // ---- From the client to the handler ----------------------------------------------------------------------------

  /**
   Whatever calls the client's codec has served before, and for every encoding: what the handler binds to the type of
   the argument is the argument, and any other type is refused.
   */
  lemma HandlerBindsTheArgument(libs: Libs, calls: seq<CallInput>, c: CallInput, topic: string, target: GoValue)
    requires LibsLawful(libs) && CallOnce(libs, AfterCalls(libs, calls), c).1.sent.Ok?
    ensures
      var sent := CallOnce(libs, AfterCalls(libs, calls), c).1.sent.value;
      var request := Arrived(libs, sent).message;
      && c.args.Proto? && Arrived(libs, sent).error == None
      && request.head.id == 0 && request.head.name == c.name && request.encoding == c.encoding
      && (target.Proto? ==>
            Bind(libs, RequestData(topic, request), target)
            == if target.message.typeName == c.args.message.typeName then Bound(c.args.message)
               else BindFails("[RRPC] type " + target.message.typeName + " is not found"))
  {
    var st := AfterCalls(libs, calls);
    PendingHoldsOnlyZero(libs, calls);
    SentCall(libs, st, c);
    var value := libs.messages.marshal(c.args.message).value;
    SentArrives(libs, BuildRequest(st.(encoding := c.encoding), 0, c.name, c.args.message, value, c.injected));
  }

  // ---- From the handler to the client ----------------------------------------------------------------------------

  /** What Call returns for a response, in terms of the response alone: the error, and the reply object. */
  function ClientSees(libs: Libs, res: Response, reply: Message): (Option<string>, Message) {
    if res.error.Some? then (Some(res.error.value), reply)
    else if !res.result.Proto? || libs.messages.marshal(res.result.message) == Some([]) then (None, reply)
    else if res.result.message.typeName == reply.typeName then (None, res.result.message)
    else (Some(READING_BODY + ERR_TYPE_MISMATCH), reply)
  }

  /** A response with an empty error text is no error to the client, and one with no content at all ends the stream. */
  predicate Reportable(res: Response) { res.error != Some("") }

  /** What arrives of a response: its own fields, and its value up to nil and empty. */
  lemma ResponseArrives(libs: Libs, m: ReplyMessage)
    requires LibsLawful(libs) && Marshalled(libs.alg, libs.response, m).Ok?
    ensures
      var payload := Marshalled(libs.alg, libs.response, m).value;
      var got := Unmarshalled(libs.alg, libs.response, payload);
      && got.error == None && SameContent(got.message, m)
      && (payload == [] ==> m.head == ZERO_RESPONSE.head)
  {
    CodecRoundTrip(libs.alg, libs.response, m);
    assert Packed(libs.alg, m).value.head == m.head;
  }

  /** What every publication carries: the id and encoding of its request, and the status and text of the response. */
  lemma PublicationCarriesTheResponse(libs: Libs, r: RequestData, res: Response)
    requires LibsLawful(libs) && Replied(libs, r, res).Some?
    ensures
      var pub := Replied(libs, r, res).value;
      var got := Unmarshalled(libs.alg, libs.response, pub.payload);
      && pub.topic == ReplyTopic(r.topic) && got.error == None
      && got.message.encoding == r.request.encoding
      && got.message.head.id == r.request.head.id
      && got.message.head.status == (if res.error.Some? then ToInt32(res.status) else 200)
      && got.message.head.errorMessage == (if res.error.Some? then res.error.value else "")
      && (got.message.body.Some? <==> res.error.None?)
      && (res.error.None? ==>
            var result := if res.result.Proto? then res.result.message else Message("*emptypb.Empty", []);
            var value := got.message.body.value.value;
            && got.message.body.value.typeUrl == result.typeName
            && libs.messages.marshal(result) == Some(if value.Some? then value.value else []))
  {
    ResponseArrives(libs, BuildResponse(libs, r, res).value.response);
  }

  /** Nothing is published for a result that does not marshal; an error always has a response. */
  lemma UnmarshallableResult(libs: Libs, r: RequestData, res: Response)
    ensures
      var result := if res.result.Proto? then res.result.message else Message("*emptypb.Empty", []);
      BuildResponse(libs, r, res) == None <==> res.error.None? && libs.messages.marshal(result) == None
    ensures BuildResponse(libs, r, res) == None ==> Replied(libs, r, res) == None
  {
  }

  lemma InputOfResponse(libs: Libs, st: CodecState, m: ReplyMessage, reply: Message)
    requires LibsLawful(libs) && Marshalled(libs.alg, libs.response, m).Ok?
    requires m.head.id == 0 && m.head != ZERO_RESPONSE.head
    ensures
      var (_, name, error, got) :=
        Input(libs, st, GoValue.Proto(reply), Marshalled(libs.alg, libs.response, m).value);
      && name == Pendings.Reported(st.pending, 0)
      && (m.head.errorMessage != "" ==> error == Some(m.head.errorMessage) && got == GoValue.Proto(reply))
      && (m.head.errorMessage == "" && (m.body.None? || m.body.value.value == Some([])) ==>
            error == None && got == GoValue.Proto(reply))
      && (m.head.errorMessage == "" && m.body.Some? && m.body.value.value.Some? && m.body.value.value.value != [] ==>
            if m.body.value.typeUrl != reply.typeName then
              error == Some(READING_BODY + ERR_TYPE_MISMATCH) && got == GoValue.Proto(reply)
            else
              var parse := libs.messages.unmarshal(reply.typeName, m.body.value.value.value);
              parse.error == None ==> error == None && got == GoValue.Proto(parse.message))
  {
    ResponseArrives(libs, m);
  }

  /**
   For every encoding: the client gets the text of an error and keeps its reply object, or it gets the message, unless
   the message has no content or another type than the reply object.
   */
  lemma ClientSeesTheResponse(libs: Libs, st: CodecState, r: RequestData, res: Response, reply: Message)
    requires LibsLawful(libs) && r.request.head.id == 0 && Reportable(res) && Replied(libs, r, res).Some?
    ensures
      var (_, name, error, got) := Input(libs, st, GoValue.Proto(reply), Replied(libs, r, res).value.payload);
      && name == Pendings.Reported(st.pending, 0)
      && (error, got) == (ClientSees(libs, res, reply).0, GoValue.Proto(ClientSees(libs, res, reply).1))
  {
    var m := BuildResponse(libs, r, res).value.response;
    assert m.head != ZERO_RESPONSE.head;
    InputOfResponse(libs, st, m, reply);
  }

  /** An error with an empty text is lost: the client's Call reports none, or a broken stream, and the reply stays. */
  lemma EmptyErrorIsLost(libs: Libs, st: CodecState, r: RequestData, res: Response, reply: Message)
    requires LibsLawful(libs) && r.request.head.id == 0 && res.error == Some("") && Replied(libs, r, res).Some?
    ensures
      var (_, _, error, got) := Input(libs, st, GoValue.Proto(reply), Replied(libs, r, res).value.payload);
      got == GoValue.Proto(reply) && (error == None || error == Some(UNEXPECTED_EOF))
      && (ToInt32(res.status) != 0 ==> error == None)
  {
    var m := BuildResponse(libs, r, res).value.response;
    if m.head != ZERO_RESPONSE.head {
      InputOfResponse(libs, st, m, reply);
    } else {
      ResponseArrives(libs, m);
    }
  }

  /**
   Call succeeds and leaves the result in the reply object exactly when the result has content and the type of the
   reply object, or the reply object already was that result without content.
   */
  lemma ExactTransparency(libs: Libs, st: CodecState, r: RequestData, m: Message, reply: Message)
    requires LibsLawful(libs) && r.request.head.id == 0 && Replied(libs, r, OkResponse(GoValue.Proto(m))).Some?
    ensures
      var payload := Replied(libs, r, OkResponse(GoValue.Proto(m))).value.payload;
      var (_, _, error, got) := Input(libs, st, GoValue.Proto(reply), payload);
      error == None && got == GoValue.Proto(m)
      <==> if libs.messages.marshal(m) == Some([]) then reply == m else reply.typeName == m.typeName
  {
    ClientSeesTheResponse(libs, st, r, OkResponse(GoValue.Proto(m)), reply);
  }

  lemma DefaultMarshalsToNothing(lib: MessageLib, m: Message)
    requires MessagesLawful(lib) && lib.marshal(m) == Some([])
    ensures m == Message(m.typeName, [])
  {
    assert lib.unmarshal(m.typeName, []) == MessageParse(m, None);
  }

  /** A reply object of the result's type that starts with no field set ends equal to the result. */
  lemma Transparency(libs: Libs, st: CodecState, r: RequestData, m: Message)
    requires LibsLawful(libs) && r.request.head.id == 0 && Replied(libs, r, OkResponse(GoValue.Proto(m))).Some?
    ensures
      var payload := Replied(libs, r, OkResponse(GoValue.Proto(m))).value.payload;
      var (_, _, error, got) := Input(libs, st, GoValue.Proto(Message(m.typeName, [])), payload);
      error == None && got == GoValue.Proto(m)
  {
    ExactTransparency(libs, st, r, m, Message(m.typeName, []));
    if libs.messages.marshal(m) == Some([]) {
      DefaultMarshalsToNothing(libs.messages, m);
    }
  }

  /** A reply object with content of its own keeps it where the result has none. */
  lemma StaleReplySurvives(libs: Libs, st: CodecState, r: RequestData, reply: Message)
    requires LibsLawful(libs) && r.request.head.id == 0 && reply.fields != []
    requires Replied(libs, r, OkResponse(GoValue.Proto(Message(reply.typeName, [])))).Some?
    ensures
      var payload := Replied(libs, r, OkResponse(GoValue.Proto(Message(reply.typeName, [])))).value.payload;
      var (_, _, error, got) := Input(libs, st, GoValue.Proto(reply), payload);
      error == None && got == GoValue.Proto(reply) && got != GoValue.Proto(Message(reply.typeName, []))
  {
    ClientSeesTheResponse(libs, st, r, OkResponse(GoValue.Proto(Message(reply.typeName, []))), reply);
  }

  // ---- The whole exchange ----------------------------------------------------------------------------------------

  /** What a client's call gets from a message published for its request. */
  lemma CallGetsTheResponse(libs: Libs, calls: seq<CallInput>, c: CallInput, r: RequestData, res: Response,
                            reply: Message)
    requires LibsLawful(libs) && Reportable(res) && c.reply == GoValue.Proto(reply) && r.request.head.id == 0
    requires Replied(libs, r, res).Some? && c.incoming == Some(Replied(libs, r, res).value.payload)
    requires CallOnce(libs, AfterCalls(libs, calls), c).1.sent.Ok?
    ensures
      var t := CallOnce(libs, AfterCalls(libs, calls), c).1;
      && t.reported == c.name
      && t.error == ClientSees(libs, res, reply).0
      && t.reply == GoValue.Proto(ClientSees(libs, res, reply).1)
  {
    PendingHoldsOnlyZero(libs, calls);
    SentCall(libs, AfterCalls(libs, calls), c);
    ClientSeesTheResponse(libs, FRESH_CODEC.(pending := map[0 := c.name]), r, res, reply);
  }

  /** What is sent does not depend on what will come back. */
  lemma SentBeforeIncoming(libs: Libs, st: CodecState, c: CallInput, payload: Bytes)
    ensures CallOnce(libs, st, c.(incoming := Some(payload))).1.sent == CallOnce(libs, st, c).1.sent
  {
  }

  /**
   A Call after any earlier ones, a handler's response to what arrived, and the message published for it: it goes to the
   topic on which the client waits exactly when the cleaned path is free of the word, and once it is there the Call
   returns what ClientSees says.
   */
  lemma WholeExchange(libs: Libs, calls: seq<CallInput>, c: CallInput, prefix: string, device: string, id: string,
                      res: Response, reply: Message)
    requires LibsLawful(libs) && Plain(id) && Reportable(res) && c.reply == GoValue.Proto(reply)
    requires CallOnce(libs, AfterCalls(libs, calls), c).1.sent.Ok?
    ensures
      var st := AfterCalls(libs, calls);
      var request := Arrived(libs, CallOnce(libs, st, c).1.sent.value).message;
      var pub := Replied(libs, RequestData(ClientTopic(prefix, device, REQUEST, id), request), res);
      pub.Some? ==>
        && (pub.value.topic == ClientTopic(prefix, device, RESPONSE, id) <==> !Occurs(Base(prefix, device), REQUEST))
        && var t := CallOnce(libs, st, c.(incoming := Some(pub.value.payload))).1;
           && t.reported == c.name
           && t.error == ClientSees(libs, res, reply).0
           && t.reply == GoValue.Proto(ClientSees(libs, res, reply).1)
  {
    var st := AfterCalls(libs, calls);
    var request := Arrived(libs, CallOnce(libs, st, c).1.sent.value).message;
    var r := RequestData(ClientTopic(prefix, device, REQUEST, id), request);
    HandlerBindsTheArgument(libs, calls, c, r.topic, c.args);
    var pub := Replied(libs, r, res);
    if pub.Some? {
      assert pub.value.topic == ReplyTopic(r.topic);
      ReplyTopicTheorem(prefix, device, id);
      SentBeforeIncoming(libs, st, c, pub.value.payload);
      CallGetsTheResponse(libs, calls, c.(incoming := Some(pub.value.payload)), r, res, reply);
    }
  }
}
