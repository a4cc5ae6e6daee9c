/** The JSON transport: the client codec, the server's replies, and how errors travel in both transports. */
module MqttJson {
  import opened Wrappers
  import opened Rrpc
  import opened Compression
  import opened Pendings
  import opened Paths
  import opened Topics
  import RpcClients
  import MqttPb

  /** The text of one JSON value. */
  type Json = string

  const NULL: Json := "null"

  datatype JsonRequest = JsonRequest(id: nat, name: string, metadata: map<string, string>, params: Json)

  /** A raw message is nil, None, or a text. */
  datatype JsonResponse =
    JsonResponse(id: nat, name: string, status: int, metadata: map<string, string>, data: Option<Json>)

  /** The response object of a new client codec. */
  const NO_RESPONSE := JsonResponse(0, "", 0, map[], None)

  /**
   encoding/json on the values this transport passes to it.  Values and responses are decoded into what is there: the
   result is what is left in it, and the error.
   */
  datatype JsonLib = JsonLib(
    encodeValue: GoValue -> Option<Json>,
    decodeInto: (GoValue, Json) -> (GoValue, Option<string>),
    encodeError: string -> Json,
    decodeError: Json -> Result<string, string>,
    encodeRequest: JsonRequest -> Option<Bytes>,
    decodeRequest: Bytes -> Result<JsonRequest, string>,
    encodeResponse: JsonResponse -> Option<Bytes>,
    decodeResponse: (JsonResponse, Bytes) -> (JsonResponse, Option<string>))

  /** A nil raw message is written as null, and read back as that text. */
  function Canonical(r: JsonResponse): JsonResponse {
    if r.data.None? then r.(data := Some(NULL)) else r
  }

  /** The texts that this transport puts into its messages: json.Marshal has written each of them, so it is compact. */
  ghost predicate Produced(lib: JsonLib, text: Json) {
    || text == NULL
    || (exists x: GoValue :: lib.encodeValue(x) == Some(text))
    || (exists e: string :: lib.encodeError(e) == text)
  }

  /** Decoding undoes encoding on what the transport produces. */
  ghost predicate JsonLawful(lib: JsonLib) {
    && (forall text: string :: lib.decodeError(lib.encodeError(text)) == Ok(text))
    && (forall q: JsonRequest ::
          Produced(lib, q.params) && lib.encodeRequest(q).Some? ==>
            lib.decodeRequest(lib.encodeRequest(q).value) == Ok(q))
    && (forall r: JsonResponse ::
          (r.data.Some? ==> Produced(lib, r.data.value)) && lib.encodeResponse(r).Some? ==>
            lib.decodeResponse(NO_RESPONSE, lib.encodeResponse(r).value) == (Canonical(r), None))
  }

  /** Values that JSON keeps, and for each an empty object of its type. */
  datatype Values = Values(plain: GoValue -> bool, empty: GoValue -> GoValue)

  /** A plain value encodes, and decodes into an empty object of its type to itself. */
  ghost predicate ValuesLawful(lib: JsonLib, values: Values) {
    forall x: GoValue :: values.plain(x) ==>
      && lib.encodeValue(x).Some? && !values.empty(x).Nil?
      && lib.decodeInto(values.empty(x), lib.encodeValue(x).value) == (x, None)
  }

  // ---- The server ------------------------------------------------------------------------------------------------

  datatype JsonRequestData = JsonRequestData(topic: string, request: JsonRequest)

  function JsonOKResponse(lib: JsonLib, r: JsonRequestData, x: GoValue): JsonResponse {
    JsonResponse(r.request.id, r.request.name, STATUS_OK, map[], lib.encodeValue(x))
  }

  function JsonErrResponse(lib: JsonLib, r: JsonRequestData, status: int, text: string): JsonResponse {
    JsonResponse(r.request.id, r.request.name, status, map[], Some(lib.encodeError(text)))
  }

  function BuildJsonResponse(lib: JsonLib, r: JsonRequestData, res: Response): JsonResponse {
    if res.error.Some? then JsonErrResponse(lib, r, res.status, res.error.value)
    else JsonOKResponse(lib, r, res.result)
  }

  /** MQTTContext.Reply as a whole: the topic and the payload, or nothing. */
  function JsonReplied(lib: JsonLib, r: JsonRequestData, res: Response): Option<MqttPb.Publication> {
    match lib.encodeResponse(BuildJsonResponse(lib, r, res))
    case None => None
    case Some(payload) => Some(MqttPb.Publication(JsonReplyTopic(r.topic), payload))
  }

  /** MQTTContext.Bind: decode, then validate. */
  function JsonBind(lib: JsonLib, validate: GoValue -> Option<string>, r: JsonRequestData, target: GoValue)
    : (GoValue, Option<string>)
  {
    var (bound, err) := lib.decodeInto(target, r.request.params);
    if err.Some? then (bound, err) else (bound, validate(bound))
  }

  // ---- The client codec ------------------------------------------------------------------------------------------

  const UNSPECIFIED: string := "unspecified error"

  /** The error text of a response. */
  function ErrorText(lib: JsonLib, r: JsonResponse): Result<string, string> {
    if r.status != STATUS_OK then lib.decodeError(if r.data.Some? then r.data.value else "")
    else if r.data.None? then Ok(UNSPECIFIED)
    else Ok("")
  }

  /** ReadResponseHeader on a decoded response. */
  function JsonHeader(lib: JsonLib, pending: Table, r: JsonResponse): (Table, Result<RpcClients.ReplyHeader, string>) {
    (Apply(pending, Header(r.id)),
     match ErrorText(lib, r)
     case Err(e) => Err(e)
     case Ok(text) => Ok(RpcClients.ReplyHeader(Reported(pending, r.id), r.id, text)))
  }

  /** What ReadResponseHeader leaves: the response object and the table, and what it returns. */
  datatype HeaderRead = HeaderRead(resp: JsonResponse, pending: Table, header: Result<RpcClients.ReplyHeader, string>)

  /** ReadResponseHeader on a payload: one that does not decode leaves the table alone. */
  function JsonRead(lib: JsonLib, resp: JsonResponse, pending: Table, incoming: Bytes): HeaderRead {
    var (decoded, failure) := lib.decodeResponse(resp, incoming);
    match failure
    case Some(e) => HeaderRead(decoded, pending, Err(e))
    case None => HeaderRead(decoded, JsonHeader(lib, pending, decoded).0, JsonHeader(lib, pending, decoded).1)
  }

  /** ReadResponseBody: the target afterwards, and the error. */
  function JsonBody(lib: JsonLib, r: JsonResponse, target: GoValue): (GoValue, Option<string>) {
    if target.Nil? then (target, None) else lib.decodeInto(target, if r.data.Some? then r.data.value else "")
  }

  /** The reader of net/rpc, for the one call of a client, given the payload of its one response. */
  function JsonInput(lib: JsonLib, pending: Table, reply: GoValue, incoming: Bytes): (string, Option<string>, GoValue) {
    var read := JsonRead(lib, NO_RESPONSE, pending, incoming);
    match read.header
    case Err(e) => ("", Some(if e == RpcClients.EOF then RpcClients.UNEXPECTED_EOF else e), reply)
    case Ok(h) =>
      if h.number != 0 then (h.name, Some(RpcClients.UNEXPECTED_EOF), reply)
      else if h.error != "" then (h.name, Some(h.error), reply)
      else
        var (got, err) := JsonBody(lib, read.resp, reply);
        (h.name, if err.Some? then Some(RpcClients.READING_BODY + err.value) else None, got)
  }

  /** rpcClientCodec: the request and response are rewritten by each call. */
  class JsonClientCodec {
    const lib: JsonLib
    var req: JsonRequest
    var resp: JsonResponse
    var pending: Table
    var written: seq<Bytes>

    constructor (lib: JsonLib)
      ensures this.lib == lib && pending == map[] && written == []
      ensures req == JsonRequest(0, "", map[], NULL) && resp == NO_RESPONSE
    {
      this.lib := lib;
      req, resp := JsonRequest(0, "", map[], NULL), NO_RESPONSE;
      pending, written := map[], [];
    }

    /** A parameter that does not encode is refused before anything is registered. */
    method WriteRequest(number: nat, name: string, param: GoValue, injected: map<string, string>)
      returns (ok: bool)
      modifies this
      ensures lib.encodeValue(param) == None ==>
        !ok && pending == old(pending) && req == old(req) && written == old(written)
      ensures lib.encodeValue(param).Some? ==>
        && pending == Apply(old(pending), Write(number, name))
        && req == JsonRequest(number, name, old(req).metadata + injected, lib.encodeValue(param).value)
        && (ok <==> lib.encodeRequest(req).Some?)
        && written == old(written) + (if ok then [lib.encodeRequest(req).value] else [])
      ensures resp == old(resp)
    {
      var params := lib.encodeValue(param);
      if params.None? {
        return false;
      }
      pending := pending[number := name];
      req := JsonRequest(number, name, req.metadata + injected, params.value);
      var body := lib.encodeRequest(req);
      ok := body.Some?;
      if ok {
        written := written + [body.value];
      }
    }

    method ReadResponseHeader(incoming: Bytes) returns (r: Result<RpcClients.ReplyHeader, string>)
      modifies this`resp, this`pending
      ensures HeaderRead(resp, pending, r) == JsonRead(lib, old(resp), old(pending), incoming)
    {
      var decoded := lib.decodeResponse(resp, incoming);
      resp := decoded.0;
      if decoded.1.Some? {
        return Err(decoded.1.value);
      }
      var name := if resp.id in pending then pending[resp.id] else "";
      pending := pending - {resp.id};
      var error := "";
      if resp.data.None? {
        error := UNSPECIFIED;
      }
      if resp.status != STATUS_OK {
        var text := lib.decodeError(if resp.data.Some? then resp.data.value else "");
        if text.Err? {
          return Err(text.error);
        }
        error := text.value;
      }
      r := Ok(RpcClients.ReplyHeader(name, resp.id, error));
    }

    method ReadResponseBody(target: GoValue) returns (result: GoValue, err: Option<string>)
      ensures (result, err) == JsonBody(lib, resp, target)
    {
      if target.Nil? {
        return target, None;
      }
      var decoded := lib.decodeInto(target, if resp.data.Some? then resp.data.value else "");
      return decoded.0, decoded.1;
    }
  }

  // ---- Results ---------------------------------------------------------------------------------------------------

  /** What JSON text the handler binds from: the one the client encoded. */
  lemma HandlerDecodesTheArgument(lib: JsonLib, validate: GoValue -> Option<string>, q: JsonRequest, topic: string,
                                  param: GoValue, target: GoValue)
    requires JsonLawful(lib) && lib.encodeValue(param) == Some(q.params) && lib.encodeRequest(q).Some?
    ensures
      var arrived := lib.decodeRequest(lib.encodeRequest(q).value);
      && arrived == Ok(q)
      && var (bound, err) := lib.decodeInto(target, lib.encodeValue(param).value);
         JsonBind(lib, validate, JsonRequestData(topic, arrived.value), target)
         == if err.Some? then (bound, err) else (bound, validate(bound))
  {
    assert Produced(lib, q.params);
  }

  /** What the client gets for a response, in terms of the response alone. */
  function JsonClientSees(lib: JsonLib, res: Response, reply: GoValue): (Option<string>, GoValue) {
    if res.error.Some? && res.status != STATUS_OK && res.error.value != "" then (Some(res.error.value), reply)
    else
      var data := if res.error.Some? then lib.encodeError(res.error.value)
                  else if lib.encodeValue(res.result).Some? then lib.encodeValue(res.result).value
                  else NULL;
      var (got, err) := if reply.Nil? then (reply, None) else lib.decodeInto(reply, data);
      (if err.Some? then Some(RpcClients.READING_BODY + err.value) else None, got)
  }

  /** What arrives of a response that a server builds. */
  lemma JsonResponseArrives(lib: JsonLib, r: JsonRequestData, res: Response)
    requires JsonLawful(lib) && lib.encodeResponse(BuildJsonResponse(lib, r, res)).Some?
    ensures
      var m := BuildJsonResponse(lib, r, res);
      lib.decodeResponse(NO_RESPONSE, lib.encodeResponse(m).value) == (Canonical(m), None)
  {
    var m := BuildJsonResponse(lib, r, res);
    if res.error.Some? {
      assert lib.encodeError(res.error.value) == m.data.value;
    } else if m.data.Some? {
      assert lib.encodeValue(res.result) == Some(m.data.value);
    }
    assert m.data.Some? ==> Produced(lib, m.data.value);
  }

  /**
   What is published for any request and any response: on the request's reply topic, with the id and the method of the
   request, the handler's status or 200, and the text of the error or the result.
   */
  lemma JsonPublicationCarriesTheResponse(lib: JsonLib, r: JsonRequestData, res: Response)
    requires JsonLawful(lib) && JsonReplied(lib, r, res).Some?
    ensures
      var pub := JsonReplied(lib, r, res).value;
      var (got, failure) := lib.decodeResponse(NO_RESPONSE, pub.payload);
      && pub.topic == JsonReplyTopic(r.topic) && failure == None
      && got.id == r.request.id && got.name == r.request.name && got.metadata == map[]
      && got.status == (if res.error.Some? then res.status else 200)
      && got.data == Some(if res.error.Some? then lib.encodeError(res.error.value)
                          else if lib.encodeValue(res.result).Some? then lib.encodeValue(res.result).value
                          else "null")
  {
    JsonResponseArrives(lib, r, res);
  }

  /** Every way in which a response can end the client's Call, by what is decoded from it. */
  lemma JsonCallEnds(lib: JsonLib, pending: Table, reply: GoValue, incoming: Bytes)
    ensures
      var (got, failure) := lib.decodeResponse(NO_RESPONSE, incoming);
      var (_, error, result) := JsonInput(lib, pending, reply, incoming);
      var text := if got.data.Some? then got.data.value else "";
      if failure.Some? then
        error == Some(if failure.value == "EOF" then "unexpected EOF" else failure.value) && result == reply
      else if got.status != 200 && lib.decodeError(text).Err? then
        var e := lib.decodeError(text).error;
        error == Some(if e == "EOF" then "unexpected EOF" else e) && result == reply
      else if got.id != 0 then error == Some("unexpected EOF") && result == reply
      else if got.status != 200 && lib.decodeError(text).value != "" then
        error == Some(lib.decodeError(text).value) && result == reply
      else if got.status == 200 && got.data == None then error == Some("unspecified error") && result == reply
      else if reply == Nil then error == None && result == reply
      else
        && result == lib.decodeInto(reply, text).0
        && error == match lib.decodeInto(reply, text).1
                    case None => None
                    case Some(e) => Some("reading body " + e)
  {
    var (got, failure) := lib.decodeResponse(NO_RESPONSE, incoming);
    var read := JsonRead(lib, NO_RESPONSE, pending, incoming);
    assert read.resp == got;
    assert failure.Some? ==> read.header == Err(failure.value);
    assert failure.None? ==> read.header == JsonHeader(lib, pending, got).1;
  }

  lemma JsonClientSeesTheResponse(lib: JsonLib, pending: Table, r: JsonRequestData, res: Response, reply: GoValue)
    requires JsonLawful(lib) && r.request.id == 0 && JsonReplied(lib, r, res).Some?
    ensures JsonInput(lib, pending, reply, JsonReplied(lib, r, res).value.payload)
      == (Reported(pending, 0), JsonClientSees(lib, res, reply).0, JsonClientSees(lib, res, reply).1)
  {
    JsonResponseArrives(lib, r, res);
  }

  /** The header of an error response carries the handler's text exactly when its status is not 200, or it is empty. */
  lemma JsonErrorNeedsStatus(lib: JsonLib, pending: Table, r: JsonRequestData, status: int, text: string)
    requires JsonLawful(lib) && lib.encodeResponse(JsonErrResponse(lib, r, status, text)).Some?
    ensures
      var payload := lib.encodeResponse(JsonErrResponse(lib, r, status, text)).value;
      var header := JsonRead(lib, NO_RESPONSE, pending, payload).header;
      header.Ok? && (header.value.error == text <==> status != STATUS_OK || text == "")
  {
    JsonResponseArrives(lib, r, ErrorResponse(status, text));
  }

  /**
   A result that does not encode is lost: the client decodes null into its reply object.  The Call returns no error, and
   the object stays as it was, exactly when null decodes so into that object; into a slice or a map it decodes to nil.
   */
  lemma UnencodableResultIsLost(lib: JsonLib, pending: Table, r: JsonRequestData, x: GoValue, reply: GoValue)
    requires JsonLawful(lib) && r.request.id == 0 && lib.encodeValue(x) == None && !reply.Nil?
    requires JsonReplied(lib, r, OkResponse(x)).Some?
    ensures
      var (_, error, got) := JsonInput(lib, pending, reply, JsonReplied(lib, r, OkResponse(x)).value.payload);
      var (decoded, failure) := lib.decodeInto(reply, NULL);
      && got == decoded && (error == None <==> failure == None)
      && (error == None && got == reply <==> lib.decodeInto(reply, NULL) == (reply, None))
  {
    JsonClientSeesTheResponse(lib, pending, r, OkResponse(x), reply);
  }

  /** What the client decodes for a result. */
  function ResultText(lib: JsonLib, x: GoValue): Json {
    if lib.encodeValue(x).Some? then lib.encodeValue(x).value else NULL
  }

  /** A Call succeeds with the handler's result in the reply object exactly when its text decodes to it there. */
  lemma JsonTransparency(lib: JsonLib, pending: Table, r: JsonRequestData, x: GoValue, reply: GoValue)
    requires JsonLawful(lib) && r.request.id == 0 && !reply.Nil? && JsonReplied(lib, r, OkResponse(x)).Some?
    ensures
      var (_, error, got) := JsonInput(lib, pending, reply, JsonReplied(lib, r, OkResponse(x)).value.payload);
      error == None && got == x <==> lib.decodeInto(reply, ResultText(lib, x)) == (x, None)
  {
    JsonClientSeesTheResponse(lib, pending, r, OkResponse(x), reply);
  }

  /** A plain result arrives in every empty reply object of its type. */
  lemma PlainResultArrives(lib: JsonLib, values: Values, pending: Table, r: JsonRequestData, x: GoValue)
    requires JsonLawful(lib) && ValuesLawful(lib, values) && values.plain(x) && r.request.id == 0
    requires JsonReplied(lib, r, OkResponse(x)).Some?
    ensures JsonInput(lib, pending, values.empty(x), JsonReplied(lib, r, OkResponse(x)).value.payload)
      == (Reported(pending, 0), None, x)
  {
    JsonClientSeesTheResponse(lib, pending, r, OkResponse(x), values.empty(x));
  }

  /** The request of a new client, whose one call has the number 0. */
  function FirstRequest(lib: JsonLib, name: string, args: GoValue, injected: map<string, string>): JsonRequest
    requires lib.encodeValue(args).Some?
  {
    JsonRequest(0, name, injected, lib.encodeValue(args).value)
  }

  /**
   A whole Call: the server parses the client's request, and the handler binds the argument where its text decodes to it
   and it is valid.  The reply goes to the topic on which the client waits exactly when neither the cleaned path nor the
   id contains the word, and there the Call returns what JsonClientSees says.
   */
  lemma JsonWholeExchange(lib: JsonLib, validate: GoValue -> Option<string>, name: string, args: GoValue,
                          injected: map<string, string>, target: GoValue, prefix: string, device: string, id: string,
                          res: Response, reply: GoValue)
    requires JsonLawful(lib) && Plain(id) && lib.encodeValue(args).Some?
    requires lib.encodeRequest(FirstRequest(lib, name, args, injected)).Some?
    ensures
      var arrived := lib.decodeRequest(lib.encodeRequest(FirstRequest(lib, name, args, injected)).value);
      && arrived == Ok(JsonRequest(0, name, injected, lib.encodeValue(args).value))
      && var r := JsonRequestData(ClientTopic(prefix, device, REQUEST, id), arrived.value);
         && (JsonBind(lib, validate, r, target) == (args, None)
             <==> lib.decodeInto(target, lib.encodeValue(args).value) == (args, None) && validate(args) == None)
         && (JsonReplied(lib, r, res).Some? ==>
               var pub := JsonReplied(lib, r, res).value;
               && (pub.topic == ClientTopic(prefix, device, RESPONSE, id)
                   <==> !Occurs(Base(prefix, device), REQUEST) && !Occurs(id, REQUEST))
               && JsonInput(lib, map[0 := name], reply, pub.payload)
                  == (name, JsonClientSees(lib, res, reply).0, JsonClientSees(lib, res, reply).1))
  {
    var q := FirstRequest(lib, name, args, injected);
    var r := JsonRequestData(ClientTopic(prefix, device, REQUEST, id), q);
    HandlerDecodesTheArgument(lib, validate, q, r.topic, args, target);
    if JsonReplied(lib, r, res).Some? {
      JsonReplyTopicTheorem(prefix, device, id);
      JsonClientSeesTheResponse(lib, map[0 := name], r, res, reply);
    }
  }

  /**
   A whole Call with a plain argument and a plain result: the handler binds the argument into an empty object of its
   type, if it is valid, and the client's empty reply object ends equal to the result.
   */
  lemma PlainCallSucceeds(lib: JsonLib, values: Values, validate: GoValue -> Option<string>, name: string, args: GoValue,
                          injected: map<string, string>, prefix: string, device: string, id: string, x: GoValue)
    requires JsonLawful(lib) && ValuesLawful(lib, values) && Plain(id) && values.plain(args) && values.plain(x)
    requires lib.encodeRequest(FirstRequest(lib, name, args, injected)).Some?
    ensures
      var arrived := lib.decodeRequest(lib.encodeRequest(FirstRequest(lib, name, args, injected)).value);
      && arrived.Ok?
      && var r := JsonRequestData(ClientTopic(prefix, device, REQUEST, id), arrived.value);
         && JsonBind(lib, validate, r, values.empty(args)) == (args, validate(args))
         && (JsonReplied(lib, r, OkResponse(x)).Some? ==>
               JsonInput(lib, map[0 := name], values.empty(x), JsonReplied(lib, r, OkResponse(x)).value.payload)
               == (name, None, x))
  {
    var q := FirstRequest(lib, name, args, injected);
    var r := JsonRequestData(ClientTopic(prefix, device, REQUEST, id), q);
    HandlerDecodesTheArgument(lib, validate, q, r.topic, args, values.empty(args));
    if JsonReplied(lib, r, OkResponse(x)).Some? {
      PlainResultArrives(lib, values, map[0 := name], r, x);
    }
  }

  /**
   A handler's non-empty error text with a status other than 200 reaches the caller of either transport unchanged, and
   neither client touches its reply object.
   */
  lemma ErrorsAgree(libs: RpcClients.Libs, lib: JsonLib, st: RpcClients.CodecState, pending: Table,
                    r: MqttPb.RequestData, j: JsonRequestData, res: Response, reply: Message, jsonReply: GoValue)
    requires RpcClients.LibsLawful(libs) && JsonLawful(lib)
    requires r.request.head.id == 0 && j.request.id == 0
    requires res.error.Some? && res.error.value != "" && res.status != STATUS_OK
    requires MqttPb.Replied(libs, r, res).Some? && JsonReplied(lib, j, res).Some?
    ensures
      var (_, _, error, got) :=
        RpcClients.Input(libs, st, GoValue.Proto(reply), MqttPb.Replied(libs, r, res).value.payload);
      var (_, error', got') := JsonInput(lib, pending, jsonReply, JsonReplied(lib, j, res).value.payload);
      error == error' == res.error && got == GoValue.Proto(reply) && got' == jsonReply
  {
    MqttPb.ClientSeesTheResponse(libs, st, r, res, reply);
    JsonClientSeesTheResponse(lib, pending, j, res, jsonReply);
  }
}
