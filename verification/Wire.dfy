/** The protobuf messages of base.proto, the protobuf library by its laws, and the codecs as functions on values. */
module Wire {
  import opened Wrappers
  import opened Compression

  /** google.protobuf.Any; a nil value is None. */
  datatype AnyBody = AnyBody(typeUrl: string, value: Option<Bytes>)

  /** Requests and responses: the fields that the codecs leave alone, the encoding, and the body. */
  datatype Envelope<+H> = Envelope(head: H, encoding: int, body: Option<AnyBody>)

  datatype RequestHead = RequestHead(id: nat, name: string, metadata: map<string, string>)

  datatype ResponseHead = ResponseHead(id: nat, status: int, errorMessage: string, metadata: map<string, string>)

  type Request = Envelope<RequestHead>

  type ReplyMessage = Envelope<ResponseHead>

  /** What parsing leaves in a message, and its error if it failed. */
  datatype Parsed<+H> = Parsed(message: Envelope<H>, error: Option<string>)

  /** The protobuf library for one type of message; marshalling fails on some texts. */
  datatype Proto<!H> = Proto(marshal: Envelope<H> -> Option<Bytes>, unmarshal: Bytes -> Parsed<H>)

  /** The wire does not distinguish a nil value from an empty one. */
  function Normal<H>(m: Envelope<H>): Envelope<H> {
    if m.body.Some? && m.body.value.value == Some([]) then m.(body := Some(m.body.value.(value := None))) else m
  }

  ghost predicate ProtoLawful<H(!new)>(p: Proto<H>) {
    forall m: Envelope<H> :: p.marshal(m).Some? ==> p.unmarshal(p.marshal(m).value) == Parsed(Normal(m), None)
  }

  /** The ContentEncoding of base.proto, which is an open enumeration, as the compressor's. */
  function ConvertEncoding(e: int): int {
    match e
    case 0 => ENCODING_PLAIN
    case 1 => ENCODING_GZIP
    case 2 => ENCODING_DEFLATE
    case 3 => ENCODING_BROTLI
    case _ => ENCODING_PLAIN
  }

  /** The compressed message that Marshal leaves behind. */
  function Packed<H>(alg: Algorithms, m: Envelope<H>): Result<Envelope<H>, string> {
    if m.body.None? then Ok(m)
    else
      var c := Compressed(alg, ConvertEncoding(m.encoding), m.body.value.value);
      if c.error.Some? then Err(c.error.value)
      else Ok(m.(body := Some(m.body.value.(value := c.data))))
  }

  const ERR_MARSHAL: string := "proto: cannot marshal"

  /** Marshal of both codecs. */
  function Marshalled<H>(alg: Algorithms, p: Proto<H>, m: Envelope<H>): Result<Bytes, string> {
    match Packed(alg, m)
    case Err(e) => Err(e)
    case Ok(packed) => if p.marshal(packed).Some? then Ok(p.marshal(packed).value) else Err(ERR_MARSHAL)
  }

  /** Unmarshal of both codecs: on an error the message stays as far as it was parsed. */
  function Unmarshalled<H>(alg: Algorithms, p: Proto<H>, data: Bytes): Parsed<H> {
    var parsed := p.unmarshal(data);
    if parsed.error.Some? || parsed.message.body.None? then parsed
    else
      var m := parsed.message;
      var d := Decompressed(alg, ConvertEncoding(m.encoding), m.body.value.value);
      if d.error.Some? then Parsed(m, d.error)
      else Parsed(m.(body := Some(m.body.value.(value := d.data))), None)
  }

  /** The format that an encoding of base.proto names; 0 and every number that it does not define are plain. */
  function NamedFormat(e: int): Option<Format> {
    match e
    case 1 => Some(Gzip)
    case 2 => Some(Deflate)
    case 3 => Some(Brotli)
    case _ => None
  }

  /** Why bytes are no message, by the parser and the decoder of the named format alone; None if they are one. */
  function FailureOf<H>(alg: Algorithms, p: Proto<H>, data: Bytes): Option<string> {
    var parsed := p.unmarshal(data);
    if parsed.error.Some? then parsed.error
    else if parsed.message.body.None? || parsed.message.body.value.value.None? then None
    else
      match NamedFormat(parsed.message.encoding)
      case None => None
      case Some(f) =>
        match alg.decode(f, parsed.message.body.value.value.value)
        case Whole(_) => None
        case BadHeader(text) => Some(text)
        case BadBody(_, text) => Some(text)
  }

  /** Marshal compresses a value with the format that the message's encoding names, and leaves all else as it is. */
  lemma PackedWithNamedFormat<H>(alg: Algorithms, m: Envelope<H>)
    ensures
      var packed := Packed(alg, m);
      && packed.Ok? && packed.value.head == m.head && packed.value.encoding == m.encoding
      && (m.body == None ==> packed.value.body == None)
      && (m.body.Some? ==>
            packed.value.body == Some(AnyBody(m.body.value.typeUrl,
              match m.body.value.value
              case None => None
              case Some(value) =>
                Some(match NamedFormat(m.encoding) case None => value case Some(f) => alg.encode(f, value)))))
  {
  }

  /**
   Unmarshal fails exactly if the parser does, or the value does not decode in the named format, and with that text.  Else
   it gives the parsed message with the decoded value.
   */
  lemma UnmarshalFailsExactly<H>(alg: Algorithms, p: Proto<H>, data: Bytes)
    ensures Unmarshalled(alg, p, data).error == FailureOf(alg, p, data)
    ensures
      var parsed, got := p.unmarshal(data).message, Unmarshalled(alg, p, data).message;
      && got.head == parsed.head && got.encoding == parsed.encoding
      && (FailureOf(alg, p, data).Some? ==> got == parsed)
      && (parsed.body == None ==> got.body == None)
      && (FailureOf(alg, p, data) == None && parsed.body.Some? ==>
            && got.body.Some? && got.body.value.typeUrl == parsed.body.value.typeUrl
            && match NamedFormat(parsed.encoding)
               case None => got == parsed
               case Some(f) =>
                 match parsed.body.value.value
                 case None => got.body.value.value == None
                 case Some(value) =>
                   alg.decode(f, value).Whole? && got.body.value.value == Some(alg.decode(f, value).data))
  {
  }

  /** Equal up to nil and empty bytes. */
  predicate SameContent<H(==)>(m: Envelope<H>, n: Envelope<H>) {
    Normal(m) == Normal(n)
  }

  /** Compression never fails in a codec, whatever the integer of the encoding is. */
  lemma PackingSucceeds<H>(alg: Algorithms, m: Envelope<H>)
    ensures Packed(alg, m).Ok?
  {
  }

  /** Whichever side marshals, the other gets the message back, for every encoding, known or not. */
  lemma CodecRoundTrip<H(!new)>(alg: Algorithms, p: Proto<H>, m: Envelope<H>)
    requires Lawful(alg) && ProtoLawful(p) && Marshalled(alg, p, m).Ok?
    ensures
      var back := Unmarshalled(alg, p, Marshalled(alg, p, m).value);
      back.error == None && SameContent(back.message, m)
  {
    if m.body.Some? {
      CompressionRoundTrip(alg, ConvertEncoding(m.encoding), m.body.value.value);
    }
  }
}
