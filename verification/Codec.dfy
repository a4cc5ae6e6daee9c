/** mqttpb/codec.go on the heap: Marshal and Unmarshal rewrite the value of the body in place. */
module Codecs {
  import opened Wrappers
  import opened Compression
  import opened Compressors
  import opened Wire

  class AnyObject {
    var typeUrl: string
    var value: Slice

    constructor (typeUrl: string, value: Slice)
      ensures this.typeUrl == typeUrl && this.value == value
    {
      this.typeUrl, this.value := typeUrl, value;
    }

    function Storage(): set<object>
      reads this
    {
      if value.Slice? then {value.arr} else {}
    }
  }

  /** A Request or a Response. */
  class MessageObject<H> {
    var head: H
    var encoding: int
    var body: AnyObject?

    constructor (head: H, encoding: int, body: AnyObject?)
      ensures this.head == head && this.encoding == encoding && this.body == body
    {
      this.head, this.encoding, this.body := head, encoding, body;
    }

    ghost predicate Valid()
      reads this, body
    {
      body != null ==> InBounds(body.value)
    }

    ghost function Storage(): set<object>
      reads this, body
    {
      if body == null then {} else body.Storage()
    }

    ghost function View(): Envelope<H>
      requires Valid()
      reads this, body, Storage()
    {
      Envelope(head, encoding,
               if body == null then None else Some(AnyBody(body.typeUrl, Content(body.value))))
    }
  }

  /** ProtobufClientCodec and ProtobufServerCodec: each is a compressor. */
  class Codec {
    const compressor: CompressorManager

    constructor (alg: Algorithms)
      ensures fresh(compressor) && compressor.Valid() && compressor.alg == alg && compressor.buffers == []
    {
      compressor := new CompressorManager(alg);
    }

    /** The body's value becomes its compressed form: a slice of the compressor's buffer. */
    method Pack<H>(m: MessageObject<H>, picks: Picks)
      requires compressor.Valid() && m.Valid() && m.body != null
      requires compressor.Separate(ConvertEncoding(m.encoding), m.body.value, picks)
      modifies m.body`value
      modifies compressor`buffers, compressor`writers, compressor.buffers, compressor.writers, compressor.Stores()
      ensures compressor.Valid() && m.Valid()
      ensures Packed(compressor.alg, old(m.View())) == Ok(m.View())
    {
      PackingSucceeds(compressor.alg, m.View());
      ghost var drawn;
      var value, err;
      value, err, drawn := compressor.Compress(ConvertEncoding(m.encoding), m.body.value, picks, NoFault);
      if err.Some? {
        // Every encoding that ConvertEncoding gives is known to the compressor.
        assert false;
      }
      m.body.value := value;
    }

    /**
     Marshal, for one call at a time: nothing draws the buffer between the packing and the copy.  Concurrent calls may,
     and SharedPool.dfy is about those.
     */
    method Marshal<H>(p: Proto<H>, m: MessageObject<H>, picks: Picks) returns (r: Result<Bytes, string>)
      requires compressor.Valid() && m.Valid()
      requires m.body != null ==> compressor.Separate(ConvertEncoding(m.encoding), m.body.value, picks)
      modifies if m.body == null then {} else {m.body}
      modifies compressor`buffers, compressor`writers, compressor.buffers, compressor.writers, compressor.Stores()
      ensures compressor.Valid() && m.Valid()
      ensures r == Marshalled(compressor.alg, p, old(m.View()))
      ensures Packed(compressor.alg, old(m.View())) == Ok(m.View())
    {
      if m.body != null {
        Pack(m, picks);
      }
      r := MarshalView(p, m);
    }

    /** proto.Marshal copies the bytes that the message's slices point to. */
    method MarshalView<H>(p: Proto<H>, m: MessageObject<H>) returns (r: Result<Bytes, string>)
      requires m.Valid()
      ensures r == match p.marshal(m.View()) case Some(data) => Ok(data) case None => Err(ERR_MARSHAL)
    {
      var body := None;
      if m.body != null {
        body := Some(AnyBody(m.body.typeUrl, Content(m.body.value)));
      }
      var data := p.marshal(Envelope(m.head, m.encoding, body));
      r := if data.Some? then Ok(data.value) else Err(ERR_MARSHAL);
    }

    /** proto.Unmarshal fills the message from copies of the data. */
    method Fill<H>(m: MessageObject<H>, from: Envelope<H>)
      modifies m
      ensures m.Valid() && m.View() == from && (m.body != null ==> fresh(m.body) && fresh(m.body.Storage()))
    {
      m.head, m.encoding, m.body := from.head, from.encoding, null;
      if from.body.Some? {
        var value := Null;
        if from.body.value.value.Some? {
          value := NewSlice(from.body.value.value.value);
        }
        m.body := new AnyObject(from.body.value.typeUrl, value);
      }
    }

    /** Unmarshal: the message is overwritten, with a body of its own whose value is then decompressed. */
    method Unmarshal<H>(p: Proto<H>, data: Bytes, m: MessageObject<H>, picks: Picks) returns (err: Option<string>)
      requires compressor.Valid()
      modifies m, compressor`readers, compressor.readers
      ensures compressor.Valid() && m.Valid() && (m.body != null ==> fresh(m.body))
      ensures Parsed(m.View(), err) == Unmarshalled(compressor.alg, p, data)
    {
      var parsed := p.unmarshal(data);
      Fill(m, parsed.message);
      if parsed.error.Some? || m.body == null || m.body.value == Null {
        return parsed.error;
      }
      var value;
      value, err := compressor.Decompress(ConvertEncoding(m.encoding), m.body.value, picks);
      if err == None {
        m.body.value := value;
      }
    }
  }
}
