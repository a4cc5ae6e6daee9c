/** What Compress and Decompress compute, as functions of the encoding and the data alone. */
module Compression {
  import opened Wrappers

  type Bytes = seq<bv8>

  const ENCODING_GZIP: int := 0
  const ENCODING_DEFLATE: int := 1
  const ENCODING_BROTLI: int := 2
  const ENCODING_PLAIN: int := 3

  const ERR_UNKNOWN_ENCODING: string := "[RRPC] uknown content encoding"

  datatype Format = Gzip | Deflate | Brotli

  /** Decoding fails in the header with nothing read, or later with some bytes read. */
  datatype Decoded = BadHeader(text: string) | BadBody(partial: Bytes, text: string) | Whole(data: Bytes)

  /** The three compression libraries. */
  datatype Algorithms = Algorithms(encode: (Format, Bytes) -> Bytes, decode: (Format, Bytes) -> Decoded)

  /** Decoding undoes encoding, and no encoding is empty: each of the formats begins with a header. */
  ghost predicate Lawful(alg: Algorithms) {
    forall f: Format, d: Bytes :: alg.decode(f, alg.encode(f, d)) == Whole(d) && alg.encode(f, d) != []
  }

  /** A Go pair of bytes, nil or not, and an error. */
  datatype Returned = Returned(data: Option<Bytes>, error: Option<string>)

  function FormatOf(encoding: int): Option<Format> {
    if encoding == ENCODING_GZIP then Some(Gzip)
    else if encoding == ENCODING_DEFLATE then Some(Deflate)
    else if encoding == ENCODING_BROTLI then Some(Brotli)
    else None
  }

  function Compressed(alg: Algorithms, encoding: int, data: Option<Bytes>): Returned {
    if data.None? then Returned(None, None)
    else if FormatOf(encoding).Some? then Returned(Some(alg.encode(FormatOf(encoding).value, data.value)), None)
    else if encoding == ENCODING_PLAIN then Returned(data, None)
    else Returned(None, Some(ERR_UNKNOWN_ENCODING))
  }

  function Inflated(d: Decoded): Returned {
    match d
    case BadHeader(text) => Returned(None, Some(text))
    case BadBody(partial, text) => Returned(Some(partial), Some(text))
    case Whole(data) => Returned(Some(data), None)
  }

  function Decompressed(alg: Algorithms, encoding: int, data: Option<Bytes>): Returned {
    if data.None? then Returned(None, None)
    else if FormatOf(encoding).Some? then Inflated(alg.decode(FormatOf(encoding).value, data.value))
    else if encoding == ENCODING_PLAIN then Returned(data, None)
    else Returned(None, Some(ERR_UNKNOWN_ENCODING))
  }

  /** What the encodings of the compressor mean: 0 is gzip, 1 zlib, 2 brotli, 3 plain, and any other is refused. */
  lemma EncodingsMean(alg: Algorithms, encoding: int, data: Bytes)
    ensures Compressed(alg, 0, Some(data)) == Returned(Some(alg.encode(Gzip, data)), None)
    ensures Compressed(alg, 1, Some(data)) == Returned(Some(alg.encode(Deflate, data)), None)
    ensures Compressed(alg, 2, Some(data)) == Returned(Some(alg.encode(Brotli, data)), None)
    ensures Compressed(alg, 3, Some(data)) == Returned(Some(data), None)
    ensures !(0 <= encoding <= 3) ==>
      Compressed(alg, encoding, Some(data)) == Returned(None, Some("[RRPC] uknown content encoding"))
    ensures Compressed(alg, encoding, None) == Returned(None, None)
  {
  }

  /** Decompress with a format's encoding reports exactly that decoder's failures, with the bytes read before them. */
  predicate DecodesWith(alg: Algorithms, encoding: int, f: Format, data: Bytes) {
    var got := Decompressed(alg, encoding, Some(data));
    && (got.error == None <==> alg.decode(f, data).Whole?)
    && match alg.decode(f, data)
       case Whole(whole) => got.data == Some(whole)
       case BadHeader(text) => got == Returned(None, Some(text))
       case BadBody(partial, text) => got == Returned(Some(partial), Some(text))
  }

  lemma DecodersMean(alg: Algorithms, encoding: int, data: Bytes)
    ensures DecodesWith(alg, 0, Gzip, data) && DecodesWith(alg, 1, Deflate, data) && DecodesWith(alg, 2, Brotli, data)
    ensures Decompressed(alg, 3, Some(data)) == Returned(Some(data), None)
    ensures !(0 <= encoding <= 3) ==>
      Decompressed(alg, encoding, Some(data)) == Returned(None, Some("[RRPC] uknown content encoding"))
    ensures Decompressed(alg, encoding, None) == Returned(None, None)
  {
  }

  /** Decompress undoes Compress wherever Compress succeeds, and Compress fails only on an unknown encoding. */
  lemma CompressionRoundTrip(alg: Algorithms, encoding: int, data: Option<Bytes>)
    requires Lawful(alg)
    ensures
      var c := Compressed(alg, encoding, data);
      && (c.error == None <==> data == None || 0 <= encoding <= 3)
      && (c.error == None ==> Decompressed(alg, encoding, c.data) == Returned(data, None))
      && (c.error == None && c.data == Some([]) ==> data == Some([]))
  {
  }
}
