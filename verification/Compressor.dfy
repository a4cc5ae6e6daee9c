/**
 compressor.go on the heap: writers, readers and buffers are drawn from pools, reset, used and put back, while the
 slice that Compress returns still points into the buffer.
 */
module Compressors {
  import opened Wrappers
  import opened Compression
  import opened Buffers

  /** A Go byte slice that starts at its array's first element. */
  datatype Slice = Null | Slice(arr: array<bv8>, len: nat)

  ghost predicate InBounds(s: Slice) {
    s.Slice? ==> s.len <= s.arr.Length
  }

  /** The bytes of a slice in the current state. */
  function Content(s: Slice): Option<Bytes>
    requires InBounds(s)
    reads if s.Slice? then {s.arr} else {}
  {
    if s.Null? then None else Some(s.arr[..s.len])
  }

  /** bytes.Buffer: the first bytes of a store that is replaced when it is too small. */
  class Buffer {
    var store: array<bv8>
    var len: nat

    constructor ()
      ensures fresh(store) && len <= store.Length
    {
      store := new bv8[0];
      len := 0;
    }

    method Reset()
      modifies this`len
      ensures len == 0
    {
      len := 0;
    }

    /** In place where the data fits; else in a new store, and the old one keeps its bytes. */
    method Write(data: Bytes)
      requires len <= store.Length
      modifies this, store
      ensures len == old(len) + |data| <= store.Length
      ensures store[..len] == old(store[..len]) + data
      ensures if old(len) + |data| <= old(store.Length) then
                store == old(store) && store[..] == WriteAt(old(store[..]), old(len), data)
              else fresh(store) && old(store)[..] == old(store[..])
    {
      if store.Length < len + |data| {
        var bigger := new bv8[2 * store.Length + |data|];
        forall k | 0 <= k < len {
          bigger[k] := store[k];
        }
        store := bigger;
      }
      forall k | 0 <= k < |data| {
        store[len + k] := data[k];
      }
      len := len + |data|;
    }

    /** Several writes: the store that was there holds the leading pieces that fit. */
    method WriteAll(pieces: seq<Bytes>)
      requires len <= store.Length
      modifies this, store
      ensures len <= store.Length && (store == old(store) || fresh(store))
      ensures store[..len] == old(store[..len]) + Concat(pieces)
      ensures old(store)[..] == Filled(old(store[..]), old(len), pieces)
      decreases |pieces|
    {
      FilledUnfolds(store[..], len, pieces);
      if pieces != [] {
        ghost var front, first, rest := store[..len], pieces[0], Concat(pieces[1..]);
        Write(pieces[0]);
        WriteAll(pieces[1..]);
        ConcatUnfolds(front, first, rest);
        assert store[..len] == (front + first) + rest;
      }
    }
  }

  /** How a writer may fail, in Write or in Close. */
  datatype Fault = NoFault | WriteFails(text: string) | CloseFails(text: string)

  /** A compressing writer: what was written since Reset is encoded, and goes to the target in pieces of any sizes. */
  class Writer {
    const format: Format
    var target: Buffer?
    var pending: Bytes
    /** A failed writer keeps failing until it is reset. */
    var failed: bool

    constructor (format: Format)
      ensures this.format == format
    {
      this.format := format;
      target, pending, failed := null, [], false;
    }

    method Reset(buf: Buffer)
      modifies this
      ensures target == buf && pending == [] && !failed
    {
      target, pending, failed := buf, [], false;
    }

    method Write(data: Bytes, fault: Fault) returns (ok: bool)
      modifies this`pending, this`failed
      ensures ok <==> !old(failed) && !fault.WriteFails?
      ensures ok ==> pending == old(pending) + data && !failed
    {
      ok := !failed && !fault.WriteFails?;
      if ok {
        pending := pending + data;
      } else {
        failed := true;
      }
    }

    method Close(alg: Algorithms, sizes: seq<nat>, fault: Fault) returns (ok: bool)
      requires target != null && target.len <= target.store.Length
      modifies this`failed, target, target.store
      ensures ok <==> !old(failed) && !fault.CloseFails?
      ensures target.len <= target.store.Length && (target.store == old(target.store) || fresh(target.store))
      ensures ok ==> target.store[..target.len] == old(target.store[..target.len]) + alg.encode(format, pending)
      ensures ok ==>
        var pieces := Chunks(alg.encode(format, pending), sizes);
        old(target.store)[..] == Filled(old(target.store[..]), old(target.len), pieces)
    {
      ok := !failed && !fault.CloseFails?;
      if ok {
        target.WriteAll(Chunks(alg.encode(format, pending), sizes));
      } else {
        failed := true;
      }
    }
  }

  /** bytes.Reader over the data to decompress. */
  class ByteReader {
    var data: Slice

    constructor ()
    {
      data := Null;
    }
  }

  /**
   What the libraries decide: which pooled objects sync.Pool hands out, where an index that is not in a pool stands for a
   new object, and the sizes of the pieces in which a writer emits its stream.
   */
  datatype Picks = Picks(buffer: nat, writer: nat, reader: nat, sizes: seq<nat>)

  function Without<T>(s: seq<T>, k: nat): seq<T>
    requires k < |s|
  {
    s[..k] + s[k + 1..]
  }

  /** One compression with objects that are in no pool: the slice returned is the buffer's own store. */
  method EncodeInto(alg: Algorithms, writer: Writer, buf: Buffer, data: Bytes, sizes: seq<nat>, fault: Fault)
    returns (out: Slice, err: Option<string>)
    requires buf.len <= buf.store.Length
    modifies writer, buf, buf.store
    ensures buf.len <= buf.store.Length && (buf.store == old(buf.store) || fresh(buf.store))
    ensures match fault
            case NoFault => err == None && out == Slice(buf.store, buf.len)
                            && Content(out) == Some(alg.encode(writer.format, data))
            case WriteFails(text) => out == Null && err == Some(text)
            case CloseFails(text) => out == Null && err == Some(text)
    ensures fault == NoFault ==>
      var pieces := Chunks(alg.encode(writer.format, data), sizes);
      old(buf.store)[..] == Filled(old(buf.store[..]), 0, pieces)
  {
    buf.Reset();
    writer.Reset(buf);
    assert buf.store[..buf.len] == [];
    var ok := writer.Write(data, fault);
    if ok {
      assert writer.pending == data;
      ok := writer.Close(alg, sizes, fault);
      assert ok ==> buf.store[..buf.len] == [] + alg.encode(writer.format, data) == alg.encode(writer.format, data);
    }
    if ok {
      out, err := Slice(buf.store, buf.len), None;
    } else {
      out, err := Null, Some(fault.text);
    }
  }

  lemma WithoutElements<T>(s: seq<T>, k: nat)
    requires k < |s|
    ensures |Without(s, k)| == |s| - 1
    ensures forall j :: 0 <= j < |s| - 1 ==> Without(s, k)[j] == s[if j < k then j else j + 1]
    ensures forall x :: x in Without(s, k) ==> x in s
    ensures forall x :: x in s ==> x == s[k] || x in Without(s, k)
  {
    assert s == s[..k] + [s[k]] + s[k + 1..];
  }

  class CompressorManager {
    const alg: Algorithms
    var buffers: seq<Buffer>
    /** The three writer pools together; a writer is only drawn for its own format. */
    var writers: seq<Writer>
    var readers: seq<ByteReader>

    ghost function Stores(): set<array<bv8>>
      reads this, buffers
    {
      set b | b in buffers :: b.store
    }

    /** No object is in a pool twice, and no two pooled buffers share a store. */
    ghost predicate Valid()
      reads this, buffers
    {
      && (forall k :: 0 <= k < |buffers| ==> buffers[k].len <= buffers[k].store.Length)
      && (forall j, k :: 0 <= j < k < |buffers| ==>
            buffers[j] != buffers[k] && buffers[j].store != buffers[k].store)
      && (forall j, k :: 0 <= j < k < |writers| ==> writers[j] != writers[k])
      && (forall j, k :: 0 <= j < k < |readers| ==> readers[j] != readers[k])
    }

    /** The buffer that a compression draws does not hold its input. */
    predicate Separate(encoding: int, data: Slice, picks: Picks)
      reads this, buffers
    {
      FormatOf(encoding).Some? && data.Slice? && picks.buffer < |buffers| ==> buffers[picks.buffer].store != data.arr
    }

    constructor (alg: Algorithms)
      ensures Valid() && buffers == [] && writers == [] && readers == [] && this.alg == alg
    {
      this.alg := alg;
      buffers, writers, readers := [], [], [];
    }

    method TakeBuffer(pick: nat) returns (buf: Buffer)
      requires Valid()
      modifies this`buffers
      ensures Valid() && buf !in buffers && buf.store !in Stores() && buf.len <= buf.store.Length
      ensures forall b :: b in buffers ==> b in old(buffers)
      ensures forall b :: b in old(buffers) ==> b in buffers || b == buf
      ensures if pick < |old(buffers)| then buf == old(buffers)[pick] else fresh(buf) && fresh(buf.store)
    {
      if pick < |buffers| {
        buf := buffers[pick];
        WithoutElements(buffers, pick);
        buffers := Without(buffers, pick);
      } else {
        buf := new Buffer();
      }
    }

    method TakeWriter(f: Format, pick: nat) returns (w: Writer)
      requires Valid()
      modifies this`writers
      ensures Valid() && w.format == f && w !in writers
      ensures forall x :: x in writers ==> x in old(writers)
      ensures w in old(writers) || fresh(w)
    {
      if pick < |writers| && writers[pick].format == f {
        w := writers[pick];
        WithoutElements(writers, pick);
        writers := Without(writers, pick);
      } else {
        w := new Writer(f);
      }
    }

    method PutBack(buf: Buffer, writer: Writer)
      requires Valid() && buf !in buffers && buf.store !in Stores() && buf.len <= buf.store.Length
      requires writer !in writers
      modifies this`buffers, this`writers
      ensures Valid() && buffers == old(buffers) + [buf] && writers == old(writers) + [writer]
    {
      buffers := buffers + [buf];
      writers := writers + [writer];
    }

    /** GzipCompress, ZlibCompress and BrotliCompress: the writer and the buffer go back to their pools on every path. */
    method FormatCompress(f: Format, data: Bytes, picks: Picks, fault: Fault)
      returns (out: Slice, err: Option<string>, ghost drawn: Buffer)
      requires Valid()
      modifies this`buffers, this`writers, buffers, writers, Stores()
      ensures Valid() && (forall w :: w in writers ==> w in old(writers) || fresh(w))
      ensures forall b :: b in buffers ==> b == drawn || (b in old(buffers) && b.store == old(b.store))
      ensures if picks.buffer < |old(buffers)| then drawn == old(buffers)[picks.buffer] else fresh(drawn)
      ensures drawn in buffers && (fresh(drawn.store) || (drawn in old(buffers) && drawn.store == old(drawn.store)))
      ensures forall b :: b in old(buffers) && b != drawn ==>
        b.store == old(b.store) && b.store[..] == old(b.store[..])
      ensures match fault
              case NoFault => err == None && out == Slice(drawn.store, drawn.len) && InBounds(out)
                              && Content(out) == Some(alg.encode(f, data))
              case WriteFails(text) => out == Null && err == Some(text)
              case CloseFails(text) => out == Null && err == Some(text)
      ensures buffers[|buffers| - 1] == drawn
      ensures drawn in old(buffers) && fault == NoFault ==>
        var pieces := Chunks(alg.encode(f, data), picks.sizes);
        old(drawn.store)[..] == Filled(old(drawn.store[..]), 0, pieces)
    {
      var writer := TakeWriter(f, picks.writer);
      var buf := TakeBuffer(picks.buffer);
      drawn := buf;
      out, err := EncodeInto(alg, writer, buf, data, picks.sizes, fault);
      PutBack(buf, writer);
    }

    method TakeReader(pick: nat) returns (r: ByteReader)
      requires Valid()
      modifies this`readers
      ensures Valid() && r !in readers && (r in old(readers) || fresh(r))
      ensures forall x :: x in readers ==> x in old(readers)
    {
      if pick < |readers| {
        r := readers[pick];
        WithoutElements(readers, pick);
        readers := Without(readers, pick);
      } else {
        r := new ByteReader();
      }
    }

    /** GzipDecompress, ZlibDecompress and BrotliDecompress: what io.ReadAll returns is new storage. */
    method FormatDecompress(f: Format, data: Slice, picks: Picks) returns (out: Slice, err: Option<string>)
      requires Valid() && data.Slice? && InBounds(data)
      modifies this`readers, readers
      ensures Valid() && (forall r :: r in readers ==> r in old(readers) || fresh(r))
      ensures InBounds(out) && (out.Slice? ==> fresh(out.arr))
      ensures Returned(Content(out), err) == Inflated(alg.decode(f, Content(data).value))
    {
      var reader := TakeReader(picks.reader);
      reader.data := data;
      var decoded := alg.decode(f, reader.data.arr[..reader.data.len]);
      match decoded {
        case BadHeader(text) => out, err := Null, Some(text);
        case BadBody(partial, text) =>
          out := NewSlice(partial);
          err := Some(text);
        case Whole(whole) =>
          out := NewSlice(whole);
          err := None;
      }
      readers := readers + [reader];
    }

    /**
     Compress: the bytes at return depend on the encoding and the data alone, whatever the pools hold and hand out.
     The slice is the input itself for a plain or nil one, and else the store of the buffer drawn; every other pooled
     buffer keeps its bytes.
     */
    method Compress(encoding: int, data: Slice, picks: Picks, fault: Fault)
      returns (out: Slice, err: Option<string>, ghost drawn: Buffer?)
      requires Valid() && InBounds(data) && Separate(encoding, data, picks)
      modifies this`buffers, this`writers, buffers, writers, Stores()
      ensures Valid() && (forall w :: w in writers ==> w in old(writers) || fresh(w))
      ensures forall b :: b in buffers ==> b == drawn || (b in old(buffers) && b.store == old(b.store))
      ensures drawn != null ==>
        && drawn in buffers
        && (fresh(drawn.store) || (drawn in old(buffers) && drawn.store == old(drawn.store)))
        && (if picks.buffer < |old(buffers)| then drawn == old(buffers)[picks.buffer] else fresh(drawn))
      ensures forall b :: b in old(buffers) && b != drawn ==>
        b.store == old(b.store) && b.store[..] == old(b.store[..])
      ensures drawn == null <==> data.Null? || FormatOf(encoding) == None
      ensures drawn == null ==> out == (if encoding == ENCODING_PLAIN then data else Null)
      ensures drawn != null && err == None ==> out == Slice(drawn.store, drawn.len)
      ensures InBounds(out)
      ensures drawn == null || fault == NoFault ==>
        Returned(Content(out), err) == Compressed(alg, encoding, old(Content(data)))
      ensures drawn != null && fault != NoFault ==> out == Null && err == Some(fault.text)
    {
      drawn := null;
      if data.Null? {
        return Null, None, null;
      }
      match encoding {
        case 0 => out, err, drawn := FormatCompress(Gzip, data.arr[..data.len], picks, fault);
        case 1 => out, err, drawn := FormatCompress(Deflate, data.arr[..data.len], picks, fault);
        case 2 => out, err, drawn := FormatCompress(Brotli, data.arr[..data.len], picks, fault);
        case 3 => out, err := data, None;
        case _ => out, err := Null, Some(ERR_UNKNOWN_ENCODING);
      }
    }

    /** Decompress: likewise, and the result of a compressed format shares no storage with anything else. */
    method Decompress(encoding: int, data: Slice, picks: Picks) returns (out: Slice, err: Option<string>)
      requires Valid() && InBounds(data)
      modifies this`readers, readers
      ensures Valid() && (forall r :: r in readers ==> r in old(readers) || fresh(r))
      ensures InBounds(out)
      ensures if data.Slice? && FormatOf(encoding).Some? then out.Slice? ==> fresh(out.arr)
              else out == if encoding == ENCODING_PLAIN then data else Null
      ensures Returned(Content(out), err) == Decompressed(alg, encoding, Content(data))
    {
      if data.Null? {
        return Null, None;
      }
      match encoding {
        case 0 => out, err := FormatDecompress(Gzip, data, picks);
        case 1 => out, err := FormatDecompress(Deflate, data, picks);
        case 2 => out, err := FormatDecompress(Brotli, data, picks);
        case 3 => out, err := data, None;
        case _ => out, err := Null, Some(ERR_UNKNOWN_ENCODING);
      }
    }
  }

  method NewSlice(data: Bytes) returns (s: Slice)
    ensures s.Slice? && InBounds(s) && fresh(s.arr) && Content(s) == Some(data)
  {
    var arr := new bv8[|data|];
    forall k | 0 <= k < |data| {
      arr[k] := data[k];
    }
    assert arr[..|data|] == data;
    s := Slice(arr, |data|);
  }

  /** A compression that draws the buffer which went back last, as that buffer's store sees it. */
  method DrawAgain(manager: CompressorManager, f: Format, data: Bytes, picks: Picks) returns (ghost store: array<bv8>)
    requires manager.Valid() && manager.buffers != []
    modifies manager`buffers, manager`writers, manager.buffers, manager.writers, manager.Stores()
    ensures manager.Valid() && store == old(manager.buffers[|manager.buffers| - 1].store)
    ensures store[..] == Filled(old(store[..]), 0, Chunks(manager.alg.encode(f, data), picks.sizes))
  {
    store := manager.buffers[|manager.buffers| - 1].store;
    var _, _, drawn := manager.FormatCompress(f, data, picks.(buffer := |manager.buffers| - 1), NoFault);
  }

  /** A first compression of a history, after which everything in the pools is either older or new. */
  method DrawFirst(manager: CompressorManager, f: Format, data: Bytes, picks: Picks) returns (out: Slice)
    requires manager.Valid()
    modifies manager`buffers, manager`writers, manager.buffers, manager.writers, manager.Stores()
    ensures manager.Valid() && manager.buffers != [] && InBounds(out) && out.Slice?
    ensures out.arr == manager.buffers[|manager.buffers| - 1].store
    ensures Content(out) == Some(manager.alg.encode(f, data))
    ensures forall j :: 0 <= j < |manager.writers| ==>
      manager.writers[j] in old(manager.writers) || fresh(manager.writers[j])
    ensures forall j :: 0 <= j < |manager.buffers| ==>
      var b := manager.buffers[j];
      (b in old(manager.buffers) || fresh(b)) && (b.store in old(manager.Stores()) || fresh(b.store))
  {
    var err;
    ghost var drawn;
    out, err, drawn := manager.FormatCompress(f, data, picks, NoFault);
    assert forall j :: 0 <= j < |manager.writers| ==> manager.writers[j] in manager.writers;
    assert forall j :: 0 <= j < |manager.buffers| ==> manager.buffers[j] in manager.buffers;
  }

  /**
   What a slice that Compress returned holds once a later compression has drawn its buffer, whatever the pools held
   before: the leading pieces of the later stream that fit the slice's array, over its own bytes.  It is intact exactly
   when one of the two is a prefix of the other.
   */
  method ReuseOverwrites(manager: CompressorManager, f: Format, a: Bytes, picks: Picks, g: Format, b: Bytes,
                         later: Picks)
    returns (before: Bytes, after: Bytes, capacity: nat)
    requires manager.Valid()
    modifies manager`buffers, manager`writers, manager.buffers, manager.writers, manager.Stores()
    ensures manager.Valid()
    ensures before == manager.alg.encode(f, a) && |before| <= capacity
    ensures
      var written := Fitting(Chunks(manager.alg.encode(g, b), later.sizes), capacity);
      && after == WriteAt(before, 0, written)
      && (after == before <==> written <= before || before <= written)
      && (|manager.alg.encode(g, b)| <= capacity ==> written == manager.alg.encode(g, b))
  {
    var first := DrawFirst(manager, f, a, picks);
    before, capacity := first.arr[..first.len], first.arr.Length;
    ghost var whole := first.arr[..];
    var store := DrawAgain(manager, g, b, later);
    after := first.arr[..first.len];
    ghost var pieces := Chunks(manager.alg.encode(g, b), later.sizes);
    FilledFront(whole, first.len, pieces);
    assert before == whole[..first.len] && after == Filled(whole, 0, pieces)[..first.len];
  }

  // ---- Whole histories -------------------------------------------------------------------------------------------

  datatype Op =
    | DoCompress(encoding: int, data: Option<Bytes>, picks: Picks, fault: Fault)
    | DoDecompress(encoding: int, data: Option<Bytes>, picks: Picks)

  /** The pools, and what they hand out, have no part in what a call returns. */
  function Expected(alg: Algorithms, op: Op): Returned {
    match op
    case DoCompress(encoding, data, _, fault) =>
      if data.Some? && FormatOf(encoding).Some? && fault != NoFault then Returned(None, Some(fault.text))
      else Compressed(alg, encoding, data)
    case DoDecompress(encoding, data, _) => Decompressed(alg, encoding, data)
  }

  /** Nothing in the pools is older than a history. */
  twostate predicate PoolsFresh(new manager: CompressorManager)
    reads manager, manager.buffers
  {
    && fresh(manager)
    && (forall j :: 0 <= j < |manager.buffers| ==> fresh(manager.buffers[j]) && fresh(manager.buffers[j].store))
    && (forall j :: 0 <= j < |manager.writers| ==> fresh(manager.writers[j]))
    && (forall j :: 0 <= j < |manager.readers| ==> fresh(manager.readers[j]))
  }

  method CompressOp(manager: CompressorManager, op: Op) returns (result: Returned)
    requires manager.Valid() && op.DoCompress?
    modifies manager`buffers, manager`writers, manager.buffers, manager.writers, manager.Stores()
    ensures manager.Valid() && result == Expected(manager.alg, op)
    ensures forall j :: 0 <= j < |manager.buffers| ==>
      var b := manager.buffers[j];
      (b in old(manager.buffers) || fresh(b)) && (b.store in old(manager.Stores()) || fresh(b.store))
    ensures forall j :: 0 <= j < |manager.writers| ==>
      manager.writers[j] in old(manager.writers) || fresh(manager.writers[j])
  {
    var input := Null;
    if op.data.Some? {
      input := NewSlice(op.data.value);
    }
    var out, err;
    ghost var drawn;
    out, err, drawn := manager.Compress(op.encoding, input, op.picks, op.fault);
    result := Returned(Content(out), err);
    assert forall j :: 0 <= j < |manager.buffers| ==> manager.buffers[j] in manager.buffers;
    assert forall j :: 0 <= j < |manager.writers| ==> manager.writers[j] in manager.writers;
  }

  method DecompressOp(manager: CompressorManager, op: Op) returns (result: Returned)
    requires manager.Valid() && op.DoDecompress?
    modifies manager`readers, manager.readers
    ensures manager.Valid() && result == Expected(manager.alg, op)
    ensures forall j :: 0 <= j < |manager.readers| ==>
      manager.readers[j] in old(manager.readers) || fresh(manager.readers[j])
  {
    var input := Null;
    if op.data.Some? {
      input := NewSlice(op.data.value);
    }
    var out, err := manager.Decompress(op.encoding, input, op.picks);
    result := Returned(Content(out), err);
    assert forall j :: 0 <= j < |manager.readers| ==> manager.readers[j] in manager.readers;
  }

  /** Any history of calls on one manager, failing ones included, with any choice of pooled objects. */
  method RunHistory(alg: Algorithms, ops: seq<Op>) returns (results: seq<Returned>)
    ensures |results| == |ops|
    ensures forall k :: 0 <= k < |ops| ==> results[k] == Expected(alg, ops[k])
  {
    var manager := new CompressorManager(alg);
    results := [];
    for k := 0 to |ops|
      invariant manager.Valid() && manager.alg == alg && PoolsFresh(manager)
      invariant |results| == k
      invariant forall j :: 0 <= j < k ==> results[j] == Expected(alg, ops[j])
    {
      var result;
      match ops[k] {
        case DoCompress(_, _, _, _) => result := CompressOp(manager, ops[k]);
        case DoDecompress(_, _, _) => result := DecompressOp(manager, ops[k]);
      }
      results := results + [result];
    }
  }
}
