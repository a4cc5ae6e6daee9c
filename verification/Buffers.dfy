/** bytes.Buffer by value: writes into a store of fixed length, and what a writer that emits in pieces leaves there. */
module Buffers {
  import opened Compression

  /** A store after a write at an offset; what lies beyond its end is not written. */
  function WriteAt(store: Bytes, at: nat, data: Bytes): (s: Bytes)
    ensures |s| == |store|
  {
    seq(|store|, k requires 0 <= k < |store| => if at <= k < at + |data| then data[k - at] else store[k])
  }

  function Concat(pieces: seq<Bytes>): Bytes {
    if pieces == [] then [] else pieces[0] + Concat(pieces[1..])
  }

  lemma ConcatUnfolds(front: Bytes, first: Bytes, rest: Bytes)
    ensures (front + first) + rest == front + (first + rest)
  {
  }

  /** Data cut into pieces of the given sizes, the rest in one last piece. */
  function Chunks(data: Bytes, sizes: seq<nat>): (pieces: seq<Bytes>)
    ensures Concat(pieces) == data
    decreases |sizes|
  {
    if sizes == [] || sizes[0] > |data| then
      assert [data][1..] == [];
      [data]
    else
      var rest := Chunks(data[sizes[0]..], sizes[1..]);
      assert ([data[..sizes[0]]] + rest)[1..] == rest;
      [data[..sizes[0]]] + rest
  }

  /** Every way to cut data is the way of some sizes. */
  lemma {:induction false} ChunksAreAny(pieces: seq<Bytes>) returns (sizes: seq<nat>)
    requires pieces != []
    ensures Chunks(Concat(pieces), sizes) == pieces
    decreases |pieces|
  {
    if |pieces| == 1 {
      sizes := [];
      assert pieces[1..] == [];
      assert Concat(pieces) == pieces[0];
    } else {
      var rest := ChunksAreAny(pieces[1..]);
      sizes := [|pieces[0]|] + rest;
      assert sizes[1..] == rest;
      assert Concat(pieces)[|pieces[0]|..] == Concat(pieces[1..]);
    }
  }

  /** The leading pieces that fit the room, one after the other: the first that does not makes the buffer move away. */
  function Fitting(pieces: seq<Bytes>, room: int): (written: Bytes)
    ensures written <= Concat(pieces) && (room >= 0 ==> |written| <= room)
  {
    if pieces == [] || |pieces[0]| > room then [] else pieces[0] + Fitting(pieces[1..], room - |pieces[0]|)
  }

  /** Two writes, one where the other ends, are one write. */
  lemma WriteAtTwice(store: Bytes, at: nat, a: Bytes, b: Bytes)
    ensures WriteAt(WriteAt(store, at, a), at + |a|, b) == WriteAt(store, at, a + b)
  {
  }

  lemma WriteNothing(store: Bytes, at: nat)
    ensures WriteAt(store, at, []) == store
  {
  }

  /** A store after pieces are written from an offset. */
  function Filled(store: Bytes, at: nat, pieces: seq<Bytes>): (s: Bytes)
    ensures |s| == |store|
  {
    WriteAt(store, at, Fitting(pieces, |store| - at))
  }

  lemma FilledStep(store: Bytes, at: nat, pieces: seq<Bytes>)
    requires pieces != [] && at + |pieces[0]| <= |store|
    ensures Filled(store, at, pieces) == Filled(WriteAt(store, at, pieces[0]), at + |pieces[0]|, pieces[1..])
  {
    var rest := Fitting(pieces[1..], |store| - at - |pieces[0]|);
    calc {
      Filled(store, at, pieces);
      WriteAt(store, at, pieces[0] + rest);
      { WriteAtTwice(store, at, pieces[0], rest); }
      WriteAt(WriteAt(store, at, pieces[0]), at + |pieces[0]|, rest);
      Filled(WriteAt(store, at, pieces[0]), at + |pieces[0]|, pieces[1..]);
    }
  }

  lemma FilledUnfolds(store: Bytes, at: nat, pieces: seq<Bytes>)
    ensures pieces == [] ==> Filled(store, at, pieces) == store
    ensures pieces != [] ==>
      Filled(store, at, pieces) ==
      if at + |pieces[0]| <= |store| then Filled(WriteAt(store, at, pieces[0]), at + |pieces[0]|, pieces[1..])
      else store
  {
    if pieces != [] && at + |pieces[0]| <= |store| {
      FilledStep(store, at, pieces);
    } else {
      assert Fitting(pieces, |store| - at) == [];
      WriteNothing(store, at);
    }
  }

  lemma {:induction false} AllFits(pieces: seq<Bytes>, room: int)
    requires |Concat(pieces)| <= room
    ensures Fitting(pieces, room) == Concat(pieces)
    decreases |pieces|
  {
    if pieces != [] {
      AllFits(pieces[1..], room - |pieces[0]|);
    }
  }

  /** A write, as its first bytes see it. */
  lemma WriteAtFront(store: Bytes, at: nat, data: Bytes, n: nat)
    requires n <= |store|
    ensures WriteAt(store, at, data)[..n] == WriteAt(store[..n], at, data)
  {
  }

  /** What was written up to an offset stays under a write there, which then ends the front. */
  lemma WriteAtEnd(store: Bytes, at: nat, data: Bytes)
    requires at + |data| <= |store|
    ensures WriteAt(store, at, data)[..at + |data|] == store[..at] + data
  {
  }

  /** A write at the start leaves bytes as they are exactly when one of the two is a prefix of the other. */
  lemma IntactUnderWrite(bytes: Bytes, written: Bytes)
    ensures WriteAt(bytes, 0, written) == bytes <==> written <= bytes || bytes <= written
  {
    var after := WriteAt(bytes, 0, written);
    if after == bytes {
      assert forall k :: 0 <= k < |bytes| && k < |written| ==> written[k] == after[k] == bytes[k];
    }
  }

  /** The front of a store that is filled from its start. */
  lemma FilledFront(store: Bytes, n: nat, pieces: seq<Bytes>)
    requires n <= |store|
    ensures
      var front, written := store[..n], Fitting(pieces, |store|);
      && Filled(store, 0, pieces)[..n] == WriteAt(front, 0, written)
      && (WriteAt(front, 0, written) == front <==> written <= front || front <= written)
      && (|Concat(pieces)| <= |store| ==> written == Concat(pieces))
  {
    WriteAtFront(store, 0, Fitting(pieces, |store|), n);
    IntactUnderWrite(store[..n], Fitting(pieces, |store|));
    if |Concat(pieces)| <= |store| {
      AllFits(pieces, |store|);
    }
  }
}
