/**
 The buffers of one compressor under concurrent use.  A user draws a buffer, its writer emits pieces into it, and the
 buffer is back in the pool while the user still holds a slice of the buffer's array; only a later step copies the bytes.
 */
module SharedPools {
  import opened Wrappers
  import opened Compression
  import opened Buffers

  /** A bytes.Buffer: the number of its array, and its length. */
  datatype Buf = Buf(arr: nat, len: nat)

  /** A user of the pool; own is what its slice should hold, and since is the length of the log when it got the slice. */
  datatype User =
    | Idle
    | Writing(own: Bytes, buf: Buf, todo: seq<Bytes>)
    | Holding(own: Bytes, arr: nat, since: nat)

  /** A write into an array that was there before. */
  datatype Written = Written(user: nat, arr: nat, at: nat, data: Bytes)

  /** The arrays ever allocated, the pooled buffers, every write so far, and the users. */
  datatype Memory = Memory(arrays: seq<Bytes>, pooled: seq<Buf>, log: seq<Written>, users: seq<User>)

  const NEW_MEMORY := Memory([], [], [], [])

  /** A pick that is no index of the pool stands for a new buffer; slack is what a new array has beyond its content. */
  datatype PoolStep =
    | Draw(own: Bytes, pieces: seq<Bytes>, pick: nat)
    | Emit(slack: Bytes)
    | PutBack
    | Finish

  function WithUser(m: Memory, i: nat, user: User): Memory
    requires i < |m.users|
  {
    m.(users := m.users[i := user])
  }

  /** The next piece goes in place where it fits; else the buffer moves to a new array. */
  function Emitted(m: Memory, i: nat, slack: Bytes): Memory
    requires i < |m.users| && m.users[i].Writing? && m.users[i].todo != [] && m.users[i].buf.arr < |m.arrays|
    requires m.users[i].buf.len <= |m.arrays[m.users[i].buf.arr]|
  {
    var u := m.users[i];
    var piece, arr, len := u.todo[0], u.buf.arr, u.buf.len;
    if len + |piece| <= |m.arrays[arr]| then
      WithUser(m, i, u.(buf := Buf(arr, len + |piece|), todo := u.todo[1..]))
        .(arrays := m.arrays[arr := WriteAt(m.arrays[arr], len, piece)], log := m.log + [Written(i, arr, len, piece)])
    else
      WithUser(m, i, u.(buf := Buf(|m.arrays|, len + |piece|), todo := u.todo[1..]))
        .(arrays := m.arrays + [m.arrays[arr][..len] + piece + slack])
  }

  function StepPool(m: Memory, i: nat, step: PoolStep): Option<Memory> {
    if i >= |m.users| then None
    else
      var u := m.users[i];
      match step
      case Draw(own, pieces, pick) =>
        if u != Idle || Concat(pieces) != own then None
        else if pick < |m.pooled| then
          Some(WithUser(m, i, Writing(own, Buf(m.pooled[pick].arr, 0), pieces))
                 .(pooled := m.pooled[..pick] + m.pooled[pick + 1..]))
        else Some(WithUser(m, i, Writing(own, Buf(|m.arrays|, 0), pieces)).(arrays := m.arrays + [[]]))
      case Emit(slack) =>
        if !u.Writing? || u.todo == [] || u.buf.arr >= |m.arrays| || u.buf.len > |m.arrays[u.buf.arr]| then None
        else Some(Emitted(m, i, slack))
      case PutBack =>
        if !u.Writing? || u.todo != [] then None
        else Some(WithUser(m, i, Holding(u.own, u.buf.arr, |m.log|)).(pooled := m.pooled + [u.buf]))
      case Finish =>
        if !u.Holding? then None else Some(WithUser(m, i, Idle))
  }

  /** A new user comes. */
  function Joined(m: Memory): Memory {
    m.(users := m.users + [Idle])
  }

  /** The bytes of a slice now. */
  function Seen(m: Memory, i: nat): Bytes
    requires i < |m.users| && m.users[i].Holding?
    requires m.users[i].arr < |m.arrays| && |m.users[i].own| <= |m.arrays[m.users[i].arr]|
  {
    m.arrays[m.users[i].arr][..|m.users[i].own|]
  }

  /** What writes into one array make of the bytes at its front. */
  function Overwritten(bytes: Bytes, arr: nat, log: seq<Written>): (s: Bytes)
    ensures |s| == |bytes|
    decreases |log|
  {
    if log == [] then bytes
    else
      var n := |log| - 1;
      var s := Overwritten(bytes, arr, log[..n]);
      if log[n].arr == arr then WriteAt(s, log[n].at, log[n].data) else s
  }

  predicate Untouched(arr: nat, log: seq<Written>) {
    forall k :: 0 <= k < |log| ==> log[k].arr != arr
  }

  lemma {:induction false} UntouchedIsIntact(bytes: Bytes, arr: nat, log: seq<Written>)
    requires Untouched(arr, log)
    ensures Overwritten(bytes, arr, log) == bytes
    decreases |log|
  {
    if log != [] {
      UntouchedIsIntact(bytes, arr, log[..|log| - 1]);
    }
  }

  // ---- Invariant -------------------------------------------------------------------------------------------------

  predicate WriterInv(m: Memory, u: User)
    requires u.Writing?
  {
    && u.buf.arr < |m.arrays| && u.buf.len <= |m.arrays[u.buf.arr]|
    && m.arrays[u.buf.arr][..u.buf.len] + Concat(u.todo) == u.own
  }

  /** What a slice holds is what the writes since have made of its own bytes, and its holder made none of them. */
  predicate HolderInv(m: Memory, i: nat, u: User)
    requires u.Holding?
  {
    && u.arr < |m.arrays| && |u.own| <= |m.arrays[u.arr]| && u.since <= |m.log|
    && m.arrays[u.arr][..|u.own|] == Overwritten(u.own, u.arr, m.log[u.since..])
    && forall k :: u.since <= k < |m.log| ==> m.log[k].user != i
  }

  /** No two buffers, pooled or drawn, share an array. */
  predicate Exclusive(m: Memory) {
    && (forall j :: 0 <= j < |m.pooled| ==> m.pooled[j].arr < |m.arrays|)
    && (forall j, k :: 0 <= j < k < |m.pooled| ==> m.pooled[j].arr != m.pooled[k].arr)
    && (forall i, j :: 0 <= i < |m.users| && m.users[i].Writing? && 0 <= j < |m.pooled| ==>
          m.pooled[j].arr != m.users[i].buf.arr)
    && (forall i, j :: 0 <= i < j < |m.users| && m.users[i].Writing? && m.users[j].Writing? ==>
          m.users[i].buf.arr != m.users[j].buf.arr)
  }

  predicate UsersInv(m: Memory) {
    && (forall i :: 0 <= i < |m.users| && m.users[i].Writing? ==> WriterInv(m, m.users[i]))
    && (forall i :: 0 <= i < |m.users| && m.users[i].Holding? ==> HolderInv(m, i, m.users[i]))
  }

  predicate PoolInv(m: Memory) {
    Exclusive(m) && UsersInv(m)
  }

  /** The arrays that were there keep their contents, and more may come. */
  predicate Extends(m: Memory, m': Memory) {
    m.arrays <= m'.arrays && m'.log == m.log
  }

  lemma OthersUnderExtension(m: Memory, m': Memory, i: nat)
    requires UsersInv(m) && Extends(m, m') && i < |m.users| == |m'.users|
    requires forall j :: 0 <= j < |m.users| && j != i ==> m'.users[j] == m.users[j]
    requires m'.users[i].Writing? ==> WriterInv(m', m'.users[i])
    requires m'.users[i].Holding? ==> HolderInv(m', i, m'.users[i])
    ensures UsersInv(m')
  {
    assert forall k :: 0 <= k < |m.arrays| ==> m'.arrays[k] == m.arrays[k];
  }

  lemma DrawKeepsInv(m: Memory, i: nat, step: PoolStep)
    requires PoolInv(m) && step.Draw? && StepPool(m, i, step).Some?
    ensures PoolInv(StepPool(m, i, step).value)
  {
    var m' := StepPool(m, i, step).value;
    assert [] + Concat(step.pieces) == step.own;
    assert WriterInv(m', m'.users[i]);
    OthersUnderExtension(m, m', i);
  }

  lemma PutBackKeepsInv(m: Memory, i: nat)
    requires PoolInv(m) && StepPool(m, i, PutBack).Some?
    ensures PoolInv(StepPool(m, i, PutBack).value)
  {
    var m' := StepPool(m, i, PutBack).value;
    var u := m.users[i];
    assert WriterInv(m, u);
    assert m.arrays[u.buf.arr][..u.buf.len] + [] == m.arrays[u.buf.arr][..u.buf.len];
    assert m'.log[|m.log|..] == [];
    assert HolderInv(m', i, m'.users[i]);
    OthersUnderExtension(m, m', i);
  }

  lemma FinishKeepsInv(m: Memory, i: nat)
    requires PoolInv(m) && StepPool(m, i, Finish).Some?
    ensures PoolInv(StepPool(m, i, Finish).value)
  {
    OthersUnderExtension(m, StepPool(m, i, Finish).value, i);
  }

  /** The writer's own view of a piece that went in place. */
  lemma WriterAfterPiece(bytes: Bytes, len: nat, todo: seq<Bytes>, own: Bytes)
    requires todo != [] && len + |todo[0]| <= |bytes| && bytes[..len] + Concat(todo) == own
    ensures WriteAt(bytes, len, todo[0])[..len + |todo[0]|] + Concat(todo[1..]) == own
  {
    WriteAtEnd(bytes, len, todo[0]);
    assert (bytes[..len] + todo[0]) + Concat(todo[1..]) == bytes[..len] + (todo[0] + Concat(todo[1..]));
  }

  /** A holder under one more write by another user. */
  lemma HolderAfterWrite(m: Memory, m': Memory, j: nat, w: Written)
    requires j < |m.users| && m.users[j].Holding? && HolderInv(m, j, m.users[j]) && w.user != j
    requires w.arr < |m.arrays| && m'.log == m.log + [w]
    requires m'.arrays == m.arrays[w.arr := WriteAt(m.arrays[w.arr], w.at, w.data)]
    ensures HolderInv(m', j, m.users[j])
  {
    var u := m.users[j];
    var since := m'.log[u.since..];
    assert since[..|since| - 1] == m.log[u.since..];
    if w.arr == u.arr {
      WriteAtFront(m.arrays[u.arr], w.at, w.data, |u.own|);
    }
  }

  lemma InPlaceKeepsInv(m: Memory, i: nat, slack: Bytes)
    requires PoolInv(m) && StepPool(m, i, Emit(slack)).Some?
    requires m.users[i].buf.len + |m.users[i].todo[0]| <= |m.arrays[m.users[i].buf.arr]|
    ensures PoolInv(StepPool(m, i, Emit(slack)).value)
  {
    var m' := StepPool(m, i, Emit(slack)).value;
    var u := m.users[i];
    assert WriterInv(m, u);
    WriterAfterPiece(m.arrays[u.buf.arr], u.buf.len, u.todo, u.own);
    var w := Written(i, u.buf.arr, u.buf.len, u.todo[0]);
    forall j | 0 <= j < |m.users| && m'.users[j].Holding?
      ensures HolderInv(m', j, m'.users[j])
    {
      HolderAfterWrite(m, m', j, w);
    }
    forall j | 0 <= j < |m.users| && m'.users[j].Writing?
      ensures WriterInv(m', m'.users[j])
    {
      assert WriterInv(m, m.users[j]);
    }
  }

  lemma MoveKeepsInv(m: Memory, i: nat, slack: Bytes)
    requires PoolInv(m) && StepPool(m, i, Emit(slack)).Some?
    requires m.users[i].buf.len + |m.users[i].todo[0]| > |m.arrays[m.users[i].buf.arr]|
    ensures PoolInv(StepPool(m, i, Emit(slack)).value)
  {
    var m' := StepPool(m, i, Emit(slack)).value;
    var u, u' := m.users[i], m'.users[i];
    assert WriterInv(m, u);
    var front := m.arrays[u.buf.arr][..u.buf.len];
    assert m'.arrays[u'.buf.arr][..u'.buf.len] == front + u.todo[0];
    assert (front + u.todo[0]) + Concat(u.todo[1..]) == front + (u.todo[0] + Concat(u.todo[1..]));
    OthersUnderExtension(m, m', i);
  }

  lemma StepKeepsPoolInv(m: Memory, i: nat, step: PoolStep)
    requires PoolInv(m) && StepPool(m, i, step).Some?
    ensures PoolInv(StepPool(m, i, step).value)
  {
    match step {
      case Draw(_, _, _) => DrawKeepsInv(m, i, step);
      case PutBack => PutBackKeepsInv(m, i);
      case Finish => FinishKeepsInv(m, i);
      case Emit(slack) =>
        if m.users[i].buf.len + |m.users[i].todo[0]| <= |m.arrays[m.users[i].buf.arr]| {
          InPlaceKeepsInv(m, i, slack);
        } else {
          MoveKeepsInv(m, i, slack);
        }
    }
  }

  lemma JoinKeepsPoolInv(m: Memory)
    requires PoolInv(m)
    ensures PoolInv(Joined(m))
  {
    forall i | 0 <= i < |Joined(m).users| && Joined(m).users[i].Holding?
      ensures HolderInv(Joined(m), i, Joined(m).users[i])
    {
      assert HolderInv(m, i, m.users[i]);
    }
    forall i | 0 <= i < |Joined(m).users| && Joined(m).users[i].Writing?
      ensures WriterInv(Joined(m), Joined(m).users[i])
    {
      assert WriterInv(m, m.users[i]);
    }
  }

  /** A step only adds to the log, and leaves the other users as they are. */
  lemma StepFrame(m: Memory, i: nat, step: PoolStep)
    requires StepPool(m, i, step).Some?
    ensures
      var m' := StepPool(m, i, step).value;
      && m.log <= m'.log && |m'.users| == |m.users|
      && (forall j :: 0 <= j < |m.users| && j != i ==> m'.users[j] == m.users[j])
      && (m'.users[i] != Idle ==>
            m'.users[i].own == if step.Draw? then step.own else if m.users[i] == Idle then [] else m.users[i].own)
  {
  }

  /**
   What a user copies from its slice is its own bytes exactly when the writes of other users into that array, made since
   the buffer went back, leave those bytes as they are; it is enough that there was none.
   */
  lemma CopyIsOwnExactlyWhenIntact(m: Memory, i: nat)
    requires PoolInv(m) && i < |m.users| && m.users[i].Holding?
    ensures
      var u := m.users[i];
      && u.arr < |m.arrays| && |u.own| <= |m.arrays[u.arr]| && u.since <= |m.log|
      && Seen(m, i) == Overwritten(u.own, u.arr, m.log[u.since..])
      && (forall k :: u.since <= k < |m.log| ==> m.log[k].user != i)
      && (Untouched(u.arr, m.log[u.since..]) ==> Seen(m, i) == u.own)
  {
    assert HolderInv(m, i, m.users[i]);
    if Untouched(m.users[i].arr, m.log[m.users[i].since..]) {
      UntouchedIsIntact(m.users[i].own, m.users[i].arr, m.log[m.users[i].since..]);
    }
  }

  // ---- One user alone --------------------------------------------------------------------------------------------

  /** All that is left to emit, with nobody in between; slack gives every new array's slack, by the pieces then left. */
  function EmitAll(m: Memory, i: nat, slack: nat -> Bytes): Option<Memory>
    decreases if i < |m.users| && m.users[i].Writing? then |m.users[i].todo| else 0
  {
    if i >= |m.users| || !m.users[i].Writing? then None
    else if m.users[i].todo == [] then Some(m)
    else
      match StepPool(m, i, Emit(slack(|m.users[i].todo|)))
      case None => None
      case Some(m') => EmitAll(m', i, slack)
  }

  /** One piece goes to the writer's array, or the writer moves to an array beyond the others. */
  lemma EmitTouchesOne(m: Memory, i: nat, slack: Bytes)
    requires StepPool(m, i, Emit(slack)).Some?
    ensures
      var u, m' := m.users[i], StepPool(m, i, Emit(slack)).value;
      var fits := u.buf.len + |u.todo[0]| <= |m.arrays[u.buf.arr]|;
      && |m.arrays| <= |m'.arrays| && m'.pooled == m.pooled
      && (forall k :: 0 <= k < |m.arrays| && k != u.buf.arr ==> m'.arrays[k] == m.arrays[k])
      && m'.arrays[u.buf.arr] ==
         (if fits then WriteAt(m.arrays[u.buf.arr], u.buf.len, u.todo[0]) else m.arrays[u.buf.arr])
      && m'.users == m.users[i := Writing(u.own, if fits then Buf(u.buf.arr, u.buf.len + |u.todo[0]|)
                                                 else Buf(|m.arrays|, u.buf.len + |u.todo[0]|), u.todo[1..])]
  {
  }

  /** The writer i of a memory has emitted all of its stream, and touched no user and no pooled buffer but its own. */
  predicate Whole(m: Memory, m': Memory, i: nat)
    requires i < |m.users| && m.users[i].Writing?
  {
    && |m.arrays| <= |m'.arrays| && m'.pooled == m.pooled && |m'.users| == |m.users|
    && m'.users[i].Writing? && m'.users == m.users[i := m'.users[i]]
    && m'.users[i].todo == [] && m'.users[i].own == m.users[i].own
    && m'.users[i].buf.arr < |m'.arrays| && m'.users[i].buf.len <= |m'.arrays[m'.users[i].buf.arr]|
    && m'.arrays[m'.users[i].buf.arr][..m'.users[i].buf.len] == m.users[i].own
  }

  lemma WholeAfterOne(m: Memory, m1: Memory, m2: Memory, i: nat)
    requires i < |m.users| && m.users[i].Writing? && i < |m1.users| && m1.users[i].Writing?
    requires |m.arrays| <= |m1.arrays| && m1.pooled == m.pooled && m1.users == m.users[i := m1.users[i]]
    requires m1.users[i].own == m.users[i].own && Whole(m1, m2, i)
    ensures Whole(m, m2, i)
  {
    assert m.users[i := m1.users[i]][i := m2.users[i]] == m.users[i := m2.users[i]];
  }

  /** A writer that runs alone comes to its end. */
  lemma {:induction false} EmitAllEnds(m: Memory, i: nat, slack: nat -> Bytes)
    requires PoolInv(m) && i < |m.users| && m.users[i].Writing?
    ensures EmitAll(m, i, slack).Some? && Whole(m, EmitAll(m, i, slack).value, i)
    decreases |m.users[i].todo|
  {
    var u := m.users[i];
    assert WriterInv(m, u);
    if u.todo == [] {
      assert m.arrays[u.buf.arr][..u.buf.len] + [] == m.arrays[u.buf.arr][..u.buf.len];
      assert m.users[i := u] == m.users;
    } else {
      var piece := Emit(slack(|u.todo|));
      var m1 := StepPool(m, i, piece).value;
      StepKeepsPoolInv(m, i, piece);
      EmitTouchesOne(m, i, piece.slack);
      EmitAllEnds(m1, i, slack);
      WholeAfterOne(m, m1, EmitAll(m1, i, slack).value, i);
    }
  }

  /** Array arr was filled with the pieces from an offset, and nothing else that was there has changed. */
  predicate OneFilled(arrays: seq<Bytes>, arrays': seq<Bytes>, arr: nat, at: nat, pieces: seq<Bytes>) {
    && arr < |arrays| <= |arrays'|
    && arrays'[arr] == Filled(arrays[arr], at, pieces)
    && forall k :: 0 <= k < |arrays| && k != arr ==> arrays'[k] == arrays[k]
  }

  /** A piece that fits, and then the others in the same array. */
  lemma FilledAfterOne(arrays: seq<Bytes>, arrays1: seq<Bytes>, arrays2: seq<Bytes>, arr: nat, at: nat,
                       pieces: seq<Bytes>)
    requires pieces != [] && arr < |arrays| && at + |pieces[0]| <= |arrays[arr]|
    requires arrays1 == arrays[arr := WriteAt(arrays[arr], at, pieces[0])]
    requires OneFilled(arrays1, arrays2, arr, at + |pieces[0]|, pieces[1..])
    ensures OneFilled(arrays, arrays2, arr, at, pieces)
  {
    FilledUnfolds(arrays[arr], at, pieces);
  }

  /** A piece that does not fit, and then the others in a new array. */
  lemma FilledAfterMove(arrays: seq<Bytes>, moved: Bytes, arrays2: seq<Bytes>, arr: nat, at: nat, len: nat,
                        pieces: seq<Bytes>)
    requires pieces != [] && arr < |arrays| && at + |pieces[0]| > |arrays[arr]|
    requires OneFilled(arrays + [moved], arrays2, |arrays|, len, pieces[1..])
    ensures OneFilled(arrays, arrays2, arr, at, pieces)
  {
    FilledUnfolds(arrays[arr], at, pieces);
    assert (arrays + [moved])[arr] == arrays[arr];
  }

  /**
   Run alone, a writer leaves in the array it started in what the compressor's does on the heap: the leading pieces that
   fit, over what was there.  It touches no other array.
   */
  lemma {:induction false} EmitAllFills(m: Memory, i: nat, slack: nat -> Bytes)
    requires PoolInv(m) && i < |m.users| && m.users[i].Writing?
    ensures EmitAll(m, i, slack).Some?
    ensures OneFilled(m.arrays, EmitAll(m, i, slack).value.arrays, m.users[i].buf.arr, m.users[i].buf.len,
                      m.users[i].todo)
    decreases |m.users[i].todo|
  {
    var u := m.users[i];
    assert WriterInv(m, u);
    if u.todo == [] {
      FilledUnfolds(m.arrays[u.buf.arr], u.buf.len, u.todo);
    } else {
      var piece := Emit(slack(|u.todo|));
      var m1 := StepPool(m, i, piece).value;
      StepKeepsPoolInv(m, i, piece);
      EmitAllFills(m1, i, slack);
      var arrays2 := EmitAll(m1, i, slack).value.arrays;
      if u.buf.len + |u.todo[0]| <= |m.arrays[u.buf.arr]| {
        FilledAfterOne(m.arrays, m1.arrays, arrays2, u.buf.arr, u.buf.len, u.todo);
      } else {
        FilledAfterMove(m.arrays, m1.arrays[|m.arrays|], arrays2, u.buf.arr, u.buf.len, m1.users[i].buf.len, u.todo);
      }
    }
  }

  /** The steps of one whole compression, with nobody in between. */
  function PackAlone(m: Memory, i: nat, own: Bytes, pieces: seq<Bytes>, pick: nat, slack: nat -> Bytes): Option<Memory> {
    match StepPool(m, i, Draw(own, pieces, pick))
    case None => None
    case Some(m1) =>
      match EmitAll(m1, i, slack)
      case None => None
      case Some(m2) => StepPool(m2, i, PutBack)
  }

  /** After it the user holds its own stream, in the array of the buffer that went back last. */
  lemma PackedAlone(m: Memory, i: nat, own: Bytes, pieces: seq<Bytes>, pick: nat, slack: nat -> Bytes)
    requires PoolInv(m) && i < |m.users| && m.users[i] == Idle && Concat(pieces) == own
    ensures PackAlone(m, i, own, pieces, pick, slack).Some?
    ensures
      var m' := PackAlone(m, i, own, pieces, pick, slack).value;
      && m'.pooled != []
      && var arr := m'.pooled[|m'.pooled| - 1].arr;
         && m'.users == m.users[i := Holding(own, arr, |m'.log|)]
         && |m'.pooled| == (if pick < |m.pooled| then |m.pooled| else |m.pooled| + 1)
         && arr < |m'.arrays| && |own| <= |m'.arrays[arr]| && m'.arrays[arr][..|own|] == own
         && (pick < |m.pooled| ==>
               && m.pooled[pick].arr < |m.arrays| <= |m'.arrays|
               && m'.arrays[m.pooled[pick].arr] == Filled(m.arrays[m.pooled[pick].arr], 0, pieces))
  {
    var draw := Draw(own, pieces, pick);
    var m1 := StepPool(m, i, draw).value;
    StepKeepsPoolInv(m, i, draw);
    EmitAllEnds(m1, i, slack);
    EmitAllFills(m1, i, slack);
    var m2 := EmitAll(m1, i, slack).value;
    assert m1.users[i := m2.users[i]] == m.users[i := m2.users[i]];
    var held := Holding(own, m2.users[i].buf.arr, |m2.log|);
    assert m2.users[i := held] == m.users[i := held];
    assert m2.users[i].buf.len == |own|;
  }
}
