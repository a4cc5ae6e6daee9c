/**
 One connection of a client Call: the callback of the subscription, the readers and Close run concurrently, and every
 field access and channel operation is a step of its own.  A Call has one reader; a second one is that of an earlier Call
 which is still using the same codec.
 */
module Conns {
  import opened Wrappers
  import opened Compression

  /** bytes.NewReader over a payload, at a position. */
  datatype BytesReader = BytesReader(data: Bytes, pos: nat)

  /** The callback of the one delivered message: before it, at each of its three statements, and after. */
  datatype Callback = Idle | SetReader | SetReady | Sending | Sent | SendPanicked

  /** A reader, between calls of Read and at each point inside one; size is the length of the caller's buffer. */
  datatype Reader = Outside | Testing(size: nat) | Blocked(size: nat) | Copying(size: nat) | Ended(closed: bool)

  /** What one Read returned, and to which reader. */
  datatype Taken = Taken(reader: nat, data: Bytes)

  /** The connection, the message that was delivered if any, and what the reads have returned, in order. */
  datatype Conn = Conn(
    message: Option<Bytes>,
    callback: Callback,
    readers: seq<Reader>,
    ready: bool,
    bytesReader: Option<BytesReader>,
    closed: bool,
    taken: seq<Taken>)

  function NewConn(readers: nat): Conn {
    Conn(None, Idle, seq(readers, _ => Outside), false, None, false, [])
  }

  /** What bytes.Reader.Read does with a buffer of the given size: the bytes, and the reader; None at the end. */
  function Take(r: BytesReader, size: nat): Option<(Bytes, BytesReader)> {
    if r.pos >= |r.data| then None
    else
      var n := if size <= |r.data| - r.pos then size else |r.data| - r.pos;
      Some((r.data[r.pos..r.pos + n], r.(pos := r.pos + n)))
  }

  /** All that was read, by anyone. */
  function AllTaken(taken: seq<Taken>): Bytes
    decreases |taken|
  {
    if taken == [] then [] else AllTaken(taken[..|taken| - 1]) + taken[|taken| - 1].data
  }

  /** All that one reader has read: what its io.ReadAll has so far. */
  function ReadBy(taken: seq<Taken>, k: nat): Bytes
    decreases |taken|
  {
    if taken == [] then []
    else ReadBy(taken[..|taken| - 1], k) + if taken[|taken| - 1].reader == k then taken[|taken| - 1].data else []
  }

  datatype Action =
    | Deliver(payload: Bytes)
    | StoreReader
    | StoreReady
    | SendOnClosed
    | Close
    | Read(reader: nat, op: ReadOp)

  datatype ReadOp = Call(size: nat) | Test | Meet | Copy | WakeClosed

  /** A step of reader k: Meet is the channel's rendezvous with the callback. */
  function NextRead(c: Conn, k: nat, op: ReadOp): Option<Conn>
    requires k < |c.readers|
  {
    var r := c.readers[k];
    match op
    case Call(size) =>
      if r != Outside || size == 0 then None else Some(c.(readers := c.readers[k := Testing(size)]))
    case Test =>
      if !r.Testing? then None
      else Some(c.(readers := c.readers[k := if c.ready then Copying(r.size) else Blocked(r.size)]))
    case Meet =>
      if c.callback == Sending && r.Blocked? && !c.closed then
        Some(c.(callback := Sent, readers := c.readers[k := Copying(r.size)]))
      else None
    case Copy =>
      if !r.Copying? || c.bytesReader.None? then None
      else (
        match Take(c.bytesReader.value, r.size)
        case None => Some(c.(readers := c.readers[k := Ended(false)]))
        case Some((data, rest)) =>
          Some(c.(readers := c.readers[k := Outside], bytesReader := Some(rest), taken := c.taken + [Taken(k, data)])))
    case WakeClosed =>
      if r.Blocked? && c.closed then Some(c.(readers := c.readers[k := Ended(true)])) else None
  }

  /** One step, or None where it is not possible.  Only one message is delivered, and Close is called once. */
  function Next(c: Conn, a: Action): Option<Conn> {
    match a
    case Deliver(payload) =>
      if c.callback != Idle then None else Some(c.(message := Some(payload), callback := SetReader))
    case StoreReader =>
      if c.callback != SetReader || c.message.None? then None
      else Some(c.(bytesReader := Some(BytesReader(c.message.value, 0)), callback := SetReady))
    case StoreReady =>
      if c.callback != SetReady then None else Some(c.(ready := true, callback := Sending))
    case SendOnClosed =>
      if c.callback == Sending && c.closed then Some(c.(callback := SendPanicked)) else None
    case Close =>
      if c.closed then None else Some(c.(closed := true))
    case Read(k, op) =>
      if k < |c.readers| then NextRead(c, k, op) else None
  }

  function Run(c: Conn, actions: seq<Action>): Option<Conn>
    decreases |actions|
  {
    if actions == [] then Some(c)
    else match Next(c, actions[0])
      case None => None
      case Some(c') => Run(c', actions[1..])
  }

  ghost predicate Reachable(c: Conn) {
    exists actions: seq<Action> :: Run(NewConn(|c.readers|), actions) == Some(c)
  }

  // ---- Invariant -------------------------------------------------------------------------------------------------

  /** The stored reader is over the message, and stands behind all that was read. */
  predicate MessageInv(c: Conn) {
    && (c.callback == Idle <==> c.message == None)
    && (c.bytesReader.Some? <==> c.callback != Idle && c.callback != SetReader)
    && (c.ready <==> c.bytesReader.Some? && c.callback != SetReady)
    && (c.bytesReader.Some? ==>
          && Some(c.bytesReader.value.data) == c.message
          && c.bytesReader.value.pos <= |c.message.value|
          && AllTaken(c.taken) == c.message.value[..c.bytesReader.value.pos])
    && (!c.ready ==> c.taken == [])
    && (c.callback == SendPanicked ==> c.closed)
  }

  predicate ReaderInv(c: Conn, k: nat)
    requires k < |c.readers|
  {
    var r := c.readers[k];
    && (r.Copying? ==> c.ready)
    && (r.Blocked? ==> ReadBy(c.taken, k) == [])
    && (r.Ended? && r.closed ==> c.closed && ReadBy(c.taken, k) == [])
    && (r.Ended? && !r.closed ==>
          c.ready && c.bytesReader.Some? && c.bytesReader.value.pos >= |c.bytesReader.value.data|)
  }

  predicate Inv(c: Conn) {
    && MessageInv(c)
    && (forall k :: 0 <= k < |c.readers| ==> ReaderInv(c, k))
    && (forall j :: 0 <= j < |c.taken| ==> c.taken[j].reader < |c.readers|)
  }

  lemma {:induction false} NothingTaken(taken: seq<Taken>, k: nat)
    requires AllTaken(taken) == []
    ensures ReadBy(taken, k) == []
    decreases |taken|
  {
    if taken != [] {
      NothingTaken(taken[..|taken| - 1], k);
    }
  }

  lemma TakeIsNext(r: BytesReader, size: nat)
    requires Take(r, size).Some?
    ensures
      var (data, rest) := Take(r, size).value;
      rest.data == r.data && rest.pos <= |r.data| && r.data[..r.pos] + data == r.data[..rest.pos]
  {
  }

  lemma OneMoreTaken(taken: seq<Taken>, t: Taken, k: nat)
    ensures AllTaken(taken + [t]) == AllTaken(taken) + t.data
    ensures ReadBy(taken + [t], k) == ReadBy(taken, k) + if t.reader == k then t.data else []
  {
    assert (taken + [t])[..|taken|] == taken;
  }

  lemma CopyKeepsReader(c: Conn, k: nat, j: nat)
    requires Inv(c) && k < |c.readers| && NextRead(c, k, Copy).Some? && j < |c.readers|
    ensures ReaderInv(NextRead(c, k, Copy).value, j)
  {
    assert ReaderInv(c, j) && ReaderInv(c, k);
    if Take(c.bytesReader.value, c.readers[k].size).Some? {
      OneMoreTaken(c.taken, Taken(k, Take(c.bytesReader.value, c.readers[k].size).value.0), j);
    }
  }

  lemma CopyKeepsInv(c: Conn, k: nat)
    requires Inv(c) && k < |c.readers| && NextRead(c, k, Copy).Some?
    ensures Inv(NextRead(c, k, Copy).value)
  {
    var c' := NextRead(c, k, Copy).value;
    var r, size := c.bytesReader.value, c.readers[k].size;
    if Take(r, size).Some? {
      TakeIsNext(r, size);
      OneMoreTaken(c.taken, Taken(k, Take(r, size).value.0), k);
    }
    assert ReaderInv(c, k);
    assert MessageInv(c');
    forall j | 0 <= j < |c'.readers|
      ensures ReaderInv(c', j)
    {
      CopyKeepsReader(c, k, j);
    }
  }

  lemma ReadKeepsInv(c: Conn, k: nat, op: ReadOp)
    requires Inv(c) && k < |c.readers| && NextRead(c, k, op).Some?
    ensures Inv(NextRead(c, k, op).value)
  {
    assert ReaderInv(c, k);
    if op == Copy {
      CopyKeepsInv(c, k);
    } else {
      var c' := NextRead(c, k, op).value;
      forall j | 0 <= j < |c'.readers|
        ensures ReaderInv(c', j)
      {
        assert ReaderInv(c, j);
      }
    }
  }

  lemma NextKeepsInv(c: Conn, a: Action)
    requires Inv(c) && Next(c, a).Some?
    ensures Inv(Next(c, a).value)
  {
    if a.Read? {
      ReadKeepsInv(c, a.reader, a.op);
    } else {
      var c' := Next(c, a).value;
      forall j | 0 <= j < |c'.readers|
        ensures ReaderInv(c', j)
      {
        assert ReaderInv(c, j);
      }
    }
  }

  lemma {:induction false} RunKeepsInv(c: Conn, actions: seq<Action>)
    requires Inv(c) && Run(c, actions).Some?
    ensures Inv(Run(c, actions).value)
    decreases |actions|
  {
    if actions != [] {
      NextKeepsInv(c, actions[0]);
      RunKeepsInv(Next(c, actions[0]).value, actions[1..]);
    }
  }

  lemma ReachableInv(c: Conn)
    requires Reachable(c)
    ensures Inv(c)
  {
    var actions: seq<Action> :| Run(NewConn(|c.readers|), actions) == Some(c);
    RunKeepsInv(NewConn(|c.readers|), actions);
  }

  // ---- What a reader gets ----------------------------------------------------------------------------------------

  lemma {:induction false} OnlyReader(taken: seq<Taken>)
    requires forall j :: 0 <= j < |taken| ==> taken[j].reader == 0
    ensures ReadBy(taken, 0) == AllTaken(taken)
    decreases |taken|
  {
    if taken != [] {
      OnlyReader(taken[..|taken| - 1]);
    }
  }

  /**
   Whatever the order of the message, the reads and Close, and whatever the sizes of the read buffers: the bytes that the
   reader of a Call has read are a prefix of the message, all of it once a read reports the end of the stored reader, and
   the other end of file comes only after Close and only to a reader that got nothing.
   */
  lemma StreamTheorem(c: Conn)
    requires Reachable(c) && |c.readers| == 1
    ensures
      var received := ReadBy(c.taken, 0);
      && (c.ready ==> c.bytesReader.Some?)
      && (received == [] || (c.message.Some? && received <= c.message.value))
      && (c.readers[0] == Ended(false) ==> c.message == Some(received))
      && (c.readers[0] == Ended(true) ==> c.closed && received == [])
  {
    ReachableInv(c);
    assert ReaderInv(c, 0);
    OnlyReader(c.taken);
    if c.readers[0] == Ended(false) {
      assert c.message.value[..|c.message.value|] == c.message.value;
    }
  }

  /** A reader that has seen the message is never kept waiting. */
  lemma ReadyReaderProceeds(c: Conn, k: nat)
    requires Reachable(c) && c.ready && k < |c.readers|
    ensures c.readers[k].Testing? ==> NextRead(c, k, Test).Some? && NextRead(c, k, Test).value.readers[k].Copying?
    ensures c.readers[k].Copying? ==> NextRead(c, k, Copy).Some? && !NextRead(c, k, Copy).value.readers[k].Blocked?
  {
    ReachableInv(c);
    assert ReaderInv(c, k);
  }

  /**
   A reader inside Read has a step, unless it waits on the open channel and the callback is not sending; and Close then
   gives it one, to the end of file.
   */
  lemma ReaderProceedsOrWaits(c: Conn, k: nat)
    requires Reachable(c) && k < |c.readers| && c.readers[k] != Outside && !c.readers[k].Ended?
    ensures (exists op :: NextRead(c, k, op).Some?) <==> !(c.readers[k].Blocked? && !c.closed && c.callback != Sending)
    ensures c.readers[k].Blocked? && c.closed ==>
      NextRead(c, k, WakeClosed) == Some(c.(readers := c.readers[k := Ended(true)]))
    ensures c.readers[k].Blocked? && !c.closed ==>
      var closed := Next(c, Close);
      closed.Some? && NextRead(closed.value, k, WakeClosed) == Some(closed.value.(readers := c.readers[k := Ended(true)]))
  {
    ReachableInv(c);
    assert ReaderInv(c, k);
    if c.readers[k].Testing? {
      assert NextRead(c, k, Test).Some?;
    } else if c.readers[k].Copying? {
      assert NextRead(c, k, Copy).Some?;
    } else if c.closed {
      assert NextRead(c, k, WakeClosed).Some?;
    } else if c.callback == Sending {
      assert NextRead(c, k, Meet).Some?;
    }
  }

  /** A reader that is let in copies as much as its buffer takes, and reports the end exactly behind the message. */
  lemma CopyTakesWhatFits(c: Conn, k: nat)
    requires Reachable(c) && k < |c.readers| && c.readers[k].Copying?
    ensures c.bytesReader.Some? && NextRead(c, k, Copy).Some?
    ensures
      var r, size, c' := c.bytesReader.value, c.readers[k].size, NextRead(c, k, Copy).value;
      var left := |r.data| - r.pos;
      if left == 0 then c' == c.(readers := c.readers[k := Ended(false)])
      else
        && c'.readers == c.readers[k := Outside] && |c'.taken| == |c.taken| + 1
        && c'.taken[|c.taken|].reader == k && |c'.taken[|c.taken|].data| == (if size < left then size else left)
  {
    ReachableInv(c);
    assert ReaderInv(c, k);
  }

  predicate SomeoneWaits(c: Conn) {
    exists k :: 0 <= k < |c.readers| && c.readers[k].Blocked?
  }

  /** A callback that sends to nobody. */
  predicate Stuck(c: Conn) {
    c.callback == SendPanicked || (c.callback == Sending && (c.closed || !SomeoneWaits(c)))
  }

  lemma NextKeepsStuck(c: Conn, a: Action)
    requires Inv(c) && Stuck(c) && Next(c, a).Some?
    ensures Stuck(Next(c, a).value)
  {
    var c' := Next(c, a).value;
    if c.callback == Sending && !c.closed {
      forall k | 0 <= k < |c'.readers|
        ensures !c'.readers[k].Blocked?
      {
        assert !c.readers[k].Blocked?;
      }
    }
  }

  /** Such a callback stays there, and panics if it ever leaves. */
  lemma {:induction false} StuckCallback(c: Conn, actions: seq<Action>)
    requires Inv(c) && Stuck(c) && Run(c, actions).Some?
    ensures Stuck(Run(c, actions).value)
    decreases |actions|
  {
    if actions != [] {
      NextKeepsInv(c, actions[0]);
      NextKeepsStuck(c, actions[0]);
      StuckCallback(Next(c, actions[0]).value, actions[1..]);
    }
  }

  /** Some continuation lets the callback's send complete. */
  ghost predicate MayComplete(c: Conn) {
    exists actions: seq<Action> :: Run(c, actions).Some? && Run(c, actions).value.callback == Sent
  }

  /** The callback's send completes in some continuation exactly when a reader waits at the channel now. */
  lemma CallbackReturnsIffReaderWaits(c: Conn)
    requires Reachable(c) && c.callback == Sending
    ensures MayComplete(c) <==> SomeoneWaits(c) && !c.closed
  {
    ReachableInv(c);
    if MayComplete(c) {
      var actions: seq<Action> :| Run(c, actions).Some? && Run(c, actions).value.callback == Sent;
      if c.closed || !SomeoneWaits(c) {
        StuckCallback(c, actions);
      }
    }
    if SomeoneWaits(c) && !c.closed {
      var k :| 0 <= k < |c.readers| && c.readers[k].Blocked?;
      MeetCompletes(c, k);
    }
  }

  lemma MeetCompletes(c: Conn, k: nat)
    requires c.callback == Sending && k < |c.readers| && c.readers[k].Blocked? && !c.closed
    ensures MayComplete(c)
  {
    var met := Next(c, Action.Read(k, Meet)).value;
    var actions := [Action.Read(k, Meet)];
    assert actions[1..] == [];
    assert Run(met, actions[1..]) == Some(met);
    assert Run(c, actions).Some? && Run(c, actions).value.callback == Sent;
  }

  lemma {:induction false} RunAppend(c: Conn, actions: seq<Action>, a: Action)
    requires Run(c, actions).Some?
    ensures Run(c, actions + [a]) == Next(Run(c, actions).value, a)
    decreases |actions|
  {
    if actions == [] {
      assert [a][1..] == [];
    } else {
      assert (actions + [a])[1..] == actions[1..] + [a];
      RunAppend(Next(c, actions[0]).value, actions[1..], a);
    }
  }

  lemma ReachableNext(c: Conn, a: Action, c': Conn)
    requires Reachable(c) && Next(c, a) == Some(c')
    ensures Reachable(c')
  {
    var actions: seq<Action> :| Run(NewConn(|c.readers|), actions) == Some(c);
    RunAppend(NewConn(|c.readers|), actions, a);
    assert |c'.readers| == |c.readers|;
  }

  /** The message is stored and announced, and no reader has come yet. */
  lemma MessageBeforeRead(readers: nat, payload: Bytes) returns (c: Conn)
    ensures Reachable(c)
    ensures c == NewConn(readers).(message := Some(payload), callback := Sending, ready := true,
                                   bytesReader := Some(BytesReader(payload, 0)))
  {
    var c0 := NewConn(readers);
    assert |c0.readers| == readers && Run(NewConn(|c0.readers|), []) == Some(c0);
    c := c0.(message := Some(payload), callback := SetReader);
    ReachableNext(c0, Deliver(payload), c);
    var c' := c.(bytesReader := Some(BytesReader(payload, 0)), callback := SetReady);
    ReachableNext(c, StoreReader, c');
    c := c'.(ready := true, callback := Sending);
    ReachableNext(c', StoreReady, c);
  }

  /** One whole read by reader k of a connection whose message is there. */
  lemma WholeRead(c: Conn, k: nat, size: nat, c': Conn)
    requires Reachable(c) && k < |c.readers| && c.readers[k] == Outside && c.ready && c.bytesReader.Some? && size > 0
    requires match Take(c.bytesReader.value, size)
             case None => c' == c.(readers := c.readers[k := Ended(false)])
             case Some((data, rest)) => c' == c.(bytesReader := Some(rest), taken := c.taken + [Taken(k, data)])
    ensures Reachable(c')
  {
    var testing := c.(readers := c.readers[k := Testing(size)]);
    var copying := c.(readers := c.readers[k := Copying(size)]);
    ReachableNext(c, Action.Read(k, Call(size)), testing);
    assert testing.readers[k := Copying(size)] == copying.readers;
    ReachableNext(testing, Action.Read(k, Test), copying);
    assert copying.readers[k := Outside] == c.readers;
    assert copying.readers[k := Ended(false)] == c.readers[k := Ended(false)];
    assert NextRead(copying, k, Copy) == Some(c');
    ReachableNext(copying, Action.Read(k, Copy), c');
  }

  /** A reader drains a connection whose message is there. */
  lemma WholeMessage(c: Conn, k: nat, payload: Bytes) returns (c': Conn)
    requires Reachable(c) && k < |c.readers| && c.readers[k] == Outside && c.ready
    requires c.bytesReader == Some(BytesReader(payload, 0)) && c.taken == []
    ensures Reachable(c')
    ensures c' == c.(readers := c.readers[k := Ended(false)], bytesReader := Some(BytesReader(payload, |payload|)),
                     taken := if payload == [] then [] else [Taken(k, payload)])
  {
    c' := c;
    if payload != [] {
      c' := c.(bytesReader := Some(BytesReader(payload, |payload|)), taken := [Taken(k, payload)]);
      assert payload[0..|payload|] == payload && [] + [Taken(k, payload)] == [Taken(k, payload)];
      WholeRead(c, k, |payload|, c');
    }
    WholeRead(c', k, 1, c'.(readers := c.readers[k := Ended(false)]));
    c' := c'.(readers := c.readers[k := Ended(false)]);
  }

  /** A message that arrives before the first read is read in full, and its callback panics when the Call closes. */
  lemma EarlyMessageMakesCallbackPanic(payload: Bytes) returns (c: Conn)
    ensures Reachable(c) && |c.readers| == 1 && c.message == Some(payload) && c.callback == SendPanicked
    ensures c.readers[0] == Ended(false) && ReadBy(c.taken, 0) == payload
  {
    c := MessageBeforeRead(1, payload);
    c := WholeMessage(c, 0, payload);
    ReachableNext(c, Close, c.(closed := true));
    ReachableNext(c.(closed := true), SendOnClosed, c.(closed := true, callback := SendPanicked));
    c := c.(closed := true, callback := SendPanicked);
    assert payload != [] ==> c.taken[..0] == [];
  }

  // ---- A second reader -------------------------------------------------------------------------------------------

  lemma {:induction false} TwoReadersShare(taken: seq<Taken>)
    requires forall j :: 0 <= j < |taken| ==> taken[j].reader < 2
    ensures |ReadBy(taken, 0)| + |ReadBy(taken, 1)| == |AllTaken(taken)|
    ensures ReadBy(taken, 0) == [] ==> ReadBy(taken, 1) == AllTaken(taken)
    ensures ReadBy(taken, 1) == [] ==> ReadBy(taken, 0) == AllTaken(taken)
    decreases |taken|
  {
    if taken != [] {
      TwoReadersShare(taken[..|taken| - 1]);
    }
  }

  /**
   With an earlier Call's reader at work on the same connection, every byte goes to one of the two.  A reader that has
   come to the end has the whole message exactly when the other took nothing, and nothing when the other took all.
   */
  lemma SecondReaderTakesAway(c: Conn, own: nat)
    requires Reachable(c) && |c.readers| == 2 && own < 2 && c.readers[own] == Ended(false)
    ensures c.message.Some?
    ensures
      var message, got, lost := c.message.value, ReadBy(c.taken, own), ReadBy(c.taken, 1 - own);
      && |got| + |lost| == |message|
      && (got == message <==> lost == [])
      && (got == [] <==> lost == message)
  {
    ReachableInv(c);
    assert ReaderInv(c, own);
    TwoReadersShare(c.taken);
    assert c.message.value[..|c.message.value|] == c.message.value;
  }

  /** A reader that waits while the callback has met another one waits until Close. */
  lemma {:induction false} StarvedReaderWaitsForClose(c: Conn, k: nat, actions: seq<Action>)
    requires k < |c.readers| && c.readers[k].Blocked? && c.callback == Sent && Run(c, actions).Some?
    ensures
      var c' := Run(c, actions).value;
      k < |c'.readers| && (c'.closed || (c'.readers[k] == c.readers[k] && c'.callback == Sent))
    decreases |actions|
  {
    if actions != [] {
      var c1 := Next(c, actions[0]).value;
      if c1.closed {
        ClosedStays(c1, actions[1..]);
      } else {
        StarvedReaderWaitsForClose(c1, k, actions[1..]);
      }
    }
  }

  lemma {:induction false} ClosedStays(c: Conn, actions: seq<Action>)
    requires c.closed && Run(c, actions).Some?
    ensures Run(c, actions).value.closed && |Run(c, actions).value.readers| == |c.readers|
    decreases |actions|
  {
    if actions != [] {
      ClosedStays(Next(c, actions[0]).value, actions[1..]);
    }
  }

  /** Either reader may take all: here reader 0 does, and reader 1 finds the end. */
  lemma EarlierReaderMayTakeAll(payload: Bytes) returns (c: Conn)
    requires payload != []
    ensures Reachable(c) && |c.readers| == 2 && c.message == Some(payload) && c.readers[1] == Ended(false)
    ensures ReadBy(c.taken, 0) == payload && ReadBy(c.taken, 1) == []
  {
    c := MessageBeforeRead(2, payload);
    c := WholeMessage(c, 0, payload);
    var c' := c.(readers := c.readers[1 := Ended(false)]);
    WholeRead(c, 1, 1, c');
    c := c';
    assert ReadBy([], 0) == [] && ReadBy([], 1) == [];
    assert c.taken[..0] == [];
  }

  // ---- The same steps as methods ---------------------------------------------------------------------------------

  /** What ends the wait of a Read that finds no message: the message, or Close. */
  datatype Wake = ByMessage(payload: Bytes) | ByClose

  class RpcConn {
    var ready: bool
    var data: Bytes
    var pos: nat
    /** Whether bytesReader is set. */
    var hasReader: bool
    var closed: bool

    predicate Valid()
      reads this
    {
      (ready ==> hasReader) && pos <= |data|
    }

    /** What is left to read, given what a Read that has to wait will find. */
    function Left(wake: Wake): Bytes
      requires Valid()
      reads this
    {
      if ready then data[pos..] else if wake.ByMessage? then wake.payload else []
    }

    constructor ()
      ensures Valid() && !ready && !closed
    {
      ready, data, pos, hasReader, closed := false, [], 0, false, false;
    }

    /** The callback up to its send. */
    method OnMessage(payload: Bytes)
      requires Valid()
      modifies this`ready, this`data, this`pos, this`hasReader
      ensures Valid() && ready && data == payload && pos == 0
    {
      data, pos, hasReader := payload, 0, true;
      ready := true;
    }

    /** bytes.Reader.Read: None is the end of file. */
    method ReadStored(size: nat) returns (r: Option<Bytes>)
      requires Valid() && ready
      modifies this`pos
      ensures Valid()
      ensures match Take(BytesReader(data, old(pos)), size)
              case None => r == None && pos == old(pos)
              case Some((bytes, rest)) => r == Some(bytes) && rest == BytesReader(data, pos)
    {
      if pos >= |data| {
        return None;
      }
      var n := if size <= |data| - pos then size else |data| - pos;
      r := Some(data[pos..pos + n]);
      pos := pos + n;
    }

    /** Read: what it returns is the front of what is left, and the rest is left for the next one. */
    method Read(size: nat, wake: Wake) returns (r: Option<Bytes>)
      requires Valid()
      modifies this`ready, this`data, this`pos, this`hasReader, this`closed
      ensures Valid() && (ready <==> old(ready) || wake.ByMessage?)
      ensures r == None <==> old(Left(wake)) == []
      ensures r.Some? ==> ready && |r.value| <= size && r.value + data[pos..] == old(Left(wake))
      ensures r.Some? ==> |r.value| == if size < |old(Left(wake))| then size else |old(Left(wake))|
      ensures r == None && ready ==> pos == |data|
      ensures closed <==> old(closed) || (!old(ready) && wake.ByClose?)
    {
      if !ready {
        match wake {
          case ByMessage(payload) => OnMessage(payload);
          case ByClose =>
            closed := true;
            return None;
        }
      }
      assert data[pos..] == old(Left(wake));
      r := ReadStored(size);
    }

    /** io.ReadAll with any positive buffer sizes: all that is left of the message, the wait for it included. */
    method ReadAll(sizes: nat -> nat, wake: Wake) returns (all: Bytes)
      requires Valid()
      requires forall k :: sizes(k) > 0
      modifies this`ready, this`data, this`pos, this`hasReader, this`closed
      ensures Valid() && all == old(Left(wake)) && (ready ==> pos == |data|)
    {
      all := [];
      var r := Read(sizes(0), wake);
      var k := 1;
      while r.Some?
        invariant Valid() && (r.Some? ==> ready) && (r == None && ready ==> pos == |data|)
        invariant all + (if r.Some? then r.value + data[pos..] else []) == old(Left(wake))
        decreases r.Some?, |data| - pos
      {
        ghost var before, rest := all, data[pos..];
        all := all + r.value;
        assert all + rest == before + (r.value + rest);
        r := Read(sizes(k), wake);
        k := k + 1;
      }
    }

    method Close()
      modifies this`closed
      ensures closed
    {
      closed := true;
    }
  }
}
