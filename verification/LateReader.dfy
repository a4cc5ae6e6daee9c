/**
 What an earlier Call's reader does to a new Call on the same pooled codec: it still runs when the codec goes back to the
 pool, and reads from whatever connection the codec then has.
 */
module LateReaders {
  import opened Wrappers
  import opened Rrpc
  import opened Compression
  import opened RpcClients
  import opened MqttPb
  import opened Conns

  /** The bytes that the new Call's reader (1) and the earlier one (0) have read from the new connection. */
  function Got(c: Conn): Bytes { ReadBy(c.taken, 1) }

  function Lost(c: Conn): Bytes { ReadBy(c.taken, 0) }

  /**
   The new Call returns its own outcome if the earlier reader took nothing.  It ends with an unexpected end of file, its
   reply object untouched, if that reader took everything; it then has got no byte, and only then.
   */
  lemma NewCallUnderLateReader(libs: Libs, c: Conn, st: CodecState, r: RequestData, res: Response, reply: Message)
    requires LibsLawful(libs) && r.request.head.id == 0 && Reportable(res) && Replied(libs, r, res).Some?
    requires Conns.Reachable(c) && |c.readers| == 2 && c.readers[1] == Ended(false)
    requires c.message == Some(Replied(libs, r, res).value.payload)
    ensures
      var (_, _, error, result) := Input(libs, st, GoValue.Proto(reply), Got(c));
      && (Lost(c) == [] ==>
            error == ClientSees(libs, res, reply).0 && result == GoValue.Proto(ClientSees(libs, res, reply).1))
      && (Got(c) == [] <==> Lost(c) == c.message.value)
      && (Got(c) == [] ==> error == Some(UNEXPECTED_EOF) && result == GoValue.Proto(reply))
      && |Got(c)| + |Lost(c)| == |c.message.value|
  {
    SecondReaderTakesAway(c, 1);
    if Lost(c) == [] {
      ClientSeesTheResponse(libs, st, r, res, reply);
    }
  }

  /** For every response there is a connection on which the earlier reader takes it all. */
  lemma ReplyMayBeTaken(libs: Libs, st: CodecState, r: RequestData, res: Response, reply: Message) returns (c: Conn)
    requires LibsLawful(libs) && r.request.head.id == 0 && Reportable(res) && Replied(libs, r, res).Some?
    ensures Conns.Reachable(c) && |c.readers| == 2 && c.message == Some(Replied(libs, r, res).value.payload)
    ensures c.readers[1] == Ended(false)
    ensures
      var (_, _, error, result) := Input(libs, st, GoValue.Proto(reply), Got(c));
      error == Some(UNEXPECTED_EOF) && result == GoValue.Proto(reply)
  {
    var payload := Replied(libs, r, res).value.payload;
    var m := BuildResponse(libs, r, res).value.response;
    ResponseArrives(libs, m);
    assert m.head != ZERO_RESPONSE.head;
    c := EarlierReaderMayTakeAll(payload);
    NewCallUnderLateReader(libs, c, st, r, res, reply);
  }

  // ---- Both readers on one codec, step by step -------------------------------------------------------------------

  /**
   Where a reader of net/rpc is: before it clears the response object, reading the connection, with the response object
   filled, with a header that is its Call's, with one that is nobody's, or ended.
   */
  datatype Phase = Looping | Draining | Holding | Accepted | Skipping | Stopped

  /** What the new Call returned. */
  datatype Outcome = Outcome(error: Option<string>, reply: GoValue)

  /**
   The new connection, the codec, the earlier reader and the new Call's own.  overwritten says that the earlier reader
   has written to the response object while the own reader relied on it.
   */
  datatype Shared = Shared(
    conn: Conn,
    codec: CodecState,
    earlier: Phase,
    own: Phase,
    outcome: Option<Outcome>,
    overwritten: bool)

  /** The codec has just got its new connection; the earlier reader's own Call is over. */
  function Start(codec: CodecState): Shared {
    Shared(NewConn(2), codec, Looping, Looping, None, false)
  }

  /** Between the own reader's Unmarshal and its last use of the response object. */
  predicate Relies(s: Shared) { s.own.Holding? || s.own.Accepted? }

  function WithResponse(s: Shared, m: Wire.ReplyMessage): Shared {
    s.(codec := s.codec.(response := m))
  }

  /** The earlier reader writes to the response object. */
  function Overwrite(s: Shared, m: Wire.ReplyMessage): Shared {
    WithResponse(s, m).(overwritten := s.overwritten || Relies(s))
  }

  function Ending(s: Shared, error: Option<string>, reply: GoValue): Shared {
    s.(own := Stopped, outcome := Some(Outcome(error, reply)))
  }

  datatype Move =
    | Stream(action: Conns.Action)
    | EarlierBegins
    | EarlierGivesUp
    | EarlierFills
    | EarlierSkips
    | OwnBegins
    | OwnFills
    | OwnHeader
    | OwnBody

  /**
   A move of the earlier reader.  Its client has no call left, so it skips what it reads, clears the response object once
   more, and ends; and it may read from its own, finished connection instead.
   */
  function MoveEarlier(libs: Libs, s: Shared, move: Move): Option<Shared>
    requires |s.conn.readers| == 2
  {
    match move
    case EarlierBegins =>
      if s.earlier == Looping then Some(Overwrite(s, ZERO_RESPONSE).(earlier := Draining))
      else if s.earlier == Skipping then Some(Overwrite(s, ZERO_RESPONSE).(earlier := Stopped))
      else None
    case EarlierGivesUp =>
      if s.earlier == Draining && s.conn.readers[0] == Outside && Lost(s.conn) == [] then Some(s.(earlier := Stopped))
      else None
    case EarlierFills =>
      if s.earlier != Draining || !s.conn.readers[0].Ended? then None
      else if Lost(s.conn) == [] then Some(s.(earlier := Stopped))
      else
        var parsed := Wire.Unmarshalled(libs.alg, libs.response, Lost(s.conn));
        Some(Overwrite(s, parsed.message).(earlier := if parsed.error.Some? then Stopped else Holding))
    case EarlierSkips =>
      if s.earlier != Holding then None
      else Some(s.(earlier := Skipping, codec := s.codec.(pending := s.codec.pending - {s.codec.response.head.id})))
    case _ => None
  }

  /** A move of the new Call's reader. */
  function MoveOwn(libs: Libs, reply: Message, s: Shared, move: Move): Option<Shared>
    requires |s.conn.readers| == 2
  {
    var head := s.codec.response.head;
    match move
    case OwnBegins =>
      if s.own == Looping then Some(WithResponse(s, ZERO_RESPONSE).(own := Draining)) else None
    case OwnFills =>
      if s.own != Draining || !s.conn.readers[1].Ended? then None
      else if Got(s.conn) == [] then Some(Ending(s, Some(UNEXPECTED_EOF), GoValue.Proto(reply)))
      else
        var parsed := Wire.Unmarshalled(libs.alg, libs.response, Got(s.conn));
        var filled := WithResponse(s, parsed.message);
        Some(match parsed.error
             case Some(e) => Ending(filled, Some(if e == EOF then UNEXPECTED_EOF else e), GoValue.Proto(reply))
             case None => filled.(own := Holding))
    case OwnHeader =>
      if s.own != Holding then None
      else
        var s1 := s.(codec := s.codec.(pending := s.codec.pending - {head.id}));
        if head.id != 0 then Some(Ending(s1, Some(UNEXPECTED_EOF), GoValue.Proto(reply)))
        else if head.errorMessage != "" then Some(Ending(s1, Some(head.errorMessage), GoValue.Proto(reply)))
        else Some(s1.(own := Accepted))
    case OwnBody =>
      if s.own != Accepted then None
      else
        var (got, e) := ReadBody(libs, s.codec, GoValue.Proto(reply));
        Some(Ending(s, if e.Some? then Some(READING_BODY + e.value) else None, got))
    case _ => None
  }

  /** A step of the connection; only a reader that is reading has steps there. */
  function MoveStream(s: Shared, a: Conns.Action): Option<Shared> {
    if a.Read? && (if a.reader == 0 then s.earlier else s.own) != Draining then None
    else
      match Conns.Next(s.conn, a)
      case None => None
      case Some(conn) => Some(s.(conn := conn))
  }

  function NextShared(libs: Libs, reply: Message, s: Shared, move: Move): Option<Shared> {
    if |s.conn.readers| != 2 then None
    else if move.Stream? then MoveStream(s, move.action)
    else if move.OwnBegins? || move.OwnFills? || move.OwnHeader? || move.OwnBody? then MoveOwn(libs, reply, s, move)
    else MoveEarlier(libs, s, move)
  }

  function RunShared(libs: Libs, reply: Message, s: Shared, moves: seq<Move>): Option<Shared>
    decreases |moves|
  {
    if moves == [] then Some(s)
    else match NextShared(libs, reply, s, moves[0])
      case None => None
      case Some(s') => RunShared(libs, reply, s', moves[1..])
  }

  /** Some interleaving of the two readers, the callback and Close leads there, from some state of the codec. */
  ghost predicate Arises(libs: Libs, reply: Message, codec: CodecState, s: Shared) {
    exists moves: seq<Move> :: RunShared(libs, reply, Start(codec), moves) == Some(s)
  }

  /** What a Call makes of the bytes that its reader got, on a codec of its own. */
  function OutcomeOf(libs: Libs, reply: Message, got: Bytes): Outcome {
    var (_, _, error, result) := Input(libs, FRESH_CODEC, GoValue.Proto(reply), got);
    Outcome(error, result)
  }

  // ---- Invariant -------------------------------------------------------------------------------------------------

  predicate StreamInv(s: Shared) {
    && |s.conn.readers| == 2 && Conns.Inv(s.conn)
    && (s.own == Looping ==> s.conn.readers[1] == Outside)
    && (s.own != Looping && s.own != Draining ==> s.conn.readers[1].Ended?)
    && (s.earlier == Holding || s.earlier == Skipping ==> Lost(s.conn) != [])
    && s.own != Skipping && s.earlier != Accepted
  }

  /** What the own reader relies on, if nobody has overwritten it. */
  predicate ResponseInv(libs: Libs, s: Shared) {
    var parsed := Wire.Unmarshalled(libs.alg, libs.response, Got(s.conn));
    Relies(s) ==>
      && Got(s.conn) != [] && parsed.error == None
      && (!s.overwritten ==> s.codec.response == parsed.message)
      && (!s.overwritten && s.own == Accepted ==> parsed.message.head.id == 0 && parsed.message.head.errorMessage == "")
      && (s.overwritten && Lost(s.conn) == [] ==> s.codec.response == ZERO_RESPONSE)
  }

  predicate OutcomeInv(libs: Libs, reply: Message, s: Shared) {
    && (s.outcome.Some? <==> s.own == Stopped)
    && (s.overwritten ==> (Relies(s) || s.own == Stopped) && Got(s.conn) != [])
    && (s.own == Stopped && !s.overwritten ==> s.outcome == Some(OutcomeOf(libs, reply, Got(s.conn))))
    && (s.own == Stopped && s.overwritten && Lost(s.conn) == [] ==>
          s.outcome == Some(Outcome(None, GoValue.Proto(reply))))
  }

  predicate SharedInv(libs: Libs, reply: Message, s: Shared) {
    StreamInv(s) && ResponseInv(libs, s) && OutcomeInv(libs, reply, s)
  }

  /** A step of the connection adds to what the reader of that step has, and to nothing else. */
  lemma StreamStep(c: Conn, a: Conns.Action)
    requires |c.readers| == 2 && Conns.Next(c, a).Some?
    ensures
      var c' := Conns.Next(c, a).value;
      && |c'.readers| == 2
      && (Lost(c') == [] ==> Lost(c) == [])
      && (!(a.Read? && a.reader == 1) ==> Got(c') == Got(c) && c'.readers[1] == c.readers[1])
  {
    if a.Read? && a.op == Copy && Take(c.bytesReader.value, c.readers[a.reader].size).Some? {
      var taken := Taken(a.reader, Take(c.bytesReader.value, c.readers[a.reader].size).value.0);
      OneMoreTaken(c.taken, taken, 0);
      OneMoreTaken(c.taken, taken, 1);
    }
  }

  lemma StreamKeepsInv(libs: Libs, reply: Message, s: Shared, a: Conns.Action)
    requires SharedInv(libs, reply, s) && MoveStream(s, a).Some?
    ensures SharedInv(libs, reply, MoveStream(s, a).value)
  {
    StreamStep(s.conn, a);
    Conns.NextKeepsInv(s.conn, a);
  }

  lemma EarlierKeepsInv(libs: Libs, reply: Message, s: Shared, move: Move)
    requires SharedInv(libs, reply, s) && MoveEarlier(libs, s, move).Some?
    ensures SharedInv(libs, reply, MoveEarlier(libs, s, move).value)
  {
  }

  lemma OwnKeepsInv(libs: Libs, reply: Message, s: Shared, move: Move)
    requires SharedInv(libs, reply, s) && MoveOwn(libs, reply, s, move).Some?
    ensures SharedInv(libs, reply, MoveOwn(libs, reply, s, move).value)
  {
  }

  lemma {:induction false} RunKeepsInv(libs: Libs, reply: Message, s: Shared, moves: seq<Move>)
    requires SharedInv(libs, reply, s) && RunShared(libs, reply, s, moves).Some?
    ensures SharedInv(libs, reply, RunShared(libs, reply, s, moves).value)
    decreases |moves|
  {
    if moves != [] {
      if moves[0].Stream? {
        StreamKeepsInv(libs, reply, s, moves[0].action);
      } else if moves[0].OwnBegins? || moves[0].OwnFills? || moves[0].OwnHeader? || moves[0].OwnBody? {
        OwnKeepsInv(libs, reply, s, moves[0]);
      } else {
        EarlierKeepsInv(libs, reply, s, moves[0]);
      }
      RunKeepsInv(libs, reply, NextShared(libs, reply, s, moves[0]).value, moves[1..]);
    }
  }

  lemma ArisesInv(libs: Libs, reply: Message, codec: CodecState, s: Shared)
    requires Arises(libs, reply, codec, s)
    ensures SharedInv(libs, reply, s)
  {
    var moves: seq<Move> :| RunShared(libs, reply, Start(codec), moves) == Some(s);
    RunKeepsInv(libs, reply, Start(codec), moves);
  }

  // ---- What the new Call returns ---------------------------------------------------------------------------------

  /**
   In every interleaving with the earlier reader, a Call that has returned has its own outcome, of the bytes that its
   reader got, if the earlier reader wrote nothing to the response object between its Unmarshal and its last use of it.
   If that reader did, and took no byte, the Call returned no error and left its reply object as it was.  If it took no
   byte and nobody closed the connection, the bytes are the whole message.
   */
  lemma CallBesideLateReader(libs: Libs, reply: Message, codec: CodecState, s: Shared)
    requires Arises(libs, reply, codec, s) && s.outcome.Some?
    ensures !s.overwritten ==> s.outcome == Some(OutcomeOf(libs, reply, Got(s.conn)))
    ensures s.overwritten && Lost(s.conn) == [] ==> s.outcome == Some(Outcome(None, GoValue.Proto(reply)))
    ensures Lost(s.conn) == [] && !s.conn.closed ==> s.conn.message == Some(Got(s.conn))
    ensures Got(s.conn) == [] ==> s.outcome == Some(Outcome(Some(UNEXPECTED_EOF), GoValue.Proto(reply)))
  {
    ArisesInv(libs, reply, codec, s);
    assert ReaderInv(s.conn, 1);
    TwoReadersShare(s.conn.taken);
    if !s.conn.closed {
      assert s.conn.message.value[..|s.conn.message.value|] == s.conn.message.value;
    }
  }

  /** So with a response of its own, and an earlier reader that took and wrote nothing, it returns what that says. */
  lemma UndisturbedCallGetsItsResponse(libs: Libs, reply: Message, codec: CodecState, s: Shared, r: RequestData,
                                       res: Response)
    requires LibsLawful(libs) && r.request.head.id == 0 && Reportable(res) && Replied(libs, r, res).Some?
    requires Arises(libs, reply, codec, s) && s.outcome.Some? && !s.conn.closed
    requires s.conn.message == Some(Replied(libs, r, res).value.payload)
    ensures Lost(s.conn) == [] && !s.overwritten ==>
      s.outcome == Some(Outcome(ClientSees(libs, res, reply).0, GoValue.Proto(ClientSees(libs, res, reply).1)))
    ensures Lost(s.conn) == [] && s.overwritten ==> s.outcome == Some(Outcome(None, GoValue.Proto(reply)))
  {
    CallBesideLateReader(libs, reply, codec, s);
    ClientSeesTheResponse(libs, FRESH_CODEC, r, res, reply);
  }

  /**
   An earlier reader that has bytes of a whole response puts that response in the place of any other, and takes the entry
   of its number out of the table.
   */
  lemma EarlierReaderTakesResponseAndEntry(libs: Libs, reply: Message, s: Shared)
    requires |s.conn.readers| == 2 && s.earlier == Draining && s.conn.readers[0].Ended? && Lost(s.conn) != []
    requires Wire.Unmarshalled(libs.alg, libs.response, Lost(s.conn)).error == None
    ensures
      var m := Wire.Unmarshalled(libs.alg, libs.response, Lost(s.conn)).message;
      var filled := NextShared(libs, reply, s, EarlierFills);
      && filled.Some? && filled.value.codec.response == m && (Relies(s) ==> filled.value.overwritten)
      && var skipped := NextShared(libs, reply, filled.value, EarlierSkips);
         skipped.Some? && skipped.value.codec.pending == s.codec.pending - {m.head.id}
  {
  }

  /** An earlier reader that has taken nothing may end at any time, and leaves all else to the new Call. */
  lemma EarlierReaderMayStop(libs: Libs, reply: Message, s: Shared)
    requires |s.conn.readers| == 2 && s.earlier == Draining && s.conn.readers[0] == Outside && Lost(s.conn) == []
    ensures NextShared(libs, reply, s, EarlierGivesUp) == Some(s.(earlier := Stopped))
  {
  }

  // ---- A run in which a response is lost -------------------------------------------------------------------------

  lemma {:induction false} SharedAppend(libs: Libs, reply: Message, s: Shared, moves: seq<Move>, move: Move)
    requires RunShared(libs, reply, s, moves).Some?
    ensures RunShared(libs, reply, s, moves + [move])
      == NextShared(libs, reply, RunShared(libs, reply, s, moves).value, move)
    decreases |moves|
  {
    if moves == [] {
      assert [move][1..] == [];
    } else {
      assert (moves + [move])[1..] == moves[1..] + [move];
      SharedAppend(libs, reply, NextShared(libs, reply, s, moves[0]).value, moves[1..], move);
    }
  }

  lemma ArisesNext(libs: Libs, reply: Message, codec: CodecState, s: Shared, move: Move) returns (s': Shared)
    requires Arises(libs, reply, codec, s) && NextShared(libs, reply, s, move).Some?
    ensures NextShared(libs, reply, s, move) == Some(s') && Arises(libs, reply, codec, s')
  {
    var moves: seq<Move> :| RunShared(libs, reply, Start(codec), moves) == Some(s);
    SharedAppend(libs, reply, Start(codec), moves, move);
    s' := NextShared(libs, reply, s, move).value;
  }

  /** The message is there before anyone reads, and the own reader begins. */
  lemma OwnReaderBegins(libs: Libs, reply: Message, codec: CodecState, payload: Bytes) returns (s: Shared)
    ensures Arises(libs, reply, codec, s)
    ensures s == Shared(Conn(Some(payload), Sending, [Outside, Outside], true, Some(BytesReader(payload, 0)), false, []),
                        codec.(response := ZERO_RESPONSE), Looping, Draining, None, false)
  {
    assert RunShared(libs, reply, Start(codec), []) == Some(Start(codec));
    s := ArisesNext(libs, reply, codec, Start(codec), OwnBegins);
    s := ArisesNext(libs, reply, codec, s, Stream(Deliver(payload)));
    s := ArisesNext(libs, reply, codec, s, Stream(StoreReader));
    s := ArisesNext(libs, reply, codec, s, Stream(StoreReady));
    assert NewConn(2).readers == [Outside, Outside];
  }

  /** The own reader takes what there is, once. */
  lemma OwnReaderReads(libs: Libs, reply: Message, codec: CodecState, s: Shared, size: nat) returns (s': Shared)
    requires Arises(libs, reply, codec, s) && s.own == Draining && s.conn.ready && s.conn.bytesReader.Some? && size > 0
    requires s.conn.readers == [Outside, Outside]
    ensures Arises(libs, reply, codec, s')
    ensures match Take(s.conn.bytesReader.value, size)
            case None => s' == s.(conn := s.conn.(readers := [Outside, Ended(false)]))
            case Some((data, rest)) =>
              s' == s.(conn := s.conn.(bytesReader := Some(rest), taken := s.conn.taken + [Taken(1, data)]))
  {
    s' := ArisesNext(libs, reply, codec, s, Stream(Action.Read(1, Call(size))));
    s' := ArisesNext(libs, reply, codec, s', Stream(Action.Read(1, Test)));
    assert s'.conn.readers == [Outside, Copying(size)];
    assert s' == s.(conn := s.conn.(readers := [Outside, Copying(size)]));
    s' := ArisesNext(libs, reply, codec, s', Stream(Action.Read(1, Copy)));
    assert [Outside, Copying(size)][1 := Outside] == [Outside, Outside];
    assert [Outside, Copying(size)][1 := Ended(false)] == [Outside, Ended(false)];
  }

  /** The own reader has the whole message. */
  lemma OwnReaderDrains(libs: Libs, reply: Message, codec: CodecState, payload: Bytes) returns (s: Shared)
    requires payload != []
    ensures Arises(libs, reply, codec, s) && s.earlier == Looping && s.own == Draining && !s.overwritten
    ensures s.outcome == None && s.conn.message == Some(payload) && s.conn.readers == [Outside, Ended(false)]
    ensures Got(s.conn) == payload && Lost(s.conn) == [] && !s.conn.closed
  {
    s := OwnReaderBegins(libs, reply, codec, payload);
    s := OwnReaderReads(libs, reply, codec, s, |payload|);
    assert payload[0..|payload|] == payload;
    OneMoreTaken([], Taken(1, payload), 0);
    OneMoreTaken([], Taken(1, payload), 1);
    assert s.conn.taken == [] + [Taken(1, payload)];
    s := OwnReaderReads(libs, reply, codec, s, 1);
  }

  /** Between the own reader's Unmarshal and its use of the response object, the earlier reader clears that. */
  lemma EarlierReaderClears(libs: Libs, reply: Message, codec: CodecState, s: Shared) returns (s': Shared)
    requires Arises(libs, reply, codec, s) && s.earlier == Looping && s.own == Draining && !s.overwritten
    requires s.conn.readers == [Outside, Ended(false)] && Got(s.conn) != []
    requires Wire.Unmarshalled(libs.alg, libs.response, Got(s.conn)).error == None
    ensures Arises(libs, reply, codec, s') && s'.conn == s.conn && s'.overwritten
    ensures s'.outcome == Some(Outcome(None, GoValue.Proto(reply)))
  {
    s' := ArisesNext(libs, reply, codec, s, OwnFills);
    s' := ArisesNext(libs, reply, codec, s', EarlierBegins);
    s' := ArisesNext(libs, reply, codec, s', OwnHeader);
    s' := ArisesNext(libs, reply, codec, s', OwnBody);
  }

  /**
   For any response to the Call, a result or an error, and any reply object: some run, in which the earlier reader takes
   nothing but clears the response object in time, ends the Call without error and with the reply object as it was.
   */
  lemma LateResetLosesTheResponse(libs: Libs, reply: Message, codec: CodecState, r: RequestData, res: Response)
    returns (s: Shared)
    requires LibsLawful(libs) && r.request.head.id == 0 && Reportable(res) && Replied(libs, r, res).Some?
    ensures Arises(libs, reply, codec, s) && s.conn.message == Some(Replied(libs, r, res).value.payload)
    ensures Lost(s.conn) == [] && !s.conn.closed && s.overwritten
    ensures s.outcome == Some(Outcome(None, GoValue.Proto(reply)))
  {
    var m := BuildResponse(libs, r, res).value.response;
    ResponseArrives(libs, m);
    assert m.head != ZERO_RESPONSE.head;
    s := OwnReaderDrains(libs, reply, codec, Replied(libs, r, res).value.payload);
    s := EarlierReaderClears(libs, reply, codec, s);
  }
}
