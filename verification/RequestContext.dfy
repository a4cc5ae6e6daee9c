/** context.go as one goroutine runs it: Reply, its three steps together, and sequences of replies. */
module RequestContexts {
  import opened Wrappers
  import opened Rrpc
  import opened CallProtocol

  /** Reply as a whole: the cell afterwards, and what it returns.  The child context of both transports returns true. */
  function ReplyTo(cell: Cell, res: Response): (Cell, bool) {
    if cell.replyed then (cell, false)
    else (Cell(true, Some(res), cell.sent + [res]), true)
  }

  /** Several replies, one after the other. */
  function RepliesTo(cell: Cell, replies: seq<Response>): Cell
    decreases |replies|
  {
    if replies == [] then cell else RepliesTo(ReplyTo(cell, replies[0]).0, replies[1..])
  }

  /** The steps of Reply that the protocol interleaves, taken without interruption, are Reply. */
  lemma ReplyIsItsSteps(cell: Cell, res: Response)
    ensures
      var (claimed, next) := Advance(cell, res, Claim);
      if ReplyTo(cell, res).1 then
        && next == Some(Store)
        && Advance(claimed, res, Store).1 == Some(Send)
        && Advance(Advance(claimed, res, Store).0, res, Send) == (ReplyTo(cell, res).0, None)
      else
        next == None && claimed == ReplyTo(cell, res).0
  {
  }

  lemma {:induction false} RepliesAfterTheFirst(cell: Cell, replies: seq<Response>)
    requires cell.replyed
    ensures RepliesTo(cell, replies) == cell
    decreases |replies|
  {
    if replies != [] {
      RepliesAfterTheFirst(cell, replies[1..]);
    }
  }

  /** Only the first of any number of replies is stored and sent. */
  lemma FirstReplyWins(replies: seq<Response>)
    ensures RepliesTo(FRESH_CELL, replies) ==
      if replies == [] then FRESH_CELL else Cell(true, Some(replies[0]), [replies[0]])
  {
    if replies != [] {
      RepliesAfterTheFirst(ReplyTo(FRESH_CELL, replies[0]).0, replies[1..]);
      assert FRESH_CELL.sent + [replies[0]] == [replies[0]];
    }
  }

  lemma {:induction false} RepliesAppend(cell: Cell, replies: seq<Response>, res: Response)
    ensures RepliesTo(cell, replies + [res]) == ReplyTo(RepliesTo(cell, replies), res).0
    decreases |replies|
  {
    if replies == [] {
      assert RepliesTo(cell, [res]) == RepliesTo(ReplyTo(cell, res).0, [res][1..]);
    } else {
      assert (replies + [res])[1..] == replies[1..] + [res];
      RepliesAppend(ReplyTo(cell, replies[0]).0, replies[1..], res);
    }
  }

  class RequestContext {
    var res: Option<Response>
    var replyed: bool
    var sent: seq<Response>

    function View(): Cell
      reads this
    {
      Cell(replyed, res, sent)
    }

    constructor ()
      ensures View() == FRESH_CELL
    {
      res, replyed, sent := None, false, [];
    }

    method CompareAndSwap(ghost r: Response) returns (won: bool)
      modifies this`replyed
      ensures View() == Advance(old(View()), r, Claim).0
      ensures won <==> Advance(old(View()), r, Claim).1.Some?
    {
      won := !replyed;
      if won {
        replyed := true;
      }
    }

    method SetResponse(r: Response)
      modifies this`res
      ensures View() == Advance(old(View()), r, Store).0
    {
      res := Some(r);
    }

    /** The child context takes the response over. */
    method SendToChild(r: Response)
      modifies this`sent
      ensures View() == Advance(old(View()), r, Send).0
    {
      sent := sent + [r];
    }

    method GetResponse() returns (r: Option<Response>)
      ensures r == View().res
    {
      r := res;
    }

    method Reply(r: Response) returns (ok: bool)
      modifies this
      ensures (View(), ok) == ReplyTo(old(View()), r)
    {
      ok := CompareAndSwap(r);
      if !ok {
        return;
      }
      SetResponse(r);
      SendToChild(r);
    }

    method ReplyOK(data: GoValue) returns (ok: bool)
      modifies this
      ensures (View(), ok) == ReplyTo(old(View()), Response(data, None, 200))
    {
      ok := Reply(OkResponse(data));
    }

    method ReplyError(status: int, text: string) returns (ok: bool)
      modifies this
      ensures (View(), ok) == ReplyTo(old(View()), Response(Nil, Some(text), status))
    {
      ok := Reply(ErrorResponse(status, text));
    }
  }
}
