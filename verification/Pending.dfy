/** The pending table of both client codecs, under any interleaving of request writes and response headers. */
module Pendings {

  datatype Op = Write(number: nat, name: string) | Header(id: nat)

  type Table = map<nat, string>

  /** WriteRequest registers the method; ReadResponseHeader removes the number that the response carries. */
  function Apply(t: Table, op: Op): Table {
    match op
    case Write(number, name) => t[number := name]
    case Header(id) => t - {id}
  }

  /** The method a header reports: the registered one, or Go's empty string. */
  function Reported(t: Table, id: nat): string {
    if id in t then t[id] else ""
  }

  function After(ops: seq<Op>): Table
    decreases |ops|
  {
    if ops == [] then map[] else Apply(After(ops[..|ops| - 1]), ops[|ops| - 1])
  }

  /** net/rpc never uses a sequence number twice in one client. */
  predicate NeverReused(ops: seq<Op>) {
    forall j, k :: 0 <= j < k < |ops| && ops[j].Write? && ops[k].Write? ==> ops[j].number != ops[k].number
  }

  /** The request written at position k has seen no header. */
  predicate Unanswered(ops: seq<Op>, k: nat) {
    k < |ops| && ops[k].Write? && forall j :: k < j < |ops| ==> ops[j] != Header(ops[k].number)
  }

  /** The table maps exactly the registered and not yet answered numbers to their methods. */
  lemma {:induction false} TableIsUnanswered(ops: seq<Op>)
    requires NeverReused(ops)
    ensures forall k: nat :: Unanswered(ops, k) ==>
      ops[k].number in After(ops) && After(ops)[ops[k].number] == ops[k].name
    ensures forall n :: n in After(ops) ==> exists k: nat :: Unanswered(ops, k) && ops[k].number == n
    decreases |ops|
  {
    if ops != [] {
      var last := |ops| - 1;
      var before := ops[..last];
      TableIsUnanswered(before);
      forall k: nat | Unanswered(ops, k)
        ensures ops[k].number in After(ops) && After(ops)[ops[k].number] == ops[k].name
      {
        if k < last {
          assert Unanswered(before, k);
        }
      }
      forall n | n in After(ops)
        ensures exists k: nat :: Unanswered(ops, k) && ops[k].number == n
      {
        if ops[last].Write? && ops[last].number == n {
          assert Unanswered(ops, last);
        } else {
          assert n in After(before);
          var k: nat :| Unanswered(before, k) && before[k].number == n;
          assert Unanswered(ops, k);
        }
      }
    }
  }

  /** The first header for a registered number reports that request's method; any other header reports nothing. */
  lemma HeaderReportsItsRequest(ops: seq<Op>, j: nat)
    requires NeverReused(ops) && j < |ops| && ops[j].Header?
    ensures
      var report := Reported(After(ops[..j]), ops[j].id);
      && (forall k: nat :: Unanswered(ops[..j], k) && ops[k].number == ops[j].id ==> report == ops[k].name)
      && ((forall k: nat :: Unanswered(ops[..j], k) ==> ops[k].number != ops[j].id) ==> report == "")
  {
    assert NeverReused(ops[..j]);
    TableIsUnanswered(ops[..j]);
  }

  /** The numbers of several clients' worth of calls drain: once every request has seen a header, the table is empty. */
  lemma AnsweredTableIsEmpty(ops: seq<Op>)
    requires NeverReused(ops) && forall k: nat :: !Unanswered(ops, k)
    ensures After(ops) == map[]
  {
    TableIsUnanswered(ops);
  }
}
