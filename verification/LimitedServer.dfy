/** The concurrent server in reject mode with the token bucket that decides which of its calls pass the limiter. */
module LimitedServers {
  import opened Wrappers
  import opened CallProtocol
  import opened CallInvariants
  import opened CallTheorems
  import opened Limiters

  /** An action, and the clock that it read. */
  datatype Timed = Timed(action: Action, at: int)

  datatype Limited = Limited(server: State, bucket: Bucket)

  /** The action is a call's question to the limiter, with its answer. */
  predicate Asks(a: Action) { a.Do? && (a.step.Admit? || a.step.Refuse?) }

  predicate Admits(a: Action) { a.Do? && a.step.Admit? }

  /** A call is admitted exactly when the bucket allows it. */
  function NextLimited(l: Limited, interval: int, count: int, t: Timed): Option<Limited>
    requires interval > 0
  {
    match Next(l.server, t.action)
    case None => None
    case Some(server) =>
      if !Asks(t.action) then Some(l.(server := server))
      else
        var (bucket, ok) := Allow(l.bucket, interval, count, t.at);
        if ok == Admits(t.action) then Some(Limited(server, bucket)) else None
  }

  /** A run, from a server with no calls and a full bucket. */
  function RunLimited(workers: nat, interval: int, count: int, start: int, run: seq<Timed>): Option<Limited>
    requires interval > 0
    decreases |run|
  {
    if run == [] then Some(Limited(Init(workers, true), NewBucket(count, start)))
    else
      match RunLimited(workers, interval, count, start, run[..|run| - 1])
      case None => None
      case Some(l) => NextLimited(l, interval, count, run[|run| - 1])
  }

  /** The clock readings of the limiter's questions, in the order of its answers. */
  function Asked(run: seq<Timed>): seq<int>
    decreases |run|
  {
    if run == [] then []
    else Asked(run[..|run| - 1]) + if Asks(run[|run| - 1].action) then [run[|run| - 1].at] else []
  }

  /** How many calls a run admits in a closed window of time. */
  function AdmittedCalls(run: seq<Timed>, from: int, to: int): nat
    decreases |run|
  {
    if run == [] then 0
    else
      AdmittedCalls(run[..|run| - 1], from, to)
      + if Admits(run[|run| - 1].action) && from <= run[|run| - 1].at <= to then 1 else 0
  }

  /** Such a run is a run of the server alone. */
  lemma {:induction false} RunIsServers(workers: nat, interval: int, count: int, start: int, run: seq<Timed>)
    requires interval > 0 && RunLimited(workers, interval, count, start, run).Some?
    ensures Reachable(RunLimited(workers, interval, count, start, run).value.server)
    decreases |run|
  {
    if run == [] {
      InitReachable(workers, true);
    } else {
      var n := |run| - 1;
      RunIsServers(workers, interval, count, start, run[..n]);
      var l := RunLimited(workers, interval, count, start, run[..n]).value;
      var _ := ReachableNext(l.server, run[n].action);
    }
  }

  lemma OneMoreQuestion(b: Bucket, interval: int, count: int, times: seq<int>, now: int, from: int, to: int)
    requires interval > 0
    ensures
      var (bucket, ok) := Allow(Limiters.After(b, interval, count, times), interval, count, now);
      && Limiters.After(b, interval, count, times + [now]) == bucket
      && AdmittedIn(b, interval, count, times + [now], from, to)
         == AdmittedIn(b, interval, count, times, from, to) + if ok && from <= now <= to then 1 else 0
  {
    assert (times + [now])[..|times|] == times;
  }

  /** What a step does to the bucket. */
  lemma BucketStep(l: Limited, interval: int, count: int, t: Timed, l': Limited)
    requires interval > 0 && NextLimited(l, interval, count, t) == Some(l')
    ensures if Asks(t.action) then Allow(l.bucket, interval, count, t.at) == (l'.bucket, Admits(t.action))
            else l'.bucket == l.bucket && !Admits(t.action)
  {
  }

  /** The bucket has seen the questions, and the calls admitted are those it allowed. */
  ghost predicate Decided(b: Bucket, interval: int, count: int, run: seq<Timed>, from: int, to: int, now: Bucket)
    requires interval > 0
  {
    && now == Limiters.After(b, interval, count, Asked(run))
    && AdmittedCalls(run, from, to) == AdmittedIn(b, interval, count, Asked(run), from, to)
  }

  lemma DecidedStep(b: Bucket, interval: int, count: int, run: seq<Timed>, from: int, to: int, was: Bucket, now: Bucket)
    requires interval > 0 && run != []
    requires Decided(b, interval, count, run[..|run| - 1], from, to, was)
    requires
      var t := run[|run| - 1];
      if Asks(t.action) then Allow(was, interval, count, t.at) == (now, Admits(t.action))
      else now == was && !Admits(t.action)
    ensures Decided(b, interval, count, run, from, to, now)
  {
    var n := |run| - 1;
    if Asks(run[n].action) {
      OneMoreQuestion(b, interval, count, Asked(run[..n]), run[n].at, from, to);
    } else {
      assert Asked(run) == Asked(run[..n]);
    }
  }

  lemma {:induction false} BucketDecides(workers: nat, interval: int, count: int, start: int, run: seq<Timed>, from: int,
                                         to: int)
    requires interval > 0 && RunLimited(workers, interval, count, start, run).Some?
    ensures Decided(NewBucket(count, start), interval, count, run, from, to,
                    RunLimited(workers, interval, count, start, run).value.bucket)
    decreases |run|
  {
    if run != [] {
      var n := |run| - 1;
      BucketDecides(workers, interval, count, start, run[..n], from, to);
      var l := RunLimited(workers, interval, count, start, run[..n]).value;
      var l' := RunLimited(workers, interval, count, start, run).value;
      BucketStep(l, interval, count, run[n], l');
      DecidedStep(NewBucket(count, start), interval, count, run, from, to, l.bucket, l'.bucket);
    }
  }

  lemma AdmittedByBucket(workers: nat, interval: int, count: int, start: int, run: seq<Timed>, from: int, to: int)
    requires interval > 0 && RunLimited(workers, interval, count, start, run).Some?
    ensures AdmittedCalls(run, from, to) == AdmittedIn(NewBucket(count, start), interval, count, Asked(run), from, to)
  {
    BucketDecides(workers, interval, count, start, run, from, to);
  }

  /**
   In any run of the server, with any number of concurrent calls, the calls that pass the limiter in a window of time are
   at most the count, and one more for each whole interval in the window and in what late clock readings set back.
   */
  lemma ServerAdmissionBound(workers: nat, interval: int, count: int, start: int, run: seq<Timed>, from: int,
                             length: int)
    requires interval > 0 && count >= 0 && length >= 0
    requires RunLimited(workers, interval, count, start, run).Some?
    ensures
      var setback := Setback(NewBucket(count, start), interval, count, Asked(run));
      && AdmittedCalls(run, from, from + length) <= count + (length + setback) / interval
      && (Ordered(Asked(run)) && (Asked(run) != [] ==> start <= Asked(run)[0]) ==> setback == 0)
  {
    AdmittedByBucket(workers, interval, count, start, run, from, from + length);
    AdmissionBoundAnyOrder(count, interval, Asked(run), start, from, length);
    if Ordered(Asked(run)) && (Asked(run) != [] ==> start <= Asked(run)[0]) {
      NoSetbackInOrder(NewBucket(count, start), interval, count, Asked(run));
    }
  }

  lemma BucketOf(workers: nat, interval: int, count: int, start: int, run: seq<Timed>)
    requires interval > 0 && RunLimited(workers, interval, count, start, run).Some?
    ensures RunLimited(workers, interval, count, start, run).value.bucket
      == Limiters.After(NewBucket(count, start), interval, count, Asked(run))
  {
    BucketDecides(workers, interval, count, start, run, 0, 0);
  }

  /**
   With readings in order, a call of any run of the server is refused exactly if some window that ends with its question
   already holds as many admissions as the bound allows.
   */
  lemma ServerRefusesExactlyAtTheBound(workers: nat, interval: int, count: int, start: int, run: seq<Timed>, t: Timed)
    requires interval > 0 && count >= 0 && RunLimited(workers, interval, count, start, run).Some?
    requires NextLimited(RunLimited(workers, interval, count, start, run).value, interval, count, t).Some?
    requires Asks(t.action) && Ordered(Asked(run) + [t.at]) && start <= (Asked(run) + [t.at])[0]
    ensures Admits(t.action) <==> !exists from :: Exhausted(count, interval, Asked(run), start, from, t.at)
  {
    var times := Asked(run) + [t.at];
    assert times[..|Asked(run)|] == Asked(run);
    BucketOf(workers, interval, count, start, run);
    var l := RunLimited(workers, interval, count, start, run).value;
    BucketStep(l, interval, count, t, NextLimited(l, interval, count, t).value);
    RefusedExactlyAtTheBound(count, interval, times, start, |Asked(run)|);
  }

  // ---- Which calls were admitted ---------------------------------------------------------------------------------

  /** A call that the limiter let pass. */
  predicate Passed(c: Call) { c.caller != Limiting && !c.verdict.Refused? }

  ghost function PassedCalls(s: State): set<nat> {
    set i | 0 <= i < |s.calls| && Passed(s.calls[i])
  }

  lemma StepPasses(c: Call, a: Step)
    requires StepCall(c, a).Some? && (c.caller == Limiting ==> c.verdict == Undecided)
    requires c.verdict.Refused? ==> c.caller != Looking
    ensures Passed(StepCall(c, a).value) <==> Passed(c) || a.Admit?
    ensures a.Admit? ==> !Passed(c)
    ensures var c' := StepCall(c, a).value;
      (c'.caller == Limiting ==> c'.verdict == Undecided) && (c'.verdict.Refused? ==> c'.caller != Looking)
  {
    match a {
      case JobAdvance =>
      case CallerAdvance =>
      case _ =>
    }
  }

  predicate LimitingInv(s: State) {
    forall i :: 0 <= i < |s.calls| ==>
      && (s.calls[i].caller == Limiting ==> s.calls[i].verdict == Undecided)
      && (s.calls[i].verdict.Refused? ==> s.calls[i].caller != Looking)
  }

  /** One call changes, and passes now if it did before or is admitted. */
  lemma OneCallPasses(s: State, s': State, i: nat, admitted: bool)
    requires i < |s.calls| == |s'.calls|
    requires forall j :: 0 <= j < |s.calls| && j != i ==> s'.calls[j] == s.calls[j]
    requires Passed(s'.calls[i]) <==> Passed(s.calls[i]) || admitted
    requires admitted ==> !Passed(s.calls[i])
    ensures |PassedCalls(s')| == |PassedCalls(s)| + if admitted then 1 else 0
  {
    if admitted {
      assert i in PassedCalls(s') && i !in PassedCalls(s);
      assert PassedCalls(s') == PassedCalls(s) + {i};
    } else {
      assert PassedCalls(s') == PassedCalls(s);
    }
  }

  lemma NextPasses(s: State, a: Action, s': State)
    requires LimitingInv(s) && Next(s, a) == Some(s')
    ensures LimitingInv(s')
    ensures |PassedCalls(s')| == |PassedCalls(s)| + if Admits(a) then 1 else 0
  {
    if a.Do? {
      var c, _ := DoEffect(s, a.call, a.step);
      StepPasses(s.calls[a.call], a.step);
      OneCallPasses(s, s', a.call, Admits(a));
    } else {
      assert forall i :: i in PassedCalls(s') <==> i in PassedCalls(s);
      assert PassedCalls(s') == PassedCalls(s);
    }
  }

  function AllAdmitted(run: seq<Timed>): nat
    decreases |run|
  {
    if run == [] then 0 else AllAdmitted(run[..|run| - 1]) + if Admits(run[|run| - 1].action) then 1 else 0
  }

  lemma {:induction false} PassedAreAdmitted(workers: nat, interval: int, count: int, start: int, run: seq<Timed>)
    requires interval > 0 && RunLimited(workers, interval, count, start, run).Some?
    ensures
      var s := RunLimited(workers, interval, count, start, run).value.server;
      LimitingInv(s) && |PassedCalls(s)| == AllAdmitted(run)
    decreases |run|
  {
    if run == [] {
      assert PassedCalls(Init(workers, true)) == {};
    } else {
      var n := |run| - 1;
      PassedAreAdmitted(workers, interval, count, start, run[..n]);
      var l := RunLimited(workers, interval, count, start, run[..n]).value;
      NextPasses(l.server, run[n].action, Next(l.server, run[n].action).value);
    }
  }

  lemma {:induction false} AllWithinWindow(run: seq<Timed>, from: int, to: int)
    requires forall k :: 0 <= k < |run| ==> from <= run[k].at <= to
    ensures AdmittedCalls(run, from, to) == AllAdmitted(run)
    decreases |run|
  {
    if run != [] {
      AllWithinWindow(run[..|run| - 1], from, to);
    }
  }

  lemma PassedInWindow(workers: nat, interval: int, count: int, start: int, run: seq<Timed>, from: int, to: int)
    requires interval > 0 && RunLimited(workers, interval, count, start, run).Some?
    requires forall k :: 0 <= k < |run| ==> from <= run[k].at <= to
    ensures |PassedCalls(RunLimited(workers, interval, count, start, run).value.server)| == AdmittedCalls(run, from, to)
  {
    PassedAreAdmitted(workers, interval, count, start, run);
    AllWithinWindow(run, from, to);
  }

  /** After a run whose actions all fall into a window: how many calls of the server got past the limiter. */
  lemma CallsPastTheLimiter(workers: nat, interval: int, count: int, start: int, run: seq<Timed>, from: int, length: int)
    requires interval > 0 && count >= 0 && length >= 0
    requires RunLimited(workers, interval, count, start, run).Some?
    requires forall k :: 0 <= k < |run| ==> from <= run[k].at <= from + length
    ensures
      var setback := Setback(NewBucket(count, start), interval, count, Asked(run));
      |PassedCalls(RunLimited(workers, interval, count, start, run).value.server)|
      <= count + (length + setback) / interval
  {
    ServerAdmissionBound(workers, interval, count, start, run, from, length);
    PassedInWindow(workers, interval, count, start, run, from, from + length);
  }
}
