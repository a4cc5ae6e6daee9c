/**
 Admission in reject mode: the token bucket that NewServer builds from a duration and a count, asked by Allow.  Each call
 reads the clock before it gets the limiter's lock, so the times that the limiter sees need not be in order.  Tokens are
 real; the rounding of the limiter's floating point is not modelled.
 */
module Limiters {

  /** The tokens in the bucket at the time of the last admission. */
  datatype Bucket = Bucket(tokens: real, last: int)

  /** rate.NewLimiter: the bucket starts full. */
  function NewBucket(count: int, start: int): Bucket {
    Bucket(count as real, start)
  }

  /** What a duration is worth, at one token per interval. */
  function Earned(elapsed: int, interval: int): real
    requires interval > 0
  {
    elapsed as real / interval as real
  }

  /** The time since the last admission; none, if the clock was read before that. */
  function Elapsed(b: Bucket, now: int): nat {
    if now < b.last then 0 else now - b.last
  }

  /** The tokens at a time, capped by the count. */
  function Tokens(b: Bucket, interval: int, count: int, now: int): real
    requires interval > 0
  {
    var t := b.tokens + Earned(Elapsed(b, now), interval);
    if t > count as real then count as real else t
  }

  /** Allow: take a token if there is a whole one, else leave the bucket as it is. */
  function Allow(b: Bucket, interval: int, count: int, now: int): (Bucket, bool)
    requires interval > 0
  {
    var t := Tokens(b, interval, count, now);
    if t >= 1.0 then (Bucket(t - 1.0, now), true) else (b, false)
  }

  predicate Ordered(times: seq<int>) {
    forall j, k :: 0 <= j <= k < |times| ==> times[j] <= times[k]
  }

  /** The bucket after calls at the given times, the last one last. */
  function After(b: Bucket, interval: int, count: int, times: seq<int>): Bucket
    requires interval > 0
    decreases |times|
  {
    if times == [] then b
    else Allow(After(b, interval, count, times[..|times| - 1]), interval, count, times[|times| - 1]).0
  }

  /** Whether the call at position k is admitted. */
  predicate Admitted(b: Bucket, interval: int, count: int, times: seq<int>, k: nat)
    requires interval > 0 && k < |times|
  {
    Allow(After(b, interval, count, times[..k]), interval, count, times[k]).1
  }

  /** How many calls of a run are admitted in a closed window of time. */
  function AdmittedIn(b: Bucket, interval: int, count: int, times: seq<int>, from: int, to: int): nat
    requires interval > 0
    decreases |times|
  {
    if times == [] then 0
    else
      var n := |times| - 1;
      AdmittedIn(b, interval, count, times[..n], from, to)
      + if from <= times[n] <= to && Admitted(b, interval, count, times, n) then 1 else 0
  }

  /** By how much, in all, admissions have set the bucket's clock back. */
  function Setback(b: Bucket, interval: int, count: int, times: seq<int>): nat
    requires interval > 0
    decreases |times|
  {
    if times == [] then 0
    else
      var n := |times| - 1;
      var before := After(b, interval, count, times[..n]);
      Setback(b, interval, count, times[..n])
      + if Admitted(b, interval, count, times, n) && times[n] < before.last then before.last - times[n] else 0
  }

  lemma EarnedAdds(a: int, b: int, interval: int)
    requires interval > 0
    ensures Earned(a + b, interval) == Earned(a, interval) + Earned(b, interval)
    ensures a >= 0 ==> Earned(a, interval) >= 0.0
  {
  }

  /**
   Every admission since a moment is paid for, by the count and by what was earned since that moment, where a time that
   was set back is earned again.
   */
  predicate Paid(b: Bucket, interval: int, count: int, from: int, admitted: nat, setback: nat)
    requires interval > 0
  {
    && 0.0 <= b.tokens <= count as real
    && (admitted > 0 ==> admitted as real + b.tokens <= count as real + Earned(b.last - from + setback, interval))
  }

  lemma AllowKeepsPaid(b: Bucket, interval: int, count: int, from: int, admitted: nat, setback: nat, now: int,
                       inside: bool)
    requires interval > 0 && Paid(b, interval, count, from, admitted, setback) && (inside ==> from <= now)
    ensures
      var (b', ok) := Allow(b, interval, count, now);
      var back := if ok && now < b.last then b.last - now else 0;
      Paid(b', interval, count, from, if ok && inside then admitted + 1 else admitted, setback + back)
  {
    var (b', ok) := Allow(b, interval, count, now);
    EarnedAdds(Elapsed(b, now), 0, interval);
    if ok {
      var back := if now < b.last then b.last - now else 0;
      if admitted > 0 {
        EarnedAdds(b.last - from + setback, Elapsed(b, now), interval);
        assert b'.last - from + (setback + back) == (b.last - from + setback) + Elapsed(b, now);
      } else if inside {
        EarnedAdds(now - from + setback + back, 0, interval);
      }
    }
  }

  lemma {:induction false} RunKeepsPaid(count: int, interval: int, times: seq<int>, start: int, from: int, to: int)
    requires interval > 0 && count >= 0
    ensures
      var b := NewBucket(count, start);
      Paid(After(b, interval, count, times), interval, count, from, AdmittedIn(b, interval, count, times, from, to),
           Setback(b, interval, count, times))
    decreases |times|
  {
    if times != [] {
      var n := |times| - 1;
      var b := NewBucket(count, start);
      RunKeepsPaid(count, interval, times[..n], start, from, to);
      AllowKeepsPaid(After(b, interval, count, times[..n]), interval, count, from,
                     AdmittedIn(b, interval, count, times[..n], from, to), Setback(b, interval, count, times[..n]),
                     times[n], from <= times[n] <= to);
    }
  }

  /** A whole number below a real quotient is below the integer quotient. */
  lemma FloorBound(admitted: int, count: int, length: int, interval: int)
    requires interval > 0 && length >= 0
    requires admitted as real <= count as real + Earned(length, interval)
    ensures admitted <= count + length / interval
  {
    var n := admitted - count;
    assert n as real * interval as real <= length as real;
    assert (n * interval) as real == n as real * interval as real;
    assert n * interval <= length;
    var q := length / interval;
    assert (n - q) * interval == n * interval - q * interval < interval;
    LessThanOne(n - q, interval);
  }

  lemma LessThanOne(k: int, interval: int)
    requires interval > 0 && k * interval < interval
    ensures k <= 0
  {
  }

  /**
   In any run, whatever the order of the clock readings, and in any window of time: the calls admitted past the limiter
   are at most the count, and one more for each whole interval in the window and in what the clock was set back.
   */
  lemma {:induction false} AdmissionBoundAnyOrder(count: int, interval: int, times: seq<int>, start: int, from: int,
                                                  length: int)
    requires interval > 0 && count >= 0 && length >= 0
    ensures
      var b := NewBucket(count, start);
      AdmittedIn(b, interval, count, times, from, from + length)
      <= count + (length + Setback(b, interval, count, times)) / interval
    decreases |times|
  {
    var b := NewBucket(count, start);
    if times != [] {
      var n := |times| - 1;
      var setback := Setback(b, interval, count, times);
      if from <= times[n] <= from + length && Admitted(b, interval, count, times, n) {
        RunKeepsPaid(count, interval, times, start, from, from + length);
        EarnedAdds(times[n] - from + setback, from + length - times[n], interval);
        EarnedAdds(from + length - times[n], 0, interval);
        FloorBound(AdmittedIn(b, interval, count, times, from, from + length), count, length + setback, interval);
      } else {
        AdmissionBoundAnyOrder(count, interval, times[..n], start, from, length);
        QuotientGrows(length + Setback(b, interval, count, times[..n]), length + setback, interval);
      }
    } else {
      QuotientGrows(0, length, interval);
    }
  }

  lemma QuotientGrows(a: nat, b: nat, interval: int)
    requires interval > 0 && a <= b
    ensures 0 <= a / interval <= b / interval
  {
    LessThanOne(a / interval - b / interval, interval) by {
      assert a / interval * interval <= a && b < (b / interval + 1) * interval;
      assert (a / interval - b / interval) * interval == a / interval * interval - b / interval * interval;
    }
  }

  /** Readings in order never set the clock back. */
  lemma {:induction false} NoSetbackInOrder(b: Bucket, interval: int, count: int, times: seq<int>)
    requires interval > 0 && Ordered(times) && (times != [] ==> b.last <= times[0])
    ensures Setback(b, interval, count, times) == 0
    ensures After(b, interval, count, times).last <= if times == [] then b.last else times[|times| - 1]
    decreases |times|
  {
    if times != [] {
      NoSetbackInOrder(b, interval, count, times[..|times| - 1]);
    }
  }

  /** With readings in order: at most the count, and one more for each whole interval in the window. */
  lemma AdmissionBound(count: int, interval: int, times: seq<int>, start: int, from: int, length: int)
    requires interval > 0 && count >= 0 && length >= 0 && Ordered(times)
    requires times != [] ==> start <= times[0]
    ensures AdmittedIn(NewBucket(count, start), interval, count, times, from, from + length) <= count + length / interval
  {
    AdmissionBoundAnyOrder(count, interval, times, start, from, length);
    NoSetbackInOrder(NewBucket(count, start), interval, count, times);
  }

  lemma OneInterval(interval: int)
    requires interval > 0
    ensures Earned(interval, interval) == 1.0
  {
    var length := interval as real;
    assert length != 0.0 && length / length == 1.0;
  }

  /** Out of order the plain bound fails: five calls pass within one interval where the count is three. */
  lemma SetbackAdmitsMore(interval: int)
    requires interval > 0
    ensures
      var times := [interval, 0, interval, 0, interval];
      AdmittedIn(NewBucket(3, 0), interval, 3, times, 0, interval) == 5 > 3 + interval / interval
  {
    var times := [interval, 0, interval, 0, interval];
    var b := NewBucket(3, 0);
    EarnedAdds(0, 0, interval);
    OneInterval(interval);
    assert times[..0] == [] && times[..1] == [interval] && times[..1][..0] == [];
    assert times[..2] == [interval, 0] && times[..2][..1] == times[..1];
    assert times[..3] == [interval, 0, interval] && times[..3][..2] == times[..2];
    assert times[..4] == [interval, 0, interval, 0] && times[..4][..3] == times[..3];
    assert After(b, interval, 3, times[..1]) == Bucket(2.0, interval);
    assert After(b, interval, 3, times[..2]) == Bucket(1.0, 0);
    assert After(b, interval, 3, times[..3]) == Bucket(1.0, interval);
    assert After(b, interval, 3, times[..4]) == Bucket(0.0, 0);
    assert AdmittedIn(b, interval, 3, times[..1], 0, interval) == 1;
    assert AdmittedIn(b, interval, 3, times[..2], 0, interval) == 2;
    assert AdmittedIn(b, interval, 3, times[..3], 0, interval) == 3;
    assert AdmittedIn(b, interval, 3, times[..4], 0, interval) == 4;
    assert interval / interval == 1;
  }

  /** Calls all at one moment. */
  function Burst(now: int, calls: nat): seq<int> {
    seq(calls, _ => now)
  }

  /** The bound is met: as many calls at one moment as the count, or more, and exactly the count is admitted. */
  lemma {:induction false} BurstAdmitsTheCount(count: int, interval: int, now: int, calls: nat)
    requires interval > 0 && count >= 0
    ensures
      var b := NewBucket(count, now);
      var admitted := if calls <= count then calls else count;
      && AdmittedIn(b, interval, count, Burst(now, calls), now, now) == admitted
      && After(b, interval, count, Burst(now, calls)) == Bucket((count - admitted) as real, now)
    decreases calls
  {
    if calls > 0 {
      BurstAdmitsTheCount(count, interval, now, calls - 1);
      assert Burst(now, calls)[..calls - 1] == Burst(now, calls - 1);
      EarnedAdds(0, 0, interval);
    }
  }

  /** A count that is not positive admits nothing. */
  lemma NoCountNoAdmission(b: Bucket, interval: int, count: int, now: int)
    requires interval > 0 && count <= 0
    ensures Allow(b, interval, count, now) == (b, false)
  {
  }

  // ---- The limiter admits what it can ----------------------------------------------------------------------------

  /**
   The tokens are what the count and the time since some moment are worth, less the admissions since then: the moment when
   the bucket was last full.
   */
  ghost predicate FullSince(count: int, interval: int, times: seq<int>, start: int, from: int)
    requires interval > 0
  {
    var b := NewBucket(count, start);
    var now := After(b, interval, count, times);
    && from <= now.last
    && forall to :: to >= now.last ==>
         now.tokens == count as real + Earned(now.last - from, interval)
                       - AdmittedIn(b, interval, count, times, from, to) as real
  }

  /** Nothing is admitted after the time of the last admission. */
  lemma {:induction false} NothingAfterLast(count: int, interval: int, times: seq<int>, start: int, from: int, to: int)
    requires interval > 0 && Ordered(times) && (times != [] ==> start <= times[0])
    requires from > After(NewBucket(count, start), interval, count, times).last
    ensures AdmittedIn(NewBucket(count, start), interval, count, times, from, to) == 0
    decreases |times|
  {
    if times != [] {
      NoSetbackInOrder(NewBucket(count, start), interval, count, times[..|times| - 1]);
      NothingAfterLast(count, interval, times[..|times| - 1], start, from, to);
    }
  }

  /** One more reading that is refused changes nothing. */
  lemma RefusalKeepsFull(count: int, interval: int, times: seq<int>, start: int, from: int)
    requires interval > 0 && times != [] && !Admitted(NewBucket(count, start), interval, count, times, |times| - 1)
    requires FullSince(count, interval, times[..|times| - 1], start, from)
    ensures FullSince(count, interval, times, start, from)
  {
  }

  /** A bucket that is capped has earned something since its last admission, so that one is earlier. */
  lemma NothingSinceFull(count: int, interval: int, times: seq<int>, start: int, from: int, to: int)
    requires interval > 0 && count >= 0 && Ordered(times) && (times != [] ==> start <= times[0])
    requires
      var b := After(NewBucket(count, start), interval, count, times);
      b.last <= from && b.tokens + Earned(from - b.last, interval) > count as real
    ensures AdmittedIn(NewBucket(count, start), interval, count, times, from, to) == 0
  {
    EarnedAdds(0, 0, interval);
    RunKeepsPaid(count, interval, times, start, from, to);
    NothingAfterLast(count, interval, times, start, from, to);
  }

  /** One more admission is paid from the tokens, or starts from a full bucket. */
  lemma AdmissionKeepsFull(count: int, interval: int, times: seq<int>, start: int, was: int) returns (from: int)
    requires interval > 0 && count >= 0 && times != [] && Ordered(times) && start <= times[0]
    requires Admitted(NewBucket(count, start), interval, count, times, |times| - 1)
    requires FullSince(count, interval, times[..|times| - 1], start, was)
    ensures FullSince(count, interval, times, start, from)
  {
    var n := |times| - 1;
    var b := NewBucket(count, start);
    var before, now := After(b, interval, count, times[..n]), times[n];
    NoSetbackInOrder(b, interval, count, times[..n]);
    EarnedAdds(before.last - was, now - before.last, interval);
    EarnedAdds(0, 0, interval);
    if before.tokens + Earned(now - before.last, interval) > count as real {
      from := now;
      forall to | to >= now
        ensures AdmittedIn(b, interval, count, times, from, to) == 1
      {
        NothingSinceFull(count, interval, times[..n], start, from, to);
      }
    } else {
      from := was;
    }
  }

  lemma {:induction false} SomeFullMoment(count: int, interval: int, times: seq<int>, start: int) returns (from: int)
    requires interval > 0 && count >= 0 && Ordered(times) && (times != [] ==> start <= times[0])
    ensures FullSince(count, interval, times, start, from)
    decreases |times|
  {
    if times == [] {
      from := start;
      EarnedAdds(0, 0, interval);
    } else {
      from := SomeFullMoment(count, interval, times[..|times| - 1], start);
      if Admitted(NewBucket(count, start), interval, count, times, |times| - 1) {
        from := AdmissionKeepsFull(count, interval, times, start, from);
      } else {
        RefusalKeepsFull(count, interval, times, start, from);
      }
    }
  }

  /** A window that ends now already holds as many admissions as the bound allows it. */
  predicate Exhausted(count: int, interval: int, times: seq<int>, start: int, from: int, now: int)
    requires interval > 0
  {
    && from <= now
    && AdmittedIn(NewBucket(count, start), interval, count, times, from, now) >= count + (now - from) / interval
  }

  /** More than a real bound less one is at least its integer part. */
  lemma ReachesTheBound(admitted: int, count: int, length: int, interval: int)
    requires interval > 0 && length >= 0
    requires admitted as real > count as real - 1.0 + Earned(length, interval)
    ensures admitted >= count + length / interval
  {
    var q := length / interval;
    assert q * interval <= length;
    assert (q * interval) as real == q as real * interval as real;
    assert q as real <= length as real / interval as real;
  }

  /**
   With readings in order, a call is refused exactly if some window that ends with it already holds as many admissions as
   the bound allows: the limiter admits whatever it can.
   */
  lemma RefusedExactlyAtTheBound(count: int, interval: int, times: seq<int>, start: int, k: nat)
    requires interval > 0 && count >= 0 && Ordered(times) && (times != [] ==> start <= times[0]) && k < |times|
    ensures !Admitted(NewBucket(count, start), interval, count, times, k)
      <==> exists from :: Exhausted(count, interval, times[..k], start, from, times[k])
  {
    var before, now := times[..k], times[k];
    var b := NewBucket(count, start);
    if !Admitted(b, interval, count, times, k) {
      var from := RefusalAtTheBound(count, interval, before, start, now);
      assert Exhausted(count, interval, before, start, from, now);
    } else if from :| Exhausted(count, interval, before, start, from, now) {
      var upTo := times[..k + 1];
      assert upTo[..k] == before && upTo[k] == now;
      AdmissionBound(count, interval, upTo, start, from, now - from);
      assert AdmittedIn(b, interval, count, upTo, from, now) == AdmittedIn(b, interval, count, before, from, now) + 1;
      assert false;
    }
  }

  lemma RefusalAtTheBound(count: int, interval: int, times: seq<int>, start: int, now: int) returns (from: int)
    requires interval > 0 && count >= 0 && Ordered(times) && (times != [] ==> start <= times[0])
    requires now >= if times == [] then start else times[|times| - 1]
    requires !Allow(After(NewBucket(count, start), interval, count, times), interval, count, now).1
    ensures Exhausted(count, interval, times, start, from, now)
  {
    if count == 0 {
      from := now;
    } else {
      from := SomeFullMoment(count, interval, times, start);
      var b := After(NewBucket(count, start), interval, count, times);
      NoSetbackInOrder(NewBucket(count, start), interval, count, times);
      EarnedAdds(b.last - from, now - b.last, interval);
      var admitted := AdmittedIn(NewBucket(count, start), interval, count, times, from, now);
      ReachesTheBound(admitted, count, now - from, interval);
    }
  }

  /** An interval is worth a token. */
  lemma IntervalIsEnough(b: Bucket, interval: int, count: int, now: int)
    requires interval > 0 && count >= 1 && 0.0 <= b.tokens && b.last + interval <= now
    ensures Allow(b, interval, count, now).1
  {
    OneInterval(interval);
    EarnedAdds(now - b.last - interval, interval, interval);
  }

  /** The bucket is as new, or its time is that of an admission. */
  ghost predicate LastAdmission(count: int, interval: int, times: seq<int>, start: int, j: nat)
    requires interval > 0
  {
    && j < |times| && Admitted(NewBucket(count, start), interval, count, times, j)
    && After(NewBucket(count, start), interval, count, times).last == times[j]
  }

  lemma {:induction false} LastIsAnAdmission(count: int, interval: int, times: seq<int>, start: int)
    requires interval > 0
    ensures After(NewBucket(count, start), interval, count, times) == NewBucket(count, start)
      || exists j: nat :: LastAdmission(count, interval, times, start, j)
    decreases |times|
  {
    if times != [] {
      var n := |times| - 1;
      if Admitted(NewBucket(count, start), interval, count, times, n) {
        assert LastAdmission(count, interval, times, start, n);
      } else {
        LastIsAnAdmission(count, interval, times[..n], start);
        if j: nat :| LastAdmission(count, interval, times[..n], start, j) {
          assert times[..n][..j] == times[..j];
          assert LastAdmission(count, interval, times, start, j);
        }
      }
    }
  }

  /** Whoever waits for an interval after the last admission is admitted, and so is whoever finds none before. */
  lemma PauseAdmits(count: int, interval: int, times: seq<int>, start: int, k: nat)
    requires interval > 0 && count >= 1 && Ordered(times) && (times != [] ==> start <= times[0]) && k < |times|
    requires forall j: nat :: j < k && Admitted(NewBucket(count, start), interval, count, times, j) ==>
      times[j] + interval <= times[k]
    ensures Admitted(NewBucket(count, start), interval, count, times, k)
  {
    var b, before := NewBucket(count, start), times[..k];
    LastIsAnAdmission(count, interval, before, start);
    if j: nat :| LastAdmission(count, interval, before, start, j) {
      assert before[..j] == times[..j];
      assert Admitted(b, interval, count, times, j);
      RunKeepsPaid(count, interval, before, start, start, start);
      IntervalIsEnough(After(b, interval, count, before), interval, count, times[k]);
    } else {
      EarnedAdds(times[k] - start, 0, interval);
    }
  }

  /** Calls that keep an interval from each other are all admitted. */
  lemma SpacedCallsPass(count: int, interval: int, times: seq<int>, start: int)
    requires interval > 0 && count >= 1 && (times != [] ==> start <= times[0])
    requires forall j, k :: 0 <= j < k < |times| ==> times[j] + interval <= times[k]
    ensures forall k: nat :: k < |times| ==> Admitted(NewBucket(count, start), interval, count, times, k)
  {
    forall k: nat | k < |times|
      ensures Admitted(NewBucket(count, start), interval, count, times, k)
    {
      PauseAdmits(count, interval, times, start, k);
    }
  }
}
