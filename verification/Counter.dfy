/**
  `TimeBoundedCounter`: one bucket per aligned interval, with a thousand buckets at most, and the
  tolerance of rollup-boost partial health that is built on it.
*/
module Counter {
  import opened Prelude

  const MAX_BUCKETS := 1000

  function Bucket(now: nat, interval: nat): nat
    requires interval > 0
  {
    now / interval
  }

  function Value(buckets: map<nat, nat>, bucket: nat): nat {
    if bucket in buckets then buckets[bucket] else 0
  }

  /** The reference: a counter that never forgets. */
  function Bump(buckets: map<nat, nat>, bucket: nat): map<nat, nat> {
    buckets[bucket := Value(buckets, bucket) + 1]
  }

  /** The counter: past a thousand buckets only the current one is kept. */
  function BumpEvicting(buckets: map<nat, nat>, bucket: nat): map<nat, nat> {
    var bumped := Bump(buckets, bucket);
    if |bumped| > MAX_BUCKETS then map[bucket := bumped[bucket]] else bumped
  }

  class TimeBoundedCounter {
    var buckets: map<nat, nat>

    constructor ()
      ensures buckets == map[]
    {
      buckets := map[];
    }

    method CurrentValue(now: nat, interval: nat) returns (v: nat)
      requires interval > 0
      ensures v == Value(buckets, Bucket(now, interval))
    {
      var b := Bucket(now, interval);
      v := if b in buckets then buckets[b] else 0;
    }

    /** Never ends with more than a thousand buckets. */
    method Increment(now: nat, interval: nat) returns (latest: nat)
      requires interval > 0
      modifies this
      ensures buckets == BumpEvicting(old(buckets), Bucket(now, interval))
      ensures latest == Value(old(buckets), Bucket(now, interval)) + 1 == Value(buckets, Bucket(now, interval))
      ensures |buckets| <= 1000
    {
      var b := Bucket(now, interval);
      if b !in buckets { buckets := buckets[b := 0]; }
      buckets := buckets[b := buckets[b] + 1];
      assert buckets == Bump(old(buckets), b);
      latest := buckets[b];
      if |buckets| > MAX_BUCKETS {
        buckets := map[];
        buckets := buckets[b := latest];
        assert buckets == map[b := latest];
      }
    }

    /** `tolerate_rollup_boost_partial_health`: without a limit and an interval nothing is tolerated. */
    method Tolerate(tolerance: Option<Tolerance>, now: nat) returns (ok: bool)
      modifies this
      ensures ok == TolerateOnce(old(buckets), tolerance, now).ok
      ensures tolerance.None? || tolerance.value.limit == 0 || tolerance.value.interval == 0 ==>
                !ok && buckets == old(buckets)
      ensures buckets == TolerateOnce(old(buckets), tolerance, now).buckets
    {
      if tolerance.None? { return false; }
      var t := tolerance.value;
      if t.limit == 0 || t.interval == 0 { return false; }
      var current := CurrentValue(now, t.interval);
      if current >= t.limit { return false; }
      var _ := Increment(now, t.interval);
      return true;
    }
  }

  // ---------- runs of partial responses ----------

  datatype Tolerance = Tolerance(limit: nat, interval: nat)

  datatype Verdict = Verdict(ok: bool, buckets: map<nat, nat>)

  predicate Enforced(tolerance: Option<Tolerance>) {
    tolerance.Some? && tolerance.value.limit > 0 && tolerance.value.interval > 0
  }

  function TolerateOnce(buckets: map<nat, nat>, tolerance: Option<Tolerance>, now: nat): Verdict {
    if !Enforced(tolerance) then Verdict(false, buckets)
    else
      var t := tolerance.value;
      var b := Bucket(now, t.interval);
      if Value(buckets, b) >= t.limit then Verdict(false, buckets)
      else Verdict(true, BumpEvicting(buckets, b))
  }

  /** The evicting counter after partial responses at these times. */
  function BucketsAfter(t: Tolerance, times: seq<nat>): map<nat, nat>
    requires t.limit > 0 && t.interval > 0
  {
    if times == [] then map[]
    else TolerateOnce(BucketsAfter(t, times[..|times| - 1]), Some(t), times[|times| - 1]).buckets
  }

  /** The verdict on the `i`-th partial response. */
  function Tolerated(t: Tolerance, times: seq<nat>, i: nat): bool
    requires t.limit > 0 && t.interval > 0 && i < |times|
  {
    TolerateOnce(BucketsAfter(t, times[..i]), Some(t), times[i]).ok
  }

  /** How many of the times fall into the bucket. */
  function Occurrences(t: Tolerance, times: seq<nat>, bucket: nat): nat
    requires t.interval > 0
  {
    if times == [] then 0
    else Occurrences(t, times[..|times| - 1], bucket)
         + if Bucket(times[|times| - 1], t.interval) == bucket then 1 else 0
  }

  ghost predicate NonDecreasing(times: seq<nat>) {
    forall i, j :: 0 <= i <= j < |times| ==> times[i] <= times[j]
  }

  /** The unbounded reference counter after the same responses. */
  function Reference(t: Tolerance, times: seq<nat>): map<nat, nat>
    requires t.limit > 0 && t.interval > 0
  {
    if times == [] then map[]
    else
      var before := Reference(t, times[..|times| - 1]);
      var b := Bucket(times[|times| - 1], t.interval);
      if Value(before, b) >= t.limit then before else Bump(before, b)
  }

  lemma {:induction false} ReferenceCounts(t: Tolerance, times: seq<nat>, bucket: nat)
    requires t.limit > 0 && t.interval > 0
    ensures Value(Reference(t, times), bucket) == Min(t.limit, Occurrences(t, times, bucket))
    decreases |times|
  {
    if times != [] { ReferenceCounts(t, times[..|times| - 1], bucket); }
  }

  lemma BucketMonotone(a: nat, b: nat, interval: nat)
    requires a <= b && interval > 0
    ensures Bucket(a, interval) <= Bucket(b, interval)
  {
    var p, q := Bucket(a, interval), Bucket(b, interval);
    if p > q {
      assert p * interval >= (q + 1) * interval by { MulMonotone(q + 1, p, interval); }
    }
  }

  /** Buckets are the intervals aligned at multiples of their length. */
  lemma BucketMeaning(now: nat, interval: nat, k: nat)
    requires interval > 0
    ensures Bucket(now, interval) == k <==> k * interval <= now < (k + 1) * interval
  {
    var b := Bucket(now, interval);
    assert b * interval <= now < (b + 1) * interval;
    if b < k { MulMonotone(b + 1, k, interval); }
    if k < b { MulMonotone(k + 1, b, interval); }
  }

  /** How many of the times lie in `from .. to`. */
  function CountWithin(times: seq<nat>, from: nat, to: nat): nat {
    if times == [] then 0
    else CountWithin(times[..|times| - 1], from, to) + if from <= times[|times| - 1] < to then 1 else 0
  }

  lemma {:induction false} OccurrencesMeaning(t: Tolerance, times: seq<nat>, k: nat)
    requires t.interval > 0
    ensures Occurrences(t, times, k) == CountWithin(times, k * t.interval, (k + 1) * t.interval)
    decreases |times|
  {
    if times != [] {
      OccurrencesMeaning(t, times[..|times| - 1], k);
      BucketMeaning(times[|times| - 1], t.interval, k);
    }
  }

  lemma MulMonotone(a: nat, b: nat, k: nat)
    requires a <= b
    ensures a * k <= b * k
  {
  }

  /** On every bucket that can still be asked for, both counters agree. */
  lemma {:induction false} AgreesWithReference(t: Tolerance, times: seq<nat>, bucket: nat)
    requires t.limit > 0 && t.interval > 0 && NonDecreasing(times)
    requires times != [] ==> bucket >= Bucket(times[|times| - 1], t.interval)
    ensures Value(BucketsAfter(t, times), bucket) == Value(Reference(t, times), bucket)
    ensures |BucketsAfter(t, times)| <= MAX_BUCKETS
    decreases |times|
  {
    if times != [] {
      var n := |times| - 1;
      var front := times[..n];
      var b := Bucket(times[n], t.interval);
      if front != [] { BucketMonotone(front[|front| - 1], times[n], t.interval); }
      AgreesWithReference(t, front, bucket);
      AgreesWithReference(t, front, b);
      if bucket > b {
        ReferenceCounts(t, front, bucket);
        NothingLater(t, front, bucket);
      }
    }
  }

  /** No response lies in a bucket after the last one. */
  lemma {:induction false} NothingLater(t: Tolerance, times: seq<nat>, bucket: nat)
    requires t.limit > 0 && t.interval > 0 && NonDecreasing(times)
    requires times != [] ==> bucket > Bucket(times[|times| - 1], t.interval)
    ensures Occurrences(t, times, bucket) == 0
    decreases |times|
  {
    if times != [] {
      var front := times[..|times| - 1];
      if front != [] { BucketMonotone(front[|front| - 1], times[|times| - 1], t.interval); }
      NothingLater(t, front, bucket);
    }
  }

  /**
    With a clock that does not run backwards, the thousand-bucket counter gives every verdict the
    unbounded one would: a response is tolerated exactly when fewer than `limit` came before it in its
    aligned interval.
  */
  lemma ToleratedIffFewBefore(t: Tolerance, times: seq<nat>, i: nat)
    requires t.limit > 0 && t.interval > 0 && NonDecreasing(times) && i < |times|
    ensures Tolerated(t, times, i) <==> Occurrences(t, times[..i], Bucket(times[i], t.interval)) < t.limit
  {
    var front := times[..i];
    var b := Bucket(times[i], t.interval);
    if i > 0 { BucketMonotone(times[i - 1], times[i], t.interval); }
    AgreesWithReference(t, front, b);
    ReferenceCounts(t, front, b);
  }

  /** The same with the interval spelt out: fewer than `limit` since the last multiple of its length. */
  lemma ToleratedIffFewInInterval(t: Tolerance, times: seq<nat>, i: nat, k: nat)
    requires t.limit > 0 && t.interval > 0 && NonDecreasing(times) && i < |times|
    requires k * t.interval <= times[i] < (k + 1) * t.interval
    ensures Tolerated(t, times, i) <==>
            CountWithin(times[..i], k * t.interval, (k + 1) * t.interval) < t.limit
  {
    BucketMeaning(times[i], t.interval, k);
    OccurrencesMeaning(t, times[..i], k);
    ToleratedIffFewBefore(t, times, i);
  }

  /** How many responses are tolerated in the bucket. */
  function ToleratedIn(t: Tolerance, times: seq<nat>, bucket: nat): nat
    requires t.limit > 0 && t.interval > 0
  {
    if times == [] then 0
    else
      var n := |times| - 1;
      ToleratedIn(t, times[..n], bucket)
      + if Bucket(times[n], t.interval) == bucket && Tolerated(t, times, n) then 1 else 0
  }

  /** Each aligned interval tolerates exactly the lesser of the limit and its partial responses. */
  lemma {:induction false} AlignedIntervalExact(t: Tolerance, times: seq<nat>, bucket: nat)
    requires t.limit > 0 && t.interval > 0 && NonDecreasing(times)
    ensures ToleratedIn(t, times, bucket) == Min(t.limit, Occurrences(t, times, bucket))
    decreases |times|
  {
    if times != [] {
      var n := |times| - 1;
      AlignedIntervalExact(t, times[..n], bucket);
      ToleratedIffFewBefore(t, times, n);
    }
  }

  /** How many responses are tolerated within `from .. from + interval`. */
  function ToleratedWithin(t: Tolerance, times: seq<nat>, from: nat): nat
    requires t.limit > 0 && t.interval > 0
  {
    if times == [] then 0
    else
      var n := |times| - 1;
      ToleratedWithin(t, times[..n], from)
      + if from <= times[n] < from + t.interval && Tolerated(t, times, n) then 1 else 0
  }

  lemma TwoBucketsCover(now: nat, from: nat, interval: nat)
    requires interval > 0 && from <= now < from + interval
    ensures Bucket(now, interval) == Bucket(from, interval) || Bucket(now, interval) == Bucket(from, interval) + 1
  {
    BucketMonotone(from, now, interval);
    var b := Bucket(from, interval);
    if Bucket(now, interval) >= b + 2 {
      MulMonotone(b + 2, Bucket(now, interval), interval);
    }
  }

  lemma {:induction false} WindowWithinTwoBuckets(t: Tolerance, times: seq<nat>, from: nat)
    requires t.limit > 0 && t.interval > 0
    ensures var b := Bucket(from, t.interval);
            ToleratedWithin(t, times, from) <= ToleratedIn(t, times, b) + ToleratedIn(t, times, b + 1)
    decreases |times|
  {
    if times != [] {
      var n := |times| - 1;
      WindowWithinTwoBuckets(t, times[..n], from);
      if from <= times[n] < from + t.interval { TwoBucketsCover(times[n], from, t.interval); }
    }
  }

  /** Any sliding interval, however placed, tolerates at most twice the limit. */
  lemma SlidingIntervalBound(t: Tolerance, times: seq<nat>, from: nat)
    requires t.limit > 0 && t.interval > 0 && NonDecreasing(times)
    ensures ToleratedWithin(t, times, from) <= 2 * t.limit
  {
    WindowWithinTwoBuckets(t, times, from);
    AlignedIntervalExact(t, times, Bucket(from, t.interval));
    AlignedIntervalExact(t, times, Bucket(from, t.interval) + 1);
  }

  // ---------- any clock ----------

  /** The distinct buckets the times fall into. */
  function BucketsOf(t: Tolerance, times: seq<nat>): set<nat>
    requires t.interval > 0
  {
    if times == [] then {}
    else BucketsOf(t, times[..|times| - 1]) + {Bucket(times[|times| - 1], t.interval)}
  }

  /**
    Where the present epoch began: an epoch ends with the response that brings its distinct buckets above a
    thousand, and that response is the first of the next epoch.
  */
  function EpochStart(t: Tolerance, times: seq<nat>): (start: nat)
    requires t.interval > 0
    ensures start <= |times| && (times != [] ==> start < |times|)
  {
    if times == [] then 0
    else
      var n := |times| - 1;
      var start := EpochStart(t, times[..n]);
      if |BucketsOf(t, times[start..])| > MAX_BUCKETS then n else start
  }

  lemma OneTime(t: Tolerance, now: nat, bucket: nat)
    requires t.interval > 0
    ensures BucketsOf(t, [now]) == {Bucket(now, t.interval)}
    ensures Occurrences(t, [now], bucket) == if bucket == Bucket(now, t.interval) then 1 else 0
  {
    assert [now][..0] == [];
    assert Occurrences(t, [now], bucket)
        == Occurrences(t, [], bucket) + if Bucket(now, t.interval) == bucket then 1 else 0;
  }

  /** The responses of the present epoch. */
  function Epoch(t: Tolerance, times: seq<nat>): seq<nat>
    requires t.interval > 0
  {
    times[EpochStart(t, times)..]
  }

  lemma JoinedEpoch(t: Tolerance, epoch: seq<nat>, now: nat, bucket: nat)
    requires t.interval > 0
    ensures BucketsOf(t, epoch + [now]) == BucketsOf(t, epoch) + {Bucket(now, t.interval)}
    ensures Occurrences(t, epoch + [now], bucket)
         == Occurrences(t, epoch, bucket) + if bucket == Bucket(now, t.interval) then 1 else 0
  {
    assert (epoch + [now])[..|epoch|] == epoch;
  }

  /** The buckets are those of the epoch, and this one's count is that of the epoch up to the limit. */
  ghost predicate Holds(t: Tolerance, buckets: map<nat, nat>, epoch: seq<nat>, bucket: nat)
    requires t.interval > 0
  {
    && buckets.Keys == BucketsOf(t, epoch) && |buckets| <= MAX_BUCKETS
    && Value(buckets, bucket) == Min(t.limit, Occurrences(t, epoch, bucket))
  }

  /** One more response either joins the epoch or, as the thousand and first bucket, begins the next. */
  function NextEpoch(t: Tolerance, epoch: seq<nat>, now: nat): seq<nat>
    requires t.interval > 0
  {
    if |BucketsOf(t, epoch + [now])| > MAX_BUCKETS then [now] else epoch + [now]
  }

  lemma EpochStep(t: Tolerance, times: seq<nat>)
    requires t.interval > 0 && times != []
    ensures var n := |times| - 1;
            Epoch(t, times) == NextEpoch(t, Epoch(t, times[..n]), times[n])
  {
    var n := |times| - 1;
    var start := EpochStart(t, times[..n]);
    assert times[start..] == times[..n][start..] + [times[n]];
  }

  lemma KnownBucketStep(t: Tolerance, buckets: map<nat, nat>, epoch: seq<nat>, now: nat, bucket: nat)
    requires t.limit > 0 && t.interval > 0 && Bucket(now, t.interval) in buckets
    requires Holds(t, buckets, epoch, bucket) && Holds(t, buckets, epoch, Bucket(now, t.interval))
    ensures Holds(t, TolerateOnce(buckets, Some(t), now).buckets, NextEpoch(t, epoch, now), bucket)
  {
    var b := Bucket(now, t.interval);
    JoinedEpoch(t, epoch, now, bucket);
    assert BucketsOf(t, epoch + [now]) == buckets.Keys == Bump(buckets, b).Keys;
    assert |buckets.Keys| == |buckets| && |Bump(buckets, b).Keys| == |Bump(buckets, b)|;
  }

  lemma NewBucketStep(t: Tolerance, buckets: map<nat, nat>, epoch: seq<nat>, now: nat, bucket: nat)
    requires t.limit > 0 && t.interval > 0 && Bucket(now, t.interval) !in buckets
    requires Holds(t, buckets, epoch, bucket) && Holds(t, buckets, epoch, Bucket(now, t.interval))
    ensures Holds(t, TolerateOnce(buckets, Some(t), now).buckets, NextEpoch(t, epoch, now), bucket)
  {
    var b := Bucket(now, t.interval);
    JoinedEpoch(t, epoch, now, bucket);
    OneTime(t, now, bucket);
    assert Bump(buckets, b).Keys == buckets.Keys + {b} == BucketsOf(t, epoch + [now]);
    assert |Bump(buckets, b).Keys| == |Bump(buckets, b)|;
  }

  /** For every clock, the buckets hold the responses of the present epoch, each count up to the limit. */
  lemma {:induction false} BucketsHoldEpoch(t: Tolerance, times: seq<nat>, bucket: nat)
    requires t.limit > 0 && t.interval > 0
    ensures Holds(t, BucketsAfter(t, times), Epoch(t, times), bucket)
    decreases |times|
  {
    if times != [] {
      var n := |times| - 1;
      var front, now := times[..n], times[n];
      var b := Bucket(now, t.interval);
      var before, epoch := BucketsAfter(t, front), Epoch(t, front);
      BucketsHoldEpoch(t, front, bucket);
      BucketsHoldEpoch(t, front, b);
      EpochStep(t, times);
      if b in before {
        KnownBucketStep(t, before, epoch, now, bucket);
      } else {
        NewBucketStep(t, before, epoch, now, bucket);
      }
    }
  }

  /**
    The exact law for every clock: a response is tolerated if and only if fewer than `limit` came before it
    in its aligned interval since the last eviction.
  */
  lemma ToleratedIffFewInEpoch(t: Tolerance, times: seq<nat>, i: nat)
    requires t.limit > 0 && t.interval > 0 && i < |times|
    ensures Tolerated(t, times, i) <==>
            Occurrences(t, Epoch(t, times[..i]), Bucket(times[i], t.interval)) < t.limit
  {
    BucketsHoldEpoch(t, times[..i], Bucket(times[i], t.interval));
  }

  lemma {:induction false} OccurrencesOfTail(t: Tolerance, times: seq<nat>, from: nat, bucket: nat)
    requires t.interval > 0 && from <= |times|
    ensures Occurrences(t, times[from..], bucket) <= Occurrences(t, times, bucket)
    decreases |times|
  {
    if from < |times| {
      var n := |times| - 1;
      assert times[from..][..n - from] == times[..n][from..];
      OccurrencesOfTail(t, times[..n], from, bucket);
    }
  }

  /**
    And exactly when the thousand buckets show: the verdict differs from that of the counter that never
    forgets if and only if the interval is exhausted but not within the present epoch; the counter then
    tolerates one response too many.
  */
  lemma VerdictDiffersIff(t: Tolerance, times: seq<nat>, i: nat)
    requires t.limit > 0 && t.interval > 0 && i < |times|
    ensures var b := Bucket(times[i], t.interval);
            Tolerated(t, times, i) != (Value(Reference(t, times[..i]), b) < t.limit)
            <==> Occurrences(t, Epoch(t, times[..i]), b) < t.limit <= Occurrences(t, times[..i], b)
  {
    var b := Bucket(times[i], t.interval);
    ToleratedIffFewInEpoch(t, times, i);
    ReferenceCounts(t, times[..i], b);
    OccurrencesOfTail(t, times[..i], EpochStart(t, times[..i]), b);
  }

  lemma {:induction false} BucketsOfTail(t: Tolerance, times: seq<nat>, from: nat)
    requires t.interval > 0 && from <= |times|
    ensures BucketsOf(t, times[from..]) <= BucketsOf(t, times)
    decreases |times|
  {
    if from < |times| {
      var n := |times| - 1;
      assert times[from..][..n - from] == times[..n][from..];
      BucketsOfTail(t, times[..n], from);
    }
  }

  lemma CardinalityMonotone(a: set<nat>, b: set<nat>)
    requires a <= b
    ensures |a| <= |b|
  {
    assert b == a + (b - a);
  }

  /** Up to a thousand distinct buckets nothing is forgotten, whatever the clock does. */
  lemma {:induction false} FewBucketsOneEpoch(t: Tolerance, times: seq<nat>)
    requires t.interval > 0 && |BucketsOf(t, times)| <= 1000
    ensures Epoch(t, times) == times
    decreases |times|
  {
    if times != [] {
      var front := times[..|times| - 1];
      CardinalityMonotone(BucketsOf(t, front), BucketsOf(t, times));
      FewBucketsOneEpoch(t, front);
      assert times[0..] == times;
    }
  }

  /** The times 0, 1, ..., n - 1. */
  function FirstSeconds(n: nat): (times: seq<nat>)
    ensures |times| == n && forall i :: 0 <= i < n ==> times[i] == i
  {
    seq(n, i => i)
  }

  lemma {:induction false} SecondsAreBuckets(t: Tolerance, n: nat)
    requires t.interval == 1
    ensures (forall b :: b in BucketsOf(t, FirstSeconds(n)) <==> 0 <= b < n)
    ensures |BucketsOf(t, FirstSeconds(n))| == n
    ensures n > 0 ==> Occurrences(t, FirstSeconds(n), 0) == 1
  {
    if n > 0 {
      SecondsAreBuckets(t, n - 1);
      assert FirstSeconds(n)[..n - 1] == FirstSeconds(n - 1);
      assert Bucket(n - 1, 1) == n - 1;
    }
  }

  lemma SecondsEvict(t: Tolerance, n: nat)
    requires t.interval == 1 && n == MAX_BUCKETS
    ensures Epoch(t, FirstSeconds(n + 1)) == [n]
  {
    var seconds := FirstSeconds(n + 1);
    assert seconds[..n] == FirstSeconds(n) && FirstSeconds(n) + [n] == seconds;
    SecondsAreBuckets(t, n);
    SecondsAreBuckets(t, n + 1);
    FewBucketsOneEpoch(t, FirstSeconds(n));
    EpochStep(t, seconds);
  }

  /** A clock that steps back after a thousand and one seconds has second 0 tolerate more than its limit. */
  lemma SteppingBackToleratesAgain(n: nat)
    requires n == 1000
    ensures var t, times := Tolerance(1, 1), FirstSeconds(n + 1) + [0];
            Tolerated(t, times, n + 1) && Value(Reference(t, times[..n + 1]), Bucket(times[n + 1], 1)) >= t.limit
  {
    var t, times := Tolerance(1, 1), FirstSeconds(n + 1) + [0];
    assert times[..n + 1] == FirstSeconds(n + 1) && Bucket(0, 1) == 0;
    SecondsAreBuckets(t, n + 1);
    SecondsEvict(t, n);
    OneTime(t, n, 0);
    VerdictDiffersIff(t, times, n + 1);
    ReferenceCounts(t, times[..n + 1], 0);
  }
}
