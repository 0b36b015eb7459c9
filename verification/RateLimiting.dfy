// Per-user token buckets: internal/auth/ratelimit.go.
module RateLimiting {
  import opened Common

  // ---------------------------------------------------------------- one bucket

  datatype Bucket = Bucket(tokens: real, maxTokens: real, refillRate: real, lastRefill: real)

  /** Bucket size for a limit of rpm requests per minute: ten seconds' worth, at least ten. */
  function Burst(rpm: int): real {
    if rpm as real / 6.0 < 10.0 then 10.0 else rpm as real / 6.0
  }

  function PerSecond(rpm: int): real {
    rpm as real / 60.0
  }

  function FullBucket(rpm: int, now: real): Bucket {
    Bucket(Burst(rpm), Burst(rpm), PerSecond(rpm), now)
  }

  ghost function Refilled(b: Bucket, now: real): Bucket {
    var t := b.tokens + Credit(b.refillRate, now - b.lastRefill);
    b.(tokens := if t > b.maxTokens then b.maxTokens else t, lastRefill := now)
  }

  ghost predicate Admits(b: Bucket, now: real) {
    Refilled(b, now).tokens >= 1.0
  }

  ghost function Served(b: Bucket, now: real): Bucket {
    var r := Refilled(b, now);
    if r.tokens >= 1.0 then r.(tokens := r.tokens - 1.0) else r
  }

  /** The bucket after the first k of the calls made at the given times. */
  ghost function BucketAt(b: Bucket, times: seq<real>, k: nat): Bucket
    requires k <= |times|
  {
    if k == 0 then b else Served(BucketAt(b, times, k - 1), times[k - 1])
  }

  /** What calls made at the given times are answered. */
  ghost function Decisions(b: Bucket, times: seq<real>): (ds: seq<bool>)
    ensures |ds| == |times|
    decreases times
  {
    if times == [] then [] else [Admits(b, times[0])] + Decisions(Served(b, times[0]), times[1..])
  }

  lemma {:induction false} BucketAtTail(b: Bucket, times: seq<real>, k: nat)
    requires 0 < k <= |times|
    ensures BucketAt(b, times, k) == BucketAt(Served(b, times[0]), times[1..], k - 1)
  {
    if k > 1 {
      BucketAtTail(b, times, k - 1);
    }
  }

  lemma {:induction false} DecisionAt(b: Bucket, times: seq<real>, k: nat)
    requires k < |times|
    ensures Decisions(b, times)[k] == Admits(BucketAt(b, times, k), times[k])
    decreases k
  {
    if k > 0 {
      DecisionAt(Served(b, times[0]), times[1..], k - 1);
      BucketAtTail(b, times, k);
    }
  }

  // ---------------------------------------------------- runs, measured in tokens
  //
  // marks[k] is the number of tokens refilled since the epoch at call k, so that only the
  // bridge to times below multiplies.

  /** Tokens in hand when call k is decided, the bucket having been full before call 0. */
  ghost function Level(cap: real, marks: seq<real>, k: nat): real
    requires k < |marks|
  {
    if k == 0 then cap else
      var last := Level(cap, marks, k - 1);
      var next := last - (if last >= 1.0 then 1.0 else 0.0) + (marks[k] - marks[k - 1]);
      if next > cap then cap else next
  }

  ghost function Verdicts(cap: real, marks: seq<real>): (ds: seq<bool>) {
    seq(|marks|, k requires 0 <= k < |marks| => Level(cap, marks, k) >= 1.0)
  }

  /** What a bucket full at call i would still hold at call k. */
  ghost function Envelope(cap: real, marks: seq<real>, i: nat, k: nat): real
    requires i <= k < |marks|
  {
    cap + (marks[k] - marks[i]) - Count(Verdicts(cap, marks), i, k) as real
  }

  /** The level is the minimum of the envelopes: below every one of them ... */
  lemma {:induction false} LevelBelowEnvelope(cap: real, marks: seq<real>, i: nat, k: nat)
    requires i <= k < |marks|
    ensures Level(cap, marks, k) <= Envelope(cap, marks, i, k)
    decreases k
  {
    if i < k {
      LevelBelowEnvelope(cap, marks, i, k - 1);
    }
  }

  /** ... and equal to one. */
  lemma {:induction false} LevelAttainsEnvelope(cap: real, marks: seq<real>, k: nat) returns (j: nat)
    requires k < |marks|
    ensures j <= k && Level(cap, marks, k) == Envelope(cap, marks, j, k)
  {
    if Level(cap, marks, k) == cap {
      j := k;
    } else {
      j := LevelAttainsEnvelope(cap, marks, k - 1);
    }
  }

  lemma {:induction false} LevelNonnegative(cap: real, marks: seq<real>, k: nat)
    requires 0.0 <= cap && k < |marks| && Nondecreasing(marks)
    ensures Level(cap, marks, k) >= 0.0
  {
    if k > 0 {
      LevelNonnegative(cap, marks, k - 1);
    }
  }

  /** Between calls i and k inclusive, ds accepts no more than cap plus the refill meanwhile. */
  ghost predicate Within(cap: real, marks: seq<real>, ds: seq<bool>) {
    && |ds| == |marks|
    && forall i: nat, k: nat :: i <= k < |marks| ==> Count(ds, i, k + 1) as real <= cap + (marks[k] - marks[i])
  }

  /** If call k is refused, whoever accepts it within the same bounds was strictly behind. */
  lemma RefusalMeansAhead(cap: real, marks: seq<real>, other: seq<bool>, k: nat)
    requires Within(cap, marks, other) && k < |marks|
    requires !Verdicts(cap, marks)[k] && other[k]
    requires forall m: nat :: m <= k ==> Count(other, 0, m) <= Count(Verdicts(cap, marks), 0, m)
    ensures Count(other, 0, k) < Count(Verdicts(cap, marks), 0, k)
  {
    var ds := Verdicts(cap, marks);
    var i := LevelAttainsEnvelope(cap, marks, k);
    CountSplits(ds, 0, i, k);
    CountSplits(other, 0, i, k);
    assert Count(other, i, k + 1) == Count(other, i, k) + 1;
  }

  lemma {:induction false} VerdictsLead(cap: real, marks: seq<real>, other: seq<bool>, n: nat)
    requires Within(cap, marks, other) && n <= |marks|
    ensures forall m: nat :: m <= n ==> Count(other, 0, m) <= Count(Verdicts(cap, marks), 0, m)
  {
    if n > 0 {
      VerdictsLead(cap, marks, other, n - 1);
      if !Verdicts(cap, marks)[n - 1] && other[n - 1] {
        RefusalMeansAhead(cap, marks, other, n - 1);
      }
    }
  }

  // -------------------------------------------------------------- bridge to times

  ghost predicate FullBefore(b: Bucket, times: seq<real>) {
    && b.tokens == b.maxTokens && b.refillRate >= 0.0
    && Nondecreasing(times) && (times != [] ==> b.lastRefill <= times[0])
  }

  ghost function Marks(rate: real, times: seq<real>): (ms: seq<real>) {
    seq(|times|, k requires 0 <= k < |times| => Credit(rate, times[k]))
  }

  lemma MarksApart(rate: real, times: seq<real>, i: nat, k: nat)
    requires i <= k < |times|
    ensures Marks(rate, times)[k] - Marks(rate, times)[i] == Credit(rate, times[k] - times[i])
    ensures rate >= 0.0 && times[i] <= times[k] ==> Marks(rate, times)[i] <= Marks(rate, times)[k]
  {
    var gap := times[k] - times[i];
    CreditAdds(rate, times[i], gap);
    if rate >= 0.0 && gap >= 0.0 {
      CreditNonnegative(rate, gap);
    }
  }

  lemma MarksNondecreasing(rate: real, times: seq<real>)
    requires rate >= 0.0 && Nondecreasing(times)
    ensures Nondecreasing(Marks(rate, times))
  {
    forall i, k | 0 <= i <= k < |times|
      ensures Marks(rate, times)[i] <= Marks(rate, times)[k]
    {
      MarksApart(rate, times, i, k);
    }
  }

  lemma RefillAfterServing(b: Bucket, t: real, later: real)
    ensures var level := Refilled(b, t).tokens;
            var next := level - (if level >= 1.0 then 1.0 else 0.0) + Credit(b.refillRate, later - t);
            Refilled(Served(b, t), later) ==
              b.(tokens := if next > b.maxTokens then b.maxTokens else next, lastRefill := later)
  {
  }

  lemma {:induction false} BucketLevel(b: Bucket, times: seq<real>, k: nat)
    requires FullBefore(b, times) && k < |times|
    ensures Refilled(BucketAt(b, times, k), times[k]) ==
            b.(tokens := Level(b.maxTokens, Marks(b.refillRate, times), k), lastRefill := times[k])
  {
    if k == 0 {
      CreditNonnegative(b.refillRate, times[0] - b.lastRefill);
    } else {
      BucketLevel(b, times, k - 1);
      RefillAfterServing(BucketAt(b, times, k - 1), times[k - 1], times[k]);
      MarksApart(b.refillRate, times, k - 1, k);
    }
  }

  lemma DecisionsAreVerdicts(b: Bucket, times: seq<real>)
    requires FullBefore(b, times)
    ensures Decisions(b, times) == Verdicts(b.maxTokens, Marks(b.refillRate, times))
  {
    forall k | 0 <= k < |times|
      ensures Decisions(b, times)[k] == Verdicts(b.maxTokens, Marks(b.refillRate, times))[k]
    {
      DecisionAt(b, times, k);
      BucketLevel(b, times, k);
    }
  }

  /** Most calls that may be accepted in a closed window of the given length. */
  ghost function Allowance(cap: real, rate: real, elapsed: real): real {
    cap + Credit(rate, elapsed)
  }

  ghost predicate Conforms(cap: real, rate: real, times: seq<real>, ds: seq<bool>) {
    && |ds| == |times|
    && forall i: nat, k: nat :: i <= k < |times| ==>
         Count(ds, i, k + 1) as real <= Allowance(cap, rate, times[k] - times[i])
  }

  lemma ConformsIsWithin(cap: real, rate: real, times: seq<real>, ds: seq<bool>)
    ensures Conforms(cap, rate, times, ds) <==> Within(cap, Marks(rate, times), ds)
  {
    forall i: nat, k: nat | i <= k < |times|
      ensures Allowance(cap, rate, times[k] - times[i]) == cap + (Marks(rate, times)[k] - Marks(rate, times)[i])
    {
      MarksApart(rate, times, i, k);
    }
  }

  /** A call gets its verdict from the windows that end with it. */
  lemma VerdictIff(cap: real, rate: real, times: seq<real>, k: nat)
    requires k < |times|
    ensures var ds := Verdicts(cap, Marks(rate, times));
            ds[k] <==> forall i: nat :: i <= k ==>
              (Count(ds, i, k) + 1) as real <= Allowance(cap, rate, times[k] - times[i])
  {
    var marks := Marks(rate, times);
    forall i: nat | i <= k
      ensures Level(cap, marks, k) <=
              Allowance(cap, rate, times[k] - times[i]) - Count(Verdicts(cap, marks), i, k) as real
    {
      LevelBelowEnvelope(cap, marks, i, k);
      MarksApart(rate, times, i, k);
    }
    var j := LevelAttainsEnvelope(cap, marks, k);
    MarksApart(rate, times, j, k);
  }

  lemma OnePerPeriod(rpm: int, t: real, later: real)
    requires rpm > 0 && later - t >= 60.0 / rpm as real
    ensures Credit(PerSecond(rpm), later - t) >= 1.0
  {
    var d, rate := later - t, PerSecond(rpm);
    CreditIsProduct(rate, d);
    assert 60.0 / rpm as real * rate == 1.0;
    assert (d - 60.0 / rpm as real) * rate >= 0.0;
  }

  // --------------------------------------------------------------- main theorems

  /** A user whose limit was set to rpm at time t0, calling at the given times afterwards. */
  ghost predicate Calls(rpm: int, t0: real, times: seq<real>) {
    rpm >= 0 && Nondecreasing(times) && (times != [] ==> t0 <= times[0])
  }

  /** Call k is accepted exactly when accepting it keeps every window that ends with it in bounds. */
  lemma AcceptedIff(rpm: int, t0: real, times: seq<real>, k: nat)
    requires Calls(rpm, t0, times) && k < |times|
    ensures var ds := Decisions(FullBucket(rpm, t0), times);
            ds[k] <==> forall i: nat :: i <= k ==>
              (Count(ds, i, k) + 1) as real <= Allowance(Burst(rpm), PerSecond(rpm), times[k] - times[i])
  {
    DecisionsAreVerdicts(FullBucket(rpm, t0), times);
    VerdictIff(Burst(rpm), PerSecond(rpm), times, k);
  }

  lemma RunConforms(rpm: int, t0: real, times: seq<real>)
    requires Calls(rpm, t0, times)
    ensures Conforms(Burst(rpm), PerSecond(rpm), times, Decisions(FullBucket(rpm, t0), times))
  {
    DecisionsAreVerdicts(FullBucket(rpm, t0), times);
    var cap, marks := Burst(rpm), Marks(PerSecond(rpm), times);
    MarksNondecreasing(PerSecond(rpm), times);
    forall i: nat, k: nat | i <= k < |times|
      ensures Count(Verdicts(cap, marks), i, k + 1) as real <= cap + (marks[k] - marks[i])
    {
      LevelBelowEnvelope(cap, marks, i, k);
      LevelNonnegative(cap, marks, k);
    }
    ConformsIsWithin(cap, PerSecond(rpm), times, Verdicts(cap, marks));
  }

  /** No conforming choice of decisions has accepted more calls after any prefix of the run. */
  lemma GreedyIsOptimal(rpm: int, t0: real, times: seq<real>, other: seq<bool>, n: nat)
    requires Calls(rpm, t0, times) && Conforms(Burst(rpm), PerSecond(rpm), times, other) && n <= |times|
    ensures Count(other, 0, n) <= Count(Decisions(FullBucket(rpm, t0), times), 0, n)
  {
    DecisionsAreVerdicts(FullBucket(rpm, t0), times);
    ConformsIsWithin(Burst(rpm), PerSecond(rpm), times, other);
    VerdictsLead(Burst(rpm), Marks(PerSecond(rpm), times), other, n);
  }

  lemma {:induction false} PacedLevel(cap: real, marks: seq<real>, k: nat)
    requires cap >= 1.0 && k < |marks|
    requires forall i :: 0 < i < |marks| ==> marks[i] - marks[i - 1] >= 1.0
    ensures Level(cap, marks, k) >= 1.0
  {
    if k > 0 {
      PacedLevel(cap, marks, k - 1);
    }
  }

  lemma PacedMarks(rpm: int, times: seq<real>, i: nat)
    requires rpm > 0 && 0 < i < |times| && times[i] - times[i - 1] >= 60.0 / rpm as real
    ensures Marks(PerSecond(rpm), times)[i] - Marks(PerSecond(rpm), times)[i - 1] >= 1.0
  {
    OnePerPeriod(rpm, times[i - 1], times[i]);
    MarksApart(PerSecond(rpm), times, i - 1, i);
  }

  /** A client whose calls are at least 60/rpm seconds apart is never refused. */
  lemma PacedClientNeverRefused(rpm: int, t0: real, times: seq<real>)
    requires rpm > 0 && Calls(rpm, t0, times)
    requires forall i :: 0 < i < |times| ==> times[i] - times[i - 1] >= 60.0 / rpm as real
    ensures forall k :: 0 <= k < |times| ==> Decisions(FullBucket(rpm, t0), times)[k]
  {
    DecisionsAreVerdicts(FullBucket(rpm, t0), times);
    var marks := Marks(PerSecond(rpm), times);
    forall i | 0 < i < |times|
      ensures marks[i] - marks[i - 1] >= 1.0
    {
      PacedMarks(rpm, times, i);
    }
    forall k | 0 <= k < |times|
      ensures Verdicts(Burst(rpm), marks)[k]
    {
      PacedLevel(Burst(rpm), marks, k);
    }
  }

  lemma {:induction false} InstantLevel(cap: real, marks: seq<real>, k: nat)
    requires k < |marks| && forall i :: 0 <= i < |marks| ==> marks[i] == marks[0]
    requires cap >= 1.0
    ensures k as real <= cap ==> Level(cap, marks, k) == cap - k as real
    ensures k as real > cap ==> Level(cap, marks, k) < 1.0
  {
    if k > 0 {
      InstantLevel(cap, marks, k - 1);
    }
  }

  lemma MarksEqual(rate: real, times: seq<real>)
    requires forall i :: 0 <= i < |times| ==> times[i] == times[0]
    ensures forall i :: 0 <= i < |times| ==> Marks(rate, times)[i] == Marks(rate, times)[0]
  {
  }

  /** Of a burst of simultaneous calls exactly the first ten get through, or the first sixth of rpm if that
      is more. */
  lemma InstantBurst(rpm: int, t0: real, times: seq<real>, k: nat)
    requires Calls(rpm, t0, times) && k < |times|
    requires forall i :: 0 <= i < |times| ==> times[i] == times[0]
    ensures Decisions(FullBucket(rpm, t0), times)[k] <==> k + 1 <= 10 || 6 * (k + 1) <= rpm
  {
    DecisionsAreVerdicts(FullBucket(rpm, t0), times);
    var marks := Marks(PerSecond(rpm), times);
    MarksEqual(PerSecond(rpm), times);
    InstantLevel(Burst(rpm), marks, k);
  }

  // ---------------------------------------------------------------- one minute of it

  /** The calls i to k of a run lie within a closed minute. */
  ghost predicate Minute(rpm: int, t0: real, times: seq<real>, i: nat, k: nat) {
    Calls(rpm, t0, times) && i <= k < |times| && times[k] - times[i] <= 60.0
  }

  ghost function MinuteLimit(rpm: int): int {
    Burst(rpm).Floor + rpm
  }

  lemma MinuteLimitIs(rpm: int)
    requires rpm >= 1
    ensures MinuteLimit(rpm) == rpm + if rpm < 60 then 10 else rpm / 6
  {
    if rpm >= 60 {
      var sixths := rpm % 6;
      assert rpm as real / 6.0 == (rpm / 6) as real + sixths as real / 6.0;
    }
  }

  lemma CreditOfMinute(rpm: int, elapsed: real)
    requires rpm >= 0 && elapsed <= 60.0
    ensures Credit(PerSecond(rpm), elapsed) <= rpm as real
  {
    CreditIsProduct(PerSecond(rpm), elapsed);
    assert (60.0 - elapsed) * PerSecond(rpm) >= 0.0;
  }

  lemma MinuteBound(rpm: int, t0: real, times: seq<real>, i: nat, k: nat)
    requires Minute(rpm, t0, times, i, k)
    ensures Count(Decisions(FullBucket(rpm, t0), times), i, k + 1) <= MinuteLimit(rpm)
  {
    RunConforms(rpm, t0, times);
    CreditOfMinute(rpm, times[k] - times[i]);
    var n := Count(Decisions(FullBucket(rpm, t0), times), i, k + 1);
    assert n as real <= Allowance(Burst(rpm), PerSecond(rpm), times[k] - times[i]) <= Burst(rpm) + rpm as real;
  }

  lemma {:induction false} BurstThenPaced(cap: real, marks: seq<real>, n: nat, k: nat)
    requires cap >= 1.0 && n == cap.Floor && k < |marks|
    requires forall i :: 0 < i < |marks| ==> marks[i] - marks[i - 1] == if i < n then 0.0 else 1.0
    ensures Level(cap, marks, k) == if k < n then cap - k as real else cap - n as real + 1.0
  {
    if k > 0 {
      BurstThenPaced(cap, marks, n, k - 1);
    }
  }

  /** A full bucket's burst at once, then a call each time a token is back, for a minute. */
  ghost function BusyMinute(rpm: int, t0: real): seq<real>
    requires rpm >= 1
  {
    var n := Burst(rpm).Floor;
    seq(n + rpm, j => if j < n then t0 else t0 + 60.0 * (j - n + 1) as real / rpm as real)
  }

  lemma OneTokenBack(rpm: int, t: real, j: int)
    requires rpm >= 1
    ensures var later := t + 60.0 * (j + 1) as real / rpm as real;
            Credit(PerSecond(rpm), later - (t + 60.0 * j as real / rpm as real)) == 1.0
  {
    var r := rpm as real;
    var d := t + 60.0 * (j + 1) as real / r - (t + 60.0 * j as real / r);
    CreditIsProduct(PerSecond(rpm), d);
    assert d == 60.0 / r by {
      assert 60.0 * (j + 1) as real / r == (60.0 * j as real + 60.0) / r == 60.0 * j as real / r + 60.0 / r;
    }
    assert 60.0 / r * (r / 60.0) == 1.0;
  }

  lemma BusyGap(rpm: int, t0: real, i: nat)
    requires rpm >= 1 && 0 < i < |BusyMinute(rpm, t0)|
    ensures var times := BusyMinute(rpm, t0);
            && times[i - 1] <= times[i]
            && Marks(PerSecond(rpm), times)[i] - Marks(PerSecond(rpm), times)[i - 1]
               == if i < Burst(rpm).Floor then 0.0 else 1.0
  {
    var times, n := BusyMinute(rpm, t0), Burst(rpm).Floor;
    MarksApart(PerSecond(rpm), times, i - 1, i);
    if i < n {
      CreditIsProduct(PerSecond(rpm), 0.0);
    } else {
      assert 60.0 * 0 as real / rpm as real == 0.0;
      OneTokenBack(rpm, t0, i - n);
      CreditIsProduct(PerSecond(rpm), times[i] - times[i - 1]);
      assert times[i] - times[i - 1] > 0.0;
    }
  }

  lemma {:induction false} CountAll(ds: seq<bool>, n: nat)
    requires n <= |ds| && forall i :: 0 <= i < n ==> ds[i]
    ensures Count(ds, 0, n) == n
  {
    if n > 0 {
      CountAll(ds, n - 1);
    }
  }

  lemma {:induction false} BusyOrdered(rpm: int, t0: real, i: nat, k: nat)
    requires rpm >= 1 && i <= k < |BusyMinute(rpm, t0)|
    ensures BusyMinute(rpm, t0)[i] <= BusyMinute(rpm, t0)[k]
    decreases k
  {
    if i < k {
      BusyOrdered(rpm, t0, i, k - 1);
      BusyGap(rpm, t0, k);
    }
  }

  lemma BusyMinuteIsFull(rpm: int, t0: real)
    requires rpm >= 1
    ensures var times := BusyMinute(rpm, t0);
            && Minute(rpm, t0, times, 0, |times| - 1) && |times| == MinuteLimit(rpm)
            && Count(Decisions(FullBucket(rpm, t0), times), 0, |times|) == MinuteLimit(rpm)
  {
    var times, n := BusyMinute(rpm, t0), Burst(rpm).Floor;
    forall i, k | 0 <= i <= k < |times|
      ensures times[i] <= times[k]
    {
      BusyOrdered(rpm, t0, i, k);
    }
    assert times[|times| - 1] == t0 + 60.0 * rpm as real / rpm as real;
    var marks := Marks(PerSecond(rpm), times);
    forall i | 0 < i < |marks|
      ensures marks[i] - marks[i - 1] == if i < n then 0.0 else 1.0
    {
      BusyGap(rpm, t0, i);
    }
    BusyDecisions(rpm, t0, times, marks, n);
    CountAll(Decisions(FullBucket(rpm, t0), times), |times|);
  }

  lemma BusyDecisions(rpm: int, t0: real, times: seq<real>, marks: seq<real>, n: nat)
    requires Calls(rpm, t0, times) && marks == Marks(PerSecond(rpm), times) && n == Burst(rpm).Floor
    requires forall i :: 0 < i < |marks| ==> marks[i] - marks[i - 1] == if i < n then 0.0 else 1.0
    ensures forall k :: 0 <= k < |times| ==> Decisions(FullBucket(rpm, t0), times)[k]
  {
    DecisionsAreVerdicts(FullBucket(rpm, t0), times);
    forall k | 0 <= k < |times|
      ensures Verdicts(Burst(rpm), marks)[k]
    {
      BurstThenPaced(Burst(rpm), marks, n, k);
    }
  }

  /** What a limit means for a minute: a number bounds the calls accepted in every closed minute of
      every run exactly if it is at least rpm and a burst, ten or a sixth of rpm, rounded down. The
      number rpm itself never is. */
  lemma MinuteHoldsIff(rpm: int, t0: real, n: int)
    requires rpm >= 1
    ensures (forall times, i: nat, k: nat :: Minute(rpm, t0, times, i, k) ==>
               Count(Decisions(FullBucket(rpm, t0), times), i, k + 1) <= n)
            <==> n >= rpm + (if rpm < 60 then 10 else rpm / 6)
  {
    MinuteLimitIs(rpm);
    forall times, i: nat, k: nat | Minute(rpm, t0, times, i, k)
      ensures Count(Decisions(FullBucket(rpm, t0), times), i, k + 1) <= MinuteLimit(rpm)
    {
      MinuteBound(rpm, t0, times, i, k);
    }
    BusyMinuteIsFull(rpm, t0);
    var times := BusyMinute(rpm, t0);
    assert Minute(rpm, t0, times, 0, |times| - 1);
  }

  // ------------------------------------------------------------ all users together

  datatype Event = SetLimit(user: string, rpm: int, at: real) | Allow(user: string, at: real)

  ghost function After(m: map<string, Bucket>, e: Event): map<string, Bucket> {
    match e
    case SetLimit(u, rpm, at) => m[u := FullBucket(rpm, at)]
    case Allow(u, at) => if u in m then m[u := Served(m[u], at)] else m
  }

  ghost predicate Answer(m: map<string, Bucket>, user: string, at: real) {
    user in m ==> Admits(m[user], at)
  }

  /** What the user's own calls are answered in a history shared with everybody else. */
  ghost function Answers(m: map<string, Bucket>, es: seq<Event>, user: string): (answers: seq<bool>)
    decreases es
  {
    if es == [] then []
    else (if es[0].Allow? && es[0].user == user then [Answer(m, user, es[0].at)] else [])
         + Answers(After(m, es[0]), es[1..], user)
  }

  ghost function CallTimes(es: seq<Event>, user: string): (times: seq<real>) {
    if es == [] then []
    else (if es[0].Allow? && es[0].user == user then [es[0].at] else []) + CallTimes(es[1..], user)
  }

  ghost predicate LimitUntouched(es: seq<Event>, user: string) {
    forall e :: e in es && e.SetLimit? ==> e.user != user
  }

  lemma OwnCall(b: Bucket, at: real, times: seq<real>)
    ensures Decisions(b, [at] + times) == [Admits(b, at)] + Decisions(Served(b, at), times)
  {
    assert ([at] + times)[1..] == times;
  }

  lemma AfterForUser(m: map<string, Bucket>, e: Event, user: string)
    requires user in m && (e.SetLimit? ==> e.user != user)
    ensures user in After(m, e)
    ensures After(m, e)[user] == if e.Allow? && e.user == user then Served(m[user], e.at) else m[user]
  {
  }

  /** Other users' calls, wherever they fall, never change what a user is answered. */
  lemma {:induction false} UsersAreIndependent(m: map<string, Bucket>, es: seq<Event>, user: string)
    requires LimitUntouched(es, user) && user in m
    ensures Answers(m, es, user) == Decisions(m[user], CallTimes(es, user))
    decreases es
  {
    if es != [] {
      var e, rest, b := es[0], es[1..], m[user];
      var next := After(m, e);
      assert e in es;
      AfterForUser(m, e, user);
      UsersAreIndependent(next, rest, user);
      if e.Allow? && e.user == user {
        OwnCall(b, e.at, CallTimes(rest, user));
        assert CallTimes(es, user) == [e.at] + CallTimes(rest, user);
        assert Answers(m, es, user) == [Admits(b, e.at)] + Answers(next, rest, user);
      } else {
        assert CallTimes(es, user) == CallTimes(rest, user);
        assert Answers(m, es, user) == Answers(next, rest, user);
      }
    }
  }

  /** A user who never had a limit set is never refused. */
  lemma {:induction false} UnlimitedUser(m: map<string, Bucket>, es: seq<Event>, user: string)
    requires LimitUntouched(es, user) && user !in m
    ensures forall answer :: answer in Answers(m, es, user) ==> answer
    decreases es
  {
    if es != [] {
      UnlimitedUser(After(m, es[0]), es[1..], user);
    }
  }

  lemma AnswersFromSetLimit(m: map<string, Bucket>, user: string, rpm: int, t0: real, es: seq<Event>)
    requires LimitUntouched(es, user)
    ensures Answers(m, [SetLimit(user, rpm, t0)] + es, user) ==
            Decisions(FullBucket(rpm, t0), CallTimes(es, user))
  {
    var all := [SetLimit(user, rpm, t0)] + es;
    assert all[1..] == es;
    UsersAreIndependent(After(m, all[0]), es, user);
  }

  /** From SetLimit on, a user's answers keep every window in bounds and nothing keeps more. */
  lemma LimitEnforcedInHistory(m: map<string, Bucket>, user: string, rpm: int, t0: real, es: seq<Event>,
                               other: seq<bool>, n: nat)
    requires LimitUntouched(es, user) && Calls(rpm, t0, CallTimes(es, user))
    requires Conforms(Burst(rpm), PerSecond(rpm), CallTimes(es, user), other) && n <= |other|
    ensures var answers := Answers(m, [SetLimit(user, rpm, t0)] + es, user);
            && Conforms(Burst(rpm), PerSecond(rpm), CallTimes(es, user), answers)
            && Count(other, 0, n) <= Count(answers, 0, n)
  {
    AnswersFromSetLimit(m, user, rpm, t0, es);
    RunConforms(rpm, t0, CallTimes(es, user));
    GreedyIsOptimal(rpm, t0, CallTimes(es, user), other, n);
  }

  // ------------------------------------------------------------- limits set again

  ghost function AfterAll(m: map<string, Bucket>, es: seq<Event>): map<string, Bucket>
    decreases es
  {
    if es == [] then m else AfterAll(After(m, es[0]), es[1..])
  }

  /** How many of the user's own calls are accepted, and how often its limit is set. */
  ghost function AcceptedIn(m: map<string, Bucket>, es: seq<Event>, user: string): nat
    decreases es
  {
    if es == [] then 0
    else (if es[0].Allow? && es[0].user == user && Answer(m, user, es[0].at) then 1 else 0)
         + AcceptedIn(After(m, es[0]), es[1..], user)
  }

  ghost function Resets(es: seq<Event>, user: string): nat {
    if es == [] then 0
    else (if es[0].SetLimit? && es[0].user == user then 1 else 0) + Resets(es[1..], user)
  }

  ghost predicate InTime(es: seq<Event>, start: real) {
    es == [] || (start <= es[0].at && InTime(es[1..], es[0].at))
  }

  ghost function End(es: seq<Event>, start: real): real {
    if es == [] then start else End(es[1..], es[0].at)
  }

  /** No limit of the user is above the given one. */
  ghost predicate AtMost(es: seq<Event>, user: string, most: int) {
    forall e :: e in es && e.SetLimit? && e.user == user ==> 0 <= e.rpm <= most
  }

  ghost predicate Sane(m: map<string, Bucket>, user: string, most: int, now: real) {
    && user in m && m[user].lastRefill <= now
    && 0.0 <= m[user].tokens <= m[user].maxTokens <= Burst(most)
    && 0.0 <= m[user].refillRate <= PerSecond(most)
  }

  /** n bursts of the given limit. */
  ghost function Bursts(most: int, n: nat): real {
    if n == 0 then 0.0 else Bursts(most, n - 1) + Burst(most)
  }

  lemma RefillEarns(b: Bucket, start: real, t: real, most: int)
    requires b.lastRefill <= start <= t && 0.0 <= b.refillRate <= PerSecond(most)
    ensures Refilled(b, t).tokens <= Refilled(b, start).tokens + Credit(PerSecond(most), t - start)
  {
    CreditAdds(b.refillRate, start - b.lastRefill, t - start);
    assert start - b.lastRefill + (t - start) == t - b.lastRefill;
    CreditNonnegative(b.refillRate, t - start);
    CreditGrows(b.refillRate, PerSecond(most), t - start);
  }

  lemma RefillNow(b: Bucket)
    requires b.tokens <= b.maxTokens
    ensures Refilled(b, b.lastRefill) == b
  {
    CreditIsProduct(b.refillRate, 0.0);
  }

  lemma SaneStep(m: map<string, Bucket>, e: Event, user: string, most: int, start: real)
    requires Sane(m, user, most, start) && start <= e.at && AtMost([e], user, most)
    ensures Sane(After(m, e), user, most, e.at)
    ensures var accepted := if e.Allow? && e.user == user && Answer(m, user, e.at) then 1.0 else 0.0;
            var reset := if e.SetLimit? && e.user == user then Burst(most) else 0.0;
            accepted + Refilled(After(m, e)[user], e.at).tokens <=
            Refilled(m[user], start).tokens + reset + Credit(PerSecond(most), e.at - start)
  {
    var b := m[user];
    assert e in [e];
    CreditNonnegative(b.refillRate, e.at - b.lastRefill);
    CreditNonnegative(b.refillRate, start - b.lastRefill);
    CreditNonnegative(PerSecond(most), e.at - start);
    RefillEarns(b, start, e.at, most);
    if e.user == user {
      RefillNow(After(m, e)[user]);
    }
  }

  lemma {:induction false} WindowWithResets(m: map<string, Bucket>, es: seq<Event>, user: string, most: int,
                                            start: real)
    requires Sane(m, user, most, start) && InTime(es, start) && AtMost(es, user, most)
    ensures AcceptedIn(m, es, user) as real <=
            Refilled(m[user], start).tokens + Bursts(most, Resets(es, user))
            + Credit(PerSecond(most), End(es, start) - start)
    ensures Sane(AfterAll(m, es), user, most, End(es, start)) && start <= End(es, start)
    decreases es
  {
    if es == [] {
      CreditIsProduct(PerSecond(most), 0.0);
      CreditNonnegative(m[user].refillRate, start - m[user].lastRefill);
    } else {
      var e, rest := es[0], es[1..];
      assert e in es && forall x :: x in rest ==> x in es;
      SaneStep(m, e, user, most, start);
      WindowWithResets(After(m, e), rest, user, most, e.at);
      CreditAdds(PerSecond(most), e.at - start, End(rest, e.at) - e.at);
      assert e.at - start + (End(rest, e.at) - e.at) == End(rest, e.at) - start;
    }
  }

  /** However often the limit is set again, to whatever up to most: once it has been set, every window
      accepts at most one burst for itself, one more for each setting inside it, and the refill. */
  lemma EachResetAddsABurst(m: map<string, Bucket>, user: string, rpm: int, t0: real,
                            before: seq<Event>, window: seq<Event>, start: real, most: int)
    requires 0 <= rpm <= most && InTime(before, t0) && End(before, t0) <= start && InTime(window, start)
    requires AtMost(before, user, most) && AtMost(window, user, most)
    ensures var at := AfterAll(After(m, SetLimit(user, rpm, t0)), before);
            AcceptedIn(at, window, user) as real <=
            Bursts(most, Resets(window, user) + 1) + Credit(PerSecond(most), End(window, start) - start)
  {
    var m1 := After(m, SetLimit(user, rpm, t0));
    WindowWithResets(m1, before, user, most, t0);
    var at := AfterAll(m1, before);
    WindowWithResets(at, window, user, most, start);
    assert Refilled(at[user], start).tokens <= Burst(most);
  }

  ghost function CallsAtOnce(user: string, t: real, n: nat): seq<Event> {
    if n == 0 then [] else [Allow(user, t)] + CallsAtOnce(user, t, n - 1)
  }

  /** A burst of calls, and n times the limit set again and another burst, all at time t. */
  ghost function BurstsAtOnce(user: string, rpm: int, t: real, n: nat): seq<Event> {
    CallsAtOnce(user, t, Burst(rpm).Floor)
    + if n == 0 then [] else [SetLimit(user, rpm, t)] + BurstsAtOnce(user, rpm, t, n - 1)
  }

  /** Calls covered by the tokens in hand are all accepted, before whatever follows. */
  lemma {:induction false} SpendTokens(m: map<string, Bucket>, user: string, t: real, n: nat, rest: seq<Event>)
    returns (m': map<string, Bucket>)
    requires user in m && m[user].lastRefill == t && n as real <= m[user].tokens <= m[user].maxTokens
    ensures AcceptedIn(m, CallsAtOnce(user, t, n) + rest, user) == n + AcceptedIn(m', rest, user)
    ensures Resets(CallsAtOnce(user, t, n) + rest, user) == Resets(rest, user)
    ensures InTime(rest, t) ==> InTime(CallsAtOnce(user, t, n) + rest, t)
    ensures End(CallsAtOnce(user, t, n) + rest, t) == End(rest, t)
    decreases n
  {
    var es := CallsAtOnce(user, t, n) + rest;
    if n == 0 {
      m' := m;
      assert es == rest;
    } else {
      RefillNow(m[user]);
      assert es[0] == Allow(user, t) && es[1..] == CallsAtOnce(user, t, n - 1) + rest;
      m' := SpendTokens(After(m, es[0]), user, t, n - 1, rest);
    }
  }

  /** EachResetAddsABurst is met up to the fractions of tokens: for every limit and n, n settings within
      an instant let (n + 1) * floor(Burst) calls through. */
  lemma {:induction false} ResetsAreMet(m: map<string, Bucket>, user: string, rpm: int, t: real, n: nat)
    requires rpm >= 0 && user in m && m[user] == FullBucket(rpm, t)
    ensures var es := BurstsAtOnce(user, rpm, t, n);
            && AcceptedIn(m, es, user) == (n + 1) * Burst(rpm).Floor && Resets(es, user) == n
            && InTime(es, t) && End(es, t) == t
    decreases n
  {
    var rest := if n == 0 then [] else [SetLimit(user, rpm, t)] + BurstsAtOnce(user, rpm, t, n - 1);
    var m' := SpendTokens(m, user, t, Burst(rpm).Floor, rest);
    if n > 0 {
      ResetsAreMet(After(m', rest[0]), user, rpm, t, n - 1);
      assert rest[1..] == BurstsAtOnce(user, rpm, t, n - 1);
      assert (n + 1) * Burst(rpm).Floor == Burst(rpm).Floor + n * Burst(rpm).Floor;
    }
  }

  // ------------------------------------------------------------------ the classes

  class TokenBucket {
    var tokens: real
    const maxTokens: real
    const refillRate: real
    var lastRefill: real

    ghost function View(): Bucket
      reads this
    {
      Bucket(tokens, maxTokens, refillRate, lastRefill)
    }

    constructor (maxTokens: real, refillRate: real, now: real)
      ensures View() == Bucket(maxTokens, maxTokens, refillRate, now)
    {
      this.tokens, this.maxTokens, this.refillRate, this.lastRefill := maxTokens, maxTokens, refillRate, now;
    }
  }

  class RateLimiter {
    var buckets: map<string, TokenBucket>
    var limits: map<string, int>

    /** No two users share a bucket object. */
    ghost predicate Valid()
      reads this
    {
      forall u, v :: u in buckets && v in buckets && u != v ==> buckets[u] != buckets[v]
    }

    ghost function View(): map<string, Bucket>
      reads this, buckets.Values
    {
      map u | u in buckets :: buckets[u].View()
    }

    constructor ()
      ensures Valid() && View() == map[] && fresh(buckets.Values)
    {
      buckets, limits := map[], map[];
    }

    twostate lemma BucketReplaced(username: string, new bucket: TokenBucket)
      requires old(Valid()) && buckets == old(buckets)[username := bucket] && fresh(bucket)
      requires forall u :: u in old(buckets) ==> unchanged(old(buckets)[u])
      ensures Valid() && View() == old(View())[username := bucket.View()]
    {
    }

    method SetLimit(username: string, rpm: int, now: real)
      requires Valid()
      modifies this
      ensures Valid() && fresh(buckets.Values - old(buckets.Values))
      ensures View() == After(old(View()), Event.SetLimit(username, rpm, now))
      ensures limits == old(limits)[username := rpm]
    {
      limits := limits[username := rpm];
      var maxTokens := rpm as real / 6.0;
      if maxTokens < 10.0 {
        maxTokens := 10.0;
      }
      var bucket := new TokenBucket(maxTokens, rpm as real / 60.0, now);
      assert bucket.View() == FullBucket(rpm, now);
      buckets := buckets[username := bucket];
      BucketReplaced(username, bucket);
    }

    twostate lemma OneBucketChanged(username: string)
      requires old(Valid()) && username in buckets && buckets == old(buckets)
      requires forall u :: u in buckets && u != username ==> unchanged(buckets[u])
      ensures View() == old(View())[username := buckets[username].View()]
    {
    }

    method Allow(username: string, now: real) returns (ok: bool)
      requires Valid()
      modifies if username in buckets then {buckets[username]} else {}
      ensures View() == After(old(View()), Event.Allow(username, now))
      ensures ok == Answer(old(View()), username, now)
    {
      if username !in buckets {
        return true;
      }
      var bucket := buckets[username];
      var elapsed := now - bucket.lastRefill;
      CreditIsProduct(bucket.refillRate, elapsed);
      bucket.tokens := bucket.tokens + elapsed * bucket.refillRate;
      if bucket.tokens > bucket.maxTokens {
        bucket.tokens := bucket.maxTokens;
      }
      bucket.lastRefill := now;
      assert bucket.View() == Refilled(old(bucket.View()), now);
      ok := bucket.tokens >= 1.0;
      if ok {
        bucket.tokens := bucket.tokens - 1.0;
      }
      assert bucket.View() == Served(old(bucket.View()), now);
      OneBucketChanged(username);
    }

    method GetRemainingTokens(username: string) returns (tokens: real)
      ensures tokens == if username in View() then View()[username].tokens else -1.0
    {
      tokens := if username in buckets then buckets[username].tokens else -1.0;
    }
  }
}
