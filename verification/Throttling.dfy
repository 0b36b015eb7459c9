// The shared token bucket of a throttled connection: internal/bandwidth/throttle.go.
module Throttling {
  import opened Common

  /** The bucket behind the mutex. It may go into debt. */
  datatype Bucket = Bucket(tokens: real, maxTokens: real, refillRate: real, lastRefill: real) {
    ghost function Refill(now: real): Bucket {
      var t := tokens + Credit(refillRate, now - lastRefill);
      this.(tokens := if t > maxTokens then maxTokens else t, lastRefill := now)
    }

    function Consume(n: int): Bucket {
      this.(tokens := tokens - n as real)
    }

    /** What NewThrottledConn makes: a positive rate and room for a second of it. */
    ghost predicate Sane() {
      refillRate >= 131072.0 && maxTokens == refillRate && tokens <= maxTokens
    }
  }

  function BytesPerSecond(speedMbps: int): real {
    speedMbps as real * 1024.0 * 1024.0 / 8.0
  }

  function NewBucket(speedMbps: int, now: real): (b: Bucket)
    requires speedMbps > 0
    ensures b.Sane()
  {
    Bucket(BytesPerSecond(speedMbps), BytesPerSecond(speedMbps), BytesPerSecond(speedMbps), now)
  }

  /** Refilling twice is refilling once, at the later time. */
  lemma RefillsCompose(b: Bucket, t1: real, t2: real)
    requires b.Sane() && t1 <= t2
    ensures b.Refill(t1).Refill(t2) == b.Refill(t2)
  {
    CreditAdds(b.refillRate, t1 - b.lastRefill, t2 - t1);
    CreditNonnegative(b.refillRate, t2 - t1);
  }

  /** Time only adds tokens. */
  lemma RefillGrows(b: Bucket, t1: real, t2: real)
    requires b.Sane() && t1 <= t2
    ensures b.Refill(t1).tokens <= b.Refill(t2).tokens
  {
    CreditAdds(b.refillRate, t1 - b.lastRefill, t2 - t1);
    CreditNonnegative(b.refillRate, t2 - t1);
  }

  // -------------------------------------------------------- one call, by itself

  /** The time, and by how much all sleeps so far took longer than they were asked to. */
  class Clock {
    var now: real
    ghost var overslept: real

    constructor (start: real)
      ensures now == start && overslept == 0.0
    {
      now, overslept := start, 0.0;
    }

    /** Sleeping takes at least the requested time. */
    method Sleep(d: real)
      requires d >= 0.0
      modifies this
      ensures overslept >= old(overslept) && now == old(now) + d + (overslept - old(overslept))
    {
      var late: real := *;
      if late < 0.0 {
        late := 0.0;
      }
      now, overslept := now + d + late, overslept + late;
    }
  }

  function Deficit(needed: nat, t: real): real {
    if needed as real - t < 1.0 then 1.0 else needed as real - t
  }

  /** How long a call that finds t < 1 tokens sleeps before it looks again. */
  function Nap(needed: nat, t: real, rate: real): real
    requires rate > 0.0
  {
    var wait := Deficit(needed, t) / rate;
    var atLeast := if wait < 0.001 then 0.001 else wait;
    if atLeast > 0.1 then 0.1 else atLeast
  }

  /** A nap lasts between a millisecond and a tenth of a second. Within that it is the time in which the
      deficit is earned, the larger of one token and what is missing for the buffer. */
  lemma NapBounds(needed: nat, t: real, rate: real, nap: real)
    requires rate > 0.0 && t < 1.0 && nap == Nap(needed, t, rate)
    ensures 0.001 <= nap <= 0.1
    ensures nap > 0.001 ==> Credit(rate, nap) <= 1.0 || Credit(rate, nap) <= needed as real - t
    ensures nap < 0.1 ==> Credit(rate, nap) >= 1.0 && Credit(rate, nap) >= needed as real - t
  {
    var wait := Deficit(needed, t) / rate;
    CreditIsProduct(rate, wait);
    assert wait * rate == Deficit(needed, t);
    if nap >= wait {
      CreditAdds(rate, wait, nap - wait);
      CreditNonnegative(rate, nap - wait);
    } else {
      CreditAdds(rate, nap, wait - nap);
      CreditNonnegative(rate, wait - nap);
    }
  }

  /** A wait that began at the first time ended no more than a tenth of a second after any later
      instant at which the bucket it found, refilled, holds a token; sleeping late comes on top. */
  ghost predicate EndsInTime(found: Bucket, began: real, ended: real, late: real) {
    forall t :: t >= began && found.Refill(t).tokens >= 1.0 ==> ended <= t + 0.1 + late
  }

  lemma TokenArrives(b: Bucket, now: real)
    requires b.Sane() && b.Refill(now).tokens < 1.0
    ensures b.Refill(now + (1.0 - b.Refill(now).tokens) / b.refillRate).tokens >= 1.0
  {
    var d := (1.0 - b.Refill(now).tokens) / b.refillRate;
    CreditIsProduct(b.refillRate, d);
    assert d * b.refillRate == 1.0 - b.Refill(now).tokens;
    assert d > 0.0;
    CreditAdds(b.refillRate, now - b.lastRefill, d);
  }

  /** That instant comes when the missing part of a token has been earned, so the wait is bounded. */
  lemma WaitIsBounded(b: Bucket, began: real, ended: real, late: real)
    requires b.Sane() && b.Refill(began).tokens < 1.0 && EndsInTime(b, began, ended, late)
    ensures ended <= began + (1.0 - b.Refill(began).tokens) / b.refillRate + 0.1 + late
  {
    TokenArrives(b, began);
    assert (1.0 - b.Refill(began).tokens) / b.refillRate > 0.0;
  }

  /** A nap taken with less than a token in hand ends in time. */
  lemma NapEndsInTime(b: Bucket, began: real, before: real, ended: real, late: real)
    requires b.Sane() && began <= before && b.Refill(before).tokens < 1.0 && ended <= before + 0.1 + late
    ensures EndsInTime(b, began, ended, late)
  {
    forall t | t >= began && b.Refill(t).tokens >= 1.0
      ensures before <= t
    {
      if t < before {
        RefillGrows(b, t, before);
      }
    }
  }

  function Ceiling(x: real): int {
    -((-x).Floor)
  }

  /** Tenths of a second of credit missing between t tokens and one token, rounded up. */
  ghost function Tenths(t: real, rate: real): (n: nat)
    requires rate > 0.0
    ensures t < 1.0 ==> n >= 1
  {
    if t >= 1.0 then 0 else
      assert 10.0 * (1.0 - t) / rate > 0.0;
      Ceiling(10.0 * (1.0 - t) / rate)
  }

  /** The most sleeps a call that finds t tokens can need; an empty buffer may cost one more. */
  ghost function SleepBudget(needed: nat, t: real, rate: real): nat
    requires rate > 0.0
  {
    Tenths(t, rate) + if needed == 0 && t < 0.0 then 1 else 0
  }

  lemma QuotientMonotone(x: real, y: real, r: real)
    requires r > 0.0 && x <= y
    ensures x / r <= y / r
  {
  }

  lemma QuotientLessOne(x: real, r: real)
    requires r > 0.0
    ensures (x - r) / r == x / r - 1.0
  {
    var q := x / r - 1.0;
    assert q * r == x / r * r - r == x - r;
    assert q == (x - r) / r;
  }

  lemma TenthsMonotone(t: real, more: real, rate: real)
    requires rate > 0.0 && t <= more
    ensures Tenths(more, rate) <= Tenths(t, rate)
  {
    if more < 1.0 {
      QuotientMonotone(10.0 * (1.0 - more), 10.0 * (1.0 - t), rate);
    }
  }

  lemma TenthPays(t: real, more: real, rate: real)
    requires rate > 0.0 && t < 1.0 && more >= t + rate / 10.0
    ensures Tenths(more, rate) < Tenths(t, rate)
  {
    if more < 1.0 {
      var x := 10.0 * (1.0 - t);
      QuotientMonotone(10.0 * (1.0 - more), x - rate, rate);
      QuotientLessOne(x, rate);
    }
  }

  /** A nap earns the deficit it was computed from or a tenth of a second of credit. */
  lemma NapEarns(needed: nat, t: real, rate: real, d: real)
    requires rate > 0.0 && t < 1.0 && d >= Nap(needed, t, rate)
    ensures Credit(rate, d) >= Deficit(needed, t) || Credit(rate, d) >= rate / 10.0
  {
    CreditIsProduct(rate, d);
    var deficit := Deficit(needed, t);
    assert deficit / rate * rate == deficit;
    if d >= 0.1 {
      assert (d - 0.1) * rate >= 0.0;
    } else {
      var wait := deficit / rate;
      assert d >= wait;
      assert (d - wait) * rate >= 0.0;
    }
  }

  lemma NapShrinksBudget(needed: nat, t: real, rate: real, more: real)
    requires rate > 0.0 && t < 1.0
    requires more >= 1.0 || more >= t + Deficit(needed, t) || more >= t + rate / 10.0
    ensures SleepBudget(needed, more, rate) < SleepBudget(needed, t, rate)
  {
    if more >= t + rate / 10.0 {
      TenthPays(t, more, rate);
    } else if more < 1.0 {
      TenthsMonotone(t, more, rate);
    }
  }

  class ThrottledConn {
    var tokens: real
    const maxTokens: real
    const refillRate: real
    var lastRefill: real

    ghost function View(): Bucket
      reads this
    {
      Bucket(tokens, maxTokens, refillRate, lastRefill)
    }

    constructor (speedMbps: int, clock: Clock)
      requires speedMbps > 0
      ensures View() == NewBucket(speedMbps, clock.now) && View().Sane()
    {
      var bytesPerSec := speedMbps as real * 1024.0 * 1024.0 / 8.0;
      tokens, maxTokens, refillRate, lastRefill := bytesPerSec, bytesPerSec, bytesPerSec, clock.now;
    }

    method Refill(clock: Clock)
      modifies this
      ensures View() == old(View()).Refill(clock.now)
    {
      var now := clock.now;
      var elapsed := now - lastRefill;
      CreditIsProduct(refillRate, elapsed);
      tokens := tokens + elapsed * refillRate;
      if tokens > maxTokens {
        tokens := maxTokens;
      }
      lastRefill := now;
    }

    method ConsumeTokens(n: int)
      modifies this
      ensures View() == old(View()).Consume(n)
    {
      tokens := tokens - n as real;
    }

    /** With no other call in progress the wait ends with a token in hand, after few sleeps. */
    method WaitForTokens(needed: nat, clock: Clock) returns (sleeps: nat)
      requires View().Sane() && lastRefill <= clock.now
      modifies this, clock
      ensures tokens >= 1.0 && clock.now >= old(clock.now)
      ensures View() == old(View()).Refill(clock.now)
      ensures sleeps <= SleepBudget(needed, old(View()).Refill(old(clock.now)).tokens, refillRate)
      ensures sleeps == 0 ==> clock.now == old(clock.now)
      ensures EndsInTime(old(View()), old(clock.now), clock.now, clock.overslept - old(clock.overslept))
    {
      sleeps := 0;
      ghost var start := View();
      while true
        invariant clock.overslept >= old(clock.overslept) && (sleeps == 0 ==> clock.now == old(clock.now))
        invariant EndsInTime(start, old(clock.now), clock.now, clock.overslept - old(clock.overslept))
        invariant View().Sane() && clock.now >= old(clock.now) && lastRefill <= clock.now
        invariant View() == start || View() == start.Refill(lastRefill)
        invariant sleeps + SleepBudget(needed, start.Refill(clock.now).tokens, refillRate)
               <= SleepBudget(needed, start.Refill(old(clock.now)).tokens, refillRate)
        decreases SleepBudget(needed, start.Refill(clock.now).tokens, refillRate)
      {
        RefillsCompose(start, lastRefill, clock.now);
        Refill(clock);
        if tokens >= 1.0 {
          return;
        }
        var d := Nap(needed, tokens, refillRate);
        NapBounds(needed, tokens, refillRate, d);
        ghost var before := clock.now;
        clock.Sleep(d);
        sleeps := sleeps + 1;
        AfterNap(View(), needed, before, clock.now);
        NapEndsInTime(start, old(clock.now), before, clock.now, clock.overslept - old(clock.overslept));
        RefillsCompose(start, before, clock.now);
      }
    }

    /** Read and Write: wait, move n of at most len bytes, charge for them. */
    method Transfer(len: nat, n: nat, clock: Clock) returns (sleeps: nat)
      requires View().Sane() && lastRefill <= clock.now && n <= len
      modifies this, clock
      ensures View() == old(View()).Refill(clock.now).Consume(n)
      ensures View().Sane() && tokens >= 1.0 - n as real
      ensures EndsInTime(old(View()), old(clock.now), clock.now, clock.overslept - old(clock.overslept))
    {
      sleeps := WaitForTokens(len, clock);
      if n > 0 {
        ConsumeTokens(n);
      }
    }
  }

  /** A speed of zero or less means no throttle: null stands for the bare connection. */
  method NewThrottledConn(speedMbps: int, clock: Clock) returns (conn: ThrottledConn?)
    ensures conn == null <==> speedMbps <= 0
    ensures conn != null ==> fresh(conn) && conn.View() == NewBucket(speedMbps, clock.now)
    ensures conn != null ==> conn.tokens == conn.maxTokens == conn.refillRate == 131072.0 * speedMbps as real
  {
    if speedMbps <= 0 {
      return null;
    }
    conn := new ThrottledConn(speedMbps, clock);
  }

  lemma AfterNap(b: Bucket, needed: nat, before: real, now: real)
    requires b.Sane() && b.tokens < 1.0 && b.lastRefill == before
    requires now >= before + Nap(needed, b.tokens, b.refillRate)
    ensures SleepBudget(needed, b.Refill(now).tokens, b.refillRate) < SleepBudget(needed, b.tokens, b.refillRate)
  {
    NapEarns(needed, b.tokens, b.refillRate, now - before);
    NapShrinksBudget(needed, b.tokens, b.refillRate, b.Refill(now).tokens);
  }
}
