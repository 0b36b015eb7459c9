// Goroutines sharing one throttled connection, one critical section at a time:
// Read and Write of internal/bandwidth/throttle.go under the relays of the front ends.
module ThrottleSteps {
  import opened Common
  import opened Throttling

  /** Where a goroutine is in its current Read or Write, if any. */
  datatype Call =
    | Idle
    | Waiting(len: nat)    // inside waitForTokens
    | Moving(len: nat)     // past the wait, on the underlying connection
    | Charging(n: nat)     // n bytes moved, consumeTokens still to come

  /** calls has one slot per goroutine; charged counts the bytes consumed so far. */
  datatype State = State(bucket: Bucket, now: real, calls: seq<Call>, charged: nat)

  datatype Event =
    | Tick(d: real)
    | Begin(i: nat, len: nat)
    | Poll(i: nat)           // one lap of the wait: refill, then look
    | Move(i: nat, n: nat)
    | Charge(i: nat)

  ghost predicate Enabled(s: State, e: Event, maxLen: nat) {
    match e
    case Tick(d) => d >= 0.0
    case Begin(i, len) => i < |s.calls| && s.calls[i].Idle? && len <= maxLen
    case Poll(i) => i < |s.calls| && s.calls[i].Waiting?
    case Move(i, n) => i < |s.calls| && s.calls[i].Moving? && n <= s.calls[i].len
    case Charge(i) => i < |s.calls| && s.calls[i].Charging?
  }

  ghost function Next(s: State, e: Event, maxLen: nat): State
    requires Enabled(s, e, maxLen)
  {
    match e
    case Tick(d) => s.(now := s.now + d)
    case Begin(i, len) => s.(calls := s.calls[i := Waiting(len)])
    case Poll(i) =>
      var b := s.bucket.Refill(s.now);
      s.(bucket := b, calls := if b.tokens >= 1.0 then s.calls[i := Moving(s.calls[i].len)] else s.calls)
    case Move(i, n) => s.(calls := s.calls[i := if n > 0 then Charging(n) else Idle])
    case Charge(i) =>
      s.(bucket := s.bucket.Consume(s.calls[i].n), calls := s.calls[i := Idle], charged := s.charged + s.calls[i].n)
  }

  ghost predicate IsRun(s: State, es: seq<Event>, maxLen: nat)
    decreases es
  {
    es == [] || (Enabled(s, es[0], maxLen) && IsRun(Next(s, es[0], maxLen), es[1..], maxLen))
  }

  ghost function Final(s: State, es: seq<Event>, maxLen: nat): State
    requires IsRun(s, es, maxLen)
    decreases es
  {
    if es == [] then s else Final(Next(s, es[0], maxLen), es[1..], maxLen)
  }

  /** A lap of the wait lets a goroutine through exactly if the tokens and what was earned since the last
      refill make up one, and the bucket holds one. */
  lemma PassesIffToken(s: State, i: nat, maxLen: nat)
    requires Enabled(s, Poll(i), maxLen)
    ensures var b := s.bucket;
            var n := Next(s, Poll(i), maxLen);
            if b.maxTokens >= 1.0 && b.tokens + Credit(b.refillRate, s.now - b.lastRefill) >= 1.0
            then n.calls == s.calls[i := Moving(s.calls[i].len)]
            else n.calls == s.calls
  {
  }

  // ------------------------------------------------------------------- the debt

  /** Bytes that calls past the wait may still charge. */
  ghost function Owed(calls: seq<Call>): (n: nat) {
    if calls == [] then 0
    else Owed(calls[1..]) + match calls[0] {
      case Moving(len) => len
      case Charging(n) => n
      case _ => 0
    }
  }

  lemma {:induction false} OwedUpdate(calls: seq<Call>, i: nat, c: Call)
    requires i < |calls|
    ensures Owed(calls[i := c]) + Owed([calls[i]]) == Owed(calls) + Owed([c])
  {
    assert forall x: Call :: [x][1..] == [];
    if i == 0 {
      assert calls[i := c][1..] == calls[1..];
    } else {
      assert calls[i := c][1..] == calls[1..][i - 1 := c];
      OwedUpdate(calls[1..], i - 1, c);
    }
  }

  ghost predicate CallFits(c: Call, maxLen: nat) {
    match c
    case Idle => true
    case Waiting(len) => len <= maxLen
    case Moving(len) => len <= maxLen
    case Charging(n) => n <= maxLen
  }

  ghost predicate Fits(calls: seq<Call>, maxLen: nat) {
    forall i :: 0 <= i < |calls| ==> CallFits(calls[i], maxLen)
  }

  lemma {:induction false} OwedBounded(calls: seq<Call>, maxLen: nat)
    requires Fits(calls, maxLen)
    ensures Owed(calls) <= |calls| * maxLen
  {
    if calls != [] {
      var k := |calls| - 1;
      OwedBounded(calls[1..], maxLen);
      assert CallFits(calls[0], maxLen);
      assert (k + 1) * maxLen == k * maxLen + maxLen;
    }
  }

  // -------------------------------------------------------------------- invariant

  /** However the steps interleave, debt plus what may still be charged stays below |calls| buffers. */
  ghost predicate Inv(s: State, maxLen: nat) {
    && s.bucket.Sane() && s.bucket.lastRefill <= s.now
    && Fits(s.calls, maxLen)
    && s.bucket.tokens >= 1.0 - (|s.calls| * maxLen) as real + Owed(s.calls) as real
  }

  lemma InvStep(s: State, e: Event, maxLen: nat)
    requires Inv(s, maxLen) && Enabled(s, e, maxLen)
    ensures Inv(Next(s, e, maxLen), maxLen)
  {
    var t := Next(s, e, maxLen);
    match e
    case Tick(_) =>
    case Begin(i, len) => OwedUpdate(s.calls, i, Waiting(len));
    case Poll(i) =>
      OwedBounded(s.calls, maxLen);
      CreditNonnegative(s.bucket.refillRate, s.now - s.bucket.lastRefill);
      OwedUpdate(s.calls, i, Moving(s.calls[i].len));
      OwedBounded(t.calls, maxLen);
    case Move(i, n) => OwedUpdate(s.calls, i, if n > 0 then Charging(n) else Idle);
    case Charge(i) => OwedUpdate(s.calls, i, Idle);
  }

  // ------------------------------------------------------------------ the windows

  /** One buffer of maxLen bytes per goroutine. */
  ghost function Buffers(s: State, maxLen: nat): (n: nat) {
    |s.calls| * maxLen
  }

  ghost predicate SameConn(s: State, t: State) {
    && t.bucket.maxTokens == s.bucket.maxTokens && t.bucket.refillRate == s.bucket.refillRate
    && |t.calls| == |s.calls| && t.now >= s.now && t.charged >= s.charged
  }

  /** t lies after a refill in the window that opened at s; tokens and charges are paid for. */
  ghost predicate Settled(s: State, t: State, slack: nat) {
    && t.bucket.lastRefill >= s.now
    && t.bucket.tokens + (t.charged - s.charged) as real <=
         s.bucket.maxTokens + slack as real + Credit(s.bucket.refillRate, t.bucket.lastRefill - s.now)
  }

  /** No refill yet in the window: only what was owed at its start can have been charged. */
  ghost predicate Unrefilled(s: State, t: State) {
    t.charged - s.charged + Owed(t.calls) <= Owed(s.calls)
  }

  /** The credit of a window is what it had at the last refill and what came since. */
  lemma CreditSplits(s: State, t: State)
    requires SameConn(s, t) && t.bucket.lastRefill <= t.now && s.bucket.refillRate >= 0.0
    ensures var before, after := t.bucket.lastRefill - s.now, t.now - t.bucket.lastRefill;
            && Credit(s.bucket.refillRate, t.now - s.now) ==
               Credit(s.bucket.refillRate, before) + Credit(s.bucket.refillRate, after)
            && Credit(s.bucket.refillRate, after) >= 0.0
  {
    var before, after := t.bucket.lastRefill - s.now, t.now - t.bucket.lastRefill;
    CreditAdds(s.bucket.refillRate, before, after);
    assert before + after == t.now - s.now;
    CreditNonnegative(s.bucket.refillRate, after);
  }

  lemma SettledStep(s: State, t: State, e: Event, slack: nat, maxLen: nat)
    requires SameConn(s, t) && Inv(t, maxLen) && Enabled(t, e, maxLen) && Settled(s, t, slack)
    ensures SameConn(s, Next(t, e, maxLen)) && Settled(s, Next(t, e, maxLen), slack)
  {
    if e.Poll? {
      CreditSplits(s, t);
    }
  }

  lemma UnrefilledStep(s: State, t: State, e: Event, maxLen: nat)
    requires SameConn(s, t) && Inv(s, maxLen) && Inv(t, maxLen) && Enabled(t, e, maxLen) && Unrefilled(s, t)
    ensures SameConn(s, Next(t, e, maxLen))
    ensures Unrefilled(s, Next(t, e, maxLen)) || Settled(s, Next(t, e, maxLen), Buffers(s, maxLen))
  {
    match e
    case Tick(_) =>
    case Begin(i, len) => OwedUpdate(t.calls, i, Waiting(len));
    case Poll(i) =>
      OwedBounded(s.calls, maxLen);
      CreditNonnegative(s.bucket.refillRate, t.now - s.now);
    case Move(i, n) => OwedUpdate(t.calls, i, if n > 0 then Charging(n) else Idle);
    case Charge(i) => OwedUpdate(t.calls, i, Idle);
  }

  lemma {:induction false} SettledRun(s: State, t: State, es: seq<Event>, slack: nat, maxLen: nat)
    requires SameConn(s, t) && Inv(t, maxLen) && IsRun(t, es, maxLen) && Settled(s, t, slack)
    ensures var u := Final(t, es, maxLen); SameConn(s, u) && Inv(u, maxLen) && Settled(s, u, slack)
    decreases es
  {
    if es != [] {
      InvStep(t, es[0], maxLen);
      SettledStep(s, t, es[0], slack, maxLen);
      SettledRun(s, Next(t, es[0], maxLen), es[1..], slack, maxLen);
    }
  }

  lemma {:induction false} WindowRun(s: State, t: State, es: seq<Event>, maxLen: nat)
    requires SameConn(s, t) && Inv(s, maxLen) && Inv(t, maxLen) && IsRun(t, es, maxLen) && Unrefilled(s, t)
    ensures var u := Final(t, es, maxLen);
            SameConn(s, u) && Inv(u, maxLen) && (Unrefilled(s, u) || Settled(s, u, Buffers(s, maxLen)))
    decreases es
  {
    if es != [] {
      var next := Next(t, es[0], maxLen);
      InvStep(t, es[0], maxLen);
      UnrefilledStep(s, t, es[0], maxLen);
      if Unrefilled(s, next) {
        WindowRun(s, next, es[1..], maxLen);
      } else {
        SettledRun(s, next, es[1..], Buffers(s, maxLen), maxLen);
      }
    }
  }

  lemma SettledBound(s: State, t: State, slack: nat, maxLen: nat)
    requires SameConn(s, t) && Inv(t, maxLen) && Settled(s, t, slack)
    ensures (t.charged - s.charged) as real <=
            s.bucket.maxTokens - 1.0 + (Buffers(s, maxLen) + slack) as real + Credit(s.bucket.refillRate, t.now - s.now)
  {
    CreditSplits(s, t);
  }

  // ---------------------------------------------------------------- main theorems

  /** From any refill instant on: a second's burst, the refill since, and one buffer per goroutine. */
  lemma ChargedSinceRefill(s: State, es: seq<Event>, maxLen: nat)
    requires Inv(s, maxLen) && s.bucket.lastRefill == s.now && IsRun(s, es, maxLen)
    ensures var t := Final(s, es, maxLen);
            (t.charged - s.charged) as real <=
            s.bucket.maxTokens - 1.0 + Buffers(s, maxLen) as real + Credit(s.bucket.refillRate, t.now - s.now)
  {
    CreditIsProduct(s.bucket.refillRate, 0.0);
    SettledRun(s, s, es, 0, maxLen);
    SettledBound(s, Final(s, es, maxLen), 0, maxLen);
  }

  /** From an arbitrary instant on: one more buffer per goroutine. */
  lemma ChargedInWindow(s: State, es: seq<Event>, maxLen: nat)
    requires Inv(s, maxLen) && IsRun(s, es, maxLen)
    ensures var t := Final(s, es, maxLen);
            (t.charged - s.charged) as real <=
            s.bucket.maxTokens - 1.0 + (2 * Buffers(s, maxLen)) as real + Credit(s.bucket.refillRate, t.now - s.now)
  {
    WindowRun(s, s, es, maxLen);
    var t := Final(s, es, maxLen);
    if Unrefilled(s, t) {
      OwedBounded(s.calls, maxLen);
      CreditNonnegative(s.bucket.refillRate, t.now - s.now);
    } else {
      SettledBound(s, t, Buffers(s, maxLen), maxLen);
    }
  }

  /** A fresh connection with the given number of goroutines, none of them in a call. */
  ghost function Fresh(speedMbps: int, now: real, goroutines: nat): (s: State)
    requires speedMbps > 0
  {
    State(NewBucket(speedMbps, now), now, seq(goroutines, _ => Idle), 0)
  }

  lemma {:induction false} NothingOwed(calls: seq<Call>)
    requires forall i :: 0 <= i < |calls| ==> calls[i] == Idle
    ensures Owed(calls) == 0
  {
    if calls != [] {
      NothingOwed(calls[1..]);
    }
  }

  lemma FreshInv(speedMbps: int, now: real, goroutines: nat, maxLen: nat)
    requires speedMbps > 0
    ensures Inv(Fresh(speedMbps, now, goroutines), maxLen)
  {
    NothingOwed(Fresh(speedMbps, now, goroutines).calls);
    assert goroutines * maxLen >= 0;
  }

  /** A relay: one goroutine reads and one writes each connection, with 32 KiB buffers. */
  lemma RelayBound(speedMbps: int, now: real, es: seq<Event>)
    requires speedMbps > 0 && IsRun(Fresh(speedMbps, now, 2), es, 32768)
    ensures var t := Final(Fresh(speedMbps, now, 2), es, 32768);
            t.charged as real <= 131072.0 * speedMbps as real * (1.0 + (t.now - now)) + 65535.0
  {
    var s := Fresh(speedMbps, now, 2);
    FreshInv(speedMbps, now, 2, 32768);
    ChargedSinceRefill(s, es, 32768);
    CreditIsProduct(s.bucket.refillRate, Final(s, es, 32768).now - now);
  }

  /** Every later state satisfies the invariant too, so ChargedInWindow applies from any of them. */
  lemma {:induction false} InvRun(s: State, es: seq<Event>, maxLen: nat)
    requires Inv(s, maxLen) && IsRun(s, es, maxLen)
    ensures Inv(Final(s, es, maxLen), maxLen)
    decreases es
  {
    if es != [] {
      InvStep(s, es[0], maxLen);
      InvRun(Next(s, es[0], maxLen), es[1..], maxLen);
    }
  }

  // -------------------------------------------------------------- the bounds are met

  lemma {:induction false} RunAppend(s: State, first: seq<Event>, second: seq<Event>, maxLen: nat)
    requires IsRun(s, first, maxLen) && IsRun(Final(s, first, maxLen), second, maxLen)
    ensures IsRun(s, first + second, maxLen)
    ensures Final(s, first + second, maxLen) == Final(Final(s, first, maxLen), second, maxLen)
    decreases first
  {
    if first == [] {
      assert first + second == second;
    } else {
      RunAppend(Next(s, first[0], maxLen), first[1..], second, maxLen);
      assert (first + second)[1..] == first[1..] + second;
    }
  }

  lemma RunOne(s: State, e: Event, maxLen: nat)
    requires Enabled(s, e, maxLen)
    ensures IsRun(s, [e], maxLen) && Final(s, [e], maxLen) == Next(s, e, maxLen)
  {
    assert IsRun(Next(s, e, maxLen), [e][1..], maxLen);
  }

  /** e, then the given run from where it leads. */
  lemma RunCons(s: State, e: Event, es: seq<Event>, maxLen: nat)
    requires Enabled(s, e, maxLen) && IsRun(Next(s, e, maxLen), es, maxLen)
    ensures IsRun(s, [e] + es, maxLen)
    ensures Final(s, [e] + es, maxLen) == Final(Next(s, e, maxLen), es, maxLen)
  {
    RunOne(s, e, maxLen);
    RunAppend(s, [e], es, maxLen);
  }

  ghost predicate JustRefilled(b: Bucket, now: real) {
    b.lastRefill == now && 1.0 <= b.tokens <= b.maxTokens
  }

  /** A wait that finds tokens lets the goroutine through and leaves the bucket alone. */
  lemma PassWait(s: State, i: nat, len: nat, maxLen: nat) returns (es: seq<Event>)
    requires i < |s.calls| && s.calls[i].Idle? && len <= maxLen && JustRefilled(s.bucket, s.now)
    ensures IsRun(s, es, maxLen) && Final(s, es, maxLen) == s.(calls := s.calls[i := Moving(len)])
  {
    CreditIsProduct(s.bucket.refillRate, 0.0);
    var s1 := Next(s, Begin(i, len), maxLen);
    RunOne(s1, Poll(i), maxLen);
    assert Next(s1, Poll(i), maxLen).calls == s.calls[i := Moving(len)];
    RunCons(s, Begin(i, len), [Poll(i)], maxLen);
    es := [Begin(i, len)] + [Poll(i)];
  }

  lemma MoveAndPay(s: State, i: nat, len: nat, maxLen: nat) returns (es: seq<Event>)
    requires i < |s.calls| && s.calls[i] == Moving(len) && 0 < len
    ensures IsRun(s, es, maxLen)
    ensures Final(s, es, maxLen) ==
            s.(calls := s.calls[i := Idle], bucket := s.bucket.Consume(len), charged := s.charged + len)
  {
    var s1 := Next(s, Move(i, len), maxLen);
    RunOne(s1, Charge(i), maxLen);
    assert Next(s1, Charge(i), maxLen).calls == s.calls[i := Idle];
    RunCons(s, Move(i, len), [Charge(i)], maxLen);
    es := [Move(i, len)] + [Charge(i)];
  }

  /** One goroutine spends n tokens at one instant, a buffer at a time. */
  lemma {:induction false} Drain(s: State, n: nat, maxLen: nat) returns (es: seq<Event>)
    requires |s.calls| >= 1 && s.calls[0].Idle? && maxLen >= 1
    requires s.bucket.lastRefill == s.now && (n + 1) as real <= s.bucket.tokens <= s.bucket.maxTokens
    ensures IsRun(s, es, maxLen)
    ensures Final(s, es, maxLen) == s.(bucket := s.bucket.Consume(n), charged := s.charged + n)
    decreases n
  {
    if n == 0 {
      es := [];
    } else {
      var len := if n < maxLen then n else maxLen;
      var wait := PassWait(s, 0, len, maxLen);
      var s1 := s.(calls := s.calls[0 := Moving(len)]);
      var pay := MoveAndPay(s1, 0, len, maxLen);
      var s2 := s.(bucket := s.bucket.Consume(len), charged := s.charged + len);
      assert s1.calls[0 := Idle] == s.calls;
      var rest := Drain(s2, n - len, maxLen);
      RunAppend(s1, pay, rest, maxLen);
      RunAppend(s, wait, pay + rest, maxLen);
      es := wait + (pay + rest);
    }
  }

  ghost function Calls(goroutines: nat, j: nat, first: Call, others: Call): (calls: seq<Call>) {
    seq(goroutines, i => if i < j then first else others)
  }

  /** The goroutines from j on all pass the wait on the same last token. */
  lemma {:induction false} AllPass(s: State, j: nat, maxLen: nat) returns (es: seq<Event>)
    requires j <= |s.calls| && s.calls == Calls(|s.calls|, j, Moving(maxLen), Idle) && JustRefilled(s.bucket, s.now)
    ensures IsRun(s, es, maxLen)
    ensures Final(s, es, maxLen) == s.(calls := Calls(|s.calls|, |s.calls|, Moving(maxLen), Idle))
    decreases |s.calls| - j
  {
    if j == |s.calls| {
      es := [];
    } else {
      var wait := PassWait(s, j, maxLen, maxLen);
      var s1 := s.(calls := s.calls[j := Moving(maxLen)]);
      assert s1.calls == Calls(|s.calls|, j + 1, Moving(maxLen), Idle);
      var rest := AllPass(s1, j + 1, maxLen);
      RunAppend(s, wait, rest, maxLen);
      es := wait + rest;
    }
  }

  lemma OneMore(k: nat, len: nat)
    requires k > 0
    ensures k * len == len + (k - 1) * len
  {
  }

  /** The goroutines from j on all move and charge a whole buffer. */
  lemma {:induction false} AllPay(s: State, j: nat, maxLen: nat) returns (es: seq<Event>)
    requires j <= |s.calls| && s.calls == Calls(|s.calls|, j, Idle, Moving(maxLen)) && maxLen >= 1
    ensures IsRun(s, es, maxLen)
    ensures var n := (|s.calls| - j) * maxLen;
            Final(s, es, maxLen) ==
            s.(calls := Calls(|s.calls|, |s.calls|, Idle, Idle), bucket := s.bucket.Consume(n),
               charged := s.charged + n)
    decreases |s.calls| - j
  {
    if j == |s.calls| {
      es := [];
      assert s.calls == Calls(|s.calls|, |s.calls|, Idle, Idle);
    } else {
      var pay := MoveAndPay(s, j, maxLen, maxLen);
      var s1 := Final(s, pay, maxLen);
      assert s1.calls == Calls(|s.calls|, j + 1, Idle, Moving(maxLen));
      var rest := AllPay(s1, j + 1, maxLen);
      OneMore(|s.calls| - j, maxLen);
      RunAppend(s, pay, rest, maxLen);
      es := pay + rest;
    }
  }

  ghost predicate Full(s: State, goroutines: nat, room: nat) {
    && s.calls == Calls(goroutines, goroutines, Idle, Idle) && s.bucket.lastRefill == s.now
    && s.bucket.tokens == s.bucket.maxTokens == room as real
  }

  /** From a full bucket all but the last token is spent, and then everyone overdraws on that one. */
  lemma SpendAll(s: State, goroutines: nat, room: nat, maxLen: nat) returns (es: seq<Event>)
    requires Full(s, goroutines, room) && goroutines >= 1 && room >= 1 && maxLen >= 1
    ensures IsRun(s, es, maxLen)
    ensures var t := Final(s, es, maxLen); t.now == s.now && t.charged == s.charged + room - 1 + goroutines * maxLen
  {
    var drain := Drain(s, room - 1, maxLen);
    var s1 := Final(s, drain, maxLen);
    assert s1.calls == Calls(goroutines, 0, Moving(maxLen), Idle);
    var pass := AllPass(s1, 0, maxLen);
    var s2 := Final(s1, pass, maxLen);
    assert s2.calls == Calls(goroutines, 0, Idle, Moving(maxLen));
    var pay := AllPay(s2, 0, maxLen);
    RunAppend(s1, pass, pay, maxLen);
    RunAppend(s, drain, pass + pay, maxLen);
    es := drain + (pass + pay);
  }

  lemma FreshIsFull(speedMbps: int, now: real, goroutines: nat)
    requires speedMbps > 0
    ensures Full(Fresh(speedMbps, now, goroutines), goroutines, 131072 * speedMbps)
  {
  }

  /** ChargedSinceRefill cannot be improved: for any goroutines and any buffers, a fresh connection can
      be charged exactly that much at one instant. */
  lemma BoundIsMet(speedMbps: int, now: real, goroutines: nat, maxLen: nat) returns (es: seq<Event>)
    requires speedMbps > 0 && goroutines >= 1 && maxLen >= 1
    ensures var s := Fresh(speedMbps, now, goroutines);
            && IsRun(s, es, maxLen) && Final(s, es, maxLen).now == now
            && Final(s, es, maxLen).charged as real == s.bucket.maxTokens - 1.0 + Buffers(s, maxLen) as real
  {
    FreshIsFull(speedMbps, now, goroutines);
    es := SpendAll(Fresh(speedMbps, now, goroutines), goroutines, 131072 * speedMbps, maxLen);
  }

  /** Once enough time has gone by, an empty read refills the bucket. */
  lemma RefillByRead(s: State, room: nat, goroutines: nat, maxLen: nat) returns (es: seq<Event>)
    requires goroutines >= 1 && s.calls == Calls(goroutines, goroutines, Idle, Idle) && room >= 1
    requires s.bucket.maxTokens == room as real
    requires s.bucket.tokens + Credit(s.bucket.refillRate, s.now - s.bucket.lastRefill) >= s.bucket.maxTokens
    ensures IsRun(s, es, maxLen) && Full(Final(s, es, maxLen), goroutines, room)
    ensures Final(s, es, maxLen).charged == s.charged && Final(s, es, maxLen).now == s.now
  {
    var s1 := Next(s, Begin(0, 0), maxLen);
    var s2 := Next(s1, Poll(0), maxLen);
    var s3 := Next(s2, Move(0, 0), maxLen);
    assert s3.calls == s.calls;
    RunOne(s2, Move(0, 0), maxLen);
    RunCons(s1, Poll(0), [Move(0, 0)], maxLen);
    RunCons(s, Begin(0, 0), [Poll(0)] + [Move(0, 0)], maxLen);
    es := [Begin(0, 0)] + ([Poll(0)] + [Move(0, 0)]);
  }

  lemma LongEnough(rate: real, d: real)
    requires rate >= 1.0 && d >= 0.0
    ensures Credit(rate, d) >= d
  {
    CreditIsProduct(rate, d);
    assert (rate - 1.0) * d >= 0.0;
  }

  /** Nor can ChargedInWindow: a window can open when every goroutine has a buffer under way, and then
      hold all of those, a refill, the whole bucket and every buffer again. */
  lemma WindowBoundIsMet(speedMbps: int, now: real, goroutines: nat, maxLen: nat)
    returns (before: seq<Event>, window: seq<Event>)
    requires speedMbps > 0 && goroutines >= 1 && maxLen >= 1
    ensures var start := Fresh(speedMbps, now, goroutines);
            && IsRun(start, before, maxLen)
            && var s := Final(start, before, maxLen);
            && IsRun(s, window, maxLen) && Final(s, window, maxLen).now == s.now
            && (Final(s, window, maxLen).charged - s.charged) as real ==
               s.bucket.maxTokens - 1.0 + (2 * Buffers(s, maxLen)) as real
  {
    var start, room := Fresh(speedMbps, now, goroutines), 131072 * speedMbps;
    FreshIsFull(speedMbps, now, goroutines);
    assert start.calls == Calls(goroutines, 0, Moving(maxLen), Idle);
    var pass := AllPass(start, 0, maxLen);
    var s1 := Final(start, pass, maxLen);
    var d := (goroutines * maxLen) as real;
    RunOne(s1, Tick(d), maxLen);
    RunAppend(start, pass, [Tick(d)], maxLen);
    before := pass + [Tick(d)];
    var s := Next(s1, Tick(d), maxLen);
    assert s.calls == Calls(goroutines, 0, Idle, Moving(maxLen));
    var pay := AllPay(s, 0, maxLen);
    var s2 := Final(s, pay, maxLen);
    LongEnough(s.bucket.refillRate, d);
    assert s2.now - s2.bucket.lastRefill == d;
    var refill := RefillByRead(s2, room, goroutines, maxLen);
    var s3 := Final(s2, refill, maxLen);
    var spend := SpendAll(s3, goroutines, room, maxLen);
    RunAppend(s2, refill, spend, maxLen);
    RunAppend(s, pay, refill + spend, maxLen);
    window := pay + (refill + spend);
  }
}
