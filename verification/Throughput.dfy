// The sliding throughput window: backgroundUpdater's one-second tick, RecordBytes and GetThroughput
// of internal/proxy/stats.go.
module Throughput {

  const WINDOW := 60

  function Sum(xs: seq<int>): int {
    if xs == [] then 0 else Sum(xs[..|xs| - 1]) + xs[|xs| - 1]
  }

  /** Go's integer division, which drops the fraction towards zero. */
  function Quotient(a: int, b: int): int
    requires b > 0
  {
    if a >= 0 then a / b else -((-a) / b)
  }

  datatype Event = Bytes(n: nat) | Tick

  datatype Stats = Stats(total: int, last: int, window: seq<int>)

  const Fresh := Stats(0, 0, [])

  function Slide(window: seq<int>, entry: int): seq<int> {
    var longer := window + [entry];
    if |longer| > WINDOW then longer[1..] else longer
  }

  function After(s: Stats, e: Event): Stats {
    match e
    case Bytes(n) => s.(total := s.total + n)
    case Tick => Stats(s.total, s.total, Slide(s.window, s.total - s.last))
  }

  /** The tracker; lastBytes is the ticking goroutine's own variable. */
  class StatsTracker {
    var totalBytes: int
    var lastBytes: int
    var bytesWindow: seq<int>

    ghost function Contents(): Stats
      reads this
    {
      Stats(totalBytes, lastBytes, bytesWindow)
    }

    constructor ()
      ensures Contents() == Fresh
    {
      totalBytes, lastBytes, bytesWindow := 0, 0, [];
    }

    method RecordBytes(n: nat)
      modifies this
      ensures Contents() == After(old(Contents()), Bytes(n))
    {
      totalBytes := totalBytes + n;
    }

    method TickSecond()
      modifies this
      ensures Contents() == After(old(Contents()), Tick)
    {
      var currentBytes := totalBytes;
      var bytesThisSecond := currentBytes - lastBytes;
      lastBytes := currentBytes;
      bytesWindow := bytesWindow + [bytesThisSecond];
      if |bytesWindow| > WINDOW {
        bytesWindow := bytesWindow[1..];
      }
    }

    /** The rate GetThroughput formats, in bytes a second. */
    method GetThroughput() returns (avg: int)
      ensures avg == if bytesWindow == [] then 0 else Quotient(Sum(bytesWindow), |bytesWindow|)
    {
      if |bytesWindow| == 0 {
        return 0;
      }
      var total := 0;
      var i := 0;
      while i < |bytesWindow|
        invariant 0 <= i <= |bytesWindow| && total == Sum(bytesWindow[..i])
      {
        assert bytesWindow[..i + 1][..i] == bytesWindow[..i];
        total := total + bytesWindow[i];
        i := i + 1;
      }
      assert bytesWindow[..i] == bytesWindow;
      var n := |bytesWindow|;
      avg := if total >= 0 then total / n else -((-total) / n);
    }
  }

  // ------------------------------------------------------------------- whole runs

  function AfterAll(es: seq<Event>): Stats {
    if es == [] then Fresh else After(AfterAll(es[..|es| - 1]), es[|es| - 1])
  }

  /** All bytes recorded. */
  ghost function Logged(es: seq<Event>): nat {
    if es == [] then 0 else
      Logged(es[..|es| - 1]) + if es[|es| - 1].Bytes? then es[|es| - 1].n else 0
  }

  /** The bytes recorded up to each tick. */
  ghost function AtTicks(es: seq<Event>): seq<int> {
    if es == [] then [] else
      AtTicks(es[..|es| - 1]) + if es[|es| - 1].Tick? then [Logged(es[..|es| - 1])] else []
  }

  /** Bytes recorded between tick i, not counting it, and the tick before. */
  ghost function Gained(totals: seq<int>, i: nat): int
    requires i < |totals|
  {
    totals[i] - if i == 0 then 0 else totals[i - 1]
  }

  /** Totals never fall, and no tick has seen more than was recorded. */
  lemma {:induction false} TotalsGrow(es: seq<Event>)
    ensures forall i :: 0 <= i < |AtTicks(es)| ==> AtTicks(es)[i] <= Logged(es)
    ensures forall i :: 0 <= i < |AtTicks(es)| ==> Gained(AtTicks(es), i) >= 0
  {
    if es != [] {
      var before := es[..|es| - 1];
      TotalsGrow(before);
      forall i | 0 <= i < |AtTicks(es)|
        ensures Gained(AtTicks(es), i) >= 0
      {
        if i < |AtTicks(before)| {
          assert Gained(AtTicks(es), i) == Gained(AtTicks(before), i);
        }
      }
    }
  }

  ghost function Oldest(n: nat): nat {
    if n > WINDOW then n - WINDOW else 0
  }

  /** The tracker agrees with the log of the run: its window is the last 60 gains. */
  lemma {:induction false} WindowIsLog(es: seq<Event>)
    ensures var s, totals := AfterAll(es), AtTicks(es);
            && s.total == Logged(es)
            && s.last == (if totals == [] then 0 else totals[|totals| - 1])
            && |s.window| == |totals| - Oldest(|totals|)
            && forall i :: 0 <= i < |s.window| ==> s.window[i] == Gained(totals, Oldest(|totals|) + i)
  {
    if es != [] {
      WindowIsLog(es[..|es| - 1]);
    }
  }

  lemma {:induction false} GainsTelescope(window: seq<int>, totals: seq<int>, from: nat)
    requires from + |window| <= |totals|
    requires forall i :: 0 <= i < |window| ==> window[i] == Gained(totals, from + i)
    ensures window != [] ==>
              Sum(window) == totals[from + |window| - 1] - if from == 0 then 0 else totals[from - 1]
  {
    if |window| > 1 {
      GainsTelescope(window[..|window| - 1], totals, from);
    }
  }

  /** After n ticks the window holds min(n, 60) nonnegative entries; they sum to the total at the
      last tick less the total 60 ticks before it, and GetThroughput's average is that divided by
      the number of entries, rounded down. */
  lemma RateIsExact(es: seq<Event>)
    ensures var window, totals := AfterAll(es).window, AtTicks(es);
            var n := |totals|;
            && |window| == (if n < 60 then n else 60)
            && (forall i :: 0 <= i < |window| ==> window[i] >= 0)
            && (n > 0 ==>
                  var moved := totals[n - 1] - if n <= 60 then 0 else totals[n - 61];
                  moved >= 0 && Sum(window) == moved && Quotient(Sum(window), |window|) == moved / |window|)
  {
    TotalsGrow(es);
    WindowIsLog(es);
    var window, totals := AfterAll(es).window, AtTicks(es);
    GainsTelescope(window, totals, Oldest(|totals|));
    SumNonnegative(window);
  }

  lemma {:induction false} SumNonnegative(xs: seq<int>)
    requires forall i :: 0 <= i < |xs| ==> xs[i] >= 0
    ensures Sum(xs) >= 0
  {
    if xs != [] {
      SumNonnegative(xs[..|xs| - 1]);
    }
  }
}
