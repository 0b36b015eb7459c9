// The fixed-window limiter in front of the PAC file: checkRateLimit of internal/pac/pac.go.
module FixedWindow {
  const MINUTE := 60.0

  /** What the handler remembers of one client: when its window opened and what it spent in it. */
  datatype Window = Window(start: real, tokens: int)

  type Windows = map<string, Window>

  datatype Request = Request(client: string, at: real)

  predicate Opens(ws: Windows, r: Request) {
    r.client !in ws || r.at - ws[r.client].start > MINUTE
  }

  predicate Admits(ws: Windows, rpm: int, r: Request) {
    Opens(ws, r) || ws[r.client].tokens < rpm
  }

  function Serve(ws: Windows, rpm: int, r: Request): Windows {
    if Opens(ws, r) then ws[r.client := Window(r.at, 1)]
    else if ws[r.client].tokens < rpm then
      ws[r.client := ws[r.client].(tokens := ws[r.client].tokens + 1)]
    else ws
  }

  /** The handler's two maps, kept in step under its mutex. */
  class Handler {
    const rateLimitRPM: int
    var rateWindow: map<string, real>
    var rateTokens: map<string, int>

    ghost predicate Valid() reads this {
      rateWindow.Keys == rateTokens.Keys
    }

    ghost function Contents(): Windows
      reads this
      requires Valid()
    {
      map c | c in rateWindow :: Window(rateWindow[c], rateTokens[c])
    }

    constructor (rpm: int)
      ensures Valid() && Contents() == map[] && rateLimitRPM == rpm
    {
      rateLimitRPM, rateWindow, rateTokens := rpm, map[], map[];
    }

    method CheckRateLimit(clientIP: string, now: real) returns (ok: bool)
      requires Valid()
      modifies this
      ensures Valid()
      ensures ok == Admits(old(Contents()), rateLimitRPM, Request(clientIP, now))
      ensures Contents() == Serve(old(Contents()), rateLimitRPM, Request(clientIP, now))
    {
      if clientIP !in rateWindow || now - rateWindow[clientIP] > MINUTE {
        rateWindow := rateWindow[clientIP := now];
        rateTokens := rateTokens[clientIP := 1];
        return true;
      }
      if rateTokens[clientIP] < rateLimitRPM {
        rateTokens := rateTokens[clientIP := rateTokens[clientIP] + 1];
        return true;
      }
      return false;
    }
  }

  // ------------------------------------------------------------------- whole runs

  ghost predicate Ordered(rs: seq<Request>) {
    forall i, j :: 0 <= i <= j < |rs| ==> rs[i].at <= rs[j].at
  }

  function WindowsAt(rpm: int, rs: seq<Request>, k: nat): Windows
    requires k <= |rs|
  {
    if k == 0 then map[] else Serve(WindowsAt(rpm, rs, k - 1), rpm, rs[k - 1])
  }

  predicate Accepted(rpm: int, rs: seq<Request>, k: nat)
    requires k < |rs|
  {
    Admits(WindowsAt(rpm, rs, k), rpm, rs[k])
  }

  /** The client's accepted requests among rs[i..j]. */
  ghost function Granted(rpm: int, rs: seq<Request>, client: string, i: nat, j: nat): nat
    requires i <= j <= |rs|
    decreases j
  {
    if i == j then 0 else
      Granted(rpm, rs, client, i, j - 1) + if rs[j - 1].client == client && Accepted(rpm, rs, j - 1) then 1 else 0
  }

  /** The windows opened for the client by rs[i..j]. */
  ghost function Openings(rpm: int, rs: seq<Request>, client: string, i: nat, j: nat): nat
    requires i <= j <= |rs|
    decreases j
  {
    if i == j then 0 else
      Openings(rpm, rs, client, i, j - 1) +
      if rs[j - 1].client == client && Opens(WindowsAt(rpm, rs, j - 1), rs[j - 1]) then 1 else 0
  }

  ghost function Quota(rpm: int, windows: int): int {
    windows * rpm
  }

  lemma OneMoreWindow(rpm: int, windows: int)
    ensures Quota(rpm, windows + 1) == Quota(rpm, windows) + rpm
  {
  }

  lemma QuotaGrows(rpm: int, m: int, n: int)
    requires rpm >= 0 && m <= n
    ensures Quota(rpm, m) <= Quota(rpm, n)
  {
  }

  /** Every window holds between one token and the limit, and opened at a request made before. */
  lemma {:induction false} TokensStayInRange(rpm: int, rs: seq<Request>, client: string, k: nat)
    requires rpm >= 1 && Ordered(rs) && k <= |rs| && client in WindowsAt(rpm, rs, k)
    ensures 1 <= WindowsAt(rpm, rs, k)[client].tokens <= rpm
    ensures k > 0 && WindowsAt(rpm, rs, k)[client].start <= rs[k - 1].at
  {
    if k > 0 && client in WindowsAt(rpm, rs, k - 1) {
      TokensStayInRange(rpm, rs, client, k - 1);
    }
  }

  /** Windows of one client open more than a minute apart, and each grants at most the limit. */
  ghost predicate Spaced(rpm: int, rs: seq<Request>, client: string, i: nat, j: nat)
    requires i <= j <= |rs|
  {
    var ws := WindowsAt(rpm, rs, j);
    var openings := Openings(rpm, rs, client, i, j);
    if client !in ws then Granted(rpm, rs, client, i, j) == 0 && openings == 0
    else
      && Granted(rpm, rs, client, i, j) <= Quota(rpm, openings) + ws[client].tokens - 1
      && (openings >= 1 ==> i < |rs| && ws[client].start >= rs[i].at)
      && (openings >= 2 ==> ws[client].start > rs[i].at + MINUTE * (openings - 1) as real)
  }

  lemma {:induction false} WindowsAreSpaced(rpm: int, rs: seq<Request>, client: string, i: nat, j: nat)
    requires rpm >= 1 && Ordered(rs) && i <= j <= |rs|
    ensures Spaced(rpm, rs, client, i, j)
    decreases j
  {
    if i == j {
      if client in WindowsAt(rpm, rs, j) {
        TokensStayInRange(rpm, rs, client, j);
      }
    } else {
      WindowsAreSpaced(rpm, rs, client, i, j - 1);
      OneMoreWindow(rpm, Openings(rpm, rs, client, i, j - 1));
      if client in WindowsAt(rpm, rs, j - 1) {
        TokensStayInRange(rpm, rs, client, j - 1);
      }
    }
  }

  /** Any stretch of a run no longer than the given number of minutes holds, for each client, fewer
      accepted requests than one limit more than that number of limits. */
  lemma GrantedInMinutes(rpm: int, rs: seq<Request>, client: string, i: nat, j: nat, minutes: nat)
    requires rpm >= 1 && Ordered(rs) && i < j <= |rs| && minutes >= 1
    requires rs[j - 1].at - rs[i].at <= 60.0 * minutes as real
    ensures Granted(rpm, rs, client, i, j) <= (minutes + 1) * rpm - 1
  {
    WindowsAreSpaced(rpm, rs, client, i, j);
    if client in WindowsAt(rpm, rs, j) {
      TokensStayInRange(rpm, rs, client, j);
      var openings := Openings(rpm, rs, client, i, j);
      assert openings <= minutes;
      QuotaGrows(rpm, openings, minutes);
      OneMoreWindow(rpm, minutes);
    } else {
      QuotaGrows(rpm, 1, minutes + 1);
    }
  }

  /** In a closed interval of a minute: at most twice the limit less one. For an interval of any
      length, in seconds: the whole minutes in it plus two limits, less one. */
  lemma GrantedInAnyInterval(rpm: int, rs: seq<Request>, client: string, i: nat, j: nat)
    requires rpm >= 1 && Ordered(rs) && i < j <= |rs|
    ensures var elapsed := rs[j - 1].at - rs[i].at;
            && (elapsed <= 60.0 ==> Granted(rpm, rs, client, i, j) <= 2 * rpm - 1)
            && Granted(rpm, rs, client, i, j) <= ((elapsed / 60.0).Floor + 2) * rpm - 1
  {
    var elapsed := rs[j - 1].at - rs[i].at;
    if elapsed <= MINUTE {
      GrantedInMinutes(rpm, rs, client, i, j, 1);
    }
    var whole := (elapsed / MINUTE).Floor;
    assert 0 <= whole && elapsed <= MINUTE * (whole + 1) as real;
    GrantedInMinutes(rpm, rs, client, i, j, whole + 1);
  }

  // -------------------------------------------------------------------- tightness

  function Burst(client: string, at: real, n: nat): seq<Request> {
    seq(n, _ => Request(client, at))
  }

  /** One request, a minute later the rest of its window, a second after that a whole new one. */
  function Straddle(client: string, rpm: nat): seq<Request>
    requires rpm >= 1
  {
    Burst(client, 0.0, 1) + Burst(client, 60.0, rpm - 1) + Burst(client, 61.0, rpm)
  }

  lemma {:induction false} FillsWindow(rpm: int, rs: seq<Request>, client: string, i: nat, j: nat,
                                       start: real, spent: int)
    requires 0 < i <= j <= |rs| && client in WindowsAt(rpm, rs, i)
    requires WindowsAt(rpm, rs, i)[client] == Window(start, spent) && spent + j - i <= rpm
    requires forall k :: i <= k < j ==> rs[k].client == client && rs[k].at - start <= MINUTE
    ensures client in WindowsAt(rpm, rs, j) && WindowsAt(rpm, rs, j)[client] == Window(start, spent + j - i)
    ensures Granted(rpm, rs, client, i, j) == j - i
    decreases j
  {
    if i < j {
      FillsWindow(rpm, rs, client, i, j - 1, start, spent);
    }
  }

  lemma {:induction false} GrantedSplits(rpm: int, rs: seq<Request>, client: string, i: nat, mid: nat, j: nat)
    requires i <= mid <= j <= |rs|
    ensures Granted(rpm, rs, client, i, j) == Granted(rpm, rs, client, i, mid) + Granted(rpm, rs, client, mid, j)
    decreases j
  {
    if mid < j {
      GrantedSplits(rpm, rs, client, i, mid, j - 1);
    }
  }

  /** The bound is met for every limit: one second can hold twice the limit less one. */
  lemma BoundIsMet(rpm: nat, client: string)
    requires rpm >= 1
    ensures var rs := Straddle(client, rpm);
            && Ordered(rs) && |rs| == 2 * rpm && rs[2 * rpm - 1].at - rs[1].at <= 1.0
            && Granted(rpm, rs, client, 1, 2 * rpm) == 2 * rpm - 1
  {
    var rs := Straddle(client, rpm);
    assert WindowsAt(rpm, rs, 1)[client] == Window(0.0, 1);
    FillsWindow(rpm, rs, client, 1, rpm, 0.0, 1);
    assert Opens(WindowsAt(rpm, rs, rpm), rs[rpm]);
    FillsWindow(rpm, rs, client, rpm + 1, 2 * rpm, 61.0, 1);
    GrantedSplits(rpm, rs, client, 1, rpm, rpm + 1);
    GrantedSplits(rpm, rs, client, 1, rpm + 1, 2 * rpm);
  }

  /** Requests i to j of a run lie within a closed minute. */
  ghost predicate InMinute(rs: seq<Request>, i: nat, j: nat) {
    Ordered(rs) && i < j <= |rs| && rs[j - 1].at - rs[i].at <= 60.0
  }

  /** The configured number per minute is kept, in all runs for all clients, if and only if it is 1. */
  lemma MinuteLimitKeptIff(rpm: nat)
    requires rpm >= 1
    ensures (forall rs, client, i: nat, j: nat :: InMinute(rs, i, j) ==> Granted(rpm, rs, client, i, j) <= rpm)
            <==> rpm == 1
  {
    forall rs, client, i: nat, j: nat | InMinute(rs, i, j)
      ensures Granted(rpm, rs, client, i, j) <= 2 * rpm - 1
    {
      GrantedInAnyInterval(rpm, rs, client, i, j);
    }
    if rpm > 1 {
      BoundIsMet(rpm, "");
      assert InMinute(Straddle("", rpm), 1, 2 * rpm);
    }
  }

  // --------------------------------------------------------------- refusals are earned

  /** The current window of a client opened at one of its requests, and its tokens are the requests
      accepted from that one on. */
  lemma {:induction false} WindowCounts(rpm: int, rs: seq<Request>, client: string, k: nat) returns (p: nat)
    requires k <= |rs| && client in WindowsAt(rpm, rs, k)
    ensures p < k && rs[p].client == client && rs[p].at == WindowsAt(rpm, rs, k)[client].start
    ensures Granted(rpm, rs, client, p, k) == WindowsAt(rpm, rs, k)[client].tokens
  {
    if rs[k - 1].client == client && Opens(WindowsAt(rpm, rs, k - 1), rs[k - 1]) {
      p := k - 1;
      assert Granted(rpm, rs, client, k - 1, k - 1) == 0;
    } else {
      p := WindowCounts(rpm, rs, client, k - 1);
    }
  }

  /** A request is refused only if at least the limit's worth of the same client's requests was
      accepted within the minute before it. */
  lemma RefusedOnlyAfterLimit(rpm: int, rs: seq<Request>, k: nat) returns (p: nat)
    requires k < |rs| && !Accepted(rpm, rs, k)
    ensures p < k && rs[k].at - rs[p].at <= 60.0
    ensures Granted(rpm, rs, rs[k].client, p, k) >= rpm
  {
    p := WindowCounts(rpm, rs, rs[k].client, k);
  }
}
