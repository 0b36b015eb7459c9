// Connection counting by concurrent handlers: the check, increment and deferred decrement of
// internal/httpproxy/server.go and internal/socks5/server.go against one usage tracker.
module ConnGate {
  import opened UsageTracking

  datatype Phase = Arrived | Passed | Inside | Gone

  /** A handler checks the count of the name in the request and is counted under the key of its user:
      at the HTTP front end the stored name, at the SOCKS5 one the name again. maxConns <= 0 stands for
      no limit, as for a super admin. */
  datatype Handler = Handler(name: string, key: string, maxConns: int, phase: Phase) {
    predicate Limited() { maxConns > 0 }
  }

  datatype System = System(tracker: State, handlers: seq<Handler>)

  datatype Event =
    | Check(i: nat, at: Instant)
    | Enter(i: nat, at: Instant)
    | Leave(i: nat, at: Instant)
    | Other(op: Op)               // byte records, allowance checks and look-ups by anyone

  ghost predicate Enabled(s: System, e: Event) {
    match e
    case Check(i, _) => i < |s.handlers| && s.handlers[i].phase == Arrived
    case Enter(i, _) => i < |s.handlers| && s.handlers[i].phase == Passed
    case Leave(i, _) => i < |s.handlers| && s.handlers[i].phase == Inside
    case Other(op) => op.Record? || op.Allowance? || op.Look?
  }

  ghost function Moved(s: System, i: nat, phase: Phase, op: Op): System
    requires i < |s.handlers|
  {
    System(After(s.tracker, op), s.handlers[i := s.handlers[i].(phase := phase)])
  }

  ghost function Next(s: System, e: Event): System
    requires Enabled(s, e)
  {
    match e
    case Check(i, at) =>
      var check := ConnLimit(s.handlers[i].name, s.handlers[i].maxConns, at);
      Moved(s, i, if Allowed(s.tracker, check) then Passed else Gone, check)
    case Enter(i, at) => Moved(s, i, Inside, Increment(s.handlers[i].key, at))
    case Leave(i, at) => Moved(s, i, Gone, Decrement(s.handlers[i].key, at))
    case Other(op) => s.(tracker := After(s.tracker, op))
  }

  ghost predicate IsRun(s: System, es: seq<Event>)
    decreases es
  {
    es == [] || (Enabled(s, es[0]) && IsRun(Next(s, es[0]), es[1..]))
  }

  ghost function Final(s: System, es: seq<Event>): System
    requires IsRun(s, es)
    decreases es
  {
    if es == [] then s else Final(Next(s, es[0]), es[1..])
  }

  ghost predicate Start(s: System) {
    && (forall u :: u in s.tracker.users ==> s.tracker.users[u].conns == 0)
    && (forall i :: 0 <= i < |s.handlers| ==> s.handlers[i].phase == Arrived)
  }

  // -------------------------------------------------------------------- counting

  datatype Kind = InsideAny | InsideLimited | InsideFree | PassedLimited

  ghost predicate Is(h: Handler, user: string, kind: Kind) {
    h.key == user && match kind
      case InsideAny => h.phase == Inside
      case InsideLimited => h.phase == Inside && h.Limited()
      case InsideFree => h.phase == Inside && !h.Limited()
      case PassedLimited => h.phase == Passed && h.Limited()
  }

  ghost function Tally(hs: seq<Handler>, user: string, kind: Kind): (n: nat) {
    if hs == [] then 0 else Tally(hs[1..], user, kind) + if Is(hs[0], user, kind) then 1 else 0
  }

  lemma {:induction false} TallyUpdate(hs: seq<Handler>, i: nat, h: Handler, user: string, kind: Kind)
    requires i < |hs|
    ensures Tally(hs[i := h], user, kind) ==
            Tally(hs, user, kind) - (if Is(hs[i], user, kind) then 1 else 0) + (if Is(h, user, kind) then 1 else 0)
  {
    if i == 0 {
      assert hs[i := h][1..] == hs[1..];
    } else {
      assert hs[i := h][1..] == hs[1..][i - 1 := h];
      TallyUpdate(hs[1..], i - 1, h, user, kind);
    }
  }

  lemma {:induction false} TallySplits(hs: seq<Handler>, user: string)
    ensures Tally(hs, user, InsideAny) == Tally(hs, user, InsideLimited) + Tally(hs, user, InsideFree)
  {
    if hs != [] {
      TallySplits(hs[1..], user);
    }
  }

  lemma {:induction false} TallyNone(hs: seq<Handler>, user: string, kind: Kind)
    requires forall i :: 0 <= i < |hs| ==> hs[i].phase == Arrived
    ensures Tally(hs, user, kind) == 0
  {
    if hs != [] {
      TallyNone(hs[1..], user, kind);
    }
  }

  // ------------------------------------------------- the counter counts the handlers

  ghost predicate Exact(s: System) {
    forall user :: s.tracker.Of(user).conns == Tally(s.handlers, user, InsideAny)
  }

  lemma InsideIsCounted(s: System, i: nat)
    requires Exact(s) && i < |s.handlers| && s.handlers[i].phase == Inside
    ensures s.tracker.Of(s.handlers[i].key).conns > 0
  {
    var h := s.handlers[i];
    TallyUpdate(s.handlers, i, h.(phase := Gone), h.key, InsideAny);
    assert s.tracker.Of(h.key).conns == Tally(s.handlers, h.key, InsideAny);
  }

  lemma ExactStep(s: System, e: Event)
    requires Exact(s) && Enabled(s, e)
    ensures Exact(Next(s, e))
  {
    var t := Next(s, e);
    forall user
      ensures t.tracker.Of(user).conns == Tally(t.handlers, user, InsideAny)
    {
      assert s.tracker.Of(user).conns == Tally(s.handlers, user, InsideAny);
      match e
      case Other(op) => ConnsKept(s.tracker, op, user);
      case Check(i, at) =>
        ConnsKept(s.tracker, ConnLimit(s.handlers[i].name, s.handlers[i].maxConns, at), user);
        TallyUpdate(s.handlers, i, t.handlers[i], user, InsideAny);
      case Enter(i, _) => TallyUpdate(s.handlers, i, t.handlers[i], user, InsideAny);
      case Leave(i, _) =>
        TallyUpdate(s.handlers, i, t.handlers[i], user, InsideAny);
        InsideIsCounted(s, i);
    }
  }

  /** On every interleaving a user's count is the number of handlers between the two updates. */
  lemma {:induction false} ConnsAreHandlers(s: System, es: seq<Event>)
    requires Exact(s) && IsRun(s, es)
    ensures Exact(Final(s, es))
    decreases es
  {
    if es != [] {
      ExactStep(s, es[0]);
      ConnsAreHandlers(Next(s, es[0]), es[1..]);
    }
  }

  lemma StartIsExact(s: System)
    requires Start(s)
    ensures Exact(s)
  {
    forall user
      ensures s.tracker.Of(user).conns == Tally(s.handlers, user, InsideAny)
    {
      TallyNone(s.handlers, user, InsideAny);
    }
  }

  /** The guard of the decrement never makes a difference: it always counts down by one. */
  lemma DecrementAlwaysCounts(s: System, es: seq<Event>, i: nat, at: Instant)
    requires Start(s) && IsRun(s, es) && Enabled(Final(s, es), Leave(i, at))
    ensures var t := Final(s, es);
            var user := t.handlers[i].key;
            Next(t, Leave(i, at)).tracker.Of(user).conns == t.tracker.Of(user).conns - 1
  {
    StartIsExact(s);
    ConnsAreHandlers(s, es);
    InsideIsCounted(Final(s, es), i);
  }

  /** In every reachable state the check lets a handler pass exactly if it has no limit or fewer than
      its limit are inside under the name it asks about; otherwise the handler is gone. */
  lemma PassesCheckIff(s: System, es: seq<Event>, i: nat, at: Instant)
    requires Start(s) && IsRun(s, es) && Enabled(Final(s, es), Check(i, at))
    ensures var t := Final(s, es);
            var h := t.handlers[i];
            var after := Next(t, Check(i, at)).handlers;
            if h.maxConns <= 0 || Tally(t.handlers, h.name, InsideAny) < h.maxConns
            then after == t.handlers[i := h.(phase := Passed)]
            else after == t.handlers[i := h.(phase := Gone)]
  {
    StartIsExact(s);
    ConnsAreHandlers(s, es);
    var t := Final(s, es);
    var h := t.handlers[i];
    ConnsKept(t.tracker, ConnLimit(h.name, h.maxConns, at), h.name);
    assert t.tracker.Of(h.name).conns == Tally(t.handlers, h.name, InsideAny);
  }

  // ------------------------------------------------------------------- the limit

  /** At most k limited handlers of the user are ever between check and increment. */
  ghost predicate AtMostBetween(s: System, es: seq<Event>, user: string, k: nat)
    requires IsRun(s, es)
    decreases es
  {
    && Tally(s.handlers, user, PassedLimited) <= k
    && (es != [] ==> AtMostBetween(Next(s, es[0]), es[1..], user, k))
  }

  /** The limited handlers counted under key check this name, and none has a limit above maxConns. */
  ghost predicate LimitedBy(s: System, name: string, key: string, maxConns: nat) {
    forall i :: 0 <= i < |s.handlers| && s.handlers[i].key == key && s.handlers[i].Limited() ==>
      s.handlers[i].name == name && s.handlers[i].maxConns <= maxConns
  }

  ghost predicate Guarded(s: System, user: string, maxConns: nat, k: nat) {
    && Exact(s) && LimitedBy(s, user, user, maxConns)
    && Tally(s.handlers, user, InsideLimited) + Tally(s.handlers, user, PassedLimited) <= maxConns - 1 + k
  }

  lemma GuardedStep(s: System, e: Event, user: string, maxConns: nat, k: nat)
    requires maxConns > 0 && Guarded(s, user, maxConns, k) && Enabled(s, e)
    requires Tally(Next(s, e).handlers, user, PassedLimited) <= k
    ensures Guarded(Next(s, e), user, maxConns, k)
  {
    ExactStep(s, e);
    TallySplits(s.handlers, user);
    assert s.tracker.Of(user).conns == Tally(s.handlers, user, InsideAny);
    if !e.Other? {
      var t := Next(s, e);
      TallyUpdate(s.handlers, e.i, t.handlers[e.i], user, InsideLimited);
      TallyUpdate(s.handlers, e.i, t.handlers[e.i], user, PassedLimited);
      if e.Check? {
        ConnsKept(s.tracker, ConnLimit(s.handlers[e.i].name, s.handlers[e.i].maxConns, e.at), user);
      }
    }
  }

  lemma {:induction false} GuardedRun(s: System, es: seq<Event>, user: string, maxConns: nat, k: nat)
    requires maxConns > 0 && Guarded(s, user, maxConns, k) && IsRun(s, es) && AtMostBetween(s, es, user, k)
    ensures Guarded(Final(s, es), user, maxConns, k)
    decreases es
  {
    if es != [] {
      GuardedStep(s, es[0], user, maxConns, k);
      GuardedRun(Next(s, es[0]), es[1..], user, maxConns, k);
    }
  }

  /** The count overshoots the limit by at most the handlers that were in between, less one. */
  lemma ConnsBounded(s: System, es: seq<Event>, user: string, maxConns: nat, k: nat)
    requires maxConns > 0 && Start(s) && LimitedBy(s, user, user, maxConns)
    requires IsRun(s, es) && AtMostBetween(s, es, user, k)
    ensures var t := Final(s, es);
            t.tracker.Of(user).conns <= maxConns - 1 + k + Tally(t.handlers, user, InsideFree)
  {
    StartIsExact(s);
    TallyNone(s.handlers, user, InsideLimited);
    TallyNone(s.handlers, user, PassedLimited);
    GuardedRun(s, es, user, maxConns, k);
    TallySplits(Final(s, es).handlers, user);
  }

  // ------------------------------------------------------------- the limit overshot

  lemma RunCons(s: System, e: Event, es: seq<Event>, user: string, k: nat)
    requires Enabled(s, e) && IsRun(Next(s, e), es) && AtMostBetween(Next(s, e), es, user, k)
    requires Tally(s.handlers, user, PassedLimited) <= k
    ensures IsRun(s, [e] + es) && AtMostBetween(s, [e] + es, user, k)
    ensures Final(s, [e] + es) == Final(Next(s, e), es)
  {
    assert ([e] + es)[1..] == es;
  }

  /** Handlers of one user with one limit, some inside, then some past the check, then the rest. */
  ghost function Row(name: string, key: string, maxConns: nat, inside: nat, passed: nat, arrived: nat)
    : (hs: seq<Handler>)
    ensures |hs| == inside + passed + arrived
  {
    seq(inside + passed + arrived, i => Handler(name, key, maxConns,
          if i < inside then Inside else if i < inside + passed then Passed else Arrived))
  }

  lemma {:induction false} RowTally(name: string, key: string, maxConns: nat, inside: nat, passed: nat, arrived: nat)
    requires maxConns > 0
    ensures Tally(Row(name, key, maxConns, inside, passed, arrived), key, PassedLimited) == passed
    ensures Tally(Row(name, key, maxConns, inside, passed, arrived), key, InsideFree) == 0
    decreases inside + passed + arrived
  {
    var hs := Row(name, key, maxConns, inside, passed, arrived);
    if inside > 0 {
      RowTally(name, key, maxConns, inside - 1, passed, arrived);
      assert hs[1..] == Row(name, key, maxConns, inside - 1, passed, arrived);
    } else if passed > 0 {
      RowTally(name, key, maxConns, 0, passed - 1, arrived);
      assert hs[1..] == Row(name, key, maxConns, 0, passed - 1, arrived);
    } else if arrived > 0 {
      RowTally(name, key, maxConns, 0, 0, arrived - 1);
      assert hs[1..] == Row(name, key, maxConns, 0, 0, arrived - 1);
    }
  }

  /** The handlers in such a row, and what their checks see. */
  ghost predicate InRow(s: System, name: string, key: string, maxConns: nat, inside: nat, passed: nat, arrived: nat) {
    && s.handlers == Row(name, key, maxConns, inside, passed, arrived)
    && s.tracker.Of(key).conns == inside && (name != key ==> s.tracker.Of(name).conns == 0)
  }

  lemma CheckNext(s: System, name: string, key: string, maxConns: nat, inside: nat, passed: nat, arrived: nat,
                  at: Instant)
    requires InRow(s, name, key, maxConns, inside, passed, arrived) && maxConns > 0 && arrived > 0
    requires name == key ==> inside < maxConns
    ensures Enabled(s, Check(inside + passed, at))
    ensures InRow(Next(s, Check(inside + passed, at)), name, key, maxConns, inside, passed + 1, arrived - 1)
  {
    var n := Next(s, Check(inside + passed, at));
    ConnsKept(s.tracker, ConnLimit(name, maxConns, at), name);
    ConnsKept(s.tracker, ConnLimit(name, maxConns, at), key);
    assert n.handlers == Row(name, key, maxConns, inside, passed + 1, arrived - 1);
  }

  lemma EnterNext(s: System, name: string, key: string, maxConns: nat, inside: nat, passed: nat, arrived: nat,
                  at: Instant)
    requires InRow(s, name, key, maxConns, inside, passed, arrived) && passed > 0
    ensures Enabled(s, Enter(inside, at))
    ensures InRow(Next(s, Enter(inside, at)), name, key, maxConns, inside + 1, passed - 1, arrived)
  {
    assert Next(s, Enter(inside, at)).handlers == Row(name, key, maxConns, inside + 1, passed - 1, arrived);
  }

  /** Everyone past the check enters. */
  lemma {:induction false} EnterAll(s: System, user: string, maxConns: nat, inside: nat, passed: nat, k: nat,
                                    at: Instant)
    returns (es: seq<Event>)
    requires maxConns > 0 && InRow(s, user, user, maxConns, inside, passed, 0) && passed <= k
    ensures IsRun(s, es) && AtMostBetween(s, es, user, k)
    ensures InRow(Final(s, es), user, user, maxConns, inside + passed, 0, 0)
    decreases passed
  {
    RowTally(user, user, maxConns, inside, passed, 0);
    es := [];
    if passed > 0 {
      EnterNext(s, user, user, maxConns, inside, passed, 0, at);
      es := EnterAll(Next(s, Enter(inside, at)), user, maxConns, inside + 1, passed - 1, k, at);
      RunCons(s, Enter(inside, at), es, user, k);
      es := [Enter(inside, at)] + es;
    }
  }

  /** Everyone left passes the check, which sees one free place, and then everyone enters. */
  lemma {:induction false} CheckAll(s: System, user: string, maxConns: nat, inside: nat, passed: nat, arrived: nat,
                                    k: nat, at: Instant)
    returns (es: seq<Event>)
    requires InRow(s, user, user, maxConns, inside, passed, arrived) && inside < maxConns && passed + arrived <= k
    ensures IsRun(s, es) && AtMostBetween(s, es, user, k)
    ensures InRow(Final(s, es), user, user, maxConns, inside + passed + arrived, 0, 0)
    decreases arrived
  {
    RowTally(user, user, maxConns, inside, passed, arrived);
    if arrived == 0 {
      es := EnterAll(s, user, maxConns, inside, passed, k, at);
    } else {
      var e := Check(inside + passed, at);
      CheckNext(s, user, user, maxConns, inside, passed, arrived, at);
      es := CheckAll(Next(s, e), user, maxConns, inside, passed + 1, arrived - 1, k, at);
      RunCons(s, e, es, user, k);
      es := [e] + es;
    }
  }

  lemma {:induction false} RunAppend(s: System, es: seq<Event>, more: seq<Event>, user: string, k: nat)
    requires IsRun(s, es) && AtMostBetween(s, es, user, k)
    requires IsRun(Final(s, es), more) && AtMostBetween(Final(s, es), more, user, k)
    ensures IsRun(s, es + more) && AtMostBetween(s, es + more, user, k)
    ensures Final(s, es + more) == Final(Final(s, es), more)
    decreases es
  {
    if es == [] {
      assert es + more == more;
    } else {
      RunAppend(Next(s, es[0]), es[1..], more, user, k);
      assert (es + more)[1..] == es[1..] + more;
    }
  }

  lemma OneIn(s: System, name: string, key: string, maxConns: nat, inside: nat, left: nat, k: nat, at: Instant)
    returns (es: seq<Event>)
    requires maxConns > 0 && k >= 1 && left > 0 && InRow(s, name, key, maxConns, inside, 0, left)
    requires name == key ==> inside < maxConns
    ensures IsRun(s, es) && AtMostBetween(s, es, key, k)
    ensures InRow(Final(s, es), name, key, maxConns, inside + 1, 0, left - 1)
  {
    var check, enter := Check(inside, at), Enter(inside, at);
    CheckNext(s, name, key, maxConns, inside, 0, left, at);
    var s1 := Next(s, check);
    EnterNext(s1, name, key, maxConns, inside, 1, left - 1, at);
    RowTally(name, key, maxConns, inside, 0, left);
    RowTally(name, key, maxConns, inside, 1, left - 1);
    RowTally(name, key, maxConns, inside + 1, 0, left - 1);
    RunCons(s1, enter, [], key, k);
    RunCons(s, check, [enter] + [], key, k);
    es := [check] + ([enter] + []);
  }

  /** The next m handlers pass the check and enter one at a time; only under their own name does the
      check count them. */
  lemma {:induction false} OneByOne(s: System, name: string, key: string, maxConns: nat, inside: nat, left: nat, m: nat,
                                    k: nat, at: Instant)
    returns (es: seq<Event>)
    requires maxConns > 0 && k >= 1 && m <= left && InRow(s, name, key, maxConns, inside, 0, left)
    requires name == key ==> inside + m <= maxConns
    ensures IsRun(s, es) && AtMostBetween(s, es, key, k)
    ensures InRow(Final(s, es), name, key, maxConns, inside + m, 0, left - m)
    decreases m
  {
    if m == 0 {
      RowTally(name, key, maxConns, inside, 0, left);
      es := [];
    } else {
      es := OneIn(s, name, key, maxConns, inside, left, k, at);
      var more := OneByOne(Final(s, es), name, key, maxConns, inside + 1, left - 1, m - 1, k, at);
      RunAppend(s, es, more, key, k);
      es := es + more;
    }
  }

  /** For every user, limit and k the bound is met: with k handlers in between at once, the count gets
      to maxConns - 1 + k. */
  lemma LimitIsRacy(user: string, maxConns: nat, k: nat, at: Instant) returns (s: System, es: seq<Event>)
    requires maxConns > 0 && k >= 1
    ensures LimitedRun(s, es, user, user, maxConns, k)
    ensures var t := Final(s, es);
            t.tracker.Of(user).conns == maxConns - 1 + k && Tally(t.handlers, user, InsideFree) == 0
  {
    s := System(State(map[], at.month), Row(user, user, maxConns, 0, 0, maxConns - 1 + k));
    es := OneByOne(s, user, user, maxConns, 0, maxConns - 1 + k, maxConns - 1, k, at);
    var rest := CheckAll(Final(s, es), user, maxConns, maxConns - 1, 0, k, k, at);
    RunAppend(s, es, rest, user, k);
    es := es + rest;
    RowTally(user, user, maxConns, maxConns - 1 + k, 0, 0);
  }

  /** Under another name than the one it is counted under, any number of connections gets past the
      limit one at a time. */
  lemma OtherNameIsUnlimited(name: string, key: string, maxConns: nat, n: nat, k: nat, at: Instant)
    returns (s: System, es: seq<Event>)
    requires name != key && maxConns > 0 && k >= 1
    ensures LimitedRun(s, es, name, key, maxConns, k)
    ensures var t := Final(s, es); t.tracker.Of(key).conns == n && Tally(t.handlers, key, InsideFree) == 0
  {
    s := System(State(map[], at.month), Row(name, key, maxConns, 0, 0, n));
    es := OneByOne(s, name, key, maxConns, 0, n, n, k, at);
    RowTally(name, key, maxConns, n, 0, 0);
  }

  /** A run of limited handlers that check name and are counted under key, with at most k of them ever
      between check and increment; other handlers do as they like. */
  ghost predicate LimitedRun(s: System, es: seq<Event>, name: string, key: string, maxConns: nat, k: nat) {
    Start(s) && LimitedBy(s, name, key, maxConns) && IsRun(s, es) && AtMostBetween(s, es, key, k)
  }

  lemma {:induction false} NoneBetweenNoneInside(s: System, es: seq<Event>, key: string)
    requires IsRun(s, es) && AtMostBetween(s, es, key, 0) && Tally(s.handlers, key, InsideLimited) == 0
    ensures Tally(Final(s, es).handlers, key, InsideLimited) == 0
    decreases es
  {
    if es != [] {
      var e, t := es[0], Next(s, es[0]);
      if !e.Other? {
        TallyUpdate(s.handlers, e.i, t.handlers[e.i], key, InsideLimited);
        TallyUpdate(s.handlers, e.i, s.handlers[e.i].(phase := Gone), key, PassedLimited);
      }
      NoneBetweenNoneInside(t, es[1..], key);
    }
  }

  /** In all runs the limit of key is kept by those who check name, unlimited handlers aside, if and
      only if none ever gets in between, or the name is the key and at most one does at a time. */
  lemma LimitKeptIff(name: string, key: string, maxConns: nat, k: nat)
    requires maxConns > 0
    ensures (forall s, es :: LimitedRun(s, es, name, key, maxConns, k) ==>
               var t := Final(s, es); t.tracker.Of(key).conns <= maxConns + Tally(t.handlers, key, InsideFree))
            <==> k == 0 || (name == key && k == 1)
  {
    forall s, es | LimitedRun(s, es, name, key, maxConns, k) && (k == 0 || (name == key && k == 1))
      ensures var t := Final(s, es); t.tracker.Of(key).conns <= maxConns + Tally(t.handlers, key, InsideFree)
    {
      if k == 0 {
        StartIsExact(s);
        TallyNone(s.handlers, key, InsideLimited);
        NoneBetweenNoneInside(s, es, key);
        ConnsAreHandlers(s, es);
        TallySplits(Final(s, es).handlers, key);
      } else {
        ConnsBounded(s, es, key, maxConns, k);
      }
    }
    if k > 1 && name == key {
      var s, es := LimitIsRacy(key, maxConns, k, Instant(0, 0));
    }
    if k >= 1 && name != key {
      var s, es := OtherNameIsUnlimited(name, key, maxConns, maxConns + 1, k, Instant(0, 0));
    }
  }

  /** When nobody is inside any more, on whatever interleaving, nobody is counted. */
  lemma IdleCountsNone(s: System, es: seq<Event>, user: string)
    requires Start(s) && IsRun(s, es)
    requires forall i :: 0 <= i < |Final(s, es).handlers| ==> Final(s, es).handlers[i].phase != Inside
    ensures Final(s, es).tracker.Of(user).conns == 0
  {
    StartIsExact(s);
    ConnsAreHandlers(s, es);
    NoneInside(Final(s, es).handlers, user);
  }

  lemma {:induction false} NoneInside(hs: seq<Handler>, user: string)
    requires forall i :: 0 <= i < |hs| ==> hs[i].phase != Inside
    ensures Tally(hs, user, InsideAny) == 0
  {
    if hs != [] {
      NoneInside(hs[1..], user);
    }
  }
}
