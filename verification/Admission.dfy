// A client's visit to either front end, from the gates to the byte record, as calls on one usage
// tracker: handleRequest of internal/httpproxy/server.go, handleConnection of
// internal/socks5/server.go. Then what whole runs of visits mean for the gates.
module Admission {
  import opened Common
  import opened UsageTracking

  datatype User = User(username: string, isSuperAdmin: bool, bandwidthLimitGB: int, maxConnections: int)

  /** A client that has logged in as name. key is the name its connection and bytes are counted under;
      exempt is a super admin at its own address; a visitor that is not listed has no limits of its
      own; moved are the bytes recorded at the end, if the target was reached. */
  datatype Visitor = Visitor(name: string, key: string, exempt: bool, listed: bool, limitGB: int, maxConns: int,
                             withinRate: bool, notExpired: bool, moved: Option<Traffic>)

  /** The clock at each tracker call. */
  datatype Clock = Clock(allowance: Instant, limit: Instant, enter: Instant, record: Instant, leave: Instant)

  datatype Gate = RateGate | ExpiryGate | AllowanceGate | ConnGate

  function AllowanceCheck(v: Visitor, c: Clock): Op {
    Allowance(v.name, v.limitGB, c.allowance)
  }

  function LimitCheck(v: Visitor, c: Clock): Op {
    ConnLimit(v.name, v.maxConns, c.limit)
  }

  /** The visitor gets as far as the gates that ask the tracker. */
  predicate AsksTracker(v: Visitor) {
    !v.exempt && v.withinRate && v.listed && v.notExpired
  }

  /** The gate that stops the visitor, with a tracker and without one. */
  function StoppedUntracked(v: Visitor): Option<Gate> {
    if v.exempt then None
    else if !v.withinRate then Some(RateGate)
    else if v.listed && !v.notExpired then Some(ExpiryGate)
    else None
  }

  function StoppedBy(s: State, v: Visitor, c: Clock): Option<Gate> {
    if !AsksTracker(v) then StoppedUntracked(v)
    else if !Allowed(s, AllowanceCheck(v, c)) then Some(AllowanceGate)
    else if !Allowed(After(s, AllowanceCheck(v, c)), LimitCheck(v, c)) then Some(ConnGate)
    else None
  }

  function Checks(s: State, v: Visitor, c: Clock): seq<Op> {
    if !AsksTracker(v) then []
    else if !Allowed(s, AllowanceCheck(v, c)) then [AllowanceCheck(v, c)]
    else [AllowanceCheck(v, c), LimitCheck(v, c)]
  }

  function Inside(v: Visitor, c: Clock): seq<Op> {
    [Increment(v.key, c.enter)]
    + (if v.moved.Some? then [Record(v.key, v.moved.value.up, v.moved.value.down, c.record)] else [])
    + [Decrement(v.key, c.leave)]
  }

  /** All the tracker calls of a visit. */
  function Calls(s: State, v: Visitor, c: Clock): seq<Op> {
    Checks(s, v, c) + if StoppedBy(s, v, c).None? then Inside(v, c) else []
  }

  // ---------------------------------------------------- whom which gate stops, in plain terms

  /** What the tracker holds against the name has reached the limit; a new month starts from nothing. */
  predicate OverAllowance(s: State, name: string, limitGB: int, month: nat) {
    limitGB > 0 && (if s.month == month then s.Of(name).total else 0) >= limitGB * 0x4000_0000
  }

  predicate AtConnLimit(s: State, name: string, maxConns: int) {
    maxConns > 0 && s.Of(name).conns >= maxConns
  }

  lemma AllowedUnlessOver(s: State, name: string, limitGB: int, at: Instant)
    ensures Allowed(s, Allowance(name, limitGB, at)) <==> !OverAllowance(s, name, limitGB, at.month)
  {
  }

  lemma AllowedUnlessFull(s: State, v: Visitor, c: Clock)
    ensures Allowed(After(s, AllowanceCheck(v, c)), LimitCheck(v, c)) <==> !AtConnLimit(s, v.name, v.maxConns)
  {
    ConnsKept(s, AllowanceCheck(v, c), v.name);
    ConnsKept(After(s, AllowanceCheck(v, c)), LimitCheck(v, c), v.name);
  }

  /** In any state of the tracker, a super admin at its own address is never stopped, and nothing is
      asked of the tracker. Anyone else is stopped over its rate. A listed one is then stopped if it
      has expired, then exactly if it is over its allowance, then exactly if it is at its limit; one
      that is not listed goes on. */
  lemma GatesInOrder(s: State, v: Visitor, c: Clock)
    ensures v.exempt ==> StoppedBy(s, v, c) == StoppedUntracked(v) == None && Checks(s, v, c) == []
    ensures !v.exempt && !v.withinRate ==>
              StoppedBy(s, v, c) == StoppedUntracked(v) == Some(RateGate) && Checks(s, v, c) == []
    ensures !v.exempt && v.withinRate && !v.listed ==>
              StoppedBy(s, v, c) == StoppedUntracked(v) == None && Checks(s, v, c) == []
    ensures !v.exempt && v.withinRate && v.listed && !v.notExpired ==>
              StoppedBy(s, v, c) == StoppedUntracked(v) == Some(ExpiryGate) && Checks(s, v, c) == []
    ensures !v.exempt && v.withinRate && v.listed && v.notExpired ==>
              && StoppedUntracked(v) == None
              && StoppedBy(s, v, c) ==
                 (if OverAllowance(s, v.name, v.limitGB, c.allowance.month) then Some(AllowanceGate)
                  else if AtConnLimit(s, v.name, v.maxConns) then Some(ConnGate) else None)
              && Checks(s, v, c) ==
                 [Allowance(v.name, v.limitGB, c.allowance)] +
                 (if OverAllowance(s, v.name, v.limitGB, c.allowance.month) then []
                  else [ConnLimit(v.name, v.maxConns, c.limit)])
  {
    AllowedUnlessOver(s, v.name, v.limitGB, c.allowance);
    AllowedUnlessFull(s, v, c);
  }

  // ---------------------------------------------------------------- the effect of calls

  lemma {:induction false} AfterAllAppends(s: State, ops: seq<Op>, more: seq<Op>)
    ensures AfterAll(s, ops + more) == AfterAll(AfterAll(s, ops), more)
  {
    if more == [] {
      assert ops + more == ops;
    } else {
      assert (ops + more)[..|ops + more| - 1] == ops + more[..|more| - 1];
      AfterAllAppends(s, ops, more[..|more| - 1]);
    }
  }

  lemma AfterOne(s: State, op: Op)
    ensures AfterAll(s, [op]) == After(s, op)
  {
  }

  lemma AfterTwo(s: State, first: Op, second: Op)
    ensures AfterAll(s, [first, second]) == After(After(s, first), second)
  {
    AfterOne(s, first);
    AfterOne(After(s, first), second);
    AfterAllAppends(s, [first], [second]);
  }

  /** The tracker after the gates, and after what comes between the count up and the count down. */
  function Checked(s: State, v: Visitor, c: Clock): State {
    if !AsksTracker(v) then s
    else if !Allowed(s, AllowanceCheck(v, c)) then After(s, AllowanceCheck(v, c))
    else After(After(s, AllowanceCheck(v, c)), LimitCheck(v, c))
  }

  function Entered(s: State, v: Visitor, c: Clock): State {
    After(s, Increment(v.key, c.enter))
  }

  function Left(s: State, v: Visitor, c: Clock): State {
    var t := if v.moved.Some? then After(s, Record(v.key, v.moved.value.up, v.moved.value.down, c.record)) else s;
    After(t, Decrement(v.key, c.leave))
  }

  function Served(s: State, v: Visitor, c: Clock): State {
    Left(Entered(s, v, c), v, c)
  }

  lemma AfterChecks(s: State, v: Visitor, c: Clock)
    ensures AfterAll(s, Checks(s, v, c)) == Checked(s, v, c)
  {
    AfterOne(s, AllowanceCheck(v, c));
    AfterTwo(s, AllowanceCheck(v, c), LimitCheck(v, c));
  }

  lemma AfterInside(s: State, v: Visitor, c: Clock)
    ensures AfterAll(s, Inside(v, c)) == Served(s, v, c)
  {
    var enter, leave := Increment(v.key, c.enter), Decrement(v.key, c.leave);
    if v.moved.Some? {
      var record := Record(v.key, v.moved.value.up, v.moved.value.down, c.record);
      AfterTwo(s, enter, record);
      AfterOne(AfterAll(s, [enter, record]), leave);
      AfterAllAppends(s, [enter, record], [leave]);
      assert Inside(v, c) == [enter, record] + [leave];
    } else {
      AfterTwo(s, enter, leave);
      assert Inside(v, c) == [enter, leave];
    }
  }

  lemma AfterCalls(s: State, v: Visitor, c: Clock)
    ensures AfterAll(s, Calls(s, v, c)) ==
            if StoppedBy(s, v, c).None? then Served(Checked(s, v, c), v, c) else Checked(s, v, c)
  {
    AfterChecks(s, v, c);
    if StoppedBy(s, v, c).None? {
      AfterAllAppends(s, Checks(s, v, c), Inside(v, c));
      AfterInside(Checked(s, v, c), v, c);
    } else {
      assert Calls(s, v, c) == Checks(s, v, c);
    }
  }

  lemma CheckedKeepsConns(s: State, v: Visitor, c: Clock, user: string)
    ensures Checked(s, v, c).Of(user).conns == s.Of(user).conns
  {
    ConnsKept(s, AllowanceCheck(v, c), user);
    ConnsKept(After(s, AllowanceCheck(v, c)), LimitCheck(v, c), user);
  }

  lemma ServedKeepsConns(s: State, v: Visitor, c: Clock, user: string)
    requires s.Of(v.key).conns >= 0
    ensures Served(s, v, c).Of(user).conns == s.Of(user).conns
  {
    var t := After(s, Increment(v.key, c.enter));
    if v.moved.Some? {
      var record := Record(v.key, v.moved.value.up, v.moved.value.down, c.record);
      ConnsKept(t, record, user);
      ConnsKept(t, record, v.key);
    }
  }

  /** However a visit ends, it leaves every connection count as it found it. */
  lemma VisitIsBalanced(s: State, v: Visitor, c: Clock, user: string)
    requires forall u :: s.Of(u).conns >= 0
    ensures AfterAll(s, Calls(s, v, c)).Of(user).conns == s.Of(user).conns
  {
    AfterCalls(s, v, c);
    CheckedKeepsConns(s, v, c, user);
    CheckedKeepsConns(s, v, c, v.key);
    ServedKeepsConns(Checked(s, v, c), v, c, user);
  }

  lemma {:induction false} LoggedAppends(ops: seq<Op>, more: seq<Op>, user: string, month: nat)
    ensures var a, b := Logged(ops, user, month), Logged(more, user, month);
            Logged(ops + more, user, month) == Traffic(a.up + b.up, a.down + b.down)
  {
    if more == [] {
      assert ops + more == ops;
    } else {
      assert (ops + more)[..|ops + more| - 1] == ops + more[..|more| - 1];
      LoggedAppends(ops, more[..|more| - 1], user, month);
    }
  }

  lemma LoggedOne(op: Op, user: string, month: nat)
    ensures Logged([op], user, month) ==
            if op.Record? && op.user == user && op.at.month == month then Traffic(op.up, op.down) else Traffic(0, 0)
  {
  }

  lemma ChecksLogNothing(s: State, v: Visitor, c: Clock, user: string, month: nat)
    ensures Logged(Checks(s, v, c), user, month) == Traffic(0, 0)
  {
    LoggedOne(AllowanceCheck(v, c), user, month);
    LoggedOne(LimitCheck(v, c), user, month);
    LoggedAppends([AllowanceCheck(v, c)], [LimitCheck(v, c)], user, month);
  }

  lemma InsideLogsMoved(v: Visitor, c: Clock, user: string, month: nat)
    ensures Logged(Inside(v, c), user, month) ==
            if v.moved.Some? && user == v.key && month == c.record.month then v.moved.value else Traffic(0, 0)
  {
    var enter, leave := [Increment(v.key, c.enter)], [Decrement(v.key, c.leave)];
    var record := if v.moved.Some? then [Record(v.key, v.moved.value.up, v.moved.value.down, c.record)] else [];
    LoggedOne(enter[0], user, month);
    LoggedOne(leave[0], user, month);
    if v.moved.Some? {
      LoggedOne(record[0], user, month);
    }
    LoggedAppends(enter, record, user, month);
    LoggedAppends(enter + record, leave, user, month);
    assert Inside(v, c) == enter + record + leave;
  }

  /** What a visit that finds the tracker in this state adds to a user's traffic of a month. */
  function Adds(s: State, v: Visitor, c: Clock, user: string, month: nat): Traffic {
    if StoppedBy(s, v, c).None? && v.moved.Some? && v.key == user && c.record.month == month then v.moved.value
    else Traffic(0, 0)
  }

  lemma VisitIsLogged(s: State, v: Visitor, c: Clock, user: string, month: nat)
    ensures Logged(Calls(s, v, c), user, month) == Adds(s, v, c, user, month)
  {
    ChecksLogNothing(s, v, c, user, month);
    InsideLogsMoved(v, c, user, month);
    LoggedAppends(Checks(s, v, c), if StoppedBy(s, v, c).None? then Inside(v, c) else [], user, month);
  }

  // -------------------------------------------------------------------- whole runs

  datatype Visit = Visit(who: Visitor, clock: Clock)

  /** The tracker calls of a run of whole visits, from an empty tracker in the given month. */
  ghost function RunCalls(vs: seq<Visit>, first: nat): seq<Op> {
    if vs == [] then [] else
      var init, last := RunCalls(vs[..|vs| - 1], first), vs[|vs| - 1];
      init + Calls(AfterAll(State(map[], first), init), last.who, last.clock)
  }

  ghost function Tracked(vs: seq<Visit>, first: nat): State {
    AfterAll(State(map[], first), RunCalls(vs, first))
  }

  /** The bytes that the run's visits counted under the user moved in the month. */
  ghost function Moved(vs: seq<Visit>, first: nat, user: string, month: nat): Traffic {
    if vs == [] then Traffic(0, 0) else
      var sum := Moved(vs[..|vs| - 1], first, user, month);
      var last := vs[|vs| - 1];
      var added := Adds(Tracked(vs[..|vs| - 1], first), last.who, last.clock, user, month);
      Traffic(sum.up + added.up, sum.down + added.down)
  }

  lemma {:induction false} RunIsLogged(vs: seq<Visit>, first: nat, user: string, month: nat)
    ensures Logged(RunCalls(vs, first), user, month) == Moved(vs, first, user, month)
  {
    if vs != [] {
      var init, last := vs[..|vs| - 1], vs[|vs| - 1];
      RunIsLogged(init, first, user, month);
      var s := Tracked(init, first);
      VisitIsLogged(s, last.who, last.clock, user, month);
      LoggedAppends(RunCalls(init, first), Calls(s, last.who, last.clock), user, month);
    }
  }

  ghost predicate Ordered(c: Clock, month: nat) {
    month <= c.allowance.month <= c.limit.month <= c.enter.month <= c.record.month <= c.leave.month
  }

  ghost function LastMonth(vs: seq<Visit>, first: nat): nat {
    if vs == [] then first else vs[|vs| - 1].clock.leave.month
  }

  /** The months never go back within a visit or from one to the next. */
  ghost predicate InTurn(vs: seq<Visit>, first: nat) {
    vs == [] || (InTurn(vs[..|vs| - 1], first) && Ordered(vs[|vs| - 1].clock, LastMonth(vs[..|vs| - 1], first)))
  }

  lemma OrderAppends(ops: seq<Op>, more: seq<Op>, first: nat, month: nat)
    requires InOrder(ops, first) && InOrder(more, month) && first <= month
    requires forall i :: 0 <= i < |ops| ==> ops[i].at.month <= month
    ensures InOrder(ops + more, first)
  {
  }

  lemma CallsInOrder(s: State, v: Visitor, c: Clock, month: nat)
    requires Ordered(c, month)
    ensures InOrder(Calls(s, v, c), month)
    ensures forall i :: 0 <= i < |Calls(s, v, c)| ==> Calls(s, v, c)[i].at.month <= c.leave.month
  {
  }

  lemma {:induction false} RunInOrder(vs: seq<Visit>, first: nat)
    requires InTurn(vs, first)
    ensures InOrder(RunCalls(vs, first), first) && first <= LastMonth(vs, first)
    ensures forall i :: 0 <= i < |RunCalls(vs, first)| ==> RunCalls(vs, first)[i].at.month <= LastMonth(vs, first)
  {
    if vs != [] {
      var init, last := vs[..|vs| - 1], vs[|vs| - 1];
      RunInOrder(init, first);
      var s := Tracked(init, first);
      CallsInOrder(s, last.who, last.clock, LastMonth(init, first));
      OrderAppends(RunCalls(init, first), Calls(s, last.who, last.clock), first, LastMonth(init, first));
    }
  }

  lemma AllowanceAtGate(vs: seq<Visit>, first: nat, v: Visitor, c: Clock)
    requires InTurn(vs, first) && Ordered(c, LastMonth(vs, first)) && v.limitGB > 0
    ensures var t := Moved(vs, first, v.name, c.allowance.month);
            Allowed(Tracked(vs, first), AllowanceCheck(v, c)) <==> t.up + t.down < v.limitGB * 0x4000_0000
  {
    RunInOrder(vs, first);
    RunIsLogged(vs, first, v.name, c.allowance.month);
    var ops, check := RunCalls(vs, first), AllowanceCheck(v, c);
    OrderAppends(ops, [check], first, LastMonth(vs, first));
    AllowanceMeetsLog(ops, first, v.name, v.limitGB, c.allowance);
  }

  /** The allowance gate, in any run of visits: it stops exactly the listed visitors within rate, not
      expired and no super admin at its own address, for whose name the bytes counted in this month by
      the visits before reach their limit. */
  lemma AllowanceGateIff(vs: seq<Visit>, first: nat, v: Visitor, c: Clock)
    requires InTurn(vs, first) && Ordered(c, LastMonth(vs, first))
    ensures var t := Moved(vs, first, v.name, c.allowance.month);
            StoppedBy(Tracked(vs, first), v, c) == Some(AllowanceGate) <==>
              && !v.exempt && v.withinRate && v.listed && v.notExpired
              && v.limitGB > 0 && t.up + t.down >= v.limitGB * 0x4000_0000
  {
    if v.limitGB > 0 {
      AllowanceAtGate(vs, first, v, c);
    }
  }

  ghost predicate AtAllowanceGate(vs: seq<Visit>, first: nat, v: Visitor, c: Clock, name: string, key: string) {
    && InTurn(vs, first) && Ordered(c, LastMonth(vs, first))
    && !v.exempt && v.withinRate && v.listed && v.notExpired && v.limitGB > 0
    && v.name == name && v.key == key
  }

  /** The gate holds the account to its limit: it stops the visitor exactly when the bytes counted
      under the visitor's key reach it. */
  ghost predicate HoldsAccount(vs: seq<Visit>, first: nat, v: Visitor, c: Clock) {
    var t := Moved(vs, first, v.key, c.allowance.month);
    StoppedBy(Tracked(vs, first), v, c) == Some(AllowanceGate) <==> t.up + t.down >= v.limitGB * 0x4000_0000
  }

  /** A run after which the account has used its limit and the name nothing. */
  lemma OtherNameIsEmpty(name: string, key: string) returns (vs: seq<Visit>, v: Visitor, c: Clock)
    requires name != key
    ensures AtAllowanceGate(vs, 0, v, c, name, key) && !HoldsAccount(vs, 0, v, c)
  {
    var now := Instant(0, 0);
    c := Clock(now, now, now, now, now);
    var admin := Visitor(key, key, true, true, 0, 0, true, true, Some(Traffic(0x4000_0000, 0)));
    v := Visitor(name, key, false, true, 1, 0, true, true, None);
    vs := [Visit(admin, c)];
    assert vs[..0] == [] && Moved([], 0, key, 0) == Traffic(0, 0) && Moved([], 0, name, 0) == Traffic(0, 0);
    assert InTurn([], 0) && LastMonth([], 0) == 0;
    assert Moved(vs, 0, key, 0) == Traffic(0x4000_0000, 0) && Moved(vs, 0, name, 0) == Traffic(0, 0);
    AllowanceGateIff(vs, 0, v, c);
  }

  /** In all runs the gate holds visitors of this name to the account they are counted under, if and
      only if the name is the one the account is stored as. */
  lemma AccountHeldIff(name: string, key: string)
    ensures (forall vs, first: nat, v, c ::
               AtAllowanceGate(vs, first, v, c, name, key) ==> HoldsAccount(vs, first, v, c))
            <==> name == key
  {
    forall vs, first: nat, v, c | AtAllowanceGate(vs, first, v, c, name, key) && name == key
      ensures HoldsAccount(vs, first, v, c)
    {
      AllowanceGateIff(vs, first, v, c);
    }
    if name != key {
      var vs, v, c := OtherNameIsEmpty(name, key);
    }
  }

  // ----------------------------------------------------- names nothing is counted under

  /** No call counts a connection or bytes under this name. */
  ghost predicate Uncounted(ops: seq<Op>, name: string) {
    forall op :: op in ops && (op.Record? || op.Increment?) ==> op.user != name
  }

  lemma StaysEmpty(s: State, op: Op, name: string)
    requires s.Of(name).total == 0 && s.Of(name).conns == 0
    requires op.Record? || op.Increment? ==> op.user != name
    ensures After(s, op).Of(name).total == 0 && After(s, op).Of(name).conns == 0
  {
  }

  lemma {:induction false} UncountedIsEmpty(ops: seq<Op>, first: nat, name: string)
    requires Uncounted(ops, name)
    ensures var u := AfterAll(State(map[], first), ops).Of(name); u.total == 0 && u.conns == 0
  {
    if ops != [] {
      var init, op := ops[..|ops| - 1], ops[|ops| - 1];
      assert op in ops && forall x :: x in init ==> x in ops;
      UncountedIsEmpty(init, first, name);
      StaysEmpty(AfterAll(State(map[], first), init), op, name);
    }
  }

  /** Whatever else happens to the tracker, in any order and however interleaved, the two checks refuse
      nothing under a name that nothing is counted under. */
  lemma UncountedNeverRefused(ops: seq<Op>, first: nat, check: Op)
    requires (check.Allowance? || check.ConnLimit?) && Uncounted(ops, check.user)
    ensures Allowed(AfterAll(State(map[], first), ops), check)
  {
    UncountedIsEmpty(ops + [check], first, check.user);
    assert (ops + [check])[..|ops|] == ops;
  }
}
