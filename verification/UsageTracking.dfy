// Monthly usage per user: internal/bandwidth/tracker.go.
module UsageTracking {
  import opened Common

  /** A clock reading: the calendar month, counted up, and the time stamp. */
  datatype Instant = Instant(month: nat, stamp: int)

  datatype Usage = Usage(up: int, down: int, total: int, lastReset: int, conns: int) {
    function Cleared(stamp: int): Usage {
      this.(up := 0, down := 0, total := 0, lastReset := stamp)
    }
  }

  function NoUsage(stamp: int): Usage {
    Usage(0, 0, 0, stamp, 0)
  }

  datatype UsageFile = UsageFile(month: nat, users: map<string, Usage>)

  /** What the mutex guards. */
  datatype State = State(users: map<string, Usage>, month: nat) {
    function Ensure(user: string, at: Instant): State {
      if user in users then this else this.(users := users[user := NoUsage(at.stamp)])
    }

    function Update(user: string, u: Usage): State {
      this.(users := users[user := u])
    }

    function MonthlyReset(at: Instant): State {
      if at.month == month then this
      else State(map u | u in users :: users[u].Cleared(at.stamp), at.month)
    }

    function Added(user: string, up: int, down: int): Usage
      requires user in users
    {
      var u := users[user];
      u.(up := u.up + up, down := u.down + down, total := u.total + (up + down))
    }

    function Add(user: string, up: int, down: int): State
      requires user in users
    {
      Update(user, Added(user, up, down))
    }

    function Of(user: string): Usage {
      if user in users then users[user] else NoUsage(0)
    }
  }

  // --------------------------------------------------------------- the operations

  datatype Op =
    | Record(user: string, up: int, down: int, at: Instant)
    | Allowance(user: string, limitGB: int, at: Instant)
    | Increment(user: string, at: Instant)
    | Decrement(user: string, at: Instant)
    | ConnLimit(user: string, maxConns: int, at: Instant)
    | Look(user: string, at: Instant)
    | Restart(at: Instant)      // clean stop, then a new tracker on the same file

  /** A new tracker on the given file: this month's records come back, without connections. */
  function Loaded(disk: Option<UsageFile>, at: Instant): State {
    if disk.Some? && disk.value.month == at.month then
      State(map u | u in disk.value.users :: disk.value.users[u].(conns := 0), at.month)
    else State(map[], at.month)
  }

  function After(s: State, op: Op): State {
    match op
    case Record(user, up, down, at) => s.MonthlyReset(at).Ensure(user, at).Add(user, up, down)
    case Allowance(user, limitGB, at) => if limitGB <= 0 then s else s.MonthlyReset(at).Ensure(user, at)
    case Increment(user, at) =>
      var t := s.Ensure(user, at);
      t.Update(user, t.users[user].(conns := t.users[user].conns + 1))
    case Decrement(user, at) =>
      var t := s.Ensure(user, at);
      if t.users[user].conns > 0 then t.Update(user, t.users[user].(conns := t.users[user].conns - 1)) else t
    case ConnLimit(user, maxConns, at) => if maxConns <= 0 then s else s.Ensure(user, at)
    case Look(user, at) => s.Ensure(user, at)
    case Restart(at) => Loaded(Some(UsageFile(s.month, s.users)), at)
  }

  /** The answer of the two checks. */
  function Allowed(s: State, op: Op): bool
    requires op.Allowance? || op.ConnLimit?
  {
    match op
    case Allowance(user, limitGB, at) =>
      limitGB <= 0 || After(s, op).Of(user).total < limitGB * 1024 * 1024 * 1024
    case ConnLimit(user, maxConns, at) =>
      maxConns <= 0 || After(s, op).Of(user).conns < maxConns
  }

  ghost function AfterAll(s: State, ops: seq<Op>): State {
    if ops == [] then s else After(AfterAll(s, ops[..|ops| - 1]), ops[|ops| - 1])
  }

  // --------------------------------------------------------- the log it stands for

  datatype Traffic = Traffic(up: int, down: int)

  /** What the plain log of Record calls says about one user and one month. */
  ghost function Logged(ops: seq<Op>, user: string, month: nat): Traffic {
    if ops == [] then Traffic(0, 0) else
      var sum := Logged(ops[..|ops| - 1], user, month);
      var op := ops[|ops| - 1];
      if op.Record? && op.user == user && op.at.month == month
      then Traffic(sum.up + op.up, sum.down + op.down) else sum
  }

  /** Months never go back, starting from the given one. */
  ghost predicate InOrder(ops: seq<Op>, first: nat) {
    forall i, j :: 0 <= i <= j < |ops| ==> first <= ops[i].at.month <= ops[j].at.month
  }

  ghost predicate MonthIsRecent(s: State, ops: seq<Op>, first: nat) {
    if ops == [] then s.month == first else s.month <= ops[|ops| - 1].at.month
  }

  ghost predicate Shows(s: State, user: string, t: Traffic) {
    s.Of(user).up == t.up && s.Of(user).down == t.down && s.Of(user).total == t.up + t.down
  }

  ghost function LoggedBy(op: Op, user: string): Traffic {
    if op.Record? && op.user == user then Traffic(op.up, op.down) else Traffic(0, 0)
  }

  lemma StepShows(s: State, op: Op, user: string, t: Traffic)
    requires Shows(s, user, t)
    ensures var s' := After(s, op);
            var kept := if s'.month == s.month then t else Traffic(0, 0);
            var added := LoggedBy(op, user);
            && (s'.month == s.month || s'.month == op.at.month)
            && (op.Record? ==> s'.month == op.at.month)
            && Shows(s', user, Traffic(kept.up + added.up, kept.down + added.down))
  {
  }

  /** The month turns for a user with the first record or allowance check in it: the bytes start from
      nothing at that time, and the connections stay. */
  lemma MonthTurns(s: State, at: Instant, user: string)
    requires at.month != s.month && user in s.users
    ensures s.MonthlyReset(at).month == at.month
    ensures s.MonthlyReset(at).Of(user) == Usage(0, 0, 0, at.stamp, s.users[user].conns)
  {
  }

  /** Month resets, byte records, checks and look-ups leave every connection count alone. */
  lemma ConnsKept(s: State, op: Op, user: string)
    requires op.Record? || op.Allowance? || op.Look? || op.ConnLimit?
    ensures After(s, op).Of(user).conns == s.Of(user).conns
  {
  }

  /** Over any run, restarts included, every user shows this month's part of the log. */
  lemma {:induction false} RefinesLog(ops: seq<Op>, first: nat, user: string)
    requires InOrder(ops, first)
    ensures var s := AfterAll(State(map[], first), ops);
            && first <= s.month && MonthIsRecent(s, ops, first)
            && Shows(s, user, Logged(ops, user, s.month))
            && forall m: nat :: m > s.month ==> Logged(ops, user, m) == Traffic(0, 0)
  {
    if ops != [] {
      var init, op := ops[..|ops| - 1], ops[|ops| - 1];
      RefinesLog(init, first, user);
      var s := AfterAll(State(map[], first), init);
      assert s.month <= op.at.month;
      StepShows(s, op, user, Logged(init, user, s.month));
    }
  }

  /** A positive limit lets a user in exactly while this month's logged total is below it. */
  lemma AllowanceMeetsLog(ops: seq<Op>, first: nat, user: string, limitGB: int, at: Instant)
    requires InOrder(ops + [Allowance(user, limitGB, at)], first) && limitGB > 0
    ensures var t := Logged(ops, user, at.month);
            Allowed(AfterAll(State(map[], first), ops), Allowance(user, limitGB, at)) <==>
            t.up + t.down < limitGB * 0x4000_0000
  {
    var check := Allowance(user, limitGB, at);
    assert (ops + [check])[..|ops|] == ops;
    RefinesLog(ops + [check], first, user);
    assert Logged(ops + [check], user, at.month) == Logged(ops, user, at.month);
    RunOrdered(ops, [check], first);
    RefinesLog(ops, first, user);
  }

  lemma RunOrdered(ops: seq<Op>, more: seq<Op>, first: nat)
    requires InOrder(ops + more, first)
    ensures InOrder(ops, first)
  {
    forall i, j | 0 <= i <= j < |ops|
      ensures first <= ops[i].at.month <= ops[j].at.month
    {
      assert (ops + more)[i] == ops[i] && (ops + more)[j] == ops[j];
    }
  }

  // ------------------------------------------------------------- stop and reload

  /** A reload shows the same bytes exactly when the month has not turned or there were none. */
  lemma RestartShows(s: State, user: string, at: Instant)
    ensures var u, v := s.Of(user), After(s, Restart(at)).Of(user);
            && v.conns == 0
            && ((v.up, v.down, v.total) == (u.up, u.down, u.total) <==>
                s.month == at.month || (u.up, u.down, u.total) == (0, 0, 0))
  {
  }

  lemma {:induction false} LogIgnoresRestart(pre: seq<Op>, at: Instant, post: seq<Op>, user: string, month: nat)
    ensures Logged(pre + [Restart(at)] + post, user, month) == Logged(pre + post, user, month)
  {
    if post == [] {
      assert (pre + [Restart(at)] + post)[..|pre|] == pre && pre + post == pre;
    } else {
      var k := |post| - 1;
      LogIgnoresRestart(pre, at, post[..k], user, month);
      assert (pre + [Restart(at)] + post)[..|pre| + 1 + k] == pre + [Restart(at)] + post[..k];
      assert (pre + post)[..|pre| + k] == pre + post[..k];
    }
  }

  lemma WithoutRestartOrdered(pre: seq<Op>, at: Instant, post: seq<Op>, first: nat)
    requires InOrder(pre + [Restart(at)] + post, first)
    ensures InOrder(pre + post, first)
  {
    var all := pre + [Restart(at)] + post;
    forall i, j | 0 <= i <= j < |pre + post|
      ensures first <= (pre + post)[i].at.month <= (pre + post)[j].at.month
    {
      assert (pre + post)[i] == all[if i < |pre| then i else i + 1];
      assert (pre + post)[j] == all[if j < |pre| then j else j + 1];
    }
  }

  /** After a restart anywhere in a run, the allowance check answers as if there had been none. */
  lemma RestartUnseenByAllowance(pre: seq<Op>, at: Instant, post: seq<Op>, first: nat,
                                 user: string, limitGB: int, now: Instant)
    requires InOrder(pre + [Restart(at)] + post + [Allowance(user, limitGB, now)], first)
    ensures Allowed(AfterAll(State(map[], first), pre + [Restart(at)] + post), Allowance(user, limitGB, now)) ==
            Allowed(AfterAll(State(map[], first), pre + post), Allowance(user, limitGB, now))
  {
    if limitGB > 0 {
      var check := [Allowance(user, limitGB, now)];
      AllowanceMeetsLog(pre + [Restart(at)] + post, first, user, limitGB, now);
      LogIgnoresRestart(pre, at, post, user, now.month);
      assert pre + [Restart(at)] + post + check == pre + [Restart(at)] + (post + check);
      WithoutRestartOrdered(pre, at, post + check, first);
      assert pre + (post + check) == pre + post + check;
      AllowanceMeetsLog(pre + post, first, user, limitGB, now);
    }
  }

  /** Once both trackers have seen the same month, every user shows the same bytes in both. */
  lemma RestartUnseenInUsage(pre: seq<Op>, at: Instant, post: seq<Op>, first: nat, user: string)
    requires InOrder(pre + [Restart(at)] + post, first)
    requires AfterAll(State(map[], first), pre + [Restart(at)] + post).month ==
             AfterAll(State(map[], first), pre + post).month
    ensures var u := AfterAll(State(map[], first), pre + [Restart(at)] + post).Of(user);
            var v := AfterAll(State(map[], first), pre + post).Of(user);
            (u.up, u.down, u.total) == (v.up, v.down, v.total)
  {
    RefinesLog(pre + [Restart(at)] + post, first, user);
    WithoutRestartOrdered(pre, at, post, first);
    RefinesLog(pre + post, first, user);
    LogIgnoresRestart(pre, at, post, user, AfterAll(State(map[], first), pre + post).month);
  }

  // -------------------------------------------------------------------- the class

  class UserUsage {
    var up: int
    var down: int
    var total: int
    var lastReset: int
    var conns: int

    function View(): Usage
      reads this
    {
      Usage(up, down, total, lastReset, conns)
    }

    constructor (stamp: int)
      ensures View() == NoUsage(stamp)
    {
      up, down, total, lastReset, conns := 0, 0, 0, stamp, 0;
    }

    /** A record read back from the file, its connections forgotten. */
    constructor FromFile(u: Usage)
      ensures View() == u.(conns := 0)
    {
      up, down, total, lastReset, conns := u.up, u.down, u.total, u.lastReset, 0;
    }
  }

  class Tracker {
    var users: map<string, UserUsage>
    var month: nat
    var disk: Option<UsageFile>    // the file at filePath, if any

    /** No two users share a record. */
    ghost predicate Valid()
      reads this
    {
      forall u, v :: u in users && v in users && u != v ==> users[u] != users[v]
    }

    function View(): State
      reads this, users.Values
    {
      State(map u | u in users :: users[u].View(), month)
    }

    /** NewTracker: start empty in the current month, then read the file. */
    constructor (disk: Option<UsageFile>, at: Instant)
      ensures Valid() && fresh(users.Values) && this.disk == disk
      ensures View() == Loaded(disk, at)
    {
      users, month := map[], at.month;
      this.disk := disk;
      new;
      LoadFromDisk(at);
    }

    method LoadFromDisk(at: Instant)
      requires Valid() && users == map[] && month == at.month
      modifies this`users, this`month
      ensures Valid() && fresh(users.Values)
      ensures View() == Loaded(disk, at)
    {
      if disk.Some? && disk.value.month == at.month {
        var todo := disk.value.users.Keys;
        while todo != {}
          invariant Valid() && month == at.month && forall u :: u in users ==> fresh(users[u])
          invariant todo <= disk.value.users.Keys && users.Keys == disk.value.users.Keys - todo
          invariant forall u :: u in users ==> users[u].View() == disk.value.users[u].(conns := 0)
          decreases todo
        {
          var u :| u in todo;
          var usage := new UserUsage.FromFile(disk.value.users[u]);
          users := users[u := usage];
          todo := todo - {u};
        }
      }
    }

    twostate lemma OneRecordChanged(username: string)
      requires old(Valid()) && username in users && users == old(users) && month == old(month)
      requires forall u :: u in users && u != username ==> unchanged(users[u])
      ensures Valid() && View() == old(View()).Update(username, users[username].View())
    {
    }

    twostate lemma NewRecordAdded(username: string, new u: UserUsage)
      requires old(Valid()) && users == old(users)[username := u] && fresh(u) && month == old(month)
      requires forall v :: v in old(users) ==> unchanged(old(users)[v])
      ensures Valid() && View() == old(View()).Update(username, u.View())
    {
    }

    method GetOrCreate(username: string, at: Instant) returns (u: UserUsage)
      requires Valid()
      modifies this`users
      ensures Valid() && fresh(users.Values - old(users.Values))
      ensures username in users && u == users[username]
      ensures View() == old(View()).Ensure(username, at)
    {
      if username !in users {
        u := new UserUsage(at.stamp);
        users := users[username := u];
        NewRecordAdded(username, u);
      }
      u := users[username];
    }

    method CheckMonthlyReset(at: Instant)
      requires Valid()
      modifies this`month, this`disk, users.Values
      ensures Valid() && View() == old(View()).MonthlyReset(at)
    {
      if at.month != month {
        var todo := users.Keys;
        while todo != {}
          invariant todo <= users.Keys
          invariant forall u :: u in users.Keys - todo ==> users[u].View() == old(users[u].View()).Cleared(at.stamp)
          invariant forall u :: u in todo ==> users[u].View() == old(users[u].View())
          decreases todo
        {
          var name :| name in todo;
          var u := users[name];
          u.up, u.down, u.total, u.lastReset := 0, 0, 0, at.stamp;
          todo := todo - {name};
        }
        month := at.month;
        SaveToDiskLocked();
      }
    }

    method SaveToDiskLocked()
      modifies this`disk
      ensures View() == old(View()) && disk == Some(UsageFile(View().month, View().users))
    {
      disk := Some(UsageFile(month, View().users));
    }

    method RecordBytes(username: string, up: int, down: int, at: Instant)
      requires Valid()
      modifies this, users.Values
      ensures Valid() && View() == After(old(View()), Record(username, up, down, at))
      ensures fresh(users.Values - old(users.Values))
    {
      CheckMonthlyReset(at);
      var u := GetOrCreate(username, at);
      ghost var t := View();
      assert t == old(View()).MonthlyReset(at).Ensure(username, at) && t.users[username] == u.View();
      label before:
      u.up := u.up + up;
      u.down := u.down + down;
      u.total := u.total + (up + down);
      OneRecordChanged@before(username);
      assert u.View() == t.Added(username, up, down);
    }

    method CheckAllowance(username: string, limitGB: int, at: Instant) returns (ok: bool)
      requires Valid()
      modifies this, users.Values
      ensures Valid() && View() == After(old(View()), Allowance(username, limitGB, at))
      ensures fresh(users.Values - old(users.Values))
      ensures ok == Allowed(old(View()), Allowance(username, limitGB, at))
    {
      if limitGB <= 0 {
        return true;
      }
      CheckMonthlyReset(at);
      var u := GetOrCreate(username, at);
      var limitBytes := limitGB * 1024 * 1024 * 1024;
      return u.total < limitBytes;
    }

    method IncrementConns(username: string, at: Instant)
      requires Valid()
      modifies this, users.Values
      ensures Valid() && View() == After(old(View()), Increment(username, at))
      ensures fresh(users.Values - old(users.Values))
    {
      var u := GetOrCreate(username, at);
      label before:
      u.conns := u.conns + 1;
      OneRecordChanged@before(username);
    }

    method DecrementConns(username: string, at: Instant)
      requires Valid()
      modifies this, users.Values
      ensures Valid() && View() == After(old(View()), Decrement(username, at))
      ensures fresh(users.Values - old(users.Values))
    {
      var u := GetOrCreate(username, at);
      label before:
      if u.conns > 0 {
        u.conns := u.conns - 1;
      }
      OneRecordChanged@before(username);
    }

    method CheckConnLimit(username: string, maxConns: int, at: Instant) returns (ok: bool)
      requires Valid()
      modifies this`users
      ensures Valid() && View() == After(old(View()), ConnLimit(username, maxConns, at))
      ensures fresh(users.Values - old(users.Values))
      ensures ok == Allowed(old(View()), ConnLimit(username, maxConns, at))
    {
      if maxConns <= 0 {
        return true;
      }
      var u := GetOrCreate(username, at);
      return u.conns < maxConns;
    }

    method GetUsage(username: string, at: Instant) returns (usage: Usage)
      requires Valid()
      modifies this`users
      ensures Valid() && View() == After(old(View()), Look(username, at))
      ensures usage == View().Of(username)
    {
      var u := GetOrCreate(username, at);
      usage := u.View();
    }

    /** The file a clean stop leaves behind is the one that Restart reads. */
    method Stop()
      modifies this`disk
      ensures disk == Some(UsageFile(View().month, View().users)) && View() == old(View())
      ensures forall at :: Loaded(disk, at) == After(View(), Restart(at))
    {
      SaveToDiskLocked();
    }
  }
}
