// A whole SOCKS5 session, on the wire and on the usage tracker: handleConnection of
// internal/socks5/server.go. The wire side alone is in Socks5.dfy.
module Socks5Session {
  import opened Common
  import opened UsageTracking
  import opened Admission
  import Socks5

  /** A session logged in as name, with the user found under it then, if any; moved are the bytes
      recorded at the end if the request was good and the target was reached. */
  datatype Login = Login(
    name: string, user: Option<User>, fromSuperAdminIP: bool, withinRate: bool, notExpired: bool,
    moved: Option<Traffic>)

  /** Gates and counts both go by the name logged in with. */
  function VisitorOf(x: Login): Visitor {
    match x.user
    case Some(user) =>
      Visitor(x.name, x.name, user.isSuperAdmin && x.fromSuperAdminIP, true, user.bandwidthLimitGB,
              user.maxConnections, x.withinRate, x.notExpired, x.moved)
    case None => Visitor(x.name, x.name, false, false, 0, 0, x.withinRate, x.notExpired, x.moved)
  }

  function Ended(x: Login, relayed: bool, traffic: Traffic): Login {
    x.(moved := if relayed then Some(traffic) else None)
  }

  ghost predicate Passes(tracker: Option<State>, x: Login, c: Clock) {
    if tracker.Some? then StoppedBy(tracker.value, VisitorOf(x), c).None? else StoppedUntracked(VisitorOf(x)).None?
  }

  /** Who passes the gates, in plain terms, with any tracker and with none. */
  lemma PassesIff(x: Login, s: State, c: Clock)
    ensures var admin := x.user.Some? && x.user.value.isSuperAdmin && x.fromSuperAdminIP;
            && (Passes(Some(s), x, c) <==>
                || admin
                || (x.withinRate &&
                    (x.user.None? ||
                     (&& x.notExpired
                      && !OverAllowance(s, x.name, x.user.value.bandwidthLimitGB, c.allowance.month)
                      && !AtConnLimit(s, x.name, x.user.value.maxConnections)))))
            && (Passes(None, x, c) <==> admin || (x.withinRate && (x.user.None? || x.notExpired)))
  {
    GatesInOrder(s, VisitorOf(x), c);
  }

  /** A session that relays is logged under the name logged in with, and any other not at all; from the
      gates to its end it is one more connection of that name. */
  lemma CountedUnderLogin(x: Login, s: State, c: Clock, user: string, month: nat)
    ensures Logged(Calls(s, VisitorOf(x), c), user, month) ==
            if Passes(Some(s), x, c) && x.moved.Some? && user == x.name && month == c.record.month
            then x.moved.value else Traffic(0, 0)
    ensures Entered(s, VisitorOf(x), c).Of(user).conns == s.Of(user).conns + (if user == x.name then 1 else 0)
  {
    VisitIsLogged(s, VisitorOf(x), c, user, month);
  }

  class Handler {
    const wire: Socks5.Server
    const login: bytes -> Login    // what the user store answers for a name
    const bandwidth: Tracker?

    constructor (wire: Socks5.Server, login: bytes -> Login, bandwidth: Tracker?)
      ensures this.wire == wire && this.login == login && this.bandwidth == bandwidth
    {
      this.wire, this.login, this.bandwidth := wire, login, bandwidth;
    }

    ghost predicate Valid()
      reads bandwidth
    {
      bandwidth != null ==> bandwidth.Valid()
    }

    ghost function Tracker(): Option<State>
      reads bandwidth, if bandwidth != null then bandwidth.users.Values else {}
    {
      if bandwidth != null then Some(bandwidth.View()) else None
    }

    /** The gates of a session that finds the tracker in the given state. */
    ghost function Gates(tracker: Option<State>, c: Clock): Socks5.Gates {
      name => Passes(tracker, login(name), c)
    }

    /** What a user says and gets after the login. */
    ghost function UserSession(tracker: Option<State>, c: Clock, username: bytes, input: bytes): Socks5.Session {
      if Passes(tracker, login(username), c) then Socks5.Connect(wire.world, username, input)
      else Socks5.Session([], None)
    }

    /** What the visit makes of the tracker; VisitIsCalls says which calls that is. */
    ghost function AfterVisit(s: State, username: bytes, relayed: bool, traffic: Traffic, c: Clock): State {
      var x := login(username);
      var t := Checked(s, VisitorOf(x), c);
      if StoppedBy(s, VisitorOf(x), c).Some? then t
      else Left(Entered(t, VisitorOf(x), c), VisitorOf(Ended(x, relayed, traffic)), c)
    }

    lemma VisitIsCalls(s: State, username: bytes, relayed: bool, traffic: Traffic, c: Clock)
      ensures var v := VisitorOf(login(username).(moved := if relayed then Some(traffic) else None));
              AfterVisit(s, username, relayed, traffic, c) == AfterAll(s, Calls(s, v, c))
    {
      AfterCalls(s, VisitorOf(Ended(login(username), relayed, traffic)), c);
    }

    method CheckGates(x: Login, c: Clock) returns (passed: bool)
      requires Valid()
      modifies bandwidth, if bandwidth != null then bandwidth.users.Values else {}
      ensures Valid() && (bandwidth != null ==> fresh(bandwidth.users.Values - old(bandwidth.users.Values)))
      ensures passed == Passes(old(Tracker()), x, c)
      ensures bandwidth != null ==> bandwidth.View() == Checked(old(bandwidth.View()), VisitorOf(x), c)
    {
      var isSuperAdmin := false;
      if x.user.Some? && x.user.value.isSuperAdmin {
        if x.fromSuperAdminIP {
          isSuperAdmin := true;
        }
      }
      if !isSuperAdmin {
        if !x.withinRate {
          return false;
        }
      }
      if !isSuperAdmin && x.user.Some? {
        if !x.notExpired {
          return false;
        }
        if bandwidth != null {
          var ok := bandwidth.CheckAllowance(x.name, x.user.value.bandwidthLimitGB, c.allowance);
          if !ok {
            return false;
          }
          ok := bandwidth.CheckConnLimit(x.name, x.user.value.maxConnections, c.limit);
          if !ok {
            return false;
          }
        }
      }
      passed := true;
    }

    method Enter(x: Login, c: Clock)
      requires Valid()
      modifies bandwidth, if bandwidth != null then bandwidth.users.Values else {}
      ensures Valid() && (bandwidth != null ==> fresh(bandwidth.users.Values - old(bandwidth.users.Values)))
      ensures bandwidth != null ==> bandwidth.View() == Entered(old(bandwidth.View()), VisitorOf(x), c)
    {
      if bandwidth != null {
        bandwidth.IncrementConns(x.name, c.enter);
      }
    }

    /** The byte record of a session that relayed, and the deferred count down. */
    method Leave(x: Login, c: Clock)
      requires Valid()
      modifies bandwidth, if bandwidth != null then bandwidth.users.Values else {}
      ensures Valid() && (bandwidth != null ==> fresh(bandwidth.users.Values - old(bandwidth.users.Values)))
      ensures bandwidth != null ==> bandwidth.View() == Left(old(bandwidth.View()), VisitorOf(x), c)
    {
      if bandwidth != null {
        if x.moved.Some? {
          bandwidth.RecordBytes(x.name, x.moved.value.up, x.moved.value.down, c.record);
        }
        bandwidth.DecrementConns(x.name, c.leave);
      }
    }

    /** From the login on. */
    method HandleUser(conn: Socks5.Conn, username: bytes, c: Clock, traffic: Traffic) returns (target: Option<bytes>)
      requires Valid()
      modifies conn`chunks, conn`sent, bandwidth, if bandwidth != null then bandwidth.users.Values else {}
      ensures Valid()
      ensures Socks5.Goes(UserSession(old(Tracker()), c, username, old(conn.Pending())),
                          old(conn.sent), conn.sent, target, conn.Pending())
      ensures bandwidth != null ==>
                bandwidth.View() == AfterVisit(old(bandwidth.View()), username, target.Some?, traffic, c)
    {
      var passed := CheckGates(login(username), c);
      if !passed {
        return None;
      }
      Enter(login(username), c);
      target := wire.ConnectTarget(conn, username);
      Leave(Ended(login(username), target.Some?, traffic), c);
    }

    /** The session up to the end of its relay: what it says, whom it relays for and to where, what it
        leaves unread, and all it does to the tracker. */
    method HandleConnection(conn: Socks5.Conn, c: Clock, traffic: Traffic)
      returns (username: bytes, target: Option<bytes>)
      requires Valid()
      modifies conn`chunks, conn`sent, bandwidth, if bandwidth != null then bandwidth.users.Values else {}
      ensures Valid()
      ensures var s := Socks5.Serve(wire.world, Gates(old(Tracker()), c), old(conn.Pending()));
              && Socks5.Goes(s, old(conn.sent), conn.sent, target, conn.Pending())
              && (s.relay.Some? ==> s.relay.value.user == username)
      ensures bandwidth != null ==>
                var o := Socks5.Negotiate(old(conn.Pending()), wire.world.valid);
                bandwidth.View() ==
                if wire.world.ipAllowed && o.Done?
                then AfterVisit(old(bandwidth.View()), o.value, target.Some?, traffic, c)
                else old(bandwidth.View())
    {
      username, target := [], None;
      ghost var input, before, gates := conn.Pending(), conn.sent, Gates(Tracker(), c);
      if !wire.world.ipAllowed {
        Socks5.GoesSilent(wire.world, gates, input, before, input);
        return;
      }
      var name := wire.HandleMethodNegotiation(conn);
      if name.None? {
        Socks5.GoesNoFurther(wire.world, gates, input, before, conn.Pending());
        return;
      }
      username := name.value;
      target := HandleUser(conn, username, c, traffic);
      Socks5.GoesOn(wire.world, gates, input, before, conn.sent, target, conn.Pending());
    }
  }
}
