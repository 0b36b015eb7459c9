// One request at the HTTP front end: the gates, the connection count and the byte record of
// handleRequest, handleConnect and handleHTTP in internal/httpproxy/server.go.
module HttpProxy {
  import opened Common
  import opened UsageTracking
  import opened Admission

  /** What everything outside the tracker answers for one request: the name in its credentials, the
      user those belong to if they are valid, and the bytes moved if the target was reached (none up for
      a plain request). */
  datatype Request = Request(
    ipAllowed: bool, name: Option<string>, user: Option<User>, fromSuperAdminIP: bool,
    withinRate: bool, notExpired: bool, moved: Option<Traffic>)

  /** NotReached stands for the errors of a target that could not be reached, and of a malformed URL. */
  datatype Response = Forbidden | AuthRequired | TooManyRequests | NotReached | Relayed

  predicate Authenticated(r: Request) {
    r.ipAllowed && r.name.Some? && r.user.Some?
  }

  /** The gates go by the name in the request, the counts by the stored one. */
  function VisitorOf(r: Request): Visitor
    requires Authenticated(r)
  {
    var user := r.user.value;
    Visitor(r.name.value, user.username, user.isSuperAdmin && r.fromSuperAdminIP, true, user.bandwidthLimitGB,
            user.maxConnections, r.withinRate, r.notExpired, r.moved)
  }

  function Refusal(gate: Gate): Response {
    match gate
    case RateGate => TooManyRequests
    case ExpiryGate => Forbidden
    case AllowanceGate => Forbidden
    case ConnGate => TooManyRequests
  }

  /** The answer, given the gate that stops the request if one does. */
  function Answer(r: Request, stopped: Option<Gate>): Response
    requires Authenticated(r)
  {
    if stopped.Some? then Refusal(stopped.value) else if r.moved.Some? then Relayed else NotReached
  }

  /** The answer to a request with valid credentials, in plain terms, with any tracker and with none. */
  lemma AnswerInPlainTerms(r: Request, s: State, c: Clock)
    requires r.ipAllowed && r.name.Some? && r.user.Some?
    ensures var name, user := r.name.value, r.user.value;
            var gated := !(user.isSuperAdmin && r.fromSuperAdminIP);
            && Answer(r, StoppedBy(s, VisitorOf(r), c)) ==
               (if gated && !r.withinRate then TooManyRequests
                else if gated && !r.notExpired then Forbidden
                else if gated && OverAllowance(s, name, user.bandwidthLimitGB, c.allowance.month) then Forbidden
                else if gated && AtConnLimit(s, name, user.maxConnections) then TooManyRequests
                else if r.moved.Some? then Relayed
                else NotReached)
            && Answer(r, StoppedUntracked(VisitorOf(r))) ==
               (if gated && !r.withinRate then TooManyRequests
                else if gated && !r.notExpired then Forbidden
                else if r.moved.Some? then Relayed
                else NotReached)
  {
    GatesInOrder(s, VisitorOf(r), c);
  }

  /** A request that is relayed is logged under the stored name, and any other not at all; while it is
      served it is one more connection of that name. */
  lemma CountedUnderStoredName(r: Request, s: State, c: Clock, user: string, month: nat)
    requires r.ipAllowed && r.name.Some? && r.user.Some?
    ensures var mine := user == r.user.value.username;
            && Logged(Calls(s, VisitorOf(r), c), user, month) ==
               (if Answer(r, StoppedBy(s, VisitorOf(r), c)) == Relayed && mine && month == c.record.month
                then r.moved.value else Traffic(0, 0))
            && Entered(s, VisitorOf(r), c).Of(user).conns == s.Of(user).conns + (if mine then 1 else 0)
  {
    VisitIsLogged(s, VisitorOf(r), c, user, month);
  }

  /** In a run of visits to either front end: a listed user within rate, not expired and no super admin
      at its own address is answered Forbidden once the bytes counted this month under the name in the
      request reach the limit. */
  lemma ForbiddenIff(vs: seq<Visit>, first: nat, r: Request, c: Clock)
    requires InTurn(vs, first) && Ordered(c, LastMonth(vs, first))
    requires r.ipAllowed && r.name.Some? && r.user.Some? && r.withinRate && r.notExpired
    ensures var t, user := Moved(vs, first, r.name.value, c.allowance.month), r.user.value;
            Answer(r, StoppedBy(Tracked(vs, first), VisitorOf(r), c)) == Forbidden <==>
              && !(user.isSuperAdmin && r.fromSuperAdminIP)
              && user.bandwidthLimitGB > 0 && t.up + t.down >= user.bandwidthLimitGB * 0x4000_0000
  {
    AllowanceGateIff(vs, first, VisitorOf(r), c);
  }

  class Server {
    const bandwidth: Tracker?

    constructor (bandwidth: Tracker?)
      ensures this.bandwidth == bandwidth
    {
      this.bandwidth := bandwidth;
    }

    ghost predicate Valid()
      reads bandwidth
    {
      bandwidth != null ==> bandwidth.Valid()
    }

    method CheckGates(r: Request, c: Clock) returns (stopped: Option<Gate>)
      requires Valid() && Authenticated(r)
      modifies bandwidth, if bandwidth != null then bandwidth.users.Values else {}
      ensures Valid() && (bandwidth != null ==> fresh(bandwidth.users.Values - old(bandwidth.users.Values)))
      ensures bandwidth != null ==>
                && stopped == StoppedBy(old(bandwidth.View()), VisitorOf(r), c)
                && bandwidth.View() == Checked(old(bandwidth.View()), VisitorOf(r), c)
      ensures bandwidth == null ==> stopped == StoppedUntracked(VisitorOf(r))
    {
      var user := r.user.value;
      var isSuperAdmin := false;
      if user.isSuperAdmin {
        if r.fromSuperAdminIP {
          isSuperAdmin := true;
        }
      }
      if !isSuperAdmin {
        if !r.withinRate {
          return Some(RateGate);
        }
        if !r.notExpired {
          return Some(ExpiryGate);
        }
        if bandwidth != null {
          var ok := bandwidth.CheckAllowance(r.name.value, user.bandwidthLimitGB, c.allowance);
          if !ok {
            return Some(AllowanceGate);
          }
          ok := bandwidth.CheckConnLimit(r.name.value, user.maxConnections, c.limit);
          if !ok {
            return Some(ConnGate);
          }
        }
      }
      stopped := None;
    }

    /** Between the count up and the deferred count down: CONNECT and plain requests alike. */
    method Serve(r: Request, c: Clock) returns (answer: Response)
      requires Valid() && Authenticated(r)
      modifies bandwidth, if bandwidth != null then bandwidth.users.Values else {}
      ensures Valid() && answer == Answer(r, None)
      ensures bandwidth != null ==> bandwidth.View() == Served(old(bandwidth.View()), VisitorOf(r), c)
    {
      var user := r.user.value.username;
      if bandwidth != null {
        bandwidth.IncrementConns(user, c.enter);
      }
      answer := NotReached;
      if r.moved.Some? {
        answer := Relayed;
        if bandwidth != null {
          bandwidth.RecordBytes(user, r.moved.value.up, r.moved.value.down, c.record);
        }
      }
      if bandwidth != null {
        bandwidth.DecrementConns(user, c.leave);
      }
    }

    method HandleRequest(r: Request, c: Clock) returns (answer: Response)
      requires Valid()
      modifies bandwidth, if bandwidth != null then bandwidth.users.Values else {}
      ensures Valid()
      ensures !r.ipAllowed ==> answer == Forbidden
      ensures r.ipAllowed && (r.name.None? || r.user.None?) ==> answer == AuthRequired
      ensures (!r.ipAllowed || r.name.None? || r.user.None?) && bandwidth != null ==>
                bandwidth.View() == old(bandwidth.View())
      ensures r.ipAllowed && r.name.Some? && r.user.Some? && bandwidth != null ==>
                && answer == Answer(r, StoppedBy(old(bandwidth.View()), VisitorOf(r), c))
                && bandwidth.View() == AfterAll(old(bandwidth.View()), Calls(old(bandwidth.View()), VisitorOf(r), c))
      ensures r.ipAllowed && r.name.Some? && r.user.Some? && bandwidth == null ==>
                answer == Answer(r, StoppedUntracked(VisitorOf(r)))
    {
      if !r.ipAllowed {
        return Forbidden;
      }
      if r.name.None? || r.user.None? {
        return AuthRequired;
      }
      if bandwidth != null {
        AfterCalls(bandwidth.View(), VisitorOf(r), c);
      }
      var stopped := CheckGates(r, c);
      if stopped.Some? {
        match stopped.value {
          case RateGate => return TooManyRequests;
          case ExpiryGate => return Forbidden;
          case AllowanceGate => return Forbidden;
          case ConnGate => return TooManyRequests;
        }
      }
      answer := Serve(r, c);
    }
  }
}
