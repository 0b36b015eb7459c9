// The same clients at the two front ends, which share one usage tracker
// (cmd/proxy/main.go): whether it matters to the tracker which one each of them used.
module FrontEnds {
  import opened Common
  import opened UsageTracking
  import opened Admission
  import HttpProxy
  import Socks5Session

  datatype Front = Http | Socks

  /** A client with valid credentials of a listed user, spelled as name. */
  datatype Client = Client(name: string, user: User, fromSuperAdminIP: bool, withinRate: bool, notExpired: bool,
                           moved: Option<Traffic>, clock: Clock)

  function VisitAt(f: Front, x: Client): Visit {
    var who := match f
      case Http =>
        HttpProxy.VisitorOf(HttpProxy.Request(true, Some(x.name), Some(x.user), x.fromSuperAdminIP, x.withinRate,
                                              x.notExpired, x.moved))
      case Socks =>
        Socks5Session.VisitorOf(Socks5Session.Login(x.name, Some(x.user), x.fromSuperAdminIP, x.withinRate,
                                                    x.notExpired, x.moved));
    Visit(who, x.clock)
  }

  /** The run in which client i used front end fs[i]. */
  function Visits(xs: seq<Client>, fs: seq<Front>): (vs: seq<Visit>)
    requires |xs| == |fs|
  {
    seq(|xs|, i requires 0 <= i < |xs| => VisitAt(fs[i], xs[i]))
  }

  /** Two visits that differ at most in what they are counted under. */
  ghost predicate SameButKey(v: Visit, w: Visit) {
    v.clock == w.clock && w.who == v.who.(key := w.who.key)
  }

  /** Which visits of the run pass the gates. */
  ghost function Admitted(vs: seq<Visit>, first: nat): (admitted: seq<bool>)
    ensures |admitted| == |vs|
  {
    if vs == [] then [] else
      var n := |vs| - 1;
      Admitted(vs[..n], first) + [StoppedBy(Tracked(vs[..n], first), vs[n].who, vs[n].clock).None?]
  }

  ghost predicate Alike(vs: seq<Visit>, ws: seq<Visit>, admitted: seq<bool>)
    requires |vs| == |ws| == |admitted|
  {
    forall i :: 0 <= i < |vs| && admitted[i] ==> vs[i].who.key == ws[i].who.key
  }

  /** Neither is a prefix of the other. */
  ghost predicate Diverge(a: seq<Op>, b: seq<Op>) {
    exists n: nat :: n < |a| && n < |b| && a[n] != b[n]
  }

  lemma DivergeStays(a: seq<Op>, b: seq<Op>, more: seq<Op>, other: seq<Op>)
    requires Diverge(a, b)
    ensures Diverge(a + more, b + other)
  {
    var n: nat :| n < |a| && n < |b| && a[n] != b[n];
    assert (a + more)[n] == a[n] && (b + other)[n] == b[n];
  }

  lemma KeyShows(before: seq<Op>, s: State, v: Visit, w: Visit)
    requires SameButKey(v, w)
    ensures StoppedBy(s, v.who, v.clock).Some? || v.who.key == w.who.key ==>
              Calls(s, v.who, v.clock) == Calls(s, w.who, w.clock)
    ensures StoppedBy(s, v.who, v.clock).None? && v.who.key != w.who.key ==>
              Diverge(before + Calls(s, v.who, v.clock), before + Calls(s, w.who, w.clock))
  {
    var c, h, k := v.clock, v.who, w.who;
    assert Checks(s, h, c) == Checks(s, k, c);
    if StoppedBy(s, h, c).None? && h.key != k.key {
      var n := |Checks(s, h, c)|;
      assert Calls(s, h, c)[n] == Inside(h, c)[0] == Increment(h.key, c.enter);
      assert Calls(s, k, c)[n] == Inside(k, c)[0] == Increment(k.key, c.enter);
      assert (before + Calls(s, h, c))[|before| + n] != (before + Calls(s, k, c))[|before| + n];
    }
  }

  lemma AlikeInit(vs: seq<Visit>, ws: seq<Visit>, admitted: seq<bool>, n: nat)
    requires |vs| == |ws| == |admitted| == n + 1
    ensures Alike(vs, ws, admitted) <==>
            Alike(vs[..n], ws[..n], admitted[..n]) && (admitted[n] ==> vs[n].who.key == ws[n].who.key)
  {
  }

  lemma LastCalls(vs: seq<Visit>, first: nat, n: nat)
    requires |vs| == n + 1
    ensures RunCalls(vs, first) ==
            RunCalls(vs[..n], first) + Calls(Tracked(vs[..n], first), vs[n].who, vs[n].clock)
    ensures Admitted(vs, first)[..n] == Admitted(vs[..n], first)
    ensures Admitted(vs, first)[n] == StoppedBy(Tracked(vs[..n], first), vs[n].who, vs[n].clock).None?
  {
  }

  lemma {:induction false} AlikeOrDiverge(vs: seq<Visit>, ws: seq<Visit>, first: nat)
    requires |vs| == |ws| && forall i :: 0 <= i < |vs| ==> SameButKey(vs[i], ws[i])
    ensures Alike(vs, ws, Admitted(vs, first)) ==> RunCalls(vs, first) == RunCalls(ws, first)
    ensures !Alike(vs, ws, Admitted(vs, first)) ==> Diverge(RunCalls(vs, first), RunCalls(ws, first))
  {
    if vs != [] {
      var n := |vs| - 1;
      LastCalls(vs, first, n);
      LastCalls(ws, first, n);
      AlikeInit(vs, ws, Admitted(vs, first), n);
      AlikeOrDiverge(vs[..n], ws[..n], first);
      var a, s := RunCalls(vs[..n], first), Tracked(vs[..n], first);
      if Alike(vs[..n], ws[..n], Admitted(vs[..n], first)) {
        assert Tracked(ws[..n], first) == s;
        KeyShows(a, s, vs[n], ws[n]);
      } else {
        DivergeStays(a, RunCalls(ws[..n], first), Calls(s, vs[n].who, vs[n].clock),
                     Calls(Tracked(ws[..n], first), ws[n].who, ws[n].clock));
      }
    }
  }

  lemma FrontShows(f: Front, g: Front, x: Client)
    ensures SameButKey(VisitAt(f, x), VisitAt(g, x))
    ensures VisitAt(f, x).who.key == VisitAt(g, x).who.key <==> f == g || x.name == x.user.username
  {
  }

  /** Two runs of the same clients that differ in the front ends used make the same calls on the
      tracker if and only if every client that got in and used another one was spelled as stored. */
  lemma FrontEndsAlikeIff(xs: seq<Client>, fs: seq<Front>, gs: seq<Front>, first: nat)
    requires |xs| == |fs| == |gs|
    ensures RunCalls(Visits(xs, fs), first) == RunCalls(Visits(xs, gs), first) <==>
            forall i :: 0 <= i < |xs| && Admitted(Visits(xs, fs), first)[i] && fs[i] != gs[i] ==>
              xs[i].name == xs[i].user.username
  {
    var vs, ws := Visits(xs, fs), Visits(xs, gs);
    forall i | 0 <= i < |xs|
      ensures SameButKey(vs[i], ws[i])
      ensures vs[i].who.key == ws[i].who.key <==> fs[i] == gs[i] || xs[i].name == xs[i].user.username
    {
      FrontShows(fs[i], gs[i], xs[i]);
    }
    AlikeOrDiverge(vs, ws, first);
  }
}
