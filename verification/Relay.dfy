// Peek, replay and two copy loops: PeekSNI and HandleConnection of internal/proxy/server.go.
module Relay {
  import opened Common
  import opened ClientHello

  // ----------------------------------------------------------- the loops, one by one

  /** One end of a connection: what the peer is still going to send, and what it has been sent; how
      often it was read, and whether a read or a write has failed. */
  class Conn {
    var pending: bytes
    var sent: bytes
    ghost var readCalls: nat
    ghost var broken: bool

    constructor (stream: bytes)
      ensures pending == stream && sent == [] && readCalls == 0 && !broken
    {
      pending, sent, readCalls, broken := stream, [], 0, false;
    }

    /** Any part of what fits may arrive, and an error may come with or without data. */
    method Read(max: nat) returns (chunk: bytes, failed: bool)
      modifies this`pending, this`readCalls, this`broken
      ensures |chunk| <= max && old(pending) == chunk + pending
      ensures readCalls == old(readCalls) + 1 && broken == (old(broken) || failed)
    {
      var n: int := *;
      failed := *;
      if n < 0 || n > max || n > |pending| {
        n := 0;
      }
      chunk, pending := pending[..n], pending[n..];
      readCalls, broken := readCalls + 1, broken || failed;
    }

    /** A write that falls short fails. */
    method Write(chunk: bytes) returns (n: nat, failed: bool)
      modifies this`sent, this`broken
      ensures n <= |chunk| && sent == old(sent) + chunk[..n]
      ensures (n < |chunk| ==> failed) && broken == (old(broken) || failed)
    {
      var k: int := *;
      failed := *;
      if k < 0 || k >= |chunk| {
        k := |chunk|;
      } else {
        failed := true;
      }
      n := k;
      sent, broken := sent + chunk[..n], broken || failed;
    }
  }

  /** One read; whatever arrives is both parsed and kept for replay. */
  method PeekSNI(conn: Conn) returns (sni: bytes, data: bytes, ok: bool)
    modifies conn`pending, conn`readCalls, conn`broken
    ensures |data| <= 16384 && conn.readCalls == old(conn.readCalls) + 1 && conn.broken == (old(conn.broken) || !ok)
    ensures ok ==> old(conn.pending) == data + conn.pending && sni == SniOf(data)
    ensures !ok ==> sni == [] && data == []
  {
    var chunk, failed := conn.Read(16384);
    if failed {
      return [], [], false;
    }
    sni := ExtractSNI(chunk);
    return sni, chunk, true;
  }

  /** The copy loop, cancelled after the given number of laps; only a failure stops it before. */
  method CopyData(dst: Conn, src: Conn, laps: nat) returns (copied: nat)
    requires dst != src
    modifies dst`sent, dst`broken, src`pending, src`readCalls, src`broken
    ensures copied <= |old(src.pending)| && dst.sent == old(dst.sent) + old(src.pending)[..copied]
    ensures src.broken || dst.broken ||
            (src.readCalls == old(src.readCalls) + laps && src.pending == old(src.pending)[copied..])
  {
    copied := 0;
    ghost var stream := src.pending;
    var lap := 0;
    while lap < laps
      invariant copied <= |stream| && dst.sent == old(dst.sent) + stream[..copied]
      invariant src.pending == stream[copied..] && lap <= laps && src.readCalls == old(src.readCalls) + lap
    {
      var chunk, readFailed := src.Read(32768);
      if |chunk| > 0 {
        assert stream[copied..][..|chunk|] == chunk;
        var n, writeFailed := dst.Write(chunk);
        copied := copied + n;
        assert stream[..copied] == stream[..copied - n] + chunk[..n];
        if writeFailed {
          break;
        }
      }
      if readFailed {
        break;
      }
      lap := lap + 1;
    }
  }

  // --------------------------------------------------- the whole connection, in steps

  /** One direction: bytes read from the source, the part of them not yet written, bytes counted. */
  datatype Pipe = Pipe(taken: nat, buf: bytes, counted: nat, running: bool)

  datatype Phase = Peeking | Dialing | Replaying | Relaying | Closed

  /** client and target are the streams the two peers send; the received ones are what arrived.
      hosts has the names whose lower-cased form is configured; replayed says whether all the peeked
      bytes were written to the target. */
  datatype State = State(
    client: bytes, target: bytes, hosts: set<bytes>, phase: Phase, peeked: bytes, replayed: bool,
    up: Pipe, down: Pipe, targetReceived: bytes, clientReceived: bytes)

  datatype Event =
    | Peek(n: nat)
    | Dialed
    | Replay(n: nat)
    | ReadUp(n: nat)
    | WriteUp(n: nat, failed: bool)
    | StopUp
    | ReadDown(n: nat)
    | WriteDown(n: nat, failed: bool)
    | StopDown
    | Close

  ghost predicate CanRead(p: Pipe, stream: bytes, n: nat) {
    p.running && p.buf == [] && n <= 32768 && p.taken + n <= |stream|
  }

  ghost predicate CanWrite(p: Pipe, n: nat, failed: bool) {
    p.running && p.buf != [] && n <= |p.buf| && (n < |p.buf| ==> failed)
  }

  ghost function Read(p: Pipe, stream: bytes, n: nat): Pipe
    requires CanRead(p, stream, n)
  {
    p.(taken := p.taken + n, buf := stream[p.taken..p.taken + n])
  }

  ghost function Wrote(p: Pipe, n: nat, failed: bool): Pipe
    requires CanWrite(p, n, failed)
  {
    p.(buf := [], counted := p.counted + n, running := !failed)
  }

  ghost predicate Enabled(s: State, e: Event) {
    match e
    case Peek(n) => s.phase == Peeking && n <= 16384 && n <= |s.client|
    case Dialed => s.phase == Dialing
    case Replay(n) => s.phase == Replaying && n <= |s.peeked|
    case ReadUp(n) => s.phase == Relaying && CanRead(s.up, s.client, n)
    case WriteUp(n, failed) => s.phase == Relaying && CanWrite(s.up, n, failed)
    case StopUp => s.phase == Relaying
    case ReadDown(n) => s.phase == Relaying && CanRead(s.down, s.target, n)
    case WriteDown(n, failed) => s.phase == Relaying && CanWrite(s.down, n, failed)
    case StopDown => s.phase == Relaying
    case Close => true
  }

  ghost function Next(s: State, e: Event): State
    requires Enabled(s, e)
  {
    match e
    case Peek(n) =>
      var data := s.client[..n];
      s.(peeked := data, up := s.up.(taken := n),
         phase := if SniOf(data) != [] && SniOf(data) in s.hosts then Dialing else Closed)
    case Dialed => s.(phase := Replaying)
    case Replay(n) =>
      s.(targetReceived := s.targetReceived + s.peeked[..n], replayed := n == |s.peeked|,
         phase := if n == |s.peeked| then Relaying else Closed)
    case ReadUp(n) => s.(up := Read(s.up, s.client, n))
    case WriteUp(n, failed) =>
      s.(up := Wrote(s.up, n, failed), targetReceived := s.targetReceived + s.up.buf[..n])
    case StopUp => s.(up := s.up.(running := false))
    case ReadDown(n) => s.(down := Read(s.down, s.target, n))
    case WriteDown(n, failed) =>
      s.(down := Wrote(s.down, n, failed), clientReceived := s.clientReceived + s.down.buf[..n])
    case StopDown => s.(down := s.down.(running := false))
    case Close => s.(phase := Closed)
  }

  ghost predicate IsRun(s: State, es: seq<Event>)
    decreases es
  {
    es == [] || (Enabled(s, es[0]) && IsRun(Next(s, es[0]), es[1..]))
  }

  ghost function Final(s: State, es: seq<Event>): State
    requires IsRun(s, es)
    decreases es
  {
    if es == [] then s else Final(Next(s, es[0]), es[1..])
  }

  ghost function Start(client: bytes, target: bytes, hosts: set<bytes>): State {
    State(client, target, hosts, Peeking, [], false, Pipe(0, [], 0, true), Pipe(0, [], 0, true), [], [])
  }

  /** A running pipe holds exactly what it has read and not delivered. */
  ghost predicate PipeOk(p: Pipe, stream: bytes, before: nat) {
    && before + p.counted <= p.taken <= |stream|
    && (p.running ==> p.buf == stream[before + p.counted..p.taken])
  }

  ghost predicate Named(s: State) {
    && s.peeked <= s.client
    && (s.phase == Dialing || s.phase == Replaying || s.phase == Relaying ==>
          SniOf(s.peeked) != [] && SniOf(s.peeked) in s.hosts)
  }

  ghost predicate UpOk(s: State) {
    && s.targetReceived <= s.client && s.peeked <= s.client
    && (s.phase == Peeking || s.phase == Dialing || s.phase == Replaying ==>
          !s.replayed && s.targetReceived == [] && s.up == Pipe(|s.peeked|, [], 0, true))
    && (s.phase == Relaying ==> s.replayed)
    && (s.replayed ==>
          && PipeOk(s.up, s.client, |s.peeked|)
          && s.targetReceived == s.client[..|s.peeked| + s.up.counted])
  }

  ghost predicate DownOk(s: State) {
    PipeOk(s.down, s.target, 0) && s.clientReceived == s.target[..s.down.counted]
  }

  ghost predicate Inv(s: State) {
    Named(s) && UpOk(s) && DownOk(s)
  }

  lemma PeekStep(s: State, n: nat)
    requires UpOk(s) && Enabled(s, Peek(n))
    ensures UpOk(Next(s, Peek(n)))
  {
  }

  lemma ReplayStep(s: State, n: nat)
    requires UpOk(s) && Enabled(s, Replay(n))
    ensures UpOk(Next(s, Replay(n)))
  {
  }

  lemma WriteUpStep(s: State, n: nat, failed: bool)
    requires UpOk(s) && Enabled(s, WriteUp(n, failed))
    ensures UpOk(Next(s, WriteUp(n, failed)))
  {
  }

  lemma UpStep(s: State, e: Event)
    requires UpOk(s) && Enabled(s, e)
    ensures UpOk(Next(s, e))
  {
    match e
    case Peek(n) => PeekStep(s, n);
    case Replay(n) => ReplayStep(s, n);
    case WriteUp(n, failed) => WriteUpStep(s, n, failed);
    case ReadUp(n) => assert s.client[s.up.taken..s.up.taken] == [];
    case _ =>
  }

  lemma DownStep(s: State, e: Event)
    requires DownOk(s) && Enabled(s, e)
    ensures DownOk(Next(s, e))
  {
  }

  lemma NamedStep(s: State, e: Event)
    requires Named(s) && Enabled(s, e)
    ensures Named(Next(s, e))
  {
  }

  lemma {:induction false} InvRun(s: State, es: seq<Event>)
    requires Inv(s) && IsRun(s, es)
    ensures Inv(Final(s, es)) && Final(s, es).client == s.client && Final(s, es).target == s.target
    decreases es
  {
    if es != [] {
      UpStep(s, es[0]);
      DownStep(s, es[0]);
      NamedStep(s, es[0]);
      InvRun(Next(s, es[0]), es[1..]);
    }
  }

  // ------------------------------------------------------- everything can be relayed

  lemma {:induction false} RunAppends(s: State, es: seq<Event>, e: Event) returns (longer: seq<Event>)
    requires IsRun(s, es) && Enabled(Final(s, es), e)
    ensures longer != [] && longer[0] == (if es == [] then e else es[0])
    ensures IsRun(s, longer) && Final(s, longer) == Next(Final(s, es), e)
    decreases es
  {
    if es == [] {
      longer := [e];
      assert IsRun(Next(s, e), []);
    } else {
      longer := RunAppends(Next(s, es[0]), es[1..], e);
      longer := [es[0]] + longer;
    }
  }

  /** t with everything from here to the end of the client's stream delivered, and of the target's. */
  ghost function UpDone(t: State): State
    requires t.up.taken <= |t.client|
  {
    var left := t.client[t.up.taken..];
    t.(up := Pipe(|t.client|, [], t.up.counted + |left|, true), targetReceived := t.targetReceived + left)
  }

  ghost function DownDone(t: State): State
    requires t.down.taken <= |t.target|
  {
    var left := t.target[t.down.taken..];
    t.(down := Pipe(|t.target|, [], t.down.counted + |left|, true), clientReceived := t.clientReceived + left)
  }

  ghost predicate Idle(p: Pipe, stream: bytes) {
    p.running && p.buf == [] && p.taken <= |stream|
  }

  lemma UpLap(t: State, n: nat) returns (u: State)
    requires t.phase == Relaying && Idle(t.up, t.client) && 0 < n <= 32768 && t.up.taken + n <= |t.client|
    ensures Enabled(t, ReadUp(n)) && Enabled(Next(t, ReadUp(n)), WriteUp(n, false))
    ensures u == Next(Next(t, ReadUp(n)), WriteUp(n, false)) && u.phase == Relaying && Idle(u.up, u.client)
    ensures u.client == t.client && u.up.taken == t.up.taken + n && UpDone(u) == UpDone(t)
  {
    u := Next(Next(t, ReadUp(n)), WriteUp(n, false));
    var chunk, left := t.client[t.up.taken..t.up.taken + n], t.client[t.up.taken + n..];
    assert t.client[t.up.taken..] == chunk + left;
    Reassociate(t.targetReceived, chunk, left);
  }

  lemma {:induction false} UpRuns(s: State, es: seq<Event>) returns (longer: seq<Event>)
    requires es != [] && IsRun(s, es)
    requires var t := Final(s, es); t.phase == Relaying && Idle(t.up, t.client)
    ensures longer != [] && longer[0] == es[0] && IsRun(s, longer) && Final(s, longer) == UpDone(Final(s, es))
    decreases |Final(s, es).client| - Final(s, es).up.taken
  {
    var t := Final(s, es);
    var left := |t.client| - t.up.taken;
    if left == 0 {
      longer := es;
    } else {
      var n := Min(left, 32768);
      var u := UpLap(t, n);
      longer := RunAppends(s, es, ReadUp(n));
      longer := RunAppends(s, longer, WriteUp(n, false));
      longer := UpRuns(s, longer);
    }
  }

  lemma DownLap(t: State, n: nat) returns (u: State)
    requires t.phase == Relaying && Idle(t.down, t.target) && 0 < n <= 32768 && t.down.taken + n <= |t.target|
    ensures Enabled(t, ReadDown(n)) && Enabled(Next(t, ReadDown(n)), WriteDown(n, false))
    ensures u == Next(Next(t, ReadDown(n)), WriteDown(n, false)) && u.phase == Relaying && Idle(u.down, u.target)
    ensures u.target == t.target && u.down.taken == t.down.taken + n && DownDone(u) == DownDone(t)
  {
    u := Next(Next(t, ReadDown(n)), WriteDown(n, false));
    var chunk, left := t.target[t.down.taken..t.down.taken + n], t.target[t.down.taken + n..];
    assert t.target[t.down.taken..] == chunk + left;
    Reassociate(t.clientReceived, chunk, left);
  }

  lemma {:induction false} DownRuns(s: State, es: seq<Event>) returns (longer: seq<Event>)
    requires es != [] && IsRun(s, es)
    requires var t := Final(s, es); t.phase == Relaying && Idle(t.down, t.target)
    ensures longer != [] && longer[0] == es[0] && IsRun(s, longer) && Final(s, longer) == DownDone(Final(s, es))
    decreases |Final(s, es).target| - Final(s, es).down.taken
  {
    var t := Final(s, es);
    var left := |t.target| - t.down.taken;
    if left == 0 {
      longer := es;
    } else {
      var n := Min(left, 32768);
      var u := DownLap(t, n);
      longer := RunAppends(s, es, ReadDown(n));
      longer := RunAppends(s, longer, WriteDown(n, false));
      longer := DownRuns(s, longer);
    }
  }

  lemma EverythingIsRelayed(client: bytes, target: bytes, hosts: set<bytes>, n: nat) returns (es: seq<Event>)
    requires n <= 16384 && n <= |client| && SniOf(client[..n]) != [] && SniOf(client[..n]) in hosts
    ensures es != [] && es[0] == Peek(n) && IsRun(Start(client, target, hosts), es)
    ensures var t := Final(Start(client, target, hosts), es);
            t.phase == Relaying && t.targetReceived == client && t.clientReceived == target
  {
    var s := Start(client, target, hosts);
    es := RunAppends(s, [], Peek(n));
    es := RunAppends(s, es, Dialed);
    es := RunAppends(s, es, Replay(n));
    es := UpRuns(s, es);
    es := DownRuns(s, es);
  }

  lemma {:induction false} ClosedStays(s: State, es: seq<Event>)
    requires s.phase == Closed && IsRun(s, es)
    ensures Final(s, es).phase == Closed
    decreases es
  {
    if es != [] {
      ClosedStays(Next(s, es[0]), es[1..]);
    }
  }

  /** A run that starts with a first read of n bytes and relays the two streams to their ends. */
  ghost predicate RelaysAll(client: bytes, target: bytes, hosts: set<bytes>, n: nat, es: seq<Event>) {
    && es != [] && es[0] == Peek(n) && IsRun(Start(client, target, hosts), es)
    && var t := Final(Start(client, target, hosts), es);
       t.phase == Relaying && t.targetReceived == client && t.clientReceived == target
  }

  /** Whatever the two streams: there is a run that relays all of both exactly if the first read holds a
      configured name. */
  lemma RelaysAllIff(client: bytes, target: bytes, hosts: set<bytes>, n: nat)
    requires n <= 16384 && n <= |client|
    ensures (exists es :: RelaysAll(client, target, hosts, n, es)) <==>
            SniOf(client[..n]) != [] && SniOf(client[..n]) in hosts
  {
    if SniOf(client[..n]) != [] && SniOf(client[..n]) in hosts {
      var es := EverythingIsRelayed(client, target, hosts, n);
      assert RelaysAll(client, target, hosts, n, es);
    }
    if es :| RelaysAll(client, target, hosts, n, es) {
      var s := Start(client, target, hosts);
      if Next(s, Peek(n)).phase == Closed {
        ClosedStays(Next(s, Peek(n)), es[1..]);
      }
    }
  }

  /** At every point of every run both peers have received a prefix of what the other sent. Once the
      replay is complete, and also after the close, the target has the peeked bytes and then as many
      as are counted. Relaying happens only for a configured name. */
  lemma Transparent(client: bytes, target: bytes, hosts: set<bytes>, es: seq<Event>)
    requires IsRun(Start(client, target, hosts), es)
    ensures var t := Final(Start(client, target, hosts), es);
            && t.targetReceived <= client
            && t.down.counted <= |target| && t.clientReceived == target[..t.down.counted]
            && t.peeked <= client
            && (t.replayed ==>
                  && |t.peeked| + t.up.counted <= |client|
                  && t.targetReceived == client[..|t.peeked| + t.up.counted])
            && (t.phase == Relaying ==> t.replayed && SniOf(t.peeked) in t.hosts)
  {
    InvRun(Start(client, target, hosts), es);
  }

  /** However short the first read was, a relayed connection went by the name in the client's stream. */
  lemma RoutedByClientsName(client: bytes, target: bytes, hosts: set<bytes>, es: seq<Event>)
    requires IsRun(Start(client, target, hosts), es)
    requires Final(Start(client, target, hosts), es).phase == Relaying
    ensures SniOf(client) != [] && SniOf(client) in hosts
  {
    InvRun(Start(client, target, hosts), es);
    var t := Final(Start(client, target, hosts), es);
    HostsKept(Start(client, target, hosts), es);
    PrefixMonotone(client, |t.peeked|);
    assert client[..|t.peeked|] == t.peeked;
  }

  lemma {:induction false} HostsKept(s: State, es: seq<Event>)
    requires IsRun(s, es)
    ensures Final(s, es).hosts == s.hosts
    decreases es
  {
    if es != [] {
      HostsKept(Next(s, es[0]), es[1..]);
    }
  }
}
