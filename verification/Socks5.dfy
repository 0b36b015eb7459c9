// The SOCKS5 server side on the wire: handleConnection, handleMethodNegotiation, authenticateUser, handleRequest
// and sendReply of internal/socks5/server.go. Formats: sections 3, 4 and 6 of RFC 1928 and section 2
// of RFC 1929.
module Socks5 {
  import opened Common

  const VERSION5: byte := 0x05
  const USERPASS_VERSION: byte := 0x01
  const METHOD_USERPASS: byte := 0x02
  const METHOD_NONE: byte := 0xFF
  const CMD_CONNECT: byte := 0x01
  const ADDR_IPV4: byte := 0x01
  const ADDR_DOMAIN: byte := 0x03
  const ADDR_IPV6: byte := 0x04
  const SUCCEEDED: byte := 0x00
  const HOST_UNREACHABLE: byte := 0x04
  const CMD_NOT_SUPPORTED: byte := 0x07
  const ADDR_NOT_SUPPORTED: byte := 0x08
  const COLON: byte := 58

  // --------------------------------------------------------------------- the stream

  function Flatten(chunks: seq<bytes>): bytes {
    if chunks == [] then [] else chunks[0] + Flatten(chunks[1..])
  }

  /** The client's end: the pieces in which its bytes arrive, and the bytes it has been sent. */
  class Conn {
    var chunks: seq<bytes>
    var sent: bytes

    ghost function Pending(): bytes
      reads this
    {
      Flatten(chunks)
    }

    /** At most one piece at a time; the end of the stream once there is none left. */
    method Read(max: nat) returns (data: bytes, eof: bool)
      requires max > 0
      modifies this`chunks
      ensures eof <==> old(chunks) == []
      ensures |data| <= max && old(Pending()) == data + Pending()
      ensures !eof ==> |Pending()| + |chunks| < old(|Pending()| + |chunks|)
    {
      if chunks == [] {
        return [], true;
      }
      var head := chunks[0];
      eof := false;
      if |head| <= max {
        data, chunks := head, chunks[1..];
      } else {
        data := head[..max];
        assert head == data + head[max..];
        chunks := [head[max..]] + chunks[1..];
      }
    }

    /** io.ReadFull: all n bytes, or a failure when the stream ends first. */
    method ReadFull(n: nat) returns (ok: bool, buf: bytes)
      modifies this`chunks
      ensures ok <==> n <= |old(Pending())|
      ensures ok ==> buf == old(Pending())[..n] && Pending() == old(Pending())[n..]
    {
      buf := [];
      ghost var stream := Pending();
      while |buf| < n
        invariant |buf| <= n && stream == buf + Pending()
        decreases |Pending()| + |chunks|
      {
        var data, eof := Read(n - |buf|);
        if eof {
          return false, buf;
        }
        buf := buf + data;
      }
      ok := true;
    }

    method Write(data: bytes)
      modifies this`sent
      ensures sent == old(sent) + data
    {
      sent := sent + data;
    }
  }

  // ----------------------------------------------------- what each stage should do

  /** A stage ends with a value, having left rest unread, or gives up; sent is what it wrote. */
  datatype Outcome = Done(value: bytes, rest: bytes, sent: bytes) | Failed(sent: bytes)

  type Credentials = (bytes, bytes) -> bool

  function Authenticate(input: bytes, valid: Credentials): Outcome {
    if |input| < 2 || input[0] != USERPASS_VERSION || |input[2..]| < input[1] as int then Failed([]) else
      var user, a := input[2..][..input[1]], input[2..][input[1]..];
      if |a| < 1 || |a[1..]| < a[0] as int then Failed([]) else
        var password, rest := a[1..][..a[0]], a[1..][a[0]..];
        if valid(user, password) then Done(user, rest, [USERPASS_VERSION, 0x00])
        else Failed([USERPASS_VERSION, 0x01])
  }

  function Negotiate(input: bytes, valid: Credentials): Outcome {
    if |input| < 2 || input[0] != VERSION5 || |input[2..]| < input[1] as int then Failed([])
    else if METHOD_USERPASS !in input[2..][..input[1]] then Failed([VERSION5, METHOD_NONE])
    else
      match Authenticate(input[2..][input[1]..], valid)
      case Done(user, rest, status) => Done(user, rest, [VERSION5, METHOD_USERPASS] + status)
      case Failed(status) => Failed([VERSION5, METHOD_USERPASS] + status)
  }

  type Port = p: int | 0 <= p < 0x1_0000

  type Ip4 = b: bytes | |b| == 4 witness [0, 0, 0, 0]

  /** A local TCP address: its IPv4 form, when it has one, and its port. */
  datatype TcpAddr = TcpAddr(ip4: Option<Ip4>, port: Port)

  /** What the reply carries: zeros where there is no address, or no IPv4 form of it. */
  function IpOf(addr: Option<TcpAddr>): Ip4 {
    if addr.Some? && addr.value.ip4.Some? then addr.value.ip4.value else [0, 0, 0, 0]
  }

  function PortOf(addr: Option<TcpAddr>): Port {
    if addr.Some? then addr.value.port else 0
  }

  ghost function Reply(code: byte, addr: Option<TcpAddr>): (r: bytes)
    ensures |r| == 10
  {
    [0x05, code, 0x00, 0x01] + IpOf(addr) + U16Bytes(PortOf(addr))
  }

  function Digit(d: nat): byte
    requires d < 10
  {
    (48 + d) as byte
  }

  function Decimal(n: nat): bytes {
    if n < 10 then [Digit(n)] else Decimal(n / 10) + [Digit(n % 10)]
  }

  function Target(host: bytes, port: nat): bytes {
    host + [COLON] + Decimal(port)
  }

  ghost function Port2(host: bytes, input: bytes): Outcome {
    if |input| < 2 then Failed([])
    else Done(Target(host, U16(input[0], input[1])), input[2..], [])
  }

  ghost function Request(input: bytes, ipString: bytes -> bytes): Outcome {
    if |input| < 4 || input[0] != VERSION5 then Failed([])
    else if input[1] != CMD_CONNECT then Failed(Reply(CMD_NOT_SUPPORTED, None))
    else
      var a := input[4..];
      if input[3] == ADDR_IPV4 then
        if |a| < 4 then Failed([]) else Port2(ipString(a[..4]), a[4..])
      else if input[3] == ADDR_DOMAIN then
        if |a| < 1 || |a[1..]| < a[0] as int then Failed([]) else Port2(a[1..][..a[0]], a[1..][a[0]..])
      else if input[3] == ADDR_IPV6 then
        if |a| < 16 then Failed([]) else Port2(ipString(a[..16]), a[16..])
      else Failed(Reply(ADDR_NOT_SUPPORTED, None))
  }

  /** The answers of everything the wire side asks, the dialled address included. */
  datatype World = World(ipAllowed: bool, valid: Credentials, ipString: bytes -> bytes, dial: bytes -> Option<TcpAddr>)

  /** What the gates after the login decide for a name. */
  type Gates = bytes -> bool

  datatype Relay = Relay(user: bytes, target: bytes, rest: bytes)

  datatype Session = Session(sent: bytes, relay: Option<Relay>)

  /** From the request on, for a user past the gates. */
  ghost function Connect(w: World, user: bytes, input: bytes): Session {
    match Request(input, w.ipString)
    case Failed(reply) => Session(reply, None)
    case Done(target, rest, _) =>
      match w.dial(target)
      case None => Session(Reply(HOST_UNREACHABLE, None), None)
      case Some(local) => Session(Reply(SUCCEEDED, Some(local)), Some(Relay(user, target, rest)))
  }

  ghost function AfterLogin(w: World, passes: Gates, login: Outcome): Session {
    match login
    case Failed(sent) => Session(sent, None)
    case Done(user, rest, sent) =>
      if !passes(user) then Session(sent, None)
      else Session(sent + Connect(w, user, rest).sent, Connect(w, user, rest).relay)
  }

  ghost function Serve(w: World, passes: Gates, input: bytes): Session {
    if w.ipAllowed then AfterLogin(w, passes, Negotiate(input, w.valid)) else Session([], None)
  }

  /** The connection's output grew by what the session says; if it relays, target and unread are its own. */
  ghost predicate Goes(s: Session, before: bytes, after: bytes, target: Option<bytes>, unread: bytes) {
    && after == before + s.sent
    && (if s.relay.None? then target == None
        else target == Some(s.relay.value.target) && unread == s.relay.value.rest)
  }

  lemma GoesSilent(w: World, passes: Gates, input: bytes, before: bytes, unread: bytes)
    requires !w.ipAllowed
    ensures Goes(Serve(w, passes, input), before, before, None, unread)
  {
  }

  lemma GoesNoFurther(w: World, passes: Gates, input: bytes, before: bytes, unread: bytes)
    requires w.ipAllowed && Negotiate(input, w.valid).Failed?
    ensures Goes(Serve(w, passes, input), before, before + Negotiate(input, w.valid).sent, None, unread)
  {
  }

  lemma GoesOn(w: World, passes: Gates, input: bytes, before: bytes, after: bytes, target: Option<bytes>, unread: bytes)
    requires w.ipAllowed && Negotiate(input, w.valid).Done?
    requires var o := Negotiate(input, w.valid);
             var s := if passes(o.value) then Connect(w, o.value, o.rest) else Session([], None);
             Goes(s, before + o.sent, after, target, unread)
    ensures var s := Serve(w, passes, input);
            && Goes(s, before, after, target, unread)
            && (s.relay.Some? ==> s.relay.value.user == Negotiate(input, w.valid).value)
  {
    var o := Negotiate(input, w.valid);
    Reassociate(before, o.sent, Connect(w, o.value, o.rest).sent);
  }

  // ------------------------------------------------------------------- the handlers

  method SplitU16(n: Port) returns (hi: byte, lo: byte)
    ensures n == 256 * hi as int + lo as int
  {
    hi, lo := (n / 256) as byte, (n % 256) as byte;
  }

  ghost predicate LaidOut(r: bytes, code: byte, ip: bytes, port: nat)
    requires |r| == 10 && |ip| == 4
  {
    && r[0] == 0x05 && r[1] == code && r[2] == 0x00 && r[3] == 0x01
    && r[4] == ip[0] && r[5] == ip[1] && r[6] == ip[2] && r[7] == ip[3]
    && port == 256 * r[8] as int + r[9] as int
  }

  lemma ReplyIsLaidOut(r: bytes, code: byte, addr: Option<TcpAddr>)
    requires |r| == 10 && LaidOut(r, code, IpOf(addr), PortOf(addr))
    ensures r == Reply(code, addr)
  {
    U16BytesInverse(r[8], r[9]);
    ThreeParts(r, [VERSION5, code, 0x00, ADDR_IPV4], IpOf(addr), [r[8], r[9]]);
  }

  lemma ThreeParts(r: bytes, a: bytes, b: bytes, c: bytes)
    requires |r| == 10 && |a| == 4 && |b| == 4 && |c| == 2
    requires r[0] == a[0] && r[1] == a[1] && r[2] == a[2] && r[3] == a[3]
    requires r[4] == b[0] && r[5] == b[1] && r[6] == b[2] && r[7] == b[3]
    requires r[8] == c[0] && r[9] == c[1]
    ensures r == a + b + c
  {
    assert r[..4] == a && r[4..8] == b && r[8..] == c;
  }

  lemma ReplyBytes(code: byte, addr: Option<TcpAddr>, ip: Ip4, hi: byte, lo: byte)
    requires ip == IpOf(addr) && PortOf(addr) == 256 * hi as int + lo as int
    ensures Reply(code, addr) == [0x05, code, 0x00, 0x01, ip[0], ip[1], ip[2], ip[3], hi, lo]
  {
    U16BytesInverse(hi, lo);
    var r := [0x05, code, 0x00, 0x01, ip[0], ip[1], ip[2], ip[3], hi, lo];
    ThreeParts(r, [0x05, code, 0x00, 0x01], ip, [hi, lo]);
  }

  /** The ten bytes, written out: zeros without an address, and for one that is not IPv4 its port only. */
  lemma ReplyOnTheWire(code: byte, ip: Ip4, hi: byte, lo: byte)
    ensures var port := 256 * hi as int + lo as int;
            && Reply(code, None) == [0x05, code, 0x00, 0x01, 0, 0, 0, 0, 0, 0]
            && Reply(code, Some(TcpAddr(None, port))) == [0x05, code, 0x00, 0x01, 0, 0, 0, 0, hi, lo]
            && Reply(code, Some(TcpAddr(Some(ip), port)))
               == [0x05, code, 0x00, 0x01, ip[0], ip[1], ip[2], ip[3], hi, lo]
  {
    var port: Port := 256 * hi as int + lo as int;
    ReplyBytes(code, None, [0, 0, 0, 0], 0, 0);
    ReplyBytes(code, Some(TcpAddr(None, port)), [0, 0, 0, 0], hi, lo);
    ReplyBytes(code, Some(TcpAddr(Some(ip), port)), ip, hi, lo);
  }

  method FillReply(code: byte, addr: Option<TcpAddr>) returns (resp: array<byte>)
    ensures fresh(resp) && resp.Length == 10 && LaidOut(resp[..], code, IpOf(addr), PortOf(addr))
  {
    resp := new byte[10](_ => 0);
    resp[0] := VERSION5;
    resp[1] := code;
    resp[2] := 0x00;
    resp[3] := ADDR_IPV4;
    if addr.Some? {
      if addr.value.ip4.Some? {
        var ip := addr.value.ip4.value;
        resp[4], resp[5], resp[6], resp[7] := ip[0], ip[1], ip[2], ip[3];
      }
      var hi, lo := SplitU16(addr.value.port);
      resp[8], resp[9] := hi, lo;
    }
  }

  class Server {
    const world: World

    constructor (w: World)
      ensures world == w
    {
      world := w;
    }

    method SendReply(conn: Conn, code: byte, addr: Option<TcpAddr>)
      modifies conn`sent
      ensures conn.sent == old(conn.sent) + Reply(code, addr)
    {
      var resp := FillReply(code, addr);
      ReplyIsLaidOut(resp[..], code, addr);
      conn.Write(resp[..]);
    }

    method AuthenticateUser(conn: Conn) returns (name: Option<bytes>)
      modifies conn`chunks, conn`sent
      ensures var o := Authenticate(old(conn.Pending()), world.valid);
              && conn.sent == old(conn.sent) + o.sent
              && (if o.Failed? then name == None else name == Some(o.value) && conn.Pending() == o.rest)
    {
      var ok, buf := conn.ReadFull(2);
      if !ok || buf[0] != USERPASS_VERSION {
        return None;
      }
      var usernameLen := buf[1] as int;
      var username;
      ok, username := conn.ReadFull(usernameLen);
      if !ok {
        return None;
      }
      ok, buf := conn.ReadFull(1);
      if !ok {
        return None;
      }
      var passwordLen := buf[0] as int;
      var password;
      ok, password := conn.ReadFull(passwordLen);
      if !ok {
        return None;
      }
      if !world.valid(username, password) {
        conn.Write([USERPASS_VERSION, 0x01]);
        return None;
      }
      conn.Write([USERPASS_VERSION, 0x00]);
      return Some(username);
    }

    method HandleMethodNegotiation(conn: Conn) returns (name: Option<bytes>)
      modifies conn`chunks, conn`sent
      ensures var o := Negotiate(old(conn.Pending()), world.valid);
              && conn.sent == old(conn.sent) + o.sent
              && (if o.Failed? then name == None else name == Some(o.value) && conn.Pending() == o.rest)
    {
      var ok, buf := conn.ReadFull(2);
      if !ok || buf[0] != VERSION5 {
        return None;
      }
      var numMethods := buf[1] as int;
      var methods;
      ok, methods := conn.ReadFull(numMethods);
      if !ok {
        return None;
      }
      var hasUserPass := false;
      var i := 0;
      while i < |methods|
        invariant 0 <= i <= |methods| && !hasUserPass && METHOD_USERPASS !in methods[..i]
      {
        if methods[i] == METHOD_USERPASS {
          hasUserPass := true;
          break;
        }
        i := i + 1;
      }
      if !hasUserPass {
        conn.Write([VERSION5, METHOD_NONE]);
        return None;
      }
      Reassociate(conn.sent, [VERSION5, METHOD_USERPASS], Authenticate(conn.Pending(), world.valid).sent);
      conn.Write([VERSION5, METHOD_USERPASS]);
      name := AuthenticateUser(conn);
    }

    method HandleRequest(conn: Conn) returns (target: Option<bytes>)
      modifies conn`chunks, conn`sent
      ensures var o := Request(old(conn.Pending()), world.ipString);
              && conn.sent == old(conn.sent) + o.sent
              && (if o.Failed? then target == None else target == Some(o.value) && conn.Pending() == o.rest)
    {
      var ok, buf := conn.ReadFull(4);
      if !ok || buf[0] != VERSION5 {
        return None;
      }
      var cmd, addrType := buf[1], buf[3];
      if cmd != CMD_CONNECT {
        SendReply(conn, CMD_NOT_SUPPORTED, None);
        return None;
      }
      var host;
      if addrType == ADDR_IPV4 {
        ok, host := conn.ReadFull(4);
        if !ok {
          return None;
        }
        host := world.ipString(host);
      } else if addrType == ADDR_DOMAIN {
        ok, buf := conn.ReadFull(1);
        if !ok {
          return None;
        }
        ok, host := conn.ReadFull(buf[0] as int);
        if !ok {
          return None;
        }
      } else if addrType == ADDR_IPV6 {
        ok, host := conn.ReadFull(16);
        if !ok {
          return None;
        }
        host := world.ipString(host);
      } else {
        SendReply(conn, ADDR_NOT_SUPPORTED, None);
        return None;
      }
      ok, buf := conn.ReadFull(2);
      if !ok {
        return None;
      }
      return Some(Target(host, U16(buf[0], buf[1])));
    }

    method ConnectTarget(conn: Conn, username: bytes) returns (target: Option<bytes>)
      modifies conn`chunks, conn`sent
      ensures Goes(Connect(world, username, old(conn.Pending())), old(conn.sent), conn.sent, target, conn.Pending())
    {
      target := HandleRequest(conn);
      if target.None? {
        return;
      }
      var local := world.dial(target.value);
      if local.None? {
        SendReply(conn, HOST_UNREACHABLE, None);
        return None;
      }
      SendReply(conn, SUCCEEDED, local);
    }
  }

  // ----------------------------------------------------------- encodings, and back

  /** A greeting, followed by t. */
  ghost function GreetingThen(methods: bytes, t: bytes): bytes
    requires |methods| < 256
  {
    [0x05, |methods| as byte] + (methods + t)
  }

  ghost function LoginThen(user: bytes, password: bytes, t: bytes): bytes
    requires |user| < 256 && |password| < 256
  {
    [0x01, |user| as byte] + (user + ([|password| as byte] + (password + t)))
  }

  datatype Address = V4(ip: bytes) | Domain(name: bytes) | V6(ip: bytes) {
    predicate Fits() {
      match this
      case V4(ip) => |ip| == 4
      case Domain(name) => |name| < 256
      case V6(ip) => |ip| == 16
    }

    function Host(ipString: bytes -> bytes): bytes {
      if Domain? then name else ipString(ip)
    }
  }

  ghost function AddressThen(a: Address, t: bytes): bytes
    requires a.Fits()
  {
    match a
    case V4(ip) => ip + t
    case Domain(name) => [|name| as byte] + (name + t)
    case V6(ip) => ip + t
  }

  function AddressType(a: Address): byte {
    match a
    case V4(_) => 0x01
    case Domain(_) => 0x03
    case V6(_) => 0x04
  }

  /** A CONNECT request, with any reserved byte. */
  ghost function ConnectThen(reserved: byte, a: Address, port: Port, t: bytes): bytes
    requires a.Fits()
  {
    [0x05, 0x01, reserved, AddressType(a)] + AddressThen(a, U16Bytes(port) + t)
  }

  lemma Rejoin(s: bytes, n: nat)
    requires n <= |s|
    ensures s == s[..n] + s[n..]
  {
  }

  lemma LoginIsRead(user: bytes, password: bytes, t: bytes, valid: Credentials)
    requires |user| < 256 && |password| < 256 && valid(user, password)
    ensures Authenticate(LoginThen(user, password, t), valid) == Done(user, t, [USERPASS_VERSION, 0x00])
  {
  }

  lemma SplitVec8(s: bytes)
    requires |s| >= 1 && |s[1..]| >= s[0] as int
    ensures |s[1..][..s[0]]| < 256
    ensures s == [|s[1..][..s[0]]| as byte] + (s[1..][..s[0]] + s[1..][s[0]..])
  {
  }

  lemma SplitVersioned(s: bytes)
    requires |s| >= 2 && |s[2..]| >= s[1] as int
    ensures |s[2..][..s[1]]| < 256
    ensures s == [s[0], |s[2..][..s[1]]| as byte] + (s[2..][..s[1]] + s[2..][s[1]..])
  {
  }

  lemma AcceptedIsLogin(input: bytes, valid: Credentials) returns (password: bytes)
    requires Authenticate(input, valid).Done?
    ensures var o := Authenticate(input, valid);
            && |o.value| < 256 && |password| < 256 && valid(o.value, password)
            && input == LoginThen(o.value, password, o.rest) && o.sent == [USERPASS_VERSION, 0x00]
  {
    var a := input[2..][input[1]..];
    password := a[1..][..a[0]];
    SplitVec8(a);
    SplitVersioned(input);
  }

  lemma AcceptedIsGreeting(input: bytes, valid: Credentials) returns (methods: bytes, t: bytes)
    requires Negotiate(input, valid).Done?
    ensures |methods| < 256 && METHOD_USERPASS in methods && Authenticate(t, valid).Done?
    ensures input == GreetingThen(methods, t)
    ensures var o := Authenticate(t, valid);
            Negotiate(input, valid) == Done(o.value, o.rest, [VERSION5, METHOD_USERPASS] + o.sent)
  {
    methods, t := input[2..][..input[1]], input[2..][input[1]..];
    SplitVersioned(input);
  }

  lemma ConnectIsRead(reserved: byte, a: Address, port: Port, t: bytes, ipString: bytes -> bytes)
    requires a.Fits()
    ensures Request(ConnectThen(reserved, a, port, t), ipString) == Done(Target(a.Host(ipString), port), t, [])
  {
  }

  /** The same written out byte by byte. */
  lemma ConnectOnTheWire(reserved: byte, a: Address, hi: byte, lo: byte, t: bytes, ipString: bytes -> bytes)
    requires a.Fits()
    ensures var port := 256 * hi as int + lo as int;
            match a
            case V4(ip) =>
              Request([0x05, 0x01, reserved, 0x01] + (ip + ([hi, lo] + t)), ipString)
              == Done(Target(ipString(ip), port), t, [])
            case Domain(name) =>
              Request([0x05, 0x01, reserved, 0x03] + ([|name| as byte] + (name + ([hi, lo] + t))), ipString)
              == Done(Target(name, port), t, [])
            case V6(ip) =>
              Request([0x05, 0x01, reserved, 0x04] + (ip + ([hi, lo] + t)), ipString)
              == Done(Target(ipString(ip), port), t, [])
  {
    var port: Port := 256 * hi as int + lo as int;
    assert U16Bytes(port) == [hi, lo];
    ConnectIsRead(reserved, a, port, t, ipString);
  }

  lemma AcceptedIsPort(host: bytes, input: bytes) returns (port: Port)
    requires Port2(host, input).Done?
    ensures input == U16Bytes(port) + Port2(host, input).rest
    ensures Port2(host, input) == Done(Target(host, port), input[2..], [])
  {
    port := U16(input[0], input[1]);
    U16BytesInverse(input[0], input[1]);
    Rejoin(input, 2);
  }

  lemma AcceptedIsConnect(input: bytes, ipString: bytes -> bytes)
    returns (reserved: byte, a: Address, port: Port)
    requires Request(input, ipString).Done?
    ensures a.Fits()
    ensures var o := Request(input, ipString);
            input == ConnectThen(reserved, a, port, o.rest) && o.value == Target(a.Host(ipString), port) && o.sent == []
  {
    reserved := input[2];
    var b := input[4..];
    var tail: bytes;
    if input[3] == ADDR_IPV4 {
      a, tail := V4(b[..4]), b[4..];
      Rejoin(b, 4);
    } else if input[3] == ADDR_IPV6 {
      a, tail := V6(b[..16]), b[16..];
      Rejoin(b, 16);
    } else {
      a, tail := Domain(b[1..][..b[0]]), b[1..][b[0]..];
      SplitVec8(b);
    }
    port := AcceptedIsPort(a.Host(ipString), tail);
    Rejoin(input, 4);
  }

  /** The whole of what a client sends to be relayed. */
  ghost predicate Legitimate(w: World, passes: Gates, input: bytes, methods: bytes, password: bytes,
                             reserved: byte, a: Address, port: Port, r: Relay)
  {
    && |methods| < 256 && |r.user| < 256 && |password| < 256 && a.Fits()
    && input == GreetingThen(methods, LoginThen(r.user, password, ConnectThen(reserved, a, port, r.rest)))
    && r.target == Target(a.Host(w.ipString), port)
    && w.ipAllowed && 0x02 in methods && w.valid(r.user, password) && passes(r.user)
    && w.dial(r.target).Some?
  }

  lemma NegotiationIsRead(methods: bytes, user: bytes, password: bytes, t: bytes, valid: Credentials)
    requires |methods| < 256 && METHOD_USERPASS in methods
    requires |user| < 256 && |password| < 256 && valid(user, password)
    ensures Negotiate(GreetingThen(methods, LoginThen(user, password, t)), valid)
            == Done(user, t, [VERSION5, METHOD_USERPASS, USERPASS_VERSION, 0x00])
  {
  }

  lemma ConnectSucceeds(w: World, user: bytes, reserved: byte, a: Address, port: Port, rest: bytes)
    requires a.Fits() && w.dial(Target(a.Host(w.ipString), port)).Some?
    ensures var target := Target(a.Host(w.ipString), port);
            Connect(w, user, ConnectThen(reserved, a, port, rest))
            == Session(Reply(SUCCEEDED, w.dial(target)), Some(Relay(user, target, rest)))
  {
  }

  lemma LegitimateIsRelayed(w: World, passes: Gates, input: bytes, methods: bytes, password: bytes,
                            reserved: byte, a: Address, port: Port, r: Relay)
    requires Legitimate(w, passes, input, methods, password, reserved, a, port, r)
    ensures Serve(w, passes, input).relay == Some(r)
    ensures Serve(w, passes, input).sent == [0x05, 0x02, 0x01, 0x00] + Reply(0x00, w.dial(r.target))
  {
    ConnectSucceeds(w, r.user, reserved, a, port, r.rest);
    NegotiationIsRead(methods, r.user, password, ConnectThen(reserved, a, port, r.rest), w.valid);
  }

  lemma NegotiatedIsLogin(input: bytes, valid: Credentials) returns (methods: bytes, password: bytes)
    requires Negotiate(input, valid).Done?
    ensures var o := Negotiate(input, valid);
            && |methods| < 256 && METHOD_USERPASS in methods
            && |o.value| < 256 && |password| < 256 && valid(o.value, password)
            && input == GreetingThen(methods, LoginThen(o.value, password, o.rest))
  {
    var t;
    methods, t := AcceptedIsGreeting(input, valid);
    password := AcceptedIsLogin(t, valid);
  }

  lemma ConnectedIsRequest(w: World, user: bytes, input: bytes) returns (reserved: byte, a: Address, port: Port)
    requires Connect(w, user, input).relay.Some?
    ensures a.Fits()
    ensures var r := Connect(w, user, input).relay.value;
            && input == ConnectThen(reserved, a, port, r.rest) && r.user == user
            && r.target == Target(a.Host(w.ipString), port) && w.dial(r.target).Some?
  {
    reserved, a, port := AcceptedIsConnect(input, w.ipString);
  }

  lemma RelayedIsLegitimate(w: World, passes: Gates, input: bytes)
    returns (methods: bytes, password: bytes, reserved: byte, a: Address, port: Port)
    requires Serve(w, passes, input).relay.Some?
    ensures Legitimate(w, passes, input, methods, password, reserved, a, port, Serve(w, passes, input).relay.value)
  {
    var o := Negotiate(input, w.valid);
    methods, password := NegotiatedIsLogin(input, w.valid);
    reserved, a, port := ConnectedIsRequest(w, o.value, o.rest);
  }

  /** Relaying begins, for that user and target and with exactly rest unread, just when the client's
      bytes are a greeting that offers user and password, accepted credentials and a CONNECT request
      followed by rest, every gate that applies passed, and the target was reached. */
  lemma RelayedIff(w: World, passes: Gates, input: bytes, r: Relay)
    ensures Serve(w, passes, input).relay == Some(r) <==>
              exists methods, password, reserved, a, port: Port ::
                Legitimate(w, passes, input, methods, password, reserved, a, port, r)
  {
    if Serve(w, passes, input).relay == Some(r) {
      var methods, password, reserved, a, port := RelayedIsLegitimate(w, passes, input);
    }
    forall methods, password, reserved, a, port: Port |
      Legitimate(w, passes, input, methods, password, reserved, a, port, r)
      ensures Serve(w, passes, input).relay == Some(r)
    {
      LegitimateIsRelayed(w, passes, input, methods, password, reserved, a, port, r);
    }
  }

  // -------------------------------------------------------------- what the server says

  /** Method selection, then the login's status, then one ten-byte reply, each only after the one
      before said to go on. */
  predicate Transcript(sent: bytes) {
    && (|sent| == 0 || |sent| == 2 || |sent| == 4 || |sent| == 14)
    && (|sent| >= 2 ==> sent[0] == 0x05 && sent[1] in {0x02, 0xFF})
    && (|sent| >= 4 ==> sent[1] == 0x02 && sent[2] == 0x01 && sent[3] in {0x00, 0x01})
    && (|sent| == 14 ==>
          && sent[3] == 0x00 && sent[4] == 0x05 && sent[6] == 0x00 && sent[7] == 0x01
          && sent[5] in {0x00, 0x04, 0x07, 0x08})
  }

  lemma NegotiateSays(input: bytes, valid: Credentials)
    ensures Transcript(Negotiate(input, valid).sent) && |Negotiate(input, valid).sent| <= 4
    ensures Negotiate(input, valid).Done? ==>
              Negotiate(input, valid).sent == [VERSION5, METHOD_USERPASS, USERPASS_VERSION, 0x00]
  {
  }

  lemma RequestSays(input: bytes, ipString: bytes -> bytes)
    ensures var o := Request(input, ipString);
            o.sent == [] || (o.Failed? && o.sent in {Reply(CMD_NOT_SUPPORTED, None), Reply(ADDR_NOT_SUPPORTED, None)})
    ensures var o := Request(input, ipString); o.Done? ==> o.sent == []
  {
  }

  /** Over every run the server's bytes have that shape, and it reports success just when it goes on
      to relay. */
  lemma SaysSuccessIffRelayed(w: World, passes: Gates, input: bytes)
    ensures var s := Serve(w, passes, input);
            Transcript(s.sent) && (s.relay.Some? <==> |s.sent| == 14 && s.sent[5] == 0x00)
  {
    NegotiateSays(input, w.valid);
    var o := Negotiate(input, w.valid);
    if o.Done? {
      RequestSays(o.rest, w.ipString);
    }
  }

  // ------------------------------------------------------------ why it says what it says

  ghost predicate IsGreeting(input: bytes, methods: bytes, t: bytes) {
    |methods| < 256 && input == GreetingThen(methods, t)
  }

  ghost predicate IsLogin(input: bytes, user: bytes, password: bytes, t: bytes) {
    |user| < 256 && |password| < 256 && input == LoginThen(user, password, t)
  }

  ghost predicate IsRequest(input: bytes, command: byte, reserved: byte, addrType: byte, t: bytes) {
    input == [0x05, command, reserved, addrType] + t
  }

  ghost predicate IsConnect(input: bytes, reserved: byte, a: Address, port: Port, t: bytes) {
    a.Fits() && input == ConnectThen(reserved, a, port, t)
  }

  predicate KnownAddress(addrType: byte) {
    addrType == 0x01 || addrType == 0x03 || addrType == 0x04
  }

  /** The input starts with a greeting that offers user and password; t follows. */
  ghost predicate Greeted(w: World, input: bytes, t: bytes) {
    w.ipAllowed && exists methods :: IsGreeting(input, methods, t) && 0x02 in methods
  }

  /** ... and then a login of the user that is accepted. */
  ghost predicate LoggedIn(w: World, input: bytes, user: bytes, t: bytes) {
    exists login, password :: Greeted(w, input, login) && IsLogin(login, user, password, t) && w.valid(user, password)
  }

  /** The ways a session can go. */
  datatype Course =
    | Silence | NoMethod | NoLogin | Rejected | NoRequest | OtherCommand | OtherAddress | Unreachable | Relaying

  ghost predicate Takes(w: World, passes: Gates, input: bytes, c: Course) {
    match c
    case Silence => !w.ipAllowed || forall methods, t :: !IsGreeting(input, methods, t)
    case NoMethod => w.ipAllowed && exists methods, t :: IsGreeting(input, methods, t) && 0x02 !in methods
    case NoLogin => exists t :: Greeted(w, input, t) && forall user, password, rest :: !IsLogin(t, user, password, rest)
    case Rejected =>
      exists t, user, password, rest ::
        Greeted(w, input, t) && IsLogin(t, user, password, rest) && !w.valid(user, password)
    case NoRequest => exists user, t :: LoggedIn(w, input, user, t) && (!passes(user) || Incomplete(t))
    case OtherCommand =>
      exists user, t, command, reserved, addrType, rest ::
        LoggedIn(w, input, user, t) && passes(user) && IsRequest(t, command, reserved, addrType, rest)
        && command != 0x01
    case OtherAddress =>
      exists user, t, reserved, addrType, rest ::
        LoggedIn(w, input, user, t) && passes(user) && IsRequest(t, 0x01, reserved, addrType, rest)
        && !KnownAddress(addrType)
    case Unreachable =>
      exists user, t, reserved, a, port: Port, rest ::
        LoggedIn(w, input, user, t) && passes(user) && IsConnect(t, reserved, a, port, rest)
        && w.dial(Target(a.Host(w.ipString), port)).None?
    case Relaying =>
      exists user, t, reserved, a, port: Port, rest ::
        LoggedIn(w, input, user, t) && passes(user) && IsConnect(t, reserved, a, port, rest)
        && w.dial(Target(a.Host(w.ipString), port)).Some?
  }

  /** Neither a whole CONNECT request nor the start of one that is refused. */
  ghost predicate Incomplete(t: bytes) {
    && (forall reserved, a, port: Port, rest :: !IsConnect(t, reserved, a, port, rest))
    && (forall command, reserved, addrType, rest :: IsRequest(t, command, reserved, addrType, rest) ==>
          command == 0x01 && KnownAddress(addrType))
  }

  ghost predicate Said(sent: bytes, c: Course) {
    var ok := [0x05, 0x02, 0x01, 0x00];
    match c
    case Silence => sent == []
    case NoMethod => sent == [0x05, 0xFF]
    case NoLogin => sent == [0x05, 0x02]
    case Rejected => sent == [0x05, 0x02, 0x01, 0x01]
    case NoRequest => sent == ok
    case OtherCommand => sent == ok + Reply(0x07, None)
    case OtherAddress => sent == ok + Reply(0x08, None)
    case Unreachable => sent == ok + Reply(0x04, None)
    case Relaying => exists local :: sent == ok + Reply(0x00, Some(local))
  }

  // What the parsing stages look at, without the encodings.

  predicate HasGreeting(input: bytes) {
    |input| >= 2 && input[0] == VERSION5 && |input[2..]| >= input[1] as int
  }

  predicate HasLogin(input: bytes) {
    && |input| >= 2 && input[0] == USERPASS_VERSION && |input[2..]| >= input[1] as int
    && var a := input[2..][input[1]..]; |a| >= 1 && |a[1..]| >= a[0] as int
  }

  ghost function RequestCourse(w: World, t: bytes): Course {
    if |t| < 4 || t[0] != VERSION5 then NoRequest
    else if t[1] != CMD_CONNECT then OtherCommand
    else if !KnownAddress(t[3]) then OtherAddress
    else match Request(t, w.ipString)
      case Failed(_) => NoRequest
      case Done(target, _, _) => if w.dial(target).None? then Unreachable else Relaying
  }

  ghost function LoginCourse(w: World, passes: Gates, t: bytes): Course {
    if !HasLogin(t) then NoLogin else
      match Authenticate(t, w.valid)
      case Failed(_) => Rejected
      case Done(user, rest, _) => if passes(user) then RequestCourse(w, rest) else NoRequest
  }

  ghost function CourseOf(w: World, passes: Gates, input: bytes): Course {
    if !w.ipAllowed || !HasGreeting(input) then Silence
    else if METHOD_USERPASS !in input[2..][..input[1]] then NoMethod
    else LoginCourse(w, passes, input[2..][input[1]..])
  }

  lemma GreetingIff(input: bytes, methods: bytes, t: bytes)
    ensures IsGreeting(input, methods, t) <==>
            HasGreeting(input) && methods == input[2..][..input[1]] && t == input[2..][input[1]..]
  {
    if HasGreeting(input) {
      SplitVersioned(input);
    }
  }

  lemma LoginIff(input: bytes, user: bytes, password: bytes, t: bytes)
    ensures IsLogin(input, user, password, t) <==>
            && HasLogin(input) && user == input[2..][..input[1]]
            && var a := input[2..][input[1]..]; password == a[1..][..a[0]] && t == a[1..][a[0]..]
  {
    if HasLogin(input) {
      SplitVersioned(input);
      SplitVec8(input[2..][input[1]..]);
    }
  }

  lemma RequestIff(t: bytes, command: byte, reserved: byte, addrType: byte, rest: bytes)
    ensures IsRequest(t, command, reserved, addrType, rest) <==>
            |t| >= 4 && t[..4] == [VERSION5, command, reserved, addrType] && rest == t[4..]
  {
    if |t| >= 4 {
      Rejoin(t, 4);
    }
  }

  lemma GreetedIff(w: World, input: bytes, t: bytes)
    ensures Greeted(w, input, t) <==>
            && w.ipAllowed && HasGreeting(input) && METHOD_USERPASS in input[2..][..input[1]]
            && t == input[2..][input[1]..]
  {
    if HasGreeting(input) {
      GreetingIff(input, input[2..][..input[1]], t);
    }
    forall methods | IsGreeting(input, methods, t)
      ensures HasGreeting(input) && methods == input[2..][..input[1]] && t == input[2..][input[1]..]
    {
      GreetingIff(input, methods, t);
    }
  }

  lemma LoggedInIff(w: World, input: bytes, user: bytes, t: bytes)
    ensures LoggedIn(w, input, user, t) <==>
            && w.ipAllowed && HasGreeting(input) && METHOD_USERPASS in input[2..][..input[1]]
            && var login := input[2..][input[1]..];
               Authenticate(login, w.valid) == Done(user, t, [USERPASS_VERSION, 0x00])
  {
    if LoggedIn(w, input, user, t) {
      var login, password :| Greeted(w, input, login) && IsLogin(login, user, password, t) && w.valid(user, password);
      GreetedIff(w, input, login);
      LoginIsRead(user, password, t, w.valid);
    }
    if HasGreeting(input) {
      var login := input[2..][input[1]..];
      GreetedIff(w, input, login);
      if Authenticate(login, w.valid) == Done(user, t, [USERPASS_VERSION, 0x00]) {
        var password := AcceptedIsLogin(login, w.valid);
        assert IsLogin(login, user, password, t);
      }
    }
  }

  lemma ConnectCourse(w: World, t: bytes, reserved: byte, a: Address, port: Port, rest: bytes)
    requires IsConnect(t, reserved, a, port, rest)
    ensures RequestCourse(w, t) == if w.dial(Target(a.Host(w.ipString), port)).None? then Unreachable else Relaying
  {
    ConnectIsRead(reserved, a, port, rest, w.ipString);
    assert t[..4] == [VERSION5, CMD_CONNECT, reserved, AddressType(a)];
    assert t[0] == t[..4][0] && t[1] == t[..4][1] && t[3] == t[..4][3];
  }

  lemma HeadCourse(w: World, t: bytes, command: byte, reserved: byte, addrType: byte, rest: bytes)
    requires IsRequest(t, command, reserved, addrType, rest)
    ensures command != CMD_CONNECT ==> RequestCourse(w, t) == OtherCommand
    ensures command == CMD_CONNECT && !KnownAddress(addrType) ==> RequestCourse(w, t) == OtherAddress
  {
    RequestIff(t, command, reserved, addrType, rest);
    assert t[0] == t[..4][0] && t[1] == t[..4][1] && t[3] == t[..4][3];
  }

  lemma HeadIsRequest(t: bytes)
    requires |t| >= 4 && t[0] == VERSION5
    ensures IsRequest(t, t[1], t[2], t[3], t[4..])
  {
    RequestIff(t, t[1], t[2], t[3], t[4..]);
    assert t[..4] == [t[0], t[1], t[2], t[3]];
  }

  lemma IncompleteIff(w: World, t: bytes)
    ensures Incomplete(t) <==> RequestCourse(w, t) == NoRequest
  {
    forall reserved, a, port: Port, rest | IsConnect(t, reserved, a, port, rest)
      ensures RequestCourse(w, t) != NoRequest
    {
      ConnectCourse(w, t, reserved, a, port, rest);
    }
    forall command, reserved, addrType, rest | IsRequest(t, command, reserved, addrType, rest)
      ensures command != CMD_CONNECT || !KnownAddress(addrType) ==> RequestCourse(w, t) != NoRequest
    {
      HeadCourse(w, t, command, reserved, addrType, rest);
    }
    if |t| >= 4 && t[0] == VERSION5 {
      HeadIsRequest(t);
    }
    if Request(t, w.ipString).Done? {
      var reserved, a, port := AcceptedIsConnect(t, w.ipString);
      assert IsConnect(t, reserved, a, port, Request(t, w.ipString).rest);
    }
  }

  /** What the logged-in user's further bytes lead to. */
  ghost function UserCourse(w: World, passes: Gates, user: bytes, t: bytes): Course {
    if passes(user) then RequestCourse(w, t) else NoRequest
  }

  lemma LoggedInCourse(w: World, passes: Gates, input: bytes, user: bytes, t: bytes)
    requires LoggedIn(w, input, user, t)
    ensures CourseOf(w, passes, input) == UserCourse(w, passes, user, t)
  {
    LoggedInIff(w, input, user, t);
  }

  lemma GreetedCourse(w: World, passes: Gates, input: bytes, t: bytes)
    requires Greeted(w, input, t)
    ensures CourseOf(w, passes, input) == LoginCourse(w, passes, t)
  {
    GreetedIff(w, input, t);
  }

  lemma HasLoginIff(t: bytes)
    ensures HasLogin(t) <==> exists user, password, rest :: IsLogin(t, user, password, rest)
  {
    if HasLogin(t) {
      var a := t[2..][t[1]..];
      LoginIff(t, t[2..][..t[1]], a[1..][..a[0]], a[1..][a[0]..]);
    }
    forall user, password, rest | IsLogin(t, user, password, rest)
      ensures HasLogin(t)
    {
      LoginIff(t, user, password, rest);
    }
  }

  lemma RejectedLogin(w: World, passes: Gates, t: bytes, user: bytes, password: bytes, rest: bytes)
    requires IsLogin(t, user, password, rest) && !w.valid(user, password)
    ensures LoginCourse(w, passes, t) == Rejected
  {
    LoginIff(t, user, password, rest);
  }

  lemma UserSaysNoMore(w: World, passes: Gates, input: bytes, c: Course)
    requires Takes(w, passes, input, c) && c in {NoRequest, OtherCommand, OtherAddress}
    ensures exists user, t :: LoggedIn(w, input, user, t) && c == UserCourse(w, passes, user, t)
  {
    match c
    case NoRequest =>
      var user, t :| LoggedIn(w, input, user, t) && (!passes(user) || Incomplete(t));
      IncompleteIff(w, t);
    case OtherCommand =>
      var user, t, command, reserved, addrType, rest :|
        LoggedIn(w, input, user, t) && passes(user) && IsRequest(t, command, reserved, addrType, rest)
        && command != CMD_CONNECT;
      HeadCourse(w, t, command, reserved, addrType, rest);
    case OtherAddress =>
      var user, t, reserved, addrType, rest :|
        LoggedIn(w, input, user, t) && passes(user) && IsRequest(t, CMD_CONNECT, reserved, addrType, rest)
        && !KnownAddress(addrType);
      HeadCourse(w, t, CMD_CONNECT, reserved, addrType, rest);
  }

  lemma UserConnects(w: World, passes: Gates, input: bytes, c: Course)
    requires Takes(w, passes, input, c) && (c == Unreachable || c == Relaying)
    ensures exists user, t :: LoggedIn(w, input, user, t) && c == UserCourse(w, passes, user, t)
  {
    var user, t, reserved, a, port: Port, rest :|
      LoggedIn(w, input, user, t) && passes(user) && IsConnect(t, reserved, a, port, rest)
      && w.dial(Target(a.Host(w.ipString), port)).None? == (c == Unreachable);
    ConnectCourse(w, t, reserved, a, port, rest);
  }

  lemma GreetingTakesOnly(w: World, passes: Gates, input: bytes, c: Course)
    requires Takes(w, passes, input, c) && c in {Silence, NoMethod}
    ensures c == CourseOf(w, passes, input)
  {
    if c == Silence {
      if HasGreeting(input) {
        GreetingIff(input, input[2..][..input[1]], input[2..][input[1]..]);
      }
    } else {
      var methods, t :| IsGreeting(input, methods, t) && 0x02 !in methods;
      GreetingIff(input, methods, t);
    }
  }

  lemma LoginTakesOnly(w: World, passes: Gates, input: bytes, c: Course)
    requires Takes(w, passes, input, c) && c in {NoLogin, Rejected}
    ensures c == CourseOf(w, passes, input)
  {
    if c == NoLogin {
      var t :| Greeted(w, input, t) && forall user, password, rest :: !IsLogin(t, user, password, rest);
      GreetedCourse(w, passes, input, t);
      HasLoginIff(t);
    } else {
      var t, user, password, rest :|
        Greeted(w, input, t) && IsLogin(t, user, password, rest) && !w.valid(user, password);
      GreetedCourse(w, passes, input, t);
      RejectedLogin(w, passes, t, user, password, rest);
    }
  }

  lemma UserTakesOnly(w: World, passes: Gates, input: bytes, c: Course)
    requires Takes(w, passes, input, c) && c in {NoRequest, OtherCommand, OtherAddress, Unreachable, Relaying}
    ensures c == CourseOf(w, passes, input)
  {
    if c == Unreachable || c == Relaying {
      UserConnects(w, passes, input, c);
    } else {
      UserSaysNoMore(w, passes, input, c);
    }
    var user, t :| LoggedIn(w, input, user, t) && c == UserCourse(w, passes, user, t);
    LoggedInCourse(w, passes, input, user, t);
  }

  lemma TakesOnly(w: World, passes: Gates, input: bytes, c: Course)
    requires Takes(w, passes, input, c)
    ensures c == CourseOf(w, passes, input)
  {
    if c in {Silence, NoMethod} {
      GreetingTakesOnly(w, passes, input, c);
    } else if c in {NoLogin, Rejected} {
      LoginTakesOnly(w, passes, input, c);
    } else {
      UserTakesOnly(w, passes, input, c);
    }
  }

  lemma UserTakesConnect(w: World, passes: Gates, input: bytes, user: bytes, t: bytes)
    requires LoggedIn(w, input, user, t) && passes(user) && Request(t, w.ipString).Done?
    ensures Takes(w, passes, input, RequestCourse(w, t))
  {
    var reserved, a, port := AcceptedIsConnect(t, w.ipString);
    assert IsConnect(t, reserved, a, port, Request(t, w.ipString).rest);
    ConnectCourse(w, t, reserved, a, port, Request(t, w.ipString).rest);
  }

  lemma UserTakesOther(w: World, passes: Gates, input: bytes, user: bytes, t: bytes)
    requires LoggedIn(w, input, user, t) && passes(user) && Request(t, w.ipString).Failed?
    ensures Takes(w, passes, input, RequestCourse(w, t))
  {
    IncompleteIff(w, t);
    if |t| >= 4 && t[0] == VERSION5 {
      HeadIsRequest(t);
    }
  }

  lemma UserTakes(w: World, passes: Gates, input: bytes, user: bytes, t: bytes)
    requires LoggedIn(w, input, user, t)
    ensures Takes(w, passes, input, UserCourse(w, passes, user, t))
  {
    if passes(user) {
      if Request(t, w.ipString).Done? {
        UserTakesConnect(w, passes, input, user, t);
      } else {
        UserTakesOther(w, passes, input, user, t);
      }
    }
  }

  lemma LoginTakes(w: World, passes: Gates, input: bytes, t: bytes)
    requires Greeted(w, input, t)
    ensures Takes(w, passes, input, LoginCourse(w, passes, t))
  {
    HasLoginIff(t);
    if HasLogin(t) {
      var a := t[2..][t[1]..];
      var user, password, rest := t[2..][..t[1]], a[1..][..a[0]], a[1..][a[0]..];
      LoginIff(t, user, password, rest);
      if w.valid(user, password) {
        assert LoggedIn(w, input, user, rest);
        UserTakes(w, passes, input, user, rest);
      }
    }
  }

  lemma TakesItsCourse(w: World, passes: Gates, input: bytes)
    ensures Takes(w, passes, input, CourseOf(w, passes, input))
  {
    if !w.ipAllowed || !HasGreeting(input) {
      forall methods, t
        ensures !w.ipAllowed || !IsGreeting(input, methods, t)
      {
        GreetingIff(input, methods, t);
      }
    } else {
      var methods, t := input[2..][..input[1]], input[2..][input[1]..];
      GreetingIff(input, methods, t);
      GreetedIff(w, input, t);
      if METHOD_USERPASS in methods {
        LoginTakes(w, passes, input, t);
      }
    }
  }

  lemma RequestSaid(w: World, user: bytes, t: bytes)
    ensures var sent := Connect(w, user, t).sent;
            match RequestCourse(w, t)
            case NoRequest => sent == []
            case OtherCommand => sent == Reply(CMD_NOT_SUPPORTED, None)
            case OtherAddress => sent == Reply(ADDR_NOT_SUPPORTED, None)
            case Unreachable => sent == Reply(HOST_UNREACHABLE, None)
            case Relaying => exists local :: sent == Reply(SUCCEEDED, Some(local))
            case _ => false
  {
  }

  lemma SaysItsCourse(w: World, passes: Gates, input: bytes)
    ensures Said(Serve(w, passes, input).sent, CourseOf(w, passes, input))
  {
    NegotiateSays(input, w.valid);
    if w.ipAllowed && HasGreeting(input) && METHOD_USERPASS in input[2..][..input[1]] {
      var t := input[2..][input[1]..];
      match Authenticate(t, w.valid)
      case Failed(_) =>
      case Done(user, rest, _) => RequestSaid(w, user, rest);
    }
  }

  /** No two courses sound the same. */
  lemma SaidOnce(sent: bytes, c: Course, d: Course)
    requires Said(sent, c) && Said(sent, d)
    ensures c == d
  {
    var ok := [VERSION5, METHOD_USERPASS, USERPASS_VERSION, 0x00];
    if |sent| == 14 {
      forall code, addr | sent == ok + Reply(code, addr)
        ensures sent[5] == code
      {
        assert sent[4 + 1] == Reply(code, addr)[1] == code;
      }
    }
  }

  /** The transcript tells the course, both ways: the server says each of the nine things exactly when
      the input is laid out for it and the gates and the dial answer for it. */
  lemma SaysIff(w: World, passes: Gates, input: bytes, c: Course)
    ensures Said(Serve(w, passes, input).sent, c) <==> Takes(w, passes, input, c)
  {
    var d := CourseOf(w, passes, input);
    TakesItsCourse(w, passes, input);
    SaysItsCourse(w, passes, input);
    if Takes(w, passes, input, c) {
      TakesOnly(w, passes, input, c);
    }
    if Said(Serve(w, passes, input).sent, c) {
      SaidOnce(Serve(w, passes, input).sent, c, d);
    }
  }

  // ------------------------------------------------------------- never ahead of the client

  lemma Extend(p: bytes, t: bytes, n: nat)
    requires n <= |p|
    ensures (p + t)[..n] == p[..n] && (p + t)[n..] == p[n..] + t
  {
  }

  /** What a stage made of the start of its input stands when more input arrives. */
  ghost predicate Stands(now: Outcome, later: Outcome, more: bytes) {
    match now
    case Done(value, rest, sent) => later == Done(value, rest + more, sent)
    case Failed(sent) => sent <= later.sent
  }

  lemma AuthenticateStands(p: bytes, t: bytes, valid: Credentials)
    ensures Stands(Authenticate(p, valid), Authenticate(p + t, valid), t)
  {
    if |p| >= 2 && |p[2..]| >= p[1] as int {
      Extend(p, t, 2);
      Extend(p[2..], t, p[1] as int);
      var a := p[2..][p[1]..];
      if |a| >= 1 && |a[1..]| >= a[0] as int {
        Extend(a, t, 1);
        Extend(a[1..], t, a[0] as int);
      }
    }
  }

  lemma NegotiateStands(p: bytes, t: bytes, valid: Credentials)
    ensures Stands(Negotiate(p, valid), Negotiate(p + t, valid), t)
  {
    if |p| >= 2 && |p[2..]| >= p[1] as int {
      Extend(p, t, 2);
      Extend(p[2..], t, p[1] as int);
      AuthenticateStands(p[2..][p[1]..], t, valid);
    }
  }

  lemma AddressStands(p: bytes, t: bytes, n: nat, host: bytes)
    requires n <= |p|
    ensures (p + t)[..n] == p[..n]
    ensures Stands(Port2(host, p[n..]), Port2(host, (p + t)[n..]), t)
  {
  }

  lemma RequestStands(p: bytes, t: bytes, ipString: bytes -> bytes)
    ensures Stands(Request(p, ipString), Request(p + t, ipString), t)
  {
    if |p| >= 4 {
      Extend(p, t, 4);
      var a := p[4..];
      if p[3] == ADDR_IPV4 && |a| >= 4 {
        AddressStands(a, t, 4, ipString(a[..4]));
      } else if p[3] == ADDR_DOMAIN && |a| >= 1 && |a[1..]| >= a[0] as int {
        Extend(a, t, 1);
        AddressStands(a[1..], t, a[0] as int, a[1..][..a[0]]);
      } else if p[3] == ADDR_IPV6 && |a| >= 16 {
        AddressStands(a, t, 16, ipString(a[..16]));
      }
    }
  }

  lemma ConnectStands(w: World, user: bytes, p: bytes, t: bytes)
    ensures Connect(w, user, p).sent <= Connect(w, user, p + t).sent
    ensures var r := Connect(w, user, p).relay;
            r.Some? ==> Connect(w, user, p + t) ==
                          Session(Connect(w, user, p).sent, Some(Relay(user, r.value.target, r.value.rest + t)))
  {
    RequestStands(p, t, w.ipString);
    RequestSays(p, w.ipString);
    RequestSays(p + t, w.ipString);
  }

  lemma PrefixUnder(a: bytes, b: bytes, c: bytes)
    ensures a <= a + b
    ensures b <= c ==> a + b <= a + c
  {
  }

  lemma LoginStands(w: World, passes: Gates, now: Outcome, later: Outcome, t: bytes)
    requires Stands(now, later, t)
    ensures AfterLogin(w, passes, now).sent <= AfterLogin(w, passes, later).sent
    ensures var r := AfterLogin(w, passes, now).relay;
            r.Some? ==> AfterLogin(w, passes, later) ==
                          Session(AfterLogin(w, passes, now).sent,
                                  Some(Relay(r.value.user, r.value.target, r.value.rest + t)))
  {
    if now.Done? {
      ConnectStands(w, now.value, now.rest, t);
      PrefixUnder(now.sent, Connect(w, now.value, now.rest).sent, Connect(w, now.value, now.rest + t).sent);
    } else if later.Done? {
      PrefixUnder(later.sent, Connect(w, later.value, later.rest).sent, []);
    }
  }

  /** The server never says anything that depends on bytes it has not received: its output on the
      start of a stream is the start of its output on the whole stream, and a relay begun stays. */
  lemma NeverAhead(w: World, passes: Gates, p: bytes, t: bytes)
    ensures Serve(w, passes, p).sent <= Serve(w, passes, p + t).sent
    ensures var r := Serve(w, passes, p).relay;
            r.Some? ==> Serve(w, passes, p + t) ==
                          Session(Serve(w, passes, p).sent, Some(Relay(r.value.user, r.value.target, r.value.rest + t)))
  {
    NegotiateStands(p, t, w.valid);
    LoginStands(w, passes, Negotiate(p, w.valid), Negotiate(p + t, w.valid), t);
  }

  // --------------------------------------------------------- the target, taken apart

  function LastColon(s: bytes): (i: int)
    ensures -1 <= i < |s| && (i >= 0 ==> s[i] == COLON) && forall k :: i < k < |s| ==> s[k] != COLON
  {
    if s == [] then -1 else if s[|s| - 1] == COLON then |s| - 1 else LastColon(s[..|s| - 1])
  }

  function Number(digits: bytes): int {
    if digits == [] then 0 else 10 * Number(digits[..|digits| - 1]) + digits[|digits| - 1] as int - 48
  }

  lemma {:induction false} DecimalIsNumber(n: nat)
    ensures Decimal(n) != [] && COLON !in Decimal(n) && Number(Decimal(n)) == n
  {
    var tens, d := n / 10, n % 10;
    if n >= 10 {
      DecimalIsNumber(tens);
      assert Decimal(n)[..|Decimal(tens)|] == Decimal(tens);
    } else {
      assert Decimal(n)[..0] == [];
    }
  }

  /** Splitting a target at its last colon gives back host and port, whatever the host is made of. */
  lemma TargetSplits(host: bytes, port: nat)
    ensures var target := Target(host, port);
            var i := LastColon(target);
            i == |host| && target[..i] == host && target[i] == 58 && Number(target[i + 1..]) == port
  {
    var target, digits := Target(host, port), Decimal(port);
    DecimalIsNumber(port);
    assert target[|host|] == COLON;
    assert target[|host| + 1..] == digits;
    forall k | |host| < k < |target|
      ensures target[k] != COLON
    {
      assert target[k] == digits[k - |host| - 1];
    }
  }

  /** So two requests with the same target name the same host and port. */
  lemma TargetsAreInjective(host1: bytes, port1: nat, host2: bytes, port2: nat)
    requires Target(host1, port1) == Target(host2, port2)
    ensures host1 == host2 && port1 == port2
  {
    TargetSplits(host1, port1);
    TargetSplits(host2, port2);
  }
}
