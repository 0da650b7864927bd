/** The SOCKS5 handshake (hev-socks5-client.c, hev-socks5-server.c), by RFC 1928 and
    RFC 1929: what each side sends and decides from the bytes that have arrived.
    Handshake.dfy has the methods that do it. */
module Socks5 {
  import opened CStrings
  import opened Options

  const NONE: byte := 0
  const USER: byte := 2
  const DENY: byte := 255

  /** An IPv6 address with a port, as in a sockaddr_in6. */
  type Sock = s: seq<byte> | |s| == 18 witness [0, 0, 0, 0, 0, 0, 0, 0, 0, 0, 0, 0, 0, 0, 0, 0, 0, 0]

  /** HevSocks5Addr; the port is in network order. */
  datatype Addr =
    | V4(ip: seq<byte>, port: seq<byte>)
    | V6(ip: seq<byte>, port: seq<byte>)
    | Name(name: seq<byte>, port: seq<byte>)
    | OtherType(atype: byte)

  predicate IsAddr(a: Addr) {
    match a
    case V4(ip, port) => |ip| == 4 && |port| == 2
    case V6(ip, port) => |ip| == 16 && |port| == 2
    case Name(name, port) => |name| < 256 && |port| == 2
    case OtherType(atype) => atype != 1 && atype != 3 && atype != 4
  }

  type addr = a: Addr | IsAddr(a) witness OtherType(0)

  function EncodeAddr(a: addr): (r: seq<byte>)
    requires !a.OtherType?
    ensures |r| >= 4
  {
    match a
    case V4(ip, port) => [1] + ip + port
    case V6(ip, port) => [4] + ip + port
    case Name(name, port) => [3, |name| as byte] + name + port
  }

  /** What the world makes of addresses: names, connections, bound sockets, and what is
      in a sockaddr_in6 that has not been set. */
  datatype World = World(resolve: (seq<byte>, seq<byte>) -> Option<Sock>, connect: Sock -> bool,
                         bind: Sock -> (bool, Sock), open: bool, unset: Sock)

  /** hev_socks5_addr_into_sockaddr6 */
  function Target(w: World, a: addr): Option<Sock> {
    match a
    case V4(ip, port) => Some([0, 0, 0, 0, 0, 0, 0, 0, 0, 0, 0xFF, 0xFF] + ip + port)
    case V6(ip, port) => Some(ip + port)
    case Name(name, port) => w.resolve(name, port)
    case OtherType(_) => None
  }

  /** hev_socks5_addr_from_sockaddr6 */
  function FromSock(s: Sock): (r: addr)
    ensures !r.OtherType? && !r.Name?
  {
    if s[..12] == [0, 0, 0, 0, 0, 0, 0, 0, 0, 0, 0xFF, 0xFF] then V4(s[12..16], s[16..]) else V6(s[..16], s[16..])
  }

  // ---------------------------------------------------------------------
  // What a side does with the bytes that have arrived
  // ---------------------------------------------------------------------

  datatype Status = Waiting | Done(ok: bool)

  /** A request that the server acts on: a connection, or a socket for datagrams. */
  datatype Act = Act(cmd: byte, target: Sock)

  datatype Out = Out(sent: seq<byte>, status: Status, acted: Option<Act>)

  function After(b: seq<byte>, o: Out): Out {
    o.(sent := b + o.sent)
  }

  function Fails(b: seq<byte>): Out {
    Out(b, Done(false), None)
  }

  function Waits(b: seq<byte>): Out {
    Out(b, Waiting, None)
  }

  /** Not enough bytes: at the end of the stream that is a failure. */
  function Short(eof: bool, b: seq<byte>): Out {
    if eof then Fails(b) else Waits([])
  }

  datatype Server = Server(users: Option<map<seq<byte>, seq<byte>>>, world: World)

  function Wanted(s: Server): byte {
    if s.users.Some? then USER else NONE
  }

  /** The server: the method negotiation of section 3 of RFC 1928. */
  function ServerOn(s: Server, arrived: seq<byte>, eof: bool): Out {
    if |arrived| < 2 then Short(eof, [5, DENY])
    else if arrived[0] != 5 then Fails([5, DENY])
    else
      var n := 2 + arrived[1] as nat;
      if |arrived| < n then Short(eof, [5, DENY])
      else if Wanted(s) !in arrived[2..n] then Fails([5, DENY])
      else if s.users.Some? then After([5, USER], ServerUser(s, arrived[n..], eof))
      else After([5, NONE], ServerRequest(s.world, arrived[n..], eof))
  }

  /** Section 2 of RFC 1929. */
  function ServerUser(s: Server, arrived: seq<byte>, eof: bool): Out
    requires s.users.Some?
  {
    if |arrived| < 2 then Short(eof, [1, 255])
    else if arrived[0] != 1 || arrived[1] == 0 then Fails([1, 255])
    else
      var n := 2 + arrived[1] as nat;
      if |arrived| < n + 1 then Short(eof, [1, 255])
      else if arrived[n] == 0 then Fails([1, 255])
      else
        var m := n + 1 + arrived[n] as nat;
        if |arrived| < m then Short(eof, [1, 255])
        else if Known(s.users.value, arrived[2..n], arrived[n + 1..m])
        then After([1, 0], ServerRequest(s.world, arrived[m..], eof))
        else Fails([1, 255])
  }

  predicate Known(users: map<seq<byte>, seq<byte>>, user: seq<byte>, pass: seq<byte>) {
    user in users && users[user] == pass
  }

  /** How much of the address there is to read after its first two bytes. */
  function AddrRest(atype: byte, second: byte): Option<nat> {
    if atype == 1 then Some(5) else if atype == 4 then Some(17) else if atype == 3 then Some(2 + second as nat) else None
  }

  function ReadAddr(b: seq<byte>): addr
    requires |b| >= 2 && AddrRest(b[0], b[1]).Some? && |b| == 2 + AddrRest(b[0], b[1]).value
  {
    if b[0] == 1 then V4(b[1..5], b[5..])
    else if b[0] == 4 then V6(b[1..17], b[17..])
    else Name(b[2..|b| - 2], b[|b| - 2..])
  }

  /** Section 4 of RFC 1928. */
  function ServerRequest(w: World, arrived: seq<byte>, eof: bool): Out {
    if |arrived| < 5 then Short(eof, [])
    else if arrived[0] != 5 then Respond(1, w.unset, None)
    else
      match AddrRest(arrived[3], arrived[4])
      case None => Respond(8, w.unset, None)
      case Some(n) =>
        if |arrived| < 5 + n then (if eof then Respond(8, w.unset, None) else Waits([]))
        else
          match Target(w, ReadAddr(arrived[3..5 + n]))
          case None => Respond(8, w.unset, None)
          case Some(target) => Serve(w, arrived[1], target)
  }

  function Serve(w: World, cmd: byte, target: Sock): Out {
    if cmd == 1 then Respond(if w.connect(target) then 0 else 4, target, Some(Act(cmd, target)))
    else if cmd == 3 then
      var (ok, bound) := w.bind(target);
      Respond(if ok then 0 else 1, bound, Some(Act(cmd, target)))
    else if cmd == 5 then Respond(if w.open then 0 else 1, target, Some(Act(cmd, target)))
    else Respond(7, target, None)
  }

  function Response(rep: byte, s: Sock): seq<byte> {
    [5, rep, 0] + EncodeAddr(FromSock(s))
  }

  /** Section 6 of RFC 1928. */
  function Respond(rep: byte, s: Sock, acted: Option<Act>): Out {
    Out(Response(rep, s), Done(rep == 0), acted)
  }

  datatype Kind = Tcp | UdpInTcp | UdpInUdp | NoKind

  /** `associates`: whether the client can use the address that comes back. */
  datatype Client = Client(creds: Option<(CString, CString)>, kind: Kind, target: addr, associates: bool, pipeline: bool)

  function Methods(c: Client): seq<byte> {
    [5, 1, if c.creds.Some? then USER else NONE]
  }

  /** As much of a string as its length octet says. */
  function Cut(s: CString): (r: CString)
    ensures |r| < 256 && (|s| < 256 ==> r == s)
  {
    s[..|s| % 256]
  }

  function Credentials(c: Client): seq<byte> {
    match c.creds
    case None => []
    case Some((user, pass)) =>
      [1, |Cut(user)| as byte] + Cut(user) + ([|Cut(pass)| as byte] + Cut(pass))
  }

  function Command(k: Kind): (r: byte)
    requires !k.NoKind?
    ensures r == 1 || r == 3 || r == 5
  {
    match k
    case Tcp => 1
    case UdpInTcp => 5
    case UdpInUdp => 3
  }

  function Request(c: Client): Option<seq<byte>> {
    if c.kind.NoKind? || c.target.OtherType? then None else Some([5, Command(c.kind), 0] + EncodeAddr(c.target))
  }

  /** The client, with both handshakes. */
  function ClientOn(c: Client, arrived: seq<byte>, eof: bool): Out {
    if !c.pipeline then After(Methods(c), ClientMethod(c, arrived, eof))
    else
      match Request(c)
      case None => Fails(Methods(c) + Credentials(c))
      case Some(r) => After(Methods(c) + (Credentials(c) + r), ClientMethod(c, arrived, eof))
  }

  function ClientMethod(c: Client, arrived: seq<byte>, eof: bool): Out {
    if |arrived| < 2 then Short(eof, [])
    else if arrived[0] != 5 then Fails([])
    else if arrived[1] == USER then After(if c.pipeline then [] else Credentials(c), ClientAuth(c, arrived[2..], eof))
    else if arrived[1] == NONE then ClientRequest(c, arrived[2..], eof)
    else Fails([])
  }

  function ClientAuth(c: Client, arrived: seq<byte>, eof: bool): Out {
    if |arrived| < 2 then Short(eof, [])
    else if arrived[0] != 1 || arrived[1] != 0 then Fails([])
    else ClientRequest(c, arrived[2..], eof)
  }

  function ClientRequest(c: Client, arrived: seq<byte>, eof: bool): Out {
    if c.pipeline then ClientResponse(c, arrived, eof)
    else
      match Request(c)
      case None => Fails([])
      case Some(r) => After(r, ClientResponse(c, arrived, eof))
  }

  function ClientResponse(c: Client, arrived: seq<byte>, eof: bool): Out {
    if |arrived| < 4 then Short(eof, [])
    else if arrived[0] != 5 || arrived[1] != 0 || (arrived[3] != 1 && arrived[3] != 4) then Fails([])
    else if |arrived| < 4 + (if arrived[3] == 1 then 6 else 18) then Short(eof, [])
    else Out([], Done(c.associates), None)
  }
  // ---------------------------------------------------------------------
  // More bytes only add to what a side does
  // ---------------------------------------------------------------------

  /** What has arrived later: more bytes, and the end of the stream only once. */
  ghost predicate Later(a: seq<byte>, eof: bool, a': seq<byte>, eof': bool) {
    a <= a' && (eof ==> eof' && a == a')
  }

  /** A side goes on from what it has done. */
  ghost predicate GoesOn(o: Out, o': Out) {
    o.sent <= o'.sent && (o.status.Done? ==> o == o')
  }

  lemma {:induction false} AfterGoesOn(b: seq<byte>, o: Out, o': Out)
    requires GoesOn(o, o')
    ensures GoesOn(After(b, o), After(b, o'))
  {
  }

  lemma {:induction false} LaterRest(a: seq<byte>, eof: bool, a': seq<byte>, eof': bool, n: nat)
    requires Later(a, eof, a', eof') && n <= |a|
    ensures Later(a[n..], eof, a'[n..], eof')
  {
  }

  lemma {:induction false} ServerRequestGoesOn(w: World, a: seq<byte>, eof: bool, a': seq<byte>, eof': bool)
    requires Later(a, eof, a', eof')
    ensures GoesOn(ServerRequest(w, a, eof), ServerRequest(w, a', eof'))
  {
    hide Respond, Serve, Target, ReadAddr;
    if |a| >= 5 && AddrRest(a[3], a[4]).Some? {
      var n := 5 + AddrRest(a[3], a[4]).value;
      if |a| >= n {
        assert a'[3..n] == a[3..n];
      }
    }
  }

  lemma {:induction false} ServerUserGoesOn(s: Server, a: seq<byte>, eof: bool, a': seq<byte>, eof': bool)
    requires Later(a, eof, a', eof') && s.users.Some?
    ensures GoesOn(ServerUser(s, a, eof), ServerUser(s, a', eof'))
  {
    hide ServerRequest, Known;
    if |a| >= 2 {
      var n := 2 + a[1] as nat;
      if |a| > n && |a| >= n + 1 + a[n] as nat {
        var m := n + 1 + a[n] as nat;
        assert a'[2..n] == a[2..n] && a'[n + 1..m] == a[n + 1..m];
        LaterRest(a, eof, a', eof', m);
        ServerRequestGoesOn(s.world, a[m..], eof, a'[m..], eof');
        AfterGoesOn([1, 0], ServerRequest(s.world, a[m..], eof), ServerRequest(s.world, a'[m..], eof'));
      }
    }
  }

  /** Whatever arrives later, the server goes on from what it has done. */
  lemma {:induction false} ServerGoesOn(s: Server, a: seq<byte>, eof: bool, a': seq<byte>, eof': bool)
    requires Later(a, eof, a', eof')
    ensures GoesOn(ServerOn(s, a, eof), ServerOn(s, a', eof'))
  {
    hide ServerRequest, ServerUser;
    if |a| >= 2 && |a| >= 2 + a[1] as nat {
      var n := 2 + a[1] as nat;
      assert a'[2..n] == a[2..n];
      LaterRest(a, eof, a', eof', n);
      ServerRequestGoesOn(s.world, a[n..], eof, a'[n..], eof');
      if s.users.Some? {
        ServerUserGoesOn(s, a[n..], eof, a'[n..], eof');
      }
    }
  }

  lemma {:induction false} ClientRequestGoesOn(c: Client, a: seq<byte>, eof: bool, a': seq<byte>, eof': bool)
    requires Later(a, eof, a', eof')
    ensures GoesOn(ClientRequest(c, a, eof), ClientRequest(c, a', eof'))
  {
    hide Request;
  }

  /** Whatever arrives later, the client goes on from what it has done. */
  lemma {:induction false} ClientGoesOn(c: Client, a: seq<byte>, eof: bool, a': seq<byte>, eof': bool)
    requires Later(a, eof, a', eof')
    ensures GoesOn(ClientOn(c, a, eof), ClientOn(c, a', eof'))
  {
    hide ClientRequest, Methods, Credentials, Request;
    if |a| >= 2 {
      LaterRest(a, eof, a', eof', 2);
      ClientRequestGoesOn(c, a[2..], eof, a'[2..], eof');
      if |a| >= 4 {
        LaterRest(a[2..], eof, a'[2..], eof', 2);
        ClientRequestGoesOn(c, a[2..][2..], eof, a'[2..][2..], eof');
      }
    }
  }

  // ---------------------------------------------------------------------
  // One side reads what the other one writes
  // ---------------------------------------------------------------------

  lemma {:induction false} TargetOfResponse(rep: byte, t: Sock)
    ensures var r := Response(rep, t);
      && |r| == 4 + (if r[3] == 1 then 6 else 18) && r[0] == 5 && r[1] == rep && (r[3] == 1 || r[3] == 4)
  {
  }

  /** An address is read as it was written. */
  lemma {:induction false} AddrRoundTrip(a: addr)
    requires !a.OtherType?
    ensures var b := EncodeAddr(a);
      AddrRest(b[0], b[1]).Some? && |b| == 2 + AddrRest(b[0], b[1]).value && ReadAddr(b) == a
  {
  }

  /** What the server makes of the request of the client. */
  function Outcome(c: Client, w: World): Out
    requires !c.kind.NoKind?
  {
    match Target(w, c.target)
    case None => Respond(8, w.unset, None)
    case Some(t) => Serve(w, Command(c.kind), t)
  }

  lemma {:induction false} RequestIsRead(c: Client, w: World, eof: bool)
    requires Request(c).Some?
    ensures ServerRequest(w, Request(c).value, eof) == Outcome(c, w)
  {
    hide Respond, Serve, Target, ReadAddr;
    var r := Request(c).value;
    AddrRoundTrip(c.target);
    var b := EncodeAddr(c.target);
    assert r[3] == b[0] && r[4] == b[1] && r[3..|r|] == b;
  }

  /** The user and the password that the client has are in the table of the server. */
  ghost predicate Matches(c: Client, s: Server) {
    && c.creds.Some? && s.users.Some?
    && var (user, pass) := c.creds.value;
    Cut(user) != [] && Cut(pass) != [] && Known(s.users.value, Cut(user), Cut(pass))
  }

  lemma {:induction false} CredentialsAreRead(c: Client, s: Server, more: seq<byte>, eof: bool)
    requires c.creds.Some? && s.users.Some?
    ensures ServerUser(s, Credentials(c) + more, eof) ==
            if Matches(c, s) then After([1, 0], ServerRequest(s.world, more, eof)) else Fails([1, 255])
  {
    hide ServerRequest, Known, Cut;
    var (user, pass) := c.creds.value;
    var u, p := Cut(user), Cut(pass);
    var b := Credentials(c) + more;
    var n := 2 + |u|;
    var m := n + 1 + |p|;
    assert b[1] == |u| as byte && b[n] == |p| as byte && b[2..n] == u && b[n + 1..m] == p && b[m..] == more;
  }

  ghost predicate Agree(c: Client, s: Server) {
    c.creds.Some? == s.users.Some?
  }

  lemma {:induction false} MethodsAreRead(c: Client, s: Server, more: seq<byte>, eof: bool)
    ensures ServerOn(s, Methods(c) + more, eof) ==
            if !Agree(c, s) then Fails([5, DENY])
            else if s.users.Some? then After([5, USER], ServerUser(s, more, eof))
            else After([5, NONE], ServerRequest(s.world, more, eof))
  {
    hide ServerRequest, ServerUser;
    var b := Methods(c) + more;
    assert b[2..3] == [b[2]] && b[3..] == more;
  }
  /** The response is read as far as the client wants to know. */
  lemma {:induction false} ResponseIsRead(c: Client, rep: byte, t: Sock, eof: bool)
    ensures ClientResponse(c, Response(rep, t), eof) == Out([], Done(rep == 0 && c.associates), None)
  {
    TargetOfResponse(rep, t);
    hide Response;
  }

  /** An outcome is a response, and a good one says so. */
  lemma {:induction false} OutcomeResponds(c: Client, w: World) returns (rep: byte, t: Sock)
    requires !c.kind.NoKind?
    ensures Outcome(c, w) == Respond(rep, t, Outcome(c, w).acted)
  {
    match Target(w, c.target)
    case None => rep, t := 8, w.unset;
    case Some(target) => rep, t := ServeResponds(w, Command(c.kind), target);
  }

  lemma {:induction false} ServeResponds(w: World, cmd: byte, target: Sock) returns (rep: byte, t: Sock)
    ensures Serve(w, cmd, target) == Respond(rep, t, Serve(w, cmd, target).acted)
  {
    hide Response;
    if cmd == 1 {
      rep, t := if w.connect(target) then 0 else 4, target;
    } else if cmd == 3 {
      rep, t := if w.bind(target).0 then 0 else 1, w.bind(target).1;
    } else if cmd == 5 {
      rep, t := if w.open then 0 else 1, target;
    } else {
      rep, t := 7, target;
    }
  }

  lemma {:induction false} OutcomeIsRead(c: Client, w: World, eof: bool)
    requires !c.kind.NoKind?
    ensures Outcome(c, w).status.Done?
    ensures ClientResponse(c, Outcome(c, w).sent, eof) == Out([], Done(Outcome(c, w).status.ok && c.associates), None)
  {
    var rep, t := OutcomeResponds(c, w);
    ResponseIsRead(c, rep, t, eof);
    hide Outcome, ClientResponse, Response;
  }

  // ---------------------------------------------------------------------
  // Client and server together
  // ---------------------------------------------------------------------

  /** Whether the server lets the client send a request. */
  ghost predicate Admits(c: Client, s: Server) {
    Agree(c, s) && (s.users.Some? ==> Matches(c, s))
  }

  ghost predicate ServerVerdict(c: Client, s: Server) {
    Admits(c, s) && Request(c).Some? && Outcome(c, s.world).status == Done(true)
  }

  ghost predicate ClientVerdict(c: Client, s: Server) {
    ServerVerdict(c, s) && c.associates
  }

  /** What the server does for the client in the end. */
  ghost function Performs(c: Client, s: Server): Option<Act> {
    if Admits(c, s) && Request(c).Some? then Outcome(c, s.world).acted else None
  }

  ghost function RequestBytes(c: Client): seq<byte> {
    if Request(c).Some? then Request(c).value else []
  }

  /** All that the client sends. */
  ghost function ClientSends(c: Client, s: Server): seq<byte> {
    Methods(c) + if c.pipeline then Credentials(c) + RequestBytes(c)
                 else if !Agree(c, s) then []
                 else if s.users.Some? then Credentials(c) + (if Matches(c, s) then RequestBytes(c) else [])
                 else RequestBytes(c)
  }

  ghost function ResponseBytes(c: Client, s: Server): seq<byte> {
    if Request(c).Some? then Outcome(c, s.world).sent else []
  }

  /** All that the server sends. */
  ghost function ServerSends(c: Client, s: Server): seq<byte> {
    if !Agree(c, s) then [5, DENY]
    else if s.users.None? then [5, NONE] + ResponseBytes(c, s)
    else [5, USER] + if Matches(c, s) then [1, 0] + ResponseBytes(c, s) else [1, 255]
  }

  ghost function ClientEnd(c: Client, s: Server): Out {
    Out(ClientSends(c, s), Done(ClientVerdict(c, s)), None)
  }

  ghost function ServerEnd(c: Client, s: Server): Out {
    Out(ServerSends(c, s), Done(ServerVerdict(c, s)), Performs(c, s))
  }

  /** The end of the request, for the server. */
  lemma {:induction false} ServerRequestEnd(c: Client, s: Server, eof: bool)
    requires Request(c).None? ==> eof
    ensures var o := ServerRequest(s.world, RequestBytes(c), eof);
            if Request(c).Some? then o == Outcome(c, s.world) else o == Fails([])
  {
    hide Outcome;
    if Request(c).Some? {
      RequestIsRead(c, s.world, eof);
    }
  }

  lemma {:induction false} CredentialsOf(c: Client)
    ensures c.creds.None? ==> Credentials(c) == []
  {
  }

  /** The server, given all that the client sends. */
  lemma {:induction false} ServerFinishes(c: Client, s: Server)
    ensures ServerOn(s, ClientSends(c, s), !ClientVerdict(c, s)) == ServerEnd(c, s)
  {
    hide ServerOn, ServerUser, ServerRequest, Request, Methods, Credentials, Outcome, Matches;
    var eof, more := !ClientVerdict(c, s), ClientSends(c, s)[|Methods(c)|..];
    assert ClientSends(c, s) == Methods(c) + more;
    CredentialsOf(c);
    MethodsAreRead(c, s, more, eof);
    if Request(c).Some? {
      OutcomeEnds(c, s);
    }
    if Agree(c, s) {
      if s.users.Some? {
        UserFinishes(c, s, more, eof);
      } else {
        OpenFinishes(c, s, more, eof);
      }
    }
  }

  lemma {:induction false} OpenFinishes(c: Client, s: Server, more: seq<byte>, eof: bool)
    requires c.creds.None? && s.users.None? && more == RequestBytes(c) && eof == !ClientVerdict(c, s)
    ensures After([5, NONE], ServerRequest(s.world, more, eof)) == ServerEnd(c, s)
  {
    ServerRequestEnd(c, s, eof);
    hide ServerRequest, Request, Outcome;
    if Request(c).Some? {
      OutcomeEnds(c, s);
    }
  }

  lemma {:induction false} UserFinishes(c: Client, s: Server, more: seq<byte>, eof: bool)
    requires c.creds.Some? && s.users.Some? && eof == !ClientVerdict(c, s)
    requires more == Credentials(c) + if c.pipeline || Matches(c, s) then RequestBytes(c) else []
    ensures After([5, USER], ServerUser(s, more, eof)) == ServerEnd(c, s)
  {
    hide ServerUser, Request, Outcome, Matches, Credentials;
    ServerUserFinishes(c, s, more, eof);
    if Request(c).Some? {
      OutcomeEnds(c, s);
    }
  }

  lemma {:induction false} ServerUserFinishes(c: Client, s: Server, more: seq<byte>, eof: bool)
    requires c.creds.Some? && s.users.Some? && (Request(c).None? ==> eof)
    requires more == Credentials(c) + if c.pipeline || Matches(c, s) then RequestBytes(c) else []
    ensures ServerUser(s, more, eof) == if !Matches(c, s) then Fails([1, 255])
                                        else After([1, 0], if Request(c).Some? then Outcome(c, s.world) else Fails([]))
  {
    ServerRequestEnd(c, s, eof);
    hide ServerUser, ServerRequest, Request, Credentials, Outcome, Matches;
    CredentialsAreRead(c, s, if c.pipeline || Matches(c, s) then RequestBytes(c) else [], eof);
  }

  lemma {:induction false} OutcomeEnds(c: Client, s: Server)
    requires Request(c).Some?
    ensures Outcome(c, s.world).status.Done?
  {
    OutcomeIsRead(c, s.world, false);
  }

  /** The client, given all that the server sends. */
  lemma {:induction false} ClientFinishes(c: Client, s: Server)
    ensures ClientOn(c, ServerSends(c, s), !ServerVerdict(c, s)) == ClientEnd(c, s)
  {
    var eof := !ServerVerdict(c, s);
    var all := ServerSends(c, s);
    ClientRequestEnd(c, s, eof);
    CredentialsOf(c);
    hide ClientRequest, Request, Methods, Credentials, Outcome, Matches;
    if Agree(c, s) && s.users.None? {
      assert all[2..] == ResponseBytes(c, s);
    } else if Agree(c, s) && Matches(c, s) {
      assert all[2..][2..] == ResponseBytes(c, s);
    }
  }

  lemma {:induction false} ClientRequestEnd(c: Client, s: Server, eof: bool)
    ensures Request(c).Some? ==>
              var o := Outcome(c, s.world);
              o.status.Done? && ClientRequest(c, o.sent, eof) ==
                Out(if c.pipeline then [] else RequestBytes(c), Done(o.status.ok && c.associates), None)
    ensures Request(c).None? && !c.pipeline ==> ClientRequest(c, [], eof) == Fails([])
  {
    if Request(c).Some? {
      OutcomeIsRead(c, s.world, eof);
    }
  }
  /** Client and server while they talk: what has arrived on each side so far. */
  datatype System = System(toClient: seq<byte>, clientEof: bool, toServer: seq<byte>, serverEof: bool)

  const START := System([], false, [], false)

  function ClientOf(c: Client, y: System): Out {
    ClientOn(c, y.toClient, y.clientEof)
  }

  function ServerOf(s: Server, y: System): Out {
    ServerOn(s, y.toServer, y.serverEof)
  }

  /** Some of what has been sent arrives, in any pieces; the stream ends when the other
      side has given up and everything has arrived. */
  ghost predicate Arrives(from: Out, a: seq<byte>, eof: bool, a': seq<byte>, eof': bool) {
    && Later(a, eof, a', eof') && a' <= from.sent
    && (eof' ==> from.status == Done(false) && a' == from.sent)
  }

  ghost predicate Step(c: Client, s: Server, y: System, y': System) {
    && Arrives(ServerOf(s, y), y.toClient, y.clientEof, y'.toClient, y'.clientEof)
    && Arrives(ClientOf(c, y), y.toServer, y.serverEof, y'.toServer, y'.serverEof)
  }

  ghost predicate IsRun(c: Client, s: Server, ys: seq<System>) {
    && ys != [] && ys[0] == START
    && forall i :: 1 <= i < |ys| ==> Step(c, s, ys[i - 1], ys[i])
  }

  /** Everything that has been sent has arrived. */
  ghost predicate Quiet(c: Client, s: Server, y: System) {
    && y.toClient == ServerOf(s, y).sent && (y.clientEof <==> ServerOf(s, y).status == Done(false))
    && y.toServer == ClientOf(c, y).sent && (y.serverEof <==> ClientOf(c, y).status == Done(false))
  }

  /** What holds at any time: each side has been given a part of what it gets in all. */
  ghost predicate OnTheWay(c: Client, s: Server, y: System) {
    && Later(y.toClient, y.clientEof, ServerSends(c, s), !ServerVerdict(c, s))
    && Later(y.toServer, y.serverEof, ClientSends(c, s), !ClientVerdict(c, s))
  }

  lemma {:induction false} OnTheWayEnds(c: Client, s: Server, y: System)
    requires OnTheWay(c, s, y)
    ensures GoesOn(ClientOf(c, y), ClientEnd(c, s)) && GoesOn(ServerOf(s, y), ServerEnd(c, s))
  {
    hide ClientOn, ServerOn, ClientSends, ServerSends, Performs;
    ClientFinishes(c, s);
    ServerFinishes(c, s);
    ClientGoesOn(c, y.toClient, y.clientEof, ServerSends(c, s), !ServerVerdict(c, s));
    ServerGoesOn(s, y.toServer, y.serverEof, ClientSends(c, s), !ClientVerdict(c, s));
  }

  lemma {:induction false} StaysOnTheWay(c: Client, s: Server, y: System, y': System)
    requires OnTheWay(c, s, y) && Step(c, s, y, y')
    ensures OnTheWay(c, s, y')
  {
    hide ClientOn, ServerOn, ClientSends, ServerSends, Performs, ClientVerdict, ServerVerdict;
    OnTheWayEnds(c, s, y);
  }

  /** Over every run, in whatever pieces the bytes arrive: what has been sent is the
      beginning of what is sent in all; a side that has come to a verdict has come to the
      right one; and what the server acts on is the request of the client. */
  lemma {:induction false} RunsAgree(c: Client, s: Server, ys: seq<System>)
    requires IsRun(c, s, ys)
    ensures OnTheWay(c, s, ys[|ys| - 1])
    ensures var y := ys[|ys| - 1];
      && ClientOf(c, y).sent <= ClientSends(c, s) && ServerOf(s, y).sent <= ServerSends(c, s)
      && (ClientOf(c, y).status.Done? ==> ClientOf(c, y).status.ok == ClientVerdict(c, s))
      && (ServerOf(s, y).status.Done? ==>
            ServerOf(s, y).status.ok == ServerVerdict(c, s) && ServerOf(s, y).acted == Performs(c, s))
    decreases |ys|
  {
    hide ClientOn, ServerOn, ClientSends, ServerSends, Performs, ClientVerdict, ServerVerdict;
    var n := |ys| - 1;
    if n > 0 {
      RunsAgree(c, s, ys[..n]);
      assert ys[..n][n - 1] == ys[n - 1];
      StaysOnTheWay(c, s, ys[n - 1], ys[n]);
    }
    OnTheWayEnds(c, s, ys[n]);
  }

  // ---------------------------------------------------------------------
  // No deadlock
  // ---------------------------------------------------------------------

  /** The last part: the request and the response. */
  lemma {:induction false} RequestStage(c: Client, s: Server, z: seq<byte>, serverEof: bool, clientEof: bool)
    requires var o := ServerRequest(s.world, z, serverEof);
             var p := ClientRequest(c, o.sent, clientEof);
      if c.pipeline then z == RequestBytes(c) && (Request(c).None? ==> serverEof)
      else z == p.sent && (serverEof <==> p.status == Done(false))
    ensures var o := ServerRequest(s.world, z, serverEof);
      o.status.Done? && ((c.pipeline && Request(c).None?) || ClientRequest(c, o.sent, clientEof).status.Done?)
  {
    var o := ServerRequest(s.world, z, serverEof);
    hide Request;
    ResponseSendsNothing(c, o.sent, clientEof);
    if Request(c).Some? {
      RequestIsRead(c, s.world, serverEof);
      HasKind(c);
      OutcomeIsRead(c, s.world, clientEof);
      assert z == Request(c).value;
    }
  }

  lemma {:induction false} HasKind(c: Client)
    ensures Request(c).Some? ==> !c.kind.NoKind?
  {
  }

  lemma {:induction false} ResponseSendsNothing(c: Client, a: seq<byte>, eof: bool)
    ensures ClientResponse(c, a, eof).sent == []
  {
  }
  /** The part with the user and the password. */
  lemma {:induction false} UserStage(c: Client, s: Server, x: seq<byte>, serverEof: bool, clientEof: bool)
    requires c.creds.Some? && s.users.Some?
    requires var o := ServerUser(s, x, serverEof);
             var p := After(if c.pipeline then [] else Credentials(c), ClientAuth(c, o.sent, clientEof));
      if c.pipeline then x == Credentials(c) + RequestBytes(c) && (Request(c).None? ==> serverEof)
      else x == p.sent && (serverEof <==> p.status == Done(false))
    ensures var o := ServerUser(s, x, serverEof);
      o.status.Done? && ((c.pipeline && Request(c).None?) || ClientAuth(c, o.sent, clientEof).status.Done?)
  {
    hide ServerUser, ServerRequest, ClientRequest, Request, Credentials, Matches;
    var z := x[|Credentials(c)|..];
    assert x == Credentials(c) + z;
    CredentialsAreRead(c, s, z, serverEof);
    var o := ServerUser(s, x, serverEof);
    if Matches(c, s) {
      var r := ServerRequest(s.world, z, serverEof).sent;
      assert o.sent == [1, 0] + r && o.sent[2..] == r;
      RequestStage(c, s, z, serverEof, clientEof);
    }
  }

  lemma {:induction false} PipelinedSendsFirst(c: Client, a: seq<byte>, eof: bool)
    requires c.pipeline
    ensures ClientMethod(c, a, eof).sent == []
  {
  }

  /** When everything that has been sent has arrived, both sides are done: neither waits
      for the other one. */
  lemma {:induction false} NoDeadlock(c: Client, s: Server, y: System)
    requires Quiet(c, s, y)
    ensures ClientOf(c, y).status.Done? && ServerOf(s, y).status.Done?
  {
    hide ServerOn, ServerUser, ServerRequest, ClientAuth, ClientRequest, Request, Methods, Credentials;
    var x := y.toServer[|Methods(c)|..];
    assert y.toServer == Methods(c) + x;
    MethodsAreRead(c, s, x, y.serverEof);
    CredentialsOf(c);
    var a := y.toClient;
    if c.pipeline {
      PipelinedSendsFirst(c, a, y.clientEof);
      assert x == Credentials(c) + RequestBytes(c);
    }
    if !Agree(c, s) {
      assert ClientOf(c, y).status.Done?;
    } else if s.users.Some? {
      var o := ServerUser(s, x, y.serverEof);
      assert a == [5, USER] + o.sent && a[2..] == o.sent;
      UserStage(c, s, x, y.serverEof, y.clientEof);
    } else {
      var o := ServerRequest(s.world, x, y.serverEof);
      assert a == [5, NONE] + o.sent && a[2..] == o.sent;
      RequestStage(c, s, x, y.serverEof, y.clientEof);
    }
  }

  // ---------------------------------------------------------------------
  // When the server succeeds, and what it replies
  // ---------------------------------------------------------------------

  /** The server can do what a command asks for. */
  ghost predicate Possible(w: World, cmd: byte, t: Sock) {
    (cmd == 1 && w.connect(t)) || (cmd == 3 && w.bind(t).0) || (cmd == 5 && w.open)
  }

  /** The socket address that a reply is about: where it has bound, or else the target. */
  ghost function About(w: World, cmd: byte, t: Sock): Sock {
    if cmd == 3 then w.bind(t).1 else t
  }

  /** A response in the format of section 6 of RFC 1928, about a socket address. */
  ghost predicate Tells(w: World, b: seq<byte>, rep: byte, about: Sock) {
    && |b| >= 5 && b[..3] == [5, rep, 0]
    && AddrRest(b[3], b[4]).Some? && |b| == 5 + AddrRest(b[3], b[4]).value
    && Target(w, ReadAddr(b[3..])) == Some(about)
  }

  /** A socket address leads back to itself. */
  lemma {:induction false} SockRoundTrip(w: World, t: Sock)
    ensures Target(w, FromSock(t)) == Some(t)
  {
    if FromSock(t).V4? {
      assert t == t[..12] + t[12..16] + t[16..];
    } else {
      assert t == t[..16] + t[16..];
    }
  }

  lemma {:induction false} ResponseTells(w: World, rep: byte, t: Sock)
    ensures Tells(w, Response(rep, t), rep, t)
  {
    SockRoundTrip(w, t);
    hide Target, FromSock;
    AddrRoundTrip(FromSock(t));
    hide EncodeAddr;
    var b := Response(rep, t);
    assert b[3..] == EncodeAddr(FromSock(t));
  }

  /** The reply to each request, by section 6 of RFC 1928: success exactly for what is
      possible; else the target refuses (4), something fails (1), the command is unknown
      (7), or there is no such address (8). The address of a reply reads back as what has
      been connected or bound. */
  lemma {:induction false} RequestAnswered(w: World, cmd: byte, rsv: byte, a: addr, eof: bool)
    requires !a.OtherType?
    ensures var o := ServerRequest(w, [5, cmd, rsv] + EncodeAddr(a), eof);
      match Target(w, a)
      case None => Tells(w, o.sent, 8, w.unset) && o.status == Done(false)
      case Some(t) =>
        && (Possible(w, cmd, t) ==> Tells(w, o.sent, 0, About(w, cmd, t)))
        && (!Possible(w, cmd, t) ==>
              Tells(w, o.sent, if cmd == 1 then 4 else if cmd == 3 || cmd == 5 then 1 else 7, About(w, cmd, t)))
        && o.status == Done(Possible(w, cmd, t))
  {
    AddrRoundTrip(a);
    var b := [5, cmd, rsv] + EncodeAddr(a);
    assert b[3..] == EncodeAddr(a);
    hide Target, ReadAddr, EncodeAddr, Response;
    assert b[3] == EncodeAddr(a)[0] && b[4] == EncodeAddr(a)[1] && b[3..|b|] == EncodeAddr(a);
    match Target(w, a)
    case None => ResponseTells(w, 8, w.unset);
    case Some(t) =>
      forall rep, u ensures Tells(w, Response(rep, u), rep, u) {
        ResponseTells(w, rep, u);
      }
      hide Tells;
  }

  /** A request that ends inside its address. */
  ghost predicate EndsEarly(b: seq<byte>)
    requires |b| >= 5
  {
    || (b[3] == 1 && |b| < 10)
    || (b[3] == 4 && |b| < 22)
    || (b[3] == 3 && |b| < 7 + b[4] as nat)
  }

  /** The reply to what is no request: the wrong version (1), an unknown kind of address
      (8), or an address that ends too early (8). */
  lemma {:induction false} MalformedAnswered(w: World, arrived: seq<byte>, eof: bool)
    requires |arrived| >= 5
    ensures var o := ServerRequest(w, arrived, eof);
      && (arrived[0] != 5 ==> Tells(w, o.sent, 1, w.unset) && o.status == Done(false))
      && (arrived[0] == 5 && arrived[3] !in {1, 3, 4} ==> Tells(w, o.sent, 8, w.unset) && o.status == Done(false))
      && (arrived[0] == 5 && eof && EndsEarly(arrived) ==> Tells(w, o.sent, 8, w.unset) && o.status == Done(false))
  {
    ResponseTells(w, 1, w.unset);
    ResponseTells(w, 8, w.unset);
    hide Response, Serve, Target, ReadAddr, Tells;
  }

  /** What the client asks for can be done. */
  ghost predicate Granted(c: Client, w: World) {
    && !c.kind.NoKind? && !c.target.OtherType? && Target(w, c.target).Some?
    && var t := Target(w, c.target).value;
    match c.kind
    case Tcp => w.connect(t)
    case UdpInUdp => w.bind(t).0
    case UdpInTcp => w.open
    case NoKind => false
  }

  lemma {:induction false} ServerSucceeds(c: Client, s: Server)
    ensures ServerVerdict(c, s) <==> Admits(c, s) && Granted(c, s.world)
  {
    hide Admits, Target, EncodeAddr, Response, ServerRequest;
    if Request(c).Some? {
      RequestIsRead(c, s.world, true);
      RequestAnswered(s.world, Command(c.kind), 0, c.target, true);
    }
  }

  /** A run that has come to rest has come to the verdicts: the server succeeds exactly if
      it has admitted the client, the address resolves, and it could make the connection,
      bind the socket or open it; so does the client, unless it cannot use the address
      that it has been given. The two handshakes of the client come to the same. */
  lemma {:induction false} RunsEnd(c: Client, s: Server, ys: seq<System>)
    requires IsRun(c, s, ys) && Quiet(c, s, ys[|ys| - 1])
    ensures var y := ys[|ys| - 1];
      && ServerOf(s, y).status == Done(Admits(c, s) && Granted(c, s.world))
      && ClientOf(c, y).status == Done(Admits(c, s) && Granted(c, s.world) && c.associates)
      && ServerOf(s, y).acted == Performs(c, s)
    ensures var c' := c.(pipeline := !c.pipeline);
      (Admits(c, s) <==> Admits(c', s)) && (Granted(c, s.world) <==> Granted(c', s.world))
      && Performs(c, s) == Performs(c', s)
  {
    NoDeadlock(c, s, ys[|ys| - 1]);
    RunsAgree(c, s, ys);
    ServerSucceeds(c, s);
    hide ClientOn, ServerOn, ClientSends, ServerSends;
  }

  /** What an admitted client is told at the end of all that the server sends. */
  lemma {:induction false} AdmittedIsTold(c: Client, s: Server)
    requires Admits(c, s) && Request(c).Some?
    ensures var w, cmd := s.world, Command(c.kind);
      var b := ServerSends(c, s)[if s.users.Some? then 4 else 2..];
      match Target(w, c.target)
      case None => Tells(w, b, 8, w.unset)
      case Some(t) =>
        && (Granted(c, w) ==> Tells(w, b, 0, About(w, cmd, t)))
        && (!Granted(c, w) ==> Tells(w, b, if c.kind.Tcp? then 4 else 1, About(w, cmd, t)))
  {
    RequestIsRead(c, s.world, true);
    RequestAnswered(s.world, Command(c.kind), 0, c.target, true);
    assert ServerSends(c, s)[if s.users.Some? then 4 else 2..] == ResponseBytes(c, s);
    hide Target, Tells, Matches, Outcome, ServerRequest;
  }

  /** How much can still arrive. */
  ghost function Outstanding(c: Client, s: Server, y: System): int {
    |ServerSends(c, s)| - |y.toClient| + |ClientSends(c, s)| - |y.toServer|
      + (if y.clientEof then 0 else 1) + (if y.serverEof then 0 else 1)
  }

  /** Runs do not go on for ever: whatever arrives leaves less, and never too little. */
  lemma {:induction false} RunsStop(c: Client, s: Server, y: System, y': System)
    requires OnTheWay(c, s, y) && Step(c, s, y, y')
    ensures y == y' || 0 <= Outstanding(c, s, y') < Outstanding(c, s, y)
  {
    hide ClientSends, ServerSends, ClientOn, ServerOn;
    StaysOnTheWay(c, s, y, y');
    if |y.toClient| == |y'.toClient| {
      assert y.toClient == y'.toClient;
    }
    if |y.toServer| == |y'.toServer| {
      assert y.toServer == y'.toServer;
    }
  }

  // ---------------------------------------------------------------------
  // What the server acts on
  // ---------------------------------------------------------------------

  /** The server acts on exactly the command and the address that the client has. */
  lemma {:induction false} ServerDecodes(c: Client, s: Server)
    ensures var p := Performs(c, s);
      && (p.Some? ==> p.value.cmd == Command(c.kind) && Target(s.world, c.target) == Some(p.value.target))
      && (p.Some? <==> Admits(c, s) && !c.kind.NoKind? && !c.target.OtherType? && Target(s.world, c.target).Some?)
  {
    hide Response, Target, Admits;
  }

  /** A message with a user and a password that match, behind that with the methods. */
  ghost predicate HasCredentials(s: Server, arrived: seq<byte>, user: seq<byte>, pass: seq<byte>)
    requires s.users.Some? && |arrived| >= 2
  {
    var n := 2 + arrived[1] as nat;
    && 0 < |user| < 256 && 0 < |pass| < 256 && Known(s.users.value, user, pass)
    && n <= |arrived| && [1, |user| as byte] + user + [|pass| as byte] + pass <= arrived[n..]
  }

  /** Whatever arrives, from whatever client: a server with users acts only after a
      user and a password that match. */
  lemma {:induction false} ActsOnlyIfKnown(s: Server, arrived: seq<byte>, eof: bool)
    requires s.users.Some? && ServerOn(s, arrived, eof).acted.Some?
    ensures |arrived| >= 2 && exists user, pass :: HasCredentials(s, arrived, user, pass)
  {
    hide ServerRequest;
    var n := 2 + arrived[1] as nat;
    var a := arrived[n..];
    var k := 2 + a[1] as nat;
    var m := k + 1 + a[k] as nat;
    var user, pass := a[2..k], a[k + 1..m];
    assert [1, |user| as byte] + user + [|pass| as byte] + pass == a[..m];
    assert HasCredentials(s, arrived, user, pass);
  }
}
