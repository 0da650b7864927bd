/** The two sides of the SOCKS5 handshake as hev-socks5-server.c and
    hev-socks5-client.c run them on what has arrived: they come to their end, or to a
    receive that has to wait for more. */
module Handshake {
  import opened CStrings
  import opened Options
  import S = Socks5

  const FAILED: int := -1
  const BLOCKED: int := -2  // the receive waits; not a result of the source

  /** A connection: what has arrived, and whether that is all of it; and what has been
      sent.  `blocked` stands for a coroutine that waits in a receive: nothing runs on. */
  class Connection {
    const input: seq<byte>
    const eof: bool
    var at: nat
    var blocked: bool
    var output: seq<byte>

    constructor (input: seq<byte>, eof: bool)
      ensures this.input == input && this.eof == eof && at == 0 && output == [] && !blocked
    {
      this.input, this.eof, at, output, blocked := input, eof, 0, [], false;
    }

    ghost predicate Valid()
      reads this`at
    {
      at <= |input|
    }

    ghost predicate Running()
      reads this`at, this`blocked
    {
      Valid() && !blocked
    }

    ghost function Rest(): seq<byte>
      requires Valid()
      reads this`at
    {
      input[at..]
    }

    /** hev_task_io_socket_recv, for all of so many bytes: fewer come only at the end. */
    method Recv(n: nat) returns (b: seq<byte>)
      requires Running()
      modifies this`at, this`blocked
      ensures Valid() && (blocked <==> n > |old(Rest())| && !eof)
      ensures at == old(at) + |b| && |b| <= n && Rest() == old(Rest())[|b|..] && b == old(Rest())[..|b|]
      ensures |b| == n <==> n <= |old(Rest())|
      ensures |b| < n && !blocked ==> Rest() == []
    {
      if n > |input| - at && !eof {
        blocked := true;
        return [];
      }
      var m := if n <= |input| - at then n else |input| - at;
      b := input[at..at + m];
      assert input[at..][..m] == b && input[at..][m..] == input[at + m..];
      at := at + m;
    }

    method Send(b: seq<byte>)
      requires !blocked
      modifies this`output
      ensures output == old(output) + b
    {
      output := output + b;
    }
  }

  /** What the server keeps in its union: nothing, the users, or the user it has found. */
  datatype Holds = Nothing | Users(users: map<seq<byte>, seq<byte>>) | User(name: seq<byte>)

  class Server {
    const conn: Connection
    const world: S.World
    var obj: Holds
    var kind: S.Kind
    ghost var acted: Option<S.Act>

    constructor (conn: Connection, world: S.World, auth: Option<map<seq<byte>, seq<byte>>>)
      ensures this.conn == conn && this.world == world && Server() == S.Server(auth, world)
      ensures kind == S.NoKind && acted == None && !obj.User?
    {
      this.conn, this.world, kind, acted := conn, world, S.NoKind, None;
      obj := match auth case None => Nothing case Some(users) => Users(users);
    }

    function Server(): S.Server
      reads this`obj
    {
      S.Server(match obj case Users(users) => Some(users) case Nothing => None case User(_) => None, world)
    }

    /** hev_socks5_server_read_auth_method */
    method ReadAuthMethod() returns (method_: int)
      requires conn.Running() && !obj.User?
      modifies conn`at, conn`blocked
      ensures conn.Valid() && method_ in {FAILED, BLOCKED, S.NONE as int, S.USER as int} && (conn.blocked <==> method_ == BLOCKED)
      ensures method_ == BLOCKED ==> S.ServerOn(Server(), old(conn.Rest()), conn.eof) == S.Waits([])
      ensures method_ == FAILED ==> S.ServerOn(Server(), old(conn.Rest()), conn.eof) == S.Fails([5, S.DENY])
      ensures method_ == S.USER as int ==> obj.Users?
      ensures method_ == S.USER as int ==>
                S.ServerOn(Server(), old(conn.Rest()), conn.eof) == S.After([5, S.USER], S.ServerUser(Server(), conn.Rest(), conn.eof))
      ensures method_ == S.NONE as int ==> obj.Nothing?
      ensures method_ == S.NONE as int ==>
                S.ServerOn(Server(), old(conn.Rest()), conn.eof) == S.After([5, S.NONE], S.ServerRequest(world, conn.Rest(), conn.eof))
    {
      hide S.ServerUser, S.ServerRequest;
      ghost var all := conn.Rest();
      var head := conn.Recv(2);
      if conn.blocked {
        return BLOCKED;
      }
      if |head| != 2 {
        return FAILED;
      }
      if head[0] != 5 {
        return FAILED;
      }
      var methods := conn.Recv(head[1] as nat);
      if conn.blocked {
        return BLOCKED;
      }
      if |methods| != head[1] as nat {
        return FAILED;
      }
      var wanted := if obj.Users? then S.USER else S.NONE;
      method_ := FAILED;
      for i := 0 to |methods|
        invariant method_ == FAILED && wanted !in methods[..i]
      {
        if methods[i] == wanted {
          method_ := wanted as int;
          break;
        }
      }
      assert methods == all[2..2 + head[1] as nat];
      assert conn.Rest() == all[2 + head[1] as nat..];
    }

    /** hev_socks5_server_read_auth_user */
    method ReadAuthUser() returns (res: int)
      requires conn.Running() && obj.Users?
      modifies conn`at, conn`blocked, this`obj
      ensures conn.Valid() && res in {FAILED, BLOCKED, 0} && (conn.blocked <==> res == BLOCKED)
      ensures res == BLOCKED ==> S.ServerUser(old(Server()), old(conn.Rest()), conn.eof) == S.Waits([])
      ensures res == FAILED ==> S.ServerUser(old(Server()), old(conn.Rest()), conn.eof) == S.Fails([1, 255]) && obj == old(obj)
      ensures res == 0 ==> obj.User? && obj.name in old(obj.users)
      ensures res == 0 ==> S.ServerUser(old(Server()), old(conn.Rest()), conn.eof) ==
                             S.After([1, 0], S.ServerRequest(world, conn.Rest(), conn.eof))
    {
      hide S.ServerRequest;
      ghost var all := conn.Rest();
      var head := conn.Recv(2);
      if conn.blocked {
        return BLOCKED;
      }
      if |head| != 2 {
        return FAILED;
      }
      if head[0] != 1 {
        return FAILED;
      }
      var nlen := head[1] as nat;
      if nlen == 0 {
        return FAILED;
      }
      var name := conn.Recv(nlen + 1);
      if conn.blocked {
        return BLOCKED;
      }
      if |name| != nlen + 1 {
        return FAILED;
      }
      var plen := name[nlen] as nat;
      if plen == 0 {
        return FAILED;
      }
      var pass := conn.Recv(plen);
      if conn.blocked {
        return BLOCKED;
      }
      if |pass| != plen {
        return FAILED;
      }
      assert name[..nlen] == all[2..2 + nlen] && name[nlen] == all[2 + nlen];
      assert pass == all[3 + nlen..3 + nlen + plen] && conn.Rest() == all[3 + nlen + plen..];
      if name[..nlen] !in obj.users {
        return FAILED;
      }
      if obj.users[name[..nlen]] != pass {
        return FAILED;
      }
      obj := User(name[..nlen]);
      res := 0;
    }

    /** hev_socks5_server_auth */
    method Auth() returns (res: int)
      requires conn.Running() && conn.output == [] && !obj.User?
      modifies conn, this`obj
      ensures conn.Valid() && res in {FAILED, BLOCKED, 0} && (conn.blocked <==> res == BLOCKED)
      ensures res == BLOCKED ==> S.ServerOn(old(Server()), old(conn.Rest()), conn.eof) == S.Waits(conn.output)
      ensures res == FAILED ==> S.ServerOn(old(Server()), old(conn.Rest()), conn.eof) == S.Fails(conn.output)
      ensures res == 0 ==> S.ServerOn(old(Server()), old(conn.Rest()), conn.eof) ==
                             S.After(conn.output, S.ServerRequest(world, conn.Rest(), conn.eof))
      ensures res == 0 ==> (old(obj).Users? <==> obj.User?)
    {
      hide S.ServerOn, S.ServerUser, S.ServerRequest;
      var method_ := ReadAuthMethod();
      if method_ == BLOCKED {
        return BLOCKED;
      }
      conn.Send([5, if method_ == FAILED then S.DENY else method_ as byte]);
      if method_ == S.NONE as int {
        res := 0;
      } else if method_ == S.USER as int {
        res := ReadAuthUser();
        if res == BLOCKED {
          return;
        }
        conn.Send([1, if res == FAILED then 255 else 0]);
      } else {
        res := FAILED;
      }
    }

    /** hev_socks5_server_read_request */
    method ReadRequest() returns (res: int, cmd: byte, rep: byte, target: S.Sock)
      requires conn.Running()
      modifies conn`at, conn`blocked
      ensures conn.Valid() && res in {FAILED, BLOCKED, 0} && (conn.blocked <==> res == BLOCKED)
      ensures res == BLOCKED ==> S.ServerRequest(world, old(conn.Rest()), conn.eof) == S.Waits([])
      ensures res == FAILED ==> S.ServerRequest(world, old(conn.Rest()), conn.eof) == S.Fails([])
      ensures res == 0 ==> S.ServerRequest(world, old(conn.Rest()), conn.eof) ==
                             if rep == 0 then S.Serve(world, cmd, target) else S.Respond(rep, target, None)
    {
      hide S.Serve, S.Respond, S.Target, S.ReadAddr;
      ghost var all := conn.Rest();
      cmd, rep, target := 0, 0, world.unset;
      var req := conn.Recv(5);
      if conn.blocked {
        return BLOCKED, cmd, rep, target;
      }
      if |req| != 5 {
        return FAILED, cmd, rep, target;
      }
      res := 0;
      if req[0] != 5 {
        rep := 1;
        return;
      }
      var addrlen := if req[3] == 1 then 5 else if req[3] == 4 then 17 else if req[3] == 3 then 2 + req[4] as nat else 0;
      if addrlen == 0 {
        rep := 8;
        return;
      }
      var more := conn.Recv(addrlen);
      if conn.blocked {
        return BLOCKED, cmd, rep, target;
      }
      if |more| != addrlen {
        rep := 8;
        return;
      }
      assert req == all[..5] && more == all[5..][..addrlen] && all[5..][..addrlen] == all[5..5 + addrlen];
      assert req[3..] + more == all[3..5 + addrlen];
      match S.Target(world, S.ReadAddr(req[3..] + more)) {
        case None => rep := 8;
        case Some(t) => cmd, target := req[1], t;
      }
    }

    /** hev_socks5_server_handshake: with what has arrived, the server sends what it
        should, and waits, or comes to the verdict and the act that it should. */
    method Handshake() returns (res: int)
      requires conn.Running() && conn.output == [] && !obj.User? && acted == None
      modifies conn, this`obj, this`kind, this`acted
      ensures var o := S.ServerOn(old(Server()), old(conn.Rest()), conn.eof);
              conn.output == o.sent && o.status == StatusOf(res) && acted == o.acted
      ensures acted.Some? ==> kind == KindOf(acted.value.cmd) && (old(obj).Users? <==> obj.User?)
      ensures res in {FAILED, BLOCKED, 0}
    {
      hide S.ServerOn, S.ServerRequest, S.Response;
      res := Auth();
      if res < 0 {
        return;
      }
      var cmd, rep, target;
      res, cmd, rep, target := ReadRequest();
      if res < 0 {
        return;
      }
      if rep == 0 {
        rep, target := Dispatch(cmd, target);
      }
      conn.Send(S.Response(rep, target));
      res := if rep == 0 then 0 else FAILED;
    }

    method Dispatch(cmd: byte, target: S.Sock) returns (rep: byte, t: S.Sock)
      requires acted == None
      modifies this`kind, this`acted
      ensures S.Serve(world, cmd, target) == S.Respond(rep, t, acted)
      ensures acted.Some? ==> acted.value == S.Act(cmd, target) && kind == KindOf(cmd)
    {
      rep, t := 0, target;
      if cmd == 1 {
        acted := Some(S.Act(cmd, target));
        if !world.connect(target) {
          rep := 4;
        }
        kind := S.Tcp;
      } else if cmd == 3 {
        acted := Some(S.Act(cmd, target));
        var (ok, bound) := world.bind(target);
        t := bound;
        if !ok {
          rep := 1;
        }
        kind := S.UdpInUdp;
      } else if cmd == 5 {
        acted := Some(S.Act(cmd, target));
        if !world.open {
          rep := 1;
        }
        kind := S.UdpInTcp;
      } else {
        rep := 7;
      }
    }

    static function KindOf(cmd: byte): (k: S.Kind)
      ensures !k.NoKind? ==> S.Command(k) == cmd
      ensures k.NoKind? ==> forall other: S.Kind :: !other.NoKind? ==> S.Command(other) != cmd
    {
      if cmd == 1 then S.Tcp else if cmd == 3 then S.UdpInUdp else if cmd == 5 then S.UdpInTcp else S.NoKind
    }
  }

  function StatusOf(res: int): S.Status {
    if res == BLOCKED then S.Waiting else S.Done(res == 0)
  }

  class Client {
    const conn: Connection
    const self: S.Client

    constructor (conn: Connection, self: S.Client)
      ensures this.conn == conn && this.self == self
    {
      this.conn, this.self := conn, self;
    }

    /** hev_socks5_client_write_auth_methods */
    method WriteAuthMethods()
      requires !conn.blocked
      modifies conn`output
      ensures conn.output == old(conn.output) + S.Methods(self)
    {
      conn.Send([5, 1, if self.creds == None then S.NONE else S.USER]);
    }

    /** hev_socks5_client_write_auth_creds */
    method WriteAuthCreds()
      requires !conn.blocked
      modifies conn`output
      ensures conn.output == old(conn.output) + S.Credentials(self)
    {
      if self.creds == None {
        return;
      }
      var (user, pass) := self.creds.value;
      var ulen, plen := |user| % 256, |pass| % 256;
      conn.Send([1, ulen as byte] + user[..ulen] + ([plen as byte] + pass[..plen]));
    }

    /** hev_socks5_client_write_request */
    method WriteRequest() returns (res: int)
      requires !conn.blocked
      modifies conn`output
      ensures (res == FAILED && S.Request(self) == None && conn.output == old(conn.output))
              || (res == 0 && S.Request(self).Some? && conn.output == old(conn.output) + S.Request(self).value)
    {
      var cmd;
      match self.kind {
        case Tcp => cmd := 1;
        case UdpInTcp => cmd := 5;
        case UdpInUdp => cmd := 3;
        case NoKind => return FAILED;
      }
      if self.target.OtherType? {
        return FAILED;
      }
      conn.Send([5, cmd, 0] + S.EncodeAddr(self.target));
      res := 0;
    }

    /** hev_socks5_client_read_auth_method */
    method ReadAuthMethod() returns (res: int)
      requires conn.Running()
      modifies conn`at, conn`blocked
      ensures conn.Valid() && (res in {FAILED, BLOCKED} || 0 <= res < 256) && (conn.blocked <==> res == BLOCKED)
      ensures res == BLOCKED <==> |old(conn.Rest())| < 2 && !conn.eof
      ensures res == FAILED ==> |old(conn.Rest())| < 2 || old(conn.Rest())[0] != 5
      ensures res >= 0 ==> |old(conn.Rest())| >= 2 && old(conn.Rest())[0] == 5 && old(conn.Rest())[1] as int == res
      ensures res >= 0 ==> conn.Rest() == old(conn.Rest())[2..]
    {
      var auth := conn.Recv(2);
      if conn.blocked {
        return BLOCKED;
      }
      if |auth| != 2 || auth[0] != 5 {
        return FAILED;
      }
      res := auth[1] as int;
    }

    /** hev_socks5_client_read_auth_creds */
    method ReadAuthCreds() returns (res: int)
      requires conn.Running()
      modifies conn`at, conn`blocked
      ensures conn.Valid() && res in {FAILED, BLOCKED, 0} && (conn.blocked <==> res == BLOCKED)
      ensures res == BLOCKED <==> |old(conn.Rest())| < 2 && !conn.eof
      ensures res == 0 <==> |old(conn.Rest())| >= 2 && old(conn.Rest())[0] == 1 && old(conn.Rest())[1] == 0
      ensures res == 0 ==> conn.Rest() == old(conn.Rest())[2..]
    {
      var r := conn.Recv(2);
      if conn.blocked {
        return BLOCKED;
      }
      if |r| != 2 || r[0] != 1 || r[1] != 0 {
        return FAILED;
      }
      res := 0;
    }

    /** hev_socks5_client_read_response */
    method ReadResponse() returns (res: int)
      requires conn.Running()
      modifies conn`at, conn`blocked
      ensures conn.Valid() && res in {FAILED, BLOCKED, 0} && (conn.blocked <==> res == BLOCKED)
      ensures S.ClientResponse(self, old(conn.Rest()), conn.eof) == S.Out([], StatusOf(res), None)
    {
      ghost var all := conn.Rest();
      var r := conn.Recv(4);
      if conn.blocked {
        return BLOCKED;
      }
      if |r| != 4 {
        return FAILED;
      }
      if r[0] != 5 || r[1] != 0 {
        return FAILED;
      }
      var addrlen;
      if r[3] == 1 {
        addrlen := 6;
      } else if r[3] == 4 {
        addrlen := 18;
      } else {
        return FAILED;
      }
      var bytes := conn.Recv(addrlen);
      if conn.blocked {
        return BLOCKED;
      }
      if |bytes| != addrlen {
        return FAILED;
      }
      res := if self.associates then 0 else FAILED;
    }

    /** hev_socks5_client_handshake_standard */
    method Standard() returns (res: int)
      requires conn.Running() && conn.output == [] && !self.pipeline
      modifies conn
      ensures res in {FAILED, BLOCKED, 0} && (conn.blocked <==> res == BLOCKED)
      ensures S.ClientOn(self, old(conn.Rest()), conn.eof) == S.Out(conn.output, StatusOf(res), None)
    {
      hide S.Methods, S.Credentials, S.Request, S.ClientResponse;
      WriteAuthMethods();
      res := ReadAuthMethod();
      if res < 0 {
        return;
      }
      if res == S.USER as int {
        WriteAuthCreds();
        res := ReadAuthCreds();
        if res < 0 {
          return;
        }
      } else if res != S.NONE as int {
        return FAILED;
      }
      res := WriteRequest();
      if res < 0 {
        return;
      }
      res := ReadResponse();
    }

    /** hev_socks5_client_handshake_pipeline */
    method Pipeline() returns (res: int)
      requires conn.Running() && conn.output == [] && self.pipeline
      modifies conn
      ensures res in {FAILED, BLOCKED, 0} && (conn.blocked <==> res == BLOCKED)
      ensures S.ClientOn(self, old(conn.Rest()), conn.eof) == S.Out(conn.output, StatusOf(res), None)
    {
      hide S.Methods, S.Credentials, S.Request, S.ClientResponse;
      WriteAuthMethods();
      WriteAuthCreds();
      res := WriteRequest();
      if res < 0 {
        return;
      }
      assert conn.output == S.Methods(self) + (S.Credentials(self) + S.Request(self).value);
      ghost var all := conn.Rest();
      if |all| >= 4 {
        assert all[2..][2..] == all[4..];
      }
      res := ReadAuthMethod();
      if res < 0 {
        return;
      }
      if res == S.USER as int {
        res := ReadAuthCreds();
        if res < 0 {
          return;
        }
      } else if res != S.NONE as int {
        return FAILED;
      }
      res := ReadResponse();
    }

    /** hev_socks5_client_handshake */
    method Handshake() returns (res: int)
      requires conn.Running() && conn.output == []
      modifies conn
      ensures res in {FAILED, BLOCKED, 0} && (conn.blocked <==> res == BLOCKED)
      ensures S.ClientOn(self, old(conn.Rest()), conn.eof) == S.Out(conn.output, StatusOf(res), None)
    {
      hide S.ClientOn;
      if self.pipeline {
        res := Pipeline();
      } else {
        res := Standard();
      }
    }
  }
}
