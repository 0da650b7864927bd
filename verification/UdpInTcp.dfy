/** Datagrams in a TCP stream (hev-socks5-udp.c): each one as a head of three
    bytes, the address and the data. */
module UdpInTcp {
  import opened CStrings

  const UDP_BUF_SIZE: nat := 1500

  /** A datagram: its address, as in section 5 of RFC 1928, and its data. */
  datatype Msg = Msg(addr: seq<byte>, data: seq<byte>)

  /** hev_socks5_addr_len */
  function AddrLen(addr: seq<byte>): int
    requires |addr| >= 2
  {
    if addr[0] == 1 then 7
    else if addr[0] == 4 then 19
    else if addr[0] == 3 then 4 + addr[1] as int
    else -1
  }

  /** An address of a known type and of the length of that type. */
  predicate AddrOk(addr: seq<byte>) {
    |addr| >= 2 && AddrLen(addr) == |addr|
  }

  /** The frame of a datagram: the lengths are cut to 16 and 8 bits. */
  function Frame(m: Msg): seq<byte> {
    var datlen, hdrlen := |m.data| % 0x10000, (3 + |m.addr|) % 0x100;
    [(datlen / 0x100) as byte, (datlen % 0x100) as byte, hdrlen as byte] + m.addr + m.data
  }

  function Frames(ms: seq<Msg>): seq<byte> {
    if ms == [] then [] else Frame(ms[0]) + Frames(ms[1..])
  }

  /** What the receiver makes of the bytes before it, with buffers of 1500 bytes. */
  datatype Reading = Short | Malformed | Next(msg: Msg, rest: seq<byte>)

  function Read(s: seq<byte>): Reading {
    if |s| < 5 then Short
    else
      var hdrlen, datlen := s[2] as nat, s[0] as nat * 0x100 + s[1] as nat;
      if hdrlen < 5 || datlen > UDP_BUF_SIZE - (hdrlen - 3) then Malformed
      else if |s| < hdrlen + datlen then Short
      else Next(Msg(s[3..hdrlen], s[hdrlen..hdrlen + datlen]), s[hdrlen + datlen..])
  }

  /** A datagram that fits: the address into its 8-bit length, and everything
      into the buffer. */
  predicate Fits(m: Msg) {
    AddrOk(m.addr) && |m.addr| <= 252 && |m.data| < 0x10000 && |m.addr| + |m.data| <= UDP_BUF_SIZE
  }

  /** A datagram comes through, with whatever follows it, if and only if it fits. */
  lemma {:induction false} FrameRoundTrip(m: Msg, rest: seq<byte>)
    requires AddrOk(m.addr)
    ensures Read(Frame(m) + rest) == Next(m, rest) <==> Fits(m)
  {
    var s := Frame(m) + rest;
    var datlen, hdrlen := |m.data| % 0x10000, (3 + |m.addr|) % 0x100;
    assert s[0] as nat * 0x100 + s[1] as nat == datlen && s[2] as nat == hdrlen;
    if |m.addr| <= 252 && |m.data| < 0x10000 {
      assert hdrlen == 3 + |m.addr| && datlen == |m.data|;
      assert s[3..hdrlen] == m.addr && s[hdrlen..hdrlen + datlen] == m.data && s[hdrlen + datlen..] == rest;
    }
  }

  /** A name of 254 bytes makes an address of 258: its frame is taken apart wrongly. */
  lemma {:induction false} LongNameExample(addr: seq<byte>)
    requires |addr| == 258 && addr[0] == 3 && addr[1] == 254
    ensures AddrOk(addr)
    ensures exists m, r :: Read(Frame(Msg(addr, []))) == Next(m, r) && m.addr == [3, 254] && m.data == [] && r != []
  {
    var s := Frame(Msg(addr, []));
    assert s[2] == 5 && s[0] == 0 && s[1] == 0;
    assert s[3..5] == [3, 254];
    assert Read(s) == Next(Msg([3, 254], []), s[5..]);
  }

  /** The stream is made of whole frames, up to where it is malformed or ends. */
  ghost predicate Whole(s: seq<byte>)
    decreases |s|
  {
    s == [] || match Read(s)
               case Short => false
               case Malformed => true
               case Next(_, rest) => Whole(rest)
  }

  /** Well-formed datagrams make whole frames. */
  lemma {:induction false} FramesWhole(ms: seq<Msg>)
    requires forall i :: 0 <= i < |ms| ==> Fits(ms[i])
    ensures Whole(Frames(ms))
  {
    if ms != [] {
      FrameRoundTrip(ms[0], Frames(ms[1..]));
      FramesWhole(ms[1..]);
    }
  }

  /** The first `n` datagrams of a stream, and what follows them. */
  ghost predicate Starts(s: seq<byte>, ms: seq<Msg>, rest: seq<byte>)
    decreases |ms|
  {
    if ms == [] then rest == s
    else
      match Read(s)
      case Next(m, r) => m == ms[0] && Starts(r, ms[1..], rest)
      case _ => false
  }

  lemma {:induction false} StartsMore(s: seq<byte>, ms: seq<Msg>, rest: seq<byte>, m: Msg, rest': seq<byte>)
    requires Starts(s, ms, rest) && Read(rest) == Next(m, rest')
    ensures Starts(s, ms + [m], rest')
    decreases |ms|
  {
    if ms == [] {
      assert [m][1..] == [];
    } else {
      assert (ms + [m])[1..] == ms[1..] + [m];
      StartsMore(Read(s).rest, ms[1..], rest, m, rest');
    }
  }

  lemma {:induction false} StartsWhole(s: seq<byte>, ms: seq<Msg>, rest: seq<byte>)
    requires Starts(s, ms, rest) && Whole(s)
    ensures Whole(rest)
    decreases |ms|
  {
    if ms != [] {
      StartsWhole(Read(s).rest, ms[1..], rest);
    }
  }

  /** What has been received is the beginning of what was sent, and the stream
      goes on with the frames of the others. */
  lemma {:induction false} ReceivedAreSent(sent: seq<Msg>, ms: seq<Msg>, rest: seq<byte>)
    requires forall i :: 0 <= i < |sent| ==> Fits(sent[i])
    requires Starts(Frames(sent), ms, rest)
    ensures |ms| <= |sent| && ms == sent[..|ms|] && rest == Frames(sent[|ms|..])
    decreases |ms|
  {
    if ms != [] {
      if sent != [] {
        FrameRoundTrip(sent[0], Frames(sent[1..]));
        ReceivedAreSent(sent[1..], ms[1..], rest);
        assert sent[1..][|ms| - 1..] == sent[|ms|..];
        assert ms == [ms[0]] + ms[1..] && sent[..|ms|] == [sent[0]] + sent[1..][..|ms| - 1];
      }
    } else {
      assert sent[0..] == sent;
    }
  }

  /** Batches one after the other are one stream. */
  lemma {:induction false} FramesTwo(a: seq<Msg>, b: seq<Msg>)
    ensures Frames(a + b) == Frames(a) + Frames(b)
  {
    if a == [] {
      assert a + b == b;
    } else {
      assert (a + b)[1..] == a[1..] + b;
      FramesTwo(a[1..], b);
    }
  }

  /** What several calls receive is what the stream has one after the other. */
  lemma {:induction false} StartsTwo(s: seq<byte>, a: seq<Msg>, middle: seq<byte>, b: seq<Msg>, rest: seq<byte>)
    requires Starts(s, a, middle) && Starts(middle, b, rest)
    ensures Starts(s, a + b, rest)
    decreases |a|
  {
    if a == [] {
      assert a + b == b;
    } else {
      assert (a + b)[1..] == a[1..] + b;
      StartsTwo(Read(s).rest, a[1..], middle, b, rest);
    }
  }

  function Concat(iov: seq<seq<byte>>): seq<byte> {
    if iov == [] then [] else Concat(iov[..|iov| - 1]) + iov[|iov| - 1]
  }

  lemma {:induction false} FramesLast(ms: seq<Msg>, m: Msg)
    ensures Frames(ms + [m]) == Frames(ms) + Frame(m)
  {
    if ms == [] {
      assert [m][1..] == [];
    } else {
      assert (ms + [m])[1..] == ms[1..] + [m];
      FramesLast(ms[1..], m);
    }
  }

  lemma {:induction false} ConcatThree(iov: seq<seq<byte>>, a: seq<byte>, b: seq<byte>, c: seq<byte>)
    ensures Concat(iov + [a, b, c]) == Concat(iov) + (a + b + c)
  {
    var x, y, z := iov + [a], iov + [a, b], iov + [a, b, c];
    assert x[..|iov|] == iov && y[..|iov| + 1] == x && z[..|iov| + 2] == y;
    assert Concat(x) == Concat(iov) + a && Concat(y) == Concat(x) + b && Concat(z) == Concat(y) + c;
    assert Concat(iov) + a + b + c == Concat(iov) + (a + b + c);
  }

  /** The two ends of a stream, as far as they concern datagrams. */
  class Udp {
    var incoming: seq<byte>  // what is still to come
    var outgoing: seq<byte>  // what has been sent

    constructor (incoming: seq<byte>)
      ensures this.incoming == incoming && outgoing == []
    {
      this.incoming, outgoing := incoming, [];
    }

    lemma {:induction false} AddrKnown(addr: seq<byte>)
      requires |addr| >= 2 && AddrLen(addr) in {-1, |addr|}
      ensures AddrOk(addr) <==> AddrLen(addr) > 0
    {
    }

    /** The three pieces of one datagram. */
    method PushFrame(iov: seq<seq<byte>>, m: Msg) returns (iov': seq<seq<byte>>)
      ensures Concat(iov') == Concat(iov) + Frame(m) && |iov'| == |iov| + 3
    {
      var datlen, hdrlen := |m.data| % 0x10000, (3 + |m.addr|) % 0x100;
      var head := [(datlen / 0x100) as byte, (datlen % 0x100) as byte, hdrlen as byte];
      ConcatThree(iov, head, m.addr, m.data);
      iov' := iov + [head, m.addr, m.data];
    }

    /** hev_socks5_udp_sendmmsg_tcp: all datagrams, or none. */
    method SendMmsg(msgv: seq<Msg>) returns (res: int)
      requires forall i :: 0 <= i < |msgv| ==> |msgv[i].addr| >= 2 && AddrLen(msgv[i].addr) in {-1, |msgv[i].addr|}
      modifies `outgoing
      ensures res == if msgv != [] && forall i :: 0 <= i < |msgv| ==> AddrOk(msgv[i].addr) then |msgv| else -1
      ensures outgoing == old(outgoing) + if res > 0 then Frames(msgv) else []
    {
      var iov: seq<seq<byte>> := [];
      assert msgv[..0] == [] && Concat(iov) == Frames([]) == [];
      hide Concat, Frames, Frame, AddrLen, AddrOk;
      for i := 0 to |msgv|
        invariant Concat(iov) == Frames(msgv[..i]) && |iov| == 3 * i
        invariant outgoing == old(outgoing)
        invariant forall j :: 0 <= j < i ==> AddrOk(msgv[j].addr)
      {
        var addrlen := AddrLen(msgv[i].addr);
        if addrlen <= 0 {
          AddrKnown(msgv[i].addr);
          assert outgoing + [] == outgoing;
          return -1;
        }
        AddrKnown(msgv[i].addr);
        FramesLast(msgv[..i], msgv[i]);
        assert msgv[..i + 1] == msgv[..i] + [msgv[i]];
        iov := PushFrame(iov, msgv[i]);
      }
      assert msgv[..|msgv|] == msgv;
      if iov == [] {
        assert outgoing + [] == outgoing;
        return -1;
      }
      outgoing := outgoing + Concat(iov);
      res := |msgv|;
    }

    /** The receipt of the first five bytes of a frame: some of them as they come,
        `there` of them or none, and then the others. */
    method RecvHead(nonblock: bool, there: nat) returns (res: int, head: seq<byte>)
      modifies `incoming
      ensures old(incoming) == head + incoming && |head| <= 5 && (res == -1 || res == |head|)
      ensures res == -1 <==> old(incoming) != [] && nonblock && there == 0
      ensures res == -1 ==> head == []
      ensures res >= 0 && |old(incoming)| >= 5 ==> res == 5
    {
      head := [];
      if incoming == [] {
        return 0, [];
      }
      if nonblock && there == 0 {
        return -1, [];
      }
      var k := if there == 0 then 1 else if there < 5 then there else 5;
      k := if k < |incoming| then k else |incoming|;
      head, incoming := incoming[..k], incoming[k..];
      res := k;
      if res < 5 {
        var n := if 5 - k < |incoming| then 5 - k else |incoming|;
        head, incoming := head + incoming[..n], incoming[n..];
        res := res + n;
      }
    }

    /** The receipt of the rest of a frame, which is there, into the buffer. */
    method RecvBody(buf: array<byte>, n: nat)
      requires n <= |incoming| && 2 + n <= buf.Length
      modifies `incoming, buf
      ensures buf[2..2 + n] == old(incoming)[..n] && incoming == old(incoming)[n..]
    {
      for k := 0 to n
        invariant incoming == old(incoming)
        invariant forall j :: 0 <= j < k ==> buf[2 + j] == incoming[j]
      {
        buf[2 + k] := incoming[k];
      }
      incoming := incoming[n..];
    }

    /** The datagram `m` is in the buffer, with its address in front. */
    ghost predicate Holds(buf: array<byte>, lens: (nat, nat), m: Msg)
      reads buf
    {
      && |m.addr| == lens.0 && |m.data| == lens.1 && lens.0 + lens.1 <= buf.Length
      && buf[..lens.0] == m.addr && buf[lens.0..lens.0 + lens.1] == m.data
    }

    /** One datagram, after its head. */
    method RecvRest(buf: array<byte>, head: seq<byte>) returns (ok: bool, addrlen: nat, datlen: nat, ghost m: Msg)
      requires buf.Length == UDP_BUF_SIZE && |head| == 5 && !Read(head + incoming).Short?
      modifies `incoming, buf
      ensures ok <==> Read(head + old(incoming)).Next?
      ensures ok ==> Read(head + old(incoming)) == Next(m, incoming) && Holds(buf, (addrlen, datlen), m)
    {
      ok, addrlen, datlen, m := false, 0, 0, Msg([], []);
      ghost var s := head + incoming;
      var hdrlen := head[2] as nat;
      if hdrlen < 5 {
        return;
      }
      addrlen := hdrlen - 3;
      datlen := head[0] as nat * 0x100 + head[1] as nat;
      if datlen > buf.Length - addrlen {
        return;
      }
      RecvBody(buf, addrlen - 2 + datlen);
      buf[0] := head[3];
      buf[1] := head[4];
      m := Read(s).msg;
      Filled(buf[..], head, old(incoming), addrlen, datlen);
      ok := true;
    }

    lemma {:induction false} Filled(buf: seq<byte>, head: seq<byte>, body: seq<byte>, addrlen: nat, datlen: nat)
      requires |head| == 5 && 2 <= addrlen && addrlen + datlen <= |buf| && addrlen - 2 + datlen <= |body|
      requires buf[0] == head[3] && buf[1] == head[4] && buf[2..addrlen + datlen] == body[..addrlen - 2 + datlen]
      ensures var s := head + body;
              && buf[..addrlen] == s[3..3 + addrlen] && buf[addrlen..addrlen + datlen] == s[3 + addrlen..3 + addrlen + datlen]
              && body[addrlen - 2 + datlen..] == s[3 + addrlen + datlen..]
    {
      var n := addrlen - 2 + datlen;
      assert forall k :: 0 <= k < n ==> buf[2 + k] == buf[2..addrlen + datlen][k] == body[..n][k] == body[k];
    }

    /** A receipt that does not wait has nothing to take. */
    static predicate Empty(nonblock: bool, avail: seq<nat>, i: nat) {
      nonblock && (i >= |avail| || avail[i] == 0)
    }

    /** hev_socks5_udp_recvmmsg_tcp: how many datagrams were received, 0 at the end of
        the stream, or -1, with `again` when there is nothing there yet.  `avail`
        says how many bytes of each head are there.  It stops before all the buffers
        are filled only where the stream ends, or there is nothing there. */
    method RecvMmsg(bufs: seq<array<byte>>, nonblock: bool, avail: seq<nat>)
      returns (res: int, again: bool, lens: seq<(nat, nat)>, ghost ms: seq<Msg>)
      requires forall i :: 0 <= i < |bufs| ==> bufs[i].Length == UDP_BUF_SIZE
      requires forall i, j :: 0 <= i < j < |bufs| ==> bufs[i] != bufs[j]
      requires Whole(incoming)
      modifies this`incoming, bufs
      ensures |lens| == |ms| <= |bufs| && -1 <= res
      ensures forall i :: 0 <= i < |ms| ==> Holds(bufs[i], lens[i], ms[i])
      ensures res >= 0 ==> res == |ms| && Starts(old(incoming), ms, incoming) && Whole(incoming)
      ensures res == 0 ==> bufs == [] || incoming == []
      ensures again <==> bufs != [] && old(incoming) != [] && Empty(nonblock, avail, 0)
      ensures again ==> res == -1 && incoming == old(incoming)
      ensures forall i :: 0 <= i < |ms| ==> !Empty(nonblock, avail, i)
      ensures 0 < res < |bufs| ==> incoming == [] || Empty(nonblock, avail, res)
      ensures res == -1 && !again ==> exists rest :: Starts(old(incoming), ms, rest) && Read(rest) == Malformed
    {
      hide Read, Starts, Whole, Holds;
      res, again, lens, ms := 0, false, [], [];
      StartsNow(incoming);
      for i := 0 to |bufs|
        invariant |lens| == |ms| == i == res && !again
        invariant forall j :: 0 <= j < i ==> Holds(bufs[j], lens[j], ms[j])
        invariant Starts(old(incoming), ms, incoming) && Whole(incoming)
        invariant i == 0 ==> incoming == old(incoming)
        invariant forall j :: 0 <= j < i ==> old(incoming) != [] && !Empty(nonblock, avail, j)
      {
        ghost var s := incoming;
        var n, head := RecvHead(nonblock, if i < |avail| then avail[i] else 0);
        if n != 5 {
          NoPart(s);
          assert head == [] && incoming == s;
          if res == 0 {
            res, again := n, n == -1;
          }
          return;
        }
        NotShort(s);
        var ok, addrlen, datlen;
        ghost var m;
        ok, addrlen, datlen, m := RecvRest(bufs[i], head);
        if !ok {
          res := -1;
          return;
        }
        StartsMore(old(incoming), ms, s, m, incoming);
        StartsWhole(old(incoming), ms + [m], incoming);
        lens, ms, res := lens + [(addrlen, datlen)], ms + [m], res + 1;
      }
    }

    lemma {:induction false} StartsNow(s: seq<byte>)
      ensures Starts(s, [], s)
    {
    }

    lemma {:induction false} NotShort(s: seq<byte>)
      requires Whole(s) && s != []
      ensures !Read(s).Short?
    {
    }

    /** In a stream of whole frames there is no part of a head. */
    lemma {:induction false} NoPart(s: seq<byte>)
      requires Whole(s)
      ensures s == [] || |s| >= 5
    {
    }
  }
}
