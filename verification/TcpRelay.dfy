/** The relay between a TCP connection of lwIP and a socket
    (hev-socks5-session-tcp.c), with the ring buffer lent to lwIP by reference. */
module TcpRelay {
  import opened CStrings
  import opened Ring = RingBuffer

  /** The bytes of a pbuf chain. */
  function Flat(queue: seq<seq<byte>>): seq<byte> {
    if queue == [] then [] else queue[0] + Flat(queue[1..])
  }

  lemma {:induction false} FlatTwo(a: seq<seq<byte>>, b: seq<seq<byte>>)
    ensures Flat(a + b) == Flat(a) + Flat(b)
  {
    if a == [] {
      assert a + b == b;
    } else {
      assert (a + b)[1..] == a[1..] + b;
      FlatTwo(a[1..], b);
    }
  }

  predicate NoneEmpty(queue: seq<seq<byte>>) {
    forall i :: 0 <= i < |queue| ==> queue[i] != []
  }

  /** pbuf_free_header: the first `size` bytes leave the chain. */
  method FreeHeader(q: seq<seq<byte>>, size: nat) returns (r: seq<seq<byte>>)
    requires size <= |Flat(q)| && NoneEmpty(q)
    ensures Flat(r) == Flat(q)[size..] && NoneEmpty(r)
  {
    r := q;
    var freeLeft: nat := size;
    while freeLeft > 0 && r != []
      invariant freeLeft <= |Flat(r)| && Flat(r)[freeLeft..] == Flat(q)[size..] && NoneEmpty(r)
      decreases |r|, freeLeft
    {
      assert Flat(r) == r[0] + Flat(r[1..]);
      if freeLeft >= |r[0]| {
        freeLeft := freeLeft - |r[0]|;
        r := r[1..];
      } else {
        ghost var rest := r[1..];
        r := [r[0][freeLeft..]] + r[1..];
        assert r[1..] == rest && Flat(r) == r[0] + Flat(rest);
        freeLeft := 0;
      }
    }
  }

  const MAX_IOV := 64
  const TCP_WND_MAX := 65528

  datatype WriteIo = Wrote(n: nat) | WriteAgain | WriteFailed
  datatype ReadIo = Got(bytes: seq<byte>) | ReadAgain | ReadFailed

  /** What happens in one turn of the loop of the relay: the results of the calls
      that it makes, and the callbacks wherever it waits. */
  datatype Turn = Turn(write: WriteIo, freeing: seq<Callback>, read: ReadIo, handing: seq<Callback>,
                       oks: seq<bool>, output: bool, yielding: seq<Callback>, goOn: bool)

  /** What lwIP may call while the relay waits. */
  datatype Callback = Recv(p: seq<seq<byte>>) | Fin | Sent(len: nat) | Err

  /** tot_len of a pbuf chain */
  function TotLen(q: seq<seq<byte>>): (n: nat)
    ensures n == |Flat(q)|
  {
    if q == [] then 0 else |q[0]| + TotLen(q[1..])
  }

  /** How many bytes a writev of the first pieces of the queue writes. */
  function Gone(q: seq<seq<byte>>, io: WriteIo): (n: nat)
    ensures n <= |Flat(q)|
  {
    var k := if |q| < MAX_IOV then |q| else MAX_IOV;
    FlatTwo(q[..k], q[k..]);
    assert q == q[..k] + q[k..];
    var total := TotLen(q[..k]);
    if io.Wrote? then if io.n < total then io.n else total else 0
  }

  lemma {:induction false} NothingGone(io: WriteIo)
    ensures Gone([], io) == 0
  {
  }

  /** Where a relay stands: what has passed in each direction, and what waits. */
  datatype Moment = Moment(queue: seq<seq<byte>>, fromPeer: seq<byte>, pcb: bool, pcbEof: bool, toSocket: seq<byte>,
                           socketShut: bool, socketFailed: bool, fromSocket: seq<byte>, handed: seq<byte>,
                           taken: nat, acked: nat, failed: bool, peerShut: bool)

  /** What one callback changes. */
  function Hear(m: Moment, c: Callback): Moment {
    if !m.pcb then m
    else
      match c
      case Recv(p) =>
        if m.pcbEof || p == [] || !NoneEmpty(p) || (m.queue != [] && |Flat(m.queue)| > TCP_WND_MAX) then m
        else m.(queue := m.queue + p, fromPeer := m.fromPeer + Flat(p))
      case Fin => m.(pcbEof := true)
      case Sent(len) => if m.acked + len <= m.taken then m.(acked := m.acked + len) else m
      case Err => m.(pcb := false)
  }

  function Heard(m: Moment, cs: seq<Callback>): Moment {
    if cs == [] then m else Hear(Heard(m, cs[..|cs| - 1]), cs[|cs| - 1])
  }

  /** Nothing of what has been written, read or handed over has changed, and what has been
      delivered in between has joined the queue. */
  ghost predicate Keeps(m: Moment, h: Moment) {
    && h == m.(queue := h.queue, fromPeer := h.fromPeer, pcb := h.pcb, pcbEof := h.pcbEof, acked := h.acked)
    && (h.pcb ==> m.pcb) && (m.pcbEof ==> h.pcbEof && h.queue == m.queue)
    && m.acked <= h.acked && (m.acked <= m.taken ==> h.acked <= h.taken)
    && m.queue <= h.queue && h.fromPeer == m.fromPeer + Flat(h.queue[|m.queue|..])
  }

  lemma {:induction false} HearKeeps(m: Moment, c: Callback)
    ensures Keeps(m, Hear(m, c))
  {
    hide NoneEmpty;
    var h := Hear(m, c);
    if c.Recv? && h.queue == m.queue + c.p {
      assert h.queue[|m.queue|..] == c.p;
    } else {
      assert h.queue[|m.queue|..] == [];
    }
  }

  lemma {:induction false} KeepsTwice(m: Moment, g: Moment, h: Moment)
    requires Keeps(m, g) && Keeps(g, h)
    ensures Keeps(m, h)
  {
    hide Flat;
    var n, k := |m.queue|, |g.queue|;
    FlatTwo(g.queue[n..], h.queue[k..]);
    assert h.queue[n..] == g.queue[n..] + h.queue[k..];
    assert m.fromPeer + Flat(g.queue[n..]) + Flat(h.queue[k..]) == m.fromPeer + Flat(h.queue[n..]);
  }

  /** Callbacks change nothing of what has been written, read or handed over, and what they
      deliver joins the queue. */
  lemma {:induction false} HeardKeeps(m: Moment, cs: seq<Callback>)
    ensures Keeps(m, Heard(m, cs))
  {
    if cs == [] {
      assert m.queue[|m.queue|..] == [];
    } else {
      var n := |cs| - 1;
      HeardKeeps(m, cs[..n]);
      HearKeeps(Heard(m, cs[..n]), cs[n]);
      hide Keeps, Hear;
      KeepsTwice(m, Heard(m, cs[..n]), Hear(Heard(m, cs[..n]), cs[n]));
    }
  }

  /** The end of the stream and the end of the connection are heard, and acknowledgements
      come from callbacks alone. */
  lemma {:induction false} HeardEnds(m: Moment, cs: seq<Callback>)
    ensures var h := Heard(m, cs);
      && (h.pcb <==> m.pcb && Err !in cs)
      && (h.pcb ==> (h.pcbEof <==> m.pcbEof || Fin in cs))
      && (h.acked != m.acked ==> exists len :: Sent(len) in cs)
  {
    hide NoneEmpty, Flat;
    if cs != [] {
      var n := |cs| - 1;
      assert cs == cs[..n] + [cs[n]];
      HeardEnds(m, cs[..n]);
      if Heard(m, cs[..n]).acked != m.acked {
        var len :| Sent(len) in cs[..n];
        assert Sent(len) in cs;
      }
    }
  }

  /** The first pieces of the queue go out, as far as the write takes them; while it waits
      for the mutex there are callbacks; an empty queue that has ended shuts the socket,
      and a write that fails ends this direction. */
  ghost predicate Forwarded(m: Moment, io: WriteIo, cs: seq<Callback>, m': Moment) {
    var s := Gone(m.queue, io);
    && (s > 0 ==>
          var h := Heard(m.(toSocket := m.toSocket + Flat(m.queue)[..s]), cs);
          m' == h.(queue := m'.queue)
          && s <= |Flat(h.queue)| && Flat(m'.queue) == Flat(h.queue)[s..])
    && (s == 0 ==>
          m' == m.(socketShut := m.queue == [] && m.pcbEof, socketFailed := m.queue != [] && !io.WriteAgain?))
  }

  /** How much room a buffer of `max` bytes has: what is not acknowledged is still there. */
  function Room(m: Moment, max: nat): nat {
    if |m.fromSocket| - m.acked <= max then max - (|m.fromSocket| - m.acked) else 0
  }

  /** The bytes of a read for which there is room. */
  function Fitting(io: ReadIo, room: nat): seq<byte> {
    if io.Got? then io.bytes[..if |io.bytes| < room then |io.bytes| else room] else []
  }

  /** All that is not yet handed over goes to the connection, unless that is gone; with
      nothing left the end of the stream is passed on. */
  ghost predicate LentOut(h: Moment, ended: bool, oks: seq<bool>, output: bool, m': Moment) {
    if !h.pcb then m' == h
    else if h.handed == h.fromSocket then m' == h.(peerShut := ended)
    else
      && m' == h.(handed := h.fromSocket, taken := m'.taken, failed := m'.failed)
      && (m'.failed ==> !Ok(oks, 0) || !Ok(oks, 1) || !output)
      && (!Ok(oks, 0) || !output ==> m'.failed)
      && (!m'.failed ==> m'.taken == |m'.handed|)
  }

  /** As much is read as there is room; after the callbacks what there is goes on. */
  ghost predicate Backwarded(m: Moment, max: nat, turn: Turn, m': Moment) {
    var room := Room(m, max);
    && |m.fromSocket| - m.acked <= max
    && var got := Fitting(turn.read, room);
    LentOut(Heard(m.(fromSocket := m.fromSocket + got), turn.handing),
            room > 0 && got == [] && !turn.read.ReadAgain?, turn.oks, turn.output, m')
  }

  /** One turn of the loop: where it starts, where it is between the directions, and where
      it comes to; `backward`: the direction from the socket has not ended before. */
  datatype Run = Run(start: Moment, mid: Moment, end: Moment, backward: bool)

  ghost predicate ForwardOn(m: Moment) {
    !m.socketShut && !m.socketFailed
  }

  ghost predicate BackwardOn(m: Moment) {
    m.pcb && !m.failed && !m.peerShut
  }

  /** Each direction that has not ended is spliced once, with the results of this turn. */
  ghost predicate Turned(r: Run, max: nat, turn: Turn) {
    && (if ForwardOn(r.start) then Forwarded(r.start, turn.write, turn.freeing, r.mid) else r.mid == r.start)
    && (if r.backward then Backwarded(r.mid, max, turn, r.end) else r.end == r.mid)
  }

  /** Whether a direction is left after a turn. */
  ghost predicate Left(r: Run) {
    ForwardOn(r.end) || (r.backward && BackwardOn(r.end))
  }

  /** Where `k` waits have led to. */
  ghost function Waited(m: Moment, waits: seq<(seq<Callback>, bool)>, k: nat): Moment
    requires k <= |waits|
  {
    if k == 0 then m else Heard(Waited(m, waits, k - 1), waits[k - 1].0)
  }

  /** The connection is there, and there is something that it has not acknowledged. */
  ghost predicate Unacked(m: Moment) {
    m.pcb && m.acked < |m.fromSocket|
  }

  /** Each of the first `k` waits had something to wait for, and was not the last one. */
  ghost predicate WaitedOn(m: Moment, waits: seq<(seq<Callback>, bool)>, k: nat)
    requires k <= |waits|
  {
    k == 0 || (WaitedOn(m, waits, k - 1) && Unacked(Waited(m, waits, k - 1)) && (k > 1 ==> waits[k - 2].1))
  }

  /** Where the turns have led to, with the callbacks before the next one. */
  ghost function Yielded(m: Moment, runs: seq<Run>, turns: seq<Turn>): Moment
    requires |runs| <= |turns|
  {
    if runs == [] then m else Heard(runs[|runs| - 1].end, turns[|runs| - 1].yielding)
  }

  /** The loop may go on after these turns; `backward`: with the direction from the socket. */
  ghost predicate CanGoOn(runs: seq<Run>, turns: seq<Turn>, backward: bool)
    requires |runs| <= |turns|
  {
    if runs == [] then backward
    else
      var r := runs[|runs| - 1];
      Left(r) && turns[|runs| - 1].goOn && (backward <==> r.backward && BackwardOn(r.end))
  }

  /** The turns that the loop has run: one after the other, from `m` on. */
  ghost predicate Ran(m: Moment, runs: seq<Run>, max: nat, turns: seq<Turn>) {
    && |runs| <= |turns|
    && (runs != [] ==>
          var n := |runs| - 1;
          && Ran(m, runs[..n], max, turns) && CanGoOn(runs[..n], turns, runs[n].backward)
          && runs[n].start == Yielded(m, runs[..n], turns) && Turned(runs[n], max, turns[n]))
  }

  lemma {:induction false} RanMore(m: Moment, runs: seq<Run>, max: nat, turns: seq<Turn>, r: Run)
    requires Ran(m, runs, max, turns) && |runs| < |turns| && CanGoOn(runs, turns, r.backward)
    requires r.start == Yielded(m, runs, turns) && Turned(r, max, turns[|runs|])
    ensures Ran(m, runs + [r], max, turns)
  {
    hide Turned, CanGoOn, Yielded;
    assert (runs + [r])[..|runs|] == runs;
  }

  ghost function WrittenIn(r: Run, turn: Turn): seq<byte> {
    if ForwardOn(r.start) then Flat(r.start.queue)[..Gone(r.start.queue, turn.write)] else []
  }

  ghost function ReadIn(r: Run, max: nat, turn: Turn): seq<byte> {
    if r.backward then Fitting(turn.read, Room(r.mid, max)) else []
  }

  ghost function AllWritten(runs: seq<Run>, turns: seq<Turn>): seq<byte>
    requires |runs| <= |turns|
  {
    if runs == [] then []
    else AllWritten(runs[..|runs| - 1], turns) + WrittenIn(runs[|runs| - 1], turns[|runs| - 1])
  }

  ghost function AllRead(runs: seq<Run>, max: nat, turns: seq<Turn>): seq<byte>
    requires |runs| <= |turns|
  {
    if runs == [] then []
    else AllRead(runs[..|runs| - 1], max, turns) + ReadIn(runs[|runs| - 1], max, turns[|runs| - 1])
  }

  lemma {:induction false} ForwardMoves(m: Moment, turn: Turn, m': Moment)
    requires Forwarded(m, turn.write, turn.freeing, m')
    ensures m'.toSocket == m.toSocket + Flat(m.queue)[..Gone(m.queue, turn.write)] && m'.fromSocket == m.fromSocket
    ensures m'.failed == m.failed && m'.peerShut == m.peerShut && (m'.pcb ==> m.pcb)
  {
    hide Heard, Flat, Gone;
    HeardKeeps(m.(toSocket := m.toSocket + Flat(m.queue)[..Gone(m.queue, turn.write)]), turn.freeing);
  }

  lemma {:induction false} BackwardMoves(m: Moment, max: nat, turn: Turn, m': Moment)
    requires Backwarded(m, max, turn, m')
    ensures m'.fromSocket == m.fromSocket + Fitting(turn.read, Room(m, max)) && m'.toSocket == m.toSocket
    ensures ForwardOn(m') <==> ForwardOn(m)
  {
    hide Heard, Flat, Fitting;
    HeardKeeps(m.(fromSocket := m.fromSocket + Fitting(turn.read, Room(m, max))), turn.handing);
  }

  lemma {:induction false} TurnMoves(r: Run, max: nat, turn: Turn)
    requires Turned(r, max, turn)
    ensures r.end.toSocket == r.start.toSocket + WrittenIn(r, turn)
    ensures r.end.fromSocket == r.start.fromSocket + ReadIn(r, max, turn)
  {
    hide Forwarded, Backwarded, Flat, Gone, Fitting;
    if ForwardOn(r.start) {
      ForwardMoves(r.start, turn, r.mid);
    }
    if r.backward {
      BackwardMoves(r.mid, max, turn, r.end);
    }
  }

  /** Over all the turns: what has been written is, in order, what each write took of the
      queue, and what has been read are the bytes of each read for which there was room. */
  lemma {:induction false} RanMoves(m: Moment, runs: seq<Run>, max: nat, turns: seq<Turn>)
    requires Ran(m, runs, max, turns)
    ensures var end := Yielded(m, runs, turns);
      && end.toSocket == m.toSocket + AllWritten(runs, turns)
      && end.fromSocket == m.fromSocket + AllRead(runs, max, turns)
    decreases |runs|
  {
    if runs != [] {
      var n := |runs| - 1;
      RanMoves(m, runs[..n], max, turns);
      TurnMoves(runs[n], max, turns[n]);
      YieldedIsEnd(m, runs, turns);
      hide Yielded, Turned, WrittenIn, ReadIn, CanGoOn;
    }
  }

  lemma {:induction false} YieldedIsEnd(m: Moment, runs: seq<Run>, turns: seq<Turn>)
    requires 0 < |runs| <= |turns|
    ensures var y, end := Yielded(m, runs, turns), runs[|runs| - 1].end;
      y.toSocket == end.toSocket && y.fromSocket == end.fromSocket
  {
    HeardKeeps(runs[|runs| - 1].end, turns[|runs| - 1].yielding);
  }

  /** Of `n` bytes handed over the connection has taken those with the numbers
      `accepted`, in order; `skipped` says whether there is a gap before one of them. */
  ghost predicate InOrder(accepted: seq<nat>, n: nat, skipped: bool) {
    && |accepted| <= n
    && (forall j :: 0 <= j < |accepted| ==> j <= accepted[j] < n)
    && (forall j, k :: 0 <= j < k < |accepted| ==> accepted[j] < accepted[k])
    && (skipped <==> exists j :: 0 <= j < |accepted| && accepted[j] != j)
  }

  /** The next `len` bytes are taken, or refused. */
  lemma {:induction false} TakeMore(accepted: seq<nat>, n: nat, skipped: bool, len: nat)
    requires InOrder(accepted, n, skipped) && len > 0
    ensures InOrder(accepted, n + len, skipped)
    ensures InOrder(accepted + Range(n, len), n + len, skipped || |accepted| < n)
  {
    var more := accepted + Range(n, len);
    if |accepted| < n {
      assert more[|accepted|] == n;
    }
    assert forall j :: 0 <= j < |accepted| ==> more[j] == accepted[j];
  }

  /** `n` places of a buffer, from `start` on and around its end. */
  ghost function PlacesFrom(start: nat, n: nat, max: nat): (r: seq<nat>)
    requires n <= max && (n > 0 ==> start < max)
    ensures |r| == n && forall k :: 0 <= k < n ==> r[k] == Wrap(start + k, max)
  {
    if n == 0 then [] else PlacesFrom(start, n - 1, max) + [Wrap(start + (n - 1), max)]
  }

  lemma {:induction false} PlacesDrop(start: nat, n: nat, max: nat, k: nat)
    requires k <= n <= max && start < max
    ensures PlacesFrom(Wrap(start + k, max), n - k, max) == PlacesFrom(start, n, max)[k..]
  {
    var r, s := PlacesFrom(start, n, max), PlacesFrom(Wrap(start + k, max), n - k, max);
    forall i | 0 <= i < n - k
      ensures s[i] == r[k + i]
    {
      assert Wrap(Wrap(start + k, max) + i, max) == Wrap(start + (k + i), max);
    }
  }

  lemma {:induction false} NoPlaces(start: nat, start': nat, max: nat)
    ensures PlacesFrom(start, 0, max) == PlacesFrom(start', 0, max) == []
  {
  }

  lemma {:induction false} PlacesMore(start: nat, n: nat, more: nat, max: nat)
    requires n + more <= max && start < max
    ensures PlacesFrom(start, n, max) <= PlacesFrom(start, n + more, max)
  {
    var r, s := PlacesFrom(start, n, max), PlacesFrom(start, n + more, max);
    assert forall i :: 0 <= i < n ==> r[i] == s[i];
  }

  function Range(n: nat, len: nat): (r: seq<nat>)
    ensures |r| == len
  {
    seq(len, k requires 0 <= k < len => n + k)
  }

  predicate Ok(oks: seq<bool>, i: nat) {
    i < |oks| && oks[i]
  }

  predicate AllOk(oks: seq<bool>, n: nat) {
    n == 0 || (AllOk(oks, n - 1) && Ok(oks, n - 1))
  }

  /** Of the first `n` calls one is refused before one that is not. */
  predicate Gap(oks: seq<bool>, n: nat) {
    n > 0 && (Gap(oks, n - 1) || (!AllOk(oks, n - 1) && Ok(oks, n - 1)))
  }

  /** HevSocks5SessionTCP, with a record of what has passed in each direction. */
  class Session {
    const buffer: RingBuffer
    var queue: seq<seq<byte>>
    var pcb: bool               // the connection is still there
    var pcbEof: bool
    ghost var fromPeer: seq<byte>    // what the connection has delivered
    ghost var toSocket: seq<byte>    // what has been written to the socket
    ghost var written: nat           // what of that is still in the queue
    ghost var credit: nat            // the window given back to the connection
    ghost var socketShut: bool       // the socket has been told that no more comes
    ghost var socketFailed: bool
    ghost var fromSocket: seq<byte>  // what has been read from the socket
    ghost var handed: seq<byte>      // what has been passed to tcp_write
    ghost var at: seq<nat>           // where in the buffer each of these bytes is
    ghost var accepted: seq<nat>     // which of these bytes the connection has taken
    var taken: nat                   // how many of them there are (lwIP keeps count)
    var acked: nat                   // how many of those it has acknowledged
    ghost var failed: bool           // a tcp_write or tcp_output has failed
    ghost var skipped: bool          // a tcp_write has failed, and the next one not
    ghost var peerShut: bool         // the connection has been told that no more comes

    constructor (size: nat)
      ensures Valid() && fresh(buffer) && fresh(buffer.data) && written == 0 && pcb && !failed && !peerShut
      ensures buffer.maxSize == size && buffer.start == 0 && fromSocket == handed == [] && acked == 0 == taken
    {
      hide *;
      buffer := new RingBuffer(size);
      queue, pcb, pcbEof := [], true, false;
      fromPeer, toSocket, written, credit, socketShut, socketFailed := [], [], 0, 0, false, false;
      fromSocket, handed, at, accepted, taken, acked := [], [], [], [], 0, 0;
      failed, skipped, peerShut := false, false, false;
      new;
      InitialBackward();
      InitialForward();
      AllValid();
    }

    lemma {:induction false} InitialBackward()
      requires buffer.Valid() && buffer.Lent() == [] && buffer.Readable() == []
      requires fromSocket == [] && handed == [] && at == [] && accepted == [] && taken == 0 && acked == 0 && !failed && !skipped
      ensures Backward() && Taken()
    {
      assert handed[acked..] == [];
    }

    lemma {:induction false} InitialForward()
      requires queue == [] && fromPeer == [] && toSocket == [] && written == 0 && credit == 0 && !socketShut
      ensures Forward()
    {
      assert Flat(queue)[written..] == [];
    }

    /** From the connection to the socket: nothing is lost, repeated or reordered;
        the window goes back as the bytes go out; and the socket is shut only
        when everything is through. */
    ghost predicate Forward()
      reads this`queue, this`pcb, this`pcbEof, this`fromPeer, this`toSocket, this`written, this`credit, this`socketShut
    {
      && NoneEmpty(queue) && written <= |Flat(queue)| && written <= |toSocket|
      && toSocket + Flat(queue)[written..] == fromPeer
      && credit <= |toSocket| - written && (pcb ==> credit == |toSocket| - written)
      && (socketShut ==> pcbEof && queue == [])
    }

    /** From the socket to the connection: what is handed over and what is still
        readable is what was read; and what is handed over and not acknowledged
        is still in its place in the buffer. */
    ghost predicate Backward()
      reads this`fromSocket, this`handed, this`at, this`acked, this`peerShut, buffer, buffer.data
    {
      && buffer.Valid() && acked <= |handed| == |at|
      && fromSocket == handed + buffer.Readable()
      && buffer.Lent() == handed[acked..]
      && at[acked..] == PlacesFrom(buffer.start, buffer.useSize - buffer.rdaSize, buffer.maxSize)
      && (peerShut ==> handed == fromSocket)
    }

    ghost predicate Taken()
      reads this`handed, this`accepted, this`failed, this`skipped, this`taken, this`acked
    {
      acked <= taken == |accepted| && InOrder(accepted, |handed|, skipped) && (!failed ==> |accepted| == |handed|)
    }

    ghost function Now(): Moment
      reads this
    {
      Moment(queue, fromPeer, pcb, pcbEof, toSocket, socketShut, socketFailed, fromSocket, handed, taken, acked, failed, peerShut)
    }

    ghost predicate Valid()
      reads this, buffer, buffer.data
    {
      buffer.Valid() && Forward() && Backward() && Taken()
    }

    lemma {:induction false} AllValid()
      requires Forward() && Backward() && Taken()
      ensures Valid()
    {
    }

    /** Every byte that the connection has taken and not acknowledged is unchanged
        in the place that it was told. */
    lemma {:induction false} Borrowed(j: nat)
      requires Valid() && acked <= j < |accepted|
      ensures var h := accepted[j];
              h < |at| && at[h] < buffer.data.Length && buffer.data[at[h]] == handed[h]
    {
      var h := accepted[j];
      assert at[h] == at[acked..][h - acked];
      assert buffer.Lent()[h - acked] == handed[acked..][h - acked] == handed[h];
      assert buffer.Used()[h - acked] == buffer.Lent()[h - acked];
    }

    /** What is in the buffer, and where the part to read begins. */
    lemma {:induction false} Sizes()
      requires Valid()
      ensures buffer.useSize == |fromSocket| - acked <= buffer.maxSize == buffer.data.Length && buffer.rdaSize == |fromSocket| - |handed|
      ensures acked <= |handed| && handed <= fromSocket && acked <= taken && (!failed ==> taken == |handed|)
      ensures buffer.maxSize > 0 ==>
                buffer.start < buffer.maxSize && buffer.rp == Wrap(buffer.start + (|handed| - acked), buffer.maxSize)
    {
      assert |handed[acked..]| == |buffer.Lent()|;
    }

    /** What the connection has taken is the beginning of what was read, if and only
        if no tcp_write has been refused right before one that was not. */
    lemma {:induction false} TakenInOrder()
      requires Valid()
      ensures !skipped <==> forall j :: 0 <= j < |accepted| ==> accepted[j] == j
      ensures handed <= fromSocket
    {
    }

    /** tcp_recv_handler, for data: after the end of the stream there is none. */
    method RecvHandler(p: seq<seq<byte>>) returns (ok: bool)
      requires Valid() && pcb && !pcbEof && p != [] && NoneEmpty(p)
      modifies this`queue, this`fromPeer
      ensures Valid() && (ok <==> |Flat(old(queue))| <= TCP_WND_MAX || old(queue) == [])
      ensures fromPeer == old(fromPeer) + if ok then Flat(p) else []
      ensures Now() == Hear(old(Now()), Recv(p))
    {
      hide Backward, Taken, Flat;
      ghost var q := queue;
      if queue == [] {
        queue := p;
      } else {
        if TotLen(queue) > TCP_WND_MAX {
          return false;
        }
        queue := queue + p;
      }
      fromPeer := fromPeer + Flat(p);
      ok := true;
      Queued(q, p, written);
    }

    lemma {:induction false} Queued(q: seq<seq<byte>>, p: seq<seq<byte>>, n: nat)
      requires n <= |Flat(q)|
      ensures Flat(q + p) == Flat(q) + Flat(p) && Flat(q + p)[n..] == Flat(q)[n..] + Flat(p)
      ensures q == [] ==> Flat(q) == [] && q + p == p
    {
      FlatTwo(q, p);
      assert (Flat(q) + Flat(p))[n..] == Flat(q)[n..] + Flat(p);
    }

    /** tcp_recv_handler, for the end of the stream */
    method FinHandler()
      requires Valid()
      modifies this`pcbEof
      ensures Valid() && Now() == old(Now()).(pcbEof := true)
    {
      pcbEof := true;
    }

    /** hev_ring_buffer_read_release */
    method Release(len: nat)
      requires Backward() && acked + len <= |handed|
      modifies this`acked, buffer
      ensures Backward() && acked == old(acked) + len && buffer.Readable() == old(buffer.Readable())
      ensures buffer.useSize > 0 ==> buffer.start == Wrap(old(buffer.start) + len, buffer.maxSize)
    {
      hide Region, RingBuffer.Used, RingBuffer.Lent, RingBuffer.Readable, PlacesFrom;
      if len > 0 {
        PlacesDrop(buffer.start, buffer.useSize - buffer.rdaSize, buffer.maxSize, len);
      }
      ghost var places, lent := at[acked..], handed[acked..];
      buffer.ReadRelease(len);
      acked := acked + len;
      assert at[acked..] == places[len..] && handed[acked..] == lent[len..];
      if buffer.useSize == 0 {
        NoPlaces(buffer.start, old(buffer.start), buffer.maxSize);
      }
    }

    /** tcp_sent_handler: the connection acknowledges only what it has taken. */
    method SentHandler(len: nat)
      requires Valid() && acked + len <= taken
      modifies this`acked, buffer
      ensures Valid() && Now() == old(Now()).(acked := old(acked) + len) && buffer.Readable() == old(buffer.Readable())
      ensures buffer.useSize > 0 ==> old(buffer.start) + len < 2 * buffer.maxSize && buffer.start == Wrap(old(buffer.start) + len, buffer.maxSize)
    {
      hide Forward, InOrder, RingBuffer.Used, RingBuffer.Lent, RingBuffer.Readable;
      SentFits();
      BackwardValid();
      hide Backward;
      Release(len);
      BackwardValid();
    }

    lemma {:induction false} BackwardValid()
      requires Backward()
      ensures buffer.Valid()
    {
    }

    lemma {:induction false} SentFits()
      requires Taken()
      ensures taken <= |handed|
    {
    }

    /** tcp_err_handler */
    method ErrHandler()
      requires Valid()
      modifies this`pcb
      ensures Valid() && Now() == old(Now()).(pcb := false)
    {
      pcb := false;
    }

    /** One callback.  The connection is silent once it is gone, sends nothing after its
        end of stream, no empty pieces, and acknowledges only what it has taken. */
    method OneCallback(c: Callback)
      requires Valid()
      modifies this`queue, this`fromPeer, this`pcb, this`pcbEof, this`acked, buffer
      ensures Valid() && buffer.Readable() == old(buffer.Readable())
      ensures Now() == Hear(old(Now()), c)
    {
      hide Forward, Backward, Taken, Flat;
      if pcb {
        match c {
          case Recv(p) =>
            if !pcbEof && p != [] && NoneEmpty(p) {
              var ok := RecvHandler(p);
            }
          case Fin => FinHandler();
          case Sent(len) =>
            if acked + len <= taken {
              SentHandler(len);
            }
          case Err => ErrHandler();
        }
      }
    }

    /** Callbacks while the relay waits. */
    method Callbacks(cs: seq<Callback>)
      requires Valid()
      modifies this`queue, this`fromPeer, this`pcb, this`pcbEof, this`acked, buffer
      ensures Valid() && buffer.Readable() == old(buffer.Readable())
      ensures Now() == Heard(old(Now()), cs)
    {
      hide Forward, Backward, Taken, Flat, Hear, Now;
      for i := 0 to |cs|
        invariant Valid() && buffer.Readable() == old(buffer.Readable())
        invariant Now() == Heard(old(Now()), cs[..i])
      {
        assert cs[..i + 1][..i] == cs[..i];
        OneCallback(cs[i]);
      }
      assert cs[..|cs|] == cs;
    }

    lemma {:induction false} ShutIsEmpty()
      requires Valid()
      ensures socketShut ==> queue == [] && pcbEof && toSocket == fromPeer
    {
    }

    /** writev of the first pieces of the queue, and what it may do. */
    method Writev(io: WriteIo) returns (s: nat, again: bool)
      requires Valid() && written == 0 && queue != [] && !socketFailed
      modifies this`toSocket, this`written, this`socketFailed
      ensures Valid() && written == s && (again <==> io.WriteAgain?)
      ensures s == Gone(queue, io) <= |Flat(queue)|
      ensures Now() == old(Now()).(toSocket := old(toSocket) + Flat(queue)[..s], socketFailed := s == 0 && !again)
    {
      hide Backward, Taken, Flat;
      var iov := queue[..if |queue| < MAX_IOV then |queue| else MAX_IOV];
      s, again := 0, io.WriteAgain?;
      assert Flat(queue)[0..] == Flat(queue);
      if io.Wrote? {
        s := if io.n < TotLen(iov) then io.n else TotLen(iov);
        PartWritten(queue, |iov|, s, toSocket);
        toSocket := toSocket + Flat(iov)[..s];
        written := s;
      }
      if s == 0 && !again {
        socketFailed := true;
      }
    }

    lemma {:induction false} PartWritten(q: seq<seq<byte>>, n: nat, s: nat, to: seq<byte>)
      requires n <= |q| && s <= |Flat(q[..n])|
      ensures s <= |Flat(q)| && Flat(q[..n])[..s] == Flat(q)[..s]
      ensures to + Flat(q[..n])[..s] + Flat(q)[s..] == to + Flat(q)
    {
      FlatTwo(q[..n], q[n..]);
      assert q[..n] + q[n..] == q;
      assert Flat(q)[..s] == Flat(q[..n])[..s] && Flat(q)[..s] + Flat(q)[s..] == Flat(q);
    }

    /** What was written leaves the queue, and the window goes back. */
    method Free(s: nat)
      requires Valid() && s == written
      modifies this`queue, this`credit, this`written
      ensures Valid() && written == 0 && Now() == old(Now()).(queue := queue)
      ensures s <= |Flat(old(queue))| && Flat(queue) == Flat(old(queue))[s..]
    {
      hide Backward, Taken;
      queue := FreeHeader(queue, s);
      if pcb {
        credit := credit + s;
      }
      written := 0;
    }

    method FreeWritten(s: nat, cs: seq<Callback>)
      requires Valid() && s == written
      modifies this`credit, this`written, this`queue, this`fromPeer, this`pcb, this`pcbEof, this`acked, buffer
      ensures Valid() && written == 0 && buffer.Readable() == old(buffer.Readable())
      ensures var h := Heard(old(Now()), cs);
        Now() == h.(queue := queue) && s <= |Flat(h.queue)| && Flat(queue) == Flat(h.queue)[s..]
    {
      hide Forward, Backward, Taken, Flat, Heard;
      Callbacks(cs);
      ghost var h := Now();
      Free(s);
    }

    /** tcp_splice_f; the callbacks `cs` come while it waits for the mutex. */
    method SpliceF(io: WriteIo, cs: seq<Callback>) returns (res: int)
      requires Valid() && written == 0 && ForwardOn(Now())
      modifies this`toSocket, this`written, this`socketFailed, this`credit, this`socketShut
      modifies this`queue, this`fromPeer, this`pcb, this`pcbEof, this`acked, buffer
      ensures Valid() && written == 0 && buffer.Readable() == old(buffer.Readable())
      ensures Forwarded(old(Now()), io, cs, Now())
      ensures res == if !ForwardOn(Now()) then -1 else if Gone(old(queue), io) > 0 then 1 else 0
    {
      hide Valid, Flat, Gone, Heard, BackwardOn;
      NothingGone(io);
      if queue != [] {
        var s, again := Writev(io);
        if s == 0 {
          res := if again then 0 else -1;
        } else {
          FreeWritten(s, cs);
          res := 1;
        }
      } else if pcbEof {
        res := -1;
        Shut();
      } else {
        res := 0;
      }
    }

    /** shutdown of the socket */
    method Shut()
      requires Valid() && queue == [] && pcbEof
      modifies this`socketShut
      ensures Valid() && Now() == old(Now()).(socketShut := true)
    {
      hide Backward, Taken;
      socketShut := true;
    }

    /** The first part of tcp_splice_b: readv into what is free. */
    method ReadIn(io: ReadIo) returns (res: int)
      requires Valid() && !peerShut
      modifies this`fromSocket, buffer, buffer.data
      ensures Valid() && buffer.start == old(buffer.start)
      ensures var room := buffer.maxSize - old(buffer.useSize); var got := Fitting(io, room);
        && Now() == old(Now()).(fromSocket := old(fromSocket) + got)
        && res == if got != [] then 1 else if room > 0 && !io.ReadAgain? then -1 else 0
    {
      hide Forward, Taken, Backward, Region, RingBuffer.Used, RingBuffer.Lent, RingBuffer.Readable;
      res := 0;
      var iov := buffer.Writing();
      if iov != [] {
        match io {
          case Got(bytes) =>
            var b := bytes[..if |bytes| < TotalLen(iov) then |bytes| else TotalLen(iov)];
            if b == [] {
              res := -1;
            } else {
              FillIn(iov, b);
              BackwardValid();
              res := 1;
            }
          case ReadAgain => res := 0;
          case ReadFailed => res := -1;
        }
      }
    }

    method FillIn(iov: seq<Iov>, b: seq<byte>)
      requires Backward() && !peerShut && b != [] && |b| <= TotalLen(iov) == buffer.maxSize - buffer.useSize
      requires forall k :: 0 <= k < buffer.maxSize - buffer.useSize ==>
                 PlaceIn(iov, k) == Wrap(buffer.start + (buffer.useSize + k), buffer.maxSize)
      modifies this`fromSocket, buffer, buffer.data
      ensures Backward() && fromSocket == old(fromSocket) + b && buffer.start == old(buffer.start)
    {
      hide Region, PlacesFrom, PlaceIn, TotalLen, RingBuffer.Used, RingBuffer.Lent, RingBuffer.Readable;
      buffer.Fill(iov, b);
      buffer.WriteFinish(b, |b|);
      fromSocket := fromSocket + b;
    }

    /** tcp_write of each piece: lwIP takes it, by reference, or refuses it. */
    method WriteAll(iov: seq<Iov>, oks: seq<bool>) returns (ok: bool, s: nat)
      requires InOrder(accepted, |handed|, skipped) && |accepted| == |handed| && taken == |accepted|
      requires forall j :: 0 <= j < |iov| ==> iov[j].len > 0
      modifies this`accepted, this`taken, this`skipped
      ensures s == TotalLen(iov) && InOrder(accepted, |handed| + s, skipped) && taken == |accepted|
      ensures |old(accepted)| <= |accepted| && (ok ==> |accepted| == |handed| + s) && (ok <==> AllOk(oks, |iov|))
      ensures skipped <==> old(skipped) || Gap(oks, |iov|)
    {
      hide InOrder, Range;
      ok, s := true, 0;
      for i := 0 to |iov|
        invariant s + TotalLen(iov[i..]) == TotalLen(iov)
        invariant InOrder(accepted, |handed| + s, skipped) && taken == |accepted|
        invariant |old(accepted)| <= |accepted| <= |handed| + s && (ok <==> |accepted| == |handed| + s)
        invariant ok <==> AllOk(oks, i)
        invariant skipped <==> old(skipped) || Gap(oks, i)
      {
        var len := iov[i].len;
        assert iov[i..][1..] == iov[i + 1..];
        TakeMore(accepted, |handed| + s, skipped, len);
        if i < |oks| && oks[i] {
          skipped := skipped || |accepted| < |handed| + s;
          accepted := accepted + Range(|handed| + s, len);
          taken := taken + len;
        } else {
          ok := false;
        }
        s := s + len;
      }
      assert iov[|iov|..] == [];
    }

    /** What is readable is lent to the connection. */
    method HandOver(iov: seq<Iov>, oks: seq<bool>, output: bool) returns (ok: bool)
      requires Valid() && !failed && iov != [] && TotalLen(iov) == buffer.rdaSize > 0
      requires forall j :: 0 <= j < |iov| ==> iov[j].len > 0
      requires forall k :: 0 <= k < buffer.rdaSize ==>
                 PlaceIn(iov, k) == Wrap(buffer.start + (buffer.useSize - buffer.rdaSize + k), buffer.maxSize)
      modifies this`handed, this`at, this`accepted, this`taken, this`failed, this`skipped, buffer
      ensures Valid() && (ok <==> AllOk(oks, |iov|) && output)
      ensures handed == fromSocket && (failed <==> !ok)
      ensures buffer.start == old(buffer.start) && |handed| == |old(handed)| + TotalLen(iov) == |at|
      ensures old(handed) <= handed && old(at) <= at && (ok ==> taken == |handed|)
      ensures forall k :: 0 <= k < TotalLen(iov) ==> at[|old(at)| + k] == PlaceIn(iov, k)
      ensures skipped <==> Gap(oks, |iov|)
    {
      hide Forward, Backward, Region, InOrder, TotalLen, PlaceIn, PlacesFrom, RingBuffer.Used, RingBuffer.Lent, RingBuffer.Readable;
      NoGap();
      ghost var n := buffer.useSize - buffer.rdaSize;
      var s;
      ok, s := WriteAll(iov, oks);
      LendAll(s);
      PiecePlaces(iov, buffer.start, n, s, buffer.maxSize);
      if !output {
        ok := false;
      }
      failed := !ok;
    }

    /** The places behind the first `n` ones are those in the pieces. */
    static lemma {:induction false} PiecePlaces(iov: seq<Iov>, start: nat, n: nat, s: nat, max: nat)
      requires n + s <= max && start < max && TotalLen(iov) == s
      requires forall k :: 0 <= k < s ==> PlaceIn(iov, k) == Wrap(start + (n + k), max)
      ensures var p := PlacesFrom(start, n + s, max)[n..]; |p| == s && forall k :: 0 <= k < s ==> p[k] == PlaceIn(iov, k)
    {
    }

    /** hev_ring_buffer_read_finish, of all that is readable. */
    method LendAll(s: nat)
      requires Backward() && s == buffer.rdaSize > 0
      modifies this`handed, this`at, buffer
      ensures Backward() && buffer.Valid() && handed == fromSocket && |handed| == |old(handed)| + s
      ensures old(handed) <= handed && |at| == |handed| && buffer.start == old(buffer.start)
      ensures var n := old(buffer.useSize - buffer.rdaSize);
              n + s <= buffer.maxSize && at == old(at) + PlacesFrom(buffer.start, n + s, buffer.maxSize)[n..]
    {
      hide Region, PlacesFrom, RingBuffer.Used, RingBuffer.Lent, RingBuffer.Readable;
      ghost var n, start, max := buffer.useSize - buffer.rdaSize, buffer.start, buffer.maxSize;
      PlacesMore(start, n, s, max);
      ghost var places := PlacesFrom(start, n + s, max);
      assert places == places[..n] + places[n..];
      handed := handed + buffer.Readable();
      at := at + places[n..];
      buffer.ReadFinish(s);
      assert at[acked..] == places;
    }

    /** The second part of tcp_splice_b, under the mutex. */
    method LendOut(first: int, oks: seq<bool>, output: bool) returns (res: int)
      requires Valid() && !failed && !peerShut && -1 <= first <= 1
      modifies this`handed, this`at, this`accepted, this`taken, this`failed, this`skipped, this`peerShut, buffer
      ensures Valid() && buffer.start == old(buffer.start) && -1 <= res <= 1
      ensures LentOut(old(Now()), first < 0, oks, output, Now())
      ensures res < 0 <==> !BackwardOn(Now())
      ensures pcb && handed != old(handed) ==>
                (failed <==> !output || !Ok(oks, 0) || (old(buffer.Wrapped()) && !Ok(oks, 1)))
      ensures skipped <==> pcb && old(buffer.Wrapped()) && !Ok(oks, 0) && Ok(oks, 1)
    {
      hide Valid, Ok, AllOk, Gap;
      NotYetFailed();
      res := first;
      var ok := true;
      if pcb {
        var iov := buffer.Reading();
        if iov != [] {
          GapOfTwo(oks, |iov|);
          AllOkOfTwo(oks, |iov|);
          ok := HandOver(iov, oks, output);
          res := 1;
        } else {
          NothingLeft();
          if res < 0 {
            ShutPeer();
          }
        }
      }
      if !pcb || !ok {
        res := -1;
      }
    }

    lemma {:induction false} AllOkOfTwo(oks: seq<bool>, n: nat)
      requires 1 <= n <= 2
      ensures AllOk(oks, n) <==> Ok(oks, 0) && (n == 2 ==> Ok(oks, 1))
    {
      assert AllOk(oks, 0);
      assert AllOk(oks, 1) <==> Ok(oks, 0);
    }

    lemma {:induction false} GapOfTwo(oks: seq<bool>, n: nat)
      requires n <= 2
      ensures Gap(oks, n) <==> n == 2 && !Ok(oks, 0) && Ok(oks, 1)
    {
      assert AllOk(oks, 0);
      assert !Gap(oks, 1);
    }

    lemma {:induction false} NothingLeft()
      requires Valid() && buffer.rdaSize == 0
      ensures handed == fromSocket
    {
      assert handed + [] == handed;
    }

    /** tcp_shutdown of the sending side */
    method ShutPeer()
      requires Valid() && buffer.rdaSize == 0
      modifies this`peerShut
      ensures Valid() && Now() == old(Now()).(peerShut := true)
    {
      hide Forward, Taken;
      assert handed + [] == handed;
      peerShut := true;
    }

    /** tcp_splice_b; the callbacks `cs` come while it waits for the mutex. */
    method SpliceB(turn: Turn) returns (res: int)
      requires Valid() && !failed && !peerShut && written == 0
      modifies this, buffer, buffer.data
      ensures Valid() && written == 0 && -1 <= res <= 1
      ensures Backwarded(old(Now()), buffer.maxSize, turn, Now())
      ensures res < 0 <==> !BackwardOn(Now())
    {
      hide Valid, Heard, Fitting, LentOut, BackwardOn;
      Sizes();
      res := ReadIn(turn.read);
      ghost var m := Now();
      Callbacks(turn.handing);
      HeardKeeps(m, turn.handing);
      res := LendOut(res, turn.oks, turn.output);
    }

    /** Both directions are through, unless there was an error. */
    ghost predicate Through()
      reads this
    {
      !ForwardOn(Now()) && !BackwardOn(Now())
    }

    /** The loop of hev_socks5_session_tcp_splice: it ends when both directions have ended,
        or where the relay is told to stop. */
    method SpliceLoop(turns: seq<Turn>) returns (stopped: bool, ghost runs: seq<Run>)
      requires Valid() && written == 0 && ForwardOn(Now()) && !failed && !peerShut
      modifies this, buffer, buffer.data
      ensures Valid() && Ran(old(Now()), runs, buffer.maxSize, turns)
      ensures !stopped ==> Through() && runs != [] && Now() == runs[|runs| - 1].end && !Left(runs[|runs| - 1])
      ensures stopped ==> Now() == Yielded(old(Now()), runs, turns)
      ensures stopped ==> |runs| == |turns| || (runs != [] && !turns[|runs| - 1].goOn)
      ensures stopped && runs != [] ==> Left(runs[|runs| - 1])
    {
      hide *;
      var resF, resB := 1, 1;
      runs := [];
      NoTurn(turns);
      for t := 0 to |turns|
        invariant Valid() && written == 0 && Ends(resF, resB) && |runs| == t
        invariant Ran(old(Now()), runs, buffer.maxSize, turns) && Now() == Yielded(old(Now()), runs, turns)
        invariant CanGoOn(runs, turns, resB >= 0) && (runs != [] ==> Left(runs[|runs| - 1]))
      {
        var turn := turns[t];
        ghost var run;
        resF, resB, run := SpliceOnce(turn, resF, resB);
        RanMore(old(Now()), runs, buffer.maxSize, turns, run);
        runs := runs + [run];
        if resF < 0 && resB < 0 {
          return false, runs;
        }
        ghost var end := Now();
        Callbacks(turn.yielding);
        AfterTurn(old(Now()), runs, turns, resF, resB, end);
        if !turn.goOn {
          return true, runs;
        }
      }
      stopped := true;
    }

    /** What the two results of the loop stand for. */
    ghost predicate Ends(resF: int, resB: int)
      reads this
    {
      && (resF < 0 <==> !ForwardOn(Now())) && (resB < 0 ==> !BackwardOn(Now()))
      && (resB >= 0 ==> !failed && !peerShut)
    }

    lemma {:induction false} NoTurn(turns: seq<Turn>)
      requires ForwardOn(Now()) && !failed && !peerShut
      ensures Ran(Now(), [], buffer.maxSize, turns) && Yielded(Now(), [], turns) == Now()
      ensures Ends(1, 1) && CanGoOn([], turns, true)
    {
    }

    /** What the loop knows after a turn and the callbacks behind it. */
    lemma {:induction false} AfterTurn(m: Moment, runs: seq<Run>, turns: seq<Turn>, resF: int, resB: int, end: Moment)
      requires 0 < |runs| <= |turns| && runs[|runs| - 1].end == end
      requires resF < 0 <==> !ForwardOn(end)
      requires resB < 0 <==> !(runs[|runs| - 1].backward && BackwardOn(end))
      requires resB < 0 ==> !BackwardOn(end)
      requires Now() == Heard(end, turns[|runs| - 1].yielding) && (resF >= 0 || resB >= 0)
      ensures Ends(resF, resB) && Now() == Yielded(m, runs, turns) && Left(runs[|runs| - 1])
      ensures turns[|runs| - 1].goOn ==> CanGoOn(runs, turns, resB >= 0)
    {
      HeardKeeps(end, turns[|runs| - 1].yielding);
      hide Heard;
    }

    /** The part of a turn before the wait. */
    method SpliceOnce(turn: Turn, f: int, b: int) returns (resF: int, resB: int, ghost run: Run)
      requires Valid() && written == 0 && Ends(f, b)
      modifies this, buffer, buffer.data
      ensures Valid() && written == 0
      ensures run == Run(old(Now()), run.mid, Now(), b >= 0) && Turned(run, buffer.maxSize, turn)
      ensures resF < 0 <==> !ForwardOn(Now())
      ensures resB < 0 <==> !(b >= 0 && BackwardOn(Now()))
      ensures resB < 0 ==> !BackwardOn(Now())
      ensures resF < 0 && resB < 0 ==> Through() && !Left(run)
    {
      hide Valid, Forwarded, Backwarded, Heard;
      resF, resB := f, b;
      if resF >= 0 {
        resF := SpliceF(turn.write, turn.freeing);
        ForwardMoves(old(Now()), turn, Now());
      }
      ghost var mid := Now();
      if resB >= 0 {
        resB := SpliceB(turn);
        BackwardMoves(mid, buffer.maxSize, turn, Now());
      }
      run := Run(old(Now()), mid, Now(), b >= 0);
    }

    /** The wait of hev_socks5_session_tcp_splice for the last acknowledgements: it goes on
        as long as there are some to come, and ends with the callbacks of `k` waits. */
    method WaitAcked(waits: seq<(seq<Callback>, bool)>) returns (stopped: bool, ghost k: nat)
      requires Valid()
      modifies this`queue, this`fromPeer, this`pcb, this`pcbEof, this`acked, buffer
      ensures Valid() && k <= |waits| && WaitedOn(old(Now()), waits, k) && Now() == Waited(old(Now()), waits, k)
      ensures if stopped then k == |waits| || (k > 0 && !waits[k - 1].1) else !Unacked(Now())
      ensures !stopped ==> !pcb || buffer.useSize == 0
      ensures old(Through()) ==> Through()
    {
      hide Valid, Heard, ForwardOn, BackwardOn;
      var i := 0;
      k := 0;
      Sizes();
      while pcb
        invariant Valid() && 0 <= i <= |waits| && k == i && buffer.useSize == |fromSocket| - acked
        invariant Now() == Waited(old(Now()), waits, i) && WaitedOn(old(Now()), waits, i)
        invariant (i > 0 ==> waits[i - 1].1) && (old(Through()) ==> Through())
        decreases |waits| - i
      {
        if buffer.useSize == 0 {
          return false, k;
        }
        if i == |waits| {
          return true, k;
        }
        WaitOnce(waits[i].0);
        k := i + 1;
        if !waits[i].1 {
          return true, k;
        }
        i := i + 1;
      }
      stopped := false;
    }

    method WaitOnce(cs: seq<Callback>)
      requires Valid()
      modifies this`queue, this`fromPeer, this`pcb, this`pcbEof, this`acked, buffer
      ensures Valid() && Now() == Heard(old(Now()), cs) && buffer.useSize == |fromSocket| - acked
      ensures old(Through()) ==> Through()
    {
      hide Valid, Heard;
      HeardKeeps(Now(), cs);
      Callbacks(cs);
      Sizes();
    }

    /** A relay that has come to its end without an error has delivered everything,
        in both directions, all of it acknowledged, and has shut both sides. */
    lemma {:induction false} Complete()
      requires Valid() && Through() && !failed && !socketFailed && pcb && buffer.useSize == 0
      ensures pcbEof && socketShut && peerShut && toSocket == fromPeer && handed == fromSocket
      ensures acked == |accepted| == |handed| && !skipped
    {
      ShutIsEmpty();
      BackwardAcked();
      TakenInOrder();
      NoGap();
    }

    lemma {:induction false} BackwardAcked()
      requires Backward() && buffer.useSize == 0
      ensures acked == |handed| && handed == fromSocket
    {
      assert |handed[acked..]| == 0;
      assert handed + [] == handed;
    }

    lemma {:induction false} NotYetFailed()
      requires Valid() && !failed
      ensures buffer.Valid() && !skipped
    {
      hide Forward, Backward, InOrder;
      NoGap();
    }

    /** When all bytes are taken, none is missing in between. */
    lemma {:induction false} NoGap()
      requires Taken() && |accepted| == |handed|
      ensures !skipped
    {
      Increasing(accepted, |handed|);
    }

    lemma {:induction false} Increasing(s: seq<nat>, n: nat)
      requires InOrder(s, n, skipped) && |s| == n
      ensures forall j :: 0 <= j < n ==> s[j] == j
    {
      var j := n;
      while j > 0
        invariant 0 <= j <= n
        invariant forall k :: j <= k < n ==> s[k] == k
      {
        j := j - 1;
        assert j + 1 < n ==> s[j] < s[j + 1];
      }
    }
  }
  /** A relay with a buffer of three bytes that is led to a gap: two bytes go out, and the
      first one is acknowledged; of the next two, which go around the end of the buffer,
      tcp_write refuses the first and takes the second.  What the connection has taken is
      then not the beginning of what was read. */
  method GapExample() returns (s: Session)
    ensures s.Valid() && s.pcb && s.fromSocket == [1, 2, 3, 4] == s.handed
    ensures s.skipped && exists j :: 0 <= j < |s.accepted| && s.accepted[j] != j
  {
    hide Session.Valid, InOrder;
    s := new Session(3);
    s.Sizes();
    var res := s.ReadIn(Got([1, 2]));
    assert s.fromSocket == [1, 2];
    res := s.LendOut(res, [true, true], true);
    s.Sizes();
    s.SentHandler(1);
    s.Sizes();
    res := s.ReadIn(Got([3, 4]));
    assert s.fromSocket == [1, 2, 3, 4];
    s.Sizes();
    res := s.LendOut(res, [false, true], true);
    s.TakenInOrder();
  }
}
