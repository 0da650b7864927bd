/** The ring buffer of hev-ring-buffer.c.  Its bytes are in three regions, one
    behind the other: lent out but not yet released, readable, and free. */
module RingBuffer {
  import opened CStrings

  /** A piece of the buffer (struct iovec). */
  datatype Iov = Iov(base: nat, len: nat)

  /** The place `i` steps around a buffer of `n` bytes. */
  function Wrap(i: nat, n: nat): (r: nat)
    requires i < 2 * n
    ensures r < n && (r == i || r == i - n)
  {
    if i < n then i else i - n
  }

  lemma {:induction false} ModIsWrap(i: nat, n: nat)
    requires i < 2 * n
    ensures i % n == Wrap(i, n)
  {
    if i >= n {
      assert i == n + (i - n);
    }
  }

  function TotalLen(iov: seq<Iov>): nat {
    if iov == [] then 0 else iov[0].len + TotalLen(iov[1..])
  }

  /** The `k`-th byte of the pieces, as a place in the buffer. */
  function PlaceIn(iov: seq<Iov>, k: nat): nat
    requires k < TotalLen(iov)
  {
    if k < iov[0].len then iov[0].base + k else PlaceIn(iov[1..], k - iov[0].len)
  }

  /** `n` bytes of a buffer, from the place `start` on and around its end. */
  function Region(a: seq<byte>, start: nat, n: nat): (r: seq<byte>)
    requires n <= |a| && (n > 0 ==> start < |a|)
    ensures |r| == n && forall i :: 0 <= i < n ==> r[i] == a[Wrap(start + i, |a|)]
  {
    seq(n, i requires 0 <= i < n => a[Wrap(start + i, |a|)])
  }

  lemma {:induction false} RegionPut(a: seq<byte>, start: nat, n: nat, b: byte)
    requires n < |a| && start < |a|
    ensures Region(a[Wrap(start + n, |a|) := b], start, n + 1) == Region(a, start, n) + [b]
  {
  }

  lemma {:induction false} RegionDrop(a: seq<byte>, start: nat, n: nat, k: nat)
    requires k <= n <= |a| && start < |a|
    ensures Region(a, Wrap(start + k, |a|), n - k) == Region(a, start, n)[k..]
  {
    var r, s := Region(a, start, n), Region(a, Wrap(start + k, |a|), n - k);
    forall i | 0 <= i < n - k
      ensures s[i] == r[k + i]
    {
      assert Wrap(Wrap(start + k, |a|) + i, |a|) == Wrap(start + (k + i), |a|);
    }
  }

  lemma {:induction false} SliceTwice(u: seq<byte>, k: nat, n: nat)
    requires k <= n <= |u|
    ensures u[k..][..n - k] == u[..n][k..] && u[k..][n - k..] == u[n..]
  {
  }

  lemma {:induction false} RegionPrefix(a: seq<byte>, start: nat, n: nat, used: seq<byte>, b: seq<byte>)
    requires n + |b| <= |a| && (n + |b| > 0 ==> start < |a|) && |used| == n && Region(a, start, n + |b|) == used + b
    ensures Region(a, start, n) == used
  {
    var r := Region(a, start, n + |b|);
    assert forall i :: 0 <= i < n ==> r[i] == used[i];
  }

  class RingBuffer {
    const maxSize: nat
    const data: array<byte>
    var rp: nat
    var wp: nat
    var rdaSize: nat
    var useSize: nat
    ghost var start: nat  // where the oldest byte in use is

    /** hev_ring_buffer_alloca */
    constructor (size: nat)
      ensures Valid() && fresh(data) && maxSize == size && start == 0 && Lent() == [] && Readable() == []
    {
      maxSize := size;
      data := new byte[size](_ => 0);
      rp, wp, rdaSize, useSize, start := 0, 0, 0, 0, 0;
    }

    ghost predicate Valid()
      reads this
    {
      && data.Length == maxSize && rdaSize <= useSize <= maxSize
      && (if maxSize == 0 then start == rp == wp == 0
          else start < maxSize && rp == Wrap(start + (useSize - rdaSize), maxSize) && wp == Wrap(start + useSize, maxSize))
    }

    /** All bytes in use, the oldest one first. */
    ghost function Used(): (r: seq<byte>)
      requires Valid()
      reads this, data
      ensures |r| == useSize
    {
      Region(data[..], start, useSize)
    }

    /** The bytes lent out: read, and not yet released. */
    ghost function Lent(): (r: seq<byte>)
      requires Valid()
      reads this, data
      ensures |r| == useSize - rdaSize
    {
      Used()[..useSize - rdaSize]
    }

    ghost function Readable(): (r: seq<byte>)
      requires Valid()
      reads this, data
      ensures |r| == rdaSize
    {
      Used()[useSize - rdaSize..]
    }

    /** The readable bytes go around the end of the buffer. */
    predicate Wrapped()
      reads this
    {
      rp < maxSize && rdaSize > maxSize - rp
    }

    /** hev_ring_buffer_reading: the pieces are exactly the readable bytes, in order. */
    method Reading() returns (iov: seq<Iov>)
      requires Valid()
      ensures |iov| == (if Wrapped() then 2 else if rdaSize == 0 then 0 else 1) && (iov == [] <==> rdaSize == 0) && TotalLen(iov) == rdaSize
      ensures forall j :: 0 <= j < |iov| ==> iov[j].len > 0 && iov[j].base + iov[j].len <= maxSize
      ensures forall k :: 0 <= k < rdaSize ==> PlaceIn(iov, k) == Wrap(start + (useSize - rdaSize + k), maxSize)
    {
      if 0 == rdaSize {
        return [];
      }
      var upperSize := maxSize - rp;
      if rdaSize <= upperSize {
        iov := [Iov(rp, rdaSize)];
        assert iov[1..] == [];
        return;
      }
      iov := [Iov(rp, upperSize), Iov(0, rdaSize - upperSize)];
      TwoPieces(iov);
    }

    lemma {:induction false} TwoPieces(iov: seq<Iov>)
      requires |iov| == 2
      ensures TotalLen(iov) == iov[0].len + iov[1].len
      ensures forall k :: 0 <= k < iov[0].len + iov[1].len ==>
                PlaceIn(iov, k) == if k < iov[0].len then iov[0].base + k else iov[1].base + (k - iov[0].len)
    {
      assert iov[1..] == [iov[1]] && iov[1..][1..] == [];
      assert TotalLen(iov[1..]) == iov[1].len + TotalLen([]);
    }

    /** hev_ring_buffer_read_finish: bytes that were readable are lent out. */
    method ReadFinish(size: nat)
      requires Valid() && 0 < size <= rdaSize
      modifies this
      ensures Valid() && start == old(start) && useSize == old(useSize) && rdaSize == old(rdaSize) - size
      ensures Used() == old(Used())
      ensures Lent() == old(Lent()) + old(Readable())[..size] && Readable() == old(Readable())[size..]
    {
      ghost var lent, readable := Lent(), Readable();
      ModIsWrap(rp + size, maxSize);
      rp := (rp + size) % maxSize;
      rdaSize := rdaSize - size;
      assert Lent() == lent + readable[..size];
      assert Readable() == readable[size..];
    }

    /** hev_ring_buffer_read_release: the oldest bytes lent out are free again. */
    method ReadRelease(size: nat)
      requires Valid() && size <= useSize - rdaSize
      modifies this
      ensures Valid() && useSize == old(useSize) - size && rdaSize == old(rdaSize)
      ensures Used() == old(Used())[size..]
      ensures Lent() == old(Lent())[size..] && Readable() == old(Readable())
      ensures useSize > 0 ==> start == Wrap(old(start) + size, maxSize)
    {
      hide Valid, Used;
      ghost var n := useSize - rdaSize;
      ghost var used := Used();
      Release(size);
      SliceTwice(used, size, n);
    }

    method Release(size: nat)
      requires Valid() && size <= useSize - rdaSize
      modifies this
      ensures Valid() && useSize == old(useSize) - size && rdaSize == old(rdaSize)
      ensures Used() == old(Used())[size..]
      ensures useSize > 0 ==> start == Wrap(old(start) + size, maxSize)
    {
      hide Region;
      useSize := useSize - size;
      if maxSize > 0 {
        RegionDrop(data[..], start, useSize + size, size);
        start := Wrap(start + size, maxSize);
      }
      if useSize == 0 {
        rp := 0;
        wp := 0;
        start := 0;
        assert Region(data[..], 0, 0) == [];
      }
    }

    /** hev_ring_buffer_writing: the pieces are exactly the free bytes, in order. */
    method Writing() returns (iov: seq<Iov>)
      requires Valid()
      ensures |iov| <= 2 && TotalLen(iov) == maxSize - useSize && (iov == [] <==> useSize == maxSize)
      ensures forall j :: 0 <= j < |iov| ==> iov[j].len > 0 && iov[j].base + iov[j].len <= maxSize
      ensures forall k :: 0 <= k < maxSize - useSize ==> PlaceIn(iov, k) == Wrap(start + (useSize + k), maxSize)
    {
      if useSize == maxSize {
        return [];
      }
      var upperSize := maxSize - wp;
      var spcSize := maxSize - useSize;
      if spcSize <= upperSize {
        iov := [Iov(wp, spcSize)];
        assert iov[1..] == [];
        return;
      }
      iov := [Iov(wp, upperSize), Iov(0, spcSize - upperSize)];
      TwoPieces(iov);
    }

    /** readv into the pieces that `Writing` gave, of `bytes`: nothing in use is
        overwritten. */
    method Fill(iov: seq<Iov>, bytes: seq<byte>)
      requires Valid() && |bytes| <= TotalLen(iov) == maxSize - useSize
      requires forall k :: 0 <= k < maxSize - useSize ==> PlaceIn(iov, k) == Wrap(start + (useSize + k), maxSize)
      modifies data
      ensures Valid() && Region(data[..], start, useSize + |bytes|) == Used() + bytes
      ensures Lent() == old(Lent()) && Readable() == old(Readable())
    {
      hide Region;
      ghost var used := Used();
      for k := 0 to |bytes|
        invariant Region(data[..], start, useSize + k) == used + bytes[..k]
      {
        Put(PlaceIn(iov, k), useSize + k, bytes[k]);
        assert bytes[..k + 1] == bytes[..k] + [bytes[k]];
      }
      assert bytes[..|bytes|] == bytes;
      RegionPrefix(data[..], start, useSize, used, bytes);
    }

    /** One more byte behind the first `n` ones. */
    method Put(place: nat, ghost n: nat, b: byte)
      requires data.Length == maxSize && n < maxSize && start < maxSize && place == Wrap(start + n, maxSize)
      modifies data
      ensures Region(data[..], start, n + 1) == old(Region(data[..], start, n)) + [b]
    {
      hide Region;
      ghost var a := data[..];
      RegionPut(a, start, n, b);
      data[place] := b;
      assert data[..] == a[place := b];
    }

    /** hev_ring_buffer_write_finish: bytes that were filled in are readable. */
    method WriteFinish(ghost bytes: seq<byte>, size: nat)
      requires Valid() && 0 < size == |bytes| <= maxSize - useSize
      requires Region(data[..], start, useSize + size) == Used() + bytes
      modifies this
      ensures Valid() && start == old(start) && useSize == old(useSize) + size && rdaSize == old(rdaSize) + size
      ensures Used() == old(Used()) + bytes
      ensures Lent() == old(Lent()) && Readable() == old(Readable()) + bytes
    {
      ghost var lent, readable := Lent(), Readable();
      ModIsWrap(wp + size, maxSize);
      wp := (wp + size) % maxSize;
      useSize := useSize + size;
      rdaSize := rdaSize + size;
      assert Lent() == lent;
      assert Readable() == readable + bytes;
    }
  }
}
