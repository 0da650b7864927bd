/** The encodings of text that the YAML reader (reader.c) decodes: UTF-8, section 3
    of RFC 3629, and UTF-16, section 2 of RFC 2781. */
module Unicode {
  import opened CStrings

  datatype Encoding = Utf8 | Utf16(little: bool)

  predicate IsScalar(c: nat) {
    c < 0xD800 || 0xE000 <= c < 0x11_0000
  }

  type scalar = c: nat | c < 0xD800 || 0xE000 <= c < 0x11_0000

  /** The characters that YAML allows. */
  predicate Allowed(c: nat) {
    || c == 0x09 || c == 0x0A || c == 0x0D || 0x20 <= c <= 0x7E
    || c == 0x85 || 0xA0 <= c <= 0xD7FF || 0xE000 <= c <= 0xFFFD || 0x1_0000 <= c <= 0x10_FFFF
  }

  function Unit(little: bool, u: nat): (r: seq<byte>)
    requires u < 0x1_0000
    ensures |r| == 2
  {
    if little then [(u % 0x100) as byte, (u / 0x100) as byte] else [(u / 0x100) as byte, (u % 0x100) as byte]
  }

  /** A continuation octet. */
  function Tail(bits: nat): byte {
    (0x80 + bits % 64) as byte
  }

  /** One character, encoded. */
  function Encode(e: Encoding, c: scalar): (r: seq<byte>)
    ensures 1 <= |r| <= 4 && (e.Utf16? ==> |r| >= 2)
  {
    match e
    case Utf8 => EncodeUtf8(c)
    case Utf16(little) => EncodeUtf16(little, c)
  }

  function EncodeUtf8(c: nat): (r: seq<byte>)
    requires IsScalar(c)
    ensures 1 <= |r| <= 4
  {
    if c <= 0x7F then [c as byte]
    else if c <= 0x7FF then [(0xC0 + c / 0x40) as byte, Tail(c)]
    else if c <= 0xFFFF then [(0xE0 + c / 0x1000) as byte, Tail(c / 0x40), Tail(c)]
    else [(0xF0 + c / 0x4_0000) as byte, Tail(c / 0x1000), Tail(c / 0x40), Tail(c)]
  }

  function EncodeUtf16(little: bool, c: nat): (r: seq<byte>)
    requires IsScalar(c)
    ensures |r| == 2 || |r| == 4
  {
    if c <= 0xFFFF then Unit(little, c)
    else Unit(little, 0xD800 + (c - 0x1_0000) / 1024) + Unit(little, 0xDC00 + (c - 0x1_0000) % 1024)
  }

  function EncodeAll(e: Encoding, cs: seq<scalar>): seq<byte> {
    if cs == [] then [] else EncodeAll(e, cs[..|cs| - 1]) + Encode(e, cs[|cs| - 1])
  }

  lemma {:induction false} EncodeTwo(e: Encoding, a: seq<scalar>, b: seq<scalar>)
    ensures EncodeAll(e, a + b) == EncodeAll(e, a) + EncodeAll(e, b)
  {
    hide Encode, EncodeAll;
    if b == [] {
      assert a + b == a;
      EncodeNone(e);
    } else {
      var n := |b| - 1;
      EncodeTwo(e, a, b[..n]);
      assert (a + b)[..|a| + n] == a + b[..n];
      EncodeLast(e, a + b);
      EncodeLast(e, b);
    }
  }

  lemma {:induction false} EncodeLast(e: Encoding, cs: seq<scalar>)
    requires cs != []
    ensures EncodeAll(e, cs) == EncodeAll(e, cs[..|cs| - 1]) + Encode(e, cs[|cs| - 1])
  {
  }

  lemma {:induction false} EncodeNone(e: Encoding)
    ensures EncodeAll(e, []) == []
  {
  }

  lemma {:induction false} EncodeOne(e: Encoding, c: scalar)
    ensures EncodeAll(e, [c]) == Encode(e, c)
  {
    assert [c][..0] == [];
    assert EncodeAll(e, []) == [];
  }

  lemma {:induction false} EncodeFirst(e: Encoding, cs: seq<scalar>)
    requires cs != []
    ensures EncodeAll(e, cs) == Encode(e, cs[0]) + EncodeAll(e, cs[1..])
  {
    assert cs == [cs[0]] + cs[1..];
    EncodeTwo(e, [cs[0]], cs[1..]);
    EncodeOne(e, cs[0]);
  }

  // ---------------------------------------------------------------------
  // Decoding
  // ---------------------------------------------------------------------

  datatype Problem =
    | InvalidLeading | IncompleteSequence | InvalidTrailing | InvalidLength | InvalidCharacter
    | UnexpectedLowSurrogate | ExpectedLowSurrogate | ControlCharacter

  /** What the bytes begin with: a character, the beginning of one, or nothing good. */
  datatype Decoded = Char(value: nat, width: nat) | Incomplete | Bad(problem: Problem)

  /** The length of a UTF-8 sequence from its leading octet. */
  function Width(octet: byte): (w: nat)
    ensures w <= 4
  {
    if octet < 0x80 then 1 else if octet < 0xC0 then 0 else if octet < 0xE0 then 2
    else if octet < 0xF0 then 3 else if octet < 0xF8 then 4 else 0
  }

  function Leading(octet: byte): nat {
    if octet < 0x80 then octet as nat
    else if 0xC0 <= octet < 0xE0 then (octet - 0xC0) as nat
    else if 0xE0 <= octet < 0xF0 then (octet - 0xE0) as nat
    else if 0xF0 <= octet < 0xF8 then (octet - 0xF0) as nat
    else 0
  }

  predicate IsTrailing(octet: byte) {
    0x80 <= octet < 0xC0
  }

  /** The value with the bits of the trailing octets. */
  function Value(s: seq<byte>): nat
    requires s != []
  {
    if |s| == 1 then Leading(s[0]) else Value(s[..|s| - 1]) * 64 + (s[|s| - 1] as nat) % 64
  }

  function DecodeUtf8(b: seq<byte>): Decoded
    requires b != []
  {
    var w := Width(b[0]);
    if w == 0 then Bad(InvalidLeading)
    else if w > |b| then Incomplete
    else if exists k :: 1 <= k < w && !IsTrailing(b[k]) then Bad(InvalidTrailing)
    else
      var v := Value(b[..w]);
      if (w == 2 && v < 0x80) || (w == 3 && v < 0x800) || (w == 4 && v < 0x1_0000) then Bad(InvalidLength)
      else if !IsScalar(v) then Bad(InvalidCharacter)
      else if !Allowed(v) then Bad(ControlCharacter)
      else Char(v, w)
  }

  function UnitAt(little: bool, b: seq<byte>, i: nat): (u: nat)
    requires i + 1 < |b|
    ensures u < 0x1_0000
  {
    if little then b[i] as nat + 0x100 * b[i + 1] as nat else b[i + 1] as nat + 0x100 * b[i] as nat
  }

  function DecodeUtf16(little: bool, b: seq<byte>): Decoded
    requires b != []
  {
    if |b| < 2 then Incomplete
    else
      var u := UnitAt(little, b, 0);
      if 0xDC00 <= u < 0xE000 then Bad(UnexpectedLowSurrogate)
      else if 0xD800 <= u < 0xDC00 then
        if |b| < 4 then Incomplete
        else
          var l := UnitAt(little, b, 2);
          if !(0xDC00 <= l < 0xE000) then Bad(ExpectedLowSurrogate)
          else Char(0x1_0000 + (u % 0x400) * 0x400 + l % 0x400, 4)
      else if !Allowed(u) then Bad(ControlCharacter)
      else Char(u, 2)
  }

  function Decode(e: Encoding, b: seq<byte>): Decoded
    requires b != []
  {
    match e
    case Utf8 => DecodeUtf8(b)
    case Utf16(little) => DecodeUtf16(little, b)
  }

  lemma {:induction false} Utf8Value(s: seq<byte>)
    requires 1 <= |s| <= 4
    ensures |s| == 1 ==> Value(s) == Leading(s[0])
    ensures |s| == 2 ==> Value(s) == Leading(s[0]) * 64 + s[1] as nat % 64
    ensures |s| == 3 ==> Value(s) == (Leading(s[0]) * 64 + s[1] as nat % 64) * 64 + s[2] as nat % 64
    ensures |s| == 4 ==>
              Value(s) == ((Leading(s[0]) * 64 + s[1] as nat % 64) * 64 + s[2] as nat % 64) * 64 + s[3] as nat % 64
  {
    if |s| > 1 {
      Utf8Value(s[..|s| - 1]);
    }
  }

  lemma {:induction false} Utf8Two(v: nat, a: byte, x: byte)
    requires 0xC0 <= a < 0xE0 && IsTrailing(x) && v == Leading(a) * 64 + x as nat % 64 && v >= 0x80
    ensures IsScalar(v) && EncodeUtf8(v) == [a, x]
  {
  }

  lemma {:induction false} Utf8Three(v: nat, a: byte, x: byte, y: byte)
    requires 0xE0 <= a < 0xF0 && IsTrailing(x) && IsTrailing(y)
    requires v == (Leading(a) * 64 + x as nat % 64) * 64 + y as nat % 64 && v >= 0x800 && IsScalar(v)
    ensures EncodeUtf8(v) == [a, x, y]
  {
    var q := Leading(a) * 64 + x as nat % 64;
    Shifts(v);
    assert v / 64 == q && q / 64 == Leading(a);
    assert Tail(v) == y && Tail(v / 64) == x;
  }

  lemma {:induction false} Utf8Four(v: nat, a: byte, x: byte, y: byte, z: byte)
    requires 0xF0 <= a < 0xF8 && IsTrailing(x) && IsTrailing(y) && IsTrailing(z)
    requires v == ((Leading(a) * 64 + x as nat % 64) * 64 + y as nat % 64) * 64 + z as nat % 64
    requires v >= 0x1_0000 && IsScalar(v)
    ensures EncodeUtf8(v) == [a, x, y, z]
  {
    var p := Leading(a) * 64 + x as nat % 64;
    var q := p * 64 + y as nat % 64;
    Shifts(v);
    assert v / 64 == q && q / 64 == p && p / 64 == Leading(a);
    assert Tail(v) == z && Tail(v / 64) == y && Tail(v / 0x1000) == x;
  }

  lemma {:induction false} Shifts(v: nat)
    ensures v / 0x1000 == v / 64 / 64 && v / 0x4_0000 == v / 64 / 64 / 64
  {
  }

  /** What is decoded is a character that is allowed, as it is encoded. */
  lemma {:induction false} DecodeUtf8Sound(b: seq<byte>)
    requires b != [] && DecodeUtf8(b).Char?
    ensures var d := DecodeUtf8(b);
      d.width <= |b| && Allowed(d.value) && IsScalar(d.value) && EncodeUtf8(d.value) == b[..d.width]
  {
    var w := Width(b[0]);
    var s := b[..w];
    Utf8Value(s);
    var v := Value(s);
    assert forall k :: 1 <= k < w ==> IsTrailing(b[k]);
    hide EncodeUtf8, Value, Leading, Tail;
    if w == 1 {
      Utf8One(v, b[0]);
    } else if w == 2 {
      assert IsTrailing(b[1]);
      Utf8Two(v, s[0], s[1]);
    } else if w == 3 {
      assert IsTrailing(b[1]) && IsTrailing(b[2]);
      Utf8Three(v, s[0], s[1], s[2]);
    } else {
      assert IsTrailing(b[1]) && IsTrailing(b[2]) && IsTrailing(b[3]);
      Utf8Four(v, s[0], s[1], s[2], s[3]);
    }
  }

  lemma {:induction false} Utf8One(v: nat, a: byte)
    requires a < 0x80 && v == Leading(a)
    ensures EncodeUtf8(v) == [a]
  {
  }

  lemma {:induction false} DecodeUtf16Sound(little: bool, b: seq<byte>)
    requires b != [] && DecodeUtf16(little, b).Char?
    ensures var d := DecodeUtf16(little, b);
      d.width <= |b| && Allowed(d.value) && IsScalar(d.value) && EncodeUtf16(little, d.value) == b[..d.width]
  {
    UnitIs(little, b, 0);
    var d := DecodeUtf16(little, b);
    if d.width == 4 {
      UnitIs(little, b, 2);
      assert b[..4] == b[0..2] + b[2..4];
      PairOf(UnitAt(little, b, 0), UnitAt(little, b, 2));
    } else {
      assert b[..2] == b[0..2];
    }
    hide Unit, UnitAt;
  }

  /** The two halves of a surrogate pair, and the character. */
  lemma {:induction false} PairOf(u: nat, l: nat)
    requires 0xD800 <= u < 0xDC00 && 0xDC00 <= l < 0xE000
    ensures var v := 0x1_0000 + (u % 0x400) * 0x400 + l % 0x400;
      && 0x1_0000 <= v < 0x11_0000
      && 0xD800 + (v - 0x1_0000) / 1024 == u && 0xDC00 + (v - 0x1_0000) % 1024 == l
  {
    assert u % 0x400 == u - 0xD800 && l % 0x400 == l - 0xDC00;
  }

  lemma {:induction false} PairIs(v: nat)
    requires 0x1_0000 <= v < 0x11_0000
    ensures var u, l := 0xD800 + (v - 0x1_0000) / 1024, 0xDC00 + (v - 0x1_0000) % 1024;
      && 0xD800 <= u < 0xDC00 && 0xDC00 <= l < 0xE000
      && 0x1_0000 + (u % 0x400) * 0x400 + l % 0x400 == v
  {
    var x := v - 0x1_0000;
    assert x / 1024 < 1024 && x == x / 1024 * 1024 + x % 1024;
  }

  lemma {:induction false} UnitOf(little: bool, u: nat, before: seq<byte>, more: seq<byte>)
    requires u < 0x1_0000
    ensures UnitAt(little, before + Unit(little, u) + more, |before|) == u
  {
  }

  lemma {:induction false} UnitIs(little: bool, b: seq<byte>, i: nat)
    requires i + 1 < |b|
    ensures Unit(little, UnitAt(little, b, i)) == b[i..i + 2]
  {
  }

  lemma {:induction false} DecodeSound(e: Encoding, b: seq<byte>)
    requires b != [] && Decode(e, b).Char?
    ensures var d := Decode(e, b);
      d.width <= |b| && Allowed(d.value) && IsScalar(d.value) && Encode(e, d.value) == b[..d.width]
  {
    match e
    case Utf8 => DecodeUtf8Sound(b);
    case Utf16(little) => DecodeUtf16Sound(little, b);
  }

  /** An encoded character that is allowed is decoded, whatever follows. */
  lemma {:induction false} DecodeUtf8Complete(c: scalar, more: seq<byte>)
    requires Allowed(c)
    ensures DecodeUtf8(Encode(Utf8, c) + more) == Char(c, |Encode(Utf8, c)|)
  {
    var s := EncodeUtf8(c);
    var b := s + more;
    EncodedUtf8(c);
    hide EncodeUtf8, Value, Width, IsTrailing;
    assert b[..|s|] == s && b[0] == s[0] && forall k :: 1 <= k < |s| ==> b[k] == s[k];
  }

  lemma {:induction false} EncodedUtf8(c: nat)
    requires IsScalar(c)
    ensures var s := EncodeUtf8(c);
            Width(s[0]) == |s| && Value(s) == c && forall k :: 1 <= k < |s| ==> IsTrailing(s[k])
    ensures var n := |EncodeUtf8(c)|; (n == 2 ==> c >= 0x80) && (n == 3 ==> c >= 0x800) && (n == 4 ==> c >= 0x1_0000)
  {
    if c > 0xFFFF {
      EncodedFour(c);
    } else if c > 0x7FF {
      EncodedThree(c);
    } else {
      EncodedShort(c);
    }
  }

  lemma {:induction false} EncodedShort(c: nat)
    requires c <= 0x7FF
    ensures var s := EncodeUtf8(c);
            Width(s[0]) == |s| && Value(s) == c && forall k :: 1 <= k < |s| ==> IsTrailing(s[k])
    ensures var n := |EncodeUtf8(c)|; n <= 2 && (n == 2 ==> c >= 0x80)
  {
    Utf8Value(EncodeUtf8(c));
    hide Value;
  }

  lemma {:induction false} EncodedThree(c: nat)
    requires IsScalar(c) && 0x7FF < c <= 0xFFFF
    ensures var s := EncodeUtf8(c);
            |s| == 3 && Width(s[0]) == |s| && Value(s) == c && forall k :: 1 <= k < |s| ==> IsTrailing(s[k])
  {
    Utf8Value(EncodeUtf8(c));
    Shifts(c);
    TailBits(c);
    TailBits(c / 64);
    ThreeLeads(c);
    hide Value, Tail, IsTrailing, Leading, Width;
  }

  lemma {:induction false} ThreeLeads(c: nat)
    requires 0x7FF < c <= 0xFFFF
    ensures 0 <= c / 0x1000 <= 15
    ensures var a := (0xE0 + c / 0x1000) as byte; Leading(a) == c / 0x1000 && Width(a) == 3
  {
  }

  lemma {:induction false} EncodedFour(c: nat)
    requires IsScalar(c) && c > 0xFFFF
    ensures var s := EncodeUtf8(c);
            |s| == 4 && Width(s[0]) == |s| && Value(s) == c && forall k :: 1 <= k < |s| ==> IsTrailing(s[k])
  {
    Utf8Value(EncodeUtf8(c));
    Shifts(c);
    TailBits(c);
    TailBits(c / 64);
    TailBits(c / 0x1000);
    FourLeads(c);
    hide Value, Tail, IsTrailing, Leading, Width;
  }

  lemma {:induction false} FourLeads(c: nat)
    requires 0xFFFF < c < 0x11_0000
    ensures 0 <= c / 0x4_0000 <= 4
    ensures var a := (0xF0 + c / 0x4_0000) as byte; Leading(a) == c / 0x4_0000 && Width(a) == 4
  {
  }

  lemma {:induction false} TailBits(v: nat)
    ensures Tail(v) as nat % 64 == v % 64 && v == v / 64 * 64 + Tail(v) as nat % 64 && IsTrailing(Tail(v))
  {
  }

  lemma {:induction false} DecodeUtf16Complete(little: bool, c: scalar, more: seq<byte>)
    requires Allowed(c)
    ensures DecodeUtf16(little, EncodeUtf16(little, c) + more) == Char(c, |EncodeUtf16(little, c)|)
  {
    var b := EncodeUtf16(little, c) + more;
    if c <= 0xFFFF {
      UnitOf(little, c, [], more);
      assert [] + Unit(little, c) + more == b;
    } else {
      PairIs(c);
      var u, l := 0xD800 + (c - 0x1_0000) / 1024, 0xDC00 + (c - 0x1_0000) % 1024;
      UnitOf(little, u, [], Unit(little, l) + more);
      UnitOf(little, l, Unit(little, u), more);
      assert [] + Unit(little, u) + (Unit(little, l) + more) == b && Unit(little, u) + Unit(little, l) + more == b;
    }
    hide Unit, UnitAt;
  }

  lemma {:induction false} DecodeComplete(e: Encoding, c: scalar, more: seq<byte>)
    requires Allowed(c)
    ensures Decode(e, Encode(e, c) + more) == Char(c, |Encode(e, c)|)
  {
    match e
    case Utf8 => DecodeUtf8Complete(c, more);
    case Utf16(little) => DecodeUtf16Complete(little, c, more);
  }

  /** More bytes change nothing but whether there are enough. */
  lemma {:induction false} DecodeMore(e: Encoding, b: seq<byte>, more: seq<byte>)
    requires b != [] && !Decode(e, b).Incomplete?
    ensures Decode(e, b + more) == Decode(e, b)
  {
    if e == Utf8 && Width(b[0]) <= |b| {
      var w := Width(b[0]);
      assert (b + more)[..w] == b[..w] && forall k :: 1 <= k < w ==> (b + more)[k] == b[k];
    }
  }

  lemma {:induction false} IncompleteIsShort(e: Encoding, b: seq<byte>)
    requires b != [] && Decode(e, b).Incomplete?
    ensures |b| < 4
  {
  }

  // ---------------------------------------------------------------------
  // Whole texts
  // ---------------------------------------------------------------------

  ghost predicate IsText(cs: seq<scalar>) {
    forall i :: 0 <= i < |cs| ==> Allowed(cs[i])
  }

  /** The bytes are a text of allowed characters. */
  ghost predicate WellFormed(e: Encoding, b: seq<byte>) {
    exists cs :: IsText(cs) && EncodeAll(e, cs) == b
  }

  /** Two texts are the same one if they have the same bytes, and one text begins with
      another if its bytes do. */
  lemma {:induction false} EncodeUnique(e: Encoding, cs: seq<scalar>, ds: seq<scalar>, rest: seq<byte>)
    requires IsText(cs) && IsText(ds) && EncodeAll(e, cs) + rest == EncodeAll(e, ds)
    ensures cs <= ds && rest == EncodeAll(e, ds[|cs|..])
  {
    hide Encode, IsScalar, EncodeAll, Allowed;
    if cs == [] {
      assert ds[0..] == ds;
      EncodeNone(e);
    } else {
      EncodeFirst(e, cs);
      if ds == [] {
        EncodeNone(e);
        assert false;
      }
      EncodeFirst(e, ds);
      SameFirst(e, cs[0], ds[0], EncodeAll(e, cs[1..]) + rest, EncodeAll(e, ds[1..]));
      EncodeUnique(e, cs[1..], ds[1..], rest);
      assert ds[1..][|cs| - 1..] == ds[|cs|..];
    }
  }

  lemma {:induction false} SameFirst(e: Encoding, c: scalar, d: scalar, x: seq<byte>, y: seq<byte>)
    requires Allowed(c) && Allowed(d) && Encode(e, c) + x == Encode(e, d) + y
    ensures c == d && x == y
  {
    DecodeComplete(e, c, x);
    DecodeComplete(e, d, y);
    hide Encode, Decode;
    var n := |Encode(e, c)|;
    assert x == (Encode(e, c) + x)[n..] && y == (Encode(e, c) + y)[n..];
  }

  /** The bytes start no character that is allowed, nor are there none. */
  ghost predicate Stuck(e: Encoding, b: seq<byte>) {
    b != [] && !Decode(e, b).Char?
  }

  /** What is wrong with the bytes, if there are no more. */
  function ProblemOf(e: Encoding, b: seq<byte>): Problem
    requires b != []
  {
    match Decode(e, b)
    case Bad(problem) => problem
    case Incomplete => IncompleteSequence
    case Char(_, _) => IncompleteSequence
  }

  /** Bytes are a text, and then nothing or something that starts no character, in one
      way only. */
  lemma {:induction false} SameText(e: Encoding, cs: seq<scalar>, x: seq<byte>, ds: seq<scalar>, y: seq<byte>)
    requires IsText(cs) && IsText(ds) && EncodeAll(e, cs) + x == EncodeAll(e, ds) + y
    requires x == [] || Stuck(e, x)
    requires y == [] || Stuck(e, y)
    ensures cs == ds && x == y
    decreases |cs|
  {
    hide Stuck, EncodeAll, Allowed;
    EncodeNone(e);
    assert [] + x == x && [] + y == y;
    if cs == [] || ds == [] {
      if cs != [] {
        NotStuck(e, cs, x);
      }
      if ds != [] {
        NotStuck(e, ds, y);
      }
    } else {
      SameStep(e, cs, x, ds, y);
      SameText(e, cs[1..], x, ds[1..], y);
    }
  }

  lemma {:induction false} SameStep(e: Encoding, cs: seq<scalar>, x: seq<byte>, ds: seq<scalar>, y: seq<byte>)
    requires IsText(cs) && IsText(ds) && EncodeAll(e, cs) + x == EncodeAll(e, ds) + y && cs != [] && ds != []
    ensures cs[0] == ds[0] && EncodeAll(e, cs[1..]) + x == EncodeAll(e, ds[1..]) + y
  {
    hide Encode, EncodeAll, Allowed;
    EncodeFirst(e, cs);
    EncodeFirst(e, ds);
    var a, b := EncodeAll(e, cs[1..]), EncodeAll(e, ds[1..]);
    assert Encode(e, cs[0]) + (a + x) == Encode(e, cs[0]) + a + x;
    assert Encode(e, ds[0]) + (b + y) == Encode(e, ds[0]) + b + y;
    SameFirst(e, cs[0], ds[0], a + x, b + y);
  }

  lemma {:induction false} NotStuck(e: Encoding, cs: seq<scalar>, more: seq<byte>)
    requires IsText(cs) && cs != []
    ensures EncodeAll(e, cs) + more != [] && !Stuck(e, EncodeAll(e, cs) + more)
  {
    hide Encode, EncodeAll, Allowed, Decode;
    EncodeFirst(e, cs);
    var rest := EncodeAll(e, cs[1..]) + more;
    assert EncodeAll(e, cs) + more == Encode(e, cs[0]) + rest;
    DecodeComplete(e, cs[0], rest);
  }

  /** A text is followed by something that starts no allowed character: there is no
      text with all of these bytes. */
  lemma {:induction false} NotWellFormed(e: Encoding, cs: seq<scalar>, rest: seq<byte>)
    requires IsText(cs) && rest != [] && !Decode(e, rest).Char?
    ensures !WellFormed(e, EncodeAll(e, cs) + rest)
  {
    if WellFormed(e, EncodeAll(e, cs) + rest) {
      var ds :| IsText(ds) && EncodeAll(e, ds) == EncodeAll(e, cs) + rest;
      EncodeUnique(e, cs, ds, rest);
      EncodeFirst(e, ds[|cs|..]);
      DecodeComplete(e, ds[|cs|], EncodeAll(e, ds[|cs|..][1..]));
    }
  }
}
