/** The YAML reader (reader.c): bytes come in chunks of any size, and leave as UTF-8
    characters with a NUL at the end. */
module YamlReader {
  import opened CStrings
  import opened Options
  import opened Unicode

  const RAW_SIZE: nat := 16384
  const BUFFER_SIZE: nat := RAW_SIZE * 3
  const MAX_FILE_SIZE: nat := 0x7FFF_FFFF_FFFF_FFFF

  datatype Failure = InputError | DecodeError(problem: Problem) | TooLong

  /** The encoding that the byte order mark tells, and the length of the mark. */
  function ByteOrderMark(b: seq<byte>): (Encoding, nat) {
    if |b| >= 2 && b[..2] == [0xFF, 0xFE] then (Utf16(true), 2)
    else if |b| >= 2 && b[..2] == [0xFE, 0xFF] then (Utf16(false), 2)
    else if |b| >= 3 && b[..3] == [0xEF, 0xBB, 0xBF] then (Utf8, 3)
    else (Utf8, 0)
  }

  /** What the first of the bytes show to be wrong is wrong with all of them. */
  lemma {:induction false} Rejected(e: Encoding, rest: seq<byte>, raw: seq<byte>)
    requires raw <= rest && raw != []
    requires Decode(e, raw).Bad? || (raw == rest && Decode(e, raw).Incomplete?)
    ensures Stuck(e, rest) && ProblemOf(e, rest) == ProblemOf(e, raw)
  {
    if Decode(e, raw).Bad? {
      DecodeMore(e, raw, rest[|raw|..]);
      assert raw + rest[|raw|..] == rest;
    }
  }

  /** One more character is decoded. */
  lemma {:induction false} OneMore(e: Encoding, text: seq<scalar>, raw: seq<byte>)
    requires raw != [] && Decode(e, raw).Char? && IsText(text)
    ensures var d := Decode(e, raw);
      && 0 < d.width <= |raw| && IsScalar(d.value) && IsText(text + [d.value])
      && 2 * |Encode(Utf8, d.value)| <= 3 * d.width
      && EncodeAll(e, text + [d.value]) == EncodeAll(e, text) + raw[..d.width]
  {
    DecodeSound(e, raw);
    var c := Decode(e, raw).value;
    assert (text + [c])[..|text|] == text;
  }

  /** The width of a character from its first octet. */
  lemma {:induction false} FirstWidth(c: scalar)
    requires Allowed(c) || c == 0
    ensures Width(Encode(Utf8, c)[0]) == |Encode(Utf8, c)|
  {
    if Allowed(c) {
      EncodedUtf8(c);
    }
  }

  lemma {:induction false} Appended(text: seq<scalar>, c: scalar, done: nat)
    requires done <= |text|
    ensures EncodeAll(Utf8, (text + [c])[done..]) == EncodeAll(Utf8, text[done..]) + Encode(Utf8, c)
  {
    hide EncodeAll, Encode;
    EncodeTwo(Utf8, text[done..], [c]);
    EncodeOne(Utf8, c);
    assert (text + [c])[done..] == text[done..] + [c];
  }

  /** Three bytes are enough to see the mark. */
  lemma {:induction false} MarkSeen(head: seq<byte>, all: seq<byte>)
    requires head <= all && (|head| >= 3 || head == all)
    ensures ByteOrderMark(head) == ByteOrderMark(all)
  {
    if |head| >= 3 {
      assert head[..2] == all[..2] && head[..3] == all[..3];
    }
  }

  class Reader {
    const input: seq<byte>
    const answers: nat -> Option<nat>  // how much the read handler gives, at most, or its failure
    const given: Option<Encoding>      // yaml_parser_set_encoding
    var asked: nat
    var taken: nat
    const raw: array<byte>
    var rawPointer: nat
    var rawLast: nat
    var eof: bool
    const buffer: array<byte>
    var pointer: nat
    var last: nat
    var unread: nat
    var encoding: Option<Encoding>
    var offset: nat
    var error: Option<Failure>
    ghost var text: seq<scalar>        // the characters decoded
    ghost var ended: bool              // the NUL is in the buffer
    ghost var done: nat                // how many characters have been skipped
    ghost var begin: nat               // where the text begins

    constructor (input: seq<byte>, answers: nat -> Option<nat>, given: Option<Encoding>)
      ensures Valid() && All() == [] && error == None
      ensures this.input == input && this.answers == answers && this.given == given
    {
      this.input, this.answers, this.given := input, answers, given;
      asked, taken, rawPointer, rawLast, eof := 0, 0, 0, 0, false;
      pointer, last, unread, encoding, offset, error := 0, 0, 0, given, 0, None;
      text, ended, done, begin := [], false, 0, 0;
      raw := new byte[RAW_SIZE](_ => 0);
      buffer := new byte[BUFFER_SIZE](_ => 0);
      new;
      EncodeNone(Utf8);
      EncodeNone(if given.Some? then given.value else Utf8);
    }

    /** The raw buffer has the bytes that have been read and not decoded. */
    ghost predicate RawOk()
      reads this`rawPointer, this`rawLast, this`offset, this`taken, this`eof, raw
    {
      && raw.Length == RAW_SIZE && rawPointer <= rawLast <= RAW_SIZE
      && offset + (rawLast - rawPointer) == taken <= |input|
      && raw[rawPointer..rawLast] == input[offset..taken]
      && (eof ==> taken == |input|)
    }

    /** Where the text begins, and its encoding. */
    ghost function Start(): (Encoding, nat) {
      if given.Some? then (given.value, 0) else ByteOrderMark(input)
    }

    /** What is decoded is the text of the bytes so far. */
    ghost predicate TextOk()
      reads this`encoding, this`offset, this`begin, this`text
    {
      if encoding.None? then text == [] && offset == begin == 0 && given.None?
      else
        && (encoding.value, begin) == Start() && begin <= offset <= |input|
        && IsText(text) && EncodeAll(encoding.value, text) == input[begin..offset]
    }

    ghost function All(): seq<scalar>
      reads this`text, this`ended
    {
      text + if ended then [0] else []
    }

    /** The buffer has the characters that have not been skipped. */
    ghost predicate BufferOk()
      reads this`pointer, this`last, this`unread, this`text, this`ended, this`done, buffer
    {
      && buffer.Length == BUFFER_SIZE && pointer <= last <= BUFFER_SIZE && done <= |All()|
      && buffer[pointer..last] == EncodeAll(Utf8, All()[done..]) && unread == |All()| - done
    }

    ghost predicate Valid()
      reads this, raw, buffer
    {
      && RawOk() && TextOk() && BufferOk()
      && (ended ==> encoding.Some? && eof && rawPointer == rawLast)
      && (error == None && eof && rawPointer == rawLast ==> ended)
      && (error.Some? && error.value.DecodeError? ==> Rejects(error.value.problem))
      && raw != buffer
    }

    /** What follows the text starts no character. */
    ghost predicate Rejects(problem: Problem)
      reads this`encoding, this`offset
    {
      && encoding.Some? && offset < |input| && Stuck(encoding.value, input[offset..])
      && problem == ProblemOf(encoding.value, input[offset..])
    }

    /** yaml_parser_update_raw_buffer */
    method UpdateRawBuffer() returns (ok: bool)
      requires RawOk()
      modifies raw, this`rawPointer, this`rawLast, this`eof, this`taken, this`asked, this`error
      ensures RawOk() && rawLast - rawPointer >= old(rawLast - rawPointer)
      ensures ok ==> error == old(error) && (eof || taken > old(taken) || old(rawLast - rawPointer) == RAW_SIZE)
      ensures !ok ==> error == Some(InputError) && HandlerFailed()
      ensures old(eof) ==> ok && taken == old(taken)
      ensures old(eof) ==> eof
    {
      ok := true;
      if rawPointer == 0 && rawLast == RAW_SIZE {
        return;
      }
      if eof {
        return;
      }
      MoveRawDown();
      var answer := answers(asked);
      asked := asked + 1;
      if answer == None {
        error := Some(InputError);
        return false;
      }
      ReadHandler(answer.value);
    }

    ghost predicate HandlerFailed()
      reads this`asked
    {
      asked > 0 && answers(asked - 1) == None
    }

    method MoveRawDown()
      requires RawOk()
      modifies raw, this`rawPointer, this`rawLast
      ensures RawOk() && rawPointer == 0 && rawLast == old(rawLast - rawPointer)
    {
      var n := rawLast - rawPointer;
      forall i | 0 <= i < n {
        raw[i] := raw[rawPointer + i];
      }
      assert raw[..n] == old(raw[rawPointer..rawLast]);
      rawLast := n;
      rawPointer := 0;
    }

    /** The read handler gives some of the bytes that there are, and none at the end. */
    method ReadHandler(most: nat)
      requires RawOk() && !eof && (rawPointer > 0 || rawLast < RAW_SIZE)
      requires rawPointer == 0
      modifies raw, this`rawLast, this`eof, this`taken
      ensures RawOk() && rawLast >= old(rawLast)
      ensures eof || taken > old(taken)
    {
      var n := Min(most + 1, Min(RAW_SIZE - rawLast, |input| - taken));
      CopyIn(n);
      assert raw[..rawLast + n] == raw[..rawLast] + raw[rawLast..rawLast + n];
      assert input[offset..taken + n] == input[offset..taken] + input[taken..taken + n];
      rawLast := rawLast + n;
      taken := taken + n;
      if n == 0 {
        eof := true;
      }
    }

    method CopyIn(n: nat)
      requires rawLast + n <= raw.Length && taken + n <= |input|
      modifies raw
      ensures raw[..rawLast] == old(raw[..rawLast]) && raw[rawLast..rawLast + n] == input[taken..taken + n]
    {
      forall i | 0 <= i < n {
        raw[rawLast + i] := input[taken + i];
      }
    }

    static function Min(a: nat, b: nat): nat {
      if a < b then a else b
    }

    /** yaml_parser_determine_encoding: the byte order mark may come in pieces. */
    method DetermineEncoding() returns (ok: bool)
      requires RawOk() && TextOk() && encoding == None
      modifies raw, this`rawPointer, this`rawLast, this`eof, this`taken, this`asked, this`error, this`encoding, this`offset, this`begin
      ensures RawOk() && TextOk() && (old(eof) ==> eof)
      ensures ok ==> error == old(error) && encoding.Some?
      ensures ok && rawPointer == rawLast && !old(eof) && eof ==> taken == |input|
      ensures !ok ==> error == Some(InputError) && HandlerFailed() && encoding == None
    {
      hide EncodeAll, Encode;
      ok := true;
      while !eof && rawLast - rawPointer < 3
        invariant RawOk() && TextOk() && encoding == None && error == old(error) && (old(eof) ==> eof)
        decreases |input| - taken, !eof
      {
        ok := UpdateRawBuffer();
        if !ok {
          return;
        }
      }
      MarkSeen(raw[rawPointer..rawLast], input);
      ChooseEncoding();
    }

    method ChooseEncoding()
      requires RawOk() && TextOk() && encoding == None
      requires ByteOrderMark(raw[rawPointer..rawLast]) == ByteOrderMark(input)
      modifies this`rawPointer, this`encoding, this`offset, this`begin
      ensures RawOk() && TextOk() && encoding.Some?
    {
      hide EncodeAll, Encode;
      var n := rawLast - rawPointer;
      if n >= 2 && raw[rawPointer..rawPointer + 2] == [0xFF, 0xFE] {
        SetEncoding(Utf16(true), 2);
      } else if n >= 2 && raw[rawPointer..rawPointer + 2] == [0xFE, 0xFF] {
        SetEncoding(Utf16(false), 2);
      } else if n >= 3 && raw[rawPointer..rawPointer + 3] == [0xEF, 0xBB, 0xBF] {
        SetEncoding(Utf8, 3);
      } else {
        SetEncoding(Utf8, 0);
      }
    }

    method SetEncoding(e: Encoding, n: nat)
      requires RawOk() && TextOk() && encoding == None && rawPointer + n <= rawLast && (e, n) == ByteOrderMark(input)
      modifies this`rawPointer, this`encoding, this`offset, this`begin
      ensures RawOk() && TextOk() && encoding.Some?
    {
      encoding := Some(e);
      rawPointer := rawPointer + n;
      offset := offset + n;
      begin := n;
      EncodeNone(e);
    }

    /** The UTF-8 case of the decoder. */
    method NextUtf8() returns (d: Decoded)
      requires RawOk() && rawPointer < rawLast
      ensures d == DecodeUtf8(raw[rawPointer..rawLast])
    {
      ghost var b := raw[rawPointer..rawLast];
      var octet := raw[rawPointer];
      var width := Width(octet);
      if width == 0 {
        return Bad(InvalidLeading);
      }
      if width > rawLast - rawPointer {
        return Incomplete;
      }
      var value := Leading(octet);
      for k := 1 to width
        invariant value == Value(b[..k])
        invariant forall j :: 1 <= j < k ==> IsTrailing(b[j])
      {
        octet := raw[rawPointer + k];
        assert octet == b[k] && b[..k + 1][..k] == b[..k];
        if !IsTrailing(octet) {
          return Bad(InvalidTrailing);
        }
        value := value * 64 + octet as nat % 64;
      }
      if !(width == 1 || (width == 2 && value >= 0x80) || (width == 3 && value >= 0x800) || (width == 4 && value >= 0x1_0000)) {
        return Bad(InvalidLength);
      }
      if 0xD800 <= value <= 0xDFFF || value > 0x10_FFFF {
        return Bad(InvalidCharacter);
      }
      d := if Allowed(value) then Char(value, width) else Bad(ControlCharacter);
    }

    /** The UTF-16 cases. */
    method NextUtf16(little: bool) returns (d: Decoded)
      requires RawOk() && rawPointer < rawLast
      ensures d == DecodeUtf16(little, raw[rawPointer..rawLast])
    {
      var low, high := if little then 0 else 1, if little then 1 else 0;
      if rawLast - rawPointer < 2 {
        return Incomplete;
      }
      var value := raw[rawPointer + low] as nat + raw[rawPointer + high] as nat * 0x100;
      if 0xDC00 <= value < 0xE000 {
        return Bad(UnexpectedLowSurrogate);
      }
      var width := 2;
      if 0xD800 <= value < 0xDC00 {
        if rawLast - rawPointer < 4 {
          return Incomplete;
        }
        var value2 := raw[rawPointer + low + 2] as nat + raw[rawPointer + high + 2] as nat * 0x100;
        if !(0xDC00 <= value2 < 0xE000) {
          return Bad(ExpectedLowSurrogate);
        }
        value, width := 0x1_0000 + value % 0x400 * 0x400 + value2 % 0x400, 4;
      }
      d := if Allowed(value) then Char(value, width) else Bad(ControlCharacter);
    }

    /** The character goes into the buffer. */
    method PutCharacter(c: scalar)
      requires last + |Encode(Utf8, c)| <= buffer.Length
      modifies buffer, this`last
      ensures last == old(last) + |Encode(Utf8, c)| && buffer[..last] == old(buffer[..last]) + Encode(Utf8, c)
    {
      if c <= 0x7F {
        buffer[last] := c as byte;
        last := last + 1;
      } else if c <= 0x7FF {
        buffer[last] := (0xC0 + c / 0x40) as byte;
        buffer[last + 1] := (0x80 + c % 0x40) as byte;
        last := last + 2;
      } else if c <= 0xFFFF {
        buffer[last] := (0xE0 + c / 0x1000) as byte;
        buffer[last + 1] := (0x80 + c / 0x40 % 0x40) as byte;
        buffer[last + 2] := (0x80 + c % 0x40) as byte;
        last := last + 3;
      } else {
        buffer[last] := (0xF0 + c / 0x4_0000) as byte;
        buffer[last + 1] := (0x80 + c / 0x1000 % 0x40) as byte;
        buffer[last + 2] := (0x80 + c / 0x40 % 0x40) as byte;
        buffer[last + 3] := (0x80 + c % 0x40) as byte;
        last := last + 4;
      }
    }

    /** There is room for whatever the raw buffer can turn into, and the NUL. */
    ghost predicate Room()
      reads this`last, this`rawPointer, this`rawLast
    {
      2 * last + 3 * (rawLast - rawPointer) <= 2 * (BUFFER_SIZE - 1)
    }

    /** Between the steps of yaml_parser_update_buffer. */
    ghost predicate Filling()
      reads this, raw, buffer
    {
      && RawOk() && TextOk() && BufferOk() && raw != buffer
      && encoding.Some? && !ended && error == None && pointer == 0
    }

    /** The inner loop of yaml_parser_update_buffer: everything is decoded but what may
        be the beginning of a character. */
    method DecodeRaw() returns (ok: bool)
      requires Filling() && Room()
      modifies buffer, this`rawPointer, this`offset, this`last, this`unread, this`text, this`error
      ensures ok ==> Filling() && Room() && rawLast - rawPointer < 4 && (eof ==> rawPointer == rawLast)
      ensures !ok ==> Valid() && error.Some? && error.value.DecodeError?
      ensures old(text) <= text
    {
      hide TextOk, BufferOk, Room, Rejects, Decode;
      while rawPointer != rawLast
        invariant Filling() && Room() && rawPointer <= rawLast && old(text) <= text
        decreases rawLast - rawPointer
      {
        var d;
        match encoding.value {
          case Utf8 => d := NextUtf8();
          case Utf16(little) => d := NextUtf16(little);
        }
        DecodeCases(encoding.value, raw[rawPointer..rawLast]);
        assert d == Decode(encoding.value, raw[rawPointer..rawLast]);
        if d.Bad? || (d.Incomplete? && eof) {
          var problem := if d.Bad? then d.problem else IncompleteSequence;
          assert problem == ProblemOf(encoding.value, raw[rawPointer..rawLast]);
          Reject(problem);
          error := Some(DecodeError(problem));
          return false;
        }
        if d.Incomplete? {
          IncompleteIsShort(encoding.value, raw[rawPointer..rawLast]);
          return true;
        }
        Accept(d.value, d.width);
      }
      ok := true;
    }

    lemma {:induction false} DecodeCases(e: Encoding, b: seq<byte>)
      requires b != []
      ensures Decode(e, b) == match e case Utf8 => DecodeUtf8(b) case Utf16(little) => DecodeUtf16(little, b)
    {
    }

    /** What is left starts no character. */
    lemma {:induction false} Reject(problem: Problem)
      requires Filling() && rawPointer < rawLast
      requires var d := Decode(encoding.value, raw[rawPointer..rawLast]); d.Bad? || (d.Incomplete? && eof)
      requires problem == ProblemOf(encoding.value, raw[rawPointer..rawLast])
      ensures Rejects(problem)
    {
      hide EncodeAll, Encode, Decode;
      var rest := input[offset..];
      assert raw[rawPointer..rawLast] == rest[..rawLast - rawPointer];
      Rejected(encoding.value, rest, raw[rawPointer..rawLast]);
    }

    /** The raw pointers move over a character, and it goes into the buffer. */
    method Accept(c: nat, width: nat)
      requires Filling() && Room() && rawPointer < rawLast
      requires Decode(encoding.value, raw[rawPointer..rawLast]) == Char(c, width)
      modifies buffer, this`rawPointer, this`offset, this`last, this`unread, this`text
      ensures Filling() && Room() && rawPointer == old(rawPointer) + width && width > 0
      ensures IsScalar(c) && text == old(text) + [c]
    {
      hide EncodeAll, Encode, Decode;
      OneMore(encoding.value, text, raw[rawPointer..rawLast]);
      PutCharacter(c);
      Appended(text, c, done);
      assert All() == text && buffer[0..last] == buffer[..last];
      MoveOver(c, width);
    }


    /** The raw pointers, and what is known, follow. */
    method MoveOver(c: scalar, width: nat)
      requires RawOk() && TextOk() && raw != buffer && encoding.Some? && !ended && error == None && pointer == 0
      requires 0 < width <= rawLast - rawPointer && 2 * last + 3 * (rawLast - rawPointer - width) <= 2 * (BUFFER_SIZE - 1)
      requires IsText(text + [c]) && done <= |text| && unread == |text| - done && buffer.Length == BUFFER_SIZE
      requires buffer[0..last] == EncodeAll(Utf8, (text + [c])[done..])
      requires EncodeAll(encoding.value, text + [c]) == EncodeAll(encoding.value, text) + raw[rawPointer..rawLast][..width]
      modifies this`rawPointer, this`offset, this`unread, this`text
      ensures Filling() && Room() && rawPointer == old(rawPointer) + width && text == old(text) + [c]
    {
      hide EncodeAll, Encode;
      assert raw[rawPointer..rawLast][..width] == input[offset..offset + width];
      assert input[begin..offset + width] == input[begin..offset] + input[offset..offset + width];
      assert raw[rawPointer + width..rawLast] == input[offset + width..taken];
      rawPointer := rawPointer + width;
      offset := offset + width;
      text := text + [c];
      unread := unread + 1;
      assert All() == text;
    }

    /** The unread characters move to the beginning of the buffer. */
    method MoveBufferDown()
      requires BufferOk()
      modifies buffer, this`pointer, this`last
      ensures BufferOk() && pointer == 0 && last == old(last - pointer)
    {
      var n := last - pointer;
      if 0 < pointer < last {
        forall i | 0 <= i < n {
          buffer[i] := buffer[pointer + i];
        }
        assert buffer[..n] == old(buffer[pointer..last]);
        pointer, last := 0, n;
      } else if pointer == last {
        pointer, last := 0, 0;
      }
    }

    /** yaml_parser_update_buffer: when it succeeds, that many characters are there, or
        all of them with the NUL. */
    method UpdateBuffer(length: nat) returns (ok: bool)
      requires Valid() && error == None && 4 * length <= RAW_SIZE
      modifies raw, buffer, this`rawPointer, this`rawLast, this`eof, this`taken, this`asked, this`offset, this`encoding,
               this`begin, this`pointer, this`last, this`unread, this`text, this`ended, this`error
      ensures Valid() && old(All()) <= All()
      ensures ok ==> error == None && (unread >= length || ended)
      ensures !ok ==> error.Some?
      ensures error == Some(InputError) ==> HandlerFailed()
      ensures !ok && error == Some(TooLong) ==> offset >= MAX_FILE_SIZE
    {
      hide RawOk, TextOk, BufferOk, Rejects;
      if eof && rawPointer == rawLast {
        return true;
      }
      if unread >= length {
        return true;
      }
      ok := Refill(length);
    }

    method Refill(length: nat) returns (ok: bool)
      requires Valid() && error == None && !ended && unread < length && 4 * length <= RAW_SIZE
      modifies raw, buffer, this`rawPointer, this`rawLast, this`eof, this`taken, this`asked, this`offset, this`encoding,
               this`begin, this`pointer, this`last, this`unread, this`text, this`ended, this`error
      ensures Valid() && old(text) <= text
      ensures ok ==> error == None && (unread >= length || ended)
      ensures !ok ==> error.Some?
      ensures error == Some(InputError) ==> HandlerFailed()
      ensures error == Some(TooLong) ==> offset >= MAX_FILE_SIZE
    {
      hide RawOk, TextOk, BufferOk, Rejects;
      if encoding == None {
        NoEncodingYet();
        ok := DetermineEncoding();
        if !ok {
          return;
        }
      }
      MoveBufferDown();
      ok := Fill(length);
    }

    lemma {:induction false} NoEncodingYet()
      requires TextOk() && encoding == None
      ensures text == []
    {
    }

    /** The outer loop of yaml_parser_update_buffer. */
    method Fill(length: nat) returns (ok: bool)
      requires Filling() && unread < length && 4 * length <= RAW_SIZE
      modifies raw, buffer, this`rawPointer, this`rawLast, this`eof, this`taken, this`asked, this`offset,
               this`last, this`unread, this`text, this`ended, this`error
      ensures Valid() && old(text) <= text
      ensures ok ==> error == None && (unread >= length || ended)
      ensures !ok ==> error.Some?
      ensures error == Some(InputError) ==> HandlerFailed()
      ensures error == Some(TooLong) ==> offset >= MAX_FILE_SIZE
    {
      hide TextOk, BufferOk, Room, Rejects;
      var first := true;
      while unread < length
        invariant Filling() && old(text) <= text
        invariant if first then unread < length else rawLast - rawPointer < 4 && !eof
        decreases |input| - taken, !eof, first
      {
        if !first || rawPointer == rawLast {
          ok := UpdateRawBuffer();
          if !ok {
            return;
          }
        }
        first := false;
        RoomFirst(length);
        ok := DecodeRaw();
        if !ok {
          return;
        }
        if eof {
          PutNul();
          return;
        }
      }
      ok := offset < MAX_FILE_SIZE;
      if !ok {
        error := Some(TooLong);
      }
    }

    /** Fewer characters than that leave room for all of the raw buffer. */
    lemma {:induction false} RoomFirst(length: nat)
      requires Filling() && unread < length && 4 * length <= RAW_SIZE
      ensures Room()
    {
      hide EncodeAll;
      ShortEnough(All()[done..]);
    }

    method PutNul()
      requires Filling() && Room() && eof && rawPointer == rawLast
      modifies buffer, this`last, this`unread, this`ended
      ensures Valid() && ended && error == None
    {
      hide EncodeAll, TextOk;
      Appended(text, 0, done);
      assert All() == text;
      EncodeNul();
      buffer[last] := 0;
      assert buffer[0..last + 1] == buffer[0..last] + [0];
      last := last + 1;
      unread := unread + 1;
      ended := true;
      assert All() == text + [0];
    }

    static lemma {:induction false} EncodeNul()
      ensures Encode(Utf8, 0) == [0]
    {
    }

    static lemma {:induction false} ShortEnough(cs: seq<scalar>)
      ensures |EncodeAll(Utf8, cs)| <= 4 * |cs|
    {
      hide Encode;
      if cs != [] {
        ShortEnough(cs[..|cs| - 1]);
      }
    }

    /** SKIP: the next character, as the scanner takes it. */
    method Skip() returns (ghost c: scalar)
      requires Valid() && error == None && unread > 0
      modifies this`pointer, this`unread, this`done
      ensures Valid() && error == None && All() == old(All()) && done == old(done) + 1 && c == All()[old(done)]
      ensures unread == old(unread) - 1
    {
      hide EncodeAll, Encode;
      c := All()[done];
      EncodeFirst(Utf8, All()[done..]);
      assert All()[done..][1..] == All()[done + 1..];
      FirstWidth(c);
      assert buffer[pointer] == Encode(Utf8, c)[0];
      pointer := pointer + Width(buffer[pointer]);
      unread := unread - 1;
      done := done + 1;
    }

    /** When the NUL is there, the text is the one text that the whole input is, after
        its byte order mark. */
    lemma {:induction false} WholeText(cs: seq<scalar>)
      requires Valid() && ended
      ensures encoding.Some? && (encoding.value, begin) == Start() && begin <= |input|
      ensures WellFormed(encoding.value, input[begin..])
      ensures IsText(cs) && EncodeAll(encoding.value, cs) == input[begin..] ==> All() == cs + [0]
    {
      assert input[begin..offset] == input[begin..];
      if IsText(cs) && EncodeAll(encoding.value, cs) == input[begin..] {
        assert EncodeAll(encoding.value, text) + [] == EncodeAll(encoding.value, cs);
        EncodeUnique(encoding.value, text, cs, []);
        assert text == cs;
      }
    }

    /** When the decoder has rejected something, no text is the whole input. */
    lemma {:induction false} NoText(problem: Problem)
      requires Valid() && error == Some(DecodeError(problem))
      ensures encoding.Some? && (encoding.value, begin) == Start() && begin <= |input|
      ensures !WellFormed(encoding.value, input[begin..])
    {
      hide EncodeAll;
      assert input[begin..] == input[begin..offset] + input[offset..];
      NotWellFormed(encoding.value, text, input[offset..]);
    }

    /** There are not more characters than bytes, and the NUL. */
    lemma {:induction false} Bounds()
      requires Valid()
      ensures done <= |All()| <= |input| + 1 && unread == |All()| - done
      ensures error == None && ended && unread == 0 ==> All()[..done] == All()
    {
      hide Encode, EncodeAll;
      if encoding.Some? {
        LongEnough(encoding.value, text);
      }
    }

    static lemma {:induction false} LongEnough(e: Encoding, cs: seq<scalar>)
      ensures |EncodeAll(e, cs)| >= |cs|
    {
      hide Encode;
      if cs != [] {
        LongEnough(e, cs[..|cs| - 1]);
      }
    }

    /** The reader has come to the end of the input, or to what it rejects. */
    ghost predicate Finished()
      reads this`error, this`ended
    {
      ended || (error.Some? && error.value.DecodeError?)
    }

    /** What is left behind the text, when the reader has finished. */
    lemma {:induction false} Remainder()
      requires Valid() && Finished()
      ensures encoding.Some? && (encoding.value, begin) == Start() && begin <= offset <= |input| && IsText(text)
      ensures input[begin..] == EncodeAll(encoding.value, text) + input[offset..]
      ensures input[offset..] == [] || Stuck(encoding.value, input[offset..])
      ensures ended <==> input[offset..] == []
    {
      assert input[begin..] == input[begin..offset] + input[offset..];
    }
  }

  /** However the read handler cuts the input into chunks, a reader that has finished has
      the same text, and has come to its end or has rejected the same thing at the same
      place. */
  lemma {:induction false} ChunksDoNotMatter(a: Reader, b: Reader)
    requires a.Valid() && b.Valid() && a.Finished() && b.Finished() && a.input == b.input && a.given == b.given
    ensures a.text == b.text && a.offset == b.offset && a.encoding == b.encoding && (a.ended <==> b.ended)
    ensures !a.ended ==> a.error == b.error
  {
    hide Stuck, EncodeAll;
    a.Remainder();
    b.Remainder();
    SameText(a.encoding.value, a.text, a.input[a.offset..], b.text, b.input[b.offset..]);
  }

  /** A reader whose input is used up: with a read handler that does not fail, it comes to
      its end or to what it rejects, and all characters are taken in order. */
  method ReadAll(r: Reader) returns (ghost taken: seq<scalar>)
    requires r.Valid() && r.error == None && r.done == 0
    modifies r, r.raw, r.buffer
    ensures r.Valid() && (r.Finished() || r.error == Some(InputError) || r.error == Some(TooLong))
    ensures taken == r.All()[..r.done] && (r.error == None ==> r.ended && taken == r.All())
  {
    hide Reader.Valid, Reader.All;
    taken := [];
    r.Bounds();
    while true
      invariant r.Valid() && r.error == None && r.done <= |r.All()| <= |r.input| + 1 && taken == r.All()[..r.done]
      decreases |r.input| + 1 - r.done
    {
      ghost var all := r.All();
      var ok := r.UpdateBuffer(1);
      assert r.All()[..r.done] == all[..r.done];
      r.Bounds();
      if !ok || r.unread == 0 {
        return;
      }
      ghost var c := r.Skip();
      r.Bounds();
      taken := taken + [c];
    }
  }
}
