/** WebSocket framing, sections 5.2 to 5.4 of RFC 6455. */
module WsFrame {
  import opened Bytes

  type Opcode = byte

  const CONTINUATION: Opcode := 0x0
  const TEXT: Opcode := 0x1
  const BINARY: Opcode := 0x2
  const CLOSE: Opcode := 0x8
  const PING: Opcode := 0x9
  const PONG: Opcode := 0xA

  const MAX_CONTROL_PAYLOAD := 125
  const NO_STATUS := 1005
  const TOP_BIT := 0x8000_0000_0000_0000
  const NO_MASK: seq<byte> := [0, 0, 0, 0]

  predicate IsControl(op: Opcode) {
    op >= CLOSE
  }

  predicate KnownOpcode(op: Opcode) {
    op == CONTINUATION || op == TEXT || op == BINARY || op == CLOSE || op == PING || op == PONG
  }

  // One frame's framing. Raw is the header as it was read.
  datatype Header = Header(
    fin: bool, rsv1: bool, rsv2: bool, rsv3: bool,
    opcode: Opcode, masked: bool, length: nat, mask: seq<byte>, raw: seq<byte>)

  datatype ReadError = Ended | CutShort | Protocol

  // What reading a header came to, and how many bytes it took off the stream.
  datatype HeaderRead = Got(h: Header, taken: nat) | Refused(why: ReadError, taken: nat)

  // ---- the stream --------------------------------------------------------

  class Reader {
    var data: seq<byte>

    constructor (data: seq<byte>)
      ensures this.data == data
    {
      this.data := data;
    }

    // io.ReadFull: all n bytes, or whatever is there and an error.
    method ReadFull(n: nat) returns (b: seq<byte>, fault: bool, why: ReadError)
      requires n > 0
      modifies this
      ensures !fault <==> n <= |old(data)|
      ensures !fault ==> b == old(data)[..n] && data == old(data)[n..]
      ensures fault ==> b == old(data) && data == [] && why == if old(data) == [] then Ended else CutShort
    {
      if n <= |data| {
        b, fault, why := data[..n], false, Ended;
        data := data[n..];
      } else {
        b, fault, why := data, true, if data == [] then Ended else CutShort;
        data := [];
      }
    }
  }

  // ---- the header --------------------------------------------------------

  // The seven-bit length field, under the mask bit.
  function FieldOf(second: byte): (field: nat)
    ensures field < 128
  {
    if second >= 128 then second - 128 else second
  }

  // How many bytes hold the length, by the seven-bit field.
  function LengthBytes(field: nat): nat {
    if field == 126 then 2 else if field == 127 then 8 else 0
  }

  // What the first byte says: section 5.2's four flags and the opcode.
  datatype Flags = Flags(fin: bool, rsv1: bool, rsv2: bool, rsv3: bool, opcode: Opcode)

  function FlagsOf(b: byte): Flags {
    Flags(b >= 128, b / 64 % 2 == 1, b / 32 % 2 == 1, b / 16 % 2 == 1, b % 16)
  }

  function HeaderOf(f: Flags, masked: bool, length: nat, mask: seq<byte>, raw: seq<byte>): Header {
    Header(f.fin, f.rsv1, f.rsv2, f.rsv3, f.opcode, masked, length, mask, raw)
  }

  function FlagsIn(h: Header): Flags {
    Flags(h.fin, h.rsv1, h.rsv2, h.rsv3, h.opcode)
  }

  predicate BadControl(f: Flags, length: nat) {
    IsControl(f.opcode) && (!f.fin || length > MAX_CONTROL_PAYLOAD)
  }

  /** What the bytes of s say at their head: section 5.2. */
  function ParseHeader(s: seq<byte>): (r: HeaderRead)
    ensures r.taken <= |s|
    ensures r.Got? ==> r.h.raw == s[..r.taken] && |r.h.mask| == 4
  {
    if |s| < 2 then Refused(if s == [] then Ended else CutShort, |s|)
    else ParseAfterFlags(FlagsOf(s[0]), s)
  }

  function ParseAfterFlags(f: Flags, s: seq<byte>): (r: HeaderRead)
    requires |s| >= 2
    ensures r.taken <= |s|
    ensures r.Got? ==> r.h.raw == s[..r.taken] && |r.h.mask| == 4
  {
    var masked := s[1] >= 128;
    var field := FieldOf(s[1]);
    var ext := LengthBytes(field);
    if !KnownOpcode(f.opcode) then Refused(Protocol, 2)
    else if |s| < 2 + ext then Refused(if |s| == 2 then Ended else CutShort, |s|)
    else
      var length := if ext == 0 then field else FromBigEndian(s[2..2 + ext]);
      if length >= TOP_BIT then Refused(Protocol, 2 + ext)
      else ParseAfterLength(f, masked, length, 2 + ext, s)
  }

  function ParseAfterLength(f: Flags, masked: bool, length: nat, at: nat, s: seq<byte>): (r: HeaderRead)
    requires at <= |s|
    ensures r.taken <= |s|
    ensures r.Got? ==> r.h.raw == s[..r.taken] && |r.h.mask| == 4
  {
    var size := at + if masked then 4 else 0;
    if |s| < size then Refused(if |s| == at then Ended else CutShort, |s|)
    else if BadControl(f, length) then Refused(Protocol, size)
    else Got(HeaderOf(f, masked, length, if masked then s[at..size] else NO_MASK, s[..size]), size)
  }

  method ReadHeader(r: Reader) returns (read: HeaderRead)
    modifies r
    ensures read == ParseHeader(old(r.data))
    ensures r.data == old(r.data)[read.taken..]
  {
    var raw, fault, why := r.ReadFull(2);
    if fault {
      return Refused(why, |raw|);
    }
    read := ReadAfterFlags(r, FlagsOf(raw[0]), raw, old(r.data));
  }

  // The extended length, once the flags are known.
  method ReadAfterFlags(r: Reader, f: Flags, head: seq<byte>, ghost s: seq<byte>) returns (read: HeaderRead)
    requires |head| == 2 && |s| >= 2 && head == s[..2] && r.data == s[2..]
    modifies r
    ensures read == ParseAfterFlags(f, s)
    ensures r.data == s[read.taken..]
  {
    if !KnownOpcode(f.opcode) {
      return Refused(Protocol, 2);
    }
    var masked := head[1] >= 128;
    var field := FieldOf(head[1]);
    var length: nat := field;
    var raw := head;
    if field == 126 || field == 127 {
      var more, fault, why := r.ReadFull(LengthBytes(field));
      raw := raw + more;
      if fault {
        return Refused(why, |raw|);
      }
      assert more == s[2..2 + LengthBytes(field)];
      length := FromBigEndian(more);
      if length >= TOP_BIT {
        return Refused(Protocol, |raw|);
      }
    }
    assert raw == s[..|raw|];
    read := ReadAfterLength(r, f, masked, length, raw, s);
  }

  // The mask, once the length is known, and the rules a control frame must keep.
  method ReadAfterLength(r: Reader, f: Flags, masked: bool, length: nat, head: seq<byte>, ghost s: seq<byte>)
    returns (read: HeaderRead)
    requires |head| <= |s| && head == s[..|head|] && r.data == s[|head|..]
    modifies r
    ensures read == ParseAfterLength(f, masked, length, |head|, s)
    ensures r.data == s[read.taken..]
  {
    var mask := NO_MASK;
    var raw := head;
    if masked {
      var more, fault, why := r.ReadFull(4);
      raw := raw + more;
      if fault {
        return Refused(why, |raw|);
      }
      assert more == s[|head|..|raw|] && raw == s[..|raw|];
      mask := more;
    }
    if BadControl(f, length) {
      return Refused(Protocol, |raw|);
    }
    read := Got(HeaderOf(f, masked, length, mask, raw), |raw|);
  }

  function Bit(b: bool, weight: nat): nat {
    if b then weight else 0
  }

  // The first byte holds the four flags and the opcode.
  function FirstByte(h: Header): byte {
    Bit(h.fin, 128) + Bit(h.rsv1, 64) + Bit(h.rsv2, 32) + Bit(h.rsv3, 16) + h.opcode % 16
  }

  // The seven-bit length field and the bytes that follow it.
  function LengthField(length: nat): byte {
    if length <= 125 then length else if length <= 0xffff then 126 else 127
  }

  /** The header bytes the proxy writes itself. */
  function Encode(h: Header): seq<byte> {
    var field := LengthField(h.length);
    [FirstByte(h), field + Bit(h.masked, 128)]
    + BigEndian(h.length, LengthBytes(field))
    + if h.masked then h.mask else []
  }

  method EncodeHeader(h: Header) returns (out: seq<byte>)
    ensures out == Encode(h)
  {
    var first: nat := 0;
    if h.fin { first := first + 128; }
    if h.rsv1 { first := first + 64; }
    if h.rsv2 { first := first + 32; }
    if h.rsv3 { first := first + 16; }
    first := first + h.opcode % 16;
    var second: nat;
    var ext: seq<byte> := [];
    if h.length <= 125 {
      second := h.length;
    } else if h.length <= 0xffff {
      second := 126;
      ext := BigEndian(h.length, 2);
    } else {
      second := 127;
      ext := BigEndian(h.length, 8);
    }
    out := [first, if h.masked then second + 128 else second] + ext;
    out := if h.masked then out + h.mask else out;
    assert h.length <= 125 ==> ext == BigEndian(h.length, 0);
    assert !h.masked ==> out + [] == out;
  }

  // A header the protocol allows, with a length that fits its 63 bits.
  ghost predicate Legal(h: Header) {
    && KnownOpcode(h.opcode)
    && h.length < TOP_BIT
    && |h.mask| == 4
    && (!h.masked ==> h.mask == NO_MASK)
    && (IsControl(h.opcode) ==> h.fin && h.length <= MAX_CONTROL_PAYLOAD)
  }

  lemma BitsOf(x: nat, y: nat, z: nat, w: nat, low: nat)
    requires x <= 1 && y <= 1 && z <= 1 && w <= 1 && low < 16
    ensures var b := 128 * x + 64 * y + 32 * z + 16 * w + low;
            FlagsOf(b) == Flags(x == 1, y == 1, z == 1, w == 1, low)
  {
    var b := 128 * x + 64 * y + 32 * z + 16 * w + low;
    assert b / 64 == 2 * x + y;
    assert b / 32 == 4 * x + 2 * y + z;
    assert b / 16 == 8 * x + 4 * y + 2 * z + w;
  }

  lemma FirstByteSum(h: Header)
    requires h.opcode < 16
    ensures FirstByte(h) ==
            128 * Bit(h.fin, 1) + 64 * Bit(h.rsv1, 1) + 32 * Bit(h.rsv2, 1) + 16 * Bit(h.rsv3, 1) + h.opcode
  {
  }

  lemma FirstByteReads(h: Header)
    requires KnownOpcode(h.opcode)
    ensures FlagsOf(FirstByte(h)) == FlagsIn(h)
  {
    FirstByteSum(h);
    BitsOf(Bit(h.fin, 1), Bit(h.rsv1, 1), Bit(h.rsv2, 1), Bit(h.rsv3, 1), h.opcode);
  }

  lemma PowersOf256()
    ensures Pow256(0) == 1 && Pow256(2) == 0x1_0000 && Pow256(8) == 0x1_0000_0000_0000_0000
  {
    assert Pow256(4) == 0x1_0000_0000;
  }

  // Where the parts of an encoded header lie.
  lemma EncodedParts(h: Header, payload: seq<byte>)
    requires |h.mask| == 4
    ensures var s := Encode(h) + payload;
            var ext := LengthBytes(LengthField(h.length));
            var size := 2 + ext + if h.masked then 4 else 0;
            && |Encode(h)| == size && s[..size] == Encode(h)
            && s[0] == FirstByte(h) && s[1] == LengthField(h.length) + Bit(h.masked, 128)
            && s[2..2 + ext] == BigEndian(h.length, ext)
            && (h.masked ==> s[2 + ext..size] == h.mask)
  {
    var ext := LengthBytes(LengthField(h.length));
    var head := [FirstByte(h), LengthField(h.length) + Bit(h.masked, 128)];
    var mask := if h.masked then h.mask else [];
    assert Encode(h) == head + BigEndian(h.length, ext) + mask;
  }

  lemma LengthReads(length: nat)
    requires length < TOP_BIT
    ensures var field := LengthField(length);
            length ==
            if LengthBytes(field) == 0 then field as nat else FromBigEndian(BigEndian(length, LengthBytes(field)))
  {
    PowersOf256();
    if length > 125 {
      BigEndianReads(length, LengthBytes(LengthField(length)));
    }
  }

  lemma ReadsAfterFlags(h: Header, s: seq<byte>)
    requires Legal(h)
    requires var ext := LengthBytes(LengthField(h.length));
             var size := 2 + ext + if h.masked then 4 else 0;
             && |s| >= size && s[1] == LengthField(h.length) + Bit(h.masked, 128)
             && s[2..2 + ext] == BigEndian(h.length, ext)
             && (h.masked ==> s[2 + ext..size] == h.mask)
    ensures var size := 2 + LengthBytes(LengthField(h.length)) + if h.masked then 4 else 0;
            ParseAfterFlags(FlagsIn(h), s) == Got(h.(raw := s[..size]), size)
  {
    LengthReads(h.length);
  }

  /** Reading undoes encoding, and leaves the payload where it was. */
  lemma ReadUndoesEncode(h: Header, payload: seq<byte>)
    requires Legal(h)
    ensures ParseHeader(Encode(h) + payload) == Got(h.(raw := Encode(h)), |Encode(h)|)
  {
    EncodedParts(h, payload);
    FirstByteReads(h);
    ReadsAfterFlags(h, Encode(h) + payload);
  }

  lemma ByteIsItsBits(b: byte)
    ensures b == Bit(b >= 128, 128) + Bit(b / 64 % 2 == 1, 64) + Bit(b / 32 % 2 == 1, 32)
                 + Bit(b / 16 % 2 == 1, 16) + b % 16
    ensures b % 16 % 16 == b % 16
  {
  }

  lemma FirstByteIsWritten(b: byte, h: Header)
    requires FlagsOf(b) == FlagsIn(h)
    ensures FirstByte(h) == b
  {
    ByteIsItsBits(b);
  }

  // The pieces of a header that was read whole.
  lemma ReadParts(f: Flags, s: seq<byte>)
    requires |s| >= 2 && ParseAfterFlags(f, s).Got? && ParseAfterFlags(f, s).taken == |s|
    ensures f == FlagsIn(ParseAfterFlags(f, s).h) && IsParts(ParseAfterFlags(f, s).h, s)
  {
    var field := FieldOf(s[1]);
    var ext := LengthBytes(field);
    var length := if ext == 0 then field else FromBigEndian(s[2..2 + ext]);
    PartsAfterLength(f, s[1] >= 128, length, 2 + ext, s);
  }

  lemma PartsAfterLength(f: Flags, masked: bool, length: nat, at: nat, s: seq<byte>)
    requires at <= |s| && ParseAfterLength(f, masked, length, at, s).Got?
    requires ParseAfterLength(f, masked, length, at, s).taken == |s|
    ensures var h := ParseAfterLength(f, masked, length, at, s).h;
            && f == FlagsIn(h) && h.masked == masked && h.length == length
            && |s| == at + (if masked then 4 else 0) && h.mask == if masked then s[at..] else NO_MASK
  {
  }

  // s lays h out, with some length field that holds its length.
  ghost predicate IsParts(h: Header, s: seq<byte>) {
    && |s| >= 2
    && var ext := LengthBytes(FieldOf(s[1]));
    && h.masked == (s[1] >= 128)
    && |s| == 2 + ext + (if h.masked then 4 else 0)
    && h.length == (if ext == 0 then FieldOf(s[1]) else FromBigEndian(s[2..2 + ext]))
    && h.mask == (if h.masked then s[2 + ext..] else NO_MASK)
  }

  /** Of all the bytes that read as one header, the ones Encode writes are the only shortest. */
  lemma EncodeIsShortest(s: seq<byte>)
    requires ParseHeader(s).Got? && ParseHeader(s).taken == |s|
    ensures |Encode(ParseHeader(s).h)| <= |s|
    ensures |Encode(ParseHeader(s).h)| == |s| ==> Encode(ParseHeader(s).h) == s
  {
    var h := ParseHeader(s).h;
    ReadParts(FlagsOf(s[0]), s);
    FirstByteIsWritten(s[0], h);
    ShortestAs(h, s);
  }

  lemma ShortestAs(h: Header, s: seq<byte>)
    requires IsParts(h, s) && FirstByte(h) == s[0]
    ensures |Encode(h)| <= |s|
    ensures |Encode(h)| == |s| ==> Encode(h) == s
  {
    var ext := LengthBytes(FieldOf(s[1]));
    LengthIsShortest(h.length, FieldOf(s[1]), s[2..2 + ext]);
    EncodedParts(h, []);
    assert Encode(h) + [] == Encode(h);
    assert s == s[..2] + s[2..2 + ext] + s[2 + ext..];
  }

  lemma LengthIsShortest(length: nat, field: nat, b: seq<byte>)
    requires field < 128 && |b| == LengthBytes(field)
    requires length == if |b| == 0 then field else FromBigEndian(b)
    ensures LengthBytes(LengthField(length)) <= |b|
    ensures LengthBytes(LengthField(length)) == |b| ==> LengthField(length) == field && BigEndian(length, |b|) == b
  {
    PowersOf256();
    if |b| > 0 {
      BigEndianWrites(b);
    }
  }

  // ---- masking -----------------------------------------------------------

  /** Section 5.3: b, standing offset bytes into a payload, with the mask taken on or off. */
  function Masked(mask: seq<byte>, offset: nat, b: seq<byte>): (r: seq<byte>)
    requires |mask| == 4
    ensures |r| == |b|
    ensures forall i :: 0 <= i < |b| ==> r[i] == Xor(b[i], mask[(offset + i) % 4])
  {
    seq(|b|, i requires 0 <= i < |b| => Xor(b[i], mask[(offset + i) % 4]))
  }

  method Unmask(mask: seq<byte>, offset: nat, b: array<byte>)
    requires |mask| == 4
    modifies b
    ensures b[..] == Masked(mask, offset, old(b[..]))
  {
    var m := [mask[offset % 4], mask[(offset + 1) % 4], mask[(offset + 2) % 4], mask[(offset + 3) % 4]];
    for i := 0 to b.Length
      invariant forall k :: 0 <= k < i ==> b[k] == Xor(old(b[k]), mask[(offset + k) % 4])
      invariant forall k :: i <= k < b.Length ==> b[k] == old(b[k])
    {
      RotatedMask(offset, i);
      assert m[i % 4] == mask[(offset + i) % 4];
      b[i] := Xor(b[i], m[i % 4]);
    }
  }

  lemma RotatedMask(offset: nat, i: nat)
    ensures (offset + i % 4) % 4 == (offset + i) % 4
  {
  }

  /** Masking twice is nothing. */
  lemma MaskedTwice(mask: seq<byte>, offset: nat, b: seq<byte>)
    requires |mask| == 4
    ensures Masked(mask, offset, Masked(mask, offset, b)) == b
  {
    forall i | 0 <= i < |b| ensures Masked(mask, offset, Masked(mask, offset, b))[i] == b[i] {
      XorTwice(b[i], mask[(offset + i) % 4]);
    }
  }

  /** A payload may be unmasked piece by piece, each at its own offset. */
  lemma MaskedInPieces(mask: seq<byte>, offset: nat, a: seq<byte>, b: seq<byte>)
    requires |mask| == 4
    ensures Masked(mask, offset, a + b) == Masked(mask, offset, a) + Masked(mask, offset + |a|, b)
  {
    var whole, parts := Masked(mask, offset, a + b), Masked(mask, offset, a) + Masked(mask, offset + |a|, b);
    forall i | 0 <= i < |whole| ensures whole[i] == parts[i] {
      if i >= |a| {
        assert offset + i == offset + |a| + (i - |a|);
      }
    }
  }

  /** A mask of nothing changes nothing, and a payload that repeats its mask comes out as nothing. */
  lemma MaskedWithNothing(mask: seq<byte>, offset: nat, b: seq<byte>)
    requires |mask| == 4
    ensures Masked(NO_MASK, offset, b) == b
    ensures (forall i :: 0 <= i < |b| ==> b[i] == mask[(offset + i) % 4]) ==>
              forall i :: 0 <= i < |b| ==> Masked(mask, offset, b)[i] == 0
  {
    forall i | 0 <= i < |b| ensures Masked(NO_MASK, offset, b)[i] == b[i] && Xor(b[i], b[i]) == 0 {
      XorWithZeroAndSelf(b[i]);
    }
  }

  // ---- what the standard shows -------------------------------------------

  /** The flags and the opcode by their weights in the first byte, most significant first. */
  lemma FlagsByWeight(b: byte)
    ensures var f := FlagsOf(b);
            && f.opcode < 16
            && b == Bit(f.fin, 128) + Bit(f.rsv1, 64) + Bit(f.rsv2, 32) + Bit(f.rsv3, 16) + f.opcode
  {
    ByteIsItsBits(b);
  }

  lemma {:induction false} MostSignificantFirst(a: byte, rest: seq<byte>)
    ensures FromBigEndian([a] + rest) == a * Pow256(|rest|) + FromBigEndian(rest)
  {
    if rest == [] {
      assert [a] + rest == [a] && [a][..0] == [];
    } else {
      var head, last := rest[..|rest| - 1], rest[|rest| - 1];
      MostSignificantFirst(a, head);
      var s := [a] + rest;
      assert s[..|s| - 1] == [a] + head && s[|s| - 1] == last;
      OneMoreByte(a, Pow256(|head|), FromBigEndian(head), last);
    }
  }

  lemma OneMoreByte(a: nat, p: nat, x: nat, last: nat)
    ensures 256 * (a * p + x) + last == a * (256 * p) + (256 * x + last)
  {
  }

  // The length a header gives: seven bits, or the two or eight bytes they stand for.
  function LengthOf(s: seq<byte>): nat
    requires |s| >= 10
  {
    var field := s[1] % 128;
    if field <= 125 then field else if field == 126 then 256 * s[2] + s[3] else FromBigEndian(s[2..10])
  }

  lemma LengthIsRead(s: seq<byte>)
    requires |s| >= 10
    ensures var field := FieldOf(s[1]);
            var ext := LengthBytes(field);
            LengthOf(s) == if ext == 0 then field else FromBigEndian(s[2..2 + ext])
  {
    if s[1] % 128 == 126 {
      MostSignificantFirst(s[2], [s[3]]);
      assert s[2..4] == [s[2]] + [s[3]];
      assert [s[3]][..0] == [];
    }
  }

  /**
   * Where there are bytes enough for any header, one is read if and only if its opcode is known, its length fits 63
   * bits, and, of a control frame, it is whole and at most 125 long. Any other is refused for that.
   */
  lemma WhatIsUnderstood(s: seq<byte>)
    requires |s| >= 14
    ensures var op, n := s[0] % 16, LengthOf(s);
            ParseHeader(s).Got? <==>
            && (op == 0 || op == 1 || op == 2 || op == 8 || op == 9 || op == 10)
            && n < 0x8000_0000_0000_0000
            && (op >= 8 ==> s[0] >= 128 && n <= 125)
    ensures ParseHeader(s).Refused? ==> ParseHeader(s).why == Protocol
    ensures ParseHeader(s).Got? ==>
              && ParseHeader(s).h.length == LengthOf(s) && (ParseHeader(s).h.masked <==> s[1] >= 128)
              && FlagsIn(ParseHeader(s).h) == FlagsOf(s[0])
  {
    LengthIsRead(s);
  }

  /** The frames section 5.7 shows: a text, its two fragments, a ping, and two long binaries. */
  lemma FramesOfTheStandard()
    ensures ParseHeader([0x81, 0x05]) ==
            Got(Header(true, false, false, false, TEXT, false, 5, NO_MASK, [0x81, 0x05]), 2)
    ensures ParseHeader([0x01, 0x03]) ==
            Got(Header(false, false, false, false, TEXT, false, 3, NO_MASK, [0x01, 0x03]), 2)
    ensures ParseHeader([0x80, 0x02]) ==
            Got(Header(true, false, false, false, CONTINUATION, false, 2, NO_MASK, [0x80, 0x02]), 2)
    ensures ParseHeader([0x89, 0x05]) ==
            Got(Header(true, false, false, false, PING, false, 5, NO_MASK, [0x89, 0x05]), 2)
    ensures var raw := [0x8a, 0x85, 0x37, 0xfa, 0x21, 0x3d];
            ParseHeader(raw) == Got(Header(true, false, false, false, PONG, true, 5, raw[2..], raw), 6)
  {
  }

  lemma LongFramesOfTheStandard()
    ensures var raw := [0x82, 0x7e, 0x01, 0x00];
            ParseHeader(raw) == Got(Header(true, false, false, false, BINARY, false, 256, NO_MASK, raw), 4)
    ensures var raw := [0x82, 0x7f, 0, 0, 0, 0, 0, 1, 0, 0];
            ParseHeader(raw) == Got(Header(true, false, false, false, BINARY, false, 65536, NO_MASK, raw), 10)
  {
    var short: seq<byte> := [0x82, 0x7e, 0x01, 0x00];
    assert short[2..4] == [0x01, 0x00] && [0x01, 0x00][..1] == [0x01];
    var long: seq<byte> := [0x82, 0x7f, 0, 0, 0, 0, 0, 1, 0, 0];
    assert long[2..10] == [0, 0, 0, 0, 0, 1, 0, 0];
    SixteenBitsUp();
  }

  lemma LeadingZero(rest: seq<byte>)
    ensures FromBigEndian([0] + rest) == FromBigEndian(rest)
  {
    MostSignificantFirst(0, rest);
  }

  lemma SixteenBitsUp()
    ensures FromBigEndian([0, 0, 0, 0, 0, 1, 0, 0]) == 65536
  {
    var one: seq<byte> := [1, 0, 0];
    MostSignificantFirst(1, [0, 0]);
    assert [1] + [0, 0] == one;
    LeadingZero(one);
    LeadingZero([0] + one);
    LeadingZero([0] + ([0] + one));
    LeadingZero([0] + ([0] + ([0] + one)));
    LeadingZero([0] + ([0] + ([0] + ([0] + one))));
    assert [0] + ([0] + ([0] + ([0] + ([0] + one)))) == [0, 0, 0, 0, 0, 1, 0, 0];
  }

  lemma FiveMasked(m: seq<byte>, b: seq<byte>)
    requires |m| == 4 && |b| == 5
    ensures Masked(m, 0, b) ==
            [Xor(b[0], m[0]), Xor(b[1], m[1]), Xor(b[2], m[2]), Xor(b[3], m[3]), Xor(b[4], m[0])]
  {
  }

  /** And its masked text. */
  lemma MaskedHello(m: seq<byte>, b: seq<byte>)
    requires m == [0x37, 0xfa, 0x21, 0x3d] && b == [0x7f, 0x9f, 0x4d, 0x51, 0x58]
    ensures Masked(m, 0, b) == [0x48, 0x65, 0x6c, 0x6c, 0x6f]
  {
    FiveMasked(m, b);
    HelloByByte();
  }

  lemma HelloByByte()
    ensures Xor(0x7f, 0x37) == 0x48 && Xor(0x9f, 0xfa) == 0x65 && Xor(0x4d, 0x21) == 0x6c
    ensures Xor(0x51, 0x3d) == 0x6c && Xor(0x58, 0x37) == 0x6f
  {
  }

  // ---- messages ----------------------------------------------------------

  datatype Message = Message(
    opcode: Opcode, payload: seq<byte>, truncated: bool, size: nat, frames: nat, compressed: bool)

  const NO_MESSAGE := Message(CONTINUATION, [], false, 0, 0, false)

  // One data frame as the assembler meets it: its framing and its payload, unmasked.
  datatype Fragment = Fragment(h: Header, plain: seq<byte>)

  function Joined(fs: seq<Fragment>): seq<byte> {
    if fs == [] then [] else Joined(fs[..|fs| - 1]) + fs[|fs| - 1].plain
  }

  function Prefix<T>(s: seq<T>, limit: nat): seq<T> {
    if |s| <= limit then s else s[..limit]
  }

  // The message some fragments make once it was begun, of which at most limit bytes are kept.
  function Assembled(opcode: Opcode, compressed: bool, fs: seq<Fragment>, limit: nat): Message {
    Message(opcode, Prefix(Joined(fs), limit), |Joined(fs)| > limit, |Joined(fs)|, |fs|, compressed)
  }

  /** Section 5.4: the message fragments make on their own, begun by the first of them. */
  function MessageOf(fs: seq<Fragment>, limit: nat): Message {
    if fs == [] then NO_MESSAGE else Assembled(fs[0].h.opcode, fs[0].h.rsv1, fs, limit)
  }

  class Assembler {
    const limit: nat
    var open: bool
    var msg: Message
    ghost var fragments: seq<Fragment>

    // The message under assembly is the one its fragments make.
    ghost predicate Valid()
      reads this
    {
      msg == Assembled(msg.opcode, msg.compressed, fragments, limit)
    }

    constructor (limit: nat)
      ensures Valid() && !open && fragments == [] && this.limit == limit
    {
      this.limit := limit;
      open, msg, fragments := false, NO_MESSAGE, [];
    }

    // Whether h may come next. It opens a message unless it continues one.
    method Begin(h: Header) returns (ok: bool)
      requires Valid()
      modifies this
      ensures Valid()
      ensures ok <==> (h.opcode == CONTINUATION <==> old(open))
      ensures ok && h.opcode != CONTINUATION ==>
                open && fragments == [] && msg.opcode == h.opcode && msg.compressed == h.rsv1
      ensures !ok || h.opcode == CONTINUATION ==> open == old(open) && msg == old(msg) && fragments == old(fragments)
    {
      if h.opcode == CONTINUATION {
        return open;
      }
      if open {
        return false;
      }
      open := true;
      msg, fragments := NO_MESSAGE.(opcode := h.opcode, compressed := h.rsv1), [];
      ok := true;
    }

    // prefix is what was kept of the fragment f.
    method Append(prefix: seq<byte>, n: nat, ghost f: Fragment)
      requires Valid()
      requires prefix == Prefix(f.plain, limit) && n == |f.plain|
      modifies this
      ensures Valid() && open == old(open) && fragments == old(fragments) + [f]
      ensures msg.opcode == old(msg).opcode && msg.compressed == old(msg).compressed
    {
      var room := limit - |msg.payload|;
      var take := if room < |prefix| then room else |prefix|;
      OneFragment(msg.opcode, msg.compressed, fragments, f, limit);
      var payload := msg.payload;
      if take > 0 {
        payload := payload + prefix[..take];
      }
      msg := msg.(payload := payload, truncated := msg.truncated || take < n,
                  size := msg.size + n, frames := msg.frames + 1);
      fragments := fragments + [f];
    }

    // The message of whatever was appended since it was begun, nothing included.
    method Finish() returns (m: Message)
      requires Valid()
      modifies this
      ensures Valid() && !open && fragments == []
      ensures m == Assembled(old(msg).opcode, old(msg).compressed, old(fragments), limit)
    {
      m := msg;
      open, msg, fragments := false, NO_MESSAGE, [];
    }
  }

  // What one fragment more makes of a message.
  lemma OneFragment(opcode: Opcode, compressed: bool, fs: seq<Fragment>, f: Fragment, limit: nat)
    ensures var msg, kept := Assembled(opcode, compressed, fs, limit), Prefix(f.plain, limit);
            var room := limit - |msg.payload|;
            var take := if room < |kept| then room else |kept|;
            Assembled(opcode, compressed, fs + [f], limit) ==
            msg.(payload := msg.payload + (if take > 0 then kept[..take] else []),
                 truncated := msg.truncated || take < |f.plain|, size := msg.size + |f.plain|, frames := msg.frames + 1)
  {
    assert (fs + [f])[..|fs|] == fs;
    PrefixGrows(Joined(fs), f.plain, limit);
  }

  lemma PrefixGrows(a: seq<byte>, b: seq<byte>, limit: nat)
    ensures var room := limit - |Prefix(a, limit)|;
            var kept := Prefix(b, limit);
            var take := if room < |kept| then room else |kept|;
            && Prefix(a + b, limit) == Prefix(a, limit) + (if take > 0 then kept[..take] else [])
            && (|a + b| > limit <==> |a| > limit || take < |b|)
  {
  }
}
