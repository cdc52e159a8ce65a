/** The protobuf wire format read without a schema: varints, fields, and nested messages guessed to a bounded depth. */
module ProtoWire {
  import opened Bytes
  import opened Wrappers

  // ---- varints -----------------------------------------------------------

  const MAX_VARINT_LEN: nat := 10
  const TOP64: nat := 0x1_0000_0000_0000_0000

  datatype Varint = Value(v: nat, size: nat) | Cut | Overflow

  // How much a varint may still hold from its byte k on, for 64 bits in all.
  function Room(k: nat): (r: nat)
    requires k < MAX_VARINT_LEN
    ensures r >= 2
    decreases MAX_VARINT_LEN - k
  {
    if k == MAX_VARINT_LEN - 1 then 2 else 128 * Room(k + 1)
  }

  // The varint at the head of b, of whose bytes k are already read.
  function VarintFrom(b: seq<byte>, k: nat): (r: Varint)
    ensures r.Value? ==> 0 < r.size <= |b| && k + r.size <= MAX_VARINT_LEN && r.v < Room(k)
  {
    if b == [] then Cut
    else if k >= MAX_VARINT_LEN then Overflow
    else if b[0] < 128 then
      if k == MAX_VARINT_LEN - 1 && b[0] > 1 then Overflow
      else
        assert k < MAX_VARINT_LEN - 1 ==> Room(k) == 128 * Room(k + 1);
        Value(b[0], 1)
    else
      Longer(b[0] - 128, VarintFrom(b[1..], k + 1))
  }

  function VarintOf(b: seq<byte>): (r: Varint)
    ensures r.Value? ==> 0 < r.size <= |b| && r.size <= MAX_VARINT_LEN && r.v < TOP64
  {
    assert Room(0) == TOP64;
    VarintFrom(b, 0)
  }

  function EncodeVarint(v: nat): (b: seq<byte>)
    ensures b != []
  {
    if v < 128 then [v] else [128 + v % 128] + EncodeVarint(v / 128)
  }

  /** What is written is what is read, and nothing past it. */
  lemma {:induction false} VarintReadsBack(v: nat, k: nat, tail: seq<byte>)
    requires k < MAX_VARINT_LEN && v < Room(k)
    ensures VarintFrom(EncodeVarint(v) + tail, k) == Value(v, |EncodeVarint(v)|)
  {
    var b := EncodeVarint(v) + tail;
    if v >= 128 {
      assert b[1..] == EncodeVarint(v / 128) + tail;
      VarintReadsBack(v / 128, k + 1, tail);
    }
  }

  /** Other spellings of a number are read too, and none is shorter. */
  lemma {:induction false} EncodeVarintIsShortest(b: seq<byte>, k: nat)
    requires VarintFrom(b, k).Value?
    ensures |EncodeVarint(VarintFrom(b, k).v)| <= VarintFrom(b, k).size
  {
    if b[0] >= 128 {
      EncodeVarintIsShortest(b[1..], k + 1);
    }
  }

  function Pow128(i: nat): (p: nat)
    ensures p > 0
  {
    if i == 0 then 1 else 128 * Pow128(i - 1)
  }

  // A varint whose first i bytes came to x.
  function After(x: nat, i: nat, rest: Varint): Varint {
    match rest
    case Value(v, size) => Value(x + Pow128(i) * v, i + size)
    case Cut => Cut
    case Overflow => Overflow
  }

  // One byte more, of the varint it goes on with.
  function Longer(digit: nat, rest: Varint): Varint {
    match rest
    case Value(v, size) => Value(digit + 128 * v, size + 1)
    case Cut => Cut
    case Overflow => Overflow
  }

  lemma AfterLonger(x: nat, i: nat, digit: nat, rest: Varint)
    ensures After(x, i, Longer(digit, rest)) == After(x + Pow128(i) * digit, i + 1, rest)
  {
    if rest.Value? {
      var p, v := Pow128(i), rest.v;
      assert p * (digit + 128 * v) == p * digit + 128 * p * v;
    }
  }

  lemma AfterByte(b: seq<byte>, x: nat, i: nat)
    requires i < |b| && i < MAX_VARINT_LEN && b[i] >= 128
    ensures After(x, i, VarintFrom(b[i..], i)) ==
            After(x + Pow128(i) * (b[i] % 128), i + 1, VarintFrom(b[i + 1..], i + 1))
  {
    assert b[i..][1..] == b[i + 1..];
    AfterLonger(x, i, b[i] - 128, VarintFrom(b[i + 1..], i + 1));
  }

  // The first i bytes of b have been added up to x.
  ghost predicate AddedUp(b: seq<byte>, i: nat, x: nat, scale: nat) {
    && i <= |b| && i <= MAX_VARINT_LEN && scale == Pow128(i)
    && VarintOf(b) == After(x, i, VarintFrom(b[i..], i))
  }

  lemma AddByte(b: seq<byte>, i: nat, x: nat, scale: nat)
    requires AddedUp(b, i, x, scale) && i < |b| && i < MAX_VARINT_LEN && b[i] >= 128
    ensures AddedUp(b, i + 1, x + scale * (b[i] % 128), 128 * scale)
  {
    AfterByte(b, x, i);
  }

  lemma LastByte(b: seq<byte>, i: nat, x: nat, scale: nat)
    requires AddedUp(b, i, x, scale) && i < |b| && i < MAX_VARINT_LEN && b[i] < 128
    ensures VarintOf(b) == if i == MAX_VARINT_LEN - 1 && b[i] > 1 then Overflow else Value(x + scale * b[i], i + 1)
  {
  }

  // The varint at the head of b, added up byte by byte.
  method Uvarint(b: seq<byte>) returns (r: Varint)
    ensures r == VarintOf(b)
  {
    var x: nat, scale: nat, i := 0, 1, 0;
    assert b[0..] == b;
    while i < |b|
      invariant AddedUp(b, i, x, scale)
    {
      if i == MAX_VARINT_LEN {
        return Overflow;
      }
      if b[i] < 128 {
        LastByte(b, i, x, scale);
        if i == MAX_VARINT_LEN - 1 && b[i] > 1 {
          return Overflow;
        }
        return Value(x + scale * b[i], i + 1);
      }
      AddByte(b, i, x, scale);
      x, scale, i := x + scale * (b[i] % 128), 128 * scale, i + 1;
    }
    r := Cut;
  }

  // ---- fixed-width numbers -----------------------------------------------

  function LittleEndian(n: nat, k: nat): (b: seq<byte>)
    ensures |b| == k
  {
    if k == 0 then [] else [n % 256] + LittleEndian(n / 256, k - 1)
  }

  function FromLittleEndian(b: seq<byte>): (n: nat)
    ensures n < Pow256(|b|)
  {
    if b == [] then 0 else b[0] + 256 * FromLittleEndian(b[1..])
  }

  lemma {:induction false} LittleEndianReads(n: nat, k: nat)
    requires n < Pow256(k)
    ensures FromLittleEndian(LittleEndian(n, k)) == n
  {
    if k > 0 {
      LittleEndianReads(n / 256, k - 1);
    }
  }

  // ---- fields ------------------------------------------------------------

  const MAX_NUMBER: nat := 0x1FFF_FFFF
  const MAX_DEPTH: nat := 8

  // A field's value by its wire type: 0, 1, 2 and 5.
  datatype Payload = Number(v: nat) | Fixed64(v: nat) | Bytes(data: seq<byte>) | Fixed32(v: nat)

  // What the wire holds of a field, and the field with what its bytes were guessed to be.
  datatype Raw = Raw(number: nat, payload: Payload)
  datatype Field = Field(raw: Raw, nested: seq<Field>)

  datatype Error = BadTag | BadNumber | CutVarint | CutFixed64 | CutBytes | CutFixed32 | BadWire(wire: nat)

  // What the head of a message reads as.
  datatype Head<T> = Got(value: T, size: nat) | Bad(why: Error)

  function PayloadAt(wire: nat, b: seq<byte>): (r: Head<Payload>)
    ensures r.Got? ==> r.size <= |b| && (r.value.Bytes? ==> |r.value.data| < r.size)
  {
    if wire == 0 then
      match VarintOf(b)
      case Value(v, size) => Got(Number(v), size)
      case Cut => Bad(CutVarint)
      case Overflow => Bad(CutVarint)
    else if wire == 1 then
      if |b| < 8 then Bad(CutFixed64) else Got(Fixed64(FromLittleEndian(b[..8])), 8)
    else if wire == 2 then
      match VarintOf(b)
      case Value(v, size) =>
        if v > |b| - size then Bad(CutBytes) else Got(Bytes(b[size..size + v]), size + v)
      case Cut => Bad(CutBytes)
      case Overflow => Bad(CutBytes)
    else if wire == 5 then
      if |b| < 4 then Bad(CutFixed32) else Got(Fixed32(FromLittleEndian(b[..4])), 4)
    else Bad(BadWire(wire))
  }

  function FieldAt(b: seq<byte>): (r: Head<Raw>)
    ensures r.Got? ==> 0 < r.size <= |b| && (r.value.payload.Bytes? ==> |r.value.payload.data| < r.size)
  {
    match VarintOf(b)
    case Cut => Bad(BadTag)
    case Overflow => Bad(BadTag)
    case Value(tag, n) =>
      var number := tag / 8;
      if number == 0 || number > MAX_NUMBER then Bad(BadNumber)
      else
        match PayloadAt(tag % 8, b[n..])
        case Got(p, size) => Got(Raw(number, p), n + size)
        case Bad(why) => Bad(why)
  }

  datatype Decoded = Decoded(fields: seq<Field>, fault: Option<Error>)

  function Onto(head: seq<Field>, d: Decoded): Decoded {
    Decoded(head + d.fields, d.fault)
  }

  /** What a message reads as, field after field, until it ends or cannot be read on. */
  function DecodedAs(msg: seq<byte>, depth: nat): Decoded
    decreases |msg|
  {
    if msg == [] then Decoded([], None)
    else
      match FieldAt(msg)
      case Bad(why) => Decoded([], Some(why))
      case Got(raw, size) => Onto([Field(raw, Guess(raw.payload, depth, |msg|))], DecodedAs(msg[size..], depth))
  }

  // The bytes of a field as a message, when they read as one.
  function Guess(p: Payload, depth: nat, within: nat): seq<Field>
    requires p.Bytes? ==> |p.data| < within
    decreases within, 0
  {
    if p.Bytes? && depth < MAX_DEPTH && p.data != [] then
      var d := DecodedAs(p.data, depth + 1);
      if d.fault.None? then d.fields else []
    else []
  }

  // The bytes of one field's payload, with how many there were.
  method ReadPayload(wire: nat, b: seq<byte>) returns (r: Head<Payload>)
    ensures r == PayloadAt(wire, b)
  {
    match wire {
      case 0 =>
        var v := Uvarint(b);
        if !v.Value? {
          return Bad(CutVarint);
        }
        r := Got(Number(v.v), v.size);
      case 1 =>
        if |b| < 8 {
          return Bad(CutFixed64);
        }
        r := Got(Fixed64(FromLittleEndian(b[..8])), 8);
      case 2 =>
        var l := Uvarint(b);
        if !l.Value? || l.v > |b| - l.size {
          return Bad(CutBytes);
        }
        r := Got(Bytes(b[l.size..l.size + l.v]), l.size + l.v);
      case 5 =>
        if |b| < 4 {
          return Bad(CutFixed32);
        }
        r := Got(Fixed32(FromLittleEndian(b[..4])), 4);
      case _ => r := Bad(BadWire(wire));
    }
  }

  // One field: its tag, and then what the wire type says.
  method ReadField(b: seq<byte>) returns (r: Head<Raw>)
    ensures r == FieldAt(b)
  {
    var tag := Uvarint(b);
    if !tag.Value? {
      return Bad(BadTag);
    }
    var number, wire := tag.v / 8, tag.v % 8;
    if number == 0 || number > MAX_NUMBER {
      return Bad(BadNumber);
    }
    var p := ReadPayload(wire, b[tag.size..]);
    match p {
      case Got(value, size) => r := Got(Raw(number, value), tag.size + size);
      case Bad(why) => r := Bad(why);
    }
  }

  method Decode(msg: seq<byte>, depth: nat) returns (out: seq<Field>, fault: Option<Error>)
    ensures Decoded(out, fault) == DecodedAs(msg, depth)
    decreases |msg|, 1
  {
    out, fault := [], None;
    var left := msg;
    while |left| > 0
      invariant |left| <= |msg| && Onto(out, DecodedAs(left, depth)) == DecodedAs(msg, depth)
      decreases |left|
    {
      var r := ReadField(left);
      if r.Bad? {
        return out, Some(r.why);
      }
      var nested := Nested(r.value.payload, depth, |left|);
      left := left[r.size..];
      out := out + [Field(r.value, nested)];
    }
  }

  method Nested(p: Payload, depth: nat, ghost within: nat) returns (nested: seq<Field>)
    requires p.Bytes? ==> |p.data| < within
    ensures nested == Guess(p, depth, within)
    decreases within, 0
  {
    nested := [];
    if p.Bytes? && depth < MAX_DEPTH && |p.data| > 0 {
      var guess, fault := Decode(p.data, depth + 1);
      if fault.None? && |guess| > 0 {
        nested := guess;
      }
    }
  }

  // ---- writing and reading back ------------------------------------------

  function Wire(p: Payload): nat {
    match p
    case Number(_) => 0
    case Fixed64(_) => 1
    case Bytes(_) => 2
    case Fixed32(_) => 5
  }

  // What an encoder may write: a number in range and a value that fits its wire type.
  predicate Legal(r: Raw) {
    && 1 <= r.number <= MAX_NUMBER
    && match r.payload
       case Number(v) => v < TOP64
       case Fixed64(v) => v < Pow256(8)
       case Bytes(data) => |data| < TOP64
       case Fixed32(v) => v < Pow256(4)
  }

  function EncodePayload(p: Payload): seq<byte> {
    match p
    case Number(v) => EncodeVarint(v)
    case Fixed64(v) => LittleEndian(v, 8)
    case Bytes(data) => EncodeVarint(|data|) + data
    case Fixed32(v) => LittleEndian(v, 4)
  }

  function Tag(r: Raw): nat {
    8 * r.number + Wire(r.payload)
  }

  function EncodeField(r: Raw): seq<byte> {
    EncodeVarint(Tag(r)) + EncodePayload(r.payload)
  }

  function Encode(raws: seq<Raw>): seq<byte> {
    if raws == [] then [] else EncodeField(raws[0]) + Encode(raws[1..])
  }

  function Raws(fields: seq<Field>): (r: seq<Raw>)
    ensures |r| == |fields| && forall i :: 0 <= i < |r| ==> r[i] == fields[i].raw
  {
    seq(|fields|, i requires 0 <= i < |fields| => fields[i].raw)
  }

  lemma BytesReadBack(data: seq<byte>, tail: seq<byte>)
    requires |data| < TOP64
    ensures PayloadAt(2, EncodeVarint(|data|) + data + tail) == Got(Bytes(data), |EncodeVarint(|data|)| + |data|)
  {
    var l := EncodeVarint(|data|);
    assert Room(0) == TOP64;
    VarintReadsBack(|data|, 0, data + tail);
    Spliced(l, data, tail);
    assert (l + (data + tail))[|l|..|l| + |data|] == data;
  }

  lemma PayloadReadsBack(p: Payload, tail: seq<byte>)
    requires Legal(Raw(1, p))
    ensures PayloadAt(Wire(p), EncodePayload(p) + tail) == Got(p, |EncodePayload(p)|)
  {
    var b := EncodePayload(p) + tail;
    assert Room(0) == TOP64;
    match p
    case Number(v) => VarintReadsBack(v, 0, tail);
    case Fixed64(v) =>
      LittleEndianReads(v, 8);
      assert b[..8] == LittleEndian(v, 8);
    case Bytes(data) => BytesReadBack(data, tail);
    case Fixed32(v) =>
      LittleEndianReads(v, 4);
      assert b[..4] == LittleEndian(v, 4);
  }

  lemma FieldReadsBack(r: Raw, tail: seq<byte>)
    requires Legal(r)
    ensures FieldAt(EncodeField(r) + tail) == Got(r, |EncodeField(r)|)
  {
    var tag := Tag(r);
    var head, p := EncodeVarint(tag), EncodePayload(r.payload);
    VarintReadsBack(tag, 0, p + tail);
    PayloadReadsBack(r.payload, tail);
    Spliced(head, p, tail);
    TaggedField(head + (p + tail), tag, |head|);
  }

  lemma Spliced(a: seq<byte>, b: seq<byte>, c: seq<byte>)
    ensures a + b + c == a + (b + c) && (a + (b + c))[|a|..] == b + c
  {
  }

  // A field whose tag is read.
  lemma TaggedField(b: seq<byte>, tag: nat, n: nat)
    requires VarintOf(b) == Value(tag, n) && 1 <= tag / 8 <= MAX_NUMBER && PayloadAt(tag % 8, b[n..]).Got?
    ensures FieldAt(b) == var p := PayloadAt(tag % 8, b[n..]); Got(Raw(tag / 8, p.value), n + p.size)
  {
  }

  /** Decoding undoes encoding: every field comes back, in order, whatever it may also be guessed to hold. */
  lemma {:induction false} DecodeUndoesEncode(raws: seq<Raw>, depth: nat)
    requires forall i :: 0 <= i < |raws| ==> Legal(raws[i])
    ensures DecodedAs(Encode(raws), depth).fault == None
    ensures Raws(DecodedAs(Encode(raws), depth).fields) == raws
  {
    if raws != [] {
      var head, tail := EncodeField(raws[0]), Encode(raws[1..]);
      FieldReadsBack(raws[0], tail);
      assert (head + tail)[|head|..] == tail;
      DecodeUndoesEncode(raws[1..], depth);
    }
  }

  // ---- tiling ------------------------------------------------------------

  // The stretches of bytes the fields of a message were read from.
  function Tiles(msg: seq<byte>): seq<seq<byte>> {
    match FieldAt(msg)
    case Bad(_) => []
    case Got(_, size) => [msg[..size]] + Tiles(msg[size..])
  }

  function Flat(tiles: seq<seq<byte>>): seq<byte> {
    if tiles == [] then [] else tiles[0] + Flat(tiles[1..])
  }

  // What of a message could not be read.
  function Unread(msg: seq<byte>): seq<byte> {
    match FieldAt(msg)
    case Bad(_) => msg
    case Got(_, size) => Unread(msg[size..])
  }

  // A field is settled by its own bytes: what follows them does not matter.
  lemma {:induction false} VarintIsLocal(b: seq<byte>, k: nat, tail: seq<byte>)
    requires VarintFrom(b, k).Value?
    ensures VarintFrom(b[..VarintFrom(b, k).size] + tail, k) == VarintFrom(b, k)
  {
    var r := VarintFrom(b, k);
    if b[0] >= 128 {
      VarintIsLocal(b[1..], k + 1, tail);
      assert (b[..r.size] + tail)[1..] == b[1..][..r.size - 1] + tail;
    }
  }

  lemma PayloadIsLocal(wire: nat, b: seq<byte>)
    requires PayloadAt(wire, b).Got?
    ensures PayloadAt(wire, b[..PayloadAt(wire, b).size]) == PayloadAt(wire, b)
  {
    var size := PayloadAt(wire, b).size;
    var own := b[..size];
    if wire == 0 || wire == 2 {
      var n := VarintOf(b).size;
      VarintIsLocal(b, 0, own[n..]);
      assert b[..n] + own[n..] == own;
      if wire == 2 {
        assert own[n..size] == b[n..size];
      }
    } else {
      assert own[..size] == own;
    }
  }

  lemma FieldIsLocal(b: seq<byte>)
    requires FieldAt(b).Got?
    ensures FieldAt(b[..FieldAt(b).size]) == FieldAt(b)
  {
    var size, n, tag := FieldAt(b).size, VarintOf(b).size, VarintOf(b).v;
    var own := b[..size];
    VarintIsLocal(b, 0, own[n..]);
    assert b[..n] + own[n..] == own;
    PayloadIsLocal(tag % 8, b[n..]);
    assert own[n..] == b[n..][..size - n];
    TaggedField(own, tag, n);
    TaggedField(b, tag, n);
  }

  // Tile i is one field's and reads as that field alone.
  ghost predicate IsTile(tile: seq<byte>, f: Field, depth: nat) {
    tile != [] && DecodedAs(tile, depth) == Decoded([f], None)
  }

  lemma OneTile(msg: seq<byte>, depth: nat)
    requires FieldAt(msg).Got?
    ensures IsTile(msg[..FieldAt(msg).size], DecodedAs(msg, depth).fields[0], depth)
  {
    FieldIsLocal(msg);
    var size := FieldAt(msg).size;
    assert msg[..size][size..] == [];
    GuessIsWithin(FieldAt(msg).value.payload, depth, |msg|, size);
  }

  // How much was around a field does not matter to the guess.
  lemma GuessIsWithin(p: Payload, depth: nat, a: nat, b: nat)
    requires p.Bytes? ==> |p.data| < a && |p.data| < b
    ensures Guess(p, depth, a) == Guess(p, depth, b)
  {
  }

  lemma {:induction false} TilesCover(msg: seq<byte>)
    ensures Flat(Tiles(msg)) + Unread(msg) == msg
    ensures FieldAt(Unread(msg)).Bad?
    decreases |msg|
  {
    if FieldAt(msg).Got? {
      var size := FieldAt(msg).size;
      TilesCover(msg[size..]);
      assert msg == msg[..size] + msg[size..];
      Joined(msg[..size], Flat(Tiles(msg[size..])), Unread(msg), msg[size..]);
    }
  }

  lemma Joined(a: seq<byte>, b: seq<byte>, c: seq<byte>, bc: seq<byte>)
    requires b + c == bc
    ensures (a + b) + c == a + bc
  {
  }

  lemma {:induction false} TilesRead(msg: seq<byte>, depth: nat, i: nat)
    ensures |Tiles(msg)| == |DecodedAs(msg, depth).fields|
    ensures i < |Tiles(msg)| ==> IsTile(Tiles(msg)[i], DecodedAs(msg, depth).fields[i], depth)
    decreases |msg|
  {
    if FieldAt(msg).Got? {
      OneTile(msg, depth);
      TilesRead(msg[FieldAt(msg).size..], depth, if i == 0 then 0 else i - 1);
    }
  }

  lemma {:induction false} FaultIsTheUnread(msg: seq<byte>, depth: nat)
    ensures var fault, left := DecodedAs(msg, depth).fault, Unread(msg);
            if fault == None then left == [] else left != [] && FieldAt(left) == Bad(fault.value)
    decreases |msg|
  {
    if FieldAt(msg).Got? {
      FaultIsTheUnread(msg[FieldAt(msg).size..], depth);
    }
  }

  /**
   * The fields tile the message: each is read from its own stretch, the stretches follow
   * one another from the first byte, and bytes are left over only where reading failed.
   */
  lemma FieldsTile(msg: seq<byte>, depth: nat)
    ensures var d := DecodedAs(msg, depth);
            && |Tiles(msg)| == |d.fields|
            && (forall i :: 0 <= i < |d.fields| ==> IsTile(Tiles(msg)[i], d.fields[i], depth))
            && Flat(Tiles(msg)) + Unread(msg) == msg
            && (d.fault == None <==> Unread(msg) == [])
            && (d.fault.Some? ==> FieldAt(Unread(msg)) == Bad(d.fault.value))
  {
    TilesCover(msg);
    FaultIsTheUnread(msg, depth);
    TilesRead(msg, depth, 0);
    forall i | 0 <= i < |Tiles(msg)| ensures IsTile(Tiles(msg)[i], DecodedAs(msg, depth).fields[i], depth) {
      TilesRead(msg, depth, i);
    }
  }

  lemma {:induction false} RawsAreLegal(msg: seq<byte>, depth: nat)
    requires |msg| < TOP64
    ensures forall i :: 0 <= i < |DecodedAs(msg, depth).fields| ==> Legal(DecodedAs(msg, depth).fields[i].raw)
    decreases |msg|
  {
    if FieldAt(msg).Got? {
      RawsAreLegal(msg[FieldAt(msg).size..], depth);
    }
  }

  // ---- nesting -----------------------------------------------------------

  // How many messages deep the guesses go.
  function Depth(fields: seq<Field>): nat {
    if fields == [] then 0
    else
      var first := if fields[0].nested == [] then 0 else 1 + Depth(fields[0].nested);
      var rest := Depth(fields[1..]);
      if first > rest then first else rest
  }

  /** Guessing stops at MAX_DEPTH, however the message is made. */
  lemma {:induction false} NestingIsBounded(msg: seq<byte>, depth: nat)
    requires depth <= MAX_DEPTH
    ensures Depth(DecodedAs(msg, depth).fields) + depth <= MAX_DEPTH
    decreases |msg|
  {
    if FieldAt(msg).Got? {
      var r := FieldAt(msg);
      NestingIsBounded(msg[r.size..], depth);
      if r.value.payload.Bytes? && depth < MAX_DEPTH {
        NestingIsBounded(r.value.payload.data, depth + 1);
      }
    }
  }

  /** How deep reading started changes the guesses only: the fields themselves, and any fault, are the same. */
  lemma {:induction false} DepthOnlyGuesses(msg: seq<byte>, d1: nat, d2: nat)
    ensures DecodedAs(msg, d1).fault == DecodedAs(msg, d2).fault
    ensures Raws(DecodedAs(msg, d1).fields) == Raws(DecodedAs(msg, d2).fields)
    decreases |msg|
  {
    if FieldAt(msg).Got? {
      DepthOnlyGuesses(msg[FieldAt(msg).size..], d1, d2);
    }
  }

  /**
   * A field is shown with nested fields exactly when its bytes, alone, read as a message
   * to their end, and the limit is not reached; and what is shown are that message's fields.
   */
  lemma {:induction false} NestedIsAMessage(msg: seq<byte>, depth: nat, i: nat)
    requires i < |DecodedAs(msg, depth).fields|
    ensures var f := DecodedAs(msg, depth).fields[i];
            && (f.nested != [] <==> f.raw.payload.Bytes? && depth < MAX_DEPTH && f.raw.payload.data != []
                                    && DecodedAs(f.raw.payload.data, 0).fault == None)
            && (f.nested != [] ==> Decoded(f.nested, None) == DecodedAs(f.raw.payload.data, depth + 1))
    decreases |msg|
  {
    var r := FieldAt(msg);
    if i > 0 {
      NestedIsAMessage(msg[r.size..], depth, i - 1);
    } else {
      GuessIsAMessage(r.value.payload, depth, |msg|);
    }
  }

  lemma GuessIsAMessage(p: Payload, depth: nat, within: nat)
    requires p.Bytes? ==> |p.data| < within
    ensures var g := Guess(p, depth, within);
            && (g != [] <==> p.Bytes? && depth < MAX_DEPTH && p.data != [] && DecodedAs(p.data, 0).fault == None)
            && (g != [] ==> Decoded(g, None) == DecodedAs(p.data, depth + 1))
  {
    if p.Bytes? {
      DepthOnlyGuesses(p.data, 0, depth + 1);
    }
  }

  // ---- the wire types by their numbers -----------------------------------

  /** A number of two bytes, least significant first, as the format's own first example spells 150. */
  lemma TwoByteVarint(low: byte, high: byte, tail: seq<byte>)
    requires low >= 128 && high < 128
    ensures VarintOf([low, high] + tail) == Value(low - 128 + 128 * high, 2)
  {
    var b := [low, high] + tail;
    assert b[0] == low && b[1..] == [high] + tail && b[1..][0] == high;
    assert VarintFrom(b[1..], 1) == Value(high, 1);
  }

  lemma OneByteVarint(v: byte, tail: seq<byte>)
    requires v < 128
    ensures VarintOf([v] + tail) == Value(v, 1)
  {
    assert ([v] + tail)[0] == v;
  }

  lemma FourBytes(a: byte, b: byte, c: byte, d: byte)
    ensures FromLittleEndian([a, b, c, d]) == a + 0x100 * b + 0x1_0000 * c + 0x100_0000 * d
  {
    assert [d][1..] == [] && FromLittleEndian([d]) == d;
    assert [c, d][1..] == [d] && FromLittleEndian([c, d]) == c + 256 * d;
    assert [b, c, d][1..] == [c, d] && FromLittleEndian([b, c, d]) == b + 256 * (c + 256 * d);
    assert [a, b, c, d][1..] == [b, c, d];
  }

  /** What follows a tag goes by its low three bits: 0 a number, 1 and 5 eight and four bytes, 2 bytes with a length. */
  lemma WireTypesAre(v: byte, data: seq<byte>, eight: seq<byte>, four: seq<byte>, tail: seq<byte>)
    requires v < 128 && |data| < 128 && |eight| == 8 && |four| == 4
    ensures PayloadAt(0, [v] + tail) == Got(Number(v), 1)
    ensures PayloadAt(1, eight + tail) == Got(Fixed64(FromLittleEndian(eight)), 8)
    ensures PayloadAt(2, [|data|] + data + tail) == Got(Bytes(data), 1 + |data|)
    ensures PayloadAt(3, tail) == Bad(BadWire(3)) && PayloadAt(4, tail) == Bad(BadWire(4))
    ensures PayloadAt(5, four + tail) == Got(Fixed32(FromLittleEndian(four)), 4)
    ensures PayloadAt(6, tail) == Bad(BadWire(6)) && PayloadAt(7, tail) == Bad(BadWire(7))
  {
    OneByteVarint(v, tail);
    OneByteVarint(|data|, data + tail);
    assert [|data|] + data + tail == [|data|] + (data + tail);
    assert (eight + tail)[..8] == eight && (four + tail)[..4] == four;
    assert ([|data|] + data + tail)[1..1 + |data|] == data;
  }

  /** And a tag of one byte is the field's number and those bits. */
  lemma TagsAre(number: nat, wire: nat, tail: seq<byte>)
    requires number < 16 && wire < 8
    ensures FieldAt([8 * number + wire] + tail) ==
            if number == 0 then Bad(BadNumber)
            else
              match PayloadAt(wire, tail)
              case Got(p, size) => Got(Raw(number, p), 1 + size)
              case Bad(why) => Bad(why)
  {
    var b := [8 * number + wire] + tail;
    OneByteVarint(8 * number + wire, tail);
    assert (8 * number + wire) / 8 == number && (8 * number + wire) % 8 == wire && b[1..] == tail;
  }
}
