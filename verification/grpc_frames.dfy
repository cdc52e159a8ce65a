/** gRPC framing: a body as length-prefixed messages, at most MAX_FRAMES of them read. */
module GrpcFrames {
  import Base64Chunks
  import opened Bytes
  import opened ProtoWire
  import opened Wrappers

  datatype Kind = Grpc | Web | WebText

  // What the grpc-encoding header names, lower-cased.
  datatype Encoding = Gzip | Undeclared | Foreign

  const MAX_FRAMES: nat := 200

  datatype FrameError = NotGunzipped | NoEncoding | NotDecoded | BadMessage(why: Error)

  datatype Frame = Frame(
    index: nat, compressed: bool, trailer: bool, length: nat, raw: seq<byte>, fields: seq<Field>,
    fault: Option<FrameError>)

  datatype FramingError = NotBase64 | TrailingBytes(n: nat) | Overrun(index: nat, says: nat, remain: nat)

  datatype Frames = Frames(frames: seq<Frame>, fault: Option<FramingError>)

  // ---- one frame ---------------------------------------------------------

  // A frame on the wire: its flags, and the message it carries.
  datatype Part = Part(flags: byte, message: seq<byte>)

  // How a message reads once its compression is undone, given what gunzip makes of it.
  function Opened(part: Part, encoding: Encoding, gunzip: Option<seq<byte>>): (seq<byte>, Option<FrameError>) {
    if part.flags % 2 == 0 then (part.message, None)
    else
      match encoding
      case Gzip => if gunzip.Some? then (gunzip.value, None) else (part.message, Some(NotGunzipped))
      case Undeclared => (part.message, Some(NoEncoding))
      case Foreign => (part.message, Some(NotDecoded))
  }

  // What a body is read with; gunzip stands for the decompressor.
  datatype Reading = Reading(kind: Kind, encoding: Encoding, gunzip: seq<byte> -> Option<seq<byte>>)

  /** The frame a part is shown as: what the flags say of it, and its fields if it is a message that can be read. */
  function Shown(part: Part, how: Reading, index: nat): Frame {
    var trailer := !how.kind.Grpc? && part.flags >= 128;
    var (raw, fault) := Opened(part, how.encoding, how.gunzip(part.message));
    var d := if fault.Some? || trailer then Decoded([], None) else DecodedAs(raw, 0);
    Frame(index, part.flags % 2 == 1, trailer, |part.message|, raw, d.fields,
          if fault.Some? then fault else if d.fault.Some? then Some(BadMessage(d.fault.value)) else None)
  }

  // ---- the body ----------------------------------------------------------

  // The part at the head of a body: a byte of flags, four of length, and the message.
  datatype PartRead = Found(part: Part, size: nat) | Short(n: nat) | Long(says: nat, remain: nat)

  function PartAt(body: seq<byte>): (r: PartRead)
    ensures r.Found? ==> 5 <= r.size <= |body|
  {
    if |body| < 5 then Short(|body|)
    else
      var n := FromBigEndian(body[1..5]);
      if n > |body| - 5 then Long(n, |body| - 5) else Found(Part(body[0], body[5..5 + n]), 5 + n)
  }

  // The parts of a body, as many as are read, and why reading stopped before its end, if it did.
  datatype Parts = Parts(parts: seq<Part>, fault: Option<FramingError>)

  function PartsOf(body: seq<byte>, index: nat): Parts
    requires index <= MAX_FRAMES
    decreases MAX_FRAMES - index
  {
    if body == [] || index == MAX_FRAMES then Parts([], None)
    else
      match PartAt(body)
      case Short(n) => Parts([], Some(TrailingBytes(n)))
      case Long(says, remain) => Parts([], Some(Overrun(index, says, remain)))
      case Found(part, size) =>
        var rest := PartsOf(body[size..], index + 1);
        Parts([part] + rest.parts, rest.fault)
  }

  function ShownAll(parts: seq<Part>, how: Reading): (r: seq<Frame>)
    ensures |r| == |parts|
  {
    if parts == [] then []
    else
      var last := |parts| - 1;
      ShownAll(parts[..last], how) + [Shown(parts[last], how, last)]
  }

  lemma {:induction false} ShownAt(parts: seq<Part>, how: Reading, i: nat)
    requires i < |parts|
    ensures ShownAll(parts, how)[i] == Shown(parts[i], how, i)
  {
    if i < |parts| - 1 {
      ShownAt(parts[..|parts| - 1], how, i);
    }
  }

  function FramesOf(body: seq<byte>, how: Reading): Frames {
    var p := PartsOf(body, 0);
    Frames(ShownAll(p.parts, how), p.fault)
  }

  // A body as it was sent: grpc-web-text is base64 all over.
  function FramesSent(body: seq<byte>, how: Reading): Frames {
    if how.kind != WebText then FramesOf(body, how)
    else
      match Base64Chunks.ChunksDecoded(body)
      case None => Frames([], Some(NotBase64))
      case Some(plain) => FramesOf(plain, how)
  }

  function AfterParts(done: seq<Part>, rest: Parts): Parts {
    Parts(done + rest.parts, rest.fault)
  }

  lemma PartsMore(done: seq<Part>, left: seq<byte>)
    requires |done| < MAX_FRAMES && PartAt(left).Found?
    ensures var p := PartAt(left);
            AfterParts(done, PartsOf(left, |done|)) == AfterParts(done + [p.part], PartsOf(left[p.size..], |done| + 1))
  {
  }

  method Show(part: Part, how: Reading, index: nat)
    returns (f: Frame)
    ensures f == Shown(part, how, index)
  {
    var raw, fault, fields := part.message, None, [];
    if part.flags % 2 == 1 {
      match how.encoding {
        case Gzip =>
          var plain := how.gunzip(part.message);
          if plain.None? {
            fault := Some(NotGunzipped);
          } else {
            raw := plain.value;
          }
        case Undeclared => fault := Some(NoEncoding);
        case Foreign => fault := Some(NotDecoded);
      }
    }
    var trailer := how.kind != Grpc && part.flags >= 128;
    if fault.None? && !trailer {
      var why;
      fields, why := Decode(raw, 0);
      fault := if why.Some? then Some(BadMessage(why.value)) else None;
    }
    f := Frame(index, part.flags % 2 == 1, trailer, |part.message|, raw, fields, fault);
  }

  // Why a body is not read on, if there is a reason.
  function FaultAt(left: seq<byte>, index: nat): Option<FramingError> {
    if left == [] || index == MAX_FRAMES then None
    else
      match PartAt(left)
      case Short(n) => Some(TrailingBytes(n))
      case Long(says, remain) => Some(Overrun(index, says, remain))
      case Found(_, _) => None
  }

  // The frames so far are those of the parts read, and the parts to come are those of what is left.
  ghost predicate Halfway(out: seq<Frame>, done: seq<Part>, left: seq<byte>, whole: seq<byte>, how: Reading) {
    && |out| == |done| <= MAX_FRAMES && out == ShownAll(done, how)
    && AfterParts(done, PartsOf(left, |done|)) == PartsOf(whole, 0)
  }

  lemma OnePart(out: seq<Frame>, done: seq<Part>, left: seq<byte>, whole: seq<byte>, how: Reading,
                part: Part, size: nat)
    requires Halfway(out, done, left, whole, how) && |done| < MAX_FRAMES && PartAt(left) == Found(part, size)
    ensures Halfway(out + [Shown(part, how, |out|)], done + [part], left[size..], whole, how)
  {
    PartsMore(done, left);
    assert |done + [part]| == |done| + 1;
  }

  lemma NoMoreParts(out: seq<Frame>, done: seq<Part>, left: seq<byte>, whole: seq<byte>, how: Reading)
    requires Halfway(out, done, left, whole, how)
    requires left == [] || |done| == MAX_FRAMES || !PartAt(left).Found?
    ensures FramesOf(whole, how) == Frames(out, FaultAt(left, |out|))
  {
    assert done + [] == done;
  }

  method ReadPart(body: seq<byte>) returns (r: PartRead)
    ensures r == PartAt(body)
  {
    if |body| < 5 {
      return Short(|body|);
    }
    var flags, n := body[0], FromBigEndian(body[1..5]);
    r := if n > |body| - 5 then Long(n, |body| - 5) else Found(Part(flags, body[5..5 + n]), 5 + n);
  }

  /** Split cuts a body into the frames it is made of, once its text is decoded. */
  method Split(body: seq<byte>, how: Reading) returns (r: Frames)
    ensures r == FramesSent(body, how)
  {
    var plain := Some(body);
    if how.kind == WebText {
      plain := Base64Chunks.DecodeChunks(body);
    }
    match plain {
      case None => r := Frames([], Some(NotBase64));
      case Some(whole) => r := Cut(whole, how);
    }
  }

  // The frames of a body, one after the other.
  method Cut(whole: seq<byte>, how: Reading) returns (r: Frames)
    ensures r == FramesOf(whole, how)
  {
    var out: seq<Frame> := [];
    var left := whole;
    ghost var done: seq<Part> := [];
    while |left| > 0 && |out| < MAX_FRAMES
      invariant Halfway(out, done, left, whole, how)
      decreases MAX_FRAMES - |out|
    {
      var r := ReadPart(left);
      if !r.Found? {
        NoMoreParts(out, done, left, whole, how);
        return Frames(out, Some(if r.Short? then TrailingBytes(r.n) else Overrun(|out|, r.says, r.remain)));
      }
      OnePart(out, done, left, whole, how, r.part, r.size);
      var f := Show(r.part, how, |out|);
      left := left[r.size..];
      out := out + [f];
      done := done + [r.part];
    }
    NoMoreParts(out, done, left, whole, how);
    return Frames(out, None);
  }

  // ---- writing and reading back ------------------------------------------

  predicate Fits(p: Part) {
    |p.message| < Pow256(4)
  }

  function WritePart(p: Part): seq<byte> {
    [p.flags] + BigEndian(|p.message|, 4) + p.message
  }

  function Write(parts: seq<Part>): seq<byte> {
    if parts == [] then [] else WritePart(parts[0]) + Write(parts[1..])
  }

  lemma PartReadsBack(p: Part, tail: seq<byte>)
    requires Fits(p)
    ensures PartAt(WritePart(p) + tail) == Found(p, |WritePart(p)|)
  {
    var body := WritePart(p) + tail;
    BigEndianReads(|p.message|, 4);
    assert body[1..5] == BigEndian(|p.message|, 4);
    assert body[5..5 + |p.message|] == p.message;
  }

  lemma PartWritesBack(body: seq<byte>)
    requires PartAt(body).Found?
    ensures Fits(PartAt(body).part) && WritePart(PartAt(body).part) + body[PartAt(body).size..] == body
  {
    var size := PartAt(body).size;
    BigEndianWrites(body[1..5]);
    assert body[..1] + body[1..5] + body[5..size] + body[size..] == body;
  }

  function Taken(parts: seq<Part>, n: nat): seq<Part> {
    if parts == [] || n == 0 then [] else [parts[0]] + Taken(parts[1..], n - 1)
  }

  lemma {:induction false} TakenIsPrefix(parts: seq<Part>, n: nat)
    ensures Taken(parts, n) == if |parts| <= n then parts else parts[..n]
  {
    if parts != [] && n > 0 {
      TakenIsPrefix(parts[1..], n - 1);
      assert [parts[0]] + parts[1..] == parts;
      assert |parts| > n ==> [parts[0]] + parts[1..][..n - 1] == parts[..n];
    }
  }

  lemma {:induction false} WrittenAreTaken(parts: seq<Part>, index: nat)
    requires index <= MAX_FRAMES && forall p :: p in parts ==> Fits(p)
    ensures PartsOf(Write(parts), index) == Parts(Taken(parts, MAX_FRAMES - index), None)
    decreases |parts|
  {
    if parts != [] && index < MAX_FRAMES {
      FirstReadsBack(parts, index);
      WrittenAreTaken(parts[1..], index + 1);
    }
  }

  /** Splitting undoes writing, for the first MAX_FRAMES parts: the rest is left unread without a word. */
  lemma SplitUndoesWrite(parts: seq<Part>)
    requires forall p :: p in parts ==> Fits(p)
    ensures PartsOf(Write(parts), 0) == Parts(if |parts| <= MAX_FRAMES then parts else parts[..MAX_FRAMES], None)
  {
    WrittenAreTaken(parts, 0);
    TakenIsPrefix(parts, MAX_FRAMES);
  }

  lemma FirstReadsBack(parts: seq<Part>, index: nat)
    requires parts != [] && Fits(parts[0]) && index < MAX_FRAMES
    ensures PartsOf(Write(parts), index) == AfterParts([parts[0]], PartsOf(Write(parts[1..]), index + 1))
  {
    var head, tail := WritePart(parts[0]), Write(parts[1..]);
    PartReadsBack(parts[0], tail);
    assert (head + tail)[|head|..] == tail;
  }

  // What a split did not come to.
  function Beyond(body: seq<byte>, index: nat): seq<byte>
    requires index <= MAX_FRAMES
    decreases MAX_FRAMES - index
  {
    if body == [] || index == MAX_FRAMES || !PartAt(body).Found? then body
    else Beyond(body[PartAt(body).size..], index + 1)
  }

  lemma WriteMore(part: Part, rest: seq<Part>, left: seq<byte>, tail: seq<byte>)
    requires Write(rest) + left == tail
    ensures Write([part] + rest) + left == WritePart(part) + tail
  {
    assert ([part] + rest)[1..] == rest;
    Spliced(WritePart(part), Write(rest), left);
  }

  lemma {:induction false} PartsWriteBack(body: seq<byte>, index: nat)
    requires index <= MAX_FRAMES
    ensures Write(PartsOf(body, index).parts) + Beyond(body, index) == body
    decreases MAX_FRAMES - index
  {
    if body != [] && index < MAX_FRAMES && PartAt(body).Found? {
      var p := PartAt(body);
      var tail := body[p.size..];
      PartsWriteBack(tail, index + 1);
      PartWritesBack(body);
      WriteMore(p.part, PartsOf(tail, index + 1).parts, Beyond(tail, index + 1), tail);
    }
  }

  lemma {:induction false} WhatIsLeft(body: seq<byte>, index: nat)
    requires index <= MAX_FRAMES
    ensures var p, left := PartsOf(body, index), Beyond(body, index);
            && |p.parts| <= MAX_FRAMES - index
            && (p.fault.Some? <==> left != [] && |p.parts| < MAX_FRAMES - index)
            && (p.fault.Some? ==> !PartAt(left).Found?)
    decreases MAX_FRAMES - index
  {
    if body != [] && index < MAX_FRAMES && PartAt(body).Found? {
      WhatIsLeft(body[PartAt(body).size..], index + 1);
    }
  }

  /**
   * Writing undoes splitting: the parts, written back, are the body from its first byte.
   * What is left over is nothing, or lies past the last frame allowed, or is the bad framing reported.
   */
  lemma WriteUndoesSplit(body: seq<byte>)
    ensures var p, left := PartsOf(body, 0), Beyond(body, 0);
            && Write(p.parts) + left == body
            && |p.parts| <= MAX_FRAMES
            && (p.fault.Some? <==> left != [] && |p.parts| < MAX_FRAMES)
            && (p.fault.Some? ==> !PartAt(left).Found?)
  {
    PartsWriteBack(body, 0);
    WhatIsLeft(body, 0);
  }

  /**
   * A message sent plain, in frames, is shown with the fields it was encoded from; as
   * grpc-web-text too, however its frames are cut into pieces, if each is padded or needs no padding.
   */
  lemma PlainFramesShowTheirFields(messages: seq<seq<Raw>>, i: nat, how: Reading, pieces: seq<Base64Chunks.Piece>)
    requires i < |messages| <= MAX_FRAMES
    requires forall m :: m in messages ==> |Encode(m)| < Pow256(4) && forall j :: 0 <= j < |m| ==> Legal(m[j])
    requires how.kind == WebText ==>
               Base64Chunks.Contents(pieces) == Write(Plain(messages))
               && forall j :: 0 <= j < |pieces| ==> Base64Chunks.Closed(pieces[j])
    ensures var r := FramesSent(if how.kind == WebText then Base64Chunks.Text(pieces) else Write(Plain(messages)), how);
            && r.fault.None? && |r.frames| == |messages|
            && r.frames[i].index == i && r.frames[i].fault.None? && Raws(r.frames[i].fields) == messages[i]
  {
    var parts := Plain(messages);
    forall p | p in parts ensures Fits(p) {
      var j :| 0 <= j < |parts| && parts[j] == p;
      assert messages[j] in messages;
    }
    Base64Chunks.BackToBack(pieces);
    SplitUndoesWrite(parts);
    ShownAt(parts, how, i);
    PlainIsShown(messages[i], how, i);
  }

  // What a part carries once its compression is undone, if it can be.
  function PlainOf(part: Part, how: Reading): Option<seq<byte>> {
    if part.flags % 2 == 0 then Some(part.message)
    else if how.encoding.Gzip? then how.gunzip(part.message)
    else None
  }

  /**
   * A frame has nothing against it exactly when its compression could be undone and, unless it
   * is a trailer, what came out reads as fields to its end. Then those are the fields shown;
   * a trailer shows none, and neither does what stayed compressed.
   */
  lemma ShownExactly(part: Part, how: Reading, i: nat)
    ensures var f, plain := Shown(part, how, i), PlainOf(part, how);
            && (f.fault.None? <==> plain.Some? && (f.trailer || Unread(plain.value) == []))
            && f.raw == (if plain.Some? then plain.value else part.message)
            && (f.trailer || plain.None? ==> f.fields == [])
            && (!f.trailer && plain.Some? ==>
                  && |f.fields| == |Tiles(f.raw)|
                  && forall j :: 0 <= j < |f.fields| ==> IsTile(Tiles(f.raw)[j], f.fields[j], 0))
  {
    var plain := PlainOf(part, how);
    if plain.Some? {
      FieldsTile(plain.value, 0);
    }
  }

  /** And each thing that can be said against it has its one cause: of the compressed, what their encoding is. */
  lemma WhatIsSaidAgainst(part: Part, how: Reading, i: nat)
    ensures var fault, compressed := Shown(part, how, i).fault, part.flags % 2 == 1;
            && (fault == Some(NotGunzipped) <==> compressed && how.encoding.Gzip? && how.gunzip(part.message) == None)
            && (fault == Some(NoEncoding) <==> compressed && how.encoding.Undeclared?)
            && (fault == Some(NotDecoded) <==> compressed && how.encoding.Foreign?)
  {
  }

  lemma UnzippedIsShown(part: Part, plain: seq<byte>, how: Reading, i: nat)
    requires part.flags == 1 && how.encoding.Gzip? && how.gunzip(part.message) == Some(plain)
    requires DecodedAs(plain, 0).fault == None
    ensures Shown(part, how, i) == Frame(i, true, false, |part.message|, plain, DecodedAs(plain, 0).fields, None)
  {
  }

  /** A message sent compressed is shown with the fields it was encoded from. */
  lemma CompressedIsShown(part: Part, message: seq<Raw>, how: Reading, i: nat)
    requires part.flags == 1 && how.encoding.Gzip? && how.gunzip(part.message) == Some(Encode(message))
    requires forall j :: 0 <= j < |message| ==> Legal(message[j])
    ensures var f := Shown(part, how, i);
            && f.compressed && !f.trailer && f.length == |part.message| && f.raw == Encode(message)
            && f.fault.None? && Raws(f.fields) == message
  {
    DecodeUndoesEncode(message, 0);
    UnzippedIsShown(part, Encode(message), how, i);
  }

  /** In gRPC itself no frame is a trailer: the flag that makes one elsewhere changes nothing. */
  lemma TrailersAreOfTheWeb(part: Part, how: Reading, i: nat)
    requires part.flags >= 128
    ensures Shown(part, how, i).trailer <==> !how.kind.Grpc?
    ensures how.kind.Grpc? ==> Shown(part, how, i) == Shown(part.(flags := part.flags - 128), how, i)
    ensures !how.kind.Grpc? && part.flags == 128 ==>
              Shown(part, how, i) == Frame(i, false, true, |part.message|, part.message, [], None)
  {
  }

  lemma PlainIsShown(message: seq<Raw>, how: Reading, i: nat)
    requires forall j :: 0 <= j < |message| ==> Legal(message[j])
    ensures var f := Shown(Part(0, Encode(message)), how, i);
            f.index == i && f.fault.None? && Raws(f.fields) == message
  {
    DecodeUndoesEncode(message, 0);
  }

  function Plain(messages: seq<seq<Raw>>): (r: seq<Part>)
    ensures |r| == |messages| && forall i :: 0 <= i < |r| ==> r[i] == Part(0, Encode(messages[i]))
  {
    seq(|messages|, i requires 0 <= i < |messages| => Part(0, Encode(messages[i])))
  }

  /** A frame's prefix: a byte of flags and four of length, most significant first. */
  lemma PrefixesAre(flags: byte, a: byte, b: byte, c: byte, d: byte, rest: seq<byte>)
    ensures var n := 0x100_0000 * a + 0x1_0000 * b + 0x100 * c + d;
            PartAt([flags, a, b, c, d] + rest) ==
            if |rest| < n then Long(n, |rest|) else Found(Part(flags, rest[..n]), 5 + n)
  {
    var body := [flags, a, b, c, d] + rest;
    var n := FromBigEndian([a, b, c, d]);
    assert body[1..5] == [a, b, c, d];
    FourBigEndian(a, b, c, d);
    assert |rest| >= n ==> body[5..5 + n] == rest[..n];
  }

  lemma FourBigEndian(a: byte, b: byte, c: byte, d: byte)
    ensures FromBigEndian([a, b, c, d]) == 0x100_0000 * a + 0x1_0000 * b + 0x100 * c + d
  {
    assert [a][..0] == [] && FromBigEndian([a]) == a;
    assert [a, b][..1] == [a] && FromBigEndian([a, b]) == 256 * a + b;
    assert [a, b, c][..2] == [a, b] && FromBigEndian([a, b, c]) == 256 * (256 * a + b) + c;
    assert [a, b, c, d][..3] == [a, b, c];
  }
}
