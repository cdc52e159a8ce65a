/** A grpc-web-text body: base64 (section 4 of RFC 4648) written in one piece or as several, back to back. */
module Base64Chunks {
  import opened Bytes
  import opened Sequences
  import opened Wrappers

  const PAD: byte := 61
  const CR: byte := 13
  const LF: byte := 10

  // ---- the alphabet ------------------------------------------------------

  function Letter(d: nat): byte
    requires d < 64
  {
    if d < 26 then 65 + d
    else if d < 52 then 71 + d
    else if d < 62 then d - 4
    else if d == 62 then 43
    else 47
  }

  function Digit(c: byte): (d: Option<nat>)
    ensures d.Some? ==> d.value < 64
  {
    if 65 <= c <= 90 then Some(c - 65)
    else if 97 <= c <= 122 then Some(c - 71)
    else if 48 <= c <= 57 then Some(c + 4)
    else if c == 43 then Some(62)
    else if c == 47 then Some(63)
    else None
  }

  // ---- decoding one piece ------------------------------------------------

  function Letters(v: nat, n: nat): (s: seq<byte>)
    ensures |s| == n
  {
    if n == 0 then [] else Letters(v / 64, n - 1) + [Letter(v % 64)]
  }

  // The number that letters spell, six bits each.
  function Spelled(s: seq<byte>): Option<nat> {
    if s == [] then Some(0)
    else
      var d, rest := Digit(s[|s| - 1]), Spelled(s[..|s| - 1]);
      if d.None? || rest.None? then None else Some(64 * rest.value + d.value)
  }

  // One quantum of the encoding, and whether it must be the last: two or three letters and their
  // padding, or four letters.
  function Quantum(s: seq<byte>): Option<(seq<byte>, bool)>
    requires |s| == 4
  {
    var n := if s[3] != PAD then 4 else if s[2] != PAD then 3 else 2;
    var v := Spelled(s[..n]);
    if v.None? then None
    else if n == 4 then Some((BigEndian(v.value, 3), false))
    else if n == 3 then Some((BigEndian(v.value / 4, 2), true))
    else Some((BigEndian(v.value / 16, 1), true))
  }

  function Quanta(s: seq<byte>): Option<seq<byte>> {
    if s == [] then Some([])
    else if |s| < 4 then None
    else
      match Quantum(s[..4])
      case None => None
      case Some((x, last)) =>
        if last then (if |s| == 4 then Some(x) else None)
        else
          var rest := Quanta(s[4..]);
          if rest.None? then None else Some(x + rest.value)
  }

  function Stripped(s: seq<byte>): seq<byte> {
    if s == [] then []
    else (if s[0] == CR || s[0] == LF then [] else [s[0]]) + Stripped(s[1..])
  }

  // The standard encoding's decoder: line ends are passed over, padding is required, and spare bits are not looked at.
  function StdDecoded(s: seq<byte>): Option<seq<byte>> {
    Quanta(Stripped(s))
  }

  // ---- decoding a body ---------------------------------------------------

  // White space in ASCII.
  predicate IsSpace(c: byte) {
    9 <= c <= 13 || c == 32
  }

  function TrimLeft(b: seq<byte>): seq<byte> {
    if b != [] && IsSpace(b[0]) then TrimLeft(b[1..]) else b
  }

  function TrimRight(b: seq<byte>): seq<byte> {
    if b != [] && IsSpace(b[|b| - 1]) then TrimRight(b[..|b| - 1]) else b
  }

  // Where the first run of padding ends, or the text does.
  function ChunkEnd(b: seq<byte>): (end: nat)
    ensures end <= |b| && (b != [] ==> end > 0)
  {
    if b == [] then 0 else if b[0] == PAD then PadsEnd(b) else 1 + ChunkEnd(b[1..])
  }

  function PadsEnd(b: seq<byte>): (end: nat)
    ensures end <= |b| && (b != [] && b[0] == PAD ==> end > 0)
  {
    if b != [] && b[0] == PAD then 1 + PadsEnd(b[1..]) else 0
  }

  function Joined(x: Option<seq<byte>>, y: Option<seq<byte>>): Option<seq<byte>> {
    if x.None? || y.None? then None else Some(x.value + y.value)
  }

  function Chunks(b: seq<byte>): Option<seq<byte>>
    decreases |b|
  {
    if b == [] then Some([]) else Joined(StdDecoded(b[..ChunkEnd(b)]), Chunks(b[ChunkEnd(b)..]))
  }

  function ChunksDecoded(b: seq<byte>): Option<seq<byte>> {
    Chunks(TrimRight(TrimLeft(b)))
  }

  method FindChunkEnd(b: seq<byte>) returns (end: nat)
    ensures end == ChunkEnd(b)
  {
    end := 0;
    while end < |b| && b[end] != PAD
      invariant end <= |b| && ChunkEnd(b) == end + ChunkEnd(b[end..])
    {
      assert b[end..][1..] == b[end + 1..];
      end := end + 1;
    }
    ghost var pads := end;
    while end < |b| && b[end] == PAD
      invariant pads <= end <= |b| && ChunkEnd(b) == end + PadsEnd(b[end..])
    {
      assert b[end..][1..] == b[end + 1..];
      end := end + 1;
    }
  }

  method DecodeChunks(body: seq<byte>) returns (r: Option<seq<byte>>)
    ensures r == ChunksDecoded(body)
  {
    var b := TrimRight(TrimLeft(body));
    var out: seq<byte> := [];
    JoinedThrice(Some([]), Some([]), Chunks(b));
    while |b| > 0
      invariant Joined(Some(out), Chunks(b)) == ChunksDecoded(body)
      decreases |b|
    {
      var end := FindChunkEnd(b);
      var chunk := StdDecoded(b[..end]);
      if chunk.None? {
        return None;
      }
      JoinedThrice(Some(out), chunk, Chunks(b[end..]));
      out := out + chunk.value;
      b := b[end..];
    }
    assert out + [] == out;
    r := Some(out);
  }

  lemma JoinedThrice(a: Option<seq<byte>>, b: Option<seq<byte>>, c: Option<seq<byte>>)
    ensures Joined(a, Joined(b, c)) == Joined(Joined(a, b), c)
    ensures Joined(Some([]), c) == c
  {
    if a.Some? && b.Some? && c.Some? {
      assert a.value + (b.value + c.value) == (a.value + b.value) + c.value;
    }
    if c.Some? {
      assert [] + c.value == c.value;
    }
  }

  // A text is its first chunk and then the rest, the empty text too.
  lemma FirstChunk(b: seq<byte>)
    ensures Chunks(b) == Joined(StdDecoded(b[..ChunkEnd(b)]), Chunks(b[ChunkEnd(b)..]))
  {
    if b == [] {
      var none: seq<byte> := b[..0];
      assert Stripped(none) == [] && StdDecoded(none) == Some([]);
      assert b[0..] == none && none + none == none;
    }
  }

  // ---- encoding ----------------------------------------------------------

  // Three bytes as four letters.
  function Full(x: seq<byte>): seq<byte>
    requires |x| == 3
  {
    Letters(FromBigEndian(x), 4)
  }

  // One byte or two, or none, as the letters it takes and the padding.
  function Tail(x: seq<byte>, padded: bool): seq<byte>
    requires |x| < 3
  {
    if x == [] then []
    else if |x| == 1 then Letters(16 * FromBigEndian(x), 2) + (if padded then [PAD, PAD] else [])
    else Letters(4 * FromBigEndian(x), 3) + if padded then [PAD] else []
  }

  // Section 4 of RFC 4648, with the padding or without it.
  function Encoded(x: seq<byte>, padded: bool): seq<byte> {
    if |x| < 3 then Tail(x, padded) else Full(x[..3]) + Encoded(x[3..], padded)
  }

  datatype Piece = Piece(data: seq<byte>, padded: bool)

  function Text(pieces: seq<Piece>): seq<byte> {
    if pieces == [] then [] else Encoded(pieces[0].data, pieces[0].padded) + Text(pieces[1..])
  }

  function Contents(pieces: seq<Piece>): seq<byte> {
    if pieces == [] then [] else pieces[0].data + Contents(pieces[1..])
  }

  // How many bytes a last, partial quantum holds.
  function Over(n: nat): (r: nat)
    ensures r == n % 3
  {
    if n < 3 then n else Over(n - 3)
  }

  predicate Closed(p: Piece) {
    p.padded || Over(|p.data|) == 0
  }

  lemma {:induction false} LettersRead(v: nat, n: nat)
    requires v < Pow64(n)
    ensures Spelled(Letters(v, n)) == Some(v)
  {
    if n > 0 {
      LettersRead(v / 64, n - 1);
      assert Letters(v, n)[..n - 1] == Letters(v / 64, n - 1);
    }
  }

  function Pow64(n: nat): (p: nat)
    ensures p > 0
  {
    if n == 0 then 1 else 64 * Pow64(n - 1)
  }

  ghost predicate AllLetters(s: seq<byte>) {
    forall i :: 0 <= i < |s| ==> Digit(s[i]).Some?
  }

  lemma {:induction false} LettersAre(v: nat, n: nat)
    ensures AllLetters(Letters(v, n))
  {
    if n > 0 {
      LettersAre(v / 64, n - 1);
    }
  }

  // A full quantum spells its three bytes.
  lemma ThreeRead(x: seq<byte>)
    requires |x| == 3
    ensures |Full(x)| == 4 && Quantum(Full(x)) == Some((x, false)) && AllLetters(Full(x))
  {
    var v, s := FromBigEndian(x), Full(x);
    assert Pow256(3) == Pow64(4) by {
      assert Pow256(3) == 0x100_0000 && Pow64(4) == 0x100_0000;
    }
    LettersRead(v, 4);
    LettersAre(v, 4);
    assert s[..4] == s;
    assert Digit(s[3]).Some?;
    BigEndianWrites(x);
  }

  // A padded one, its one or two.
  lemma OneReads(x: seq<byte>)
    requires |x| == 1
    ensures |Tail(x, true)| == 4 && Quantum(Tail(x, true)) == Some((x, true))
  {
    var v, s := FromBigEndian(x), Tail(x, true);
    assert Pow256(1) == 0x100 && Pow64(2) == 0x1000;
    LettersRead(16 * v, 2);
    assert s[..2] == Letters(16 * v, 2);
    BigEndianWrites(x);
  }

  lemma TwoRead(x: seq<byte>)
    requires |x| == 2
    ensures |Tail(x, true)| == 4 && Quantum(Tail(x, true)) == Some((x, true))
  {
    var v, s := FromBigEndian(x), Tail(x, true);
    assert Pow256(2) == 0x1_0000 && Pow64(3) == 0x4_0000;
    LettersRead(4 * v, 3);
    LettersAre(4 * v, 3);
    assert s[..3] == Letters(4 * v, 3);
    assert Digit(s[2]).Some?;
    BigEndianWrites(x);
  }

  lemma {:induction false} StripLetters(s: seq<byte>, t: seq<byte>)
    requires forall i :: 0 <= i < |s| ==> s[i] != CR && s[i] != LF
    ensures Stripped(s + t) == s + Stripped(t)
  {
    if s == [] {
      assert s + t == t;
    } else {
      StripLetters(s[1..], t);
      assert (s + t)[1..] == s[1..] + t;
    }
  }

  lemma {:induction false} EndPastLetters(s: seq<byte>, t: seq<byte>)
    requires AllLetters(s)
    ensures ChunkEnd(s + t) == |s| + ChunkEnd(t)
  {
    if s == [] {
      assert s + t == t;
    } else {
      EndPastLetters(s[1..], t);
      assert (s + t)[1..] == s[1..] + t;
      assert (s + t)[0] == s[0] && Digit(s[0]).Some?;
    }
  }

  // Four letters ahead of a text add their three bytes to what it decodes to.
  lemma QuantumAhead(x: seq<byte>, t: seq<byte>)
    requires |x| == 3
    ensures Chunks(Full(x) + t) == Joined(Some(x), Chunks(t))
  {
    var s := Full(x);
    ThreeRead(x);
    EndPastLetters(s, t);
    var end := ChunkEnd(t);
    assert (s + t)[..4 + end] == s + t[..end] && (s + t)[4 + end..] == t[end..];
    QuantumFirst(s, x, t[..end]);
    FirstChunk(s + t);
    FirstChunk(t);
    JoinedThrice(Some(x), StdDecoded(t[..end]), Chunks(t[end..]));
  }

  lemma QuantumFirst(s: seq<byte>, x: seq<byte>, t: seq<byte>)
    requires |s| == 4 && AllLetters(s) && Quantum(s) == Some((x, false))
    ensures StdDecoded(s + t) == Joined(Some(x), StdDecoded(t))
  {
    forall i | 0 <= i < 4 ensures s[i] != CR && s[i] != LF {
      assert Digit(s[i]).Some?;
    }
    StripLetters(s, t);
    var all := s + Stripped(t);
    assert all[..4] == s && all[4..] == Stripped(t);
  }

  // A padded tail is some letters and then the padding.
  ghost predicate IsTail(s: seq<byte>, x: seq<byte>, n: nat) {
    && |s| == 4 && (n == 2 || n == 3) && Quantum(s) == Some((x, true))
    && AllLetters(s[..n]) && s[n..] == (if n == 2 then [PAD, PAD] else [PAD])
  }

  lemma TailIsTail(x: seq<byte>)
    requires |x| == 1 || |x| == 2
    ensures IsTail(Tail(x, true), x, |x| + 1)
  {
    var s := Tail(x, true);
    if |x| == 1 {
      OneReads(x);
      LettersAre(16 * FromBigEndian(x), 2);
      assert s[..2] == Letters(16 * FromBigEndian(x), 2);
    } else {
      TwoRead(x);
      LettersAre(4 * FromBigEndian(x), 3);
      assert s[..3] == Letters(4 * FromBigEndian(x), 3);
    }
  }

  // It ends a chunk, whatever letters come after it.
  lemma TailAhead(s: seq<byte>, x: seq<byte>, n: nat, t: seq<byte>)
    requires IsTail(s, x, n) && (t != [] ==> t[0] != PAD)
    ensures Chunks(s + t) == Joined(Some(x), Chunks(t))
  {
    EndAtTail(s, x, n, t);
    assert (s + t)[..4] == s && (s + t)[4..] == t;
    FirstChunk(s + t);
    TailDecodes(s, x, n);
  }

  lemma EndAtTail(s: seq<byte>, x: seq<byte>, n: nat, t: seq<byte>)
    requires IsTail(s, x, n) && (t != [] ==> t[0] != PAD)
    ensures ChunkEnd(s + t) == 4
  {
    assert s == s[..n] + s[n..];
    Regrouped(s[..n], s[n..], t);
    EndPastLetters(s[..n], s[n..] + t);
    PadsThen(s[n..], t);
  }

  lemma TailDecodes(s: seq<byte>, x: seq<byte>, n: nat)
    requires IsTail(s, x, n)
    ensures StdDecoded(s) == Some(x)
  {
    forall i | 0 <= i < 4 ensures s[i] != CR && s[i] != LF {
      if i < n {
        assert Digit(s[..n][i]).Some?;
      } else {
        assert s[i] == s[n..][i - n];
      }
    }
    StripLetters(s, []);
    assert s + [] == s && s[..4] == s;
  }

  lemma PadsThen(pads: seq<byte>, t: seq<byte>)
    requires pads == [PAD] || pads == [PAD, PAD]
    requires t != [] ==> t[0] != PAD
    ensures ChunkEnd(pads + t) == |pads|
  {
    assert (pads + t)[1..] == pads[1..] + t;
    if |pads| == 2 {
      assert (pads + t)[1..][1..] == t;
    } else {
      assert (pads + t)[1..] == t;
    }
  }

  // A whole piece ahead of a text.
  lemma {:induction false} PieceAhead(p: Piece, t: seq<byte>)
    requires Closed(p) && (t != [] ==> t[0] != PAD)
    ensures Chunks(Encoded(p.data, p.padded) + t) == Joined(Some(p.data), Chunks(t))
    decreases |p.data|
  {
    var x := p.data;
    if x == [] {
      assert Encoded(x, p.padded) + t == t;
      JoinedThrice(Some([]), Some([]), Chunks(t));
    } else if |x| < 3 {
      TailIsTail(x);
      TailAhead(Tail(x, true), x, |x| + 1, t);
    } else {
      PieceAhead(Piece(x[3..], p.padded), t);
      LongPiece(x[..3], x[3..], Encoded(x[3..], p.padded), t);
      assert x[..3] + x[3..] == x;
    }
  }

  lemma LongPiece(head: seq<byte>, tail: seq<byte>, s: seq<byte>, t: seq<byte>)
    requires |head| == 3 && Chunks(s + t) == Joined(Some(tail), Chunks(t))
    ensures Chunks(Full(head) + s + t) == Joined(Some(head + tail), Chunks(t))
  {
    QuantumAhead(head, s + t);
    Regrouped(Full(head), s, t);
    JoinedThrice(Some(head), Some(tail), Chunks(t));
  }

  lemma EncodedStarts(x: seq<byte>, padded: bool)
    requires x != []
    ensures Encoded(x, padded) != [] && Digit(Encoded(x, padded)[0]).Some?
  {
    if |x| == 1 {
      LettersAre(16 * FromBigEndian(x), 2);
    } else if |x| == 2 {
      LettersAre(4 * FromBigEndian(x), 3);
    } else {
      ThreeRead(x[..3]);
    }
  }

  lemma {:induction false} TextStarts(pieces: seq<Piece>)
    ensures Text(pieces) != [] ==> Digit(Text(pieces)[0]).Some?
  {
    if pieces != [] {
      TextStarts(pieces[1..]);
      if pieces[0].data == [] {
        assert Text(pieces) == Text(pieces[1..]);
      } else {
        EncodedStarts(pieces[0].data, pieces[0].padded);
      }
    }
  }

  lemma {:induction false} ClosedPiecesDecode(pieces: seq<Piece>)
    requires forall i :: 0 <= i < |pieces| ==> Closed(pieces[i])
    ensures Chunks(Text(pieces)) == Some(Contents(pieces))
  {
    if pieces != [] {
      ClosedPiecesDecode(pieces[1..]);
      TextStarts(pieces[1..]);
      PieceAhead(pieces[0], Text(pieces[1..]));
    }
  }

  // ---- how much a text can hold ------------------------------------------

  // Quarter bytes: three to a letter, one taken back for each padding.
  function Weight(s: seq<byte>): int {
    if s == [] then 0
    else (if s[0] == PAD then -1 else if s[0] == CR || s[0] == LF then 0 else 3) + Weight(s[1..])
  }

  lemma {:induction false} WeightAdds(a: seq<byte>, b: seq<byte>)
    ensures Weight(a + b) == Weight(a) + Weight(b)
  {
    if a == [] {
      assert a + b == b;
    } else {
      WeightAdds(a[1..], b);
      assert (a + b)[1..] == a[1..] + b;
    }
  }

  lemma WeightSplits(s: seq<byte>, n: nat)
    requires n <= |s|
    ensures Weight(s) == Weight(s[..n]) + Weight(s[n..])
  {
    WeightAdds(s[..n], s[n..]);
    assert s == s[..n] + s[n..];
  }

  lemma {:induction false} StrippedWeight(s: seq<byte>)
    ensures Weight(Stripped(s)) == Weight(s)
    ensures forall i :: 0 <= i < |Stripped(s)| ==> Stripped(s)[i] != CR && Stripped(s)[i] != LF
  {
    if s != [] {
      StrippedWeight(s[1..]);
      WeightAdds([s[0]], Stripped(s[1..]));
      assert [] + Stripped(s[1..]) == Stripped(s[1..]);
    }
  }

  lemma WeightOfFour(s: seq<byte>)
    requires |s| == 4
    ensures Weight(s) == Weight([s[0]]) + Weight([s[1]]) + Weight([s[2]]) + Weight([s[3]])
  {
    WeightAdds([s[0]], [s[1]]);
    WeightAdds([s[0], s[1]], [s[2]]);
    WeightAdds([s[0], s[1], s[2]], [s[3]]);
    assert s == [s[0], s[1], s[2]] + [s[3]] && [s[0], s[1], s[2]] == [s[0], s[1]] + [s[2]];
    assert [s[0], s[1]] == [s[0]] + [s[1]];
  }

  lemma {:induction false} SpelledIsLetters(s: seq<byte>, i: nat)
    requires Spelled(s).Some? && i < |s|
    ensures Digit(s[i]).Some?
  {
    if i < |s| - 1 {
      SpelledIsLetters(s[..|s| - 1], i);
    }
  }

  lemma QuantumWeighs(s: seq<byte>)
    requires |s| == 4 && Quantum(s).Some?
    ensures Weight(s) == 4 * |Quantum(s).value.0|
  {
    WeightOfFour(s);
    var n := if s[3] != PAD then 4 else if s[2] != PAD then 3 else 2;
    forall i | 0 <= i < n ensures Weight([s[i]]) == 3 {
      SpelledIsLetters(s[..n], i);
    }
  }

  lemma {:induction false} QuantaWeigh(s: seq<byte>)
    requires Quanta(s).Some?
    ensures Weight(s) == 4 * |Quanta(s).value|
  {
    if s != [] {
      QuantumWeighs(s[..4]);
      WeightSplits(s, 4);
      if !Quantum(s[..4]).value.1 {
        QuantaWeigh(s[4..]);
      }
    }
  }

  lemma ChunkWeighs(s: seq<byte>)
    requires StdDecoded(s).Some?
    ensures Weight(s) == 4 * |StdDecoded(s).value|
  {
    StrippedWeight(s);
    QuantaWeigh(Stripped(s));
  }

  /** A text that decodes holds exactly what its letters and padding weigh. */
  lemma {:induction false} ChunksWeigh(b: seq<byte>)
    requires Chunks(b).Some?
    ensures Weight(b) == 4 * |Chunks(b).value|
    decreases |b|
  {
    if b != [] {
      var end := ChunkEnd(b);
      ChunkWeighs(b[..end]);
      ChunksWeigh(b[end..]);
      WeightSplits(b, end);
    }
  }

  lemma {:induction false} LettersWeigh(v: nat, n: nat)
    ensures Weight(Letters(v, n)) == 3 * n
  {
    if n > 0 {
      LettersWeigh(v / 64, n - 1);
      WeightAdds(Letters(v / 64, n - 1), [Letter(v % 64)]);
    }
  }

  lemma LettersThenPads(v: nat, n: nat, pads: seq<byte>)
    requires pads == [] || pads == [PAD] || pads == [PAD, PAD]
    ensures Weight(Letters(v, n) + pads) == 3 * n - |pads|
  {
    LettersWeigh(v, n);
    WeightAdds(Letters(v, n), pads);
    WeightAdds([PAD], [PAD]);
    assert [PAD] + [PAD] == [PAD, PAD] && Weight([PAD]) == -1;
  }

  lemma FullWeighs(x: seq<byte>)
    requires |x| == 3
    ensures Weight(Full(x)) == 12
  {
    LettersWeigh(FromBigEndian(x), 4);
  }

  lemma TailWeighs(x: seq<byte>, padded: bool)
    requires |x| < 3
    ensures Weight(Tail(x, padded)) == 4 * |x| + if padded || x == [] then 0 else 3 - |x|
  {
    if |x| == 1 {
      LettersThenPads(16 * FromBigEndian(x), 2, if padded then [PAD, PAD] else []);
    } else if |x| == 2 {
      LettersThenPads(4 * FromBigEndian(x), 3, if padded then [PAD] else []);
    }
  }

  lemma {:induction false} EncodedWeighs(x: seq<byte>, padded: bool)
    ensures Weight(Encoded(x, padded)) == 4 * |x| + (if padded || Over(|x|) == 0 then 0 else 3 - Over(|x|))
  {
    if |x| < 3 {
      TailWeighs(x, padded);
    } else {
      FullWeighs(x[..3]);
      EncodedWeighs(x[3..], padded);
      WeightAdds(Full(x[..3]), Encoded(x[3..], padded));
    }
  }

  // An open piece makes the text weigh more than what it was to carry.
  lemma {:induction false} TextWeighs(pieces: seq<Piece>)
    ensures Weight(Text(pieces)) >= 4 * |Contents(pieces)|
    ensures (exists i :: 0 <= i < |pieces| && !Closed(pieces[i])) ==> Weight(Text(pieces)) > 4 * |Contents(pieces)|
  {
    if pieces != [] {
      var p := pieces[0];
      EncodedWeighs(p.data, p.padded);
      WeightAdds(Encoded(p.data, p.padded), Text(pieces[1..]));
      TextWeighs(pieces[1..]);
      if Closed(p) && exists i :: 0 <= i < |pieces| && !Closed(pieces[i]) {
        var i :| 0 <= i < |pieces| && !Closed(pieces[i]);
        assert !Closed(pieces[1..][i - 1]);
      }
    }
  }

  /**
   * Pieces written back to back decode to their contents joined, exactly when each is
   * padded or needs no padding: an unpadded tail runs into whatever follows it.
   */
  lemma BackToBack(pieces: seq<Piece>)
    ensures ChunksDecoded(Text(pieces)) == Some(Contents(pieces)) <==>
            forall i :: 0 <= i < |pieces| ==> Closed(pieces[i])
  {
    TextIsTrimmed(pieces);
    if forall i :: 0 <= i < |pieces| ==> Closed(pieces[i]) {
      ClosedPiecesDecode(pieces);
    } else {
      TextWeighs(pieces);
      if Chunks(Text(pieces)) == Some(Contents(pieces)) {
        ChunksWeigh(Text(pieces));
      }
    }
  }

  /** Two bytes sent apart without padding are taken for one piece of three; one of them alone does not decode. */
  lemma UnpaddedRunsOn()
    ensures ChunksDecoded(Text([Piece([0], false), Piece([0], false)])) == Some([0, 0, 0])
    ensures ChunksDecoded(Text([Piece([0], false)])) == None
  {
    var a := Letter(0);
    assert Letters(0, 1) == [a] && Letters(0, 2) == [a, a];
    assert Encoded([0], false) == [a, a];
    var one, two := [Piece([0], false)], [Piece([0], false), Piece([0], false)];
    assert Text([]) == [] && Text(one) == [a, a];
    assert two[1..] == one && Text(two) == [a, a, a, a];
    TextIsTrimmed(one);
    TextIsTrimmed(two);
    UnpaddedPair(a);
    UnpaddedFour(a);
  }

  lemma UnpaddedPair(a: byte)
    requires a == Letter(0)
    ensures Chunks([a, a]) == None
  {
    FirstChunk([a, a]);
    EndPastLetters([a, a], []);
    assert [a, a] + [] == [a, a] && [a, a][..2] == [a, a];
    StripLetters([a, a], []);
  }

  lemma UnpaddedFour(a: byte)
    requires a == Letter(0)
    ensures Chunks([a, a, a, a]) == Some([0, 0, 0])
  {
    var x: seq<byte> := [0, 0, 0];
    assert x[..2] == [0, 0] && [0, 0][..1] == [0] && FromBigEndian([0]) == 0 && FromBigEndian([0, 0]) == 0;
    assert FromBigEndian(x) == 0;
    assert Letters(0, 2) == [a, a] && Letters(0, 3) == [a, a, a] && Full(x) == [a, a, a, a];
    QuantumAhead(x, []);
    assert Full(x) + [] == Full(x) && x + [] == x;
  }

  lemma {:induction false} EncodedHasNoSpace(x: seq<byte>, padded: bool)
    ensures forall i :: 0 <= i < |Encoded(x, padded)| ==> !IsSpace(Encoded(x, padded)[i])
  {
    if |x| == 1 {
      LettersAre(16 * FromBigEndian(x), 2);
    } else if |x| == 2 {
      LettersAre(4 * FromBigEndian(x), 3);
    } else if x != [] {
      ThreeRead(x[..3]);
      EncodedHasNoSpace(x[3..], padded);
    }
  }

  lemma {:induction false} TextHasNoSpace(pieces: seq<Piece>)
    ensures forall i :: 0 <= i < |Text(pieces)| ==> !IsSpace(Text(pieces)[i])
  {
    if pieces != [] {
      EncodedHasNoSpace(pieces[0].data, pieces[0].padded);
      TextHasNoSpace(pieces[1..]);
    }
  }

  lemma TextIsTrimmed(pieces: seq<Piece>)
    ensures TrimRight(TrimLeft(Text(pieces))) == Text(pieces)
  {
    TextHasNoSpace(pieces);
  }

  // ---- letters and bits, as the standard gives them ----------------------

  /** The alphabet is the standard's, in its order, and nothing else is a letter. */
  lemma AlphabetIs(d: nat, c: byte)
    requires d < 64
    ensures Letter(d) == if d < 26 then 'A' as int + d
                         else if d < 52 then 'a' as int + d - 26
                         else if d < 62 then '0' as int + d - 52
                         else if d == 62 then '+' as int
                         else '/' as int
    ensures Digit(c) == Some(d) <==> c == Letter(d)
  {
  }

  lemma SpelledByBits(s: seq<byte>, d: nat, v: nat)
    requires d < 64 && Spelled(s) == Some(v)
    ensures Spelled(s + [Letter(d)]) == Some(64 * v + d)
  {
    AlphabetIs(d, Letter(d));
    assert (s + [Letter(d)])[..|s|] == s;
  }

  lemma SpelledLetters(a: nat, b: nat, c: nat, d: nat)
    requires a < 64 && b < 64 && c < 64 && d < 64
    ensures Spelled([Letter(a), Letter(b)]) == Some(64 * a + b)
    ensures Spelled([Letter(a), Letter(b), Letter(c)]) == Some(64 * (64 * a + b) + c)
    ensures Spelled([Letter(a), Letter(b), Letter(c), Letter(d)]) == Some(64 * (64 * (64 * a + b) + c) + d)
  {
    SpelledByBits([], a, 0);
    assert [] + [Letter(a)] == [Letter(a)];
    SpelledByBits([Letter(a)], b, a);
    assert [Letter(a)] + [Letter(b)] == [Letter(a), Letter(b)];
    SpelledByBits([Letter(a), Letter(b)], c, 64 * a + b);
    assert [Letter(a), Letter(b)] + [Letter(c)] == [Letter(a), Letter(b), Letter(c)];
    SpelledByBits([Letter(a), Letter(b), Letter(c)], d, 64 * (64 * a + b) + c);
    assert [Letter(a), Letter(b), Letter(c)] + [Letter(d)] == [Letter(a), Letter(b), Letter(c), Letter(d)];
  }

  lemma OneByte(v: nat)
    requires v < 0x100
    ensures BigEndian(v, 1) == [v]
  {
    assert BigEndian(v / 256, 0) == [];
  }

  lemma TwoBytes(x: nat, y: nat)
    requires x < 256 && y < 256
    ensures BigEndian(256 * x + y, 2) == [x, y]
  {
    OneByte(x);
    assert (256 * x + y) / 256 == x && (256 * x + y) % 256 == y;
  }

  lemma ThreeBytes(x: nat, y: nat, z: nat)
    requires x < 256 && y < 256 && z < 256
    ensures BigEndian(256 * (256 * x + y) + z, 3) == [x, y, z]
  {
    TwoBytes(x, y);
    var n := 256 * x + y;
    assert (256 * n + z) / 256 == n && (256 * n + z) % 256 == z;
  }

  lemma BitsOfTwo(a: nat, b: nat)
    requires a < 64 && b < 64
    ensures (64 * a + b) / 16 == 4 * a + b / 16 < 256
  {
  }

  lemma BitsOfThree(a: nat, b: nat, c: nat)
    requires a < 64 && b < 64 && c < 64
    ensures 16 * (b % 16) + c / 4 < 256
    ensures (64 * (64 * a + b) + c) / 4 == 256 * (4 * a + b / 16) + (16 * (b % 16) + c / 4)
  {
    assert 64 * (64 * a + b) + c == 4 * (1024 * a + 16 * b + c / 4) + c % 4;
    assert b == 16 * (b / 16) + b % 16;
  }

  lemma BitsOfFour(a: nat, b: nat, c: nat, d: nat)
    requires a < 64 && b < 64 && c < 64 && d < 64
    ensures 64 * (c % 4) + d < 256
    ensures 64 * (64 * (64 * a + b) + c) + d ==
            256 * (256 * (4 * a + b / 16) + (16 * (b % 16) + c / 4)) + (64 * (c % 4) + d)
  {
    assert b == 16 * (b / 16) + b % 16 && c == 4 * (c / 4) + c % 4;
  }

  lemma TwoLetters(a: nat, b: nat)
    requires a < 64 && b < 64
    ensures Quantum([Letter(a), Letter(b), PAD, PAD]) == Some(([4 * a + b / 16], true))
  {
    SpelledLetters(a, b, 0, 0);
    BitsOfTwo(a, b);
    OneByte(4 * a + b / 16);
    assert [Letter(a), Letter(b), PAD, PAD][..2] == [Letter(a), Letter(b)];
  }

  lemma ThreeLetters(a: nat, b: nat, c: nat)
    requires a < 64 && b < 64 && c < 64
    ensures Quantum([Letter(a), Letter(b), Letter(c), PAD]) ==
            Some(([4 * a + b / 16, 16 * (b % 16) + c / 4], true))
  {
    SpelledLetters(a, b, c, 0);
    BitsOfTwo(a, b);
    BitsOfThree(a, b, c);
    TwoBytes(4 * a + b / 16, 16 * (b % 16) + c / 4);
    assert [Letter(a), Letter(b), Letter(c), PAD][..3] == [Letter(a), Letter(b), Letter(c)];
  }

  /**
   * Section 4 bit by bit: each letter is six bits, most significant first, and every eight of them a byte. Of
   * a padded quantum the bits past its last byte say nothing.
   */
  lemma QuantumByBits(a: nat, b: nat, c: nat, d: nat)
    requires a < 64 && b < 64 && c < 64 && d < 64
    ensures Quantum([Letter(a), Letter(b), PAD, PAD]) == Some(([4 * a + b / 16], true))
    ensures Quantum([Letter(a), Letter(b), Letter(c), PAD]) ==
            Some(([4 * a + b / 16, 16 * (b % 16) + c / 4], true))
    ensures Quantum([Letter(a), Letter(b), Letter(c), Letter(d)]) ==
            Some(([4 * a + b / 16, 16 * (b % 16) + c / 4, 64 * (c % 4) + d], false))
  {
    TwoLetters(a, b);
    ThreeLetters(a, b, c);
    SpelledLetters(a, b, c, d);
    BitsOfTwo(a, b);
    BitsOfThree(a, b, c);
    BitsOfFour(a, b, c, d);
    ThreeBytes(4 * a + b / 16, 16 * (b % 16) + c / 4, 64 * (c % 4) + d);
    assert [Letter(a), Letter(b), Letter(c), Letter(d)][..4] == [Letter(a), Letter(b), Letter(c), Letter(d)];
  }

  // ---- what is passed over -----------------------------------------------

  lemma {:induction false} StrippedAdds(a: seq<byte>, b: seq<byte>)
    ensures Stripped(a + b) == Stripped(a) + Stripped(b)
  {
    if a == [] {
      assert a + b == b;
    } else {
      assert (a + b)[1..] == a[1..] + b;
      StrippedAdds(a[1..], b);
    }
  }

  /** A line end anywhere inside a piece makes no difference. */
  lemma LineEndsAreNothing(a: seq<byte>, c: byte, b: seq<byte>)
    requires c == CR || c == LF
    ensures StdDecoded(a + [c] + b) == StdDecoded(a + b)
  {
    StrippedAdds(a + [c], b);
    StrippedAdds(a, [c]);
    StrippedAdds(a, b);
    assert Stripped([c]) == [] && Stripped(a) + [] == Stripped(a);
  }

  lemma {:induction false} TrimLeftBefore(b: seq<byte>, c: byte)
    requires IsSpace(c)
    ensures TrimLeft(b + [c]) == if TrimLeft(b) == [] then [] else TrimLeft(b) + [c]
  {
    if b == [] {
      assert b + [c] == [c] && [c][1..] == [];
    } else if IsSpace(b[0]) {
      assert (b + [c])[1..] == b[1..] + [c];
      TrimLeftBefore(b[1..], c);
    }
  }

  /** Nor does white space around a whole body. */
  lemma SpacesAroundAreNothing(b: seq<byte>, c: byte)
    requires IsSpace(c)
    ensures ChunksDecoded([c] + b) == ChunksDecoded(b) && ChunksDecoded(b + [c]) == ChunksDecoded(b)
  {
    assert ([c] + b)[1..] == b;
    TrimLeftBefore(b, c);
    var t := TrimLeft(b);
    assert (t + [c])[..|t|] == t;
  }
}
