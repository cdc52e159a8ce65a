/** The pump: reads frames from one side, forwards them to the other, reports on them. */
module WsPump {
  import opened Bytes
  import opened WsFrame
  import opened WsRelay

  // ---- the writers -------------------------------------------------------

  // The peer: it takes room more bytes, then fails.
  class Sink {
    var got: seq<byte>
    var room: nat

    constructor (room: nat)
      ensures this.room == room && got == []
    {
      this.room, got := room, [];
    }

    method Write(b: seq<byte>) returns (ok: bool)
      modifies this
      ensures ok <==> |b| <= old(room)
      ensures got == old(got) + if ok then b else b[..old(room)]
      ensures room + |got| == old(room + |got|)
    {
      ok := |b| <= room;
      if ok {
        got, room := got + b, room - |b|;
      } else {
        got, room := got + b[..room], 0;
      }
    }
  }

  class BufWriter {
    const dst: Sink
    const size: nat
    var pending: seq<byte>

    constructor (dst: Sink, size: nat)
      ensures this.dst == dst && this.size == size && pending == []
    {
      this.dst, this.size, pending := dst, size, [];
    }

    // Everything handed over, whether it has reached the peer or not.
    ghost function Out(): seq<byte>
      reads this, dst
    {
      dst.got + pending
    }

    method Flush() returns (ok: bool)
      modifies this, dst
      ensures dst.room + |dst.got| == old(dst.room + |dst.got|)
      ensures old(dst.got) <= dst.got <= old(Out())
      ensures ok ==> pending == [] && dst.got == old(Out())
      ensures !ok ==> old(dst.room) < |old(pending)|
    {
      ok := dst.Write(pending);
      if ok {
        pending := [];
      }
    }

    method Write(b: seq<byte>) returns (ok: bool)
      modifies this, dst
      ensures dst.room + |dst.got| == old(dst.room + |dst.got|)
      ensures old(dst.got) <= dst.got <= old(Out()) + b
      ensures ok ==> Out() == old(Out()) + b
      ensures !ok ==> old(dst.room) < |old(pending)| + |b|
    {
      pending := pending + b;
      ok := true;
      assert Out() == old(Out()) + b;
      if |pending| > size {
        ok := Flush();
      }
    }
  }

  // Keeps the first bytes written to it, as many as it has room for.
  class PrefixWriter {
    const buf: array<byte>
    var len: nat

    ghost predicate Valid()
      reads this
    {
      len <= buf.Length
    }

    ghost function Kept(): seq<byte>
      requires Valid()
      reads this, buf
    {
      buf[..len]
    }

    constructor (limit: nat)
      ensures Valid() && fresh(buf) && buf.Length == limit && Kept() == []
    {
      buf := new byte[limit];
      len := 0;
    }

    method Write(b: seq<byte>)
      requires Valid()
      modifies this, buf
      ensures Valid()
      ensures Kept() == Prefix(old(Kept()) + b, buf.Length)
    {
      var room := buf.Length - len;
      var n := if room < |b| then room else |b|;
      ghost var was := buf[..len];
      for i := 0 to n
        invariant len == old(len) && buf[..len] == was
        invariant buf[len..len + i] == b[..i]
      {
        buf[len + i] := b[i];
        assert buf[len..len + i + 1] == buf[len..len + i] + [b[i]];
      }
      len := len + n;
      assert buf[..len] == was + b[..n];
      assert b[..|b|] == b;
    }
  }

  lemma PrefixOfPrefix(a: seq<byte>, b: seq<byte>, limit: nat)
    ensures Prefix(Prefix(a, limit) + b, limit) == Prefix(a + b, limit)
  {
  }

  lemma MaskedPrefix(mask: seq<byte>, b: seq<byte>, limit: nat)
    requires |mask| == 4
    ensures Masked(mask, 0, Prefix(b, limit)) == Prefix(Masked(mask, 0, b), limit)
  {
  }

  datatype Copied = All | SourceShort | PeerShort

  // One read through the tee: some of what is there, at most n bytes, kept and handed on.
  method CopyChunk(br: Reader, bw: BufWriter, keep: PrefixWriter, n: nat) returns (c: nat, ok: bool)
    requires keep.Valid() && br.data != [] && n > 0
    modifies br, bw, bw.dst, keep, keep.buf
    ensures keep.Valid() && 1 <= c <= n && c <= |old(br.data)|
    ensures br.data == old(br.data)[c..]
    ensures keep.Kept() == Prefix(old(keep.Kept()) + old(br.data)[..c], keep.buf.Length)
    ensures bw.dst.room + |bw.dst.got| == old(bw.dst.room + |bw.dst.got|)
    ensures old(bw.dst.got) <= bw.dst.got <= old(bw.Out()) + old(br.data)[..c]
    ensures ok ==> bw.Out() == old(bw.Out()) + old(br.data)[..c]
    ensures !ok ==> old(bw.dst.room) < |old(bw.pending)| + c
  {
    c :| 1 <= c <= n && c <= |br.data|;
    var chunk := br.data[..c];
    br.data := br.data[c..];
    keep.Write(chunk);
    ok := bw.Write(chunk);
  }

  lemma Extend(out: seq<byte>, all: seq<byte>, done: nat, c: nat)
    requires done + c <= |all|
    ensures all[..done] + all[done..][..c] == all[..done + c]
    ensures (out + all[..done]) + all[done..][..c] == out + all[..done + c]
    ensures all[done..][c..] == all[done + c..]
    ensures out + all[..done + c] <= out + all
  {
  }

  // io.CopyN through a tee: n bytes from br to bw, the first of them kept as well.
  method CopyPayload(br: Reader, bw: BufWriter, keep: PrefixWriter, n: nat) returns (r: Copied)
    requires keep.Valid() && keep.Kept() == []
    modifies br, bw, bw.dst, keep, keep.buf
    ensures keep.Valid()
    ensures bw.dst.room + |bw.dst.got| == old(bw.dst.room + |bw.dst.got|)
    ensures old(bw.dst.got) <= bw.dst.got <= old(bw.Out()) + old(br.data)
    ensures r == All ==> n <= |old(br.data)| && br.data == old(br.data)[n..]
    ensures r == All ==> bw.Out() == old(bw.Out()) + old(br.data)[..n]
    ensures r == All ==> keep.Kept() == Prefix(old(br.data)[..n], keep.buf.Length)
    ensures r == SourceShort ==> |old(br.data)| < n && br.data == []
    ensures r == PeerShort ==> old(bw.dst.room) < |old(bw.pending)| + |old(br.data)|
  {
    ghost var all, out := br.data, bw.Out();
    var done := 0;
    assert out + all[..0] == out;
    while done < n
      invariant 0 <= done <= n && done <= |all| && br.data == all[done..]
      invariant keep.Valid() && keep.Kept() == Prefix(all[..done], keep.buf.Length)
      invariant bw.Out() == out + all[..done] && old(bw.dst.got) <= bw.dst.got
      invariant bw.dst.room + |bw.dst.got| == old(bw.dst.room + |bw.dst.got|)
    {
      if br.data == [] {
        Extend(out, all, done, 0);
        return SourceShort;
      }
      ghost var rest := br.data;
      var c, ok := CopyChunk(br, bw, keep, n - done);
      Extend(out, all, done, c);
      PrefixOfPrefix(all[..done], rest[..c], keep.buf.Length);
      if !ok {
        return PeerShort;
      }
      done := done + c;
    }
    Extend(out, all, done, 0);
    r := All;
  }

  // ---- one frame ---------------------------------------------------------

  datatype Forwarded = Whole(h: Header, kept: seq<byte>) | SourceFault(why: ReadError) | PeerFault

  // The fragment a header and a payload on the wire amount to.
  function FragmentOf(h: Header, payload: seq<byte>): Fragment
    requires |h.mask| == 4
  {
    Fragment(h, if h.masked then Masked(h.mask, 0, payload) else payload)
  }

  lemma FragmentWire(h: Header, payload: seq<byte>)
    requires |h.mask| == 4
    ensures WireOf(FragmentOf(h, payload)) == h.raw + payload
  {
    if h.masked {
      MaskedTwice(h.mask, 0, payload);
    }
  }

  // A whole frame stands at the head of s.
  ghost predicate HasFrame(s: seq<byte>) {
    var r := ParseHeader(s);
    r.Got? && r.taken + r.h.length <= |s|
  }

  ghost function FrameAt(s: seq<byte>): (f: Fragment)
    requires HasFrame(s)
    ensures |f.h.mask| == 4
    ensures WireOf(f) <= s && |WireOf(f)| >= 2
    ensures |f.plain| == f.h.length
  {
    var r := ParseHeader(s);
    FragmentWire(r.h, s[r.taken..r.taken + r.h.length]);
    FragmentOf(r.h, s[r.taken..r.taken + r.h.length])
  }

  // Forwards a header that was read and the payload behind it, keeping an unmasked prefix.
  method ForwardPayload(br: Reader, bw: BufWriter, h: Header, limit: nat) returns (r: Copied, kept: seq<byte>)
    requires bw.pending == [] && |h.mask| == 4
    modifies br, bw, bw.dst
    ensures bw.dst.room + |bw.dst.got| == old(bw.dst.room + |bw.dst.got|)
    ensures old(bw.dst.got) <= bw.dst.got <= old(bw.dst.got) + (h.raw + old(br.data))
    ensures r == All ==>
              && h.length <= |old(br.data)| && br.data == old(br.data)[h.length..]
              && bw.pending == [] && bw.dst.got == old(bw.dst.got) + (h.raw + old(br.data)[..h.length])
              && kept == Prefix(FragmentOf(h, old(br.data)[..h.length]).plain, limit)
    ensures r == SourceShort ==> |old(br.data)| < h.length && br.data == []
    ensures r == PeerShort ==> old(bw.dst.room) < |h.raw| + |old(br.data)|
  {
    ghost var was, rest := bw.dst.got, br.data;
    Nest(was, h.raw, rest);
    kept := [];
    var ok := bw.Write(h.raw);
    if !ok {
      assert h.raw <= h.raw + rest;
      return PeerShort, [];
    }
    assert bw.Out() == was + h.raw;
    var keep := new PrefixWriter(if limit < h.length then limit else h.length);
    r := CopyPayload(br, bw, keep, h.length);
    if r == All {
      Nest(was, h.raw, rest[..h.length]);
      assert h.raw + rest[..h.length] <= h.raw + rest;
      ok := bw.Flush();
      if !ok {
        return PeerShort, [];
      }
      if h.masked {
        Unmask(h.mask, 0, keep.buf);
        MaskedPrefix(h.mask, rest[..h.length], keep.buf.Length);
      }
      kept := keep.buf[..];
    }
  }

  lemma Splits(head: seq<byte>, tail: seq<byte>, rest: seq<byte>)
    requires head <= rest && tail == rest[|head|..]
    ensures rest == head + tail
  {
  }

  lemma Rejoin(was: seq<byte>, head: seq<byte>, tail: seq<byte>, rest: seq<byte>)
    requires head <= rest && tail == rest[|head|..]
    ensures (was + head) + tail == was + rest
  {
  }

  lemma Nest(a: seq<byte>, b: seq<byte>, c: seq<byte>)
    ensures (a + b) + c == a + (b + c)
    ensures a + b <= a + (b + c)
  {
  }

  // Reads one frame and forwards it whole.
  method ForwardFrame(br: Reader, bw: BufWriter, limit: nat) returns (r: Forwarded)
    requires bw.pending == []
    modifies br, bw, bw.dst
    ensures bw.dst.room + |bw.dst.got| == old(bw.dst.room + |bw.dst.got|)
    ensures old(bw.dst.got) <= bw.dst.got <= old(bw.dst.got) + old(br.data)
    ensures r.Whole? ==>
              && HasFrame(old(br.data))
              && var f := FrameAt(old(br.data));
              && r.h == f.h && r.kept == Prefix(f.plain, limit)
              && br.data == old(br.data)[|WireOf(f)|..]
              && bw.pending == [] && bw.dst.got == old(bw.dst.got) + WireOf(f)
    ensures r.SourceFault? ==> !HasFrame(old(br.data))
    ensures r.SourceFault? && ParseHeader(old(br.data)).Refused? ==>
              && r.why == ParseHeader(old(br.data)).why && bw.dst.got == old(bw.dst.got)
              && br.data == old(br.data)[ParseHeader(old(br.data)).taken..]
    ensures r.SourceFault? && ParseHeader(old(br.data)).Got? ==> r.why == Ended && br.data == []
    ensures r.PeerFault? ==> old(bw.dst.room) < |old(br.data)|
  {
    ghost var s := br.data;
    var read := ReadHeader(br);
    if read.Refused? {
      return SourceFault(read.why);
    }
    ghost var rest := br.data;
    assert s == read.h.raw + rest;
    var copied, kept := ForwardPayload(br, bw, read.h, limit);
    match copied {
      case PeerShort => r := PeerFault;
      case SourceShort => r := SourceFault(Ended);
      case All =>
        FrameSplits(s);
        r := Whole(read.h, kept);
    }
  }

  lemma FrameSplits(s: seq<byte>)
    requires HasFrame(s)
    ensures var r := ParseHeader(s);
            var rest := s[r.taken..];
            && FrameAt(s) == FragmentOf(r.h, rest[..r.h.length]) && FrameAt(s).h == r.h
            && WireOf(FrameAt(s)) == r.h.raw + rest[..r.h.length]
            && s[|WireOf(FrameAt(s))|..] == rest[r.h.length..]
  {
    var r := ParseHeader(s);
    var payload := s[r.taken..r.taken + r.h.length];
    FragmentWire(r.h, payload);
    assert s[r.taken..][..r.h.length] == payload;
  }

  // The frames of run are the ones that stand at the head of data, one after the other.
  ghost predicate ReadOff(run: Run, data: seq<byte>)
    requires Framed(run)
  {
    match run
    case Start => true
    case After(before, f) =>
      && ReadOff(before, data) && |Wire(before)| <= |data|
      && HasFrame(data[|Wire(before)|..]) && f == FrameAt(data[|Wire(before)|..])
  }

  lemma {:induction false} FirstStands(run: Run, data: seq<byte>)
    requires Framed(run) && ReadOff(run, data) && run.After?
    ensures HasFrame(data)
  {
    if run.before.After? {
      FirstStands(run.before, data);
    } else {
      assert data[0..] == data;
    }
  }

  // One run begins another.
  predicate Leads(a: Run, b: Run) {
    a == b || (b.After? && Leads(a, b.before))
  }

  // Of two runs read off the same bytes the shorter begins the longer.
  lemma {:induction false} ShorterLeads(a: Run, b: Run, data: seq<byte>)
    requires Framed(a) && Framed(b) && ReadOff(a, data) && ReadOff(b, data) && Count(a) <= Count(b)
    ensures Leads(a, b)
  {
    if b.After? {
      if Count(a) == Count(b) {
        ShorterLeads(a.before, b.before, data);
        SameCountSame(a.before, b.before);
      } else {
        ShorterLeads(a, b.before, data);
      }
    }
  }

  lemma {:induction false} LeadsIsShorter(a: Run, b: Run)
    requires Leads(a, b)
    ensures Count(a) <= Count(b)
  {
    if a != b {
      LeadsIsShorter(a, b.before);
    }
  }

  lemma SameCountSame(a: Run, b: Run)
    requires Leads(a, b) && Count(a) == Count(b)
    ensures a == b
  {
    if a != b {
      LeadsIsShorter(a, b.before);
    }
  }

  // Where the shorter stops, the longer has its next frame.
  lemma {:induction false} NextStands(a: Run, b: Run, data: seq<byte>)
    requires Framed(a) && Framed(b) && Accepted(b) && ReadOff(b, data) && Leads(a, b) && a != b
    ensures |Wire(a)| <= |data| && HasFrame(data[|Wire(a)|..]) && InOrder(a, FrameAt(data[|Wire(a)|..]))
  {
    if a != b.before {
      NextStands(a, b.before, data);
    }
  }

  // After some frames, all in order, a header stands that is refused as no header.
  ghost predicate RefusedAfter(run: Run, data: seq<byte>) {
    && Framed(run) && Accepted(run) && ReadOff(run, data) && |Wire(run)| <= |data|
    && ParseHeader(data[|Wire(run)|..]).Refused? && ParseHeader(data[|Wire(run)|..]).why == Protocol
  }

  // ---- the relay ---------------------------------------------------------

  datatype PumpEnd = SourceEnded(why: ReadError) | NotUnderstood | OutOfOrder | PeerFailed

  // Everything a turn of the pump may change, as a value.
  datatype View = View(
    data: seq<byte>, got: seq<byte>, room: nat, told: seq<WSMessage>, seqNo: nat, close: CloseWord)

  datatype TurnResult = Next | Last(end: PumpEnd)

  // What a direction that stopped at rest has passed on since it stood there.
  ghost predicate EndedAt(end: PumpEnd, run: Run, rest: seq<byte>, room: int, was: seq<byte>, got: seq<byte>) {
    match end
    case PeerFailed => room < |rest| && was <= got <= was + rest
    case SourceEnded(why) =>
      && !HasFrame(rest) && (ParseHeader(rest).Refused? ==> why == ParseHeader(rest).why != Protocol)
      && was <= got <= was + rest
    case OutOfOrder =>
      && HasFrame(rest) && !InOrder(run, FrameAt(rest))
      && was <= got <= was + rest && (room >= |rest| ==> got == was + rest)
    case NotUnderstood =>
      && ParseHeader(rest).Refused? && ParseHeader(rest).why == Protocol
      && var passed := rest[ParseHeader(rest).taken..];
      && was <= got <= was + passed && (room >= |rest| ==> got == was + passed)
  }

  // One direction of a connection. The counter and the close word are shared with the other, which
  // may move them whenever this one is not in the middle of an atomic step.
  class Relay {
    const limit: nat
    var seqNo: nat
    var closeSeen: bool
    var closeCode: nat
    var closeText: seq<byte>
    ghost var closeTheirs: bool

    // What this direction told the hooks.
    var told: seq<WSMessage>

    constructor (limit: nat)
      ensures this.limit == limit && seqNo == 0 && Close() == NoneYet && told == []
    {
      this.limit := limit;
      seqNo, closeSeen, closeCode, closeText, closeTheirs, told := 0, false, 0, [], false, [];
    }

    // The close word, and whose it is.
    ghost function Close(): CloseWord
      reads this
    {
      if !closeSeen then NoneYet
      else if closeTheirs then Theirs(closeCode, closeText)
      else Ours(closeCode, closeText)
    }

    method NoteClose(code: nat, reason: seq<byte>, ghost theirs: bool)
      modifies this`closeSeen, this`closeCode, this`closeText, this`closeTheirs
      ensures old(Close()) != NoneYet ==> Close() == old(Close())
      ensures old(Close()) == NoneYet ==> Close() == if theirs then Theirs(code, reason) else Ours(code, reason)
    {
      if !closeSeen {
        closeSeen, closeCode, closeText, closeTheirs := true, code, reason, theirs;
      }
    }

    // The other direction: it may take numbers, and hear a close.
    method OtherDirection()
      modifies this`seqNo, this`closeSeen, this`closeCode, this`closeText, this`closeTheirs
      ensures seqNo >= old(seqNo) && WordDrifts(old(Close()), Close())
    {
      var taken: nat, heard: bool := *, *;
      seqNo := seqNo + taken;
      if heard {
        var code: nat, reason: seq<byte> := *, *;
        NoteClose(code, reason, true);
      }
    }

    // A message is told under the next number there is.
    method Emit(e: Event)
      modifies this`seqNo, this`told, this`closeSeen, this`closeCode, this`closeText, this`closeTheirs
      ensures Tells(old(told), old(seqNo), told, seqNo, [e])
      ensures WordDrifts(old(Close()), Close())
    {
      OtherDirection();
      seqNo := seqNo + 1;
      TellsOne(told, old(seqNo), WSMessage(seqNo, e));
      told := told + [WSMessage(seqNo, e)];
    }

    // The assembler holds what run left open.
    ghost predicate Follows(asm: Assembler, run: Run)
      reads asm
    {
      && asm.Valid() && asm.limit == limit && asm.fragments == Open(run) && (asm.open <==> Open(run) != [])
      && (Open(run) != [] ==> asm.msg.opcode == Open(run)[0].h.opcode && asm.msg.compressed == Open(run)[0].h.rsv1)
    }

    method ReportControl(h: Header, kept: seq<byte>, ghost run: Run, ghost f: Fragment)
      requires IsControl(h.opcode) && f.h == h && kept == Prefix(f.plain, limit) && |f.plain| == h.length
      modifies this
      ensures Tells(old(told), old(seqNo), told, seqNo, NewEvents(run, f, limit))
      ensures WordMoves(old(Close()), f, limit, Close())
    {
      var close := (0, []);
      if h.opcode == CLOSE {
        close := ParseClose(kept);
        OtherDirection();
        NoteClose(close.0, close.1, false);
      }
      TellsNothing(told, old(seqNo), seqNo);
      ghost var word, from := Close(), seqNo;
      Emit(Event(h.opcode, h.length, kept, false, 1, false, close.0, close.1));
      TellsThen(old(told), old(seqNo), old(told), from, told, seqNo, [], [ControlEvent(f, limit)]);
      assert [] + [ControlEvent(f, limit)] == NewEvents(run, f, limit);
    }

    method ReportData(h: Header, kept: seq<byte>, asm: Assembler, ghost run: Run, ghost f: Fragment) returns (ok: bool)
      requires Follows(asm, run) && !IsControl(h.opcode)
      requires f.h == h && kept == Prefix(f.plain, limit) && |f.plain| == h.length
      modifies this, asm
      ensures ok <==> InOrder(run, f)
      ensures !ok ==> told == old(told) && seqNo == old(seqNo) && Close() == old(Close())
      ensures ok ==> Follows(asm, After(run, f)) && WordMoves(old(Close()), f, limit, Close())
      ensures ok ==> Tells(old(told), old(seqNo), told, seqNo, NewEvents(run, f, limit))
    {
      ok := asm.Begin(h);
      if !ok {
        return;
      }
      asm.Append(kept, h.length, f);
      if h.fin {
        var m := asm.Finish();
        Emit(DataEvent(m));
      } else {
        TellsNothing(told, seqNo, seqNo);
      }
    }

    method Report(h: Header, kept: seq<byte>, asm: Assembler, ghost run: Run, ghost f: Fragment) returns (ok: bool)
      requires Follows(asm, run)
      requires f.h == h && kept == Prefix(f.plain, limit) && |f.plain| == h.length
      modifies this, asm
      ensures ok <==> InOrder(run, f)
      ensures !ok ==> told == old(told) && seqNo == old(seqNo) && Close() == old(Close())
      ensures ok ==> Follows(asm, After(run, f)) && WordMoves(old(Close()), f, limit, Close())
      ensures ok ==> Tells(old(told), old(seqNo), told, seqNo, NewEvents(run, f, limit))
    {
      if IsControl(h.opcode) {
        ReportControl(h, kept, run, f);
        ok := true;
      } else {
        ok := ReportData(h, kept, asm, run, f);
      }
    }

    ghost function Look(br: Reader, dst: Sink): View
      reads this, br, dst
    {
      View(br.data, dst.got, dst.room, told, seqNo, Close())
    }

    // One more frame has gone by: forwarded as it was, in order, and reported.
    ghost predicate Advanced(now: View, next: View, run: Run, f: Fragment) {
      && HasFrame(now.data) && f == FrameAt(now.data) && InOrder(run, f) && |next.data| < |now.data|
      && now.data == WireOf(f) + next.data && next.got == now.got + WireOf(f)
      && next.room + |next.got| == now.room + |now.got|
      && Tells(now.told, now.seqNo, next.told, next.seqNo, NewEvents(run, f, limit))
      && WordMoves(now.close, f, limit, next.close)
    }

    // One turn of the pump: a frame read, forwarded and reported, or the end.
    method Turn(br: Reader, bw: BufWriter, asm: Assembler, ghost run: Run) returns (r: TurnResult)
      requires bw.pending == [] && Follows(asm, run)
      modifies this, br, bw, bw.dst, asm
      ensures bw.dst.room + |bw.dst.got| == old(bw.dst.room + |bw.dst.got|)
      ensures r.Last? ==> EndedAt(r.end, run, old(br.data), old(bw.dst.room), old(bw.dst.got), bw.dst.got)
      ensures r.Last? ==> told == old(told) && Close() == old(Close())
      ensures r.Next? ==>
                && bw.pending == [] && HasFrame(old(br.data))
                && var f := FrameAt(old(br.data));
                && Follows(asm, After(run, f)) && Advanced(old(Look(br, bw.dst)), Look(br, bw.dst), run, f)
    {
      ghost var was, rest := bw.dst.got, br.data;
      var fwd := ForwardFrame(br, bw, limit);
      match fwd {
        case PeerFault =>
          r := Last(PeerFailed);
        case SourceFault(why) =>
          if why == Protocol {
            CopyRest(br, bw.dst);
            r := Last(NotUnderstood);
          } else {
            r := Last(SourceEnded(why));
          }
        case Whole(h, kept) =>
          ghost var f := FrameAt(rest);
          Splits(WireOf(f), br.data, rest);
          var ok := Report(h, kept, asm, run, f);
          if ok {
            return Next;
          }
          Rejoin(was, WireOf(f), br.data, rest);
          CopyRest(br, bw.dst);
          r := Last(OutOfOrder);
      }
    }

    // From start, the frames of run have gone by, read off what there was.
    ghost predicate Reached(start: View, now: View, run: Run) {
      && Framed(run) && Accepted(run) && ReadOff(run, start.data)
      && start.data == Wire(run) + now.data
      && now.got == start.got + Wire(run)
      && now.room + |now.got| == start.room + |start.got|
      && Tells(start.told, start.seqNo, now.told, now.seqNo, Events(run, limit))
      && ClosedBy(start.close, run, limit, now.close)
    }

    // Between two turns the other direction moves what is shared, and nothing else.
    ghost predicate Drifted(now: View, next: View) {
      && next == now.(seqNo := next.seqNo, close := next.close)
      && next.seqNo >= now.seqNo && WordDrifts(now.close, next.close)
    }

    lemma ReachedDrifts(start: View, now: View, next: View, run: Run)
      requires Reached(start, now, run) && Drifted(now, next)
      ensures Reached(start, next, run)
    {
      TellsNothing(now.told, now.seqNo, next.seqNo);
      TellsThen(start.told, start.seqNo, now.told, now.seqNo, next.told, next.seqNo, Events(run, limit), []);
      assert Events(run, limit) + [] == Events(run, limit);
    }

    lemma ReachedNext(start: View, now: View, next: View, run: Run, f: Fragment)
      requires Reached(start, now, run) && Advanced(now, next, run, f)
      ensures Reached(start, next, After(run, f))
    {
      OneMore(run, f, limit);
      TellsThen(start.told, start.seqNo, now.told, now.seqNo, next.told, next.seqNo,
                Events(run, limit), NewEvents(run, f, limit));
      ClosedOn(start.close, run, limit, now.close, f, next.close);
      Nest(Wire(run), WireOf(f), next.data);
      Nest(start.got, Wire(run), WireOf(f));
      assert start.data[|Wire(run)|..] == now.data;
    }

    /**
     * Relays one direction to its end, while the other goes on. Up to some point, at, whole
     * frames went by as an accepted run: forwarded unchanged, reported in full, under rising
     * numbers. There the direction ended, in one of the ways EndedAt tells apart.
     */
    method Pump(br: Reader, dst: Sink) returns (end: PumpEnd, ghost run: Run, ghost at: View)
      modifies this, br, dst
      ensures Reached(old(Look(br, dst)), at, run)
      ensures EndedAt(end, run, at.data, at.room, at.got, dst.got)
      ensures told == at.told && Close() == at.close
    {
      ghost var start := Look(br, dst);
      var bw := new BufWriter(dst, 32768);
      var asm := new Assembler(limit);
      run := Start;
      TellsNothing(told, seqNo, seqNo);
      while true
        invariant fresh(bw) && fresh(asm) && bw.dst == dst && bw.pending == []
        invariant Reached(start, Look(br, dst), run) && Follows(asm, run)
        decreases |br.data|
      {
        ghost var now := Look(br, dst);
        OtherDirection();
        at := Look(br, dst);
        ReachedDrifts(start, now, at, run);
        var turn := Turn(br, bw, asm, run);
        if turn.Last? {
          return turn.end, run, at;
        }
        ghost var f := FrameAt(at.data);
        ReachedNext(start, at, Look(br, dst), run, f);
        run := After(run, f);
      }
    }

    /**
     * What the peer got is a prefix of what was read, and all of it when it had room
     * and the source ended between frames or only fragments were out of order. A header
     * that was not understood is the exception: its own bytes, two at least, are lost.
     */
    lemma Transparent(start: View, at: View, run: Run, end: PumpEnd, got: seq<byte>)
      requires Reached(start, at, run) && EndedAt(end, run, at.data, at.room, at.got, got)
      ensures start.got + Wire(run) <= got
      ensures end != NotUnderstood ==> got <= start.got + start.data
      ensures start.room >= |start.data| && (end == OutOfOrder || (end.SourceEnded? && at.data == [])) ==>
                got == start.got + start.data
      ensures end == NotUnderstood ==>
                && |got| <= |start.got + start.data| - 2
                && (start.room >= |start.data| ==>
                      got == start.got + Wire(run) + at.data[ParseHeader(at.data).taken..])
    {
      Nest(start.got, Wire(run), at.data);
      assert at.got + at.data == start.got + start.data;
      if end == NotUnderstood {
        ProtocolTakesTwo(at.data);
      }
    }

    /**
     * Which streams lose a header: with room for all of it at the peer, exactly those that
     * hold, behind frames all in order, a header refused as no header.
     */
    lemma LosesAHeaderExactly(start: View, at: View, run: Run, end: PumpEnd, got: seq<byte>)
      requires Reached(start, at, run) && EndedAt(end, run, at.data, at.room, at.got, got)
      requires start.room >= |start.data|
      ensures end == NotUnderstood <==> exists r :: RefusedAfter(r, start.data)
    {
      assert start.data[|Wire(run)|..] == at.data;
      assert at.room >= |at.data|;
      if end == NotUnderstood {
        assert RefusedAfter(run, start.data);
      }
      if r :| RefusedAfter(r, start.data) {
        if Count(run) < Count(r) {
          ShorterLeads(run, r, start.data);
          NextStands(run, r, start.data);
        } else {
          ShorterLeads(r, run, start.data);
          if r != run {
            NextStands(r, run, start.data);
          }
        }
      }
    }
  }

  lemma ProtocolTakesTwo(s: seq<byte>)
    requires ParseHeader(s).Refused? && ParseHeader(s).why == Protocol
    ensures ParseHeader(s).taken >= 2
  {
  }

  // io.Copy: everything left, as far as the peer takes it.
  method CopyRest(br: Reader, dst: Sink)
    modifies dst
    ensures old(dst.got) <= dst.got <= old(dst.got) + br.data
    ensures old(dst.room) >= |br.data| ==> dst.got == old(dst.got) + br.data
    ensures dst.room + |dst.got| == old(dst.room + |dst.got|)
  {
    var _ := dst.Write(br.data);
  }

  /** A frame with an opcode no one knows, and one byte behind it: the byte reaches the peer, the header does not. */
  method HeaderIsLost() returns (dst: Sink, end: PumpEnd)
    ensures end == NotUnderstood && dst.got == [7]
  {
    var data: seq<byte> := [131, 0, 7];
    var relay := new Relay(1024);
    var br := new Reader(data);
    dst := new Sink(3);
    ghost var run, at;
    assert ParseHeader(data) == Refused(Protocol, 2);
    ghost var start := relay.Look(br, dst);
    end, run, at := relay.Pump(br, dst);
    if run.After? {
      FirstStands(run, data);
    }
    assert at.data == data && at.got == [];
  }
}
