/**
 * One direction of a relayed WebSocket: frames are forwarded as they were read
 * while an unmasked, bounded copy of each message is put together on the side.
 */
module WsRelay {
  import opened Bytes
  import opened Sequences
  import opened WsFrame

  // ---- what the hooks are told -------------------------------------------

  // One WebSocket message as a hook sees it, without its number and time.
  datatype Event = Event(
    opcode: Opcode, size: nat, payload: seq<byte>, truncated: bool, frames: nat, compressed: bool,
    closeCode: nat, closeReason: seq<byte>)

  datatype WSMessage = WSMessage(seqNo: nat, event: Event)

  // The status and reason of a close payload.
  function ParseClose(payload: seq<byte>): (nat, seq<byte>) {
    if |payload| < 2 then (NO_STATUS, []) else (FromBigEndian(payload[..2]), payload[2..])
  }

  function ControlEvent(f: Fragment, limit: nat): Event {
    var kept := Prefix(f.plain, limit);
    var close := if f.h.opcode == CLOSE then ParseClose(kept) else (0, []);
    Event(f.h.opcode, |f.plain|, kept, false, 1, false, close.0, close.1)
  }

  function DataEvent(m: Message): Event {
    Event(m.opcode, m.size, m.payload, m.truncated, m.frames, m.compressed, 0, [])
  }

  // ---- a run of frames, as the pump goes through it ----------------------

  // The frames read so far, oldest innermost.
  datatype Run = Start | After(before: Run, f: Fragment)

  function Count(run: Run): nat {
    match run
    case Start => 0
    case After(before, _) => 1 + Count(before)
  }

  // The fragments of the message still open.
  function Open(run: Run): seq<Fragment> {
    match run
    case Start => []
    case After(before, f) =>
      if IsControl(f.h.opcode) then Open(before) else if f.h.fin then [] else Open(before) + [f]
  }

  // What the hooks are told: each control frame as it comes, each message when it is whole.
  function Events(run: Run, limit: nat): seq<Event> {
    match run
    case Start => []
    case After(before, f) =>
      if IsControl(f.h.opcode) then Events(before, limit) + [ControlEvent(f, limit)]
      else if f.h.fin then Events(before, limit) + [DataEvent(MessageOf(Open(before) + [f], limit))]
      else Events(before, limit)
  }

  // What one more frame adds to that.
  function NewEvents(before: Run, f: Fragment, limit: nat): seq<Event> {
    if IsControl(f.h.opcode) then [ControlEvent(f, limit)]
    else if f.h.fin then [DataEvent(MessageOf(Open(before) + [f], limit))]
    else []
  }

  lemma OneMore(run: Run, f: Fragment, limit: nat)
    ensures Events(After(run, f), limit) == Events(run, limit) + NewEvents(run, f, limit)
  {
    assert Events(run, limit) + [] == Events(run, limit);
  }

  // A data frame continues a message exactly when one is open.
  predicate InOrder(before: Run, f: Fragment) {
    IsControl(f.h.opcode) || (f.h.opcode == CONTINUATION <==> Open(before) != [])
  }

  predicate Accepted(run: Run) {
    match run
    case Start => true
    case After(before, f) => Accepted(before) && InOrder(before, f)
  }

  // ---- the same run, sorted into messages --------------------------------

  // Only the data frames.
  function Data(run: Run): Run {
    match run
    case Start => Start
    case After(before, f) => if IsControl(f.h.opcode) then Data(before) else After(Data(before), f)
  }

  function List(run: Run): seq<Fragment> {
    match run
    case Start => []
    case After(before, f) => List(before) + [f]
  }

  // Data frames cut after each final one; what follows the last cut is not a message yet.
  function Messages(data: Run): seq<seq<Fragment>> {
    match data
    case Start => []
    case After(before, f) => if f.h.fin then Messages(before) + [Tail(before) + [f]] else Messages(before)
  }

  function Tail(data: Run): seq<Fragment> {
    match data
    case Start => []
    case After(before, f) => if f.h.fin then [] else Tail(before) + [f]
  }

  function Flatten(groups: seq<seq<Fragment>>): seq<Fragment> {
    if groups == [] then [] else Flatten(groups[..|groups| - 1]) + groups[|groups| - 1]
  }

  // The data events some messages make, and the data events among some events.
  function Reassembled(groups: seq<seq<Fragment>>, limit: nat): seq<Event> {
    seq(|groups|, i requires 0 <= i < |groups| => DataEvent(MessageOf(groups[i], limit)))
  }

  function DataEvents(events: seq<Event>): seq<Event> {
    if events == [] then []
    else
      var e, before := events[|events| - 1], DataEvents(events[..|events| - 1]);
      if IsControl(e.opcode) then before else before + [e]
  }

  // A first fragment that opens a message, continuations after it, and only the last one final.
  ghost predicate IsMessage(g: seq<Fragment>) {
    && g != []
    && forall i :: 0 <= i < |g| ==>
                     && !IsControl(g[i].h.opcode)
                     && (g[i].h.opcode == CONTINUATION <==> i > 0)
                     && (g[i].h.fin <==> i == |g| - 1)
  }

  ghost predicate AllMessages(groups: seq<seq<Fragment>>) {
    forall i :: 0 <= i < |groups| ==> IsMessage(groups[i])
  }

  // The same without its end.
  ghost predicate IsOpen(g: seq<Fragment>) {
    forall i :: 0 <= i < |g| ==> !IsControl(g[i].h.opcode) && !g[i].h.fin && (g[i].h.opcode == CONTINUATION <==> i > 0)
  }

  lemma OneMoreGroup(groups: seq<seq<Fragment>>, g: seq<Fragment>, limit: nat)
    ensures Flatten(groups + [g]) == Flatten(groups) + g
    ensures Reassembled(groups + [g], limit) == Reassembled(groups, limit) + [DataEvent(MessageOf(g, limit))]
  {
    assert (groups + [g])[..|groups|] == groups;
  }

  lemma OneMoreEvent(a: seq<Event>, e: Event)
    ensures DataEvents(a + [e]) == if IsControl(e.opcode) then DataEvents(a) else DataEvents(a) + [e]
  {
    assert (a + [e])[..|a|] == a;
  }

  lemma {:induction false} OpenIsTail(run: Run)
    requires Accepted(run)
    ensures Open(run) == Tail(Data(run)) && IsOpen(Open(run))
  {
    match run {
      case Start =>
      case After(before, f) => OpenIsTail(before);
    }
  }

  // Every data frame is in one message or in the tail, in order.
  lemma {:induction false} NothingLost(data: Run)
    ensures Flatten(Messages(data)) + Tail(data) == List(data)
  {
    match data {
      case Start =>
      case After(before, f) =>
        NothingLost(before);
        OneMoreGroup(Messages(before), Tail(before) + [f], 0);
        assert Flatten(Messages(before)) + (Tail(before) + [f]) == List(before) + [f];
    }
  }

  lemma {:induction false} AcceptedMakesMessages(run: Run)
    requires Accepted(run)
    ensures AllMessages(Messages(Data(run)))
  {
    match run {
      case Start =>
      case After(before, f) =>
        AcceptedMakesMessages(before);
        OpenIsTail(before);
        if !IsControl(f.h.opcode) && f.h.fin {
          assert IsMessage(Open(before) + [f]);
        }
    }
  }

  lemma {:induction false} DataIsReported(run: Run, limit: nat)
    requires Accepted(run)
    ensures DataEvents(Events(run, limit)) == Reassembled(Messages(Data(run)), limit)
  {
    match run {
      case Start =>
      case After(before, f) =>
        DataIsReported(before, limit);
        OpenIsTail(before);
        if IsControl(f.h.opcode) {
          OneMoreEvent(Events(before, limit), ControlEvent(f, limit));
        } else if f.h.fin {
          var g := Open(before) + [f];
          assert g[0] == f || g[0] == Open(before)[0];
          OneMoreEvent(Events(before, limit), DataEvent(MessageOf(g, limit)));
          OneMoreGroup(Messages(Data(before)), g, limit);
        }
    }
  }

  /**
   * Of any accepted run, the data messages reported are the run's messages in
   * order, and every data frame is in exactly one of them or in the open tail.
   */
  lemma ReportedAreReassembled(run: Run, limit: nat)
    requires Accepted(run)
    ensures DataEvents(Events(run, limit)) == Reassembled(Messages(Data(run)), limit)
    ensures Flatten(Messages(Data(run))) + Open(run) == List(Data(run))
    ensures AllMessages(Messages(Data(run)))
  {
    DataIsReported(run, limit);
    NothingLost(Data(run));
    OpenIsTail(run);
    AcceptedMakesMessages(run);
  }

  // ---- what is said of each ----------------------------------------------

  lemma JoinedMore(fs: seq<Fragment>, f: Fragment)
    ensures Joined(fs + [f]) == Joined(fs) + f.plain
  {
    assert (fs + [f])[..|fs|] == fs;
  }

  lemma JoinedStep(a: seq<Fragment>, b: seq<Fragment>, f: Fragment)
    requires Joined(a + b) == Joined(a) + Joined(b)
    ensures Joined(a + (b + [f])) == Joined(a) + Joined(b + [f])
  {
    JoinedMore(b, f);
    JoinedMore(a + b, f);
    Regrouped(a, b, [f]);
    Regrouped(Joined(a), Joined(b), f.plain);
  }

  lemma {:induction false} JoinedAdds(a: seq<Fragment>, b: seq<Fragment>)
    ensures Joined(a + b) == Joined(a) + Joined(b)
  {
    if b == [] {
      assert a + b == a;
    } else {
      var head, last := b[..|b| - 1], b[|b| - 1];
      JoinedAdds(a, head);
      JoinedStep(a, head, last);
      assert b == head + [last];
    }
  }

  lemma JoinedOne(f: Fragment)
    ensures Joined([f]) == f.plain
  {
    assert [f][..0] == [];
  }

  /**
   * A message is reported under its first frame's opcode and compression, with the size of its payloads end to
   * end, as much of them as the limit allows, and whether that was all.
   */
  lemma MessagesAreReported(g: seq<Fragment>, limit: nat)
    requires g != []
    ensures var e, whole := DataEvent(MessageOf(g, limit)), g[0].plain + Joined(g[1..]);
            && e.opcode == g[0].h.opcode && e.compressed == g[0].h.rsv1 && e.frames == |g|
            && e.size == |whole| && e.payload <= whole
            && (e.truncated <==> |whole| > limit) && |e.payload| == (if e.truncated then limit else |whole|)
            && e.closeCode == 0 && e.closeReason == []
  {
    assert g == [g[0]] + g[1..];
    JoinedAdds([g[0]], g[1..]);
    JoinedOne(g[0]);
  }

  /**
   * A control frame is reported as it is, whole, when the limit leaves room for one. A close that says why gives
   * its code, most significant byte first, and its reason, and one that does not gives code 1005.
   */
  lemma ControlsAreReported(f: Fragment, limit: nat, code: nat, reason: seq<byte>)
    requires |f.plain| <= MAX_CONTROL_PAYLOAD <= limit && code < 0x1_0000
    ensures var e := ControlEvent(f, limit);
            && e.opcode == f.h.opcode && e.payload == f.plain && e.size == |f.plain| && e.frames == 1
            && !e.truncated && !e.compressed
            && (f.h.opcode == CLOSE && f.plain == [code / 256, code % 256] + reason ==>
                  e.closeCode == code && e.closeReason == reason)
            && (f.h.opcode == CLOSE && |f.plain| < 2 ==> e.closeCode == 1005 && e.closeReason == [])
            && (f.h.opcode != CLOSE ==> e.closeCode == 0 && e.closeReason == [])
  {
    var word: seq<byte> := [code / 256, code % 256];
    MostSignificantFirst(code / 256, [code % 256]);
    assert word == [code / 256] + [code % 256];
    assert [code % 256][..0] == [];
    assert f.plain == word + reason ==> f.plain[..2] == word && f.plain[2..] == reason;
  }

  // Taking the control frames out leaves a run that is accepted just as well.
  lemma {:induction false} DataIsAccepted(run: Run)
    requires Accepted(run)
    ensures Accepted(Data(run)) && Data(Data(run)) == Data(run) && Open(Data(run)) == Open(run)
  {
    match run {
      case Start =>
      case After(before, f) => DataIsAccepted(before);
    }
  }

  /** Deleting the interleaved control frames changes no data message. */
  lemma ControlFramesDoNotMatter(run: Run, limit: nat)
    requires Accepted(run)
    ensures Accepted(Data(run))
    ensures DataEvents(Events(Data(run), limit)) == DataEvents(Events(run, limit))
  {
    DataIsAccepted(run);
    DataIsReported(run, limit);
    DataIsReported(Data(run), limit);
  }

  // ---- the bytes of a run ------------------------------------------------

  // A frame as it stood on the wire.
  function WireOf(f: Fragment): seq<byte>
    requires |f.h.mask| == 4
  {
    f.h.raw + if f.h.masked then Masked(f.h.mask, 0, f.plain) else f.plain
  }

  ghost predicate Framed(run: Run) {
    match run
    case Start => true
    case After(before, f) => Framed(before) && |f.h.mask| == 4
  }

  function Wire(run: Run): seq<byte>
    requires Framed(run)
  {
    match run
    case Start => []
    case After(before, f) => Wire(before) + WireOf(f)
  }

  // The first close frame of a run.
  function FirstClose(run: Run): seq<Fragment> {
    match run
    case Start => []
    case After(before, f) =>
      if FirstClose(before) != [] then FirstClose(before) else if f.h.opcode == CLOSE then [f] else []
  }

  // ---- what is told, and under which numbers -----------------------------

  function EventsOf(ms: seq<WSMessage>): seq<Event> {
    seq(|ms|, i requires 0 <= i < |ms| => ms[i].event)
  }

  /**
   * Between two moments this direction told of some events, in order, under rising numbers. The
   * counter is shared with the other direction, which takes what numbers lie between.
   */
  ghost predicate Tells(was: seq<WSMessage>, from: nat, now: seq<WSMessage>, to: nat, events: seq<Event>) {
    && from <= to && was <= now && EventsOf(now[|was|..]) == events
    && (forall i :: |was| <= i < |now| ==> from < now[i].seqNo <= to)
    && (forall i :: |was| < i < |now| ==> now[i - 1].seqNo < now[i].seqNo)
  }

  lemma TellsNothing(ms: seq<WSMessage>, from: nat, to: nat)
    requires from <= to
    ensures Tells(ms, from, ms, to, [])
  {
    assert ms[|ms|..] == [];
  }

  lemma TellsOne(ms: seq<WSMessage>, from: nat, m: WSMessage)
    requires from < m.seqNo
    ensures Tells(ms, from, ms + [m], m.seqNo, [m.event])
  {
    assert (ms + [m])[|ms|..] == [m];
  }

  lemma TellsThen(a: seq<WSMessage>, n0: nat, b: seq<WSMessage>, n1: nat, c: seq<WSMessage>, n2: nat,
                  first: seq<Event>, then_: seq<Event>)
    requires Tells(a, n0, b, n1, first) && Tells(b, n1, c, n2, then_)
    ensures Tells(a, n0, c, n2, first + then_)
  {
    assert c[|a|..] == b[|a|..] + c[|b|..];
    assert forall i :: |a| <= i < |b| ==> c[i] == b[i];
    assert EventsOf(c[|a|..]) == EventsOf(b[|a|..]) + EventsOf(c[|b|..]);
  }

  // The close word on record: none yet, one this direction heard, or one the other did.
  datatype CloseWord = NoneYet | Ours(code: nat, reason: seq<byte>) | Theirs(code: nat, reason: seq<byte>)

  function WordOf(f: Fragment, limit: nat): CloseWord {
    var close := ParseClose(Prefix(f.plain, limit));
    Ours(close.0, close.1)
  }

  /** The first word stands; if it is this direction's, it is that of the run's first close frame. */
  predicate ClosedBy(start: CloseWord, run: Run, limit: nat, now: CloseWord) {
    if start != NoneYet then now == start
    else
      match now
      case NoneYet => FirstClose(run) == []
      case Ours(_, _) => FirstClose(run) != [] && now == WordOf(FirstClose(run)[0], limit)
      case Theirs(_, _) => true
  }

  // What one frame, and whatever the other direction does meanwhile, make of the word.
  predicate WordMoves(was: CloseWord, f: Fragment, limit: nat, now: CloseWord) {
    if was != NoneYet then now == was
    else now.Theirs? || now == if f.h.opcode == CLOSE then WordOf(f, limit) else NoneYet
  }

  // What the other direction alone makes of it.
  predicate WordDrifts(was: CloseWord, now: CloseWord) {
    now == was || (was == NoneYet && now.Theirs?)
  }

  lemma ClosedOn(start: CloseWord, run: Run, limit: nat, was: CloseWord, f: Fragment, now: CloseWord)
    requires ClosedBy(start, run, limit, was) && WordMoves(was, f, limit, now)
    ensures ClosedBy(start, After(run, f), limit, now)
  {
  }
}
