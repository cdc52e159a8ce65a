/**
 * One exchange held for the console, and everyone who may answer it: forwards, drops
 * and releases that overlap in any order with each other and with the client giving up.
 */
module Intercept {
  import opened Wrappers

  type Message = int

  // How the hold stands: past the check that wants it held, waiting for an answer, answered
  // (None refuses the exchange), or left by its client.
  datatype Hold = Deciding | Waiting | Answered(answer: Option<Message>) | GaveUp

  // A forward as it is, or edited; a drop; or the release that switching off brings.
  datatype Kind = Forward(edited: bool) | Drop | Release

  datatype Answerer =
    | Asked(kind: Kind)
    | Found(kind: Kind)
    | Editing
    | Sending(kind: Kind, answer: Option<Message>)
    | Succeeded(kind: Kind, answer: Option<Message>)
    | Gone(kind: Kind)
    | NotFound(kind: Kind)
    | Refused

  // What the steps share. received says who was heard, as a history no code keeps.
  datatype Shared = Shared(
    item: Message, enabled: bool, hold: Hold, listed: bool, closed: bool, claimed: bool, received: Option<nat>)

  datatype State = State(g: Shared, answerers: seq<Answerer>)

  datatype HoldStep = Register | GiveUp | CloseDone | Unlist

  datatype Action =
    | Holds(step: HoldStep)
    | Answers(who: nat, edit: Option<Message>)
    | Ask(kind: Kind)
    | SwitchOff

  function Begin(item: Message): State {
    State(Shared(item, true, Deciding, false, false, false, None), [])
  }

  predicate Ended(h: Hold) {
    h.Answered? || h.GaveUp?
  }

  function HoldNext(g: Shared, step: HoldStep): Option<Shared> {
    match step
    case Register => if g.hold.Deciding? then Some(g.(hold := Waiting, listed := true)) else None
    case GiveUp => if g.hold.Waiting? then Some(g.(hold := GaveUp)) else None
    case CloseDone => if Ended(g.hold) && !g.closed then Some(g.(closed := true)) else None
    case Unlist => if g.closed && g.listed then Some(g.(listed := false)) else None
  }

  // One step of an answerer. edit is what an edited forward makes of the item, or None if it cannot.
  function Move(a: Answerer, g: Shared, who: nat, edit: Option<Message>): Option<(Answerer, Shared)> {
    match a
    case Asked(kind) => Some((if g.listed then Found(kind) else NotFound(kind), g))
    case Found(kind) =>
      if kind.Drop? then Some((Sending(kind, None), g))
      else if kind.Release? then Some((Sending(kind, Some(g.item)), g))
      else if g.claimed then Some((NotFound(kind), g))
      else Some((if kind.edited then Editing else Sending(kind, Some(g.item)), g.(claimed := true)))
    case Editing =>
      // An edit that fails takes its claim back.
      if edit.None? then Some((Refused, g.(claimed := false))) else Some((Sending(Forward(true), edit), g))
    case Sending(kind, answer) =>
      // The answer meets the hold, or the hold is over.
      if g.hold.Waiting? then Some((Succeeded(kind, answer), g.(hold := Answered(answer), received := Some(who))))
      else if g.closed then Some((Gone(kind), g))
      else None
    case Succeeded(_, _) | Gone(_) | NotFound(_) | Refused => None
  }

  function Next(s: State, a: Action): Option<State> {
    match a
    case Holds(step) =>
      (
        match HoldNext(s.g, step)
        case None => None
        case Some(g) => Some(s.(g := g))
      )
    case Answers(who, edit) =>
      if who >= |s.answerers| then None
      else (
        match Move(s.answerers[who], s.g, who, edit)
        case None => None
        case Some((a', g)) => Some(State(g, s.answerers[who := a']))
      )
    case Ask(kind) =>
      if kind.Release? && s.g.enabled then None else Some(s.(answerers := s.answerers + [Asked(kind)]))
    case SwitchOff => Some(s.(g := s.g.(enabled := false)))
  }

  datatype Steps = Start | After(before: Steps, action: Action)

  function End(s: State, steps: Steps): Option<State> {
    match steps
    case Start => Some(s)
    case After(before, action) =>
      var t := End(s, before);
      if t.None? then None else Next(t.value, action)
  }

  // ---- what every step keeps ---------------------------------------------

  // A forward that has claimed the item and not given it back.
  predicate HasClaim(a: Answerer) {
    a.Editing? || ((a.Sending? || a.Succeeded? || a.Gone?) && a.kind.Forward?)
  }

  // What an answerer may send.
  predicate Sends(kind: Kind, answer: Option<Message>, item: Message) {
    match kind
    case Forward(edited) => answer.Some? && (!edited ==> answer == Some(item))
    case Drop => answer.None?
    case Release => answer == Some(item)
  }

  predicate AnswererOk(a: Answerer, g: Shared) {
    && (a.Found? || a.Editing? || a.Sending? || a.Succeeded? || a.Gone? || a.Refused? ==> !g.hold.Deciding?)
    && (a.Sending? || a.Succeeded? ==> Sends(a.kind, a.answer, g.item))
    && (a.Gone? ==> g.closed)
  }

  predicate SharedOk(g: Shared) {
    && (g.closed ==> Ended(g.hold))
    && (g.hold.Deciding? ==> !g.listed && !g.claimed)
    && (!g.hold.Deciding? && !g.closed ==> g.listed)
    && (g.hold.Answered? <==> g.received.Some?)
  }

  // The claim is up exactly while one forward has it.
  ghost predicate ClaimOk(g: Shared, answerers: seq<Answerer>) {
    && (g.claimed ==> exists k :: 0 <= k < |answerers| && HasClaim(answerers[k]))
    && (forall k :: 0 <= k < |answerers| && HasClaim(answerers[k]) ==> g.claimed)
    && (forall i, j :: 0 <= i < j < |answerers| ==> !HasClaim(answerers[i]) || !HasClaim(answerers[j]))
  }

  // The one who succeeded is the one who was heard.
  predicate HeardOk(a: Answerer, k: nat, g: Shared) {
    if g.received == Some(k) then a.Succeeded? && g.hold == Answered(a.answer) else !a.Succeeded?
  }

  ghost predicate Sound(s: State) {
    && SharedOk(s.g) && ClaimOk(s.g, s.answerers)
    && (forall k :: 0 <= k < |s.answerers| ==> AnswererOk(s.answerers[k], s.g) && HeardOk(s.answerers[k], k, s.g))
    && (s.g.received.Some? ==> s.g.received.value < |s.answerers|)
  }

  // A step leaves the claim as it was, puts it up, or gives it back.
  lemma AnswerKeepsClaim(s: State, who: nat, a': Answerer, g': Shared)
    requires ClaimOk(s.g, s.answerers) && who < |s.answerers|
    requires var a := s.answerers[who];
             || (g'.claimed == s.g.claimed && HasClaim(a') == HasClaim(a))
             || (!s.g.claimed && g'.claimed && !HasClaim(a) && HasClaim(a'))
             || (HasClaim(a) && !HasClaim(a') && !g'.claimed)
    ensures ClaimOk(g', s.answerers[who := a'])
  {
    var next := s.answerers[who := a'];
    if g'.claimed {
      if HasClaim(a') {
        assert HasClaim(next[who]);
      } else {
        var k :| 0 <= k < |s.answerers| && HasClaim(s.answerers[k]);
        assert HasClaim(next[k]);
      }
    }
  }

  lemma AnswerKeeps(s: State, who: nat, edit: Option<Message>)
    requires Sound(s) && Next(s, Answers(who, edit)).Some?
    ensures Sound(Next(s, Answers(who, edit)).value) && Next(s, Answers(who, edit)).value.g.item == s.g.item
  {
    var t := Next(s, Answers(who, edit)).value;
    var a := s.answerers[who];
    AnswerKeepsClaim(s, who, t.answerers[who], t.g);
    forall k | 0 <= k < |t.answerers| ensures AnswererOk(t.answerers[k], t.g) && HeardOk(t.answerers[k], k, t.g) {
    }
  }

  lemma HoldKeeps(s: State, step: HoldStep)
    requires Sound(s) && HoldNext(s.g, step).Some?
    ensures Sound(Next(s, Holds(step)).value) && Next(s, Holds(step)).value.g.item == s.g.item
  {
    var t := Next(s, Holds(step)).value;
    forall k | 0 <= k < |t.answerers| ensures AnswererOk(t.answerers[k], t.g) && HeardOk(t.answerers[k], k, t.g) {
      assert AnswererOk(s.answerers[k], s.g) && HeardOk(s.answerers[k], k, s.g);
    }
  }

  lemma AskKeeps(s: State, kind: Kind)
    requires Sound(s)
    ensures Sound(s.(answerers := s.answerers + [Asked(kind)]))
  {
    var next := s.answerers + [Asked(kind)];
    if s.g.claimed {
      var k :| 0 <= k < |s.answerers| && HasClaim(s.answerers[k]);
      assert HasClaim(next[k]);
    }
  }

  // Some interleaving leads here.
  ghost predicate Reachable(s: State, item: Message) {
    exists steps :: End(Begin(item), steps) == Some(s)
  }

  lemma {:induction false} EveryInterleaving(item: Message, steps: Steps)
    requires End(Begin(item), steps).Some?
    ensures Sound(End(Begin(item), steps).value) && End(Begin(item), steps).value.g.item == item
  {
    if steps.After? {
      EveryInterleaving(item, steps.before);
      var s := End(Begin(item), steps.before).value;
      match steps.action
      case Holds(step) => HoldKeeps(s, step);
      case Answers(who, edit) => AnswerKeeps(s, who, edit);
      case Ask(kind) => AskKeeps(s, kind);
      case SwitchOff =>
    }
  }

  lemma ReachableIsSound(s: State, item: Message)
    requires Reachable(s, item)
    ensures Sound(s) && s.g.item == item
  {
    var steps :| End(Begin(item), steps) == Some(s);
    EveryInterleaving(item, steps);
  }

  // ---- what the protocol guarantees --------------------------------------

  /** One answer at most is heard; the hold goes on with it, and no one else is told it succeeded. */
  lemma OneAnswerIsHeard(s: State, item: Message, i: nat, j: nat)
    requires Reachable(s, item) && i < |s.answerers| && s.answerers[i].Succeeded?
    ensures s.g.hold == Answered(s.answerers[i].answer)
    ensures j < |s.answerers| && s.answerers[j].Succeeded? ==> j == i
    ensures match s.answerers[i].kind
            case Forward(edited) => s.g.hold.answer.Some? && (!edited ==> s.g.hold.answer == Some(item))
            case Drop => s.g.hold.answer == None
            case Release => s.g.hold.answer == Some(item)
  {
    ReachableIsSound(s, item);
    assert AnswererOk(s.answerers[i], s.g);
  }

  // Somewhere along the steps answerer i stood editing, and its edit made m of the item.
  predicate MadeBy(s: State, steps: Steps, i: nat, m: Message) {
    match steps
    case Start => false
    case After(before, action) =>
      || MadeBy(s, before, i, m)
      || (action == Answers(i, Some(m)) && End(s, before).Some?
          && i < |End(s, before).value.answerers| && End(s, before).value.answerers[i] == Editing)
  }

  // What an edited forward sends, or was told it sent, is what its edit made.
  ghost predicate SendsItsEdit(s: State, steps: Steps, a: Answerer, i: nat) {
    (a.Sending? || a.Succeeded?) && a.kind == Forward(true) ==>
      a.answer.Some? && MadeBy(s, steps, i, a.answer.value)
  }

  lemma {:induction false} EditsAreSent(item: Message, steps: Steps, i: nat)
    requires End(Begin(item), steps).Some? && i < |End(Begin(item), steps).value.answerers|
    ensures SendsItsEdit(Begin(item), steps, End(Begin(item), steps).value.answerers[i], i)
  {
    if steps.After? {
      var t := End(Begin(item), steps.before).value;
      if i < |t.answerers| {
        EditsAreSent(item, steps.before, i);
      }
    }
  }

  // An answerer makes one edit, and is past editing once it has.
  lemma {:induction false} EditsAreMadeOnce(item: Message, steps: Steps, i: nat, m: Message)
    requires End(Begin(item), steps).Some? && MadeBy(Begin(item), steps, i, m)
    ensures var s := End(Begin(item), steps).value;
            && i < |s.answerers|
            && (s.answerers[i] == Gone(Forward(true)) || s.answerers[i] == Sending(Forward(true), Some(m))
                || s.answerers[i] == Succeeded(Forward(true), Some(m)))
  {
    if MadeBy(Begin(item), steps.before, i, m) {
      EditsAreMadeOnce(item, steps.before, i, m);
    }
  }

  /** What goes on after an edited forward succeeds is the very message its edit made, and it made no other. */
  lemma WhatWasEditedGoesOn(item: Message, steps: Steps, s: State, i: nat)
    requires End(Begin(item), steps) == Some(s) && i < |s.answerers|
    requires s.answerers[i].Succeeded? && s.answerers[i].kind == Forward(true)
    ensures s.g.hold.Answered?
    ensures forall m :: MadeBy(Begin(item), steps, i, m) <==> s.g.hold.answer == Some(m)
  {
    EditsAreSent(item, steps, i);
    EveryInterleaving(item, steps);
    forall m | MadeBy(Begin(item), steps, i, m) ensures s.g.hold.answer == Some(m) {
      EditsAreMadeOnce(item, steps, i, m);
    }
  }

  /** A hold that was answered had someone who was told so; and once it is answered or left, that does not change. */
  lemma AnsweredBySomeone(s: State, item: Message, a: Action)
    requires Reachable(s, item) && Ended(s.g.hold)
    ensures s.g.hold.Answered? ==>
              exists i :: 0 <= i < |s.answerers| && s.answerers[i].Succeeded?
                          && s.answerers[i].answer == s.g.hold.answer
    ensures Next(s, a).Some? ==> Next(s, a).value.g.hold == s.g.hold && Next(s, a).value.g.received == s.g.received
  {
    ReachableIsSound(s, item);
    if s.g.hold.Answered? {
      var i := s.g.received.value;
      assert HeardOk(s.answerers[i], i, s.g);
    }
  }

  /** Two forwards never edit the item at once, and an edit that fails leaves it to be forwarded again. */
  lemma FailedEditGivesBack(s: State, item: Message, i: nat, j: nat)
    requires Reachable(s, item) && i < |s.answerers| && s.answerers[i].Editing?
    ensures j < |s.answerers| && s.answerers[j].Editing? ==> j == i
    ensures var t := Next(s, Answers(i, None)).value;
            && t.answerers[i] == Refused && !t.g.claimed && t.g.hold == s.g.hold && t.g.listed == s.g.listed
            && (j < |t.answerers| && t.answerers[j].Found? && t.answerers[j].kind.Forward? ==>
                  HasClaim(Next(t, Answers(j, None)).value.answerers[j]))
  {
    ReachableIsSound(s, item);
  }

  // ---- no one is left blocked --------------------------------------------

  predicate Finished(a: Answerer) {
    a.Succeeded? || a.Gone? || a.NotFound? || a.Refused?
  }

  /** An answerer that cannot go on is waiting for a hold that has ended to say so, which it can do at once. */
  lemma NoOneIsBlocked(s: State, item: Message, who: nat)
    requires Reachable(s, item) && who < |s.answerers| && !Finished(s.answerers[who])
    ensures Next(s, Answers(who, None)).Some? || (Ended(s.g.hold) && Next(s, Holds(CloseDone)).Some?)
    ensures s.g.closed ==> Next(s, Answers(who, None)).Some?
  {
    ReachableIsSound(s, item);
    assert AnswererOk(s.answerers[who], s.g);
  }

  function AnswererAhead(a: Answerer): nat {
    match a
    case Asked(_) => 4
    case Found(_) => 3
    case Editing => 2
    case Sending(_, _) => 1
    case Succeeded(_, _) | Gone(_) | NotFound(_) | Refused => 0
  }

  /** Each step of an answerer brings it nearer its end, and no one else's step takes it back. */
  lemma EveryStepCounts(s: State, a: Action, who: nat)
    requires Next(s, a).Some? && who < |s.answerers|
    ensures var t := Next(s, a).value;
            && who < |t.answerers|
            && if a.Answers? && a.who == who then AnswererAhead(t.answerers[who]) < AnswererAhead(s.answerers[who])
               else t.answerers[who] == s.answerers[who]
  {
  }

  // ---- switching off -----------------------------------------------------

  /** A release that found the exchange waiting does not finish before its hold has ended. */
  lemma ReleaseFreesWhatItFinds(s: State, item: Message, who: nat)
    requires Reachable(s, item) && who < |s.answerers|
    requires s.answerers[who] == Gone(Release) || (s.answerers[who].Succeeded? && s.answerers[who].kind == Release)
    ensures Ended(s.g.hold)
  {
    ReachableIsSound(s, item);
    assert AnswererOk(s.answerers[who], s.g);
  }

  // The release is over and the exchange is held still.
  predicate Missed(s: State, who: nat) {
    who < |s.answerers| && Finished(s.answerers[who]) && !Ended(s.g.hold)
  }

  // A release that has found, or will find, an exchange that waits.
  predicate OnItsWay(s: State, who: nat) {
    && SharedOk(s.g) && who < |s.answerers| && !s.g.hold.Deciding?
    && (Ended(s.g.hold)
        || s.answerers[who] == Asked(Release) || s.answerers[who] == Found(Release)
        || (s.answerers[who].Sending? && s.answerers[who].kind == Release))
  }

  lemma {:induction false} StaysOnItsWay(s: State, who: nat, steps: Steps)
    requires OnItsWay(s, who) && End(s, steps).Some?
    ensures OnItsWay(End(s, steps).value, who)
  {
    if steps.After? {
      StaysOnItsWay(s, who, steps.before);
      OneStepOn(End(s, steps.before).value, who, steps.action);
    }
  }

  lemma OneStepOn(s: State, who: nat, a: Action)
    requires OnItsWay(s, who) && Next(s, a).Some?
    ensures OnItsWay(Next(s, a).value, who)
  {
  }

  ghost predicate Misses(s: State, who: nat, steps: Steps) {
    End(s, steps).Some? && Missed(End(s, steps).value, who)
  }

  /** A release asked for misses the exchange, in some continuation, exactly when its hold has yet to be listed. */
  lemma ReleaseCanMiss(s: State, item: Message, who: nat)
    requires Reachable(s, item) && who < |s.answerers| && s.answerers[who] == Asked(Release)
    ensures (exists steps: Steps :: Misses(s, who, steps)) <==> s.g.hold.Deciding?
  {
    ReachableIsSound(s, item);
    if s.g.hold.Deciding? {
      var a := Answers(who, None);
      assert End(s, Start) == Some(s) && End(s, After(Start, a)) == Next(s, a);
      assert Next(s, a).value.answerers[who] == NotFound(Release);
      assert Misses(s, who, After(Start, a));
    } else {
      forall steps | End(s, steps).Some? ensures !Missed(End(s, steps).value, who) {
        StaysOnItsWay(s, who, steps);
      }
    }
  }

  lemma Advance(s: State, item: Message, a: Action) returns (t: State)
    requires Reachable(s, item) && Next(s, a).Some?
    ensures t == Next(s, a).value && Reachable(t, item)
  {
    t := Next(s, a).value;
    var steps :| End(Begin(item), steps) == Some(s);
    assert End(Begin(item), After(steps, a)) == Some(t);
  }

  lemma Begins(item: Message)
    ensures Reachable(Begin(item), item)
  {
    assert End(Begin(item), Start) == Some(Begin(item));
  }

  /** One that looked just before the hold was listed finds nothing, and the exchange waits on with intercepting off. */
  lemma ReleaseMissesALateHold(item: Message) returns (s: State)
    ensures Reachable(s, item) && !s.g.enabled && s.g.hold == Waiting && s.answerers == [NotFound(Release)]
  {
    Begins(item);
    s := Advance(Begin(item), item, SwitchOff);
    s := Advance(s, item, Ask(Release));
    s := Advance(s, item, Answers(0, None));
    s := Advance(s, item, Holds(Register));
  }

  /** A claim keeps out other forwards only: a release may hand the item on while a forward is still reading it. */
  lemma ReleaseOvertakesAnEdit(item: Message) returns (s: State)
    ensures Reachable(s, item) && s.g.hold == Answered(Some(item)) && |s.answerers| == 2 && s.answerers[0] == Editing
  {
    Begins(item);
    s := Advance(Begin(item), item, Holds(Register));
    s := Advance(s, item, Ask(Forward(true)));
    s := Advance(s, item, Answers(0, None));
    s := Advance(s, item, Answers(0, None));
    s := Advance(s, item, SwitchOff);
    s := Advance(s, item, Ask(Release));
    s := Advance(s, item, Answers(1, None));
    s := Advance(s, item, Answers(1, None));
    s := Advance(s, item, Answers(1, None));
  }

  /**
   * Someone who asks while the hold waits, and goes on alone, is heard, with what it has to say: the edit made
   * or the item itself, the refusal of a drop, the item a release lets go. A forward needs the claim for it.
   */
  lemma HeardWhenAlone(s: State, item: Message, who: nat, made: Message) returns (steps: Steps, t: State)
    requires Reachable(s, item) && s.g.hold.Waiting? && who < |s.answerers| && s.answerers[who].Asked?
    requires s.answerers[who].kind.Forward? ==> !s.g.claimed
    ensures End(s, steps) == Some(t) && who < |t.answerers| && t.answerers[who].Succeeded?
    ensures t.g.hold == Answered(
                          match s.answerers[who].kind
                          case Forward(edited) => Some(if edited then made else item)
                          case Drop => None
                          case Release => Some(item))
  {
    ReachableIsSound(s, item);
    var a := Answers(who, Some(made));
    assert End(s, Start) == Some(s);
    t := OneOn(s, Start, s, a);
    steps := After(Start, a);
    t := OneOn(s, steps, t, a);
    steps := After(steps, a);
    if t.answerers[who].Editing? {
      t := OneOn(s, steps, t, a);
      steps := After(steps, a);
    }
    t := OneOn(s, steps, t, a);
    steps := After(steps, a);
  }

  /** While one forward has the item, another that finds it is told it is not there. */
  lemma SecondForwardIsTurnedAway(s: State, item: Message, i: nat, j: nat, edit: Option<Message>)
    requires Reachable(s, item) && i < |s.answerers| && HasClaim(s.answerers[i])
    requires j < |s.answerers| && s.answerers[j].Found? && s.answerers[j].kind.Forward?
    ensures var a := Answers(j, edit);
            Next(s, a) == Some(s.(answerers := s.answerers[j := NotFound(s.answerers[j].kind)]))
  {
    ReachableIsSound(s, item);
  }

  /**
   * A client may give up whenever its exchange waits, whoever has the claim. Then whoever was about to answer is
   * told it is gone, and whoever asks once the hold is off the list is told it is not there.
   */
  lemma GivingUpTurnsAllAway(s: State, item: Message, who: nat, kind: Kind) returns (steps: Steps, t: State)
    requires Reachable(s, item) && s.g.hold.Waiting? && who < |s.answerers| && s.answerers[who].Sending?
    requires !kind.Release?
    ensures End(s, steps) == Some(t) && t.g.hold.GaveUp? && !t.g.listed
    ensures t.answerers == s.answerers[who := Gone(s.answerers[who].kind)] + [NotFound(kind)]
  {
    ReachableIsSound(s, item);
    assert End(s, Start) == Some(s);
    t := OneOn(s, Start, s, Holds(GiveUp));
    steps := After(Start, Holds(GiveUp));
    t := OneOn(s, steps, t, Holds(CloseDone));
    steps := After(steps, Holds(CloseDone));
    t := OneOn(s, steps, t, Holds(Unlist));
    steps := After(steps, Holds(Unlist));
    t := OneOn(s, steps, t, Answers(who, None));
    steps := After(steps, Answers(who, None));
    var n := |s.answerers|;
    t := OneOn(s, steps, t, Ask(kind));
    steps := After(steps, Ask(kind));
    assert t.answerers[n] == Asked(kind);
    t := OneOn(s, steps, t, Answers(n, None));
    steps := After(steps, Answers(n, None));
  }

  predicate Releases(a: Answerer) {
    match a
    case Editing | Refused => false
    case _ => a.kind.Release?
  }

  // A release is one from when it is asked for, which no one does while intercepting is on; and off stays off.
  lemma ReleaseStep(s: State, a: Action, i: nat)
    requires Next(s, a).Some? && i < |Next(s, a).value.answerers| && Releases(Next(s, a).value.answerers[i])
    ensures !s.g.enabled ==> !Next(s, a).value.g.enabled
    ensures (i < |s.answerers| && Releases(s.answerers[i])) || !s.g.enabled
  {
  }

  /** No exchange is released while intercepting is on. */
  lemma {:induction false} ReleasesComeWhenOff(item: Message, steps: Steps, i: nat)
    requires End(Begin(item), steps).Some? && i < |End(Begin(item), steps).value.answerers|
    requires Releases(End(Begin(item), steps).value.answerers[i])
    ensures !End(Begin(item), steps).value.g.enabled
  {
    if steps.After? {
      var t := End(Begin(item), steps.before).value;
      ReleaseStep(t, steps.action, i);
      if t.g.enabled {
        ReleasesComeWhenOff(item, steps.before, i);
      }
    }
  }

  // The hold has its answer while a forward still edits the item.
  ghost predicate Overtakes(s: State, who: nat, steps: Steps) {
    && End(s, steps).Some? && who < |End(s, steps).value.answerers|
    && End(s, steps).value.answerers[who] == Editing && End(s, steps).value.g.hold.Answered?
  }

  lemma {:induction false} GivenUpStays(s: State, steps: Steps)
    requires s.g.hold.GaveUp? && End(s, steps).Some?
    ensures End(s, steps).value.g.hold.GaveUp?
  {
    if steps.After? {
      GivenUpStays(s, steps.before);
    }
  }

  lemma OneOn(s: State, steps: Steps, t: State, a: Action) returns (u: State)
    requires End(s, steps) == Some(t) && Next(t, a).Some?
    ensures u == Next(t, a).value && End(s, After(steps, a)) == Some(u)
  {
    u := Next(t, a).value;
  }

  // A drop comes, and is heard.
  lemma DropOvertakes(s: State, who: nat) returns (steps: Steps)
    requires SharedOk(s.g) && s.g.hold.Waiting? && who < |s.answerers| && s.answerers[who] == Editing
    ensures Overtakes(s, who, steps)
  {
    assert End(s, Start) == Some(s);
    var n := |s.answerers|;
    var t := OneOn(s, Start, s, Ask(Drop));
    assert t.answerers[n] == Asked(Drop) && t.answerers[who] == Editing;
    steps := After(Start, Ask(Drop));
    t := OneOn(s, steps, t, Answers(n, None));
    steps := After(steps, Answers(n, None));
    t := OneOn(s, steps, t, Answers(n, None));
    steps := After(steps, Answers(n, None));
    t := OneOn(s, steps, t, Answers(n, None));
    steps := After(steps, Answers(n, None));
  }

  /** An edit under way can find its exchange answered by someone else exactly when the client has not given up. */
  lemma EditCanBeOvertaken(s: State, item: Message, who: nat)
    requires Reachable(s, item) && who < |s.answerers| && s.answerers[who] == Editing
    ensures (exists steps: Steps :: Overtakes(s, who, steps)) <==> !s.g.hold.GaveUp?
  {
    ReachableIsSound(s, item);
    assert AnswererOk(s.answerers[who], s.g);
    if s.g.hold.GaveUp? {
      forall steps | End(s, steps).Some? ensures !Overtakes(s, who, steps) {
        GivenUpStays(s, steps);
      }
    } else if s.g.hold.Waiting? {
      var steps := DropOvertakes(s, who);
    } else {
      assert End(s, Start) == Some(s);
      assert Overtakes(s, who, Start);
    }
  }
}
