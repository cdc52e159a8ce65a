/**
 * The life of one automation job as its callers see it: starts, saves, runs and deletions
 * that overlap in any order, kept apart only by the register of runs in flight.
 */
module PoolLifecycle {
  import opened Wrappers

  // A run: made by a start, going, off the register, and with its done channel closed. One that
  // is going may have read the record and not written it yet.
  datatype RunPhase = Prepared | Going(holding: bool) | Unregistered | Closed

  // A start: about to read the record, about to register, clearing old results, writing the record, finished.
  datatype Starter = Asked | HasRead | Clearing(run: nat) | Announcing(run: nat) | Aborting(run: nat) | Settled

  // A deletion: about to look at the register, waiting for the run it found, about to delete, finished.
  datatype Deleter = Looking | WaitingFor(run: nat) | Ready(waited: Option<nat>, expired: bool) | Deleted

  // A save over the job: about to read the record, to look at the register, to clear old results, to
  // write the record, finished.
  datatype Saver = Called | Looked | Emptying | Writing | Saved

  datatype State = State(
    record: bool, results: bool, register: Option<nat>,
    runs: seq<RunPhase>, starters: seq<Starter>, savers: seq<Saver>, deleters: seq<Deleter>)

  datatype Action =
    | Ask
    | Starts(who: nat, ok: bool)
    | AskSave
    | Saves(who: nat, ok: bool)
    | PutResult(run: nat)
    | ReadRecord(run: nat)
    | WriteRecord(run: nat)
    | Ends(run: nat)
    | AskDelete
    | Deletes(who: nat)
    | Expires(who: nat)

  function Begin(record: bool, results: bool): State {
    State(record, results, None, [], [], [], [])
  }

  // One step of a start. Where the store may fail, ok says whether it did not.
  function StartNext(s: State, who: nat, ok: bool): Option<State>
    requires who < |s.starters|
  {
    match s.starters[who]
    case Asked =>
      Some(s.(starters := s.starters[who := if ok && s.record then HasRead else Settled]))
    case HasRead =>
      if s.register.Some? then Some(s.(starters := s.starters[who := Settled]))
      else
        Some(s.(register := Some(|s.runs|), runs := s.runs + [Prepared],
                starters := s.starters[who := Clearing(|s.runs|)]))
    case Clearing(run) =>
      if ok then Some(s.(results := false, starters := s.starters[who := Announcing(run)]))
      else Some(s.(starters := s.starters[who := Aborting(run)]))
    case Announcing(run) =>
      if run >= |s.runs| then None
      else if ok then
        Some(s.(record := true, runs := s.runs[run := Going(false)], starters := s.starters[who := Settled]))
      else Some(s.(starters := s.starters[who := Aborting(run)]))
    case Aborting(run) =>
      if run >= |s.runs| then None
      else if s.register == Some(run) then Some(s.(register := None, runs := s.runs[run := Unregistered]))
      else Some(s.(runs := s.runs[run := Closed], starters := s.starters[who := Settled]))
    case Settled => None
  }

  // One step of a save. Where the store may fail, ok says whether it did not.
  function SaveNext(s: State, who: nat, ok: bool): Option<State>
    requires who < |s.savers|
  {
    match s.savers[who]
    case Called => Some(s.(savers := s.savers[who := if ok && s.record then Looked else Saved]))
    case Looked => Some(s.(savers := s.savers[who := if s.register.Some? then Saved else Emptying]))
    case Emptying =>
      if ok then Some(s.(results := false, savers := s.savers[who := Writing]))
      else Some(s.(savers := s.savers[who := Saved]))
    case Writing => Some(s.(record := s.record || ok, savers := s.savers[who := Saved]))
    case Saved => None
  }

  // One step of a deletion. It cancels the run it finds, and waits for its channel.
  function DeleteNext(s: State, who: nat): Option<State>
    requires who < |s.deleters|
  {
    match s.deleters[who]
    case Looking =>
      var next := if s.register.Some? then WaitingFor(s.register.value) else Ready(None, false);
      Some(s.(deleters := s.deleters[who := next]))
    case WaitingFor(run) =>
      if run < |s.runs| && s.runs[run] == Closed then
        Some(s.(deleters := s.deleters[who := Ready(Some(run), false)]))
      else None
    case Ready(_, _) =>
      // A job that is not there is not found, and nothing of it is touched.
      if s.record then Some(s.(record := false, results := false, deleters := s.deleters[who := Deleted]))
      else Some(s.(deleters := s.deleters[who := Deleted]))
    case Deleted => None
  }

  function Next(s: State, a: Action): Option<State> {
    match a
    case Ask => Some(s.(starters := s.starters + [Asked]))
    case Starts(who, ok) => if who < |s.starters| then StartNext(s, who, ok) else None
    case AskSave => Some(s.(savers := s.savers + [Called]))
    case Saves(who, ok) => if who < |s.savers| then SaveNext(s, who, ok) else None
    case PutResult(run) => if run < |s.runs| && s.runs[run].Going? then Some(s.(results := true)) else None
    case ReadRecord(run) =>
      if run < |s.runs| && s.runs[run].Going? && s.record then Some(s.(runs := s.runs[run := Going(true)])) else None
    case WriteRecord(run) => if run < |s.runs| && s.runs[run] == Going(true) then Some(s.(record := true)) else None
    case Ends(run) =>
      if run >= |s.runs| then None
      else if s.runs[run].Going? then Some(s.(runs := s.runs[run := Unregistered], register := None))
      else if s.runs[run].Unregistered? && !Owned(s, run) then Some(s.(runs := s.runs[run := Closed]))
      else None
    case AskDelete => Some(s.(deleters := s.deleters + [Looking]))
    case Deletes(who) => if who < |s.deleters| then DeleteNext(s, who) else None
    case Expires(who) =>
      if who < |s.deleters| && s.deleters[who].WaitingFor? then
        Some(s.(deleters := s.deleters[who := Ready(Some(s.deleters[who].run), true)]))
      else None
  }

  // The run a start is still seeing to.
  predicate Sees(st: Starter, run: nat) {
    (st.Clearing? || st.Announcing? || st.Aborting?) && st.run == run
  }

  predicate Owned(s: State, run: nat) {
    exists k :: 0 <= k < |s.starters| && Sees(s.starters[k], run)
  }

  datatype Steps = Start | After(before: Steps, action: Action)

  function End(s: State, steps: Steps): Option<State> {
    match steps
    case Start => Some(s)
    case After(before, action) =>
      var t := End(s, before);
      if t.None? then None else Next(t.value, action)
  }

  // ---- one run at a time -------------------------------------------------

  predicate MayWrite(p: RunPhase) {
    p.Prepared? || p.Going?
  }

  // A start still to write sees to the run on the register, which no one else has.
  predicate StarterOk(st: Starter, runs: seq<RunPhase>) {
    && (st.Clearing? || st.Announcing? ==> st.run < |runs| && runs[st.run] == Prepared)
    && (st.Aborting? ==> st.run < |runs| && (runs[st.run] == Prepared || runs[st.run] == Unregistered))
  }

  predicate DeleterOk(d: Deleter, runs: seq<RunPhase>) {
    && (d.WaitingFor? ==> d.run < |runs|)
    && (d.Ready? && d.waited.Some? ==> d.waited.value < |runs| && (!d.expired ==> runs[d.waited.value] == Closed))
  }

  // The register names the one run that may write, and each run being prepared has its own start.
  ghost predicate RunsOk(s: State) {
    && (s.register.Some? ==> s.register.value < |s.runs| && MayWrite(s.runs[s.register.value]))
    && (forall k :: 0 <= k < |s.runs| && MayWrite(s.runs[k]) ==> s.register == Some(k))
    && (forall k :: 0 <= k < |s.runs| && s.runs[k].Prepared? ==> Owned(s, k))
  }

  ghost predicate StartersOk(s: State) {
    && (forall k :: 0 <= k < |s.starters| ==> StarterOk(s.starters[k], s.runs))
    && (forall i, j, r :: 0 <= i < |s.starters| && 0 <= j < |s.starters|
                          && Sees(s.starters[i], r) && Sees(s.starters[j], r) ==>
                            i == j)
  }

  ghost predicate DeletersOk(s: State) {
    forall d :: 0 <= d < |s.deleters| ==> DeleterOk(s.deleters[d], s.runs)
  }

  ghost predicate Sound(s: State) {
    RunsOk(s) && StartersOk(s) && DeletersOk(s)
  }

  // What a start's step does to the runs: one more, or a change to the run it sees to.
  lemma StartTouchesItsOwn(s: State, who: nat, ok: bool, k: nat)
    requires Sound(s) && who < |s.starters| && StartNext(s, who, ok).Some? && k < |s.starters| && k != who
    ensures var t := StartNext(s, who, ok).value;
            t.starters[k] == s.starters[k] && StarterOk(t.starters[k], t.runs)
    ensures var t := StartNext(s, who, ok).value;
            forall r :: Sees(t.starters[who], r) ==> !Sees(t.starters[k], r)
  {
    var st := s.starters[who];
    assert StarterOk(st, s.runs) && StarterOk(s.starters[k], s.runs);
    if st.Clearing? || st.Announcing? || st.Aborting? {
      assert Sees(st, st.run) && !Sees(s.starters[k], st.run);
    }
  }

  // A run being prepared stays with its start.
  lemma StartKeepsOwners(s: State, who: nat, ok: bool, k: nat)
    requires Sound(s) && who < |s.starters| && StartNext(s, who, ok).Some?
    requires k < |StartNext(s, who, ok).value.runs| && StartNext(s, who, ok).value.runs[k].Prepared?
    ensures Owned(StartNext(s, who, ok).value, k)
  {
    var t := StartNext(s, who, ok).value;
    if k < |s.runs| {
      var i :| 0 <= i < |s.starters| && Sees(s.starters[i], k);
      assert Sees(t.starters[i], k);
    } else {
      assert Sees(t.starters[who], k);
    }
  }

  lemma StartKeepsDeleters(s: State, who: nat, ok: bool)
    requires Sound(s) && who < |s.starters| && StartNext(s, who, ok).Some?
    ensures DeletersOk(StartNext(s, who, ok).value)
  {
    assert StarterOk(s.starters[who], s.runs);
  }

  lemma StartKeepsRuns(s: State, who: nat, ok: bool)
    requires Sound(s) && who < |s.starters| && StartNext(s, who, ok).Some?
    ensures RunsOk(StartNext(s, who, ok).value)
  {
    var t := StartNext(s, who, ok).value;
    assert StarterOk(s.starters[who], s.runs);
    forall k | 0 <= k < |t.runs| && t.runs[k].Prepared? ensures Owned(t, k) {
      StartKeepsOwners(s, who, ok, k);
    }
  }

  // A start's step changes its own place and its own run.
  lemma StartKeeps(s: State, who: nat, ok: bool)
    requires Sound(s) && who < |s.starters| && StartNext(s, who, ok).Some?
    ensures Sound(StartNext(s, who, ok).value)
  {
    var t := StartNext(s, who, ok).value;
    StartKeepsRuns(s, who, ok);
    StartKeepsDeleters(s, who, ok);
    assert StarterOk(s.starters[who], s.runs);
    assert StarterOk(t.starters[who], t.runs);
    forall k | 0 <= k < |t.starters| && k != who
      ensures StarterOk(t.starters[k], t.runs) && t.starters[k] == s.starters[k]
      ensures forall r :: Sees(t.starters[who], r) ==> !Sees(t.starters[k], r)
    {
      StartTouchesItsOwn(s, who, ok, k);
    }
  }

  lemma DeleteKeeps(s: State, who: nat)
    requires Sound(s) && who < |s.deleters| && DeleteNext(s, who).Some?
    ensures Sound(DeleteNext(s, who).value)
  {
    var t := DeleteNext(s, who).value;
    forall k | 0 <= k < |t.runs| && t.runs[k].Prepared? ensures Owned(t, k) {
      var i :| 0 <= i < |s.starters| && Sees(s.starters[i], k);
      assert Sees(t.starters[i], k);
    }
  }

  // Whoever only writes the record or the results, or saves, moves nothing else.
  lemma RunsStand(s: State, t: State)
    requires Sound(s) && t.runs == s.runs && t.register == s.register
    requires t.starters == s.starters && t.deleters == s.deleters
    ensures Sound(t)
  {
    forall k | 0 <= k < |t.runs| && t.runs[k].Prepared? ensures Owned(t, k) {
      var i :| 0 <= i < |s.starters| && Sees(s.starters[i], k);
      assert Sees(t.starters[i], k);
    }
  }

  // Callers coming and giving up.
  lemma CallersKeep(s: State, a: Action)
    requires Sound(s) && (a.Ask? || a.AskDelete? || a.Expires?) && Next(s, a).Some?
    ensures Sound(Next(s, a).value)
  {
    var t := Next(s, a).value;
    forall k | 0 <= k < |t.runs| && t.runs[k].Prepared? ensures Owned(t, k) {
      var i :| 0 <= i < |s.starters| && Sees(s.starters[i], k);
      assert Sees(t.starters[i], k);
    }
  }

  // A run's own steps.
  lemma RunKeeps(s: State, a: Action)
    requires Sound(s) && (a.ReadRecord? || a.Ends?) && Next(s, a).Some?
    ensures Sound(Next(s, a).value)
  {
    var t := Next(s, a).value;
    forall k | 0 <= k < |t.runs| && t.runs[k].Prepared? ensures Owned(t, k) {
      var i :| 0 <= i < |s.starters| && Sees(s.starters[i], k);
      assert Sees(t.starters[i], k);
    }
    if a.Ends? && s.runs[a.run].Unregistered? {
      forall k | 0 <= k < |t.starters| ensures StarterOk(t.starters[k], t.runs) {
        assert !Sees(s.starters[k], a.run);
      }
    }
  }

  lemma {:induction false} EveryInterleaving(record: bool, results: bool, steps: Steps)
    requires End(Begin(record, results), steps).Some?
    ensures Sound(End(Begin(record, results), steps).value)
  {
    if steps.After? {
      EveryInterleaving(record, results, steps.before);
      SoundStep(End(Begin(record, results), steps.before).value, steps.action);
    }
  }

  lemma SoundStep(s: State, a: Action)
    requires Sound(s) && Next(s, a).Some?
    ensures Sound(Next(s, a).value)
  {
    match a
    case Starts(who, ok) => StartKeeps(s, who, ok);
    case Deletes(who) => DeleteKeeps(s, who);
    case AskSave | Saves(_, _) | PutResult(_) | WriteRecord(_) => RunsStand(s, Next(s, a).value);
    case Ask | AskDelete | Expires(_) => CallersKeep(s, a);
    case ReadRecord(_) | Ends(_) => RunKeeps(s, a);
  }

  /** However starts overlap, two runs of a job are never both able to write, and a run that was waited for is over. */
  lemma OneRunAtATime(record: bool, results: bool, steps: Steps, i: nat, j: nat)
    requires End(Begin(record, results), steps).Some?
    ensures var s := End(Begin(record, results), steps).value;
            && (i < |s.runs| && j < |s.runs| && MayWrite(s.runs[i]) && MayWrite(s.runs[j]) ==> i == j)
            && (i < |s.deleters| && s.deleters[i] == Ready(Some(j), false) ==> j < |s.runs| && s.runs[j] == Closed)
  {
    EveryInterleaving(record, results, steps);
  }

  // A start that has cleared the old results finds none when it lets its run go.
  ghost predicate Cleared(s: State) {
    forall k :: 0 <= k < |s.starters| && s.starters[k].Announcing? ==> !s.results
  }

  lemma ClearedStep(s: State, a: Action)
    requires Sound(s) && Cleared(s) && Next(s, a).Some?
    ensures Cleared(Next(s, a).value)
  {
    if a.PutResult? {
      forall k | 0 <= k < |s.starters| ensures !s.starters[k].Announcing? {
        assert StarterOk(s.starters[k], s.runs);
      }
    }
  }

  /** However calls overlap, a run begins with no result of an earlier one: none can come between clearing and begin. */
  lemma {:induction false} RunsBeginClean(record: bool, results: bool, steps: Steps)
    requires End(Begin(record, results), steps).Some?
    ensures Cleared(End(Begin(record, results), steps).value)
  {
    if steps.After? {
      RunsBeginClean(record, results, steps.before);
      EveryInterleaving(record, results, steps.before);
      ClearedStep(End(Begin(record, results), steps.before).value, steps.action);
    }
  }

  // ---- saves -------------------------------------------------------------

  /** A save that finds a run that may write does nothing. */
  lemma SavesKeepOutOfRuns(s: State, who: nat, k: nat, ok: bool)
    requires Sound(s) && who < |s.savers| && s.savers[who].Looked? && k < |s.runs| && MayWrite(s.runs[k])
    ensures Next(s, Saves(who, ok)) == Some(s.(savers := s.savers[who := Saved]))
  {
  }

  /** One that got past the register leaves a record and no results, if no one else comes between. */
  lemma SavesStartOver(s: State, who: nat)
    requires who < |s.savers| && s.savers[who].Emptying?
    ensures var t := Next(s, Saves(who, true)).value;
            var u := Next(t, Saves(who, true)).value;
            !t.results && t.record == s.record && u.record && !u.results && u.savers[who] == Saved
  {
  }

  // ---- what a deletion settles -------------------------------------------

  // Something is under way that has yet to write: a start or a save that has read the record, or a run.
  predicate Pending(st: Starter) {
    st.HasRead? || st.Clearing? || st.Announcing?
  }

  predicate SavePending(sv: Saver) {
    sv.Looked? || sv.Emptying? || sv.Writing?
  }

  ghost predicate Loud(s: State) {
    || (exists k :: 0 <= k < |s.starters| && Pending(s.starters[k]))
    || (exists k :: 0 <= k < |s.savers| && SavePending(s.savers[k]))
    || (exists k :: 0 <= k < |s.runs| && s.runs[k].Going?)
  }

  predicate Nothing(s: State) {
    !s.record && !s.results
  }

  lemma QuietStep(s: State, a: Action)
    requires Nothing(s) && !Loud(s) && Next(s, a).Some?
    ensures Nothing(Next(s, a).value) && !Loud(Next(s, a).value)
  {
    if a.Starts? {
      assert !Pending(s.starters[a.who]);
    }
    if a.Saves? {
      assert !SavePending(s.savers[a.who]);
    }
  }

  lemma {:induction false} StaysQuiet(s: State, steps: Steps)
    requires Nothing(s) && !Loud(s) && End(s, steps).Some?
    ensures Nothing(End(s, steps).value) && !Loud(End(s, steps).value)
  {
    if steps.After? {
      StaysQuiet(s, steps.before);
      QuietStep(End(s, steps.before).value, steps.action);
    }
  }

  ghost predicate Returns(s: State, steps: Steps) {
    End(s, steps).Some? && !Nothing(End(s, steps).value)
  }

  // Whoever has read the record and has yet to write it.
  ghost predicate Remembered(s: State) {
    || (exists k :: 0 <= k < |s.starters| && Pending(s.starters[k]))
    || (exists k :: 0 <= k < |s.savers| && SavePending(s.savers[k]))
    || (exists k :: 0 <= k < |s.runs| && s.runs[k] == Going(true))
  }

  ghost predicate Comes(s: State, steps: Steps) {
    End(s, steps).Some? && End(s, steps).value.record
  }

  lemma ForgottenStep(s: State, a: Action)
    requires !s.record && !Remembered(s) && Next(s, a).Some?
    ensures !Next(s, a).value.record && !Remembered(Next(s, a).value)
  {
    if a.Starts? {
      assert !Pending(s.starters[a.who]);
    }
    if a.Saves? {
      assert !SavePending(s.savers[a.who]);
    }
  }

  lemma {:induction false} StaysForgotten(s: State, steps: Steps)
    requires !s.record && !Remembered(s) && End(s, steps).Some?
    ensures !End(s, steps).value.record && !Remembered(End(s, steps).value)
  {
    if steps.After? {
      StaysForgotten(s, steps.before);
      ForgottenStep(End(s, steps.before).value, steps.action);
    }
  }

  lemma EndAfter(s: State, steps: Steps, t: State, a: Action)
    requires End(s, steps) == Some(t)
    ensures End(s, After(steps, a)) == Next(t, a)
  {
  }

  // A start that has registered goes on to write the record.
  lemma StartWrites(s: State, steps: Steps, t: State, who: nat) returns (more: Steps)
    requires End(s, steps) == Some(t) && who < |t.starters|
    requires t.starters[who].Clearing? || t.starters[who].Announcing?
    requires StarterOk(t.starters[who], t.runs)
    ensures Comes(s, more)
  {
    EndAfter(s, steps, t, Starts(who, true));
    more := After(steps, Starts(who, true));
    if t.starters[who].Clearing? {
      var u := Next(t, Starts(who, true)).value;
      EndAfter(s, more, u, Starts(who, true));
      more := After(more, Starts(who, true));
    }
  }

  // With the register free, a start that has read the record registers first.
  lemma ReaderWrites(s: State, steps: Steps, t: State, who: nat) returns (more: Steps)
    requires End(s, steps) == Some(t) && who < |t.starters| && t.starters[who].HasRead? && t.register.None?
    ensures Comes(s, more)
  {
    EndAfter(s, steps, t, Starts(who, true));
    var u := Next(t, Starts(who, true)).value;
    more := StartWrites(s, After(steps, Starts(who, true)), u, who);
  }

  // A save past the register goes on to write the record.
  lemma SaveWrites(s: State, steps: Steps, t: State, who: nat) returns (more: Steps)
    requires End(s, steps) == Some(t) && who < |t.savers| && (t.savers[who].Emptying? || t.savers[who].Writing?)
    ensures Comes(s, more)
  {
    EndAfter(s, steps, t, Saves(who, true));
    more := After(steps, Saves(who, true));
    if t.savers[who].Emptying? {
      var u := Next(t, Saves(who, true)).value;
      EndAfter(s, more, u, Saves(who, true));
      more := After(more, Saves(who, true));
    }
  }

  // With the register free, one that has read the record passes it first.
  lemma SaverWrites(s: State, steps: Steps, t: State, who: nat) returns (more: Steps)
    requires End(s, steps) == Some(t) && who < |t.savers| && t.savers[who].Looked? && t.register.None?
    ensures Comes(s, more)
  {
    EndAfter(s, steps, t, Saves(who, true));
    var u := Next(t, Saves(who, true)).value;
    more := SaveWrites(s, After(steps, Saves(who, true)), u, who);
  }

  // Whoever waits on the register: a start or a save that has read the record.
  predicate Waits(s: State, who: nat, saving: bool) {
    if saving then who < |s.savers| && s.savers[who].Looked? else who < |s.starters| && s.starters[who].HasRead?
  }

  lemma WaiterWrites(s: State, steps: Steps, t: State, who: nat, saving: bool) returns (more: Steps)
    requires End(s, steps) == Some(t) && Waits(t, who, saving) && t.register.None?
    ensures Comes(s, more)
  {
    if saving {
      more := SaverWrites(s, steps, t, who);
    } else {
      more := ReaderWrites(s, steps, t, who);
    }
  }

  // With the register held: its run ends, or its start writes, or gives it up.
  lemma AfterOther(s: State, who: nat, saving: bool, run: nat) returns (more: Steps)
    requires Sound(s) && Waits(s, who, saving) && s.register == Some(run)
    ensures Comes(s, more)
  {
    assert End(s, Start) == Some(s);
    if s.runs[run].Going? {
      EndAfter(s, Start, s, Ends(run));
      var t := Next(s, Ends(run)).value;
      more := WaiterWrites(s, After(Start, Ends(run)), t, who, saving);
    } else {
      var i :| 0 <= i < |s.starters| && Sees(s.starters[i], run);
      assert StarterOk(s.starters[i], s.runs);
      if s.starters[i].Aborting? {
        EndAfter(s, Start, s, Starts(i, true));
        var t := Next(s, Starts(i, true)).value;
        more := WaiterWrites(s, After(Start, Starts(i, true)), t, who, saving);
      } else {
        more := StartWrites(s, Start, s, i);
      }
    }
  }

  lemma WaiterComes(s: State, who: nat, saving: bool) returns (more: Steps)
    requires Sound(s) && Waits(s, who, saving)
    ensures Comes(s, more)
  {
    assert End(s, Start) == Some(s);
    if s.register.None? {
      more := WaiterWrites(s, Start, s, who, saving);
    } else {
      more := AfterOther(s, who, saving, s.register.value);
    }
  }

  lemma RememberedComes(s: State) returns (more: Steps)
    requires Sound(s) && Remembered(s)
    ensures Comes(s, more)
  {
    assert End(s, Start) == Some(s);
    if k :| 0 <= k < |s.runs| && s.runs[k] == Going(true) {
      EndAfter(s, Start, s, WriteRecord(k));
      more := After(Start, WriteRecord(k));
    } else if who :| 0 <= who < |s.savers| && SavePending(s.savers[who]) {
      if s.savers[who].Looked? {
        more := WaiterComes(s, who, true);
      } else {
        more := SaveWrites(s, Start, s, who);
      }
    } else {
      var who :| 0 <= who < |s.starters| && Pending(s.starters[who]);
      assert StarterOk(s.starters[who], s.runs);
      if s.starters[who].HasRead? {
        more := WaiterComes(s, who, false);
      } else {
        more := StartWrites(s, Start, s, who);
      }
    }
  }

  /** A record that is gone comes back exactly when a start, a save or a run has read it before and has yet to write. */
  lemma RecordComesBack(s: State)
    requires Sound(s) && !s.record
    ensures (exists steps: Steps :: Comes(s, steps)) <==> Remembered(s)
  {
    if Remembered(s) {
      var more := RememberedComes(s);
    } else {
      forall steps | End(s, steps).Some? ensures !Comes(s, steps) {
        StaysForgotten(s, steps);
      }
    }
  }

  lemma GoingWrites(s: State, k: nat) returns (more: Steps)
    requires k < |s.runs| && s.runs[k].Going?
    ensures Returns(s, more)
  {
    assert End(s, Start) == Some(s);
    EndAfter(s, Start, s, PutResult(k));
    more := After(Start, PutResult(k));
  }

  lemma LoudReturns(s: State) returns (more: Steps)
    requires Sound(s) && Loud(s)
    ensures Returns(s, more)
  {
    if k :| 0 <= k < |s.runs| && s.runs[k].Going? {
      more := GoingWrites(s, k);
    } else {
      more := RememberedComes(s);
    }
  }

  /**
   * Once a job and its results are deleted they stay so exactly when, at that moment, no
   * run was going and no start or save had read the record: waiting for the run one saw is not enough.
   */
  lemma DeletionIsFinal(s: State, who: nat)
    requires Sound(s) && s.record && who < |s.deleters| && s.deleters[who].Ready?
    ensures var t := Next(s, Deletes(who)).value;
            Nothing(t) && ((exists steps: Steps :: Returns(t, steps)) <==> Loud(s))
  {
    var t := Next(s, Deletes(who)).value;
    assert t.starters == s.starters && t.savers == s.savers && t.runs == s.runs;
    SoundStep(s, Deletes(who));
    if Loud(s) {
      assert Loud(t);
      var more := LoudReturns(t);
    } else {
      assert !Loud(t);
      forall steps | Returns(t, steps) ensures false {
        StaysQuiet(t, steps);
      }
    }
  }

  /** A deletion that found no run can have its job back: a start had read the record just before. */
  lemma StartOverlapsDeletion() returns (steps: Steps)
    ensures var s := End(Begin(true, false), steps); s.Some? && s.value.deleters == [Deleted] && s.value.record
  {
    var b := Begin(true, false);
    var s0 := End(b, Start).value;
    var s1 := OneMore(b, Start, s0, Ask);
    var s2 := OneMore(b, After(Start, Ask), s1, Starts(0, true));
    var read := After(After(Start, Ask), Starts(0, true));
    assert s2 == State(true, false, None, [], [HasRead], [], []);
    var s3 := OneMore(b, read, s2, AskDelete);
    var s4 := OneMore(b, After(read, AskDelete), s3, Deletes(0));
    assert s4 == State(true, false, None, [], [HasRead], [], [Ready(None, false)]);
    var s5 := OneMore(b, After(After(read, AskDelete), Deletes(0)), s4, Deletes(0));
    var deleted := After(After(After(read, AskDelete), Deletes(0)), Deletes(0));
    var s6 := OneMore(b, deleted, s5, Starts(0, true));
    var s7 := OneMore(b, After(deleted, Starts(0, true)), s6, Starts(0, true));
    var s8 := OneMore(b, After(After(deleted, Starts(0, true)), Starts(0, true)), s7, Starts(0, true));
    steps := After(After(After(deleted, Starts(0, true)), Starts(0, true)), Starts(0, true));
  }

  /** And so can one that a save overlaps: the save had read the record and found no run either. */
  lemma SaveOverlapsDeletion() returns (steps: Steps)
    ensures var s := End(Begin(true, false), steps);
            s.Some? && s.value.deleters == [Deleted] && s.value.record && s.value.runs == [] && s.value.starters == []
  {
    var b := Begin(true, false);
    var s0 := End(b, Start).value;
    var s1 := OneMore(b, Start, s0, AskSave);
    var s2 := OneMore(b, After(Start, AskSave), s1, Saves(0, true));
    var read := After(After(Start, AskSave), Saves(0, true));
    var s3 := OneMore(b, read, s2, Saves(0, true));
    var s4 := OneMore(b, After(read, Saves(0, true)), s3, AskDelete);
    assert s4 == State(true, false, None, [], [], [Emptying], [Looking]);
    var asked := After(After(read, Saves(0, true)), AskDelete);
    var s5 := OneMore(b, asked, s4, Deletes(0));
    var s6 := OneMore(b, After(asked, Deletes(0)), s5, Deletes(0));
    var deleted := After(After(asked, Deletes(0)), Deletes(0));
    var s7 := OneMore(b, deleted, s6, Saves(0, true));
    var s8 := OneMore(b, After(deleted, Saves(0, true)), s7, Saves(0, true));
    steps := After(After(deleted, Saves(0, true)), Saves(0, true));
  }

  lemma OneMore(b: State, steps: Steps, s: State, a: Action) returns (t: State)
    requires End(b, steps) == Some(s) && Next(s, a).Some?
    ensures t == Next(s, a).value && End(b, After(steps, a)) == Some(t)
  {
    t := Next(s, a).value;
  }
}
