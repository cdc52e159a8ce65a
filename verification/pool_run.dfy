/**
 * One automation run: a feeder, a pool of workers, stores that may fail, and a
 * cancellation that may come at any time, as a machine of interleaved steps.
 */
module PoolRun {
  import opened Wrappers

  const MAX_CONCURRENCY: nat := 50
  const REPORT_EVERY: nat := 20

  datatype Status = Draft | Running | Done | Stopped | Error

  // A stored job. rest stands for the template and what else a run does not touch. resaved is
  // history no code keeps: whether the record comes down from a save made during the run.
  datatype Job = Job(status: Status, completed: nat, total: nat, rest: int, resaved: bool)

  // ---- the machine -------------------------------------------------------

  // Where a worker stands between two steps that others can see.
  datatype Worker =
    | Waiting
    | Holding(index: nat)
    | Sending(index: nat)
    | Answered(index: nat, error: bool, trips: bool)
    | Storing(index: nat, matched: bool)
    | Stored(matched: bool)
    | Counted(done: nat, matched: bool)
    | Reporting(done: nat)
    | Reported(done: nat, job: Job)
    | Gone

  // Where the run itself stands: feeding, waiting for the workers, recording how it ended, gone.
  datatype Main =
    | Feeding
    | Joining(stopped: bool)
    | Finishing(status: Status)
    | Finished(status: Status, job: Job)
    | Leaving
    | Left
    | Over

  // What became of each index, as a history no code keeps: its result stored, not stored,
  // passed over, or thrown away.
  datatype Fate = Fate(stored: seq<nat>, lost: seq<nat>, skipped: seq<nat>, discarded: seq<nat>)

  // More history: whether the job was saved over or removed meanwhile, whether anyone stopped the
  // run, whether a result tripped its stop conditions, and whether it was cancelled when decided.
  datatype Past = Past(saved: bool, removed: bool, asked: bool, tripped: bool, cut: bool)

  // What the run's steps share. decided is history too.
  datatype Shared = Shared(
    total: nat, fed: nat, main: Main, cancelled: bool, completed: nat, failed: nat,
    job: Option<Job>, results: set<nat>, fate: Fate,
    decided: Option<Status>, past: Past)

  // Whether the run is in the register of those in flight, and whether its done channel is closed.
  predicate Registered(g: Shared) {
    !g.main.Left? && !g.main.Over?
  }

  predicate Closed(g: Shared) {
    g.main.Over?
  }

  datatype State = State(g: Shared, workers: seq<Worker>)

  datatype Work =
    | Take | Look | Answer(error: bool, trips: bool) | Judge | Put(ok: bool) | Count | Settle
    | Read(ok: bool) | Write(ok: bool) | Leave

  datatype Lead = Close | GiveUp | Decide | ReadFinal(ok: bool) | WriteFinal(ok: bool) | Deregister | CloseDone

  // What others do meanwhile: stop the run, delete the job, or save it over.
  datatype World = Cancel | Remove | Save(rest: int)

  datatype Action = Works(w: nat, work: Work) | Leads(lead: Lead) | Meanwhile(world: World)

  function ClampConcurrency(n: int): (r: nat)
    ensures 1 <= r <= MAX_CONCURRENCY
    ensures 1 <= n <= MAX_CONCURRENCY ==> r == n
    ensures n <= 0 ==> r == 10
    ensures n > MAX_CONCURRENCY ==> r == MAX_CONCURRENCY
  {
    if n <= 0 then 10 else if n < MAX_CONCURRENCY then n else MAX_CONCURRENCY
  }

  function AllWaiting(k: nat): (ws: seq<Worker>)
    ensures |ws| == k && forall i :: 0 <= i < k ==> ws[i] == Waiting
  {
    seq(k, i => Waiting)
  }

  // As Start leaves it: the record says running, and no result is stored.
  function Begin(total: nat, concurrency: int, rest: int): State {
    State(Shared(total, 0, Feeding, false, 0, 0,
                 Some(Job(Running, 0, total, rest, false)), {}, Fate([], [], [], []), None,
                 Past(false, false, false, false, false)),
          AllWaiting(ClampConcurrency(concurrency)))
  }

  // One step of a worker, if it can take it: where it then stands, and what it changed.
  function Move(p: Worker, g: Shared, work: Work): Option<(Worker, Shared)> {
    match p
    case Waiting =>
      if work.Take? && g.main.Feeding? && g.fed < g.total then Some((Holding(g.fed), g.(fed := g.fed + 1)))
      else if work.Leave? && !g.main.Feeding? then Some((Gone, g))
      else None
    case Holding(i) =>
      if !work.Look? then None
      else if g.cancelled then Some((Waiting, g.(fate := g.fate.(skipped := g.fate.skipped + [i]))))
      else Some((Sending(i), g))
    case Sending(i) =>
      if !work.Answer? then None
      else
        var tripped := g.past.tripped || (!work.error && work.trips);
        Some((Answered(i, work.error, work.trips), g.(past := g.past.(tripped := tripped))))
    case Answered(i, error, trips) =>
      if !work.Judge? then None
      else if error && g.cancelled then Some((Waiting, g.(fate := g.fate.(discarded := g.fate.discarded + [i]))))
      else Some((Storing(i, !error && trips), g))
    case Storing(i, matched) =>
      if !work.Put? then None
      else if work.ok then
        Some((Stored(matched), g.(results := g.results + {i}, fate := g.fate.(stored := g.fate.stored + [i]))))
      else Some((Waiting, g.(failed := g.failed + 1, fate := g.fate.(lost := g.fate.lost + [i]))))
    case Stored(matched) =>
      if work.Count? then Some((Counted(g.completed + 1, matched), g.(completed := g.completed + 1))) else None
    case Counted(done, matched) =>
      if !work.Settle? then None
      else
        Some((if done % REPORT_EVERY == 0 then Reporting(done) else Waiting,
              g.(cancelled := g.cancelled || matched)))
    case Reporting(done) =>
      if !work.Read? then None
      else Some((if work.ok && g.job.Some? then Reported(done, g.job.value) else Waiting, g))
    case Reported(done, job) =>
      if !work.Write? then None
      else Some((Waiting, if work.ok then g.(job := Some(job.(status := Running, completed := done))) else g))
    case Gone => None
  }

  predicate AllGone(ws: seq<Worker>) {
    forall k :: 0 <= k < |ws| ==> ws[k] == Gone
  }

  function Verdict(g: Shared, stopped: bool): Status {
    if g.failed > 0 then Error else if stopped || g.cancelled then Stopped else Done
  }

  function Decision(g: Shared, stopped: bool): Shared {
    var v := Verdict(g, stopped);
    g.(main := Finishing(v), decided := Some(v), past := g.past.(cut := g.cancelled))
  }

  // One step of the run's own goroutine. gone says whether every worker has left.
  function LeadNext(g: Shared, gone: bool, lead: Lead): Option<Shared> {
    match g.main
    case Feeding =>
      if lead.Close? && g.fed == g.total then Some(g.(main := Joining(false)))
      else if lead.GiveUp? && g.fed < g.total && g.cancelled then Some(g.(main := Joining(true)))
      else None
    case Joining(stopped) =>
      if lead.Decide? && gone then Some(Decision(g, stopped))
      else None
    case Finishing(status) =>
      if !lead.ReadFinal? then None
      else Some(g.(main := if lead.ok && g.job.Some? then Finished(status, g.job.value) else Leaving))
    case Finished(status, job) =>
      if !lead.WriteFinal? then None
      else if lead.ok then Some(g.(main := Leaving, job := Some(job.(status := status, completed := g.completed))))
      else Some(g.(main := Leaving))
    case Leaving => if lead.Deregister? then Some(g.(main := Left)) else None
    case Left => if lead.CloseDone? then Some(g.(main := Over)) else None
    case Over => None
  }

  function WorldNext(g: Shared, world: World): Shared {
    match world
    case Cancel => g.(cancelled := true, past := g.past.(asked := true))
    case Remove => g.(job := None, results := {}, past := g.past.(removed := true))
    case Save(rest) => g.(job := Some(Job(Draft, 0, 0, rest, true)), results := {}, past := g.past.(saved := true))
  }

  function Next(s: State, a: Action): Option<State> {
    match a
    case Works(w, work) =>
      if w >= |s.workers| then None
      else (
        match Move(s.workers[w], s.g, work)
        case None => None
        case Some((p, g)) => Some(State(g, s.workers[w := p]))
      )
    case Leads(lead) =>
      (
        match LeadNext(s.g, AllGone(s.workers), lead)
        case None => None
        case Some(g) => Some(s.(g := g))
      )
    case Meanwhile(world) => Some(s.(g := WorldNext(s.g, world)))
  }

  // A run so far: the steps taken, in the order they came.
  datatype Run = Start | After(before: Run, action: Action)

  function End(begin: State, run: Run): Option<State> {
    match run
    case Start => Some(begin)
    case After(before, action) =>
      var s := End(begin, before);
      if s.None? then None else Next(s.value, action)
  }

  /** A result without an error trips the stop conditions when all of them hold, or any one does, as asked. */
  method MatchesStop(holds: seq<bool>, all: bool, error: bool) returns (r: bool)
    ensures r <==> holds != [] && !error && if all then false !in holds else true in holds
  {
    if |holds| == 0 || error {
      return false;
    }
    for i := 0 to |holds|
      invariant if all then false !in holds[..i] else true !in holds[..i]
    {
      assert holds[..i + 1] == holds[..i] + [holds[i]];
      if holds[i] != all {
        return !all;
      }
    }
    assert holds[..|holds|] == holds;
    r := all;
  }

  // ---- the books ---------------------------------------------------------

  // What is counted: one index, every index, or results stored and not yet counted.
  datatype What = Index(x: nat) | AnyIndex | Uncounted

  predicate HoldsAny(p: Worker) {
    p.Holding? || p.Sending? || p.Answered? || p.Storing?
  }

  // What one worker has of it.
  function Amount(p: Worker, what: What): nat {
    match what
    case Index(x) => if HoldsAny(p) && p.index == x then 1 else 0
    case AnyIndex => if HoldsAny(p) then 1 else 0
    case Uncounted => if p.Stored? then 1 else 0
  }

  function Tally(ws: seq<Worker>, n: nat, what: What): nat
    requires n <= |ws|
  {
    if n == 0 then 0 else Tally(ws, n - 1, what) + Amount(ws[n - 1], what)
  }

  function Times(s: seq<nat>, x: nat): nat {
    if s == [] then 0 else Times(s[..|s| - 1], x) + if s[|s| - 1] == x then 1 else 0
  }

  lemma TimesMore(s: seq<nat>, i: nat, x: nat)
    ensures Times(s + [i], x) == Times(s, x) + if i == x then 1 else 0
  {
    assert (s + [i])[..|s|] == s;
  }

  // How often an index has met its fate.
  function Settled(f: Fate, x: nat): nat {
    Times(f.stored, x) + Times(f.lost, x) + Times(f.skipped, x) + Times(f.discarded, x)
  }

  // What all the workers together should have of it, by what was fed and what has become of it.
  function Due(g: Shared, what: What): int {
    match what
    case Index(x) => (if x < g.fed then 1 else 0) - Settled(g.fate, x)
    case AnyIndex => g.fed - |g.fate.stored| - |g.fate.lost| - |g.fate.skipped| - |g.fate.discarded|
    case Uncounted => |g.fate.stored| - g.completed
  }

  lemma SettledMore(f: Fate, i: nat, x: nat)
    ensures var n := Settled(f, x) + if i == x then 1 else 0;
            && Settled(f.(stored := f.stored + [i]), x) == n && Settled(f.(lost := f.lost + [i]), x) == n
            && Settled(f.(skipped := f.skipped + [i]), x) == n && Settled(f.(discarded := f.discarded + [i]), x) == n
  {
    TimesMore(f.stored, i, x);
    TimesMore(f.lost, i, x);
    TimesMore(f.skipped, i, x);
    TimesMore(f.discarded, i, x);
  }

  lemma {:induction false} TallyUpdate(ws: seq<Worker>, w: nat, p: Worker, n: nat, what: What)
    requires w < |ws| && n <= |ws|
    ensures Tally(ws[w := p], n, what) ==
            Tally(ws, n, what) + if n > w then Amount(p, what) - Amount(ws[w], what) else 0
  {
    if n > 0 {
      TallyUpdate(ws, w, p, n - 1, what);
    }
  }

  // One step moves what it takes from one place to another.
  lemma MoveBalances(p: Worker, g: Shared, work: Work, what: What)
    requires Move(p, g, work).Some?
    ensures var (p', g') := Move(p, g, work).value;
            Amount(p', what) - Amount(p, what) == Due(g', what) - Due(g, what)
  {
    var (p', g') := Move(p, g, work).value;
    if what.Index? {
      MoveSteps(p, g, work);
      IndexMoves(p, g, p', g', what.x);
    }
  }

  // An index has met its fate, one of the four.
  predicate Meets(f: Fate, f': Fate, i: nat) {
    || f' == f.(stored := f.stored + [i]) || f' == f.(lost := f.lost + [i])
    || f' == f.(skipped := f.skipped + [i]) || f' == f.(discarded := f.discarded + [i])
  }

  // A step takes up the next index, or settles the one in hand, or leaves it there.
  predicate Stepped(p: Worker, g: Shared, p': Worker, g': Shared) {
    if HoldsAny(p) then
      && g'.fed == g.fed
      && if HoldsAny(p') then p'.index == p.index && g'.fate == g.fate else Meets(g.fate, g'.fate, p.index)
    else
      && g'.fate == g.fate
      && if HoldsAny(p') then p'.index == g.fed && g'.fed == g.fed + 1 else g'.fed == g.fed
  }

  lemma MoveSteps(p: Worker, g: Shared, work: Work)
    requires Move(p, g, work).Some?
    ensures var (p', g') := Move(p, g, work).value; Stepped(p, g, p', g')
  {
  }

  lemma IndexMoves(p: Worker, g: Shared, p': Worker, g': Shared, x: nat)
    requires Stepped(p, g, p', g')
    ensures Amount(p', Index(x)) - Amount(p, Index(x)) == Due(g', Index(x)) - Due(g, Index(x))
  {
    if HoldsAny(p) && !HoldsAny(p') {
      SettledMore(g.fate, p.index, x);
    }
  }

  lemma {:induction false} Idle(ws: seq<Worker>, n: nat, what: What)
    requires n <= |ws| && forall k :: 0 <= k < n ==> ws[k] == Gone || ws[k] == Waiting
    ensures Tally(ws, n, what) == 0
  {
    if n > 0 {
      Idle(ws, n - 1, what);
    }
  }

  // ---- what every step keeps ---------------------------------------------

  // The books balance: each index is in one place, and the counter lags the results by what is not yet counted.
  ghost predicate Balanced(s: State) {
    forall what :: Tally(s.workers, |s.workers|, what) == Due(s.g, what)
  }

  predicate Deciding(m: Main) {
    m.Feeding? || m.Joining?
  }

  // What may stand in the record, or be read of it to be written again.
  predicate Records(g: Shared, job: Job) {
    && job.completed <= g.completed
    && (job.resaved ==> g.past.saved) && job.total == (if job.resaved then 0 else g.total)
    && (job.status == Running || job.status == Draft || (g.decided == Some(job.status) && job.completed == g.completed))
  }

  predicate SharedOk(g: Shared) {
    && g.failed == |g.fate.lost| && g.fed <= g.total
    && (g.fate.skipped != [] || g.fate.discarded != [] ==> g.cancelled)
    && (g.main.Joining? ==> if g.main.stopped then g.cancelled && g.fed < g.total else g.fed == g.total)
    && (g.decided.None? <==> Deciding(g.main))
    && (g.main.Finishing? || g.main.Finished? ==> g.decided == Some(g.main.status))
    && (g.job.Some? ==> Records(g, g.job.value))
    && (g.main.Finished? ==> Records(g, g.main.job))
    && (g.decided.Some? ==> Judged(g, g.decided.value))
  }

  // The results are those stored, unless the job was saved over or removed meanwhile.
  ghost predicate ResultsOk(g: Shared) {
    !g.past.saved && !g.past.removed ==> forall i :: i in g.results <==> i in g.fate.stored
  }

  // What the verdict means.
  predicate Judged(g: Shared, v: Status) {
    && (v == Done || v == Stopped || v == Error)
    && (v == Error <==> g.failed > 0)
    && (v == Stopped <==> g.failed == 0 && g.past.cut)
    && (v == Done ==>
          && |g.fate.stored| == g.total == g.completed && g.fed == g.total
          && g.fate.lost == g.fate.skipped == g.fate.discarded == [])
  }

  predicate WorkerOk(p: Worker, g: Shared) {
    && (p.Gone? ==> !g.main.Feeding?)
    && (p.Counted? || p.Reporting? || p.Reported? ==> p.done <= g.completed)
    && (p.Reported? ==> Records(g, p.job))
  }

  // A run is cancelled for a reason, and so is a worker about to cancel it.
  predicate ReasonOk(g: Shared) {
    g.cancelled ==> g.past.asked || g.past.tripped
  }

  predicate MatchedOk(p: Worker, g: Shared) {
    && (p.Answered? && !p.error && p.trips ==> g.past.tripped)
    && ((p.Storing? || p.Stored? || p.Counted?) && p.matched ==> g.past.tripped)
  }

  ghost predicate Sound(s: State) {
    && s.workers != [] && Balanced(s) && SharedOk(s.g) && ResultsOk(s.g) && ReasonOk(s.g)
    && (forall k :: 0 <= k < |s.workers| ==> WorkerOk(s.workers[k], s.g) && MatchedOk(s.workers[k], s.g))
    && (!Deciding(s.g.main) ==> AllGone(s.workers))
  }

  lemma MoveKeeps(p: Worker, g: Shared, work: Work)
    requires SharedOk(g) && WorkerOk(p, g) && Deciding(g.main) && Move(p, g, work).Some?
    ensures var (p', g') := Move(p, g, work).value;
            SharedOk(g') && WorkerOk(p', g') && g'.main == g.main && g'.total == g.total
  {
  }

  lemma MoveKeepsResults(p: Worker, g: Shared, work: Work)
    requires ResultsOk(g) && Move(p, g, work).Some?
    ensures ResultsOk(Move(p, g, work).value.1)
  {
  }

  lemma MoveKeepsReasons(p: Worker, g: Shared, work: Work)
    requires ReasonOk(g) && MatchedOk(p, g) && Move(p, g, work).Some?
    ensures var (p', g') := Move(p, g, work).value;
            ReasonOk(g') && MatchedOk(p', g') && (g.past.tripped ==> g'.past.tripped)
  {
  }

  // A worker's step is no other's concern.
  lemma OthersKeep(q: Worker, p: Worker, g: Shared, work: Work)
    requires WorkerOk(q, g) && Deciding(g.main) && g.decided.None? && Move(p, g, work).Some?
    ensures WorkerOk(q, Move(p, g, work).value.1)
  {
  }

  lemma WorkKeeps(s: State, w: nat, work: Work)
    requires Sound(s) && w < |s.workers| && Move(s.workers[w], s.g, work).Some?
    ensures Sound(Next(s, Works(w, work)).value)
    ensures Next(s, Works(w, work)).value.g.total == s.g.total
  {
    var p, g := s.workers[w], s.g;
    var (p', g') := Move(p, g, work).value;
    var t := Next(s, Works(w, work)).value;
    assert Deciding(g.main);
    MoveKeeps(p, g, work);
    MoveKeepsResults(p, g, work);
    MoveKeepsReasons(p, g, work);
    forall k | 0 <= k < |t.workers| ensures WorkerOk(t.workers[k], g') && MatchedOk(t.workers[k], g') {
      if k != w {
        OthersKeep(s.workers[k], p, g, work);
      }
    }
    forall what ensures Tally(t.workers, |t.workers|, what) == Due(g', what) {
      MoveBalances(p, g, work, what);
      TallyUpdate(s.workers, w, p', |s.workers|, what);
    }
  }

  lemma DecideIsRight(s: State)
    requires Sound(s) && s.g.main.Joining? && AllGone(s.workers)
    ensures Judged(Decision(s.g, s.g.main.stopped), Verdict(s.g, s.g.main.stopped))
  {
    Idle(s.workers, |s.workers|, AnyIndex);
    Idle(s.workers, |s.workers|, Uncounted);
  }

  predicate SameBooks(a: Shared, b: Shared) {
    && (a.past.tripped ==> b.past.tripped)
    && a.fed == b.fed && a.completed == b.completed && a.fate == b.fate
  }

  lemma LeadShared(g: Shared, gone: bool, lead: Lead)
    requires SharedOk(g) && LeadNext(g, gone, lead).Some?
    requires g.main.Joining? && gone ==> Judged(Decision(g, g.main.stopped), Verdict(g, g.main.stopped))
    ensures var g' := LeadNext(g, gone, lead).value;
            && SharedOk(g') && g'.total == g.total
            && (ResultsOk(g) ==> ResultsOk(g')) && (ReasonOk(g) ==> ReasonOk(g')) && SameBooks(g, g')
  {
  }

  lemma LeadApart(g: Shared, gone: bool, lead: Lead, p: Worker)
    requires SharedOk(g) && LeadNext(g, gone, lead).Some? && WorkerOk(p, g)
    ensures WorkerOk(p, LeadNext(g, gone, lead).value)
  {
  }

  lemma LeadKeeps(s: State, lead: Lead)
    requires Sound(s) && LeadNext(s.g, AllGone(s.workers), lead).Some?
    ensures Sound(Next(s, Leads(lead)).value)
    ensures Next(s, Leads(lead)).value.g.total == s.g.total
  {
    var t := Next(s, Leads(lead)).value;
    if s.g.main.Joining? && AllGone(s.workers) {
      DecideIsRight(s);
    }
    LeadShared(s.g, AllGone(s.workers), lead);
    forall k | 0 <= k < |t.workers| ensures WorkerOk(t.workers[k], t.g) && MatchedOk(t.workers[k], t.g) {
      LeadApart(s.g, AllGone(s.workers), lead, s.workers[k]);
    }
  }

  lemma WorldShared(g: Shared, world: World)
    requires SharedOk(g)
    ensures var g' := WorldNext(g, world);
            && SharedOk(g') && g'.total == g.total && g'.main == g.main
            && (ResultsOk(g) ==> ResultsOk(g')) && (ReasonOk(g) ==> ReasonOk(g')) && SameBooks(g, g')
  {
  }

  lemma WorldKeeps(s: State, world: World)
    requires Sound(s)
    ensures Sound(Next(s, Meanwhile(world)).value)
    ensures Next(s, Meanwhile(world)).value.g.total == s.g.total
  {
    var t := Next(s, Meanwhile(world)).value;
    WorldShared(s.g, world);
    forall k | 0 <= k < |t.workers| ensures WorkerOk(t.workers[k], t.g) && MatchedOk(t.workers[k], t.g) {
      assert WorkerOk(s.workers[k], s.g);
    }
  }

  lemma BeginIsSound(total: nat, concurrency: int, rest: int)
    ensures Sound(Begin(total, concurrency, rest))
  {
    var s := Begin(total, concurrency, rest);
    forall what ensures Tally(s.workers, |s.workers|, what) == Due(s.g, what) {
      Idle(s.workers, |s.workers|, what);
    }
  }

  lemma {:induction false} EveryInterleaving(total: nat, concurrency: int, rest: int, run: Run)
    requires End(Begin(total, concurrency, rest), run).Some?
    ensures Sound(End(Begin(total, concurrency, rest), run).value)
    ensures End(Begin(total, concurrency, rest), run).value.g.total == total
  {
    match run
    case Start => BeginIsSound(total, concurrency, rest);
    case After(before, action) =>
      EveryInterleaving(total, concurrency, rest, before);
      var s := End(Begin(total, concurrency, rest), before).value;
      match action
      case Works(w, work) => WorkKeeps(s, w, work);
      case Leads(lead) => LeadKeeps(s, lead);
      case Meanwhile(world) => WorldKeeps(s, world);
  }

  // ---- what a run guarantees ---------------------------------------------

  // Some interleaving of a run over total payloads leads here.
  ghost predicate Reachable(s: State, total: nat) {
    exists concurrency, rest, run :: End(Begin(total, concurrency, rest), run) == Some(s)
  }

  lemma ReachableIsSound(s: State, total: nat)
    requires Reachable(s, total)
    ensures Sound(s) && s.g.total == total
  {
    var concurrency, rest, run :| End(Begin(total, concurrency, rest), run) == Some(s);
    EveryInterleaving(total, concurrency, rest, run);
  }

  // How many places hold an index: not fed, with a worker, stored, not stored, passed over, thrown away.
  function Places(s: State, i: nat): nat {
    (if i >= s.g.fed then 1 else 0) + Tally(s.workers, |s.workers|, Index(i)) + Settled(s.g.fate, i)
  }

  /** In every interleaving each payload is in exactly one place, and no result is stored twice. */
  lemma EachIndexOnce(s: State, total: nat, i: nat)
    requires Reachable(s, total)
    ensures Places(s, i) == 1
    ensures forall a, b :: 0 <= a < b < |s.g.fate.stored| ==> s.g.fate.stored[a] != s.g.fate.stored[b]
  {
    ReachableIsSound(s, total);
    assert Tally(s.workers, |s.workers|, Index(i)) == Due(s.g, Index(i));
    forall a, b | 0 <= a < b < |s.g.fate.stored| ensures s.g.fate.stored[a] != s.g.fate.stored[b] {
      var x := s.g.fate.stored[a];
      assert Tally(s.workers, |s.workers|, Index(x)) == Due(s.g, Index(x));
      if s.g.fate.stored[b] == x {
        TimesTwice(s.g.fate.stored, a, b);
      }
    }
  }

  lemma {:induction false} TimesTwice(s: seq<nat>, a: nat, b: nat)
    requires a < b < |s| && s[a] == s[b]
    ensures Times(s, s[a]) >= 2
  {
    if b < |s| - 1 {
      TimesTwice(s[..|s| - 1], a, b);
    } else {
      TimesOnce(s[..|s| - 1], a);
    }
  }

  lemma {:induction false} TimesOnce(s: seq<nat>, a: nat)
    requires a < |s|
    ensures Times(s, s[a]) >= 1
  {
    if a < |s| - 1 {
      TimesOnce(s[..|s| - 1], a);
    }
  }

  lemma {:induction false} TimesIn(s: seq<nat>, x: nat)
    ensures Times(s, x) > 0 <==> x in s
  {
    if s != [] {
      TimesIn(s[..|s| - 1], x);
    }
  }

  lemma AllSettled(s: State, i: nat)
    requires Sound(s) && s.g.decided == Some(Done)
    ensures Times(s.g.fate.stored, i) == (if i < s.g.total then 1 else 0) && (i in s.g.fate.stored <==> i < s.g.total)
  {
    Idle(s.workers, |s.workers|, Index(i));
    assert Tally(s.workers, |s.workers|, Index(i)) == Due(s.g, Index(i));
    TimesIn(s.g.fate.stored, i);
  }

  /**
   * A record that says done tells the truth: every payload's result was stored, once, and it
   * counts them all. The results are there unless a save or a removal took them.
   */
  lemma DoneMeansStored(s: State, total: nat, i: nat)
    requires Reachable(s, total) && s.g.job.Some? && s.g.job.value.status == Done
    ensures |s.g.fate.stored| == total && Times(s.g.fate.stored, i) == (if i < total then 1 else 0)
    ensures s.g.job.value.completed == total
    ensures !s.g.past.saved && !s.g.past.removed ==> (i in s.g.results <==> i < total)
  {
    ReachableIsSound(s, total);
    AllSettled(s, i);
  }

  /**
   * Whatever a record says, its total is right exactly when it does not come down from a save, or
   * there was nothing to do.
   */
  lemma TotalIsRight(s: State, total: nat)
    requires Reachable(s, total) && s.g.job.Some?
    ensures s.g.job.value.total == total <==> !s.g.job.value.resaved || total == 0
    ensures s.g.job.value.total != total ==> s.g.past.saved && s.g.job.value.total == 0
  {
    ReachableIsSound(s, total);
  }

  /**
   * How a run ended: in error exactly if a result was lost, else stopped exactly if it was
   * cancelled by then, else done. It is cancelled only if someone stopped it or a result
   * without an error tripped.
   */
  lemma VerdictIsRight(s: State, total: nat)
    requires Reachable(s, total) && s.g.decided.Some?
    ensures s.g.decided == Some(Error) <==> s.g.fate.lost != []
    ensures s.g.decided == Some(Stopped) <==> s.g.fate.lost == [] && s.g.past.cut
    ensures s.g.decided == Some(Done) <==> s.g.fate.lost == [] && !s.g.past.cut
    ensures s.g.cancelled ==> s.g.past.asked || s.g.past.tripped
    ensures s.g.job.Some? && s.g.job.value.status != Running && s.g.job.value.status != Draft ==>
              s.g.decided == Some(s.g.job.value.status) && s.g.job.value.completed == |s.g.fate.stored|
  {
    ReachableIsSound(s, total);
    Idle(s.workers, |s.workers|, Uncounted);
    assert Tally(s.workers, |s.workers|, Uncounted) == Due(s.g, Uncounted);
  }

  /**
   * Once decided, every result is stored exactly when all were fed and none was lost, skipped or
   * thrown away. A run of which that holds is done if it was not cancelled by then, and stopped if it was.
   */
  lemma AllStoredExactly(s: State, total: nat)
    requires Reachable(s, total) && s.g.decided.Some?
    ensures |s.g.fate.stored| == total <==>
            s.g.fed == total && s.g.fate.lost == [] && s.g.fate.skipped == [] && s.g.fate.discarded == []
    ensures |s.g.fate.stored| == total ==> s.g.decided == Some(if s.g.past.cut then Stopped else Done)
    ensures s.g.decided == Some(Done) ==> |s.g.fate.stored| == total
  {
    ReachableIsSound(s, total);
    Idle(s.workers, |s.workers|, AnyIndex);
    assert Tally(s.workers, |s.workers|, AnyIndex) == Due(s.g, AnyIndex);
  }

  // ---- why each index met its fate ---------------------------------------

  // What a worker's step can be for an index: the answer of its request, a look that finds the run cancelled, a
  // judgement that throws a failed answer away, a put that works or fails, the put of a result that tripped.
  datatype Event = Responds(error: bool, trips: bool) | PassedOver | ThrownAway | Kept | NotKept | KeptTripping

  predicate Happens(p: Worker, cancelled: bool, work: Work, i: nat, event: Event) {
    match event
    case Responds(error, trips) => p == Sending(i) && work == Answer(error, trips)
    case PassedOver => p == Holding(i) && work.Look? && cancelled
    case ThrownAway => p.Answered? && p.index == i && work.Judge? && p.error && cancelled
    case Kept => p.Storing? && p.index == i && work == Put(true)
    case NotKept => p.Storing? && p.index == i && work == Put(false)
    case KeptTripping => p == Storing(i, true) && work == Put(true)
  }

  predicate HappensIn(s: State, a: Action, i: nat, event: Event) {
    a.Works? && a.w < |s.workers| && Happens(s.workers[a.w], s.g.cancelled, a.work, i, event)
  }

  // It happened somewhere along the run.
  predicate Happened(begin: State, run: Run, i: nat, event: Event) {
    match run
    case Start => false
    case After(before, action) =>
      || Happened(begin, before, i, event)
      || (End(begin, before).Some? && HappensIn(End(begin, before).value, action, i, event))
  }

  lemma FateOfMove(p: Worker, g: Shared, work: Work, i: nat)
    requires Move(p, g, work).Some?
    ensures var f, f' := g.fate, Move(p, g, work).value.1.fate;
            && (i in f'.discarded <==> i in f.discarded || Happens(p, g.cancelled, work, i, ThrownAway))
            && (i in f'.skipped <==> i in f.skipped || Happens(p, g.cancelled, work, i, PassedOver))
            && (i in f'.stored <==> i in f.stored || Happens(p, g.cancelled, work, i, Kept))
            && (i in f'.lost <==> i in f.lost || Happens(p, g.cancelled, work, i, NotKept))
  {
  }

  lemma FateOfOneStep(s: State, a: Action, i: nat)
    requires Next(s, a).Some?
    ensures var f, f' := s.g.fate, Next(s, a).value.g.fate;
            && (i in f'.discarded <==> i in f.discarded || HappensIn(s, a, i, ThrownAway))
            && (i in f'.skipped <==> i in f.skipped || HappensIn(s, a, i, PassedOver))
            && (i in f'.stored <==> i in f.stored || HappensIn(s, a, i, Kept))
            && (i in f'.lost <==> i in f.lost || HappensIn(s, a, i, NotKept))
  {
    if a.Works? {
      FateOfMove(s.workers[a.w], s.g, a.work, i);
    }
  }

  /**
   * An index is thrown away exactly when its request answered with an error and the run was cancelled when that
   * was judged, passed over exactly when the run was cancelled when it came up, and stored or lost as its put went.
   */
  lemma {:induction false} FatesAreRight(begin: State, run: Run, i: nat)
    requires begin.g.fate == Fate([], [], [], []) && End(begin, run).Some?
    ensures var f := End(begin, run).value.g.fate;
            && (i in f.discarded <==> Happened(begin, run, i, ThrownAway))
            && (i in f.skipped <==> Happened(begin, run, i, PassedOver))
            && (i in f.stored <==> Happened(begin, run, i, Kept))
            && (i in f.lost <==> Happened(begin, run, i, NotKept))
  {
    if run.After? {
      FatesAreRight(begin, run.before, i);
      FateOfOneStep(End(begin, run.before).value, run.action, i);
    }
  }

  // What a worker holds of an answer is what came back.
  ghost predicate FromAnswer(begin: State, run: Run, p: Worker) {
    match p
    case Answered(i, error, trips) => Happened(begin, run, i, Responds(error, trips))
    case Storing(i, matched) =>
      exists error, trips :: Happened(begin, run, i, Responds(error, trips)) && matched == (!error && trips)
    case _ => true
  }

  /** A worker judges the answer its request had, and a result trips when that had no error and met the conditions. */
  lemma {:induction false} AnswersComeBack(begin: State, run: Run, k: nat)
    requires (forall j :: 0 <= j < |begin.workers| ==> begin.workers[j] == Waiting) && End(begin, run).Some?
    requires k < |End(begin, run).value.workers|
    ensures FromAnswer(begin, run, End(begin, run).value.workers[k])
  {
    if run.After? {
      var s := End(begin, run.before).value;
      AnswersComeBack(begin, run.before, k);
      var p := s.workers[k];
      if p.Answered? && run.action.Works? && run.action.w == k {
        assert Happened(begin, run, p.index, Responds(p.error, p.trips));
      }
      AnswersStay(begin, run, p);
    }
  }

  lemma AnswersStay(begin: State, run: Run, p: Worker)
    requires run.After? && FromAnswer(begin, run.before, p)
    ensures FromAnswer(begin, run, p)
  {
    if p.Storing? {
      var error, trips :| Happened(begin, run.before, p.index, Responds(error, trips))
                          && p.matched == (!error && trips);
      assert Happened(begin, run, p.index, Responds(error, trips));
    }
  }

  // A result that tripped is on its way to cancel the run, or has.
  predicate Carries(p: Worker) {
    (p.Stored? || p.Counted?) && p.matched
  }

  ghost predicate TripTold(s: State) {
    if s.g.decided.Some? then s.g.past.cut
    else s.g.cancelled || exists k :: 0 <= k < |s.workers| && Carries(s.workers[k])
  }

  lemma TripStaysTold(s: State, a: Action)
    requires Sound(s) && TripTold(s) && Next(s, a).Some?
    ensures TripTold(Next(s, a).value)
  {
    var t := Next(s, a).value;
    if s.g.decided.None? && !s.g.cancelled {
      var k :| 0 <= k < |s.workers| && Carries(s.workers[k]);
      if t.g.decided.None? && !t.g.cancelled {
        assert Carries(t.workers[k]);
      }
    }
  }

  /** A run that stored a result that tripped is cancelled by the time it is decided how it ended. */
  lemma {:induction false} TripCancels(total: nat, concurrency: int, rest: int, run: Run, i: nat)
    requires var begin := Begin(total, concurrency, rest);
             End(begin, run).Some? && Happened(begin, run, i, KeptTripping)
    ensures var s := End(Begin(total, concurrency, rest), run).value;
            && TripTold(s)
            && (s.g.decided.Some? ==> s.g.past.cut && s.g.decided != Some(Done))
  {
    var begin := Begin(total, concurrency, rest);
    var s := End(begin, run.before).value;
    EveryInterleaving(total, concurrency, rest, run.before);
    EveryInterleaving(total, concurrency, rest, run);
    if Happened(begin, run.before, i, KeptTripping) {
      TripCancels(total, concurrency, rest, run.before, i);
      TripStaysTold(s, run.action);
    } else {
      assert Carries(Next(s, run.action).value.workers[run.action.w]);
    }
  }

  // ---- what is on record meanwhile ---------------------------------------

  // The results put since the record was last saved over or removed.
  function SinceCleared(begin: State, run: Run): set<nat> {
    match run
    case Start => begin.g.results
    case After(before, action) =>
      if End(begin, before).None? then {}
      else
        var s := End(begin, before).value;
        match action
        case Meanwhile(world) => if world.Cancel? then SinceCleared(begin, before) else {}
        case Works(w, work) =>
          if w < |s.workers| && s.workers[w].Storing? && work == Put(true)
          then SinceCleared(begin, before) + {s.workers[w].index} else SinceCleared(begin, before)
        case Leads(_) => SinceCleared(begin, before)
  }

  lemma ResultsOfMove(p: Worker, g: Shared, work: Work)
    requires Move(p, g, work).Some?
    ensures Move(p, g, work).value.1.results ==
            if p.Storing? && work == Put(true) then g.results + {p.index} else g.results
  {
  }

  /** The results on record are those put since a save or a removal last took them all. */
  lemma {:induction false} ResultsAreSinceCleared(begin: State, run: Run)
    requires End(begin, run).Some?
    ensures End(begin, run).value.g.results == SinceCleared(begin, run)
  {
    if run.After? {
      ResultsAreSinceCleared(begin, run.before);
      var s := End(begin, run.before).value;
      if run.action.Works? {
        ResultsOfMove(s.workers[run.action.w], s.g, run.action.work);
      }
    }
  }

  // A record that says running came from the start of the run or from a report; one that says draft, from a save.
  predicate SaysRight(job: Job) {
    && (job.status == Running ==>
          job.completed % REPORT_EVERY == 0 && (job.resaved ==> job.completed > 0))
    && (job.status == Draft ==> job.resaved && job.completed == 0)
  }

  predicate SaysDone(p: Worker) {
    && (p.Counted? ==> p.done > 0)
    && (p.Reporting? || p.Reported? ==> p.done > 0 && p.done % REPORT_EVERY == 0)
  }

  ghost predicate AllSayRight(s: State) {
    && (s.g.job.Some? ==> SaysRight(s.g.job.value))
    && forall k :: 0 <= k < |s.workers| ==> SaysDone(s.workers[k])
  }

  lemma MoveSaysRight(p: Worker, g: Shared, work: Work)
    requires Move(p, g, work).Some? && SaysDone(p) && (g.job.Some? ==> SaysRight(g.job.value))
    ensures var (p', g') := Move(p, g, work).value; SaysDone(p') && (g'.job.Some? ==> SaysRight(g'.job.value))
  {
  }

  lemma LeadSaysRight(g: Shared, gone: bool, lead: Lead)
    requires SharedOk(g) && LeadNext(g, gone, lead).Some? && (g.job.Some? ==> SaysRight(g.job.value))
    ensures var g' := LeadNext(g, gone, lead).value; g'.job.Some? ==> SaysRight(g'.job.value)
  {
  }

  /** While a run goes on its record counts in steps of REPORT_EVERY; one saved over is a draft until a report. */
  lemma {:induction false} RecordsSayRight(total: nat, concurrency: int, rest: int, run: Run)
    requires End(Begin(total, concurrency, rest), run).Some?
    ensures AllSayRight(End(Begin(total, concurrency, rest), run).value)
  {
    if run.After? {
      var s := End(Begin(total, concurrency, rest), run.before).value;
      RecordsSayRight(total, concurrency, rest, run.before);
      EveryInterleaving(total, concurrency, rest, run.before);
      match run.action
      case Works(w, work) => MoveSaysRight(s.workers[w], s.g, work);
      case Leads(lead) => LeadSaysRight(s.g, AllGone(s.workers), lead);
      case Meanwhile(_) =>
    }
  }

  lemma OneOn(s: State, a: Action) returns (t: State)
    requires Next(s, a).Some?
    ensures Next(s, a) == Some(t)
  {
    t := Next(s, a).value;
  }

  /** Every REPORT_EVERYth result counted is reported, by the worker that counted it, and no other is. */
  lemma EveryTwentiethIsReported(s: State, w: nat) returns (t: State)
    requires w < |s.workers| && s.workers[w].Counted? && s.g.job.Some?
    ensures var done := s.workers[w].done;
            && t.workers == s.workers[w := Waiting]
            && t.g.job == if done % REPORT_EVERY == 0 then Some(s.g.job.value.(status := Running, completed := done))
                          else s.g.job
  {
    t := OneOn(s, Works(w, Settle));
    if t.workers[w].Reporting? {
      t := OneOn(t, Works(w, Read(true)));
      t := OneOn(t, Works(w, Write(true)));
    }
  }

  // What a run does not touch of its job: it stands, unless a save put in something else.
  predicate Untouched(job: Job, rest: int) {
    job.resaved || job.rest == rest
  }

  ghost predicate AllUntouched(s: State, rest: int) {
    && (s.g.job.Some? ==> Untouched(s.g.job.value, rest))
    && (s.g.main.Finished? ==> Untouched(s.g.main.job, rest))
    && (forall k :: 0 <= k < |s.workers| && s.workers[k].Reported? ==> Untouched(s.workers[k].job, rest))
  }

  lemma MoveLeavesTemplate(p: Worker, g: Shared, work: Work, rest: int)
    requires Move(p, g, work).Some? && (g.job.Some? ==> Untouched(g.job.value, rest))
    requires p.Reported? ==> Untouched(p.job, rest)
    ensures var (p', g') := Move(p, g, work).value;
            && (g'.job.Some? ==> Untouched(g'.job.value, rest)) && (p'.Reported? ==> Untouched(p'.job, rest))
            && g'.main == g.main
  {
  }

  lemma StepLeavesTemplate(s: State, a: Action, rest: int)
    requires AllUntouched(s, rest) && Next(s, a).Some?
    ensures AllUntouched(Next(s, a).value, rest)
  {
    if a.Works? {
      MoveLeavesTemplate(s.workers[a.w], s.g, a.work, rest);
    }
  }

  /** A run writes how far it is into the record it reads: the template and the rest stand, unless saved over. */
  lemma {:induction false} TemplateStands(total: nat, concurrency: int, rest: int, run: Run)
    requires End(Begin(total, concurrency, rest), run).Some?
    ensures AllUntouched(End(Begin(total, concurrency, rest), run).value, rest)
  {
    if run.After? {
      TemplateStands(total, concurrency, rest, run.before);
      StepLeavesTemplate(End(Begin(total, concurrency, rest), run.before).value, run.action, rest);
    }
  }

  /** Once a run is off the register it writes nothing more, and once its channel is closed it does nothing at all. */
  lemma QuietOnceGone(s: State, total: nat, action: Action)
    requires Reachable(s, total) && !Registered(s.g) && !action.Meanwhile?
    ensures Next(s, action).Some? ==> !Closed(s.g) && Next(s, action).value == s.(g := s.g.(main := Over))
  {
    ReachableIsSound(s, total);
    if action.Works? && action.w < |s.workers| {
      assert s.workers[action.w] == Gone;
    }
  }

  // ---- every run ends ----------------------------------------------------

  // How many steps a worker may still take before it waits again.
  function Ahead(p: Worker): nat {
    match p
    case Gone => 0
    case Waiting => 1
    case Reported(_, _) => 2
    case Reporting(_) => 3
    case Counted(_, _) => 4
    case Stored(_) => 5
    case Storing(_, _) => 6
    case Answered(_, _, _) => 7
    case Sending(_) => 8
    case Holding(_) => 9
  }

  function AheadAll(ws: seq<Worker>, n: nat): nat
    requires n <= |ws|
  {
    if n == 0 then 0 else AheadAll(ws, n - 1) + Ahead(ws[n - 1])
  }

  function MainAhead(m: Main): nat {
    match m
    case Feeding => 6
    case Joining(_) => 5
    case Finishing(_) => 4
    case Finished(_, _) => 3
    case Leaving => 2
    case Left => 1
    case Over => 0
  }

  function StepsLeft(s: State): int {
    10 * (s.g.total - s.g.fed) + AheadAll(s.workers, |s.workers|) + MainAhead(s.g.main)
  }

  lemma {:induction false} AheadUpdate(ws: seq<Worker>, w: nat, p: Worker, n: nat)
    requires w < |ws| && n <= |ws|
    ensures AheadAll(ws[w := p], n) == AheadAll(ws, n) + if n > w then Ahead(p) - Ahead(ws[w]) else 0
  {
    if n > 0 {
      AheadUpdate(ws, w, p, n - 1);
    }
  }

  lemma MoveShortens(p: Worker, g: Shared, work: Work)
    requires Move(p, g, work).Some?
    ensures var (p', g') := Move(p, g, work).value;
            Ahead(p') < Ahead(p) + 10 * (g'.fed - g.fed) && g'.main == g.main && g'.total == g.total
  {
  }

  lemma LeadShortens(g: Shared, gone: bool, lead: Lead)
    requires LeadNext(g, gone, lead).Some?
    ensures var g' := LeadNext(g, gone, lead).value;
            MainAhead(g'.main) < MainAhead(g.main) && g'.fed == g.fed && g'.total == g.total
  {
  }

  /** Every step of the run brings its end nearer, whatever others do between two of them. */
  lemma EveryStepCounts(s: State, action: Action)
    requires Sound(s) && Next(s, action).Some?
    ensures StepsLeft(s) >= 0
    ensures if action.Meanwhile? then StepsLeft(Next(s, action).value) == StepsLeft(s)
            else StepsLeft(Next(s, action).value) < StepsLeft(s)
  {
    match action
    case Works(w, work) =>
      MoveShortens(s.workers[w], s.g, work);
      AheadUpdate(s.workers, w, Move(s.workers[w], s.g, work).value.0, |s.workers|);
    case Leads(lead) => LeadShortens(s.g, AllGone(s.workers), lead);
    case Meanwhile(_) =>
  }

  // Some step a worker can take where it stands, if any.
  function AnyWork(p: Worker, g: Shared): Work {
    match p
    case Gone => Take
    case Waiting => if g.main.Feeding? then Take else Leave
    case Holding(_) => Look
    case Sending(_) => Answer(false, false)
    case Answered(_, _, _) => Judge
    case Storing(_, _) => Put(true)
    case Stored(_) => Count
    case Counted(_, _) => Settle
    case Reporting(_) => Read(true)
    case Reported(_, _) => Write(true)
  }

  // Some step of the run's own.
  function AnyLead(m: Main): Lead {
    match m
    case Feeding => Close
    case Joining(_) => Decide
    case Finishing(_) => ReadFinal(true)
    case Finished(_, _) => WriteFinal(true)
    case Leaving => Deregister
    case Left => CloseDone
    case Over => Close
  }

  /** No run is ever stuck: until its channel is closed some step of its own can be taken. */
  lemma NeverStuck(s: State)
    requires Sound(s) && !Closed(s.g)
    ensures exists a: Action :: !a.Meanwhile? && Next(s, a).Some?
  {
    var m := s.g.main;
    if (m.Feeding? && s.g.fed == s.g.total) || !Deciding(m) || (m.Joining? && AllGone(s.workers)) {
      assert Next(s, Leads(AnyLead(m))).Some?;
    } else {
      var k :| 0 <= k < |s.workers| && s.workers[k] != Gone by {
        if m.Feeding? {
          assert WorkerOk(s.workers[0], s.g);
        }
      }
      assert Next(s, Works(k, AnyWork(s.workers[k], s.g))).Some?;
    }
  }

  // ---- a record deleted under the run ------------------------------------

  // Someone has read the record and may write it again.
  ghost predicate Remembered(s: State) {
    s.g.main.Finished? || exists k :: 0 <= k < |s.workers| && s.workers[k].Reported?
  }

  predicate Saves(a: Action) {
    a.Meanwhile? && a.world.Save?
  }

  predicate NoSaves(run: Run) {
    run.After? ==> !Saves(run.action) && NoSaves(run.before)
  }

  lemma MoveForgets(p: Worker, g: Shared, work: Work)
    requires g.job.None? && !p.Reported? && Move(p, g, work).Some?
    ensures var (p', g') := Move(p, g, work).value;
            g'.job.None? && !p'.Reported? && g'.main == g.main
  {
  }

  lemma StepForgets(s: State, a: Action)
    requires s.g.job.None? && !Remembered(s) && !Saves(a) && Next(s, a).Some?
    ensures Next(s, a).value.g.job.None? && !Remembered(Next(s, a).value)
  {
    if a.Works? {
      MoveForgets(s.workers[a.w], s.g, a.work);
    }
  }

  // What is forgotten stays deleted: reading finds nothing, so there is nothing to write.
  lemma {:induction false} StaysDeleted(s: State, run: Run)
    requires s.g.job.None? && !Remembered(s) && NoSaves(run) && End(s, run).Some?
    ensures End(s, run).value.g.job.None? && !Remembered(End(s, run).value)
  {
    if run.After? {
      StaysDeleted(s, run.before);
      StepForgets(End(s, run.before).value, run.action);
    }
  }

  // One step brings it back.
  lemma WritesBack(s: State) returns (a: Action)
    requires Remembered(s)
    ensures !Saves(a) && Next(s, a).Some? && Next(s, a).value.g.job.Some?
  {
    if s.g.main.Finished? {
      a := Leads(WriteFinal(true));
    } else {
      var k :| 0 <= k < |s.workers| && s.workers[k].Reported?;
      a := Works(k, Write(true));
    }
  }

  // A way the record comes back though nobody saves it.
  ghost predicate Returns(s: State, run: Run) {
    NoSaves(run) && End(s, run).Some? && End(s, run).value.g.job.Some?
  }

  lemma ReturnsInOne(s: State, a: Action)
    requires !Saves(a) && Next(s, a).Some? && Next(s, a).value.g.job.Some?
    ensures Returns(s, After(Start, a))
  {
    assert End(s, Start) == Some(s);
    assert End(s, After(Start, a)) == Next(s, a);
  }

  /** A record deleted under the run comes back exactly when someone had read it before and has yet to write. */
  lemma DeletedComesBack(s: State)
    requires s.g.job.None?
    ensures (exists run: Run :: Returns(s, run)) <==> Remembered(s)
  {
    if Remembered(s) {
      var a := WritesBack(s);
      ReturnsInOne(s, a);
    } else {
      forall run | NoSaves(run) && End(s, run).Some? ensures End(s, run).value.g.job.None? {
        StaysDeleted(s, run);
      }
    }
  }

  // ---- what it does not --------------------------------------------------

  lemma Advance(s: State, total: nat, a: Action) returns (t: State)
    requires Reachable(s, total) && Next(s, a).Some?
    ensures t == Next(s, a).value && Reachable(t, total)
  {
    t := Next(s, a).value;
    var concurrency, rest, run :| End(Begin(total, concurrency, rest), run) == Some(s);
    assert End(Begin(total, concurrency, rest), After(run, a)) == Some(t);
  }

  // One payload, as far as its answer.
  lemma Sent(s: State, trips: bool) returns (t: State)
    requires Reachable(s, 1) && s.workers == [Waiting] && s.g.main == Feeding && s.g.fed == 0 && !s.g.cancelled
    ensures Reachable(t, 1) && t.workers == [Answered(0, false, trips)]
    ensures t.g == s.g.(fed := 1, past := s.g.past.(tripped := s.g.past.tripped || trips))
  {
    ReachableIsSound(s, 1);
    t := Advance(s, 1, Works(0, Take));
    t := Advance(t, 1, Works(0, Look));
    t := Advance(t, 1, Works(0, Answer(false, trips)));
  }

  // And then its result being stored.
  lemma ResultStored(s: State, trips: bool) returns (t: State)
    requires Reachable(s, 1) && s.workers == [Answered(0, false, trips)]
    ensures Reachable(t, 1) && t.workers == [Stored(trips)]
    ensures t.g == s.g.(results := s.g.results + {0}, fate := s.g.fate.(stored := s.g.fate.stored + [0]))
  {
    t := Advance(s, 1, Works(0, Judge));
    t := Advance(t, 1, Works(0, Put(true)));
  }

  // And then being counted, and the worker waiting again.
  lemma ResultCounted(s: State, trips: bool) returns (t: State)
    requires Reachable(s, 1) && s.workers == [Stored(trips)] && s.g.completed == 0 && !s.g.cancelled
    ensures Reachable(t, 1) && t.workers == [Waiting] && t.g == s.g.(completed := 1, cancelled := trips)
  {
    t := Advance(s, 1, Works(0, Count));
    t := Advance(t, 1, Works(0, Settle));
  }

  lemma Decided(s: State) returns (t: State)
    requires Reachable(s, 1) && s.workers == [Waiting] && s.g.main == Feeding && s.g.fed == 1
    ensures Reachable(t, 1) && t.workers == [Gone]
    ensures t.g == Decision(s.g, false)
  {
    ReachableIsSound(s, 1);
    t := Advance(s, 1, Leads(Close));
    t := Advance(t, 1, Works(0, Leave));
    t := Advance(t, 1, Leads(Decide));
  }

  lemma Begins(total: nat)
    ensures Reachable(Begin(total, 1, 0), total) && Begin(total, 1, 0).workers == [Waiting]
  {
    assert End(Begin(total, 1, 0), Start) == Some(Begin(total, 1, 0));
    assert ClampConcurrency(1) == 1;
  }

  /** A run whose last result trips a stop condition is called stopped, though nothing was left to do. */
  lemma StoppedThoughAllStored() returns (s: State)
    ensures Reachable(s, 1) && s.g.decided == Some(Stopped) && s.g.fate.stored == [0]
  {
    Begins(1);
    s := Sent(Begin(1, 1, 0), true);
    s := ResultStored(s, true);
    s := ResultCounted(s, true);
    s := Decided(s);
  }

  /** A job saved over just as its run starts ends done with a total of none. */
  lemma SavedOverLosesTotal() returns (s: State)
    ensures Reachable(s, 1) && s.g.job == Some(Job(Done, 1, 0, 0, true))
  {
    Begins(1);
    s := Advance(Begin(1, 1, 0), 1, Meanwhile(Save(0)));
    s := Sent(s, false);
    s := ResultStored(s, false);
    s := ResultCounted(s, false);
    s := Decided(s);
    s := Advance(s, 1, Leads(ReadFinal(true)));
    s := Advance(s, 1, Leads(WriteFinal(true)));
  }

  /** A job deleted while its run records how it ended is back, done, though nobody saved it. */
  lemma DeletedIsBack() returns (s: State, t: State)
    ensures Reachable(s, 1) && s.g.job.None? && Remembered(s)
    ensures Next(s, Leads(WriteFinal(true))) == Some(t) && t.g.job == Some(Job(Done, 1, 1, 0, false))
  {
    Begins(1);
    s := Sent(Begin(1, 1, 0), false);
    s := ResultStored(s, false);
    s := ResultCounted(s, false);
    s := Decided(s);
    s := Advance(s, 1, Leads(ReadFinal(true)));
    s := Advance(s, 1, Meanwhile(Remove));
    t := Advance(s, 1, Leads(WriteFinal(true)));
  }
}
