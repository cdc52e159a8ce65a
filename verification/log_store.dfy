/**
 * The request log's store: a database of records and a directory of body files
 * that together must read as one map of whole entries, after any crash too.
 */
module LogStore {
  import opened Bytes
  import opened LogBucket
  import LogScan
  import opened Ordered
  import opened Wrappers

  // A body file under the name records use, or one still being written.
  datatype Path = Whole(ref: Ref) | Part(ref: Ref)

  type Files = map<Path, Body>
  type Database = map<string, Project>

  /** Everything that survives a crash. */
  datatype State = State(db: Database, files: Files)

  // ---- names of body files -----------------------------------------------

  predicate SafeChar(c: char) {
    'a' <= c <= 'z' || 'A' <= c <= 'Z' || '0' <= c <= '9' || c == '-' || c == '_' || c == '.'
  }

  predicate HasDots(s: string) {
    exists i | 0 <= i < |s| - 1 :: s[i] == '.' && s[i + 1] == '.'
  }

  predicate SafeSegment(s: string) {
    s != "" && s != "." && (forall i | 0 <= i < |s| :: SafeChar(s[i])) && !HasDots(s)
  }

  function FileName(r: Ref): string {
    r.id + if r.side == Request then ".request" else ".response"
  }

  predicate SafeRef(r: Ref) {
    SafeSegment(r.project) && SafeSegment(FileName(r))
  }

  // A reference as a record spells it, and the file a body is written to before it is moved into place.
  function RefText(r: Ref): string {
    r.project + "/" + FileName(r)
  }

  function PartText(r: Ref): string {
    RefText(r) + ".part"
  }

  lemma {:induction false} SlashSplits(a: string, b: string, x: string, y: string)
    requires '/' !in a && '/' !in b && a + "/" + x == b + "/" + y
    ensures a == b && x == y
  {
    var t := a + "/" + x;
    assert t[0] == (b + "/" + y)[0];
    if a != "" && b != "" {
      assert t[1..] == a[1..] + "/" + x && t[1..] == b[1..] + "/" + y;
      SlashSplits(a[1..], b[1..], x, y);
      assert a == [a[0]] + a[1..] && b == [b[0]] + b[1..];
    } else {
      assert a == "" ==> t[1..] == x;
      assert b == "" ==> (b + "/" + y)[1..] == y;
    }
  }

  lemma SideByEnding(r: Ref)
    ensures var name := FileName(r);
            && |name| >= 8 && name[|name| - 1] == (if r.side == Request then 't' else 'e')
            && r.id == name[..|name| - if r.side == Request then 8 else 9]
  {
  }

  /** The names on disk tell files apart: no two bodies share one, and no half-written file has a body's. */
  lemma NamesAreDistinct(r1: Ref, r2: Ref)
    requires SafeRef(r1) && SafeRef(r2)
    ensures RefText(r1) == RefText(r2) ==> r1 == r2
    ensures PartText(r1) != RefText(r2)
  {
    SideByEnding(r1);
    SideByEnding(r2);
    if RefText(r1) == RefText(r2) {
      SlashSplits(r1.project, r2.project, FileName(r1), FileName(r2));
    }
    var part, ref := PartText(r1), RefText(r2);
    assert part[|part| - 2] == 'r';
    assert ref[|ref| - 2] == FileName(r2)[|FileName(r2)| - 2] == 's';
  }

  lemma DotsWithin(a: string, b: string)
    ensures HasDots(a + ".." + b)
  {
    var s := a + ".." + b;
    assert s[|a|] == '.' && s[|a| + 1] == '.';
  }

  /** A reference names one file of one directory: it has one separator, and no part that steps elsewhere. */
  lemma SafeRefsStayInside(r: Ref, a: string, b: string)
    requires SafeRef(r)
    ensures r.project != "" && '/' !in r.project && FileName(r) != "" && '/' !in FileName(r)
    ensures r.project != "." && r.project != a + ".." + b && FileName(r) != "." && FileName(r) != a + ".." + b
  {
    DotsWithin(a, b);
  }

  predicate PlainId(s: string) {
    s != "" && forall i :: 0 <= i < |s| ==> 'a' <= s[i] <= 'z' || '0' <= s[i] <= '9' || s[i] == '-'
  }

  /** And ids like those there are, of letters, digits and hyphens, make such references. */
  lemma PlainRefsAreSafe(r: Ref)
    requires PlainId(r.project) && PlainId(r.id)
    ensures SafeRef(r)
  {
    var name := FileName(r);
    assert r.project[0] != '.' && |name| > 1;
    forall i | 0 <= i < |name| ensures SafeChar(name[i]) && (name[i] == '.' ==> i == |r.id|) {
      if i < |r.id| {
        assert name[i] == r.id[i];
      } else {
        assert name[i] == (if r.side == Request then ".request" else ".response")[i - |r.id|];
      }
    }
  }

  // ---- what a state means ------------------------------------------------

  predicate Has(db: Database, p: string, id: string) {
    p in db && id in db[p].logs
  }

  predicate IsWhole(e: Entry) {
    e.bodyRef.None? && (e.reply.Some? ==> e.reply.value.bodyRef.None?)
  }

  // A body is in the record, or in the one file that is its own.
  predicate BodyKept(body: Body, ref: Option<Ref>, own: Ref, files: Files) {
    ref.None? || (ref.value == own && body == [] && SafeRef(own) && Whole(own) in files)
  }

  predicate Kept(e: Entry, p: string, id: string, files: Files) {
    && e.project == p && e.id == id
    && BodyKept(e.body, e.bodyRef, Ref(p, id, Request), files)
    && (e.reply.Some? ==> BodyKept(e.reply.value.body, e.reply.value.bodyRef, Ref(p, id, Response), files))
  }

  /** No committed record points at a file that is not there. */
  ghost predicate Sound(s: State) {
    forall p, id :: Has(s.db, p, id) ==> Kept(s.db[p].logs[id], p, id, s.files)
  }

  // A body as it is read back: from the record, or from its file if that is there.
  function Fetched(body: Body, ref: Option<Ref>, files: Files): Option<Body> {
    if ref.None? then Some(body)
    else if SafeRef(ref.value) && Whole(ref.value) in files then Some(files[Whole(ref.value)])
    else None
  }

  // A record with its bodies put back, if they are there.
  function Hydrated(e: Entry, files: Files): Option<Entry> {
    var body := Fetched(e.body, e.bodyRef, files);
    if body.None? then None
    else
      var whole := e.(body := body.value, bodyRef := None);
      if e.reply.None? then Some(whole)
      else
        var reply := Fetched(e.reply.value.body, e.reply.value.bodyRef, files);
        if reply.None? then None
        else Some(whole.(reply := Some(e.reply.value.(body := reply.value, bodyRef := None))))
  }

  // What reading an entry comes to.
  datatype Reading = Missing | BodyGone | Found(entry: Entry)

  /** The plain map the store stands for: whole entries by project and id. */
  function View(s: State, p: string, id: string): Reading {
    if !Has(s.db, p, id) then Missing
    else
      match Hydrated(s.db[p].logs[id], s.files)
      case None => BodyGone
      case Some(e) => Found(e)
  }

  /** In a sound state no body is gone: whatever there is reads as a whole entry. */
  lemma SoundReadsWhole(s: State, p: string, id: string)
    requires Sound(s)
    ensures !View(s, p, id).BodyGone?
    ensures View(s, p, id).Missing? <==> !Has(s.db, p, id)
    ensures View(s, p, id).Found? ==>
              var e := View(s, p, id).entry; IsWhole(e) && e.project == p && e.id == id
  {
    assert Has(s.db, p, id) ==> Kept(s.db[p].logs[id], p, id, s.files);
  }

  // ---- a write, file by file ---------------------------------------------

  function Own(e: Entry, side: Side): Ref {
    Ref(e.project, e.id, side)
  }

  function BodyOn(e: Entry, side: Side): Option<Body> {
    match side
    case Request => Some(e.body)
    case Response => if e.reply.Some? then Some(e.reply.value.body) else None
  }

  predicate Big(body: Body, threshold: nat) {
    threshold > 0 && |body| >= threshold
  }

  // The files once the body of one side is in place.
  function WithBody(files: Files, e: Entry, side: Side, threshold: nat): Files {
    match BodyOn(e, side)
    case None => files
    case Some(body) => if Big(body, threshold) then files[Whole(Own(e, side)) := body] else files
  }

  /** The files while e is written, its record not yet in: none of its bodies in place, the request's, both. */
  function Staged(files: Files, e: Entry, threshold: nat, stage: nat): Files {
    if stage == 0 then files
    else if stage == 1 then WithBody(files, e, Request, threshold)
    else WithBody(WithBody(files, e, Request, threshold), e, Response, threshold)
  }

  // What the entry reads as then, the old record still in.
  function StageView(before: State, e: Entry, threshold: nat, stage: nat): Reading {
    View(State(before.db, Staged(before.files, e, threshold, stage)), e.project, e.id)
  }

  predicate AmongStages(v: Reading, before: State, e: Entry, threshold: nat) {
    || v == StageView(before, e, threshold, 0)
    || v == StageView(before, e, threshold, 1)
    || v == StageView(before, e, threshold, 2)
  }

  // Neither the old entry nor the new one.
  predicate IsTorn(v: Reading, before: State, e: Entry) {
    v != View(before, e.project, e.id) && v != Found(e)
  }

  predicate KeptInFile(rec: Entry, side: Side) {
    match side
    case Request => rec.bodyRef.Some?
    case Response => rec.reply.Some? && rec.reply.value.bodyRef.Some?
  }

  // An entry with the body of one side replaced.
  function Replaced(w: Entry, side: Side, body: Body): Entry {
    match side
    case Request => w.(body := body)
    case Response => if w.reply.Some? then w.(reply := Some(w.reply.value.(body := body))) else w
  }

  /**
   * Writing e tears the entry on a side: the old record keeps that body in a file, the new
   * body goes to the same file, and the old entry with only that changed is neither old nor new.
   */
  predicate TearsOn(side: Side, before: State, e: Entry, threshold: nat) {
    && View(before, e.project, e.id).Found? && KeptInFile(before.db[e.project].logs[e.id], side)
    && BodyOn(e, side).Some? && Big(BodyOn(e, side).value, threshold)
    && IsTorn(Found(Replaced(View(before, e.project, e.id).entry, side, BodyOn(e, side).value)), before, e)
  }

  predicate Tears(before: State, e: Entry, threshold: nat) {
    TearsOn(Request, before, e, threshold) || TearsOn(Response, before, e, threshold)
  }

  // An entry read through the files of a record, one of them changed.
  function Through(w: Entry, rec: Entry, e: Entry, side: Side, threshold: nat): Entry {
    if KeptInFile(rec, side) && BodyOn(e, side).Some? && Big(BodyOn(e, side).value, threshold)
    then Replaced(w, side, BodyOn(e, side).value) else w
  }

  lemma ThroughReads(rec: Entry, files: Files, e: Entry, side: Side, threshold: nat)
    requires Kept(rec, e.project, e.id, files) && Hydrated(rec, files).Some?
    ensures Kept(rec, e.project, e.id, WithBody(files, e, side, threshold))
    ensures Hydrated(rec, WithBody(files, e, side, threshold)) ==
            Some(Through(Hydrated(rec, files).value, rec, e, side, threshold))
  {
  }

  // Each stage, spelled out.
  lemma StagesRead(before: State, e: Entry, threshold: nat)
    requires Sound(before) && Has(before.db, e.project, e.id)
    ensures var rec := before.db[e.project].logs[e.id];
            && View(before, e.project, e.id).Found?
            && var w := View(before, e.project, e.id).entry;
            var one := Through(w, rec, e, Request, threshold);
            && StageView(before, e, threshold, 1) == Found(one)
            && StageView(before, e, threshold, 2) == Found(Through(one, rec, e, Response, threshold))
  {
    var rec := before.db[e.project].logs[e.id];
    assert Kept(rec, e.project, e.id, before.files);
    ThroughReads(rec, before.files, e, Request, threshold);
    ThroughReads(rec, WithBody(before.files, e, Request, threshold), e, Response, threshold);
  }

  /** Some stage of a write reads as neither the old entry nor the new one exactly when the write tears it on a side. */
  lemma TornExactly(before: State, e: Entry, threshold: nat)
    requires Sound(before)
    ensures Tears(before, e, threshold) <==>
            || IsTorn(StageView(before, e, threshold, 1), before, e)
            || IsTorn(StageView(before, e, threshold, 2), before, e)
  {
    if Has(before.db, e.project, e.id) {
      StagesRead(before, e, threshold);
    }
  }

  /**
   * A record whose body is in a file, rewritten with another big body and another field changed:
   * in between it reads as neither.
   */
  lemma WriteCanTear(a: Body, b: Body, threshold: nat)
    requires a != b && Big(b, threshold)
    ensures var own := Ref("p", "x", Request);
            var rec := Entry("p", "x", [], Some(own), None, false, 0);
            var before := State(map["p" := Project(map["x" := rec], map[], map[])], map[Whole(own) := a]);
            var e := Entry("p", "x", b, None, None, false, 1);
            && Sound(before) && Tears(before, e, threshold)
            && View(before, "p", "x") == Found(Entry("p", "x", a, None, None, false, 0))
            && StageView(before, e, threshold, 1) == Found(Entry("p", "x", b, None, None, false, 0))
  {
    var own := Ref("p", "x", Request);
    PlainRefsAreSafe(own);
  }

  function SideAt(stage: nat): Side {
    if stage == 0 then Request else Response
  }

  // What an operation may touch: the entry it writes, some entries of one project, or all of them.
  datatype Scope =
    | Writing(entry: Entry, threshold: nat)
    | Only(project: string, ids: set<string>)
    | Every(project: string)
  {
    predicate Covers(p: string, id: string) {
      match this
      case Writing(e, _) => p == e.project && id == e.id
      case Only(project, ids) => p == project && id in ids
      case Every(project) => p == project
    }
  }

  // Outside the scope the records stand and so do their files.
  ghost predicate Apart(a: State, b: State, scope: Scope) {
    && (forall p, id :: !scope.Covers(p, id) ==>
          (Has(a.db, p, id) <==> Has(b.db, p, id))
          && (Has(a.db, p, id) ==> a.db[p].logs[id] == b.db[p].logs[id]))
    && (forall r: Ref :: !scope.Covers(r.project, r.id) ==>
          (Whole(r) in a.files <==> Whole(r) in b.files)
          && (Whole(r) in a.files ==> a.files[Whole(r)] == b.files[Whole(r)]))
  }

  // Inside it every record still has its files.
  ghost predicate KeptWithin(s: State, scope: Scope) {
    forall p, id :: scope.Covers(p, id) && Has(s.db, p, id) ==> Kept(s.db[p].logs[id], p, id, s.files)
  }

  /**
   * A state a crash may leave: sound, and outside the scope reading as it did. An entry
   * being written reads as written, or as one of the stages of the write; one being removed
   * reads as it did, or is missing.
   */
  ghost predicate Safe(before: State, now: State, scope: Scope) {
    && Sound(now)
    && (forall p, id :: !scope.Covers(p, id) ==> View(now, p, id) == View(before, p, id))
    && (scope.Writing? ==>
          var e := scope.entry;
          var v := View(now, e.project, e.id);
          v == Found(e) || AmongStages(v, before, e, scope.threshold))
    && (!scope.Writing? ==>
          forall p, id :: scope.Covers(p, id) ==> View(now, p, id) == View(before, p, id) || View(now, p, id).Missing?)
  }

  lemma ApartIsSafe(before: State, now: State, scope: Scope)
    requires Sound(before) && Apart(before, now, scope) && KeptWithin(now, scope)
    requires scope.Writing? ==>
               var e := scope.entry;
               var v := View(now, e.project, e.id);
               v == Found(e) || AmongStages(v, before, e, scope.threshold)
    requires !scope.Writing? ==> forall p, id :: scope.Covers(p, id) ==> !Has(now.db, p, id)
    ensures Safe(before, now, scope)
  {
    forall p, id | !scope.Covers(p, id)
      ensures View(now, p, id) == View(before, p, id)
      ensures Has(now.db, p, id) ==> Kept(now.db[p].logs[id], p, id, now.files)
    {
      if Has(now.db, p, id) {
        assert Kept(before.db[p].logs[id], p, id, before.files);
      }
    }
  }

  // Files still being written are nobody's.
  ghost predicate SameWhole(a: Files, b: Files) {
    forall x: Ref :: (Whole(x) in a <==> Whole(x) in b) && (Whole(x) in a ==> a[Whole(x)] == b[Whole(x)])
  }

  // Only the file of one reference may differ, and it may only appear or change.
  ghost predicate SameBut(a: Files, b: Files, r: Ref) {
    && (forall x: Ref :: x != r ==> (Whole(x) in a <==> Whole(x) in b))
    && (forall x: Ref :: x != r && Whole(x) in a ==> a[Whole(x)] == b[Whole(x)])
    && (Whole(r) in a ==> Whole(r) in b)
  }

  lemma SameWholeReads(db: Database, a: Files, b: Files, p: string, id: string)
    requires SameWhole(a, b)
    ensures View(State(db, a), p, id) == View(State(db, b), p, id)
    ensures Has(db, p, id) && Kept(db[p].logs[id], p, id, a) ==> Kept(db[p].logs[id], p, id, b)
  {
  }

  // A stage of a write touches the entry written and nothing else.
  lemma StageIsApart(before: State, e: Entry, threshold: nat, stage: nat, files: Files)
    requires Sound(before) && stage <= 2 && SameWhole(Staged(before.files, e, threshold, stage), files)
    ensures Apart(before, State(before.db, files), Writing(e, threshold))
    ensures KeptWithin(State(before.db, files), Writing(e, threshold))
    ensures View(State(before.db, files), e.project, e.id) == StageView(before, e, threshold, stage)
    ensures Safe(before, State(before.db, files), Writing(e, threshold))
  {
    var staged, p, id := Staged(before.files, e, threshold, stage), e.project, e.id;
    SameWholeReads(before.db, staged, files, p, id);
    if Has(before.db, p, id) {
      assert Kept(before.db[p].logs[id], p, id, before.files);
      assert forall x: Ref :: Whole(x) in before.files ==> Whole(x) in staged;
      assert Kept(before.db[p].logs[id], p, id, staged);
    }
    ApartIsSafe(before, State(before.db, files), Writing(e, threshold));
  }

  ghost predicate Unreferenced(db: Database, r: Ref) {
    forall p, id :: Has(db, p, id) ==> r !in RefsOf(db[p].logs[id])
  }

  // A record's references are its own, and their files are there.
  lemma RefsAreOwn(s: State, p: string, id: string, r: Ref)
    requires Sound(s) && Has(s.db, p, id) && r in RefsOf(s.db[p].logs[id])
    ensures r.project == p && r.id == id && Whole(r) in s.files
  {
    assert Kept(s.db[p].logs[id], p, id, s.files);
  }

  // A file no record points at may go, and nothing reads differently.
  lemma OrphanMayGo(s: State, path: Path)
    requires Sound(s) && (path.Whole? ==> Unreferenced(s.db, path.ref))
    ensures Sound(s.(files := s.files - {path}))
    ensures forall p, id :: View(s.(files := s.files - {path}), p, id) == View(s, p, id)
  {
    var files := s.files - {path};
    forall p, id | Has(s.db, p, id)
      ensures Kept(s.db[p].logs[id], p, id, files)
      ensures Hydrated(s.db[p].logs[id], files) == Hydrated(s.db[p].logs[id], s.files)
    {
      var e := s.db[p].logs[id];
      assert Kept(e, p, id, s.files);
      assert e.bodyRef.Some? ==> e.bodyRef.value in RefsOf(e);
      assert e.reply.Some? && e.reply.value.bodyRef.Some? ==> e.reply.value.bodyRef.value in RefsOf(e);
    }
  }

  // The bodies of some references are gone, and every other file stands.
  ghost predicate BodiesGone(was: Files, now: Files, gone: set<Ref>) {
    && (forall r: Ref :: r in gone && SafeRef(r) ==> Whole(r) !in now)
    && (forall path :: path in now ==> path in was && now[path] == was[path])
    && (forall path :: path in was && path !in now ==> path.Whole? && path.ref in gone && SafeRef(path.ref))
  }

  lemma OneMoreGone(was: Files, now: Files, refs: seq<Ref>, r: Ref)
    requires BodiesGone(was, now, ToSetOf(refs))
    ensures BodiesGone(was, if SafeRef(r) then now - {Whole(r)} else now, ToSetOf(refs + [r]))
  {
  }

  // ---- the store ---------------------------------------------------------

  datatype Outcome = Done | NotFound | Failed

  function ProjectOf(db: Database, p: string): Project {
    if p in db then db[p] else NO_PROJECT
  }

  // Every other project stands.
  ghost predicate OthersStand(a: Database, b: Database, p: string) {
    forall q :: q != p ==> ProjectOf(a, q) == ProjectOf(b, q)
  }

  // One project's log differs at one entry; its messages stand.
  ghost predicate OneEntry(a: Database, b: Database, p: string, id: string) {
    var was, now := ProjectOf(a, p), ProjectOf(b, p);
    && OthersStand(a, b, p) && now.messages == was.messages && now.index == was.index
    && now.logs.Keys == was.logs.Keys + {id}
    && forall j :: j in was.logs && j != id ==> now.logs[j] == was.logs[j]
  }

  // The database with the record of e put in.
  function WithRecord(db: Database, rec: Entry, e: Entry): Database {
    var pr := ProjectOf(db, e.project);
    db[e.project := pr.(logs := pr.logs[e.id := rec])]
  }

  lemma WrittenIsApart(before: State, files: Files, e: Entry, rec: Entry, threshold: nat)
    requires Apart(before, State(before.db, files), Writing(e, threshold))
    requires Kept(rec, e.project, e.id, files) && Hydrated(rec, files) == Some(e)
    ensures var now := State(WithRecord(before.db, rec, e), files);
            && Apart(before, now, Writing(e, threshold)) && KeptWithin(now, Writing(e, threshold))
            && View(now, e.project, e.id) == Found(e)
            && OneEntry(before.db, now.db, e.project, e.id)
  {
  }

  // ---- reading many ------------------------------------------------------

  // The log of one project as whole entries.
  function Wholes(s: State, p: string): map<string, Entry> {
    map id | id in ProjectOf(s.db, p).logs && View(s, p, id).Found? :: View(s, p, id).entry
  }

  // A visitor of whole entries, asked about a record: its bodies are put back first.
  function OnRecords(fn: (Entry, nat) -> LogScan.Visit, files: Files): (Entry, nat) -> LogScan.Visit {
    (rec: Entry, calls: nat) =>
      match Hydrated(rec, files)
      case None => LogScan.Visit(false, true)
      case Some(e) => fn(e, calls)
  }

  function OnRecord(refuse: Entry -> bool, files: Files): Entry -> bool {
    (rec: Entry) =>
      match Hydrated(rec, files)
      case None => true
      case Some(e) => refuse(e)
  }

  ghost predicate SameLog(recs: map<string, Entry>, wholes: map<string, Entry>, files: Files) {
    && recs.Keys == wholes.Keys
    && forall k :: k in recs ==> Hydrated(recs[k], files) == Some(wholes[k])
  }

  lemma {:induction false} WalkedThrough(keys: seq<string>, recs: map<string, Entry>, wholes: map<string, Entry>,
                                         files: Files, fn: (Entry, nat) -> LogScan.Visit, calls: nat, room: nat)
    requires SameLog(recs, wholes, files)
    ensures LogScan.Walked(keys, recs, OnRecords(fn, files), calls, room) ==
            LogScan.Walked(keys, wholes, fn, calls, room)
  {
    if keys != [] {
      WalkedThrough(keys[1..], recs, wholes, files, fn, calls, room);
      if keys[0] in recs && room > 0 {
        var v := fn(wholes[keys[0]], calls);
        WalkedThrough(keys[1..], recs, wholes, files, fn, calls + 1, if v.keep then room - 1 else room);
      }
    }
  }

  lemma ReadOnce(recs: seq<(string, Entry)>, logs: map<string, Entry>)
    requires forall i :: 0 <= i < |recs| ==> LogScan.ReadFrom(recs[i], [logs])
    ensures forall i :: 0 <= i < |recs| ==> recs[i].0 in logs && logs[recs[i].0] == recs[i].1
  {
  }

  lemma WholesAre(s: State, p: string)
    requires Sound(s)
    ensures SameLog(ProjectOf(s.db, p).logs, Wholes(s, p), s.files)
  {
    forall id | id in ProjectOf(s.db, p).logs ensures View(s, p, id).Found? {
      SoundReadsWhole(s, p, id);
    }
  }

  class Store {
    const threshold: nat
    var db: Database
    var files: Files

    // Every state the disk has gone through, in order: where a crash may have struck.
    ghost var trail: seq<State>

    ghost function Now(): State
      reads this
    {
      State(db, files)
    }

    constructor (threshold: nat, db: Database, files: Files)
      ensures this.threshold == threshold && Now() == State(db, files) && trail == []
    {
      this.threshold, this.db, this.files, trail := threshold, db, files, [];
    }

    // Since the trail was was, no crash could have left anything but a safe state, with the
    // database as it was or as it is now: messages too, all at once or not at all.
    ghost predicate SafeSince(was: seq<State>, before: State, scope: Scope)
      reads this
    {
      && was <= trail
      && forall i :: |was| <= i < |trail| ==>
           Safe(before, trail[i], scope) && (trail[i].db == before.db || trail[i].db == db)
    }

    // Since then the entry has stood on the disk reading as v.
    ghost predicate ShownSince(was: seq<State>, e: Entry, v: Reading)
      reads this
    {
      exists i :: |was| <= i < |trail| && View(trail[i], e.project, e.id) == v
    }

    // Since then a crash could have left it torn.
    ghost predicate TornSince(was: seq<State>, before: State, e: Entry)
      reads this
    {
      exists i :: |was| <= i < |trail| && IsTorn(View(trail[i], e.project, e.id), before, e)
    }

    // In the middle of writing e, its record not yet in.
    ghost predicate AtStage(before: State, e: Entry, stage: nat)
      reads this
    {
      db == before.db && Sound(before) && SameWhole(Staged(before.files, e, threshold, stage), files)
    }

    // ---- single steps of the disk ----------------------------------------

    // The state just reached is one a crash may leave.
    ghost method Record(before: State, scope: Scope)
      requires Safe(before, Now(), scope)
      modifies this`trail
      ensures trail == old(trail) + [Now()] && SafeSince(old(trail), before, scope)
    {
      trail := trail + [Now()];
    }

    // Writes the bytes of a file not yet in place. A crash or a fault partway leaves some of them.
    method WritePart(r: Ref, body: Body, ghost before: State, ghost e: Entry, ghost stage: nat) returns (ok: bool)
      requires stage <= 2 && AtStage(before, e, stage)
      modifies this
      ensures AtStage(before, e, stage) && SafeSince(old(trail), before, Writing(e, threshold))
      ensures SameWhole(old(files), files)
      ensures ok ==> Part(r) in files && files[Part(r)] == body
    {
      var some: Body := *;
      files := files[Part(r) := some];
      StageIsApart(before, e, threshold, stage, files);
      Record(before, Writing(e, threshold));
      ok := *;
      if ok {
        files := files[Part(r) := body];
        StageIsApart(before, e, threshold, stage, files);
        Record(before, Writing(e, threshold));
      }
    }

    // Moves the file of the next side into place, or clears it away when that fails.
    method Rename(ghost before: State, ghost e: Entry, ghost stage: nat, r: Ref) returns (ok: bool)
      requires stage < 2 && AtStage(before, e, stage) && r == Own(e, SideAt(stage)) && Part(r) in files
      requires BodyOn(e, SideAt(stage)) == Some(files[Part(r)]) && Big(files[Part(r)], threshold)
      modifies this
      ensures AtStage(before, e, if ok then stage + 1 else stage)
      ensures SafeSince(old(trail), before, Writing(e, threshold)) && trail == old(trail) + [Now()]
      ensures SameBut(old(files), files, r) && (!ok ==> SameWhole(old(files), files))
      ensures ok ==> Whole(r) in files && files[Whole(r)] == old(files)[Part(r)]
    {
      ok := *;
      if ok {
        files := files[Whole(r) := files[Part(r)]] - {Part(r)};
      } else {
        files := files - {Part(r)};
      }
      StageIsApart(before, e, threshold, if ok then stage + 1 else stage, files);
      Record(before, Writing(e, threshold));
    }

    // The body store's Put: written whole and moved into place, or the old file stands.
    method PutBody(ghost before: State, ghost e: Entry, ghost stage: nat, r: Ref, body: Body) returns (ok: bool)
      requires stage < 2 && AtStage(before, e, stage) && r == Own(e, SideAt(stage))
      requires BodyOn(e, SideAt(stage)) == Some(body) && Big(body, threshold)
      modifies this
      ensures AtStage(before, e, if ok then stage + 1 else stage)
      ensures SafeSince(old(trail), before, Writing(e, threshold))
      ensures SameBut(old(files), files, r) && (!ok ==> SameWhole(old(files), files))
      ensures ok ==> SafeRef(r) && Whole(r) in files && files[Whole(r)] == body
      ensures ok ==> trail != [] && |trail| > |old(trail)| && trail[|trail| - 1] == Now()
    {
      var directory: bool := *;
      if threshold == 0 || !SafeRef(r) || !directory {
        return false;
      }
      ok := WritePart(r, body, before, e, stage);
      if ok {
        ok := Rename(before, e, stage, r);
      }
    }

    // One body: out to a file when it is big, in the record when it is not.
    method OffloadOne(ghost before: State, ghost e: Entry, ghost stage: nat, r: Ref, body: Body, ref: Option<Ref>)
      returns (ok: bool, body': Body, ref': Option<Ref>, stale: seq<Ref>)
      requires stage < 2 && AtStage(before, e, stage) && r == Own(e, SideAt(stage))
      requires BodyOn(e, SideAt(stage)) == Some(body)
      modifies this
      ensures AtStage(before, e, if ok then stage + 1 else stage)
      ensures SafeSince(old(trail), before, Writing(e, threshold))
      ensures SameBut(old(files), files, r) && (!ok ==> SameWhole(old(files), files))
      ensures ok ==> BodyKept(body', ref', r, files) && Fetched(body', ref', files) == Some(body)
      ensures ok ==> (ref'.Some? <==> threshold > 0 && |body| >= threshold)
      ensures ok ==> View(Now(), e.project, e.id) == old(View(Now(), e.project, e.id))
                     || ShownSince(old(trail), e, View(Now(), e.project, e.id))
      ensures ref.None? ==> stale == []
    {
      if threshold == 0 || |body| < threshold {
        return true, body, None, if ref.Some? then [ref.value] else [];
      }
      ok := PutBody(before, e, stage, r, body);
      body', ref', stale := [], Some(r), [];
    }

    // Moves what is big out of a whole entry, the request's body first. What is left is the record.
    method Offload(e: Entry, ghost before: State) returns (ok: bool, rec: Entry, stale: seq<Ref>)
      requires AtStage(before, e, 0) && IsWhole(e)
      modifies this
      ensures SafeSince(old(trail), before, Writing(e, threshold))
      ensures if ok then AtStage(before, e, 2) else AtStage(before, e, 0) || AtStage(before, e, 1)
      ensures ok ==> Kept(rec, e.project, e.id, files) && Hydrated(rec, files) == Some(e) && stale == []
      ensures ok && Tears(before, e, threshold) ==> TornSince(old(trail), before, e)
    {
      var body, ref;
      rec := e;
      StageIsApart(before, e, threshold, 0, files);
      ok, body, ref, stale := OffloadOne(before, e, 0, Own(e, Request), e.body, e.bodyRef);
      if !ok {
        return;
      }
      StageIsApart(before, e, threshold, 1, files);
      rec := rec.(body := body, bodyRef := ref);
      if e.reply.Some? {
        var reply := e.reply.value;
        var more;
        ok, body, ref, more := OffloadOne(before, e, 1, Own(e, Response), reply.body, reply.bodyRef);
        rec := rec.(reply := Some(reply.(body := body, bodyRef := ref)));
        stale := stale + more;
      }
      if ok {
        StageIsApart(before, e, threshold, 2, files);
        TornExactly(before, e, threshold);
      }
    }

    // A write transaction: the whole database at once, or not at all.
    method Commit(db': Database, ghost before: State, ghost scope: Scope) returns (ok: bool)
      requires Sound(before) && Safe(before, Now(), scope)
      requires Apart(before, State(db', files), scope) && KeptWithin(State(db', files), scope)
      requires scope.Writing? ==> View(State(db', files), scope.entry.project, scope.entry.id) == Found(scope.entry)
      requires !scope.Writing? ==> forall p, id :: scope.Covers(p, id) ==> !Has(db', p, id)
      modifies this
      ensures files == old(files) && db == (if ok then db' else old(db))
      ensures Safe(before, Now(), scope) && SafeSince(old(trail), before, scope)
    {
      ok := *;
      if ok {
        db := db';
        ApartIsSafe(before, Now(), scope);
      }
      Record(before, scope);
    }

    // The body store's Delete, once the records that pointed at the files are gone.
    method DeleteBodies(refs: seq<Ref>, ghost before: State, ghost scope: Scope)
      requires Safe(before, Now(), scope)
      requires forall i :: 0 <= i < |refs| ==> Unreferenced(db, refs[i])
      modifies this
      ensures db == old(db) && Safe(before, Now(), scope) && SafeSince(old(trail), before, scope)
      ensures forall p, id :: View(Now(), p, id) == old(View(Now(), p, id))
      ensures BodiesGone(old(files), files, ToSetOf(refs))
    {
      for i := 0 to |refs|
        invariant db == old(db) && Safe(before, Now(), scope) && SafeSince(old(trail), before, scope)
        invariant forall p, id :: View(Now(), p, id) == old(View(Now(), p, id))
        invariant BodiesGone(old(files), files, ToSetOf(refs[..i]))
      {
        assert refs[..i + 1] == refs[..i] + [refs[i]];
        OneMoreGone(old(files), files, refs[..i], refs[i]);
        if SafeRef(refs[i]) {
          OrphanMayGo(Now(), Whole(refs[i]));
          files := files - {Whole(refs[i])};
          Record(before, scope);
        }
      }
      assert refs[..|refs|] == refs;
    }

    // ---- operations ------------------------------------------------------

    // A whole entry is written: its bodies, then its record, and then what it stopped pointing at goes.
    method Write(e: Entry) returns (ok: bool)
      requires Sound(Now()) && IsWhole(e)
      modifies this
      ensures Safe(old(Now()), Now(), Writing(e, threshold)) && SafeSince(old(trail), old(Now()), Writing(e, threshold))
      ensures ok ==> View(Now(), e.project, e.id) == Found(e) && OneEntry(old(db), db, e.project, e.id)
      ensures !ok ==> db == old(db) && AmongStages(View(Now(), e.project, e.id), old(Now()), e, threshold)
      ensures TornSince(old(trail), old(Now()), e) ==> Tears(old(Now()), e, threshold)
      ensures ok && Tears(old(Now()), e, threshold) ==> TornSince(old(trail), old(Now()), e)
    {
      ghost var before, was := Now(), trail;
      var rec, stale;
      ok, rec, stale := Offload(e, before);
      if !ok {
        GivenUp(before, e);
        TornOnlyIf(was, before, e);
        return;
      }
      StageIsApart(before, e, threshold, 2, files);
      WrittenIsApart(before, files, e, rec, threshold);
      ok := Commit(WithRecord(db, rec, e), before, Writing(e, threshold));
      if ok {
        DeleteBodies(stale, before, Writing(e, threshold));
      } else {
        GivenUp(before, e);
      }
      TornOnlyIf(was, before, e);
    }

    // A write that stops early leaves one of its stages.
    lemma GivenUp(before: State, e: Entry)
      requires AtStage(before, e, 0) || AtStage(before, e, 1) || AtStage(before, e, 2)
      ensures Safe(before, Now(), Writing(e, threshold))
      ensures AmongStages(View(Now(), e.project, e.id), before, e, threshold)
    {
      if AtStage(before, e, 0) {
        StageIsApart(before, e, threshold, 0, files);
      } else if AtStage(before, e, 1) {
        StageIsApart(before, e, threshold, 1, files);
      } else {
        StageIsApart(before, e, threshold, 2, files);
      }
    }

    lemma TornOnlyIf(was: seq<State>, before: State, e: Entry)
      requires Sound(before) && SafeSince(was, before, Writing(e, threshold))
      ensures TornSince(was, before, e) ==> Tears(before, e, threshold)
    {
      if i :| |was| <= i < |trail| && IsTorn(View(trail[i], e.project, e.id), before, e) {
        assert Safe(before, trail[i], Writing(e, threshold));
        TornExactly(before, e, threshold);
      }
    }

    /**
     * Put sets one entry of the map. Whatever fails or crashes, no other entry reads
     * differently, and this one reads as it was or as written unless the write tears it,
     * and then it is torn on the way.
     */
    method Put(e: Entry) returns (r: Outcome)
      requires Sound(Now()) && IsWhole(e)
      modifies this
      ensures Safe(old(Now()), Now(), Writing(e, threshold)) && SafeSince(old(trail), old(Now()), Writing(e, threshold))
      ensures r == Done ==> View(Now(), e.project, e.id) == Found(e) && OneEntry(old(db), db, e.project, e.id)
      ensures r != Done ==> r == Failed && db == old(db)
                            && AmongStages(View(Now(), e.project, e.id), old(Now()), e, threshold)
      ensures TornSince(old(trail), old(Now()), e) ==> Tears(old(Now()), e, threshold)
      ensures r == Done && Tears(old(Now()), e, threshold) ==> TornSince(old(trail), old(Now()), e)
    {
      var ok := Write(e);
      r := if ok then Done else Failed;
    }

    /**
     * Update sets one entry to what change makes of it, under the same promise, or answers
     * that there is none. One whose body file has gone is an error, and stands.
     */
    method Update(p: string, id: string, change: Entry -> Option<Entry>) returns (r: Outcome)
      requires Sound(Now()) || View(Now(), p, id).BodyGone?
      requires forall e :: change(e).Some? ==>
                             && change(e).value.project == e.project && change(e).value.id == e.id
                             && IsWhole(change(e).value)
      modifies this
      ensures r == NotFound <==> old(View(Now(), p, id)).Missing?
      ensures !(old(View(Now(), p, id)).Found? && change(old(View(Now(), p, id)).entry).Some?) ==>
                Now() == old(Now()) && r != Done
      ensures r != Done ==> db == old(db)
      ensures old(View(Now(), p, id)).Found? && change(old(View(Now(), p, id)).entry).Some? ==>
                var e := change(old(View(Now(), p, id)).entry).value;
                && Safe(old(Now()), Now(), Writing(e, threshold))
                && SafeSince(old(trail), old(Now()), Writing(e, threshold))
                && (r == Done ==> View(Now(), p, id) == Found(e) && OneEntry(old(db), db, p, id))
                && (r != Done ==> AmongStages(View(Now(), p, id), old(Now()), e, threshold))
                && (TornSince(old(trail), old(Now()), e) ==> Tears(old(Now()), e, threshold))
                && (r == Done && Tears(old(Now()), e, threshold) ==> TornSince(old(trail), old(Now()), e))
    {
      var got := Get(p, id);
      if got.Missing? {
        return NotFound;
      }
      if got.BodyGone? {
        return Failed;
      }
      SoundReadsWhole(Now(), p, id);
      var changed := change(got.entry);
      if changed.None? {
        return Failed;
      }
      var ok := Write(changed.value);
      r := if ok then Done else Failed;
    }

    // The body store's Get.
    method GetBody(body: Body, ref: Option<Ref>) returns (whole: Option<Body>)
      ensures whole == Fetched(body, ref, files)
    {
      if ref.None? {
        return Some(body);
      }
      if !SafeRef(ref.value) || Whole(ref.value) !in files {
        return None;
      }
      whole := Some(files[Whole(ref.value)]);
    }

    /** Get reads the map. A body file that has gone is an error, which no sound state has. */
    method Get(p: string, id: string) returns (got: Reading)
      ensures got == View(Now(), p, id)
      ensures Sound(Now()) ==> !got.BodyGone?
    {
      ghost var s := Now();
      if Sound(s) {
        SoundReadsWhole(s, p, id);
      }
      if !Has(db, p, id) {
        return Missing;
      }
      var e := db[p].logs[id];
      var body := GetBody(e.body, e.bodyRef);
      if body.None? {
        return BodyGone;
      }
      var whole := e.(body := body.value, bodyRef := None);
      if e.reply.Some? {
        body := GetBody(e.reply.value.body, e.reply.value.bodyRef);
        if body.None? {
          return BodyGone;
        }
        whole := whole.(reply := Some(e.reply.value.(body := body.value, bodyRef := None)));
      }
      got := Found(whole);
    }

    /** Walk is the walk down the map: every entry asked about is whole. */
    method Walk(p: string, before: string, limit: nat, fn: (Entry, nat) -> LogScan.Visit)
      returns (kept: seq<string>, more: bool)
      requires Sound(Now())
      ensures (kept, more) ==
              LogScan.Walked(LogScan.Descending(LogScan.Range(Wholes(Now(), p).Keys, before)), Wholes(Now(), p), fn,
                             0, limit)
    {
      var logs := ProjectOf(db, p).logs;
      WholesAre(Now(), p);
      WalkedThrough(LogScan.Descending(LogScan.Range(logs.Keys, before)), logs, Wholes(Now(), p), files, fn, 0, limit);
      kept, more := LogScan.Walk(logs, before, limit, OnRecords(fn, files));
    }

    /** Each visits every entry of the map once, whole, oldest first, until one is refused. */
    method Each(p: string, refuse: Entry -> bool) returns (visited: seq<(string, Entry)>, done: bool)
      requires Sound(Now())
      ensures LogScan.StrictlyAscending(LogScan.KeysOf(visited))
      ensures forall i :: 0 <= i < |visited| ==> View(Now(), p, visited[i].0) == Found(visited[i].1)
      ensures done ==> forall id :: Has(db, p, id) ==> id in LogScan.KeysOf(visited)
      ensures !done ==> visited != [] && refuse(visited[|visited| - 1].1)
    {
      var logs := ProjectOf(db, p).logs;
      WholesAre(Now(), p);
      var recs;
      recs, done := LogScan.Each([logs], OnRecord(refuse, files));
      ReadOnce(recs, logs);
      visited := PutBack(recs);
      assert LogScan.KeysOf(visited) == LogScan.KeysOf(recs);
      forall id | Has(db, p, id) ensures LogScan.Steady(id, [logs]) {
      }
    }

    // Puts the bodies of some records back.
    method PutBack(recs: seq<(string, Entry)>) returns (visited: seq<(string, Entry)>)
      requires forall i :: 0 <= i < |recs| ==> Hydrated(recs[i].1, files).Some?
      ensures |visited| == |recs|
      ensures forall i :: 0 <= i < |recs| ==> visited[i] == (recs[i].0, Hydrated(recs[i].1, files).value)
    {
      visited := [];
      for i := 0 to |recs|
        invariant |visited| == i
        invariant forall k :: 0 <= k < i ==> visited[k] == (recs[k].0, Hydrated(recs[k].1, files).value)
      {
        visited := visited + [(recs[i].0, Hydrated(recs[i].1, files).value)];
      }
    }

    // A transaction that removed ids from p commits, and the files they had go.
    method CommitRemoval(p: string, pr: Project, ghost ids: seq<string>, refs: seq<Ref>) returns (ok: bool)
      requires Sound(Now())
      requires pr == DeletedAll(ProjectOf(db, p), ids) && ToSetOf(refs) == RefsGone(ProjectOf(db, p), ids)
      modifies this
      ensures Safe(old(Now()), Now(), Only(p, ToSet(ids))) && SafeSince(old(trail), old(Now()), Only(p, ToSet(ids)))
      ensures ok ==> ProjectOf(db, p) == pr && OthersStand(old(db), db, p)
      ensures ok ==> forall id :: id in ids ==> View(Now(), p, id).Missing?
      ensures ok ==> BodiesGone(old(files), files, RefsGone(ProjectOf(old(db), p), ids))
      ensures !ok ==> Now() == old(Now())
    {
      ghost var before, scope := Now(), Only(p, ToSet(ids));
      ghost var was := ProjectOf(db, p);
      DeletedAllLeaves(was, ids);
      ok := Commit(db[p := pr], before, scope);
      if ok {
        forall i | 0 <= i < |refs| ensures Unreferenced(db, refs[i]) {
          assert refs[i] in RefsGone(was, ids);
          GoneIsUnreferenced(before, p, pr, ids, refs[i]);
        }
        DeleteBodies(refs, before, scope);
      }
    }

    /** Delete takes one entry out of the map, with its messages and its files. */
    method Delete(p: string, id: string) returns (r: Outcome)
      requires Sound(Now())
      modifies this
      ensures Safe(old(Now()), Now(), Only(p, {id})) && SafeSince(old(trail), old(Now()), Only(p, {id}))
      ensures r == NotFound <==> old(View(Now(), p, id)).Missing?
      ensures r == Done ==> View(Now(), p, id).Missing? && ProjectOf(db, p) == Removed(ProjectOf(old(db), p), id)
      ensures r == Done ==> OthersStand(old(db), db, p)
      ensures r == Done ==> BodiesGone(old(files), files, ToSetOf(RefsOf(old(db)[p].logs[id])))
      ensures r != Done ==> Now() == old(Now())
    {
      var bs := new EntryBuckets(ProjectOf(db, p));
      var found, refs := bs.DeleteEntry(id);
      if !found {
        return NotFound;
      }
      DeletedOne(ProjectOf(db, p), id);
      assert ToSet([id]) == {id};
      var ok := CommitRemoval(p, bs.Now(), [id], refs);
      r := if ok then Done else Failed;
    }

    /** DeleteMany takes the given entries out of the map, skipping the ones that are gone. */
    method DeleteMany(p: string, ids: seq<string>) returns (r: Outcome)
      requires Sound(Now())
      modifies this
      ensures Safe(old(Now()), Now(), Only(p, ToSet(ids))) && SafeSince(old(trail), old(Now()), Only(p, ToSet(ids)))
      ensures r == Done ==> ProjectOf(db, p) == DeletedAll(ProjectOf(old(db), p), ids) && OthersStand(old(db), db, p)
      ensures r == Done ==> forall id :: id in ids ==> View(Now(), p, id).Missing?
      ensures r == Done ==> BodiesGone(old(files), files, RefsGone(ProjectOf(old(db), p), ids))
      ensures r != Done ==> r == Failed && Now() == old(Now())
    {
      var bs := new EntryBuckets(ProjectOf(db, p));
      var refs := DeleteAll(bs, ids);
      var ok := CommitRemoval(p, bs.Now(), ids, refs);
      r := if ok then Done else Failed;
    }

    /** Trim drops the oldest unsaved entries beyond max, with their messages and their files. */
    method Trim(p: string, max: int) returns (r: Outcome, dropped: nat, ghost ids: seq<string>)
      requires Sound(Now())
      modifies this
      ensures Safe(old(Now()), Now(), Only(p, ToSet(ids))) && SafeSince(old(trail), old(Now()), Only(p, ToSet(ids)))
      ensures r == Done ==> Trimmed(ProjectOf(old(db), p), ProjectOf(db, p), max, dropped)
      ensures r == Done ==> OthersStand(old(db), db, p)
      ensures r == Done ==> ToSet(ids) == ProjectOf(old(db), p).logs.Keys - ProjectOf(db, p).logs.Keys
      ensures r == Done ==> BodiesGone(old(files), files, RefsGone(ProjectOf(old(db), p), ids))
      ensures r != Done ==> r == Failed && Now() == old(Now())
    {
      ghost var was := ProjectOf(db, p);
      if max <= 0 {
        return Done, 0, [];
      }
      var bs := new EntryBuckets(ProjectOf(db, p));
      var refs;
      dropped, refs, ids := TrimBuckets(bs, max);
      KeysGone(was, ids);
      var ok := CommitRemoval(p, bs.Now(), ids, refs);
      r := if ok then Done else Failed;
    }

    // Removes the files of a group one at a time, a crash between any two.
    method DeleteGroup(p: string, ghost before: State)
      requires Safe(before, Now(), Every(p)) && forall id :: !Has(db, p, id)
      modifies this
      ensures db == old(db) && Safe(before, Now(), Every(p)) && SafeSince(old(trail), before, Every(p))
      ensures forall path :: path in files ==> path.ref.project != p || !SafeSegment(p)
    {
      if !SafeSegment(p) {
        return;
      }
      var group := set path | path in files && path.ref.project == p;
      while group != {}
        invariant db == old(db) && Safe(before, Now(), Every(p)) && SafeSince(old(trail), before, Every(p))
        invariant forall path :: path in group <==> path in files && path.ref.project == p
        decreases group
      {
        var path :| path in group;
        assert path.Whole? ==> Unreferenced(db, path.ref) by {
          forall q, id | Has(db, q, id) ensures path.ref !in RefsOf(db[q].logs[id]) {
            assert Kept(db[q].logs[id], q, id, files);
          }
        }
        OrphanMayGo(Now(), path);
        files := files - {path};
        Record(before, Every(p));
        group := group - {path};
      }
    }

    /** Clear empties one project: its entries, its messages, and then every file it had. */
    method Clear(p: string) returns (r: Outcome)
      requires Sound(Now())
      modifies this
      ensures Safe(old(Now()), Now(), Every(p)) && SafeSince(old(trail), old(Now()), Every(p))
      ensures r == Done ==> ProjectOf(db, p) == NO_PROJECT && OthersStand(old(db), db, p)
      ensures r == Done && threshold > 0 && SafeSegment(p) ==> forall path :: path in files ==> path.ref.project != p
      ensures r != Done ==> r == Failed && Now() == old(Now())
    {
      ghost var before := Now();
      var ok := Commit(db[p := NO_PROJECT], before, Every(p));
      if !ok {
        return Failed;
      }
      if threshold > 0 {
        DeleteGroup(p, before);
      }
      r := Done;
    }

    // The references of every record in every project.
    method LiveRefs() returns (live: set<Ref>)
      ensures forall r :: r in live <==> Referenced(db, r)
    {
      live := {};
      var projects := db.Keys;
      while projects != {}
        invariant projects <= db.Keys
        invariant forall r :: r in live <==>
                    exists p, id :: p !in projects && Has(db, p, id) && r in RefsOf(db[p].logs[id])
        decreases projects
      {
        var p :| p in projects;
        var ids := db[p].logs.Keys;
        ghost var others := live;
        while ids != {}
          invariant ids <= db[p].logs.Keys
          invariant forall r :: r in live <==>
                      r in others || exists id :: id !in ids && Has(db, p, id) && r in RefsOf(db[p].logs[id])
          decreases ids
        {
          var id :| id in ids;
          live := live + ToSetOf(RefsOf(db[p].logs[id]));
          ids := ids - {id};
        }
        projects := projects - {p};
      }
    }

    /** A sweep removes nothing a record points at, and leaves exactly what records point at. */
    method SweepBodies() returns (removed: nat)
      requires Sound(Now())
      modifies this
      ensures db == old(db) && Safe(old(Now()), Now(), Only("", {})) && SafeSince(old(trail), old(Now()), Only("", {}))
      ensures forall p, id :: View(Now(), p, id) == old(View(Now(), p, id))
      ensures threshold > 0 ==> forall path :: path in files <==> path.Whole? && Referenced(db, path.ref)
      ensures removed == |old(files).Keys| - |files.Keys|
    {
      ghost var before := Now();
      removed := 0;
      if threshold == 0 {
        return;
      }
      var live := LiveRefs();
      var left := files.Keys;
      while left != {}
        invariant db == before.db && Sound(Now()) && SafeSince(old(trail), before, Only("", {}))
        invariant forall p, id :: View(Now(), p, id) == View(before, p, id)
        invariant left <= files.Keys && removed == |before.files.Keys| - |files.Keys|
        invariant forall path :: path in files && path !in left ==> path.Whole? && path.ref in live
        decreases left
      {
        var path :| path in left;
        left := left - {path};
        if path.Part? || path.ref !in live {
          assert path.Whole? ==> Unreferenced(db, path.ref);
          OrphanMayGo(Now(), path);
          assert files.Keys == (files - {path}).Keys + {path};
          files := files - {path};
          removed := removed + 1;
          Record(before, Only("", {}));
        }
      }
      LiveFilesAreThere(Now());
    }
  }

  ghost predicate Referenced(db: Database, r: Ref) {
    exists p, id :: Has(db, p, id) && r in RefsOf(db[p].logs[id])
  }

  lemma LiveFilesAreThere(s: State)
    requires Sound(s)
    ensures forall r :: Referenced(s.db, r) ==> Whole(r) in s.files
  {
    forall r | Referenced(s.db, r) ensures Whole(r) in s.files {
      var p, id :| Has(s.db, p, id) && r in RefsOf(s.db[p].logs[id]);
      RefsAreOwn(s, p, id, r);
    }
  }

  lemma GoneIsUnreferenced(before: State, p: string, pr: Project, ids: seq<string>, r: Ref)
    requires Sound(before) && r in RefsGone(ProjectOf(before.db, p), ids)
    requires pr.logs == ProjectOf(before.db, p).logs - Dropped(ProjectOf(before.db, p), ids)
    ensures Unreferenced(before.db[p := pr], r)
  {
    var was := ProjectOf(before.db, p);
    var id :| id in ids && id in was.logs && r in RefsOf(was.logs[id]);
    RefsAreOwn(before, p, id, r);
    var db := before.db[p := pr];
    forall q, j | Has(db, q, j) ensures r !in RefsOf(db[q].logs[j]) {
      if r in RefsOf(db[q].logs[j]) {
        RefsAreOwn(before, q, j, r);
      }
    }
  }

  lemma KeysGone(pr: Project, ids: seq<string>)
    requires ToSet(ids) <= pr.logs.Keys
    ensures ToSet(ids) == pr.logs.Keys - DeletedAll(pr, ids).logs.Keys
  {
    DeletedAllLeaves(pr, ids);
    assert Dropped(pr, ids) == ToSet(ids);
  }

  lemma DeletedOne(pr: Project, id: string)
    requires id in pr.logs
    ensures DeletedAll(pr, [id]) == Removed(pr, id) && RefsGone(pr, [id]) == ToSetOf(RefsOf(pr.logs[id]))
  {
    assert [id][..0] == [];
    assert DeletedAll(pr, []) == pr;
    forall r ensures r in RefsGone(pr, [id]) <==> r in RefsOf(pr.logs[id]) {
      assert id in [id];
    }
  }
}
