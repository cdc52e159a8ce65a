/** What one write transaction does to a project's buckets: deleting entries with their messages, and trimming. */
module LogBucket {
  import opened Bytes
  import opened Ordered
  import opened Sequences
  import opened Wrappers

  type Body = seq<byte>

  datatype Side = Request | Response

  // Which body file: whose, and which half of the exchange.
  datatype Ref = Ref(project: string, id: string, side: Side)

  datatype Reply = Reply(body: Body, bodyRef: Option<Ref>, rest: int)

  // A log entry. rest stands for the fields no operation here looks at.
  datatype Entry = Entry(
    project: string, id: string, body: Body, bodyRef: Option<Ref>, reply: Option<Reply>, saved: bool, rest: int)

  // The three buckets: entries by id, messages and their index rows by message key.
  datatype Project = Project(logs: map<string, Entry>, messages: map<string, int>, index: map<string, int>)

  const NO_PROJECT := Project(map[], map[], map[])

  // ---- message keys ------------------------------------------------------

  function Digits(n: nat, width: nat): string {
    if width == 0 then "" else Digits(n / 10, width - 1) + ["0123456789"[n % 10]]
  }

  // "%08d": eight digits, or as many as the number has.
  function Width(n: nat): nat {
    if n < 100_000_000 then 8 else 1 + Width(n / 10)
  }

  function MessageKey(id: string, seqNo: nat): string {
    id + ":" + Digits(seqNo, Width(seqNo))
  }

  function MessagePrefix(id: string): string {
    id + ":"
  }

  lemma {:induction false} DigitsHaveNoColon(n: nat, width: nat)
    ensures ':' !in Digits(n, width)
  {
    if width > 0 {
      DigitsHaveNoColon(n / 10, width - 1);
    }
  }

  lemma HeadHoldsColon(id: string, b: string)
    requires HasPrefix(id, MessagePrefix(b))
    ensures ':' in id
  {
    assert id[|b|] == id[..|b| + 1][|b|] == ':';
  }

  lemma TailHoldsColon(a: string, tail: string, b: string)
    requires HasPrefix(a + ":" + tail, MessagePrefix(b)) && |a| < |b|
    ensures ':' in tail
  {
    var key := a + ":" + tail;
    assert tail[|b| - |a| - 1] == key[|b|] == key[..|b| + 1][|b|] == ':';
  }

  /** A prefix finds its own entry's messages, and those of any id that goes on from it with a colon. */
  lemma PrefixFinds(a: string, b: string, seqNo: nat)
    ensures HasPrefix(MessageKey(a, seqNo), MessagePrefix(b)) <==> a == b || HasPrefix(a, MessagePrefix(b))
  {
    var digits, key, p := Digits(seqNo, Width(seqNo)), MessageKey(a, seqNo), MessagePrefix(b);
    DigitsHaveNoColon(seqNo, Width(seqNo));
    if |b| > |a| {
      if HasPrefix(key, p) {
        TailHoldsColon(a, digits, b);
      }
    } else if |b| == |a| {
      assert key[..|p|] == a + ":";
      assert p[..|b|] == b && (a + ":")[..|a|] == a;
    } else {
      assert key[..|p|] == a[..|p|];
    }
  }

  /** With ids that hold no colon, an entry's prefix finds its own messages and no one else's. */
  lemma PrefixFindsOwn(a: string, b: string, seqNo: nat)
    requires ':' !in a
    ensures HasPrefix(MessageKey(a, seqNo), MessagePrefix(b)) <==> a == b
  {
    PrefixFinds(a, b, seqNo);
    if HasPrefix(a, MessagePrefix(b)) {
      HeadHoldsColon(a, b);
    }
  }

  /** With a colon in an id it would not: deleting "a" takes a message of "a:b". */
  lemma PrefixNeedsColonFreeIds()
    ensures HasPrefix(MessageKey("a:b", 1), MessagePrefix("a"))
  {
    assert "a:b"[..2] == "a:";
    PrefixFinds("a:b", "a", 1);
  }

  // ---- the order of messages ---------------------------------------------

  function Pow10(w: nat): (p: nat)
    ensures p > 0
  {
    if w == 0 then 1 else 10 * Pow10(w - 1)
  }

  lemma TensOrder(m: nat, n: nat)
    ensures m < n <==> m / 10 < n / 10 || (m / 10 == n / 10 && m % 10 < n % 10)
    ensures m == n <==> m / 10 == n / 10 && m % 10 == n % 10
  {
  }

  lemma {:induction false} DigitsAreOrdered(m: nat, n: nat, w: nat)
    requires m < Pow10(w) && n < Pow10(w)
    ensures |Digits(m, w)| == |Digits(n, w)| == w
    ensures Less(Digits(m, w), Digits(n, w)) <==> m < n
    ensures Digits(m, w) == Digits(n, w) <==> m == n
  {
    if w > 0 {
      DigitsAreOrdered(m / 10, n / 10, w - 1);
      TensOrder(m, n);
      LastDigits(Digits(m / 10, w - 1), m % 10, Digits(n / 10, w - 1), n % 10);
    }
  }

  lemma LastDigits(a: string, x: nat, b: string, y: nat)
    requires |a| == |b| && x < 10 && y < 10
    ensures var p, q := a + ["0123456789"[x]], b + ["0123456789"[y]];
            && (Less(p, q) <==> Less(a, b) || (a == b && x < y))
            && (p == q <==> a == b && x == y)
  {
    var p, q := "0123456789"[x], "0123456789"[y];
    LessByLast(a, p, b, q);
    assert (p < q <==> x < y) && (p == q <==> x == y);
    assert (a + [p])[..|a|] == a && (b + [q])[..|b|] == b && (a + [p])[|a|] == p && (b + [q])[|b|] == q;
  }

  lemma EightDigits(n: nat)
    requires n < 100_000_000
    ensures Width(n) == 8 && n < Pow10(8)
  {
    assert Pow10(4) == 10_000 && Pow10(8) == 10_000 * Pow10(4);
  }

  /** An entry's messages lie in the order of their numbers, and under keys of their own, up to eight digits. */
  lemma MessageKeysAreOrdered(id: string, m: nat, n: nat)
    requires m < 100_000_000 && n < 100_000_000
    ensures Less(MessageKey(id, m), MessageKey(id, n)) <==> m < n
    ensures MessageKey(id, m) == MessageKey(id, n) <==> m == n
  {
    EightDigits(m);
    EightDigits(n);
    DigitsAreOrdered(m, n, 8);
    LessWithHead(id + ":", Digits(m, 8), Digits(n, 8));
    var a, b := MessageKey(id, m), MessageKey(id, n);
    assert a[|id| + 1..] == Digits(m, 8) && b[|id| + 1..] == Digits(n, 8);
  }

  // The digit that comes first.
  function Leading(n: nat, w: nat): (d: nat)
    ensures d < 10
  {
    if w <= 1 then n % 10 else Leading(n / 10, w - 1)
  }

  lemma {:induction false} LeadingComesFirst(n: nat, w: nat)
    requires w > 0
    ensures Digits(n, w) != "" && Digits(n, w)[0] == "0123456789"[Leading(n, w)]
  {
    if w > 1 {
      LeadingComesFirst(n / 10, w - 1);
      assert Digits(n, w)[0] == Digits(n / 10, w - 1)[0];
    } else {
      assert Digits(n, w) == Digits(n / 10, 0) + ["0123456789"[n % 10]];
    }
  }

  lemma HeadsDecide(a: string, b: string)
    requires a != "" && b != "" && a[0] < b[0]
    ensures Less(a, b)
  {
  }

  lemma NineDigits()
    ensures Width(100_000_000) == 9 && Leading(100_000_000, 9) == 1
    ensures Width(99_999_999) == 8 && Leading(99_999_999, 8) == 9
  {
  }

  /** Past that they do not: the first number of nine digits lies before the last of eight. */
  lemma NineDigitsComeFirst(id: string)
    ensures Less(MessageKey(id, 100_000_000), MessageKey(id, 99_999_999))
  {
    var m, n := 100_000_000, 99_999_999;
    NineDigits();
    var a, b := Digits(m, Width(m)), Digits(n, Width(n));
    LeadingComesFirst(m, Width(m));
    LeadingComesFirst(n, Width(n));
    HeadsDecide(a, b);
    LessWithHead(id + ":", a, b);
  }

  // ---- deleting an entry -------------------------------------------------

  function WithPrefix(ks: set<string>, p: string): set<string> {
    set k | k in ks && HasPrefix(k, p)
  }

  // The keys that share a prefix, found by seeking it and reading on while it lasts.
  method PrefixKeys(ks: set<string>, p: string) returns (keys: seq<string>)
    ensures (set k | k in keys) == WithPrefix(ks, p)
  {
    keys := [];
    var k := Seek(ks, p);
    ghost var left := AtOrAbove(ks, p);
    forall x | x in WithPrefix(ks, p) ensures x in left {
      PrefixIsNotAbove(x, p);
    }
    AtOrAboveIsUpper(ks, p);
    while k.Some? && HasPrefix(k.value, p)
      invariant IsLeast(k, left) && Upper(left, ks) && left <= AtOrAbove(ks, p)
      invariant forall x :: x in WithPrefix(ks, p) <==> x in keys || x in WithPrefix(left, p)
      decreases left
    {
      var key := k.value;
      StepUp(ks, left, key);
      keys := keys + [key];
      k := Next(ks, key);
      left := Above(ks, key);
    }
    if k.Some? {
      forall x | x in left ensures !HasPrefix(x, p) {
        if HasPrefix(x, p) && x != k.value {
          PrefixIsContiguous(p, k.value, x);
        }
      }
    }
  }

  function WithoutPrefix<V>(m: map<string, V>, p: string): map<string, V> {
    map k | k in m && !HasPrefix(k, p) :: m[k]
  }

  // The project once id and its messages are gone.
  function Removed(pr: Project, id: string): Project {
    Project(pr.logs - {id}, WithoutPrefix(pr.messages, MessagePrefix(id)), WithoutPrefix(pr.index, MessagePrefix(id)))
  }

  function RefsOf(e: Entry): seq<Ref> {
    (if e.bodyRef.Some? then [e.bodyRef.value] else [])
    + if e.reply.Some? && e.reply.value.bodyRef.Some? then [e.reply.value.bodyRef.value] else []
  }

  // A transaction on one project: its buckets, changed in place.
  class EntryBuckets {
    var logs: map<string, Entry>
    var messages: map<string, int>
    var index: map<string, int>

    function Now(): Project
      reads this
    {
      Project(logs, messages, index)
    }

    constructor (pr: Project)
      ensures Now() == pr
    {
      logs, messages, index := pr.logs, pr.messages, pr.index;
    }

    // Removes an entry and its messages, and answers the body files it stopped pointing at.
    method DeleteEntry(id: string) returns (found: bool, refs: seq<Ref>)
      modifies this
      ensures found <==> id in old(logs)
      ensures Now() == if found then Removed(old(Now()), id) else old(Now())
      ensures refs == if found then RefsOf(old(logs)[id]) else []
    {
      if id !in logs {
        return false, [];
      }
      found, refs := true, RefsOf(logs[id]);
      logs := logs - {id};
      var p := MessagePrefix(id);
      var keys := PrefixKeys(messages.Keys, p);
      messages := DeleteKeys(messages, keys, p);
      keys := PrefixKeys(index.Keys, p);
      index := DeleteKeys(index, keys, p);
    }
  }

  // Deletes the collected keys one by one.
  method DeleteKeys(m: map<string, int>, keys: seq<string>, ghost p: string) returns (r: map<string, int>)
    requires (set k | k in keys) == WithPrefix(m.Keys, p)
    ensures r == WithoutPrefix(m, p)
  {
    r := m;
    for i := 0 to |keys|
      invariant r.Keys == m.Keys - (set k | k in keys[..i])
      invariant forall k :: k in r ==> r[k] == m[k]
    {
      r := r - {keys[i]};
      assert keys[..i + 1] == keys[..i] + [keys[i]];
    }
    assert keys[..|keys|] == keys;
    forall k | k in m ensures k in r <==> !HasPrefix(k, p) {
      assert k in WithPrefix(m.Keys, p) <==> HasPrefix(k, p);
    }
  }

  // ---- trimming ----------------------------------------------------------

  function SavedIds(logs: map<string, Entry>): set<string> {
    set id | id in logs && logs[id].saved
  }

  // A walk over the keys alone.
  method Count(ks: set<string>) returns (n: nat)
    ensures n == |ks|
  {
    n := 0;
    var k := First(ks);
    ghost var last: Option<string> := None;
    while k.Some?
      invariant IsLeast(k, Beyond(ks, last)) && n + |Beyond(ks, last)| == |ks|
      decreases Beyond(ks, last)
    {
      PassOne(ks, last, k.value);
      n := n + 1;
      last := k;
      k := Next(ks, k.value);
    }
  }

  // The oldest unsaved entries, as many as asked for or as there are.
  ghost predicate AreOldest(victims: set<string>, logs: map<string, Entry>, excess: nat) {
    var unsaved := logs.Keys - SavedIds(logs);
    && victims <= unsaved
    && |victims| == (if excess < |unsaved| then excess else |unsaved|)
    && forall v, k :: v in victims && k in unsaved && k !in victims ==> Less(v, k)
  }

  function ToSet(ids: seq<string>): set<string> {
    set id | id in ids
  }

  // The victims so far: the unsaved ids the cursor has passed, once each.
  ghost predicate Chosen(victims: seq<string>, unsaved: set<string>, left: set<string>) {
    Distinct(victims) && ToSet(victims) == unsaved - left
  }

  lemma Choose(victims: seq<string>, unsaved: set<string>, left: set<string>, id: string)
    requires Chosen(victims, unsaved, left) && id in left
    ensures Chosen(if id in unsaved then victims + [id] else victims, unsaved, left - {id})
  {
    assert id !in ToSet(victims);
    if id in unsaved {
      assert ToSet(victims + [id]) == ToSet(victims) + {id};
      assert unsaved - (left - {id}) == (unsaved - left) + {id};
    } else {
      assert unsaved - (left - {id}) == unsaved - left;
    }
  }

  method Victims(logs: map<string, Entry>, excess: nat) returns (victims: seq<string>)
    ensures AreOldest(ToSet(victims), logs, excess)
    ensures Distinct(victims)
  {
    victims := [];
    var ks := logs.Keys;
    ghost var unsaved := ks - SavedIds(logs);
    ghost var last: Option<string> := None;
    var k := First(ks);
    while k.Some? && |victims| < excess
      invariant IsLeast(k, Beyond(ks, last))
      invariant |victims| <= excess && Chosen(victims, unsaved, Beyond(ks, last))
      decreases Beyond(ks, last)
    {
      var id := k.value;
      PassOne(ks, last, id);
      Choose(victims, unsaved, Beyond(ks, last), id);
      if !logs[id].saved {
        victims := victims + [id];
      }
      last := k;
      k := Next(ks, id);
    }
    DistinctCount(victims);
    BeyondIsUpper(ks, last);
    ChosenAreOldest(ToSet(victims), unsaved, Beyond(ks, last), ks, excess);
  }

  lemma ChosenAreOldest(chosen: set<string>, unsaved: set<string>, left: set<string>, ks: set<string>, excess: nat)
    requires unsaved <= ks && Upper(left, ks) && chosen == unsaved - left && |chosen| <= excess
    requires left == {} || |chosen| == excess
    ensures |chosen| == if excess < |unsaved| then excess else |unsaved|
    ensures forall v, k :: v in chosen && k in unsaved && k !in chosen ==> Less(v, k)
  {
    CardinalityGrows(chosen, unsaved);
    forall v, k | v in chosen && k in unsaved && k !in chosen ensures Less(v, k) {
      LessIsTotal(v, k);
    }
    if left == {} {
      assert chosen == unsaved;
    }
  }

  lemma {:induction false} CardinalityGrows<T>(a: set<T>, b: set<T>)
    requires a <= b
    ensures |a| <= |b|
    decreases b
  {
    if a != {} {
      var x :| x in a;
      CardinalityGrows(a - {x}, b - {x});
    }
  }

  // The project once some ids and their messages are gone; an id that is not there takes nothing with it.
  function DeletedAll(pr: Project, ids: seq<string>): Project {
    if ids == [] then pr
    else
      var before, id := DeletedAll(pr, ids[..|ids| - 1]), ids[|ids| - 1];
      if id in before.logs then Removed(before, id) else before
  }

  function Dropped(pr: Project, ids: seq<string>): set<string> {
    set id | id in ids && id in pr.logs
  }

  // No dropped entry's prefix is on the key.
  ghost predicate Unowned(key: string, dropped: set<string>) {
    forall id :: id in dropped ==> !HasPrefix(key, MessagePrefix(id))
  }

  /** What is left of the buckets: the other entries as they were, and the messages no dropped entry owns. */
  lemma {:induction false} DeletedAllLeaves(pr: Project, ids: seq<string>)
    ensures var r := DeletedAll(pr, ids);
            && r.logs == pr.logs - Dropped(pr, ids)
            && r.messages == (map k | k in pr.messages && Unowned(k, Dropped(pr, ids)) :: pr.messages[k])
            && r.index == (map k | k in pr.index && Unowned(k, Dropped(pr, ids)) :: pr.index[k])
  {
    if ids != [] {
      var head, last := ids[..|ids| - 1], ids[|ids| - 1];
      DeletedAllLeaves(pr, head);
      assert ids == head + [last];
      assert Dropped(pr, ids) == Dropped(pr, head) + (if last in pr.logs then {last} else {});
    }
  }

  // A message of an id, in either bucket, is as it was.
  predicate MessageStays(before: Project, after: Project, key: string) {
    && (key in after.messages <==> key in before.messages)
    && (key in after.messages && key in before.messages ==> after.messages[key] == before.messages[key])
    && (key in after.index <==> key in before.index)
    && (key in after.index && key in before.index ==> after.index[key] == before.index[key])
  }

  predicate HasMessage(pr: Project, key: string) {
    key in pr.messages || key in pr.index
  }

  // Some dropped id, followed by a colon, heads this one.
  ghost predicate Headed(id: string, dropped: set<string>) {
    exists b :: b in dropped && HasPrefix(id, MessagePrefix(b))
  }

  // What deleting some entries leaves of both message buckets.
  ghost predicate LeavesUnowned(before: Project, after: Project, dropped: set<string>) {
    && after.messages == (map k | k in before.messages && Unowned(k, dropped) :: before.messages[k])
    && after.index == (map k | k in before.index && Unowned(k, dropped) :: before.index[k])
  }

  lemma WhoLosesMessages(before: Project, after: Project, dropped: set<string>, id: string, seqNo: nat)
    requires LeavesUnowned(before, after, dropped)
    ensures var key := MessageKey(id, seqNo);
            if id in dropped || Headed(id, dropped) then !HasMessage(after, key) else MessageStays(before, after, key)
    ensures ':' !in id && id !in dropped ==> MessageStays(before, after, MessageKey(id, seqNo))
  {
    var key := MessageKey(id, seqNo);
    forall b | b in dropped ensures HasPrefix(key, MessagePrefix(b)) <==> id == b || HasPrefix(id, MessagePrefix(b)) {
      PrefixFinds(id, b, seqNo);
    }
    assert Unowned(key, dropped) <==> id !in dropped && !Headed(id, dropped);
    if ':' !in id && Headed(id, dropped) {
      var b :| b in dropped && HasPrefix(id, MessagePrefix(b));
      HeadHoldsColon(id, b);
    }
  }

  /**
   * Deleting entries takes all their messages. Of an entry that stays it takes none, unless a
   * deleted id followed by a colon heads its own, and then it takes them all.
   */
  lemma DeletedTakesMessages(pr: Project, ids: seq<string>, id: string, seqNo: nat)
    ensures var after, dropped, key := DeletedAll(pr, ids), Dropped(pr, ids), MessageKey(id, seqNo);
            && (if id in dropped || Headed(id, dropped) then !HasMessage(after, key) else MessageStays(pr, after, key))
            && (':' !in id && id !in dropped ==> MessageStays(pr, after, key))
  {
    DeletedAllLeaves(pr, ids);
    WhoLosesMessages(pr, DeletedAll(pr, ids), Dropped(pr, ids), id, seqNo);
  }

  /** The same of one deletion. */
  lemma RemovedTakesMessages(pr: Project, gone: string, id: string, seqNo: nat)
    ensures var after, key := Removed(pr, gone), MessageKey(id, seqNo);
            && (if id == gone || HasPrefix(id, MessagePrefix(gone)) then !HasMessage(after, key)
                else MessageStays(pr, after, key))
            && (':' !in id && id != gone ==> MessageStays(pr, after, key))
  {
    var after := Removed(pr, gone);
    assert forall k :: Unowned(k, {gone}) <==> !HasPrefix(k, MessagePrefix(gone));
    WhoLosesMessages(pr, after, {gone}, id, seqNo);
    assert HasPrefix(id, MessagePrefix(gone)) ==> gone in {gone};
  }

  function ToSetOf(refs: seq<Ref>): set<Ref> {
    set r | r in refs
  }

  function RefsGone(pr: Project, ids: seq<string>): set<Ref> {
    set id, r | id in ids && id in pr.logs && r in RefsOf(pr.logs[id]) :: r
  }

  // Deletes the given entries, skipping ids that are gone, and answers every body file they pointed at.
  method DeleteAll(bs: EntryBuckets, ids: seq<string>) returns (refs: seq<Ref>)
    modifies bs
    ensures bs.Now() == DeletedAll(old(bs.Now()), ids)
    ensures ToSetOf(refs) == RefsGone(old(bs.Now()), ids)
  {
    refs := [];
    ghost var was := bs.Now();
    for i := 0 to |ids|
      invariant bs.Now() == DeletedAll(was, ids[..i])
      invariant ToSetOf(refs) == RefsGone(was, ids[..i])
    {
      var id := ids[i];
      DeletedAllLeaves(was, ids[..i]);
      assert ids[..i + 1][..i] == ids[..i] && ids[..i + 1] == ids[..i] + [id];
      var found, more := bs.DeleteEntry(id);
      RefsGrow(was, ids[..i], id, refs, more);
      refs := refs + more;
    }
    assert ids[..|ids|] == ids;
  }

  lemma RefsGrow(pr: Project, ids: seq<string>, id: string, refs: seq<Ref>, more: seq<Ref>)
    requires ToSetOf(refs) == RefsGone(pr, ids)
    requires more == if id in pr.logs && id !in ids then RefsOf(pr.logs[id]) else []
    ensures ToSetOf(refs + more) == RefsGone(pr, ids + [id])
  {
    forall r ensures r in refs + more <==> r in RefsGone(pr, ids + [id]) {
      assert r in refs <==> r in RefsGone(pr, ids);
      if r in RefsGone(pr, ids + [id]) {
        var j :| j in ids + [id] && j in pr.logs && r in RefsOf(pr.logs[j]);
        assert j in ids ==> r in RefsGone(pr, ids);
      }
    }
  }

  // The rows of a project that a trim to max leaves.
  ghost predicate Trimmed(before: Project, after: Project, max: int, dropped: nat) {
    if max <= 0 || |before.logs| <= max then after == before && dropped == 0
    else
      var gone := before.logs.Keys - after.logs.Keys;
      var saved := |SavedIds(before.logs)|;
      && |after.logs| == (if max > saved then max else saved)
      && dropped == |gone| == |before.logs| - |after.logs|
      && after.logs == before.logs - gone
      && gone !! SavedIds(before.logs)
      && (forall v, k :: v in gone && k in after.logs && !after.logs[k].saved ==> Less(v, k))
      && LeavesUnowned(before, after, gone)
  }

  /**
   * Every entry a trim leaves keeps all its messages, if and only if no dropped id followed by a
   * colon heads its own; so it does when ids hold no colon.
   */
  lemma TrimmedTakesMessages(before: Project, after: Project, max: int, dropped: nat, id: string, seqNo: nat)
    requires Trimmed(before, after, max, dropped) && id in after.logs
    ensures var gone, key := before.logs.Keys - after.logs.Keys, MessageKey(id, seqNo);
            && (if Headed(id, gone) then !HasMessage(after, key) else MessageStays(before, after, key))
            && (':' !in id ==> MessageStays(before, after, key))
  {
    if max > 0 && |before.logs| > max {
      WhoLosesMessages(before, after, before.logs.Keys - after.logs.Keys, id, seqNo);
    }
  }

  /**
   * Drops the oldest entries once the log holds more than max. Saved entries count
   * towards the cap and are never dropped.
   */
  method TrimBuckets(bs: EntryBuckets, max: int) returns (dropped: nat, refs: seq<Ref>, ghost ids: seq<string>)
    modifies bs
    ensures Trimmed(old(bs.Now()), bs.Now(), max, dropped)
    ensures bs.Now() == DeletedAll(old(bs.Now()), ids) && ToSet(ids) <= old(bs.Now()).logs.Keys
    ensures ToSetOf(refs) == RefsGone(old(bs.Now()), ids)
  {
    dropped, refs, ids := 0, [], [];
    if max <= 0 {
      return;
    }
    ghost var was := bs.Now();
    var total := Count(bs.logs.Keys);
    if total - max <= 0 {
      return;
    }
    var victims := Victims(bs.logs, total - max);
    ids := victims;
    DeletedAllLeaves(was, victims);
    TrimCounts(was, victims, max);
    refs := DeleteAll(bs, victims);
    dropped := |victims|;
  }

  lemma {:induction false} DistinctCount(ids: seq<string>)
    requires Distinct(ids)
    ensures |ToSet(ids)| == |ids|
  {
    if ids != [] {
      var head, last := ids[..|ids| - 1], ids[|ids| - 1];
      DistinctCount(head);
      assert ToSet(ids) == ToSet(head) + {last};
      assert last !in ToSet(head);
    }
  }

  lemma TrimCounts(was: Project, victims: seq<string>, max: int)
    requires 0 < max < |was.logs|
    requires AreOldest(ToSet(victims), was.logs, |was.logs| - max)
    requires Distinct(victims)
    ensures Trimmed(was, DeletedAll(was, victims), max, |victims|)
  {
    DeletedAllLeaves(was, victims);
    DistinctCount(victims);
    var gone, saved := ToSet(victims), SavedIds(was.logs);
    assert Dropped(was, victims) == gone;
    var after := DeletedAll(was, victims);
    Minus(was.logs.Keys, saved);
    Minus(was.logs.Keys, gone);
    assert after.logs.Keys == was.logs.Keys - gone;
    assert was.logs.Keys - after.logs.Keys == gone;
  }

  lemma Minus<T>(a: set<T>, b: set<T>)
    requires b <= a
    ensures |a - b| == |a| - |b|
  {
    assert a == (a - b) + b;
  }
}
