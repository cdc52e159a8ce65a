/** Paged reading of the request log: newest first a page at a time, and oldest first in short transactions. */
module LogScan {
  import opened Ordered
  import LogBucket
  import opened Wrappers

  // ---- the keys of a bucket, newest first --------------------------------

  lemma {:induction false} GreatestExists(ks: set<string>) returns (k: string)
    requires ks != {}
    ensures IsGreatest(Some(k), ks)
  {
    var x :| x in ks;
    var rest := ks - {x};
    if rest == {} {
      k := x;
      assert ks == {x};
    } else {
      var g := GreatestExists(rest);
      k := if Less(x, g) then g else x;
      LessIsTotal(x, g);
      forall y | y in ks && y != k ensures Less(y, k) {
        if y != x && k == x {
          if y != g {
            LessIsTransitive(y, g, x);
          }
        }
      }
    }
  }

  ghost function Greatest(ks: set<string>): (k: string)
    requires ks != {}
    ensures IsGreatest(Some(k), ks)
  {
    var k := GreatestOf(ks);
    k
  }

  ghost function GreatestOf(ks: set<string>): (k: string)
    requires ks != {}
    ensures IsGreatest(Some(k), ks)
  {
    assert exists k :: IsGreatest(Some(k), ks) by {
      var k := GreatestExists(ks);
    }
    var k :| IsGreatest(Some(k), ks);
    k
  }

  /** All the keys, in descending order. */
  ghost function Descending(ks: set<string>): seq<string>
    decreases |ks|
  {
    if ks == {} then []
    else
      var k := Greatest(ks);
      [k] + Descending(ks - {k})
  }

  lemma GreatestIsUnique(ks: set<string>, k: string)
    requires IsGreatest(Some(k), ks)
    ensures Greatest(ks) == k
    ensures Descending(ks) == [k] + Descending(Below(ks, k))
  {
    LessIsTotal(Greatest(ks), k);
    LessIsTotal(k, k);
    assert ks - {k} == Below(ks, k);
  }

  ghost predicate StrictlyDescending(r: seq<string>) {
    forall i, j :: 0 <= i < j < |r| ==> Less(r[j], r[i])
  }

  lemma {:induction false} DescendingIsStrict(ks: set<string>)
    ensures forall k :: k in Descending(ks) <==> k in ks
    ensures StrictlyDescending(Descending(ks))
    decreases |ks|
  {
    if ks != {} {
      var k := Greatest(ks);
      DescendingIsStrict(ks - {k});
      var rest := Descending(ks - {k});
      assert forall i :: 0 <= i < |rest| ==> rest[i] in ks - {k};
    }
  }

  // ---- one page, newest first --------------------------------------------

  // What the caller says of one entry: count it, and have enough.
  datatype Visit = Visit(keep: bool, stop: bool)

  // The keys a walk may visit: all of them, or those before a given one.
  function Range(ks: set<string>, before: string): set<string> {
    if before == "" then ks else Below(ks, before)
  }

  /**
   * A walk down some keys: which are kept, and whether more may remain. fn is asked
   * about an entry and told how many were asked about before it.
   */
  ghost function Walked<V>(keys: seq<string>, b: map<string, V>, fn: (V, nat) -> Visit, calls: nat, room: nat)
    : (seq<string>, bool)
  {
    if keys == [] then ([], false)
    else if keys[0] !in b then Walked(keys[1..], b, fn, calls, room)
    else if room == 0 then ([], true)
    else
      var v := fn(b[keys[0]], calls);
      var kept := if v.keep then [keys[0]] else [];
      if v.stop then (kept, true)
      else
        var rest := Walked(keys[1..], b, fn, calls + 1, if v.keep then room - 1 else room);
        (kept + rest.0, rest.1)
  }

  // What was kept so far, with what the rest of a walk keeps after it.
  ghost function Onto(kept: seq<string>, w: (seq<string>, bool)): (seq<string>, bool) {
    (kept + w.0, w.1)
  }

  lemma WalkedOn<V>(key: string, tail: seq<string>, b: map<string, V>, fn: (V, nat) -> Visit, calls: nat, room: nat,
                    kept: seq<string>)
    requires key in b
    ensures room == 0 ==> Onto(kept, Walked([key] + tail, b, fn, calls, room)) == (kept, true)
    ensures room > 0 ==>
              var v := fn(b[key], calls);
              var kept' := if v.keep then kept + [key] else kept;
              Onto(kept, Walked([key] + tail, b, fn, calls, room)) ==
              if v.stop then (kept', true)
              else Onto(kept', Walked(tail, b, fn, calls + 1, if v.keep then room - 1 else room))
  {
    assert ([key] + tail)[1..] == tail && kept + [] == kept;
    if room > 0 {
      var v := fn(b[key], calls);
      var rest := Walked(tail, b, fn, calls + 1, if v.keep then room - 1 else room);
      assert (kept + [key]) + rest.0 == kept + ([key] + rest.0);
      assert [] + rest.0 == rest.0;
    }
  }

  // The cursor on the newest entry of the range.
  method Land(ks: set<string>, before: string) returns (k: Option<string>)
    ensures IsGreatest(k, Range(ks, before))
  {
    if before == "" {
      k := Last(ks);
    } else {
      k := Seek(ks, before);
      if k.None? {
        NoneAbove(ks, before);
        k := Last(ks);
      } else {
        JustBelow(ks, before, k.value);
        k := Prev(ks, k.value);
      }
    }
  }

  // What is left of the range once the walk has passed last.
  function Left(ks: set<string>, before: string, last: Option<string>): set<string> {
    match last
    case None => Range(ks, before)
    case Some(k) => Below(ks, k)
  }

  lemma LeftShrinks(ks: set<string>, before: string, last: Option<string>, key: string)
    requires IsGreatest(Some(key), Left(ks, before, last))
    ensures Descending(Left(ks, before, last)) == [key] + Descending(Left(ks, before, Some(key)))
    ensures Left(ks, before, Some(key)) < Left(ks, before, last)
  {
    var left := Left(ks, before, last);
    match last {
      case None => RangeIsLower(ks, before);
      case Some(k) => BelowIsLower(ks, k);
    }
    StepDown(ks, left, key);
    GreatestIsUnique(left, key);
  }

  /** A page is the walk down the range, whatever moves the cursor made. */
  method Walk<V>(b: map<string, V>, before: string, limit: nat, fn: (V, nat) -> Visit)
    returns (kept: seq<string>, more: bool)
    ensures (kept, more) == Walked(Descending(Range(b.Keys, before)), b, fn, 0, limit)
  {
    kept, more := [], false;
    var calls := 0;
    ghost var goal := Walked(Descending(Range(b.Keys, before)), b, fn, 0, limit);
    ghost var last: Option<string> := None;
    assert [] + goal.0 == goal.0;
    var k := Land(b.Keys, before);
    while k.Some?
      invariant IsGreatest(k, Left(b.Keys, before, last)) && |kept| <= limit
      invariant goal == Onto(kept, Walked(Descending(Left(b.Keys, before, last)), b, fn, calls, limit - |kept|))
      decreases Left(b.Keys, before, last)
    {
      var key := k.value;
      LeftShrinks(b.Keys, before, last, key);
      WalkedOn(key, Descending(Left(b.Keys, before, k)), b, fn, calls, limit - |kept|, kept);
      if |kept| == limit {
        return kept, true;
      }
      var v := fn(b[key], calls);
      if v.keep {
        kept := kept + [key];
      }
      if v.stop {
        return kept, true;
      }
      calls := calls + 1;
      last := k;
      k := Prev(b.Keys, key);
    }
    assert kept + [] == kept;
  }

  lemma NoneAbove(ks: set<string>, before: string)
    requires AtOrAbove(ks, before) == {}
    ensures Below(ks, before) == ks
  {
    assert forall x :: x in ks && !Less(x, before) ==> x in AtOrAbove(ks, before);
  }

  // Stepping back from the first key at or above before lands just below before.
  lemma JustBelow(ks: set<string>, before: string, k: string)
    requires IsLeast(Some(k), AtOrAbove(ks, before))
    ensures Below(ks, k) == Below(ks, before)
  {
    assert forall x :: x in ks && !Less(x, before) ==> x in AtOrAbove(ks, before);
    forall x | x in ks ensures Less(x, k) <==> Less(x, before) {
      LessIsTotal(x, k);
      LessIsTotal(k, before);
      if Less(x, before) && Less(before, k) {
        LessIsTransitive(x, before, k);
      }
    }
  }

  // Nothing outside left stands below any of it.
  ghost predicate Lower(left: set<string>, ks: set<string>) {
    left <= ks && forall x, y :: x in ks && x !in left && y in left ==> Less(y, x)
  }

  lemma RangeIsLower(ks: set<string>, before: string)
    ensures Lower(Range(ks, before), ks)
  {
    forall x, y | x in ks && x !in Range(ks, before) && y in Range(ks, before) ensures Less(y, x) {
      LessIsTotal(x, before);
      if x != before {
        LessIsTransitive(y, before, x);
      }
    }
  }

  lemma BelowIsLower(ks: set<string>, k: string)
    ensures Lower(Below(ks, k), ks)
  {
    forall x, y | x in ks && x !in Below(ks, k) && y in Below(ks, k) ensures Less(y, x) {
      LessIsTotal(x, k);
      if x != k {
        LessIsTransitive(y, k, x);
      }
    }
  }

  // Below the greatest of what is left stands the rest of it, and no more.
  lemma StepDown(ks: set<string>, left: set<string>, key: string)
    requires Lower(left, ks) && IsGreatest(Some(key), left)
    ensures Below(ks, key) == Below(left, key) && Lower(Below(left, key), ks) && Below(left, key) < left
  {
    LessIsTotal(key, key);
    forall x | x in ks && Less(x, key) ensures x in left {
      LessIsTotal(x, key);
    }
  }

  // ---- the list, a page at a time ----------------------------------------

  const SCAN_BATCH: nat := 5000

  function ClampLimit(n: int, def: int, cap: int): (r: int)
    requires 1 <= def <= cap
    ensures 1 <= r <= cap
    ensures 1 <= n <= cap ==> r == n
    ensures n == 0 ==> r == def
    ensures n > cap ==> r == cap
    ensures n < 0 ==> r == 1
  {
    var want := if n == 0 then def else n;
    var capped := if want < cap then want else cap;
    if capped < 1 then 1 else capped
  }

  // A page counts what matches, and gives up after a batch of entries that do not.
  function Listing<V>(match_: V -> bool): (V, nat) -> Visit {
    (e: V, calls: nat) => Visit(match_(e), !match_(e) && calls + 1 >= SCAN_BATCH)
  }

  ghost function PageOf<V>(ks: set<string>, b: map<string, V>, before: string, limit: nat, match_: V -> bool)
    : (seq<string>, bool)
  {
    Walked(Descending(Range(ks, before)), b, Listing(match_), 0, limit)
  }

  method List<V>(b: map<string, V>, before: string, n: int, match_: V -> bool) returns (page: seq<string>, more: bool)
    ensures (page, more) == PageOf(b.Keys, b, before, ClampLimit(n, 100, 500), match_)
  {
    page, more := Walk(b, before, ClampLimit(n, 100, 500), Listing(match_));
  }

  function Matching<V>(keys: seq<string>, b: map<string, V>, match_: V -> bool): seq<string> {
    if keys == [] then []
    else if keys[0] in b && match_(b[keys[0]]) then [keys[0]] + Matching(keys[1..], b, match_)
    else Matching(keys[1..], b, match_)
  }

  lemma {:induction false} MatchingJoins<V>(a: seq<string>, c: seq<string>, b: map<string, V>, match_: V -> bool)
    ensures Matching(a + c, b, match_) == Matching(a, b, match_) + Matching(c, b, match_)
  {
    if a == [] {
      assert a + c == c;
    } else {
      assert (a + c)[1..] == a[1..] + c;
      MatchingJoins(a[1..], c, b, match_);
    }
  }

  // How far a page went: it is exactly the matches of the first n keys.
  lemma {:induction false} PageReach<V>(keys: seq<string>, b: map<string, V>, match_: V -> bool, calls: nat, room: nat)
    returns (n: nat)
    requires forall k :: k in keys ==> k in b
    ensures n <= |keys|
    ensures var (page, more) := Walked(keys, b, Listing(match_), calls, room);
            && page == Matching(keys[..n], b, match_) && |page| <= room
            && (!more ==> n == |keys|)
            && (more ==> (|page| == room && n < |keys|)
                         || (calls + n >= SCAN_BATCH && n > 0 && !match_(b[keys[n - 1]])))
            && (more && page == [] && room > 0 ==> n == (if calls + 1 >= SCAN_BATCH then 1 else SCAN_BATCH - calls))
  {
    if keys == [] || room == 0 {
      n := 0;
    } else {
      var v := Listing(match_)(b[keys[0]], calls);
      if v.stop {
        n := 1;
        assert keys[..1] == [keys[0]];
        assert [keys[0]][1..] == [];
      } else {
        var m := PageReach(keys[1..], b, match_, calls + 1, if v.keep then room - 1 else room);
        n := m + 1;
        assert keys[..n][1..] == keys[1..][..m];
        assert keys[n - 1] == if m == 0 then keys[0] else keys[1..][m - 1];
      }
    }
  }

  // Where a descending list of keys is cut, what follows is the range before the cut.
  lemma {:induction false} DescendingCut(ks: set<string>, j: nat)
    requires j < |Descending(ks)|
    ensures Descending(Below(ks, Descending(ks)[j])) == Descending(ks)[j + 1..]
    ensures Descending(ks)[j] in ks
    decreases |ks|
  {
    var g := Greatest(ks);
    GreatestIsUnique(ks, g);
    LessIsTotal(g, g);
    assert ks - {g} == Below(ks, g);
    if j > 0 {
      var k := Descending(ks)[j];
      DescendingCut(ks - {g}, j - 1);
      assert k == Descending(ks - {g})[j - 1];
      LessIsTotal(k, g);
      assert Below(ks - {g}, k) == Below(ks, k);
    }
  }

  lemma {:induction false} LastMatch<V>(keys: seq<string>, b: map<string, V>, match_: V -> bool) returns (j: nat)
    requires Matching(keys, b, match_) != []
    ensures j < |keys| && keys[j] == Matching(keys, b, match_)[|Matching(keys, b, match_)| - 1]
    ensures Matching(keys[..j + 1], b, match_) == Matching(keys, b, match_) && Matching(keys[j + 1..], b, match_) == []
  {
    if Matching(keys[1..], b, match_) == [] {
      j := 0;
      assert keys[..1][1..] == [];
    } else {
      var i := LastMatch(keys[1..], b, match_);
      j := i + 1;
      assert keys[..j + 1][1..] == keys[1..][..i + 1];
      assert keys[j + 1..] == keys[1..][i + 1..];
    }
  }

  // The page is the matches of the first keys, and of all of them when no more are said to come.
  lemma WalkIsStretch<V>(keys: seq<string>, b: map<string, V>, limit: nat, match_: V -> bool) returns (n: nat)
    requires StrictlyDescending(keys) && limit > 0
    requires forall k :: k in keys ==> k in b
    ensures var (page, more) := Walked(keys, b, Listing(match_), 0, limit);
            && n <= |keys| && page == Matching(keys[..n], b, match_)
            && StrictlyDescending(page)
            && (!more ==> page == Matching(keys, b, match_))
            && (more && page == [] ==> n == SCAN_BATCH)
  {
    n := PageReach(keys, b, match_, 0, limit);
    MatchingIsStrict(keys[..n], b, match_);
    assert n == |keys| ==> keys[..n] == keys;
  }

  lemma PageIsStretch<V>(ks: set<string>, b: map<string, V>, before: string, limit: nat, match_: V -> bool)
    returns (n: nat)
    requires ks == b.Keys && limit > 0
    ensures var keys := Descending(Range(ks, before));
            var (page, more) := PageOf(ks, b, before, limit, match_);
            && n <= |keys| && page == Matching(keys[..n], b, match_)
            && StrictlyDescending(page)
            && (!more ==> page == Matching(keys, b, match_))
            && (more && page == [] ==> n == SCAN_BATCH)
  {
    DescendingIsStrict(Range(ks, before));
    n := WalkIsStretch(Descending(Range(ks, before)), b, limit, match_);
  }

  lemma PageStalls<V>(ks: set<string>, b: map<string, V>, before: string, limit: nat, match_: V -> bool)
    requires ks == b.Keys && limit > 0
    ensures var keys := Descending(Range(ks, before));
            PageOf(ks, b, before, limit, match_) == ([], true) <==>
            |keys| >= SCAN_BATCH && Matching(keys[..SCAN_BATCH], b, match_) == []
  {
    var keys := Descending(Range(ks, before));
    DescendingIsStrict(Range(ks, before));
    if |keys| >= SCAN_BATCH && Matching(keys[..SCAN_BATCH], b, match_) == [] {
      BatchIsEmpty(keys, b, match_, limit, 0);
    }
    if PageOf(ks, b, before, limit, match_) == ([], true) {
      var n := PageIsStretch(ks, b, before, limit, match_);
    }
  }

  // Nothing that matches stands between the last of a page and where the page stopped.
  lemma PageThenRest<V>(ks: set<string>, b: map<string, V>, before: string, limit: nat, match_: V -> bool)
    requires ks == b.Keys && "" !in ks && limit > 0
    requires PageOf(ks, b, before, limit, match_).0 != []
    ensures var page := PageOf(ks, b, before, limit, match_).0;
            var last := page[|page| - 1];
            && last in Range(ks, before)
            && Matching(Descending(Range(ks, before)), b, match_) ==
               page + Matching(Descending(Range(ks, last)), b, match_)
  {
    var keys := Descending(Range(ks, before));
    var n := PageIsStretch(ks, b, before, limit, match_);
    var j := LastMatch(keys[..n], b, match_);
    RestAfter(Range(ks, before), ks, keys, n, j, b, match_, before);
  }

  /**
   * A page is the matches of an unbroken stretch of the range, newest first. The page
   * before its last id skips and repeats nothing, no more means none are left, and a
   * page is empty with more to come exactly when a whole batch below before matches nothing.
   */
  lemma PagesChain<V>(ks: set<string>, b: map<string, V>, before: string, limit: nat, match_: V -> bool)
    requires ks == b.Keys && "" !in ks && limit > 0
    ensures var keys := Descending(Range(ks, before));
            var (page, more) := PageOf(ks, b, before, limit, match_);
            && StrictlyDescending(page)
            && (!more ==> page == Matching(keys, b, match_))
            && (page != [] ==>
                  var last := page[|page| - 1];
                  && last in Range(ks, before)
                  && Matching(keys, b, match_) == page + Matching(Descending(Range(ks, last)), b, match_))
            && (more && page == [] <==> |keys| >= SCAN_BATCH && Matching(keys[..SCAN_BATCH], b, match_) == [])
  {
    var n := PageIsStretch(ks, b, before, limit, match_);
    PageStalls(ks, b, before, limit, match_);
    if PageOf(ks, b, before, limit, match_).0 != [] {
      PageThenRest(ks, b, before, limit, match_);
    }
  }

  lemma RestAfter<V>(range: set<string>, ks: set<string>, keys: seq<string>, n: nat, j: nat, b: map<string, V>,
                     match_: V -> bool, before: string)
    requires range == Range(ks, before) && "" !in ks && keys == Descending(range) && j < n <= |keys|
    requires Matching(keys[..n][j + 1..], b, match_) == []
    requires Matching(keys[..n][..j + 1], b, match_) == Matching(keys[..n], b, match_)
    ensures keys[j] in range && Matching(keys, b, match_) ==
            Matching(keys[..n], b, match_) + Matching(Descending(Range(ks, keys[j])), b, match_)
  {
    DescendingCut(range, j);
    var k := keys[j];
    RangeIsLower(ks, before);
    assert Below(range, k) == Range(ks, k) by {
      forall x | x in ks && Less(x, k) ensures x in range {
        LessIsTotal(x, k);
      }
    }
    assert keys[..n][..j + 1] == keys[..j + 1];
    assert keys == keys[..j + 1] + keys[j + 1..];
    MatchingJoins(keys[..j + 1], keys[j + 1..], b, match_);
  }

  lemma {:induction false} MatchingHolds<V>(keys: seq<string>, b: map<string, V>, match_: V -> bool, k: string)
    ensures k in Matching(keys, b, match_) <==> k in keys && k in b && match_(b[k])
  {
    if keys != [] {
      MatchingHolds(keys[1..], b, match_, k);
      assert k in keys <==> k == keys[0] || k in keys[1..];
    }
  }

  lemma {:induction false} MatchingDescends<V>(keys: seq<string>, b: map<string, V>, match_: V -> bool)
    requires StrictlyDescending(keys)
    ensures StrictlyDescending(Matching(keys, b, match_))
  {
    if keys != [] {
      var tail := keys[1..];
      var rest := Matching(tail, b, match_);
      MatchingDescends(tail, b, match_);
      forall i | 0 <= i < |rest| ensures Less(rest[i], keys[0]) {
        MatchingHolds(tail, b, match_, rest[i]);
        var j :| 0 <= j < |tail| && tail[j] == rest[i];
        assert Less(keys[j + 1], keys[0]);
      }
      FirstOf(keys[0], rest);
    }
  }

  lemma FirstOf(k: string, rest: seq<string>)
    requires StrictlyDescending(rest) && forall i :: 0 <= i < |rest| ==> Less(rest[i], k)
    ensures StrictlyDescending([k] + rest)
  {
  }

  lemma MatchingIsStrict<V>(keys: seq<string>, b: map<string, V>, match_: V -> bool)
    requires StrictlyDescending(keys)
    ensures StrictlyDescending(Matching(keys, b, match_))
    ensures forall k :: k in Matching(keys, b, match_) <==> k in keys && k in b && match_(b[k])
  {
    MatchingDescends(keys, b, match_);
    forall k ensures k in Matching(keys, b, match_) <==> k in keys && k in b && match_(b[k]) {
      MatchingHolds(keys, b, match_, k);
    }
  }

  lemma {:induction false} BatchIsEmpty<V>(keys: seq<string>, b: map<string, V>, match_: V -> bool,
                                           room: nat, calls: nat)
    requires room > 0 && calls < SCAN_BATCH && |keys| >= SCAN_BATCH - calls
    requires forall k :: k in keys ==> k in b
    requires Matching(keys[..SCAN_BATCH - calls], b, match_) == []
    ensures Walked(keys, b, Listing(match_), calls, room) == ([], true)
    decreases SCAN_BATCH - calls
  {
    var head := keys[..SCAN_BATCH - calls];
    assert head[0] == keys[0] && head[1..] == keys[1..][..SCAN_BATCH - calls - 1];
    assert keys[0] in b && !match_(b[keys[0]]);
    WalkedOn(keys[0], keys[1..], b, Listing(match_), calls, room, []);
    assert [keys[0]] + keys[1..] == keys;
    var w := Walked(keys, b, Listing(match_), calls, room);
    assert [] + w.0 == w.0;
    if calls + 1 < SCAN_BATCH {
      BatchIsEmpty(keys[1..], b, match_, room, calls + 1);
    }
  }

  // Page after page, each before the last id of the one before it, until one says no more or is empty.
  ghost function Chain<V>(b: map<string, V>, before: string, limit: nat, match_: V -> bool): (seq<string>, set<string>)
    requires "" !in b && limit > 0
    decreases Range(b.Keys, before)
  {
    PagesChain(b.Keys, b, before, limit, match_);
    var (page, more) := PageOf(b.Keys, b, before, limit, match_);
    if !more then (page, {})
    else if page == [] then ([], Range(b.Keys, before))
    else
      var last := page[|page| - 1];
      RangeShrinks(b.Keys, before, last);
      var rest := Chain(b, last, limit, match_);
      (page + rest.0, rest.1)
  }

  lemma RangeShrinks(ks: set<string>, before: string, last: string)
    requires last in Range(ks, before) && last != ""
    ensures Range(ks, last) < Range(ks, before)
  {
    LessIsTotal(last, last);
    forall x | x in Range(ks, last) ensures x in Range(ks, before) {
      if before != "" {
        LessIsTransitive(x, last, before);
      }
    }
  }

  /**
   * Following the pages collects every match once and in order, unless it stalls: then a
   * whole batch of entries that do not match stands in the way, and only what is beyond it is missing.
   */
  lemma {:induction false} ChainCollects<V>(b: map<string, V>, before: string, limit: nat, match_: V -> bool)
    requires "" !in b && limit > 0
    ensures var (got, beyond) := Chain(b, before, limit, match_);
            && Matching(Descending(Range(b.Keys, before)), b, match_) == got + Matching(Descending(beyond), b, match_)
            && (beyond != {} ==> |Descending(beyond)| >= SCAN_BATCH
                                 && Matching(Descending(beyond)[..SCAN_BATCH], b, match_) == [])
    decreases Range(b.Keys, before)
  {
    PagesChain(b.Keys, b, before, limit, match_);
    var (page, more) := PageOf(b.Keys, b, before, limit, match_);
    if more && page != [] {
      var last := page[|page| - 1];
      RangeShrinks(b.Keys, before, last);
      ChainCollects(b, last, limit, match_);
    } else {
      assert page + [] == page;
    }
  }

  // ---- pages of a log that changes ---------------------------------------

  predicate InRange(k: string, before: string) {
    before == "" || Less(k, before)
  }

  // What one page holds of one matching key, and where what it holds stands.
  lemma PageHolds<V>(b: map<string, V>, before: string, limit: nat, match_: V -> bool, k: string)
    requires "" !in b && limit > 0
    ensures var (page, more) := PageOf(b.Keys, b, before, limit, match_);
            && (k in page ==> k in b && match_(b[k]) && InRange(k, before))
            && (k in b && match_(b[k]) && InRange(k, before) ==>
                  if !more then k in page else page != [] ==> k in page || Less(k, page[|page| - 1]))
  {
    var ks, keys := b.Keys, Descending(Range(b.Keys, before));
    var (page, more) := PageOf(ks, b, before, limit, match_);
    PagesChain(ks, b, before, limit, match_);
    DescendingIsStrict(Range(ks, before));
    MatchingIsStrict(keys, b, match_);
    if page == [] {
      assert !more ==> page == Matching(keys, b, match_);
    } else {
      var last := page[|page| - 1];
      DescendingIsStrict(Range(ks, last));
      MatchingIsStrict(Descending(Range(ks, last)), b, match_);
      assert "" !in ks && last in ks;
    }
  }

  /**
   * Following the pages, each read from the log as it then stood: what was collected, and what
   * the next page would be read before, or None when the last one said no more.
   */
  ghost function ChainOver<V>(snaps: seq<map<string, V>>, before: string, limit: nat, match_: V -> bool)
    : (seq<string>, Option<string>)
  {
    if snaps == [] then ([], Some(before))
    else
      var (page, more) := PageOf(snaps[0].Keys, snaps[0], before, limit, match_);
      if !more then (page, None)
      else if page == [] then ([], Some(before))
      else
        var rest := ChainOver(snaps[1..], page[|page| - 1], limit, match_);
        (page + rest.0, rest.1)
  }

  ghost predicate Proper<V>(snaps: seq<map<string, V>>) {
    forall i :: 0 <= i < |snaps| ==> "" !in snaps[i]
  }

  // A key the log holds, and that matches, whenever a page is read.
  ghost predicate SteadyMatch<V>(k: string, snaps: seq<map<string, V>>, match_: V -> bool) {
    forall i :: 0 <= i < |snaps| ==> k in snaps[i] && match_(snaps[i][k])
  }

  ghost predicate MatchedIn<V>(k: string, snaps: seq<map<string, V>>, match_: V -> bool) {
    exists i :: 0 <= i < |snaps| && k in snaps[i] && match_(snaps[i][k])
  }

  lemma {:induction false} ChainHolds<V>(snaps: seq<map<string, V>>, before: string, limit: nat,
                                         match_: V -> bool, k: string)
    requires Proper(snaps) && limit > 0
    ensures var (got, next) := ChainOver(snaps, before, limit, match_);
            && (k in got ==> InRange(k, before) && MatchedIn(k, snaps, match_))
            && (SteadyMatch(k, snaps, match_) && InRange(k, before) ==>
                  k in got || (next.Some? && InRange(k, next.value)))
  {
    if snaps != [] {
      var b, later := snaps[0], snaps[1..];
      var (page, more) := PageOf(b.Keys, b, before, limit, match_);
      PageHolds(b, before, limit, match_, k);
      if more && page != [] {
        var last := page[|page| - 1];
        PageHolds(b, before, limit, match_, last);
        ChainHolds(later, last, limit, match_, k);
        assert forall i :: 0 <= i < |later| ==> later[i] == snaps[i + 1];
        if k in ChainOver(later, last, limit, match_).0 && before != "" {
          LessIsTransitive(k, last, before);
        }
      }
    }
  }

  lemma {:induction false} ChainIsStrict<V>(snaps: seq<map<string, V>>, before: string, limit: nat, match_: V -> bool)
    requires Proper(snaps) && limit > 0
    ensures StrictlyDescending(ChainOver(snaps, before, limit, match_).0)
  {
    if snaps != [] {
      var b, later := snaps[0], snaps[1..];
      var (page, more) := PageOf(b.Keys, b, before, limit, match_);
      PagesChain(b.Keys, b, before, limit, match_);
      if more && page != [] {
        var last := page[|page| - 1];
        var rest := ChainOver(later, last, limit, match_).0;
        ChainIsStrict(later, last, limit, match_);
        forall j | 0 <= j < |rest| ensures Less(rest[j], last) {
          ChainHolds(later, last, limit, match_, rest[j]);
          PageHolds(b, before, limit, match_, last);
        }
        DescendingJoins(page, rest);
      }
    }
  }

  lemma DescendingJoins(page: seq<string>, rest: seq<string>)
    requires StrictlyDescending(page) && StrictlyDescending(rest) && page != []
    requires forall j :: 0 <= j < |rest| ==> Less(rest[j], page[|page| - 1])
    ensures StrictlyDescending(page + rest)
  {
    var all, n := page + rest, |page|;
    forall i, j | 0 <= i < j < |all| ensures Less(all[j], all[i]) {
      if i < n - 1 && j >= n {
        LessIsTransitive(all[j], page[n - 1], page[i]);
      }
    }
  }

  /**
   * However the log changes between pages, following them collects keys in strictly descending
   * order, none twice, each one that matched in some page's log; and a key that is there and
   * matches throughout is collected, or is still to come where the pages were left.
   */
  lemma ChangingChainCollects<V>(snaps: seq<map<string, V>>, before: string, limit: nat, match_: V -> bool)
    requires Proper(snaps) && limit > 0
    ensures var (got, next) := ChainOver(snaps, before, limit, match_);
            && StrictlyDescending(got)
            && (forall k :: k in got ==> InRange(k, before) && MatchedIn(k, snaps, match_))
            && (forall k :: SteadyMatch(k, snaps, match_) && InRange(k, before) ==>
                  k in got || (next.Some? && InRange(k, next.value)))
  {
    ChainIsStrict(snaps, before, limit, match_);
    forall k ensures var (got, next) := ChainOver(snaps, before, limit, match_);
                     && (k in got ==> InRange(k, before) && MatchedIn(k, snaps, match_))
                     && (SteadyMatch(k, snaps, match_) && InRange(k, before) ==>
                           k in got || (next.Some? && InRange(k, next.value)))
    {
      ChainHolds(snaps, before, limit, match_, k);
    }
  }

  // ---- a log that stalls -------------------------------------------------

  // Ids of one width, the head that of a UUIDv7.
  function Id(n: nat): string {
    "01890000-0000-7000-8000-" + LogBucket.Digits(n, 12)
  }

  lemma IdsAreOrdered(m: nat, n: nat)
    requires m < 10_000 && n < 10_000
    ensures Less(Id(m), Id(n)) <==> m < n
    ensures Id(m) == Id(n) <==> m == n
  {
    assert LogBucket.Pow10(4) == 10_000 && LogBucket.Pow10(8) == 10_000 * LogBucket.Pow10(4);
    assert LogBucket.Pow10(12) == 10_000 * LogBucket.Pow10(8);
    LogBucket.DigitsAreOrdered(m, n, 12);
    LessWithHead("01890000-0000-7000-8000-", LogBucket.Digits(m, 12), LogBucket.Digits(n, 12));
    assert Id(m)[24..] == LogBucket.Digits(m, 12) && Id(n)[24..] == LogBucket.Digits(n, 12);
  }

  // The log of entries 1 to n, each holding its number.
  function Numbers(n: nat): map<string, nat> {
    if n == 0 then map[] else Numbers(n - 1)[Id(n) := n]
  }

  lemma {:induction false} NumberAt(n: nat, i: nat)
    requires 1 <= i <= n < 10_000
    ensures Id(i) in Numbers(n) && Numbers(n)[Id(i)] == i
  {
    if i < n {
      NumberAt(n - 1, i);
      IdsAreOrdered(i, n);
    }
  }

  lemma {:induction false} NumberOf(n: nat, k: string)
    requires n < 10_000 && k in Numbers(n)
    ensures 1 <= Numbers(n)[k] <= n && k == Id(Numbers(n)[k])
  {
    if k != Id(n) {
      NumberOf(n - 1, k);
    }
  }

  lemma NewestIs(n: nat)
    requires 0 < n < 10_000
    ensures IsGreatest(Some(Id(n)), Numbers(n).Keys) && Id(n) !in Numbers(n - 1)
  {
    var newest := Id(n);
    NumberAt(n, n);
    forall k | k in Numbers(n) && k != newest ensures Less(k, newest) {
      NumberOf(n, k);
      IdsAreOrdered(Numbers(n)[k], n);
    }
    if newest in Numbers(n - 1) {
      NumberOf(n - 1, newest);
      IdsAreOrdered(Numbers(n - 1)[newest], n);
    }
  }

  lemma NumbersDescend(n: nat)
    requires 0 < n < 10_000
    ensures Descending(Numbers(n).Keys) == [Id(n)] + Descending(Numbers(n - 1).Keys)
  {
    NewestIs(n);
    WithoutGreatest(Numbers(n).Keys, Id(n), Numbers(n - 1).Keys);
  }

  lemma WithoutGreatest(ks: set<string>, k: string, rest: set<string>)
    requires IsGreatest(Some(k), ks) && ks == rest + {k} && k !in rest
    ensures Descending(ks) == [k] + Descending(rest)
  {
    GreatestIsUnique(ks, k);
    assert ks - {k} == rest;
  }

  // One more key at the head, which does not match, changes no match.
  lemma MatchingOn(k: string, keys: seq<string>, m: nat, b: map<string, nat>, one: nat -> bool)
    requires k in b && !one(b[k]) && m <= |keys|
    ensures Matching([k] + keys, b, one) == Matching(keys, b, one)
    ensures Matching(([k] + keys)[..m + 1], b, one) == Matching(keys[..m], b, one)
  {
    assert ([k] + keys)[1..] == keys;
    assert ([k] + keys)[..m + 1][1..] == keys[..m];
  }

  predicate IsOne(v: nat) {
    v == 1
  }

  // The ids from n down.
  function Down(n: nat): (ids: seq<string>)
    ensures |ids| == n
  {
    if n == 0 then [] else [Id(n)] + Down(n - 1)
  }

  lemma {:induction false} DescendingIsDown(n: nat)
    requires n < 10_000
    ensures Descending(Numbers(n).Keys) == Down(n)
  {
    if n > 0 {
      NumbersDescend(n);
      DescendingIsDown(n - 1);
    } else {
      assert Numbers(0).Keys == {};
    }
  }

  // Nothing newer than the first entry matches.
  lemma {:induction false} NewerDoNotMatch(n: nat, m: nat, top: nat)
    requires m < n <= top < 10_000
    ensures Matching(Down(n)[..m], Numbers(top), IsOne) == []
    decreases n
  {
    if m > 0 {
      NumberAt(top, n);
      NewerDoNotMatch(n - 1, m - 1, top);
      MatchingOn(Id(n), Down(n - 1), m - 1, Numbers(top), IsOne);
    }
  }

  lemma OneMatches(k: string, b: map<string, nat>)
    requires k in b && b[k] == 1
    ensures Matching([k], b, IsOne) == [k]
  {
    assert [k][1..] == [];
  }

  lemma {:induction false} OnlyTheFirst(n: nat, top: nat)
    requires 0 < n <= top < 10_000
    ensures Matching(Down(n), Numbers(top), IsOne) == [Id(1)]
  {
    NumberAt(top, n);
    if n == 1 {
      assert Down(1) == [Id(1)] + Down(0);
      OneMatches(Id(1), Numbers(top));
    } else {
      OnlyTheFirst(n - 1, top);
      MatchingOn(Id(n), Down(n - 1), 0, Numbers(top), IsOne);
    }
  }

  /**
   * A match behind a whole batch of entries that do not match: the page is empty, says more
   * remain, and leads nowhere.
   */
  lemma AMatchIsNeverReached(n: nat)
    requires SCAN_BATCH < n < 10_000
    ensures var b := Numbers(n);
            && Matching(Descending(Range(b.Keys, "")), b, IsOne) == [Id(1)]
            && PageOf(b.Keys, b, "", 100, IsOne) == ([], true)
            && "" !in b && Chain(b, "", 100, IsOne).0 == []
  {
    var b := Numbers(n);
    if "" in b {
      NumberOf(n, "");
    }
    DescendingIsDown(n);
    NewerDoNotMatch(n, SCAN_BATCH, n);
    OnlyTheFirst(n, n);
    PageStalls(b.Keys, b, "", 100, IsOne);
  }

  // ---- every entry, oldest first, in short transactions -------------------

  const EACH_PAGE: nat := 200

  // One transaction: the keys of a page, ascending, and where it ended.
  method ReadPage(ks: set<string>, after: Option<string>) returns (page: seq<string>)
    ensures |page| <= EACH_PAGE
    ensures forall i :: 0 <= i < |page| ==> page[i] in Beyond(ks, after)
    ensures StrictlyAscending(page)
    ensures forall k :: k in Beyond(ks, after) && k !in page ==>
                          |page| == EACH_PAGE && Less(page[|page| - 1], k)
  {
    var k;
    if after.None? {
      k := First(ks);
    } else {
      k := Seek(ks, after.value);
      if k == after {
        SeekedAfter(ks, after.value);
        k := Next(ks, after.value);
      } else {
        NotThere(ks, after.value, k);
      }
    }
    page := [];
    ghost var left := Beyond(ks, after);
    BeyondIsUpper(ks, after);
    while k.Some? && |page| < EACH_PAGE
      invariant IsLeast(k, left) && Upper(left, ks) && left <= Beyond(ks, after)
      invariant |page| <= EACH_PAGE && StrictlyAscending(page)
      invariant forall x :: x in Beyond(ks, after) <==> x in page || x in left
      invariant left == Beyond(ks, if page == [] then after else Some(page[|page| - 1]))
      invariant forall i, x :: 0 <= i < |page| && x in left ==> Less(page[i], x)
      decreases left
    {
      var key := k.value;
      StepUp(ks, left, key);
      page := page + [key];
      k := Next(ks, key);
      left := Above(ks, key);
    }
  }

  ghost predicate StrictlyAscending(r: seq<string>) {
    forall i, j :: 0 <= i < j < |r| ==> Less(r[i], r[j])
  }

  lemma SeekedAfter(ks: set<string>, after: string)
    ensures after in AtOrAbove(ks, after) ==> Above(ks, after) <= AtOrAbove(ks, after)
  {
    forall x | x in Above(ks, after) ensures x in AtOrAbove(ks, after) {
      LessIsTotal(x, after);
    }
  }

  lemma NotThere(ks: set<string>, after: string, k: Option<string>)
    requires IsLeast(k, AtOrAbove(ks, after)) && k != Some(after)
    ensures AtOrAbove(ks, after) == Above(ks, after)
  {
    LessIsTotal(after, after);
    assert after in ks ==> after in AtOrAbove(ks, after);
    assert after !in ks;
    forall x | x in ks ensures !Less(x, after) <==> Less(after, x) {
      LessIsTotal(x, after);
    }
  }

  // A key the log holds in every transaction of a run.
  ghost predicate Steady<V>(k: string, snaps: seq<map<string, V>>) {
    forall i :: 0 <= i < |snaps| ==> k in snaps[i]
  }

  ghost predicate ReadFrom<V>(entry: (string, V), snaps: seq<map<string, V>>) {
    exists i :: 0 <= i < |snaps| && entry.0 in snaps[i] && snaps[i][entry.0] == entry.1
  }

  function KeysOf<V>(entries: seq<(string, V)>): (r: seq<string>)
    ensures |r| == |entries|
    ensures forall i :: 0 <= i < |r| ==> r[i] == entries[i].0
  {
    seq(|entries|, i requires 0 <= i < |entries| => entries[i].0)
  }

  // Hands the entries of one page on, until one is refused.
  method Deliver<V>(snap: map<string, V>, page: seq<string>, refuse: V -> bool)
    returns (out: seq<(string, V)>, done: bool)
    requires forall i :: 0 <= i < |page| ==> page[i] in snap
    ensures |out| <= |page| && KeysOf(out) == page[..|out|]
    ensures forall i :: 0 <= i < |out| ==> out[i].1 == snap[out[i].0]
    ensures done ==> |out| == |page| && forall i :: 0 <= i < |out| ==> !refuse(out[i].1)
    ensures !done ==> out != [] && refuse(out[|out| - 1].1)
  {
    out, done := [], true;
    for i := 0 to |page|
      invariant |out| == i && KeysOf(out) == page[..i]
      invariant forall k :: 0 <= k < i ==> out[k].1 == snap[out[k].0] && !refuse(out[k].1)
    {
      var e := snap[page[i]];
      out := out + [(page[i], e)];
      if refuse(e) {
        return out, false;
      }
    }
  }

  /**
   * Reads the whole log a page at a time, transaction i seeing snaps[i] and the last
   * snapshot standing once the others are spent. Keys come in strictly ascending order,
   * each with what some transaction held under it, and a key held throughout is read once.
   */
  method Each<V>(snaps: seq<map<string, V>>, refuse: V -> bool) returns (visited: seq<(string, V)>, done: bool)
    requires snaps != []
    ensures StrictlyAscending(KeysOf(visited))
    ensures forall i :: 0 <= i < |visited| ==> ReadFrom(visited[i], snaps)
    ensures done ==> forall k :: Steady(k, snaps) ==> k in KeysOf(visited)
    ensures !done ==> visited != [] && refuse(visited[|visited| - 1].1)
  {
    visited, done := [], true;
    var after: Option<string> := None;
    var t := 0;
    while true
      invariant 0 <= t < |snaps| && Going(visited, snaps, t, after)
      decreases |snaps| - t, Beyond(snaps[|snaps| - 1].Keys, after)
    {
      var page := ReadPage(snaps[t].Keys, after);
      var out, all := Deliver(snaps[t], page, refuse);
      var next := if t + 1 < |snaps| then t + 1 else t;
      Turn(visited, out, page, snaps, t, after, next);
      visited := visited + out;
      if !all {
        return visited, false;
      }
      if |page| < EACH_PAGE {
        return;
      }
      after := Some(page[|page| - 1]);
      t := next;
    }
  }

  // The run so far: what was visited, in order and as read, and what is still to come.
  ghost predicate Going<V>(visited: seq<(string, V)>, snaps: seq<map<string, V>>, t: nat, after: Option<string>)
    requires t < |snaps|
  {
    && StrictlyAscending(KeysOf(visited)) && AllRead(visited, snaps)
    && after == (if visited == [] then None else Some(visited[|visited| - 1].0))
    && OnlyBeyond(KeysOf(visited), snaps, t, after)
  }

  // One page of the run, delivered whole or in part.
  lemma Turn<V>(visited: seq<(string, V)>, out: seq<(string, V)>, page: seq<string>, snaps: seq<map<string, V>>,
                t: nat, after: Option<string>, next: nat)
    requires t < |snaps| && next < |snaps| && Going(visited, snaps, t, after)
    requires StrictlyAscending(page) && forall i :: 0 <= i < |page| ==> page[i] in Beyond(snaps[t].Keys, after)
    requires forall k :: k in Beyond(snaps[t].Keys, after) && k !in page ==>
                           |page| == EACH_PAGE && Less(page[|page| - 1], k)
    requires |out| <= |page| && KeysOf(out) == page[..|out|]
    requires forall i :: 0 <= i < |out| ==> out[i].0 in snaps[t] && out[i].1 == snaps[t][out[i].0]
    ensures StrictlyAscending(KeysOf(visited + out)) && AllRead(visited + out, snaps)
    ensures |out| == |page| < EACH_PAGE ==> forall k :: Steady(k, snaps) ==> k in KeysOf(visited + out)
    ensures |out| == |page| == EACH_PAGE ==>
              var last := Some(page[|page| - 1]);
              && Going(visited + out, snaps, next, last)
              && Beyond(snaps[|snaps| - 1].Keys, last) <= Beyond(snaps[|snaps| - 1].Keys, after)
              && (next == t && t == |snaps| - 1 ==>
                    Beyond(snaps[|snaps| - 1].Keys, last) < Beyond(snaps[|snaps| - 1].Keys, after))
  {
    PageFollows(KeysOf(visited), KeysOf(out), page, snaps[t].Keys, after);
    assert KeysOf(visited + out) == KeysOf(visited) + KeysOf(out);
    StillRead(visited, out, snaps, t);
    if |out| == |page| {
      assert KeysOf(out) == page;
      if |page| == EACH_PAGE {
        BeyondShrinks(snaps[|snaps| - 1].Keys, after, page[|page| - 1], snaps[t].Keys);
        StillBeyond(KeysOf(visited), page, snaps, t, after, next);
      }
    }
  }

  ghost predicate AllRead<V>(visited: seq<(string, V)>, snaps: seq<map<string, V>>) {
    forall i :: 0 <= i < |visited| ==> ReadFrom(visited[i], snaps)
  }

  // Of the keys held throughout, those not visited yet are all still to come.
  ghost predicate OnlyBeyond<V>(visited: seq<string>, snaps: seq<map<string, V>>, t: nat, after: Option<string>)
    requires t < |snaps|
  {
    forall k :: Steady(k, snaps) && k !in visited ==> k in Beyond(snaps[t].Keys, after)
  }

  lemma StillRead<V>(before: seq<(string, V)>, out: seq<(string, V)>, snaps: seq<map<string, V>>, t: nat)
    requires t < |snaps| && AllRead(before, snaps)
    requires forall i :: 0 <= i < |out| ==> out[i].0 in snaps[t] && out[i].1 == snaps[t][out[i].0]
    ensures AllRead(before + out, snaps)
  {
  }

  lemma StillBeyond<V>(visited: seq<string>, page: seq<string>, snaps: seq<map<string, V>>, t: nat,
                       after: Option<string>,
                       u: nat)
    requires t < |snaps| && u < |snaps| && OnlyBeyond(visited, snaps, t, after) && page != []
    requires forall k :: k in Beyond(snaps[t].Keys, after) && k !in page ==> Less(page[|page| - 1], k)
    ensures OnlyBeyond(visited + page, snaps, u, Some(page[|page| - 1]))
  {
    forall k | Steady(k, snaps) && k !in visited + page ensures k in Beyond(snaps[u].Keys, Some(page[|page| - 1])) {
      assert k !in visited && k !in page;
    }
  }

  lemma PageFollows(before: seq<string>, out: seq<string>, page: seq<string>, ks: set<string>, after: Option<string>)
    requires StrictlyAscending(before) && StrictlyAscending(page)
    requires |out| <= |page| && out == page[..|out|]
    requires forall i :: 0 <= i < |page| ==> page[i] in Beyond(ks, after)
    requires if before == [] then after == None else after == Some(before[|before| - 1])
    ensures StrictlyAscending(before + out)
  {
    forall i, j | 0 <= i < j < |before + out| ensures Less((before + out)[i], (before + out)[j]) {
      if i < |before| <= j {
        var last := before[|before| - 1];
        assert Less(last, page[j - |before|]);
        if i < |before| - 1 {
          LessIsTransitive(before[i], last, page[j - |before|]);
        }
      }
    }
  }

  lemma BeyondShrinks(ks: set<string>, after: Option<string>, last: string, seen: set<string>)
    requires last in Beyond(seen, after)
    ensures Beyond(ks, Some(last)) <= Beyond(ks, after)
    ensures seen == ks ==> Beyond(ks, Some(last)) < Beyond(ks, after)
  {
    LessIsTotal(last, last);
    forall x | x in Above(ks, last) ensures x in Beyond(ks, after) {
      if after.Some? {
        LessIsTransitive(after.value, last, x);
      }
    }
  }
}
