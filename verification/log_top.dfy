/** The highest-ranking entries of a log: a bounded list kept in order by binary search, against a full sort. */
module LogTop {
  import opened Ordered
  import LogScan
  import opened Wrappers

  // An entry as a ranking sees it. rest stands for the fields it does not look at.
  datatype Entry = Entry(id: string, reply: Option<Reply>, rest: int)
  datatype Reply = Reply(durationMs: int, bodySize: nat)

  datatype TopBy = Duration | Size | Unknown(name: string)

  datatype Error = BadRanking(name: string) | NoMatch(why: int)

  // What the match says of an entry: yes or no, or why it could not say.
  datatype Answer = Yes | No | Fault(why: int)

  // ---- the ranking -------------------------------------------------------

  // An entry's score, and when the walk came to it.
  datatype Scored = Scored(score: int, visit: nat)

  predicate Better(a: Scored, b: Scored) {
    a.score > b.score || (a.score == b.score && a.visit > b.visit)
  }

  ghost predicate Ranked(r: seq<Scored>) {
    forall i, j :: 0 <= i < j < |r| ==> Better(r[i], r[j])
  }

  function Rank(e: Entry, of: TopBy): int {
    if e.reply.None? then -1
    else if of == Size then e.reply.value.bodySize
    else e.reply.value.durationMs
  }

  // What one visit adds to the ranking, if anything.
  function Candidate(e: Entry, visit: nat, answer: Answer, of: TopBy): seq<Scored> {
    if answer.Yes? && Rank(e, of) >= 0 then [Scored(Rank(e, of), visit)] else []
  }

  // What there is to rank among the first n entries, in the order they are visited.
  function Candidates(entries: seq<Entry>, n: nat, answers: seq<Answer>, of: TopBy): seq<Scored>
    requires n <= |entries| == |answers|
  {
    if n == 0 then []
    else Candidates(entries, n - 1, answers, of) + Candidate(entries[n - 1], n - 1, answers[n - 1], of)
  }

  ghost predicate InVisitOrder(c: seq<Scored>, n: nat) {
    && (forall i, j :: 0 <= i < j < |c| ==> c[i].visit < c[j].visit)
    && (forall x :: x in c ==> x.visit < n)
  }

  lemma {:induction false} CandidatesOrdered(entries: seq<Entry>, n: nat, answers: seq<Answer>, of: TopBy)
    requires n <= |entries| == |answers|
    ensures InVisitOrder(Candidates(entries, n, answers, of), n)
  {
    if n > 0 {
      CandidatesOrdered(entries, n - 1, answers, of);
      StaysInVisitOrder(Candidates(entries, n - 1, answers, of),
                        Candidate(entries[n - 1], n - 1, answers[n - 1], of), n - 1);
    }
  }

  lemma {:induction false} CandidateIs(entries: seq<Entry>, n: nat, answers: seq<Answer>, of: TopBy, x: Scored)
    requires n <= |entries| == |answers|
    ensures x in Candidates(entries, n, answers, of) <==>
            x.visit < n && [x] == Candidate(entries[x.visit], x.visit, answers[x.visit], of)
  {
    if n > 0 {
      CandidateIs(entries, n - 1, answers, of, x);
      InOneMore(Candidates(entries, n - 1, answers, of), Candidate(entries[n - 1], n - 1, answers[n - 1], of), x);
    }
  }

  lemma InOneMore(before: seq<Scored>, more: seq<Scored>, x: Scored)
    requires |more| <= 1
    ensures x in before + more <==> x in before || more == [x]
  {
  }

  lemma StaysInVisitOrder(before: seq<Scored>, more: seq<Scored>, n: nat)
    requires InVisitOrder(before, n) && |more| <= 1 && (more != [] ==> more[0].visit == n)
    ensures InVisitOrder(before + more, n + 1)
  {
    forall x | x in before + more ensures x.visit < n + 1 {
      assert x in before || x in more;
    }
  }

  function Put<T>(s: seq<T>, at: nat, x: T): (r: seq<T>)
    requires at <= |s|
    ensures |r| == |s| + 1
    ensures forall i :: 0 <= i < |r| ==> r[i] == if i < at then s[i] else if i == at then x else s[i - 1]
  {
    s[..at] + [x] + s[at..]
  }

  function Short<T>(s: seq<T>, limit: nat): (r: seq<T>)
    ensures |r| <= |s| && forall i :: 0 <= i < |r| ==> r[i] == s[i]
  {
    if |s| > limit then s[..limit] else s
  }

  // ---- the full sort -----------------------------------------------------

  function Inserted(r: seq<Scored>, x: Scored): (s: seq<Scored>)
    ensures |s| == |r| + 1
  {
    if r == [] || Better(x, r[0]) then [x] + r else [r[0]] + Inserted(r[1..], x)
  }

  function Sorted(c: seq<Scored>): (s: seq<Scored>)
    ensures |s| == |c|
  {
    if c == [] then [] else Inserted(Sorted(c[..|c| - 1]), c[|c| - 1])
  }

  lemma {:induction false} InsertedIsRanked(r: seq<Scored>, x: Scored)
    requires Ranked(r) && forall y :: y in r ==> Better(y, x) || Better(x, y)
    ensures Ranked(Inserted(r, x))
    ensures forall y :: y in Inserted(r, x) <==> y == x || y in r
  {
    if r != [] {
      assert r == [r[0]] + r[1..];
      if !Better(x, r[0]) {
        InsertedIsRanked(r[1..], x);
        var s := Inserted(r[1..], x);
        forall i | 0 <= i < |s| ensures Better(r[0], s[i]) {
          assert s[i] in s;
        }
      }
    }
  }

  /** The full sort ranks every candidate once. */
  lemma {:induction false} SortedIsRanked(c: seq<Scored>, n: nat)
    requires InVisitOrder(c, n)
    ensures Ranked(Sorted(c)) && forall x :: x in Sorted(c) <==> x in c
  {
    if c != [] {
      var head, last := c[..|c| - 1], c[|c| - 1];
      SortedIsRanked(head, n);
      assert c == head + [last];
      forall y | y in Sorted(head) ensures Better(y, last) || Better(last, y) {
        assert y in head;
      }
      InsertedIsRanked(Sorted(head), last);
    }
  }

  /** A ranking is settled by what is in it: no other order is one. */
  lemma {:induction false} RankingIsUnique(a: seq<Scored>, b: seq<Scored>)
    requires Ranked(a) && Ranked(b) && forall x :: x in a <==> x in b
    ensures a == b
  {
    assert |b| > 0 ==> b[0] in b;
    if a != [] {
      assert a[0] in b && b[0] in a;
      var i :| 0 <= i < |b| && b[i] == a[0];
      var j :| 0 <= j < |a| && a[j] == b[0];
      assert i == 0;
      forall x ensures x in a[1..] <==> x in b[1..] {
        assert x in a <==> x == a[0] || x in a[1..];
        assert x in b <==> x == b[0] || x in b[1..];
      }
      RankingIsUnique(a[1..], b[1..]);
      assert a == [a[0]] + a[1..] && b == [b[0]] + b[1..];
    }
  }

  // ---- the bounded list --------------------------------------------------

  // Dropping what does not fit before an insertion loses nothing that would have stayed.
  lemma {:induction false} CutCommutes(r: seq<Scored>, x: Scored, limit: nat)
    ensures Short(Inserted(Short(r, limit), x), limit) == Short(Inserted(r, x), limit)
  {
    if |r| > limit {
      if limit > 0 && !Better(x, r[0]) {
        CutCommutes(r[1..], x, limit - 1);
        assert r[..limit][1..] == r[1..][..limit - 1];
      }
    }
  }

  lemma {:induction false} InsertedBetween(a: seq<Scored>, x: Scored, b: seq<Scored>)
    requires forall i :: 0 <= i < |a| ==> !Better(x, a[i])
    requires b != [] ==> Better(x, b[0])
    ensures Inserted(a + b, x) == a + [x] + b
  {
    if a == [] {
      assert a + b == b;
    } else {
      InsertedBetween(a[1..], x, b);
      assert (a + b)[1..] == a[1..] + b;
      assert a + [x] + b == [a[0]] + (a[1..] + [x] + b);
    }
  }

  // The first score that want beats or equals, in scores that fall.
  method BinarySearch(scores: seq<int>, want: int) returns (at: nat)
    requires Falling(scores)
    ensures Splits(scores, want, at)
  {
    at := 0;
    var end := |scores|;
    while at < end
      invariant 0 <= at <= end <= |scores|
      invariant forall i :: 0 <= i < at ==> scores[i] > want
      invariant forall i :: end <= i < |scores| ==> scores[i] <= want
    {
      var h := (at + end) / 2;
      if want < scores[h] {
        at := h + 1;
      } else {
        end := h;
      }
    }
  }

  // The scores and the entries kept beside a ranking of the first n visits are the ranking's own.
  ghost predicate Lists(scores: seq<int>, out: seq<Entry>, r: seq<Scored>, entries: seq<Entry>, n: nat) {
    && |scores| == |out| == |r| && n <= |entries|
    && forall i :: 0 <= i < |r| ==> scores[i] == r[i].score && r[i].visit < n && out[i] == entries[r[i].visit]
  }

  // Where the search puts x among scores that fall.
  ghost predicate Splits(scores: seq<int>, want: int, at: nat) {
    && at <= |scores|
    && (forall i :: 0 <= i < at ==> scores[i] > want)
    && (forall i :: at <= i < |scores| ==> scores[i] <= want)
  }

  ghost predicate Falling(scores: seq<int>) {
    forall i, j :: 0 <= i < j < |scores| ==> scores[i] >= scores[j]
  }

  lemma ListsShort(scores: seq<int>, out: seq<Entry>, r: seq<Scored>, entries: seq<Entry>, n: nat, limit: nat)
    requires Lists(scores, out, r, entries, n)
    ensures Lists(Short(scores, limit), Short(out, limit), Short(r, limit), entries, n)
  {
  }

  lemma ListsPut(scores: seq<int>, out: seq<Entry>, r: seq<Scored>, entries: seq<Entry>, x: Scored, at: nat)
    requires Lists(scores, out, r, entries, x.visit) && x.visit < |entries| && at <= |r|
    ensures Lists(Put(scores, at, x.score), Put(out, at, entries[x.visit]), Put(r, at, x), entries, x.visit + 1)
  {
  }

  lemma FallingPut(scores: seq<int>, want: int, at: nat)
    requires Falling(scores) && Splits(scores, want, at)
    ensures Falling(Put(scores, at, want))
  {
  }

  // Where the search says is where the sort inserts.
  lemma Place(scores: seq<int>, out: seq<Entry>, r: seq<Scored>, entries: seq<Entry>, x: Scored, at: nat)
    requires Lists(scores, out, r, entries, x.visit) && Splits(scores, x.score, at)
    ensures Inserted(r, x) == Put(r, at, x)
  {
    forall i | 0 <= i < at ensures !Better(x, r[i]) {
      assert scores[i] == r[i].score;
    }
    if at < |r| {
      assert scores[at] == r[at].score && r[at].visit < x.visit;
    }
    InsertedBetween(r[..at], x, r[at..]);
    assert r[..at] + r[at..] == r;
  }

  // The best of what was visited, with a candidate more or without.
  function Grown(r: seq<Scored>, more: seq<Scored>, limit: nat): seq<Scored> {
    if more == [] then r else Short(Inserted(r, more[0]), limit)
  }

  function Best(entries: seq<Entry>, n: nat, answers: seq<Answer>, of: TopBy, limit: nat): seq<Scored>
    requires n <= |entries| == |answers|
  {
    Short(Sorted(Candidates(entries, n, answers, of)), limit)
  }

  lemma BestGrows(entries: seq<Entry>, n: nat, answers: seq<Answer>, of: TopBy, limit: nat)
    requires n < |entries| == |answers|
    ensures Best(entries, n + 1, answers, of, limit) ==
            Grown(Best(entries, n, answers, of, limit), Candidate(entries[n], n, answers[n], of), limit)
  {
    var c, more := Candidates(entries, n, answers, of), Candidate(entries[n], n, answers[n], of);
    if more == [] {
      assert c + more == c;
    } else {
      assert (c + more)[..|c|] == c;
      CutCommutes(Sorted(c), more[0], limit);
    }
  }

  // One visit of the walk.
  method Consider(scores: seq<int>, out: seq<Entry>, e: Entry, answer: Answer, of: TopBy, limit: nat,
                  ghost r: seq<Scored>, ghost entries: seq<Entry>, ghost n: nat)
    returns (scores': seq<int>, out': seq<Entry>)
    requires n < |entries| && e == entries[n]
    requires Lists(scores, out, r, entries, n) && Falling(scores) && |scores| <= limit
    ensures Lists(scores', out', Grown(r, Candidate(e, n, answer, of), limit), entries, n + 1)
    ensures Falling(scores') && |scores'| <= limit
  {
    scores', out' := scores, out;
    var score := Rank(e, of);
    if !answer.Yes? || score < 0 {
      return;
    }
    var at := BinarySearch(scores, score);
    Place(scores, out, r, entries, Scored(score, n), at);
    ListsPut(scores, out, r, entries, Scored(score, n), at);
    FallingPut(scores, score, at);
    scores', out' := Put(scores, at, score), Put(out, at, e);
    ListsShort(scores', out', Put(r, at, Scored(score, n)), entries, n + 1, limit);
    if |out'| > limit {
      scores', out' := scores'[..limit], out'[..limit];
    }
  }

  // r is the entries of a ranking.
  ghost predicate EntriesOf(r: seq<Entry>, best: seq<Scored>, entries: seq<Entry>) {
    |r| == |best| && forall i :: 0 <= i < |best| ==> best[i].visit < |entries| && r[i] == entries[best[i].visit]
  }

  lemma ListsAreEntries(scores: seq<int>, out: seq<Entry>, r: seq<Scored>, entries: seq<Entry>)
    requires Lists(scores, out, r, entries, |entries|)
    ensures EntriesOf(out, r, entries)
  {
  }

  ghost predicate NoFault(answers: seq<Answer>, n: nat)
    requires n <= |answers|
  {
    forall i :: 0 <= i < n ==> !answers[i].Fault?
  }

  // The first entry that cannot be matched, and why.
  ghost predicate FirstFault(answers: seq<Answer>, i: nat, why: int) {
    i < |answers| && answers[i] == Fault(why) && NoFault(answers, i)
  }

  /**
   * Top keeps the first limit entries of the full sort by score, highest first and the
   * later visited first among equals, over the matching entries that have a score.
   * answers is what the match says of each entry.
   */
  method Top(entries: seq<Entry>, answers: seq<Answer>, of: TopBy, limit: int)
    returns (r: Result<seq<Entry>, Error>, ghost at: nat)
    requires |answers| == |entries|
    ensures of.Unknown? <==> r.Err? && r.error.BadRanking?
    ensures r.Err? && r.error.NoMatch? ==> FirstFault(answers, at, r.error.why)
    ensures r.Ok? ==> NoFault(answers, |entries|)
    ensures r.Ok? ==>
              EntriesOf(r.value, Best(entries, |entries|, answers, of, LogScan.ClampLimit(limit, 20, 200)), entries)
  {
    if of.Unknown? {
      return Err(BadRanking(of.name)), 0;
    }
    var most := LogScan.ClampLimit(limit, 20, 200);
    var scores: seq<int>, out: seq<Entry> := [], [];
    for n := 0 to |entries|
      invariant Lists(scores, out, Best(entries, n, answers, of, most), entries, n)
      invariant Falling(scores) && |scores| <= most && NoFault(answers, n)
    {
      BestGrows(entries, n, answers, of, most);
      var answer := answers[n];
      if answer.Fault? {
        return Err(NoMatch(answer.why)), n;
      }
      scores, out := Consider(scores, out, entries[n], answer, of, most,
                              Best(entries, n, answers, of, most), entries, n);
    }
    ListsAreEntries(scores, out, Best(entries, |entries|, answers, of, most), entries);
    r, at := Ok(out), |entries|;
  }

  /**
   * What there is to rank: the entries the match says yes to that have a reply and a figure that is not negative,
   * the size of its body or how long it took, each with the place it was visited at.
   */
  lemma WhatIsRanked(entries: seq<Entry>, answers: seq<Answer>, of: TopBy, x: Scored)
    requires |answers| == |entries|
    ensures x in Candidates(entries, |entries|, answers, of) <==>
            && x.visit < |entries| && answers[x.visit] == Yes && entries[x.visit].reply.Some? && x.score >= 0
            && x.score == match of
                          case Size => entries[x.visit].reply.value.bodySize
                          case _ => entries[x.visit].reply.value.durationMs
  {
    CandidateIs(entries, |entries|, answers, of, x);
  }

  /** What Top keeps: as many as fit, in order, and nothing left out is better than anything kept. */
  lemma TopIsBest(entries: seq<Entry>, answers: seq<Answer>, of: TopBy, limit: nat)
    requires |answers| == |entries|
    ensures var c := Candidates(entries, |entries|, answers, of);
            var best := Best(entries, |entries|, answers, of, limit);
            && |best| == (if |c| > limit then limit else |c|)
            && Ranked(best)
            && (forall x :: x in best ==> x in c)
            && (forall x, y :: x in best && y in c && y !in best ==> Better(x, y))
  {
    var c := Candidates(entries, |entries|, answers, of);
    CandidatesOrdered(entries, |entries|, answers, of);
    SortedIsRanked(c, |entries|);
    CutIsBest(Sorted(c), limit);
  }

  lemma CutIsBest(s: seq<Scored>, limit: nat)
    requires Ranked(s)
    ensures var best := Short(s, limit);
            && Ranked(best)
            && (forall x :: x in best ==> x in s)
            && (forall x, y :: x in best && y in s && y !in best ==> Better(x, y))
  {
    var best := Short(s, limit);
    assert best == s[..|best|];
    assert forall j :: 0 <= j < |best| ==> s[j] == best[j] && s[j] in best;
    forall x, y | x in best && y in s && y !in best ensures Better(x, y) {
      var i :| 0 <= i < |best| && best[i] == x;
      var j :| 0 <= j < |s| && s[j] == y;
    }
  }
}
