/**
 * An ordered bucket: a map whose keys are visited in byte order by a cursor.
 * Each cursor move is specified by the key it lands on.
 */
module Ordered {
  import opened Sequences
  import opened Wrappers

  // ---- the order of keys -------------------------------------------------

  predicate Less(a: string, b: string) {
    b != "" && (a == "" || a[0] < b[0] || (a[0] == b[0] && Less(a[1..], b[1..])))
  }

  // a and b agree for n characters, and then a is over or has the smaller one.
  predicate PartsAt(a: string, b: string, n: nat) {
    n <= |a| && n < |b| && a[..n] == b[..n] && (n == |a| || a[n] < b[n])
  }

  /** The order is that of a dictionary. */
  lemma {:induction false} LessIsDictionary(a: string, b: string)
    ensures Less(a, b) <==> exists n: nat :: PartsAt(a, b, n)
  {
    if b == "" {
    } else if a == "" || a[0] < b[0] {
      assert PartsAt(a, b, 0);
    } else {
      LessIsDictionary(a[1..], b[1..]);
      if Less(a, b) {
        var n: nat :| PartsAt(a[1..], b[1..], n);
        assert a[..n + 1] == [a[0]] + a[1..][..n] && b[..n + 1] == [b[0]] + b[1..][..n];
        assert PartsAt(a, b, n + 1);
      }
      if n: nat :| PartsAt(a, b, n) {
        assert n > 0 ==> a[..n][0] == b[..n][0];
        assert a[1..][..n - 1] == a[..n][1..] && b[1..][..n - 1] == b[..n][1..];
        assert PartsAt(a[1..], b[1..], n - 1);
      }
    }
  }

  lemma {:induction false} LessIsTotal(a: string, b: string)
    ensures Less(a, b) || a == b || Less(b, a)
    ensures !(Less(a, b) && Less(b, a))
    ensures !Less(a, a)
  {
    if a != "" && b != "" {
      LessIsTotal(a[1..], b[1..]);
      LessIsTotal(a[1..], a[1..]);
      assert a == [a[0]] + a[1..] && b == [b[0]] + b[1..];
    } else if a != "" {
      LessIsTotal(a[1..], a[1..]);
    }
  }

  lemma {:induction false} LessIsTransitive(a: string, b: string, c: string)
    requires Less(a, b) && Less(b, c)
    ensures Less(a, c)
  {
    if a != "" && a[0] == b[0] && b[0] == c[0] {
      LessIsTransitive(a[1..], b[1..], c[1..]);
    }
  }

  lemma {:induction false} LessWithHead(head: string, a: string, b: string)
    ensures Less(head + a, head + b) <==> Less(a, b)
  {
    if head == "" {
      assert head + a == a && head + b == b;
    } else {
      assert (head + a)[1..] == head[1..] + a && (head + b)[1..] == head[1..] + b;
      LessWithHead(head[1..], a, b);
    }
  }

  lemma {:induction false} LessByLast(a: string, x: char, b: string, y: char)
    requires |a| == |b|
    ensures Less(a + [x], b + [y]) <==> Less(a, b) || (a == b && x < y)
  {
    if a == "" {
      assert a + [x] == [x] && b + [y] == [y];
    } else {
      assert (a + [x])[1..] == a[1..] + [x] && (b + [y])[1..] == b[1..] + [y];
      LessByLast(a[1..], x, b[1..], y);
      assert a == [a[0]] + a[1..] && b == [b[0]] + b[1..];
    }
  }

  // Order facts for all the keys of a bucket at once.
  lemma OrderOn(ks: set<string>)
    ensures forall a, b :: a in ks && b in ks ==> Less(a, b) || a == b || Less(b, a)
    ensures forall a, b :: a in ks && b in ks && Less(a, b) ==> !Less(b, a) && a != b
    ensures forall a, b, c :: a in ks && b in ks && c in ks && Less(a, b) && Less(b, c) ==> Less(a, c)
  {
    forall a, b | a in ks && b in ks
      ensures Less(a, b) || a == b || Less(b, a)
      ensures Less(a, b) ==> !Less(b, a) && a != b
    {
      LessIsTotal(a, b);
    }
    forall a, b, c | a in ks && b in ks && c in ks && Less(a, b) && Less(b, c) ensures Less(a, c) {
      LessIsTransitive(a, b, c);
    }
  }

  // ---- the cursor --------------------------------------------------------

  ghost predicate IsLeast(k: Option<string>, ks: set<string>) {
    match k
    case None => ks == {}
    case Some(x) => x in ks && forall y :: y in ks && y != x ==> Less(x, y)
  }

  ghost predicate IsGreatest(k: Option<string>, ks: set<string>) {
    match k
    case None => ks == {}
    case Some(x) => x in ks && forall y :: y in ks && y != x ==> Less(y, x)
  }

  function Above(ks: set<string>, k: string): set<string> {
    set x | x in ks && Less(k, x)
  }

  function AtOrAbove(ks: set<string>, k: string): set<string> {
    set x | x in ks && !Less(x, k)
  }

  function Below(ks: set<string>, k: string): set<string> {
    set x | x in ks && Less(x, k)
  }

  method First(ks: set<string>) returns (k: Option<string>)
    ensures IsLeast(k, ks)
  {
    OrderOn(ks);
    var rest := ks;
    k := None;
    while rest != {}
      invariant rest <= ks
      invariant IsLeast(k, ks - rest)
      decreases rest
    {
      var x :| x in rest;
      rest := rest - {x};
      assert ks - rest == (ks - (rest + {x})) + {x};
      if k.None? || Less(x, k.value) {
        k := Some(x);
      }
    }
    assert ks - rest == ks;
  }

  method Last(ks: set<string>) returns (k: Option<string>)
    ensures IsGreatest(k, ks)
  {
    OrderOn(ks);
    var rest := ks;
    k := None;
    while rest != {}
      invariant rest <= ks
      invariant IsGreatest(k, ks - rest)
      decreases rest
    {
      var x :| x in rest;
      rest := rest - {x};
      assert ks - rest == (ks - (rest + {x})) + {x};
      if k.None? || Less(k.value, x) {
        k := Some(x);
      }
    }
    assert ks - rest == ks;
  }

  // The first key at or above from.
  method Seek(ks: set<string>, from: string) returns (k: Option<string>)
    ensures IsLeast(k, AtOrAbove(ks, from))
  {
    k := First(AtOrAbove(ks, from));
  }

  method Next(ks: set<string>, at: string) returns (k: Option<string>)
    ensures IsLeast(k, Above(ks, at))
  {
    k := First(Above(ks, at));
  }

  method Prev(ks: set<string>, at: string) returns (k: Option<string>)
    ensures IsGreatest(k, Below(ks, at))
  {
    k := Last(Below(ks, at));
  }

  function Beyond(ks: set<string>, after: Option<string>): set<string> {
    match after
    case None => ks
    case Some(k) => Above(ks, k)
  }

  // Nothing outside left stands above any of it.
  ghost predicate Upper(left: set<string>, ks: set<string>) {
    left <= ks && forall y, x :: y in left && x in ks && Less(y, x) ==> x in left
  }

  lemma BeyondIsUpper(ks: set<string>, after: Option<string>)
    ensures Upper(Beyond(ks, after), ks)
  {
    forall y, x | y in Beyond(ks, after) && x in ks && Less(y, x) ensures x in Beyond(ks, after) {
      if after.Some? {
        LessIsTransitive(after.value, y, x);
      }
    }
  }

  lemma AtOrAboveIsUpper(ks: set<string>, from: string)
    ensures Upper(AtOrAbove(ks, from), ks)
  {
    forall y, x | y in AtOrAbove(ks, from) && x in ks && Less(y, x) ensures x in AtOrAbove(ks, from) {
      if Less(x, from) {
        LessIsTransitive(y, x, from);
      }
    }
  }

  // Past its least key, what is left is all that stands above that key.
  lemma StepUp(ks: set<string>, left: set<string>, key: string)
    requires Upper(left, ks) && IsLeast(Some(key), left)
    ensures Above(ks, key) == left - {key} && Upper(Above(ks, key), ks) && Above(ks, key) < left
  {
    LessIsTotal(key, key);
    BeyondIsUpper(ks, Some(key));
    forall x | x in Above(ks, key) ensures x in left && x != key {
    }
  }

  // The cursor's next step: past id, what is still to come is what was, less id.
  lemma PassOne(ks: set<string>, last: Option<string>, id: string)
    requires IsLeast(Some(id), Beyond(ks, last))
    ensures Beyond(ks, Some(id)) == Beyond(ks, last) - {id}
    ensures Beyond(ks, Some(id)) < Beyond(ks, last)
    ensures id in ks
  {
    BeyondIsUpper(ks, last);
    StepUp(ks, Beyond(ks, last), id);
  }

  // ---- prefixes ----------------------------------------------------------

  lemma {:induction false} PrefixIsNotAbove(k: string, p: string)
    requires HasPrefix(k, p)
    ensures !Less(k, p)
  {
    if p != "" {
      assert k[0] == p[0] && k[1..][..|p| - 1] == p[1..];
      PrefixIsNotAbove(k[1..], p[1..]);
    }
  }

  /** Keys that share a prefix stand together: nothing without it comes between. */
  lemma {:induction false} PrefixIsContiguous(p: string, a: string, b: string)
    requires !Less(a, p) && Less(a, b) && HasPrefix(b, p)
    ensures HasPrefix(a, p)
  {
    if p != "" {
      assert b[0] == p[0] && b[1..][..|p| - 1] == p[1..];
      PrefixIsContiguous(p[1..], a[1..], b[1..]);
      assert a == [a[0]] + a[1..];
    }
  }
}
