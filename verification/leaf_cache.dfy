/**
 * The bounded cache of leaf certificates: a map and a use list under one lock,
 * with minting outside the lock.
 */
module LeafCache {
  import opened Sequences
  import opened Wrappers

  // Times are nanoseconds.
  const HOUR := 3_600_000_000_000
  const LEAF_MARGIN := HOUR
  const MAX_CACHED_LEAVES: nat := 1000

  datatype Cert = Cert(host: string, notAfter: int, serial: nat)

  // Too near its end to hand out.
  predicate Fresh(c: Cert, now: int) {
    c.notAfter - now > LEAF_MARGIN
  }

  // ---- the cache as a list of leaves, most recently used first -----------

  function Take<T>(s: seq<T>, n: nat): seq<T> {
    if |s| <= n then s else s[..n]
  }

  function Hosts(es: seq<Cert>): (r: seq<string>)
    ensures |r| == |es|
    ensures forall i :: 0 <= i < |es| ==> r[i] == es[i].host
  {
    seq(|es|, i requires 0 <= i < |es| => es[i].host)
  }

  function Find(es: seq<Cert>, host: string): (r: Option<Cert>)
    ensures r.None? <==> host !in Hosts(es)
    ensures r.Some? ==> r.value in es && r.value.host == host
  {
    if es == [] then None
    else if es[0].host == host then Some(es[0])
    else
      assert Hosts(es) == [es[0].host] + Hosts(es[1..]);
      Find(es[1..], host)
  }

  function Without(es: seq<Cert>, host: string): seq<Cert> {
    if es == [] then []
    else if es[0].host == host then Without(es[1..], host)
    else [es[0]] + Without(es[1..], host)
  }

  // c is used: it comes first, stands for its host alone, and the last one over the limit goes.
  function Use(es: seq<Cert>, c: Cert): seq<Cert> {
    Take([c] + Without(es, c.host), MAX_CACHED_LEAVES)
  }

  function Usable(es: seq<Cert>, host: string, now: int): Option<Cert> {
    match Find(es, host)
    case Some(c) => if Fresh(c, now) then Some(c) else None
    case None => None
  }

  // What a lookup leaves behind, and what a commit of a freshly minted leaf answers.
  function AfterLookup(es: seq<Cert>, host: string, now: int): seq<Cert> {
    match Usable(es, host, now)
    case Some(c) => Use(es, c)
    case None => es
  }

  function Committed(es: seq<Cert>, c: Cert, now: int): Cert {
    match Usable(es, c.host, now)
    case Some(have) => have
    case None => c
  }

  lemma {:induction false} FindsTheOne(es: seq<Cert>, i: nat)
    requires i < |es| && forall k :: 0 <= k < i ==> es[k].host != es[i].host
    ensures Find(es, es[i].host) == Some(es[i])
  {
    if i > 0 {
      assert es[0].host != es[i].host;
      FindsTheOne(es[1..], i - 1);
    }
  }

  lemma {:induction false} WithoutKeepsOthers(es: seq<Cert>, host: string)
    ensures forall f :: f in Without(es, host) <==> f in es && f.host != host
  {
    if es != [] {
      WithoutKeepsOthers(es[1..], host);
      assert es == [es[0]] + es[1..];
    }
  }

  // c comes first and alone for its host; what else is there was there before.
  ghost predicate Fronts(before: seq<Cert>, now: seq<Cert>, c: Cert) {
    && now != [] && now[0] == c
    && (forall f :: f in now ==> f == c || (f in before && f.host != c.host))
    && (|before| < MAX_CACHED_LEAVES ==> forall f :: f in before && f.host != c.host ==> f in now)
  }

  lemma {:induction false} WithoutIsShort(es: seq<Cert>, host: string)
    ensures |Without(es, host)| <= |es|
  {
    if es != [] {
      WithoutIsShort(es[1..], host);
    }
  }

  lemma UseFronts(es: seq<Cert>, c: Cert)
    ensures Fronts(es, Use(es, c), c)
  {
    WithoutKeepsOthers(es, c.host);
    WithoutIsShort(es, c.host);
  }

  // What a lookup or a commit goes by: a leaf with more than the margin left to run, wherever it stands.
  lemma UsableIsWhatIsThere(es: seq<Cert>, host: string, now: int)
    requires Distinct(Hosts(es))
    ensures forall e :: e in es && e.host == host && e.notAfter - now > LEAF_MARGIN ==>
              Usable(es, host, now) == Some(e)
    ensures (forall e :: e in es && e.host == host ==> e.notAfter - now <= LEAF_MARGIN) ==>
              Usable(es, host, now) == None
  {
    forall e | e in es && e.host == host ensures Find(es, host) == Some(e) {
      var i :| 0 <= i < |es| && es[i] == e;
      forall k | 0 <= k < i ensures es[k].host != e.host {
        assert Hosts(es)[k] != Hosts(es)[i];
      }
      FindsTheOne(es, i);
    }
  }

  // ---- the cache as the source keeps it ----------------------------------

  // One link of the use list.
  class Element {
    const host: string

    constructor (host: string)
      ensures this.host == host
    {
      this.host := host;
    }
  }

  datatype Entry = Entry(cert: Cert, at: Element)

  // Every link is the one the map holds for its host.
  ghost predicate Chained(order: seq<Element>, cache: map<string, Entry>) {
    && (forall i :: 0 <= i < |order| ==> order[i].host in cache && cache[order[i].host].at == order[i])
    && (forall i, j :: 0 <= i < j < |order| ==> order[i] != order[j])
    && (forall h :: h in cache ==> cache[h].at.host == h && cache[h].cert.host == h)
  }

  // The map and the list index each other one to one.
  ghost predicate Linked(order: seq<Element>, cache: map<string, Entry>) {
    Chained(order, cache) && forall h :: h in cache ==> cache[h].at in order
  }

  ghost function CertsOf(order: seq<Element>, cache: map<string, Entry>): (es: seq<Cert>)
    requires Chained(order, cache)
    ensures |es| == |order|
  {
    seq(|order|, i requires 0 <= i < |order| => cache[order[i].host].cert)
  }

  function Minus(order: seq<Element>, e: Element): (r: seq<Element>)
    ensures forall i :: 0 <= i < |r| ==> r[i] in order && r[i] != e
    ensures forall i :: 0 <= i < |order| ==> order[i] == e || order[i] in r
  {
    if order == [] then []
    else if order[0] == e then Minus(order[1..], e)
    else [order[0]] + Minus(order[1..], e)
  }

  lemma {:induction false} FindInChain(order: seq<Element>, cache: map<string, Entry>, host: string)
    requires Chained(order, cache)
    ensures Find(CertsOf(order, cache), host) ==
            if host in cache && cache[host].at in order then Some(cache[host].cert) else None
  {
    if order != [] {
      var es := CertsOf(order, cache);
      FindInChain(order[1..], cache, host);
      assert es[1..] == CertsOf(order[1..], cache);
    }
  }

  lemma {:induction false} MinusFacts(order: seq<Element>, e: Element)
    requires forall i, j :: 0 <= i < j < |order| ==> order[i] != order[j]
    ensures forall i, j :: 0 <= i < j < |Minus(order, e)| ==> Minus(order, e)[i] != Minus(order, e)[j]
    ensures |Minus(order, e)| == |order| - if e in order then 1 else 0
  {
    if order != [] {
      MinusFacts(order[1..], e);
      assert order[0] !in order[1..];
    }
  }

  lemma MinusIsChained(order: seq<Element>, cache: map<string, Entry>, e: Element)
    requires Chained(order, cache)
    ensures Chained(Minus(order, e), cache)
  {
    MinusFacts(order, e);
    var r := Minus(order, e);
    forall i | 0 <= i < |r| ensures r[i].host in cache && cache[r[i].host].at == r[i] {
      assert r[i] in order;
    }
  }

  lemma {:induction false} MinusIsWithout(order: seq<Element>, cache: map<string, Entry>, e: Element)
    requires Chained(order, cache) && Chained(Minus(order, e), cache)
    requires e.host in cache && cache[e.host].at == e
    ensures CertsOf(Minus(order, e), cache) == Without(CertsOf(order, cache), e.host)
  {
    if order != [] {
      var es, tail := CertsOf(order, cache), order[1..];
      MinusIsChained(tail, cache, e);
      MinusIsWithout(tail, cache, e);
      assert es[1..] == CertsOf(tail, cache) && es[0].host == order[0].host;
      if order[0] != e {
        ChainCons(Minus(tail, e), cache, order[0]);
      }
    }
  }

  lemma ChainCons(rest: seq<Element>, cache: map<string, Entry>, e: Element)
    requires Chained(rest, cache) && e.host in cache && cache[e.host].at == e && e !in rest
    ensures Chained([e] + rest, cache)
    ensures CertsOf([e] + rest, cache) == [cache[e.host].cert] + CertsOf(rest, cache)
  {
  }

  // A new leaf for a host changes no link, and only that host's entry.
  lemma CertsFollow(order: seq<Element>, cache: map<string, Entry>, e: Element, c: Cert)
    requires Chained(order, cache) && c.host == e.host
    requires forall i :: 0 <= i < |order| ==> order[i].host != e.host
    ensures Chained(order, cache[e.host := Entry(c, e)])
    ensures CertsOf(order, cache[e.host := Entry(c, e)]) == CertsOf(order, cache)
  {
  }

  lemma UseMoves(order: seq<Element>, cache: map<string, Entry>, host: string, c: Cert)
    requires Linked(order, cache) && host in cache && c.host == host
    ensures var e := cache[host].at;
            var order', cache' := [e] + Minus(order, e), cache[host := Entry(c, e)];
            && Linked(order', cache') && |order'| == |order|
            && CertsOf(order', cache') == [c] + Without(CertsOf(order, cache), host)
  {
    var e := cache[host].at;
    var rest, cache' := Minus(order, e), cache[host := Entry(c, e)];
    MinusFacts(order, e);
    MinusIsChained(order, cache, e);
    MinusIsWithout(order, cache, e);
    forall i | 0 <= i < |rest| ensures rest[i].host != host {
      assert cache[rest[i].host].at == rest[i];
    }
    CertsFollow(rest, cache, e, c);
    ChainCons(rest, cache', e);
    forall h | h in cache' ensures cache'[h].at in [e] + rest {
      assert h != host ==> cache[h].at in order && cache[h].at != e;
    }
  }

  lemma {:induction false} WithoutAbsent(es: seq<Cert>, host: string)
    requires host !in Hosts(es)
    ensures Without(es, host) == es
  {
    if es != [] {
      assert Hosts(es) == [es[0].host] + Hosts(es[1..]);
      WithoutAbsent(es[1..], host);
    }
  }

  lemma UsePushes(order: seq<Element>, cache: map<string, Entry>, e: Element, c: Cert)
    requires Linked(order, cache) && e.host !in cache && c.host == e.host
    ensures var order', cache' := [e] + order, cache[e.host := Entry(c, e)];
            && Linked(order', cache')
            && CertsOf(order', cache') == [c] + Without(CertsOf(order, cache), e.host)
  {
    FindInChain(order, cache, e.host);
    WithoutAbsent(CertsOf(order, cache), e.host);
    CertsFollow(order, cache, e, c);
    ChainCons(order, cache[e.host := Entry(c, e)], e);
  }

  lemma Evicts(order: seq<Element>, cache: map<string, Entry>)
    requires Linked(order, cache) && order != []
    ensures var n := |order| - 1;
            && Linked(order[..n], cache - {order[n].host})
            && CertsOf(order[..n], cache - {order[n].host}) == CertsOf(order, cache)[..n]
  {
    var n := |order| - 1;
    forall i | 0 <= i < n ensures order[i].host != order[n].host {
      assert cache[order[i].host].at == order[i];
    }
  }

  lemma HostsAreDistinct(order: seq<Element>, cache: map<string, Entry>)
    requires Linked(order, cache)
    ensures Distinct(Hosts(CertsOf(order, cache)))
  {
    forall i, j | 0 <= i < j < |order| ensures order[i].host != order[j].host {
      assert cache[order[i].host].at == order[i] && cache[order[j].host].at == order[j];
    }
  }

  lemma TakeOnce<T>(s: seq<T>, n: nat)
    requires |s| > n
    ensures Take(s[..|s| - 1], n) == Take(s, n)
  {
  }

  // On the way to a list of leaves: what is over the limit has yet to go.
  ghost predicate Evicting(order: seq<Element>, cache: map<string, Entry>, used: seq<Cert>) {
    Linked(order, cache) && Take(CertsOf(order, cache), MAX_CACHED_LEAVES) == used
  }

  lemma EvictsOldest(order: seq<Element>, cache: map<string, Entry>, used: seq<Cert>)
    requires Evicting(order, cache, used) && |order| > MAX_CACHED_LEAVES
    ensures Evicting(order[..|order| - 1], cache - {order[|order| - 1].host}, used)
  {
    Evicts(order, cache);
    TakeOnce(CertsOf(order, cache), MAX_CACHED_LEAVES);
  }

  class Authority {
    var cache: map<string, Entry>
    var order: seq<Element>

    ghost predicate Valid()
      reads this
    {
      Linked(order, cache) && |order| <= MAX_CACHED_LEAVES
    }

    ghost function Leaves(): (es: seq<Cert>)
      requires Valid()
      reads this
    {
      CertsOf(order, cache)
    }

    constructor ()
      ensures Valid() && Leaves() == []
    {
      cache, order := map[], [];
    }

    method MoveToFront(e: Element)
      modifies this`order
      ensures order == [e] + Minus(old(order), e)
    {
      order := [e] + Minus(order, e);
    }

    // A lookup under the lock: a hit is moved to the front, and near expiry is a miss.
    method Cached(host: string, now: int) returns (c: Option<Cert>)
      requires Valid()
      modifies this
      ensures Valid()
      ensures c == Usable(old(Leaves()), host, now)
      ensures Leaves() == AfterLookup(old(Leaves()), host, now)
      ensures forall e :: e in old(Leaves()) && e.host == host && e.notAfter - now > LEAF_MARGIN ==> c == Some(e)
      ensures (forall e :: e in old(Leaves()) && e.host == host ==> e.notAfter - now <= LEAF_MARGIN) ==>
                c == None && Leaves() == old(Leaves())
    {
      HostsAreDistinct(order, cache);
      UsableIsWhatIsThere(Leaves(), host, now);
      FindInChain(order, cache, host);
      if host !in cache {
        return None;
      }
      var e := cache[host];
      if e.cert.notAfter - now <= LEAF_MARGIN {
        return None;
      }
      UseMoves(order, cache, host, e.cert);
      assert cache[host := Entry(e.cert, e.at)] == cache;
      MoveToFront(e.at);
      c := Some(e.cert);
    }

    method Store(host: string, c: Cert)
      requires Valid() && c.host == host
      modifies this
      ensures Valid()
      ensures Leaves() == Use(old(Leaves()), c)
    {
      ghost var es := Leaves();
      if host in cache {
        var have := cache[host];
        UseMoves(order, cache, host, c);
        cache := cache[host := Entry(c, have.at)];
        MoveToFront(have.at);
        return;
      }
      var e := new Element(host);
      UsePushes(order, cache, e, c);
      cache := cache[host := Entry(c, e)];
      order := [e] + order;
      while |order| > MAX_CACHED_LEAVES
        invariant Evicting(order, cache, Use(es, c))
      {
        var oldest := order[|order| - 1];
        EvictsOldest(order, cache, Use(es, c));
        order := order[..|order| - 1];
        cache := cache - {oldest.host};
      }
    }

    // The end of a Leaf call that missed: another caller may have committed first.
    method Commit(c: Cert, now: int) returns (r: Cert)
      requires Valid()
      modifies this
      ensures Valid()
      ensures r == Committed(old(Leaves()), c, now)
      ensures Leaves() == Use(old(Leaves()), r) && Fronts(old(Leaves()), Leaves(), r)
      ensures forall e :: e in old(Leaves()) && e.host == c.host && e.notAfter - now > LEAF_MARGIN ==> r == e
      ensures (forall e :: e in old(Leaves()) && e.host == c.host ==> e.notAfter - now <= LEAF_MARGIN) ==> r == c
    {
      HostsAreDistinct(order, cache);
      UsableIsWhatIsThere(Leaves(), c.host, now);
      UseFronts(Leaves(), Committed(Leaves(), c, now));
      FindInChain(order, cache, c.host);
      if c.host in cache && cache[c.host].cert.notAfter - now > LEAF_MARGIN {
        var have := cache[c.host];
        UseMoves(order, cache, c.host, have.cert);
        assert cache[c.host := Entry(have.cert, have.at)] == cache;
        MoveToFront(have.at);
        return have.cert;
      }
      Store(c.host, c);
      r := c;
    }
  }

  // ---- any number of Leaf calls, interleaved ------------------------------

  // Where one Leaf call stands. Each arrow between two of these is one critical section or one mint.
  datatype Call =
    | Asking(host: string)
    | Missed(host: string)
    | Minted(host: string, cert: Cert)
    | Served(host: string, cert: Cert, checkedAt: int, minted: bool)
    | Failed(host: string)

  datatype Step =
    | Arrive(id: nat, host: string)
    | Lookup(id: nat, now: int)
    | Mint(id: nat, cert: Cert)
    | MintFails(id: nat)
    | Commit(id: nat, now: int)

  // touched holds the host of every hit and every commit, newest first.
  datatype World = World(leaves: seq<Cert>, touched: seq<string>, calls: map<nat, Call>)

  const EMPTY := World([], [], map[])

  // A step that does not fit where its call stands changes nothing.
  function After(w: World, s: Step): World {
    match s
    case Arrive(id, host) => if id in w.calls then w else w.(calls := w.calls[id := Asking(host)])
    case Lookup(id, now) =>
      if id !in w.calls || !w.calls[id].Asking? then w
      else
        var host := w.calls[id].host;
        var c := Usable(w.leaves, host, now);
        if c.None? then w.(calls := w.calls[id := Missed(host)])
        else
          World(AfterLookup(w.leaves, host, now), [host] + w.touched, w.calls[id := Served(host, c.value, now, false)])
    case Mint(id, cert) =>
      if id !in w.calls || !w.calls[id].Missed? || cert.host != w.calls[id].host then w
      else w.(calls := w.calls[id := Minted(cert.host, cert)])
    case MintFails(id) =>
      if id !in w.calls || !w.calls[id].Missed? then w
      else w.(calls := w.calls[id := Failed(w.calls[id].host)])
    case Commit(id, now) =>
      if id !in w.calls || !w.calls[id].Minted? then w
      else
        var c := w.calls[id].cert;
        var r := Committed(w.leaves, c, now);
        World(Use(w.leaves, r), [c.host] + w.touched, w.calls[id := Served(c.host, r, now, r == c)])
  }

  datatype Trace = Begin | Then(before: Trace, step: Step)

  function Run(t: Trace): World {
    match t
    case Begin => EMPTY
    case Then(before, step) => After(Run(before), step)
  }

  // ---- what the list must be: the hosts touched, newest first, once each --

  function Drop(hosts: seq<string>, host: string): seq<string> {
    if hosts == [] then []
    else if hosts[0] == host then Drop(hosts[1..], host)
    else [hosts[0]] + Drop(hosts[1..], host)
  }

  // The distinct hosts of a history, by when each was last touched.
  function Recent(touched: seq<string>): seq<string> {
    if touched == [] then [] else [touched[0]] + Drop(Recent(touched[1..]), touched[0])
  }

  lemma {:induction false} DropFacts(hosts: seq<string>, host: string)
    ensures forall h :: h in Drop(hosts, host) <==> h in hosts && h != host
    ensures Distinct(hosts) ==> Distinct(Drop(hosts, host))
    ensures host !in hosts ==> Drop(hosts, host) == hosts
  {
    if hosts != [] {
      DropFacts(hosts[1..], host);
      assert forall h :: h in hosts <==> h == hosts[0] || h in hosts[1..];
      if Distinct(hosts) {
        assert Distinct(hosts[1..]) && hosts[0] !in hosts[1..];
      }
    }
  }

  lemma {:induction false} RecentFacts(touched: seq<string>)
    ensures Distinct(Recent(touched))
    ensures forall h :: h in Recent(touched) <==> h in touched
  {
    if touched != [] {
      RecentFacts(touched[1..]);
      DropFacts(Recent(touched[1..]), touched[0]);
    }
  }

  lemma {:induction false} WithoutIsDrop(es: seq<Cert>, host: string)
    ensures Hosts(Without(es, host)) == Drop(Hosts(es), host)
  {
    if es != [] {
      WithoutIsDrop(es[1..], host);
      assert Hosts(es)[1..] == Hosts(es[1..]);
      assert Hosts([es[0]] + Without(es[1..], host)) == [es[0].host] + Hosts(Without(es[1..], host));
    }
  }

  lemma DropCons(h: string, hosts: seq<string>, host: string)
    ensures Drop([h] + hosts, host) == if h == host then Drop(hosts, host) else [h] + Drop(hosts, host)
  {
    assert ([h] + hosts)[1..] == hosts;
  }

  // Forgetting the tail before or after a host is dropped is the same, one place apart.
  lemma {:induction false} DropOfTake(hosts: seq<string>, host: string, k: nat)
    requires Distinct(hosts)
    ensures Take(Drop(Take(hosts, k + 1), host), k) == Take(Drop(hosts, host), k)
  {
    if hosts != [] && k > 0 {
      var h, tail := hosts[0], hosts[1..];
      assert hosts == [h] + tail && Distinct(tail) && h !in tail;
      TakeCons(h, tail, k);
      DropCons(h, tail, host);
      DropCons(h, Take(tail, k), host);
      if h == host {
        DropFacts(tail, host);
        DropFacts(Take(tail, k), host);
      } else {
        DropOfTake(tail, host, k - 1);
        TakeCons(h, Drop(tail, host), k - 1);
        TakeCons(h, Drop(Take(tail, k), host), k - 1);
      }
    }
  }

  lemma TakeCons(h: string, hosts: seq<string>, k: nat)
    ensures Take([h] + hosts, k + 1) == [h] + Take(hosts, k)
  {
  }

  lemma UseKeepsRecent(es: seq<Cert>, touched: seq<string>, c: Cert)
    requires Hosts(es) == Take(Recent(touched), MAX_CACHED_LEAVES)
    ensures Hosts(Use(es, c)) == Take(Recent([c.host] + touched), MAX_CACHED_LEAVES)
  {
    var n := MAX_CACHED_LEAVES - 1;
    WithoutIsDrop(es, c.host);
    RecentFacts(touched);
    DropOfTake(Recent(touched), c.host, n);
    assert ([c.host] + touched)[1..] == touched;
    TakeCons(c.host, Drop(Recent(touched), c.host), n);
    TakeCons(c.host, Drop(Hosts(es), c.host), n);
    assert Hosts([c] + Without(es, c.host)) == [c.host] + Hosts(Without(es, c.host));
    assert Hosts(Use(es, c)) == Take(Hosts([c] + Without(es, c.host)), n + 1);
  }

  ghost predicate ServedRight(call: Call) {
    match call
    case Minted(host, cert) => cert.host == host
    case Served(host, cert, checkedAt, minted) => cert.host == host && (minted || Fresh(cert, checkedAt))
    case _ => true
  }

  ghost predicate Kept(w: World) {
    && Hosts(w.leaves) == Take(Recent(w.touched), MAX_CACHED_LEAVES)
    && forall id :: id in w.calls ==> ServedRight(w.calls[id])
  }

  lemma StepKeeps(w: World, s: Step)
    requires Kept(w)
    ensures Kept(After(w, s))
  {
    match s {
      case Lookup(id, now) =>
        if id in w.calls && w.calls[id].Asking? && Usable(w.leaves, w.calls[id].host, now).Some? {
          UseKeepsRecent(w.leaves, w.touched, Usable(w.leaves, w.calls[id].host, now).value);
        }
      case Commit(id, now) =>
        if id in w.calls && w.calls[id].Minted? {
          UseKeepsRecent(w.leaves, w.touched, Committed(w.leaves, w.calls[id].cert, now));
        }
      case _ =>
    }
  }

  /**
   * However Leaf calls interleave, the use list is the last MAX_CACHED_LEAVES distinct
   * hosts touched, newest first, and whoever is served got a leaf for the host asked
   * about, minted for the call or checked to be clear of the margin.
   */
  lemma {:induction false} EveryInterleaving(t: Trace)
    ensures Hosts(Run(t).leaves) == Take(Recent(Run(t).touched), MAX_CACHED_LEAVES)
    ensures Distinct(Hosts(Run(t).leaves))
    ensures forall id :: id in Run(t).calls ==> ServedRight(Run(t).calls[id])
  {
    match t {
      case Begin => assert Hosts([]) == [];
      case Then(before, step) =>
        EveryInterleaving(before);
        StepKeeps(Run(before), step);
    }
    RecentFacts(Run(t).touched);
  }

  lemma OneLeafAHost(t: Trace)
    ensures Distinct(Hosts(Run(t).leaves))
    ensures forall id :: id in Run(t).calls && Run(t).calls[id].Minted? ==>
              Run(t).calls[id].cert.host == Run(t).calls[id].host
  {
    EveryInterleaving(t);
  }

  /**
   * The first to store wins. A call that minted a leaf and comes to commit it is served the leaf that already
   * stands for its host, when that one has more than the margin left to run, and it stays the only one.
   */
  lemma FirstToStoreWins(t: Trace, id: nat, now: int, e: Cert)
    requires id in Run(t).calls && Run(t).calls[id].Minted? && e in Run(t).leaves
    requires e.host == Run(t).calls[id].host && e.notAfter - now > LEAF_MARGIN
    ensures var w := Run(Then(t, Commit(id, now)));
            && w.calls[id].Served? && w.calls[id].cert == e
            && Fronts(Run(t).leaves, w.leaves, e)
  {
    OneLeafAHost(t);
    UsableIsWhatIsThere(Run(t).leaves, e.host, now);
    UseFronts(Run(t).leaves, e);
  }

  /** With no such leaf for its host, a call is served the one it minted, and that one stands from then on. */
  lemma OtherwiseItsOwnWins(t: Trace, id: nat, now: int)
    requires id in Run(t).calls && Run(t).calls[id].Minted?
    requires forall e :: e in Run(t).leaves && e.host == Run(t).calls[id].host ==> e.notAfter - now <= LEAF_MARGIN
    ensures var w, c := Run(Then(t, Commit(id, now))), Run(t).calls[id].cert;
            && w.calls[id] == Served(c.host, c, now, true) && Fronts(Run(t).leaves, w.leaves, c)
  {
    OneLeafAHost(t);
    UsableIsWhatIsThere(Run(t).leaves, Run(t).calls[id].host, now);
    UseFronts(Run(t).leaves, Run(t).calls[id].cert);
  }

  /** A lookup is served the leaf that stands for its host with more than the margin left, and misses without one. */
  lemma LookupServesWhatStands(t: Trace, id: nat, now: int)
    requires id in Run(t).calls && Run(t).calls[id].Asking?
    ensures var host, w := Run(t).calls[id].host, Run(Then(t, Lookup(id, now)));
            && (forall e :: e in Run(t).leaves && e.host == host && e.notAfter - now > LEAF_MARGIN ==>
                  w.calls[id] == Served(host, e, now, false) && Fronts(Run(t).leaves, w.leaves, e))
            && ((forall e :: e in Run(t).leaves && e.host == host ==> e.notAfter - now <= LEAF_MARGIN) ==>
                  w.calls[id] == Missed(host) && w.leaves == Run(t).leaves)
  {
    OneLeafAHost(t);
    var host := Run(t).calls[id].host;
    UsableIsWhatIsThere(Run(t).leaves, host, now);
    if Usable(Run(t).leaves, host, now).Some? {
      UseFronts(Run(t).leaves, Usable(Run(t).leaves, host, now).value);
    }
  }

  lemma OneOn(t: Trace, s: Step) returns (t': Trace)
    ensures Run(t') == After(Run(t), s)
  {
    t' := Then(t, s);
  }

  // Two calls for one host miss together and both mint.
  lemma BothMint(a: Cert, b: Cert, now: int) returns (t: Trace)
    requires a.host == b.host
    ensures Run(t) == World([], [], map[0 := Minted(a.host, a), 1 := Minted(b.host, b)])
  {
    t := OneOn(Begin, Arrive(0, a.host));
    t := OneOn(t, Arrive(1, a.host));
    t := OneOn(t, Lookup(0, now));
    t := OneOn(t, Lookup(1, now));
    t := OneOn(t, Mint(0, a));
    t := OneOn(t, Mint(1, b));
  }

  /** Two such calls are both served what the first of them stored. */
  lemma RacersShareALeaf(a: Cert, b: Cert, now: int) returns (t: Trace)
    requires a.host == b.host && a != b && a.notAfter - now > LEAF_MARGIN
    ensures Run(t).calls == map[0 := Served(a.host, a, now, true), 1 := Served(a.host, a, now, false)]
    ensures Run(t).leaves == [a]
  {
    t := BothMint(a, b, now);
    t := OneOn(t, Commit(0, now));
    assert Run(t).leaves == [a];
    t := OneOn(t, Commit(1, now));
  }
}
