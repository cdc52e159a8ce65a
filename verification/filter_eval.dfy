/** Matching a query against an exchange, and checking one beforehand. */
module FilterEval {
  import opened FilterAst
  import opened FilterSubject
  import Ordered
  import opened Wrappers

  /**
   * What matching borrows: lower-casing, case folding, the compiled regular
   * expressions, and how two texts that both read as numbers compare.
   */
  datatype Engine = Engine(
    lower: string -> string,
    fold: (string, string) -> bool,
    regexp: (string, string) -> bool,
    numeric: (string, string) -> Option<int>)

  datatype MatchError = UnknownField(key: string) | NotDefined(op: Op, key: string)

  datatype Verdict = Verdict(hit: bool) | Fault(why: MatchError)

  predicate StandsAt(s: string, sub: string, i: int) {
    0 <= i <= |s| - |sub| && s[i..i + |sub|] == sub
  }

  predicate Contains(s: string, sub: string) {
    exists i | 0 <= i <= |s| - |sub| :: StandsAt(s, sub, i)
  }

  // strings.Compare.
  function CompareText(a: string, b: string): int {
    if a == b then 0
    else if a == "" then -1
    else if b == "" then 1
    else if a[0] != b[0] then if a[0] < b[0] then -1 else 1
    else CompareText(a[1..], b[1..])
  }

  const CASELESS_KEYS: set<string> := {
    "req.method", "req.scheme", "req.host", "req.proto", "res.proto", "res.type", "res.mime", "req.ext",
    "req.color", "req.websocket", "res.streamed", "ws.subprotocol", "req.grpcservice", "req.grpcmethod"
  }

  predicate EqualKey(key: string, a: string, b: string, g: Engine) {
    if key in CASELESS_KEYS then g.fold(a, b) else a == b
  }

  function Order(a: string, b: string, g: Engine): int {
    match g.numeric(a, b)
    case Some(n) => n
    case None => CompareText(a, b)
  }

  // ---- what a comparison means -------------------------------------------

  datatype Family = HeaderSet | List | Scalar

  ghost function FamilyOf(key: string, s: HTTPSubject): Family {
    if s.Headers(key).Some? then HeaderSet else if s.Values(key).Some? then List else Scalar
  }

  ghost function HeaderLines(h: Header): set<string> {
    set i, j | 0 <= i < |h| && 0 <= j < |h[i].1| :: h[i].0 + ": " + h[i].1[j]
  }

  // Every text a key stands for on a subject: one for a field, many for a list or a header set.
  ghost function TextsOf(key: string, s: HTTPSubject): set<string> {
    if s.Headers(key).Some? then HeaderLines(s.Headers(key).value)
    else if s.Values(key).Some? then set v | v in s.Values(key).value
    else if s.Field(key).Some? then {s.Field(key).value}
    else {}
  }

  ghost predicate Equals(key: string, text: string, value: string, s: HTTPSubject, g: Engine) {
    match FamilyOf(key, s)
    case HeaderSet => text == value || g.fold(text, value)
    case List => g.fold(text, value)
    case Scalar => EqualKey(key, text, value, g)
  }

  // One text satisfies one of the operators the others are defined by.
  ghost predicate Satisfies(op: Op, key: string, text: string, value: string, s: HTTPSubject, g: Engine) {
    match op
    case OpEq => Equals(key, text, value, s, g)
    case OpRe => g.regexp(value, text)
    case OpContains => Contains(g.lower(text), g.lower(value))
    case OpGt => Order(text, value, g) > 0
    case OpLt => Order(text, value, g) < 0
    case _ => false
  }

  ghost predicate SomeText(op: Op, key: string, value: string, s: HTTPSubject, g: Engine) {
    exists text :: text in TextsOf(key, s) && Satisfies(op, key, text, value, s, g)
  }

  /** A comparison as plain logic: a negated operator is the negation, `in` is a disjunction of `=`. */
  ghost predicate CompareHolds(op: Op, key: string, value: string, values: seq<string>, s: HTTPSubject, g: Engine) {
    match op
    case OpExists => s.Exists(key) == Some(true)
    case OpNotEq => !SomeText(OpEq, key, value, s, g)
    case OpNotRe => !SomeText(OpRe, key, value, s, g)
    case OpGtEq => !SomeText(OpLt, key, value, s, g)
    case OpLtEq => !SomeText(OpGt, key, value, s, g)
    case OpIn => exists i :: 0 <= i < |values| && SomeText(OpEq, key, values[i], s, g)
    case _ => SomeText(op, key, value, s, g)
  }

  ghost predicate TextHolds(value: string, s: HTTPSubject, g: Engine) {
    exists i :: 0 <= i < |s.Text()| && Contains(g.lower(s.Text()[i]), g.lower(value))
  }

  /** The whole query as plain boolean logic, every part evaluated. */
  ghost predicate Holds(e: Expr, s: HTTPSubject, g: Engine) {
    match e
    case Not(x) => !Holds(x, s, g)
    case Logical(op, l, r) => if op == OpAnd then Holds(l, s, g) && Holds(r, s, g) else Holds(l, s, g) || Holds(r, s, g)
    case Text(value) => TextHolds(value, s, g)
    case Compare(op, key, value, values) => CompareHolds(op, key, value, values, s, g)
  }

  // ---- what matching answers ---------------------------------------------

  // The operators a family of keys defines.
  predicate Defined(op: Op, family: Family) {
    if op == OpExists then true
    else
      match family
      case HeaderSet => op == OpEq || op == OpNotEq || op == OpRe || op == OpNotRe
      case List => op == OpEq || op == OpNotEq || op == OpRe || op == OpNotRe || op == OpContains || op == OpIn
      case Scalar => !op.IsLogical()
  }

  // An undefined operator faults on the first text it meets, so on none it quietly answers no.
  ghost function CompareAnswer(c: Expr, s: HTTPSubject, g: Engine): Verdict
    requires c.Compare?
  {
    if !s.Known(c.key) then Fault(UnknownField(c.key))
    else if Defined(c.op, FamilyOf(c.key, s)) then Verdict(CompareHolds(c.op, c.key, c.value, c.values, s, g))
    else if TextsOf(c.key, s) == {} then Verdict(false)
    else Fault(NotDefined(c.op, c.key))
  }

  // Left to right, and the right half of a Logical only when the left has not settled it.
  ghost function Answer(e: Expr, s: HTTPSubject, g: Engine): Verdict {
    match e
    case Not(x) => if Answer(x, s, g).Fault? then Answer(x, s, g) else Verdict(!Answer(x, s, g).hit)
    case Logical(op, l, r) =>
      if Answer(l, s, g).Fault? then Answer(l, s, g)
      else if op == OpAnd && !Answer(l, s, g).hit then Verdict(false)
      else if op == OpOr && Answer(l, s, g).hit then Verdict(true)
      else Answer(r, s, g)
    case Text(value) => Verdict(TextHolds(value, s, g))
    case Compare(_, _, _, _) => CompareAnswer(e, s, g)
  }

  // The texts passed so far, for the loops over a header set.
  ghost function Seen(h: Header, i: nat, j: nat): set<string>
    requires i <= |h| && (i < |h| ==> j <= |h[i].1|)
  {
    HeaderLines(h[..i]) + if i < |h| then set k | 0 <= k < j :: h[i].0 + ": " + h[i].1[k] else {}
  }

  lemma SeenGrows(h: Header, i: nat, j: nat)
    requires i < |h| && j <= |h[i].1|
    ensures j < |h[i].1| ==> Seen(h, i, j + 1) == Seen(h, i, j) + {h[i].0 + ": " + h[i].1[j]}
    ensures j == |h[i].1| ==> Seen(h, i, j) == Seen(h, i + 1, 0)
  {
    if j == |h[i].1| {
      assert forall k :: 0 <= k < i ==> h[..i + 1][k] == h[..i][k];
      forall x | x in HeaderLines(h[..i + 1]) ensures x in Seen(h, i, j) {
        var a, b :| 0 <= a < |h[..i + 1]| && 0 <= b < |h[..i + 1][a].1|
                    && x == h[..i + 1][a].0 + ": " + h[..i + 1][a].1[b];
        if a < i {
          assert h[..i][a] == h[..i + 1][a];
        }
      }
      forall x | x in Seen(h, i, j) ensures x in HeaderLines(h[..i + 1]) {
        if x in HeaderLines(h[..i]) {
          var a, b :| 0 <= a < |h[..i]| && 0 <= b < |h[..i][a].1| && x == h[..i][a].0 + ": " + h[..i][a].1[b];
          assert h[..i + 1][a] == h[..i][a];
        } else {
          assert h[..i + 1][i] == h[i];
        }
      }
    }
  }

  method MatchHeaders(c: Expr, h: Header, g: Engine) returns (r: Verdict)
    requires c.Compare? && c.op != OpExists
    ensures !Defined(c.op, HeaderSet) ==>
              r == if HeaderLines(h) == {} then Verdict(false) else Fault(NotDefined(c.op, c.key))
    ensures c.op == OpEq || c.op == OpNotEq ==>
              r == Verdict((c.op == OpEq) == exists t :: t in HeaderLines(h) && (t == c.value || g.fold(t, c.value)))
    ensures c.op == OpRe || c.op == OpNotRe ==>
              r == Verdict((c.op == OpRe) == exists t :: t in HeaderLines(h) && g.regexp(c.value, t))
  {
    var hit := false;
    var i := 0;
    assert HeaderLines(h[..0]) == {};
    while i < |h|
      invariant 0 <= i <= |h|
      invariant !Defined(c.op, HeaderSet) ==> Seen(h, i, 0) == {} && !hit
      invariant c.op == OpEq || c.op == OpNotEq ==>
                  (hit <==> exists t :: t in Seen(h, i, 0) && (t == c.value || g.fold(t, c.value)))
      invariant c.op == OpRe || c.op == OpNotRe ==> (hit <==> exists t :: t in Seen(h, i, 0) && g.regexp(c.value, t))
    {
      var (name, values) := h[i];
      var j := 0;
      while j < |values|
        invariant 0 <= j <= |values|
        invariant !Defined(c.op, HeaderSet) ==> Seen(h, i, j) == {} && !hit
        invariant c.op == OpEq || c.op == OpNotEq ==>
                    (hit <==> exists t :: t in Seen(h, i, j) && (t == c.value || g.fold(t, c.value)))
        invariant c.op == OpRe || c.op == OpNotRe ==> (hit <==> exists t :: t in Seen(h, i, j) && g.regexp(c.value, t))
      {
        var line := name + ": " + values[j];
        SeenGrows(h, i, j);
        assert line in Seen(h, i, j + 1);
        if c.op == OpEq || c.op == OpNotEq {
          if line == c.value || g.fold(line, c.value) {
            hit := true;
          }
        } else if c.op == OpRe || c.op == OpNotRe {
          if g.regexp(c.value, line) {
            hit := true;
          }
        } else {
          assert line in HeaderLines(h);
          return Fault(NotDefined(c.op, c.key));
        }
        j := j + 1;
      }
      SeenGrows(h, i, j);
      i := i + 1;
    }
    assert h[..i] == h && Seen(h, i, 0) == HeaderLines(h);
    r := Verdict(if c.op == OpNotEq || c.op == OpNotRe then !hit else hit);
  }

  ghost predicate ListHit(c: Expr, v: string, g: Engine)
    requires c.Compare?
  {
    match c.op
    case OpEq => g.fold(v, c.value)
    case OpNotEq => g.fold(v, c.value)
    case OpRe => g.regexp(c.value, v)
    case OpNotRe => g.regexp(c.value, v)
    case OpContains => Contains(g.lower(v), g.lower(c.value))
    case OpIn => exists k :: 0 <= k < |c.values| && g.fold(v, c.values[k])
    case _ => false
  }

  method MatchValues(c: Expr, values: seq<string>, g: Engine) returns (r: Verdict)
    requires c.Compare? && c.op != OpExists
    ensures !Defined(c.op, List) ==> r == if values == [] then Verdict(false) else Fault(NotDefined(c.op, c.key))
    ensures Defined(c.op, List) ==>
              r == Verdict((c.op != OpNotEq && c.op != OpNotRe) ==
                           exists i :: 0 <= i < |values| && ListHit(c, values[i], g))
  {
    var hit := false;
    for i := 0 to |values|
      invariant !Defined(c.op, List) ==> i == 0
      invariant hit <==> exists k :: 0 <= k < i && ListHit(c, values[k], g)
    {
      var v := values[i];
      if c.op == OpEq || c.op == OpNotEq {
        hit := hit || g.fold(v, c.value);
      } else if c.op == OpRe || c.op == OpNotRe {
        hit := hit || g.regexp(c.value, v);
      } else if c.op == OpContains {
        hit := hit || Contains(g.lower(v), g.lower(c.value));
      } else if c.op == OpIn {
        hit := hit || exists k | 0 <= k < |c.values| :: g.fold(v, c.values[k]);
      } else {
        return Fault(NotDefined(c.op, c.key));
      }
    }
    r := Verdict(if c.op == OpNotEq || c.op == OpNotRe then !hit else hit);
  }

  // The scalar half of matchCompare, one branch an operator.
  method MatchField(c: Expr, val: string, g: Engine) returns (r: Verdict)
    requires c.Compare? && c.op != OpExists
    ensures c.op.IsLogical() ==> r == Fault(NotDefined(c.op, c.key))
    ensures c.op == OpEq ==> r == Verdict(EqualKey(c.key, val, c.value, g))
    ensures c.op == OpNotEq ==> r == Verdict(!EqualKey(c.key, val, c.value, g))
    ensures c.op == OpRe ==> r == Verdict(g.regexp(c.value, val))
    ensures c.op == OpNotRe ==> r == Verdict(!g.regexp(c.value, val))
    ensures c.op == OpContains ==> r == Verdict(Contains(g.lower(val), g.lower(c.value)))
    ensures c.op == OpIn ==> r == Verdict(exists i :: 0 <= i < |c.values| && EqualKey(c.key, val, c.values[i], g))
    ensures c.op == OpGt ==> r == Verdict(Order(val, c.value, g) > 0)
    ensures c.op == OpLt ==> r == Verdict(Order(val, c.value, g) < 0)
    ensures c.op == OpGtEq ==> r == Verdict(!(Order(val, c.value, g) < 0))
    ensures c.op == OpLtEq ==> r == Verdict(!(Order(val, c.value, g) > 0))
  {
    match c.op {
      case OpRe => r := Verdict(g.regexp(c.value, val));
      case OpNotRe => r := Verdict(!g.regexp(c.value, val));
      case OpEq => r := Verdict(EqualKey(c.key, val, c.value, g));
      case OpNotEq => r := Verdict(!EqualKey(c.key, val, c.value, g));
      case OpContains => r := Verdict(Contains(g.lower(val), g.lower(c.value)));
      case OpIn =>
        for i := 0 to |c.values|
          invariant forall k :: 0 <= k < i ==> !EqualKey(c.key, val, c.values[k], g)
        {
          if EqualKey(c.key, val, c.values[i], g) {
            return Verdict(true);
          }
        }
        r := Verdict(false);
      case OpGt => r := Verdict(Order(val, c.value, g) > 0);
      case OpLt => r := Verdict(Order(val, c.value, g) < 0);
      case OpGtEq => r := Verdict(Order(val, c.value, g) >= 0);
      case OpLtEq => r := Verdict(Order(val, c.value, g) <= 0);
      case OpAnd | OpOr | OpNot => r := Fault(NotDefined(c.op, c.key));
    }
  }

  // `in` over many texts: some text equals some value, in either order of asking.
  lemma InCommutes(c: Expr, s: HTTPSubject, g: Engine)
    requires c.Compare? && c.op == OpIn && s.Headers(c.key).None? && s.Values(c.key).Some?
    ensures CompareHolds(OpIn, c.key, c.value, c.values, s, g) <==>
            exists i :: 0 <= i < |s.Values(c.key).value| && ListHit(c, s.Values(c.key).value[i], g)
  {
    var vs := s.Values(c.key).value;
    if CompareHolds(OpIn, c.key, c.value, c.values, s, g) {
      var i :| 0 <= i < |c.values| && SomeText(OpEq, c.key, c.values[i], s, g);
      var text :| text in TextsOf(c.key, s) && Satisfies(OpEq, c.key, text, c.values[i], s, g);
      var k :| 0 <= k < |vs| && vs[k] == text;
      assert ListHit(c, vs[k], g);
    }
    if i :| 0 <= i < |vs| && ListHit(c, vs[i], g) {
      var k :| 0 <= k < |c.values| && g.fold(vs[i], c.values[k]);
      assert vs[i] in TextsOf(c.key, s) && Satisfies(OpEq, c.key, vs[i], c.values[k], s, g);
    }
  }

  lemma ListMeaning(c: Expr, s: HTTPSubject, g: Engine)
    requires c.Compare? && c.op != OpExists && Defined(c.op, List)
    requires s.Headers(c.key).None? && s.Values(c.key).Some?
    ensures CompareHolds(c.op, c.key, c.value, c.values, s, g) ==
            ((c.op != OpNotEq && c.op != OpNotRe) ==
             exists i :: 0 <= i < |s.Values(c.key).value| && ListHit(c, s.Values(c.key).value[i], g))
  {
    var vs := s.Values(c.key).value;
    if c.op == OpIn {
      InCommutes(c, s, g);
    } else {
      var op := if c.op == OpNotEq then OpEq else if c.op == OpNotRe then OpRe else c.op;
      if SomeText(op, c.key, c.value, s, g) {
        var text :| text in TextsOf(c.key, s) && Satisfies(op, c.key, text, c.value, s, g);
        var k :| 0 <= k < |vs| && vs[k] == text;
        assert ListHit(c, vs[k], g);
      }
      if i :| 0 <= i < |vs| && ListHit(c, vs[i], g) {
        assert vs[i] in TextsOf(c.key, s) && Satisfies(op, c.key, vs[i], c.value, s, g);
      }
    }
  }

  lemma FieldMeaning(op: Op, c: Expr, value: string, s: HTTPSubject, g: Engine)
    requires c.Compare? && s.Headers(c.key).None? && s.Values(c.key).None? && s.Field(c.key).Some?
    ensures SomeText(op, c.key, value, s, g) == Satisfies(op, c.key, s.Field(c.key).value, value, s, g)
  {
    assert TextsOf(c.key, s) == {s.Field(c.key).value};
    assert s.Field(c.key).value in TextsOf(c.key, s);
  }

  lemma FieldMeanings(c: Expr, s: HTTPSubject, g: Engine)
    requires c.Compare? && s.Headers(c.key).None? && s.Values(c.key).None? && s.Field(c.key).Some?
    ensures TextsOf(c.key, s) == {s.Field(c.key).value} && FamilyOf(c.key, s) == Scalar
    ensures forall op, value ::
              SomeText(op, c.key, value, s, g) == Satisfies(op, c.key, s.Field(c.key).value, value, s, g)
  {
    forall op, value
      ensures SomeText(op, c.key, value, s, g) == Satisfies(op, c.key, s.Field(c.key).value, value, s, g)
    {
      FieldMeaning(op, c, value, s, g);
    }
  }

  lemma HeaderMeaning(c: Expr, s: HTTPSubject, g: Engine)
    requires c.Compare? && s.Headers(c.key).Some?
    ensures SomeText(OpEq, c.key, c.value, s, g) <==>
            exists t :: t in HeaderLines(s.Headers(c.key).value) && (t == c.value || g.fold(t, c.value))
    ensures SomeText(OpRe, c.key, c.value, s, g) <==>
            exists t :: t in HeaderLines(s.Headers(c.key).value) && g.regexp(c.value, t)
  {
    var lines := HeaderLines(s.Headers(c.key).value);
    if t :| t in lines && (t == c.value || g.fold(t, c.value)) {
      assert t in TextsOf(c.key, s) && Satisfies(OpEq, c.key, t, c.value, s, g);
    }
    if t :| t in lines && g.regexp(c.value, t) {
      assert t in TextsOf(c.key, s) && Satisfies(OpRe, c.key, t, c.value, s, g);
    }
  }

  method MatchCompare(c: Expr, s: HTTPSubject, g: Engine) returns (r: Verdict)
    requires c.Compare?
    ensures r == CompareAnswer(c, s, g)
  {
    VocabularyIsFixed(s, s, c.key);
    if c.op == OpExists {
      var present := s.Exists(c.key);
      return if present.None? then Fault(UnknownField(c.key)) else Verdict(present.value);
    }
    var h := s.Headers(c.key);
    if h.Some? {
      r := MatchHeaders(c, h.value, g);
      HeaderMeaning(c, s, g);
      return;
    }
    var vals := s.Values(c.key);
    if vals.Some? {
      r := MatchValues(c, vals.value, g);
      if Defined(c.op, List) {
        ListMeaning(c, s, g);
      }
      assert TextsOf(c.key, s) == {} <==> vals.value == [] by {
        if vals.value != [] {
          assert vals.value[0] in TextsOf(c.key, s);
        }
      }
      return;
    }
    var val := s.Field(c.key);
    if val.None? {
      return Fault(UnknownField(c.key));
    }
    r := MatchField(c, val.value, g);
    FieldMeanings(c, s, g);
  }

  // A bare word, against every text there is.
  method MatchText(value: string, texts: seq<string>, g: Engine) returns (hit: bool)
    ensures hit <==> exists i :: 0 <= i < |texts| && Contains(g.lower(texts[i]), g.lower(value))
  {
    var needle := g.lower(value);
    for i := 0 to |texts|
      invariant forall k :: 0 <= k < i ==> !Contains(g.lower(texts[k]), needle)
    {
      if Contains(g.lower(texts[i]), needle) {
        return true;
      }
    }
    hit := false;
  }

  method Match(e: Expr, s: HTTPSubject, g: Engine) returns (r: Verdict)
    ensures r == Answer(e, s, g)
  {
    match e {
      case Not(x) =>
        var m := Match(x, s, g);
        r := if m.Fault? then m else Verdict(!m.hit);
      case Logical(op, left, right) =>
        var l := Match(left, s, g);
        if l.Fault? {
          return l;
        }
        if op == OpAnd && !l.hit {
          return Verdict(false);
        }
        if op == OpOr && l.hit {
          return Verdict(true);
        }
        r := Match(right, s, g);
      case Text(value) =>
        var hit := MatchText(value, s.Text(), g);
        r := Verdict(hit);
      case Compare(_, _, _, _) =>
        r := MatchCompare(e, s, g);
    }
  }

  // ---- checking a query beforehand ---------------------------------------

  ghost function KeySet(e: Expr): set<string> {
    match e
    case Not(x) => KeySet(x)
    case Logical(_, l, r) => KeySet(l) + KeySet(r)
    case Text(_) => {}
    case Compare(_, key, _, _) => {key}
  }

  // The walk Keys makes: the keys met, in order, once each.
  class KeyWalk {
    var out: seq<string>
    var seen: set<string>

    ghost predicate Valid()
      reads this
    {
      && seen == (set k | k in out)
      && forall i, j :: 0 <= i < j < |out| ==> out[i] != out[j]
    }

    constructor ()
      ensures Valid() && out == []
    {
      out, seen := [], {};
    }

    method Walk(e: Expr)
      requires Valid()
      modifies this
      ensures Valid() && old(out) <= out
      ensures seen == old(seen) + KeySet(e)
      decreases e
    {
      match e {
        case Not(x) => Walk(x);
        case Logical(_, l, r) =>
          Walk(l);
          Walk(r);
        case Text(_) =>
        case Compare(_, key, _, _) =>
          if key !in seen {
            seen := seen + {key};
            out := out + [key];
          }
      }
    }
  }

  method Keys(e: Expr) returns (keys: seq<string>)
    ensures (set k | k in keys) == KeySet(e)
    ensures forall i, j :: 0 <= i < j < |keys| ==> keys[i] != keys[j]
  {
    var w := new KeyWalk();
    w.Walk(e);
    keys := w.out;
  }

  // The first key z does not know, or None.
  method Validate(e: Expr, z: HTTPSubject) returns (unknown: Option<string>)
    ensures unknown.None? <==> forall key :: key in KeySet(e) ==> z.Known(key)
    ensures unknown.Some? ==> unknown.value in KeySet(e) && !z.Known(unknown.value)
  {
    var keys := Keys(e);
    ghost var all := KeySet(e);
    assert forall key :: key in all <==> key in keys;
    for i := 0 to |keys|
      invariant forall k :: 0 <= k < i ==> z.Known(keys[k])
    {
      if !z.Known(keys[i]) {
        assert keys[i] in all;
        return Some(keys[i]);
      }
    }
    unknown := None;
  }

  ghost predicate Validated(e: Expr, z: HTTPSubject) {
    forall key :: key in KeySet(e) ==> z.Known(key)
  }

  // Every comparison uses an operator its kind of key defines.
  ghost predicate WellOperated(e: Expr, z: HTTPSubject) {
    match e
    case Not(x) => WellOperated(x, z)
    case Logical(_, l, r) => WellOperated(l, z) && WellOperated(r, z)
    case Text(_) => true
    case Compare(op, key, _, _) => Defined(op, FamilyOf(key, z))
  }

  ghost predicate LogicalIsAndOr(e: Expr) {
    match e
    case Not(x) => LogicalIsAndOr(x)
    case Logical(op, l, r) => (op == OpAnd || op == OpOr) && LogicalIsAndOr(l) && LogicalIsAndOr(r)
    case _ => true
  }

  /** A query checked against any one exchange names no unknown field on any other. */
  lemma {:induction false} ValidatedNeverUnknown(e: Expr, z: HTTPSubject, s: HTTPSubject, g: Engine)
    requires Validated(e, z)
    ensures Answer(e, s, g).Fault? ==> Answer(e, s, g).why.NotDefined?
  {
    match e {
      case Not(x) => ValidatedNeverUnknown(x, z, s, g);
      case Logical(_, l, r) =>
        ValidatedNeverUnknown(l, z, s, g);
        ValidatedNeverUnknown(r, z, s, g);
      case Text(_) =>
      case Compare(_, key, _, _) =>
        assert key in KeySet(e);
        VocabularyIsFixed(s, z, key);
    }
  }

  /** With defined operators as well, matching never faults and short-circuiting changes nothing. */
  lemma {:induction false} ValidatedIsPlainLogic(e: Expr, z: HTTPSubject, s: HTTPSubject, g: Engine)
    requires Validated(e, z) && WellOperated(e, z) && LogicalIsAndOr(e)
    ensures Answer(e, s, g) == Verdict(Holds(e, s, g))
  {
    match e {
      case Not(x) => ValidatedIsPlainLogic(x, z, s, g);
      case Logical(_, l, r) =>
        ValidatedIsPlainLogic(l, z, s, g);
        ValidatedIsPlainLogic(r, z, s, g);
      case Text(_) =>
      case Compare(_, key, _, _) =>
        assert key in KeySet(e);
        VocabularyIsFixed(s, z, key);
    }
  }

  /** A validated comparison can still fault: exactly when its operator is undefined and there is a text to meet. */
  lemma WhenAComparisonFaults(c: Expr, z: HTTPSubject, s: HTTPSubject, g: Engine)
    requires c.Compare? && Validated(c, z)
    ensures Answer(c, s, g).Fault? <==> !Defined(c.op, FamilyOf(c.key, z)) && TextsOf(c.key, s) != {}
  {
    assert c.key in KeySet(c);
    VocabularyIsFixed(s, z, c.key);
  }

  // The query as plain logic, an undefined comparison counted false.
  ghost predicate Says(e: Expr, s: HTTPSubject, g: Engine) {
    match e
    case Not(x) => !Says(x, s, g)
    case Logical(op, l, r) => if op == OpAnd then Says(l, s, g) && Says(r, s, g) else Says(l, s, g) || Says(r, s, g)
    case Text(value) => TextHolds(value, s, g)
    case Compare(op, key, value, values) =>
      Defined(op, FamilyOf(key, s)) && CompareHolds(op, key, value, values, s, g)
  }

  // Reading left to right meets an undefined comparison that has a text, the right half of a
  // Logical only when the left has not settled it.
  ghost predicate Trips(e: Expr, s: HTTPSubject, g: Engine) {
    match e
    case Not(x) => Trips(x, s, g)
    case Logical(op, l, r) => Trips(l, s, g) || (Says(l, s, g) == (op == OpAnd) && Trips(r, s, g))
    case Text(_) => false
    case Compare(op, key, _, _) => !Defined(op, FamilyOf(key, s)) && TextsOf(key, s) != {}
  }

  /**
   * A validated query faults exactly when reading it meets an undefined comparison that has a
   * text. Otherwise it is plain logic, with every undefined comparison false.
   */
  lemma {:induction false} WhenAQueryFaults(e: Expr, z: HTTPSubject, s: HTTPSubject, g: Engine)
    requires Validated(e, z) && LogicalIsAndOr(e)
    ensures Answer(e, s, g).Fault? <==> Trips(e, s, g)
    ensures !Trips(e, s, g) ==> Answer(e, s, g) == Verdict(Says(e, s, g))
  {
    match e {
      case Not(x) => WhenAQueryFaults(x, z, s, g);
      case Logical(_, l, r) =>
        WhenAQueryFaults(l, z, s, g);
        WhenAQueryFaults(r, z, s, g);
      case Text(_) =>
      case Compare(_, key, _, _) =>
        assert key in KeySet(e);
        VocabularyIsFixed(s, z, key);
    }
  }

  /** An undefined comparison with a text to meet does no harm behind a half that settles the query. */
  lemma SettledBeforeItFaults(z: HTTPSubject, s: HTTPSubject, g: Engine)
    requires s.req.tags == ["prod"] && g.fold("prod", "prod")
    ensures var bad := Compare(OpGt, "req.tag", "3", []);
            var e := Logical(OpOr, Compare(OpEq, "req.tag", "prod", []), bad);
            && Answer(bad, s, g) == Fault(NotDefined(OpGt, "req.tag"))
            && Answer(e, s, g) == Verdict(true)
  {
    ValidatedCanFault(z, s, g);
    var key := "req.tag";
    TagsAreAList(key, s);
    assert s.Values(key) == Some(["prod"]) && ["prod"][0] in TextsOf(key, s);
    assert Satisfies(OpEq, key, "prod", "prod", s, g);
  }

  /**
   * So `req.tag > 3`, which any check passes, fails on an exchange with a tag and quietly answers
   * no on one without.
   */
  lemma ValidatedCanFault(z: HTTPSubject, s: HTTPSubject, g: Engine)
    requires s.req.tags == ["prod"] || s.req.tags == []
    ensures var e := Compare(OpGt, "req.tag", "3", []);
            && Validated(e, z)
            && Answer(e, s, g) == if s.req.tags == [] then Verdict(false) else Fault(NotDefined(OpGt, "req.tag"))
  {
    var key := "req.tag";
    assert KeySet(Compare(OpGt, key, "3", [])) == {key} && z.Values(key).Some? && s.Values(key) == Some(s.req.tags);
    TagsAreAList(key, s);
  }

  lemma TagsAreAList(key: string, s: HTTPSubject)
    requires key == "req.tag"
    ensures FamilyOf(key, s) == List && s.Known(key)
    ensures TextsOf(key, s) == {} <==> s.req.tags == []
  {
    assert s.Headers(key) == None && s.Values(key) == Some(s.req.tags);
    assert s.req.tags != [] ==> s.req.tags[0] in TextsOf(key, s);
  }

  // ---- what the tests on texts come to -----------------------------------

  /** A text contains another where that one stands between two pieces of it. */
  lemma ContainsIsBetween(s: string, sub: string)
    ensures Contains(s, sub) <==> exists a: string, b: string :: s == a + sub + b
  {
    if Contains(s, sub) {
      var i :| 0 <= i <= |s| - |sub| && StandsAt(s, sub, i);
      assert s == s[..i] + sub + s[i + |sub|..];
    }
    if a: string, b: string :| s == a + sub + b {
      assert StandsAt(s, sub, |a|);
    }
  }

  lemma {:induction false} CompareTextIsOrder(a: string, b: string)
    ensures CompareText(a, b) < 0 <==> Ordered.Less(a, b)
    ensures CompareText(a, b) == 0 <==> a == b
    ensures CompareText(a, b) > 0 <==> Ordered.Less(b, a)
  {
    Ordered.LessIsTotal(a, b);
    if a != "" && b != "" && a != b {
      assert a == [a[0]] + a[1..] && b == [b[0]] + b[1..];
      CompareTextIsOrder(a[1..], b[1..]);
    }
  }

  // A field defines every operator but the logical ones, so a comparison of it is what it says.
  lemma OnAField(op: Op, key: string, value: string, s: HTTPSubject, g: Engine)
    requires s.Headers(key).None? && s.Values(key).None? && s.Field(key).Some? && !op.IsLogical()
    ensures Answer(Compare(op, key, value, []), s, g) == Verdict(CompareHolds(op, key, value, [], s, g))
  {
    assert s.Known(key) && FamilyOf(key, s) == Scalar;
  }

  /**
   * Over a field, the ordering operators go by numbers when both texts are numbers, and by the dictionary
   * when either is not.
   */
  lemma FieldsAreOrdered(key: string, value: string, s: HTTPSubject, g: Engine)
    requires s.Headers(key).None? && s.Values(key).None? && s.Field(key).Some?
    ensures var text := s.Field(key).value;
            var below := if g.numeric(text, value).Some? then g.numeric(text, value).value < 0
                         else exists n: nat :: Ordered.PartsAt(text, value, n);
            var above := if g.numeric(text, value).Some? then g.numeric(text, value).value > 0
                         else exists n: nat :: Ordered.PartsAt(value, text, n);
            && Answer(Compare(OpLt, key, value, []), s, g) == Verdict(below)
            && Answer(Compare(OpGt, key, value, []), s, g) == Verdict(above)
            && Answer(Compare(OpGtEq, key, value, []), s, g) == Verdict(!below)
            && Answer(Compare(OpLtEq, key, value, []), s, g) == Verdict(!above)
  {
    var text := s.Field(key).value;
    var c := Compare(OpLt, key, value, []);
    OnAField(OpLt, key, value, s, g);
    OnAField(OpGt, key, value, s, g);
    OnAField(OpGtEq, key, value, s, g);
    OnAField(OpLtEq, key, value, s, g);
    FieldMeaning(OpLt, c, value, s, g);
    FieldMeaning(OpGt, c, value, s, g);
    CompareTextIsOrder(text, value);
    Ordered.LessIsDictionary(text, value);
    Ordered.LessIsDictionary(value, text);
  }

  /** Equality on a field ignores case for the keys that say so, and for no others. */
  lemma FieldsAreEqual(key: string, value: string, s: HTTPSubject, g: Engine)
    requires s.Headers(key).None? && s.Values(key).None? && s.Field(key).Some?
    ensures var text := s.Field(key).value;
            var same := if key in CASELESS_KEYS then g.fold(text, value) else text == value;
            && Answer(Compare(OpEq, key, value, []), s, g) == Verdict(same)
            && Answer(Compare(OpNotEq, key, value, []), s, g) == Verdict(!same)
  {
    OnAField(OpEq, key, value, s, g);
    OnAField(OpNotEq, key, value, s, g);
    FieldMeaning(OpEq, Compare(OpEq, key, value, []), value, s, g);
  }

  // A comparison over many texts is what it says where its operator is defined, and fails on the first text otherwise.
  lemma OnMany(c: Expr, s: HTTPSubject, g: Engine)
    requires c.Compare? && (s.Headers(c.key).Some? || s.Values(c.key).Some?)
    ensures Answer(c, s, g) ==
            if Defined(c.op, FamilyOf(c.key, s)) then Verdict(CompareHolds(c.op, c.key, c.value, c.values, s, g))
            else if TextsOf(c.key, s) == {} then Verdict(false)
            else Fault(NotDefined(c.op, c.key))
  {
    VocabularyIsFixed(s, s, c.key);
  }

  lemma OnTags(op: Op, key: string, value: string, values: seq<string>, s: HTTPSubject, g: Engine)
    requires (key == "req.tag" || key == "req.tags") && op != OpExists && Defined(op, List)
    ensures var c := Compare(op, key, value, values);
            Answer(c, s, g) == Verdict((op != OpNotEq && op != OpNotRe) ==
                                       exists i :: 0 <= i < |s.req.tags| && ListHit(c, s.req.tags[i], g))
  {
    TagsAreRead(s, key);
    var c := Compare(op, key, value, values);
    assert s.Headers(key).None?;
    OnMany(c, s, g);
    ListMeaning(c, s, g);
  }

  /**
   * Tags are matched as they read: equal to some tag, or a part of one, in any case; none of which it denies; and
   * one of those listed.
   */
  lemma TagsAreMatched(key: string, value: string, values: seq<string>, s: HTTPSubject, g: Engine)
    requires key == "req.tag" || key == "req.tags"
    ensures Answer(Compare(OpEq, key, value, []), s, g) ==
            Verdict(exists i :: 0 <= i < |s.req.tags| && g.fold(s.req.tags[i], value))
    ensures Answer(Compare(OpNotEq, key, value, []), s, g) ==
            Verdict(!exists i :: 0 <= i < |s.req.tags| && g.fold(s.req.tags[i], value))
    ensures Answer(Compare(OpContains, key, value, []), s, g) ==
            Verdict(exists i :: 0 <= i < |s.req.tags| && Contains(g.lower(s.req.tags[i]), g.lower(value)))
    ensures Answer(Compare(OpIn, key, "", values), s, g) ==
            Verdict(exists i, k :: 0 <= i < |s.req.tags| && 0 <= k < |values| && g.fold(s.req.tags[i], values[k]))
  {
    OnTags(OpEq, key, value, [], s, g);
    OnTags(OpNotEq, key, value, [], s, g);
    OnTags(OpContains, key, value, [], s, g);
    OnTags(OpIn, key, "", values, s, g);
  }

  /** Headers are matched line by line: some line is, or none, what is asked for, and nothing else can be asked. */
  lemma HeadersAreMatched(key: string, value: string, s: HTTPSubject, g: Engine)
    requires key == "req.headers" || key == "res.headers"
    ensures var h := s.Headers(key).value;
            && Answer(Compare(OpEq, key, value, []), s, g) ==
               Verdict(exists t :: t in HeaderLines(h) && (t == value || g.fold(t, value)))
            && Answer(Compare(OpRe, key, value, []), s, g) ==
               Verdict(exists t :: t in HeaderLines(h) && g.regexp(value, t))
            && Answer(Compare(OpContains, key, value, []), s, g) ==
               if HeaderLines(h) == {} then Verdict(false) else Fault(NotDefined(OpContains, key))
  {
    HeadersAreRead(s, key);
    HeaderMeaning(Compare(OpEq, key, value, []), s, g);
    HeaderMeaning(Compare(OpRe, key, value, []), s, g);
    OnMany(Compare(OpEq, key, value, []), s, g);
    OnMany(Compare(OpRe, key, value, []), s, g);
    OnMany(Compare(OpContains, key, value, []), s, g);
  }
}
