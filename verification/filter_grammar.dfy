/**
 * The query grammar, twice: as derivation trees, which say what a query means,
 * and as a stratified reading of the rules, which says how it is read.
 *
 *   or   := and (OR and)*
 *   and  := not (AND? not)*
 *   not  := NOT not | '(' or ')' | term
 *   term := string | string exists | string in list | string op string
 *   list := '(' (string | ',')* ')'   with at least one string
 */
module FilterGrammar {
  import opened FilterAst
  import opened Sequences
  import opened Wrappers

  // ---- derivation trees --------------------------------------------------

  datatype OrTree = OrOne(a: AndTree) | OrMore(l: OrTree, a: AndTree)

  // AndMore spells its AND out, AndBeside leaves it implied.
  datatype AndTree = AndOne(n: NotTree) | AndMore(l: AndTree, n: NotTree) | AndBeside(l: AndTree, n: NotTree)

  datatype NotTree = NotOf(n: NotTree) | Paren(o: OrTree) | Term(t: TermTree)

  datatype TermTree =
    | Bare(text: string)
    | Present(key: string)
    | OneOf(key: string, items: seq<Token>)
    | Versus(key: string, op: Op, value: string)

  function YieldOr(t: OrTree): seq<Token> {
    match t
    case OrOne(a) => YieldAnd(a)
    case OrMore(l, a) => YieldOr(l) + [OpTok(OpOr)] + YieldAnd(a)
  }

  function YieldAnd(t: AndTree): seq<Token> {
    match t
    case AndOne(n) => YieldNot(n)
    case AndMore(l, n) => YieldAnd(l) + [OpTok(OpAnd)] + YieldNot(n)
    case AndBeside(l, n) => YieldAnd(l) + YieldNot(n)
  }

  function YieldNot(t: NotTree): seq<Token> {
    match t
    case NotOf(n) => [OpTok(OpNot)] + YieldNot(n)
    case Paren(o) => [ParenOpen] + YieldOr(o) + [ParenClose]
    case Term(t) => YieldTerm(t)
  }

  function YieldTerm(t: TermTree): seq<Token> {
    match t
    case Bare(text) => [Str(text)]
    case Present(key) => [Str(key), OpTok(OpExists)]
    case OneOf(key, items) => [Str(key), OpTok(OpIn), ParenOpen] + items + [ParenClose]
    case Versus(key, op, value) => [Str(key), OpTok(op), Str(value)]
  }

  // The strings of a list, in order.
  function Strings(items: seq<Token>): seq<string> {
    if items == [] then []
    else if items[0].Str? then [items[0].text] + Strings(items[1..])
    else Strings(items[1..])
  }

  ghost predicate IsListBody(items: seq<Token>) {
    && Strings(items) != []
    && forall i :: 0 <= i < |items| ==> items[i].Str? || items[i] == Comma
  }

  ghost predicate LegalTerm(t: TermTree, env: Env) {
    match t
    case Bare(_) => true
    case Present(_) => true
    case OneOf(_, items) => IsListBody(items)
    case Versus(_, op, value) => op.TakesValue() && (op.IsRegexp() ==> env.compiles(value))
  }

  ghost predicate LegalNot(t: NotTree, env: Env) {
    match t
    case NotOf(n) => LegalNot(n, env)
    case Paren(o) => LegalOr(o, env)
    case Term(t) => LegalTerm(t, env)
  }

  ghost predicate LegalAnd(t: AndTree, env: Env) {
    match t
    case AndOne(n) => LegalNot(n, env)
    case AndMore(l, n) => LegalAnd(l, env) && LegalNot(n, env)
    case AndBeside(l, n) => LegalAnd(l, env) && LegalNot(n, env)
  }

  ghost predicate LegalOr(t: OrTree, env: Env) {
    match t
    case OrOne(a) => LegalAnd(a, env)
    case OrMore(l, a) => LegalOr(l, env) && LegalAnd(a, env)
  }

  function MeanTerm(t: TermTree, env: Env): Expr {
    match t
    case Bare(text) => Text(text)
    case Present(key) => Compare(OpExists, env.Normalize(key), "", [])
    case OneOf(key, items) => Compare(OpIn, env.Normalize(key), "", Strings(items))
    case Versus(key, op, value) => Compare(op, env.Normalize(key), value, [])
  }

  // Both binary levels group to the left, and an implicit AND is an AND.
  function MeanOr(t: OrTree, env: Env): Expr {
    match t
    case OrOne(a) => MeanAnd(a, env)
    case OrMore(l, a) => Logical(OpOr, MeanOr(l, env), MeanAnd(a, env))
  }

  function MeanAnd(t: AndTree, env: Env): Expr {
    match t
    case AndOne(n) => MeanNot(n, env)
    case AndMore(l, n) => Logical(OpAnd, MeanAnd(l, env), MeanNot(n, env))
    case AndBeside(l, n) => Logical(OpAnd, MeanAnd(l, env), MeanNot(n, env))
  }

  function MeanNot(t: NotTree, env: Env): Expr {
    match t
    case NotOf(n) => Not(MeanNot(n, env))
    case Paren(o) => MeanOr(o, env)
    case Term(t) => MeanTerm(t, env)
  }

  /** The whole token list derives e. */
  ghost predicate Derives(ts: seq<Token>, e: Expr, env: Env) {
    exists t: OrTree :: LegalOr(t, env) && YieldOr(t) == ts && MeanOr(t, env) == e
  }

  // ---- the rules, read left to right -------------------------------------

  // What was read and the tokens left.
  type Read = Result<(Expr, seq<Token>), QueryError>

  predicate Starts(ts: seq<Token>, t: Token) {
    ts != [] && ts[0] == t
  }

  // A term, a parenthesis or NOT: what an implicit AND may stand in front of.
  predicate StartsOperand(ts: seq<Token>) {
    ts != [] && (ts[0].Str? || ts[0] == ParenOpen || ts[0] == OpTok(OpNot))
  }

  predicate ContinuesAnd(ts: seq<Token>) {
    Starts(ts, OpTok(OpAnd)) || StartsOperand(ts)
  }

  predicate StartsComparison(ts: seq<Token>) {
    ts != [] && ts[0].OpTok? && !ts[0].op.IsLogical()
  }

  function ListItems(ts: seq<Token>, acc: seq<string>): (r: Result<(seq<string>, seq<Token>), QueryError>)
    ensures r.Ok? ==> |r.value.1| < |ts|
  {
    if ts == [] then Err(UnclosedList)
    else
      match ts[0]
      case Str(text) => ListItems(ts[1..], acc + [text])
      case Comma => ListItems(ts[1..], acc)
      case ParenClose => if acc == [] then Err(EmptyList) else Ok((acc, ts[1..]))
      case _ => Err(UnexpectedInList)
  }

  function List(ts: seq<Token>): (r: Result<(seq<string>, seq<Token>), QueryError>)
    ensures r.Ok? ==> |r.value.1| < |ts|
  {
    if Starts(ts, ParenOpen) then ListItems(ts[1..], []) else Err(NeedsList)
  }

  // A term whose leading string has just been read.
  function TermRule(text: string, ts: seq<Token>, env: Env): (r: Read)
    ensures r.Ok? ==> |r.value.1| <= |ts|
  {
    if !StartsComparison(ts) then Ok((Text(text), ts))
    else
      var op := ts[0].op;
      if op == OpExists then Ok((Compare(OpExists, env.Normalize(text), "", []), ts[1..]))
      else if op == OpIn then
        var l := List(ts[1..]);
        if l.Err? then Err(l.error)
        else Ok((Compare(OpIn, env.Normalize(text), "", l.value.0), l.value.1))
      else if |ts| == 1 || !ts[1].Str? then Err(NeedsValue)
      else if op.IsRegexp() && !env.compiles(ts[1].text) then Err(BadRegexp)
      else Ok((Compare(op, env.Normalize(text), ts[1].text, []), ts[2..]))
  }

  function NotRule(ts: seq<Token>, env: Env): (r: Read)
    ensures r.Ok? ==> |r.value.1| < |ts|
    decreases |ts|, 0
  {
    if ts == [] then Err(UnexpectedEnd)
    else
      match ts[0]
      case ParenOpen =>
        var inner := OrRule(ts[1..], env);
        if inner.Err? then inner
        else if !Starts(inner.value.1, ParenClose) then Err(UnmatchedParen)
        else Ok((inner.value.0, inner.value.1[1..]))
      case OpTok(OpNot) =>
        var x := NotRule(ts[1..], env);
        if x.Err? then x else Ok((Not(x.value.0), x.value.1))
      case Str(text) => TermRule(text, ts[1..], env)
      case _ => Err(UnexpectedToken)
  }

  // (AND? not)* after left.
  function AndTail(left: Expr, ts: seq<Token>, env: Env): (r: Read)
    ensures r.Ok? ==> |r.value.1| <= |ts| && !ContinuesAnd(r.value.1)
    decreases |ts|, 1
  {
    if !ContinuesAnd(ts) then Ok((left, ts))
    else
      var right := NotRule(if StartsOperand(ts) then ts else ts[1..], env);
      if right.Err? then right else AndTail(Logical(OpAnd, left, right.value.0), right.value.1, env)
  }

  function AndRule(ts: seq<Token>, env: Env): (r: Read)
    ensures r.Ok? ==> |r.value.1| < |ts| && !ContinuesAnd(r.value.1)
    decreases |ts|, 2
  {
    var first := NotRule(ts, env);
    if first.Err? then first else AndTail(first.value.0, first.value.1, env)
  }

  // (OR and)* after left.
  function OrTail(left: Expr, ts: seq<Token>, env: Env): (r: Read)
    ensures r.Ok? ==> |r.value.1| <= |ts|
    decreases |ts|, 3
  {
    if !Starts(ts, OpTok(OpOr)) then Ok((left, ts))
    else
      var right := AndRule(ts[1..], env);
      if right.Err? then right else OrTail(Logical(OpOr, left, right.value.0), right.value.1, env)
  }

  function OrRule(ts: seq<Token>, env: Env): (r: Read)
    ensures r.Ok? ==> |r.value.1| < |ts|
    decreases |ts|, 4
  {
    var first := AndRule(ts, env);
    if first.Err? then first else OrTail(first.value.0, first.value.1, env)
  }

  function QueryRule(ts: seq<Token>, env: Env): Result<Expr, QueryError> {
    if ts == [] then Err(EmptyQuery)
    else
      var r := OrRule(ts, env);
      if r.Err? then Err(r.error)
      else if r.value.1 != [] then Err(UnexpectedToken)
      else Ok(r.value.0)
  }

  // ---- the two agree: what is read is derived ----------------------------

  lemma {:induction false} ListItemsSound(ts: seq<Token>, acc: seq<string>) returns (items: seq<Token>)
    requires ListItems(ts, acc).Ok?
    ensures forall i :: 0 <= i < |items| ==> items[i].Str? || items[i] == Comma
    ensures ts == items + [ParenClose] + ListItems(ts, acc).value.1
    ensures ListItems(ts, acc).value.0 == acc + Strings(items)
    ensures acc + Strings(items) != []
  {
    if ts[0] == ParenClose {
      items := [];
      assert acc + [] == acc;
    } else {
      var acc' := if ts[0].Str? then acc + [ts[0].text] else acc;
      var tail := ListItemsSound(ts[1..], acc');
      items := [ts[0]] + tail;
      assert items[1..] == tail;
      assert ts == [ts[0]] + ts[1..];
      assert acc' + Strings(tail) == acc + Strings(items);
    }
  }

  lemma InSound(text: string, ts: seq<Token>, items: seq<Token>, rest: seq<Token>)
    requires |ts| >= 2 && ts[0] == OpTok(OpIn) && ts[1] == ParenOpen
    requires ts[2..] == items + [ParenClose] + rest
    ensures YieldTerm(OneOf(text, items)) + rest == [Str(text)] + ts
  {
    var head := [Str(text), OpTok(OpIn), ParenOpen];
    assert [Str(text)] + ts == head + ts[2..];
    Regrouped(head, items, [ParenClose]);
    Regrouped(head, items + [ParenClose], rest);
  }

  lemma TermSound(text: string, ts: seq<Token>, env: Env) returns (t: TermTree)
    requires TermRule(text, ts, env).Ok?
    ensures LegalTerm(t, env) && MeanTerm(t, env) == TermRule(text, ts, env).value.0
    ensures YieldTerm(t) + TermRule(text, ts, env).value.1 == [Str(text)] + ts
  {
    if !StartsComparison(ts) {
      t := Bare(text);
    } else if ts[0].op == OpExists {
      t := Present(text);
    } else if ts[0].op == OpIn {
      var items := ListItemsSound(ts[2..], []);
      assert ts[1..][1..] == ts[2..];
      assert [] + Strings(items) == Strings(items);
      t := OneOf(text, items);
      InSound(text, ts, items, List(ts[1..]).value.1);
    } else {
      t := Versus(text, ts[0].op, ts[1].text);
    }
  }

  lemma {:induction false} NotSound(ts: seq<Token>, env: Env) returns (t: NotTree)
    requires NotRule(ts, env).Ok?
    ensures LegalNot(t, env) && MeanNot(t, env) == NotRule(ts, env).value.0
    ensures YieldNot(t) + NotRule(ts, env).value.1 == ts
    decreases |ts|, 0
  {
    var tail := ts[1..];
    assert ts == [ts[0]] + tail;
    match ts[0] {
      case ParenOpen =>
        var o := OrSound(tail, env);
        t := Paren(o);
        var rest := OrRule(tail, env).value.1;
        Regrouped([ParenOpen], YieldOr(o), [ParenClose]);
        Regrouped([ParenOpen], YieldOr(o) + [ParenClose], rest[1..]);
        Regrouped(YieldOr(o), [ParenClose], rest[1..]);
        assert rest == [ParenClose] + rest[1..];
      case OpTok(_) =>
        var n := NotSound(tail, env);
        t := NotOf(n);
        Regrouped([OpTok(OpNot)], YieldNot(n), NotRule(tail, env).value.1);
      case Str(text) =>
        var term := TermSound(text, tail, env);
        t := Term(term);
    }
  }

  lemma {:induction false} AndTailSound(l: AndTree, ts: seq<Token>, env: Env) returns (t: AndTree)
    requires LegalAnd(l, env) && AndTail(MeanAnd(l, env), ts, env).Ok?
    ensures LegalAnd(t, env) && MeanAnd(t, env) == AndTail(MeanAnd(l, env), ts, env).value.0
    ensures YieldAnd(t) + AndTail(MeanAnd(l, env), ts, env).value.1 == YieldAnd(l) + ts
    decreases |ts|, 1
  {
    if !ContinuesAnd(ts) {
      t := l;
    } else if StartsOperand(ts) {
      var n := NotSound(ts, env);
      var rest := NotRule(ts, env).value.1;
      t := AndTailSound(AndBeside(l, n), rest, env);
      Regrouped(YieldAnd(l), YieldNot(n), rest);
    } else {
      var n := NotSound(ts[1..], env);
      var rest := NotRule(ts[1..], env).value.1;
      t := AndTailSound(AndMore(l, n), rest, env);
      Regrouped(YieldAnd(l) + [OpTok(OpAnd)], YieldNot(n), rest);
      Regrouped(YieldAnd(l), [OpTok(OpAnd)], ts[1..]);
      assert ts == [OpTok(OpAnd)] + ts[1..];
    }
  }

  lemma {:induction false} AndSound(ts: seq<Token>, env: Env) returns (t: AndTree)
    requires AndRule(ts, env).Ok?
    ensures LegalAnd(t, env) && MeanAnd(t, env) == AndRule(ts, env).value.0
    ensures YieldAnd(t) + AndRule(ts, env).value.1 == ts
    decreases |ts|, 2
  {
    var n := NotSound(ts, env);
    t := AndTailSound(AndOne(n), NotRule(ts, env).value.1, env);
  }

  lemma {:induction false} OrTailSound(l: OrTree, ts: seq<Token>, env: Env) returns (t: OrTree)
    requires LegalOr(l, env) && OrTail(MeanOr(l, env), ts, env).Ok?
    ensures LegalOr(t, env) && MeanOr(t, env) == OrTail(MeanOr(l, env), ts, env).value.0
    ensures YieldOr(t) + OrTail(MeanOr(l, env), ts, env).value.1 == YieldOr(l) + ts
    decreases |ts|, 3
  {
    if !Starts(ts, OpTok(OpOr)) {
      t := l;
    } else {
      var a := AndSound(ts[1..], env);
      var rest := AndRule(ts[1..], env).value.1;
      t := OrTailSound(OrMore(l, a), rest, env);
      Regrouped(YieldOr(l) + [OpTok(OpOr)], YieldAnd(a), rest);
      Regrouped(YieldOr(l), [OpTok(OpOr)], ts[1..]);
      assert ts == [OpTok(OpOr)] + ts[1..];
    }
  }

  lemma {:induction false} OrSound(ts: seq<Token>, env: Env) returns (t: OrTree)
    requires OrRule(ts, env).Ok?
    ensures LegalOr(t, env) && MeanOr(t, env) == OrRule(ts, env).value.0
    ensures YieldOr(t) + OrRule(ts, env).value.1 == ts
    decreases |ts|, 4
  {
    var a := AndSound(ts, env);
    t := OrTailSound(OrOne(a), AndRule(ts, env).value.1, env);
  }

  // ---- the two agree: what is derived is read ----------------------------

  lemma {:induction false} ListItemsComplete(items: seq<Token>, rest: seq<Token>, acc: seq<string>)
    requires forall i :: 0 <= i < |items| ==> items[i].Str? || items[i] == Comma
    requires acc + Strings(items) != []
    ensures ListItems(items + [ParenClose] + rest, acc) == Ok((acc + Strings(items), rest))
  {
    var ts := items + [ParenClose] + rest;
    if items == [] {
      assert ts[1..] == rest && acc + [] == acc;
    } else {
      var acc' := if items[0].Str? then acc + [items[0].text] else acc;
      assert ts[1..] == items[1..] + [ParenClose] + rest;
      assert acc' + Strings(items[1..]) == acc + Strings(items);
      ListItemsComplete(items[1..], rest, acc');
    }
  }

  lemma TermComplete(t: TermTree, rest: seq<Token>, env: Env)
    requires LegalTerm(t, env) && !StartsComparison(rest)
    ensures NotRule(YieldTerm(t) + rest, env) == Ok((MeanTerm(t, env), rest))
  {
    var ts := YieldTerm(t) + rest;
    match t {
      case Bare(_) => assert ts[1..] == rest;
      case Present(_) => assert ts[1..][1..] == rest;
      case Versus(_, _, _) => assert ts[1..][2..] == rest;
      case OneOf(key, items) =>
        assert ts[1..][1..][1..] == items + [ParenClose] + rest;
        assert [] + Strings(items) == Strings(items);
        ListItemsComplete(items, rest, []);
        assert List(ts[1..][1..]) == Ok((Strings(items), rest));
    }
  }

  lemma {:induction false} NotComplete(t: NotTree, rest: seq<Token>, env: Env)
    requires LegalNot(t, env) && !StartsComparison(rest)
    ensures NotRule(YieldNot(t) + rest, env) == Ok((MeanNot(t, env), rest))
    ensures StartsOperand(YieldNot(t) + rest)
    decreases t, 0
  {
    var ts := YieldNot(t) + rest;
    match t {
      case NotOf(n) =>
        NotComplete(n, rest, env);
        assert ts[1..] == YieldNot(n) + rest;
      case Paren(o) =>
        ParenComplete(o, rest, env);
      case Term(t) => TermComplete(t, rest, env);
    }
  }

  lemma {:induction false} ParenComplete(o: OrTree, rest: seq<Token>, env: Env)
    requires LegalOr(o, env) && !StartsComparison(rest)
    ensures NotRule(YieldNot(Paren(o)) + rest, env) == Ok((MeanOr(o, env), rest))
    decreases o, 1
  {
    var after := [ParenClose] + rest;
    OrComplete(o, after, env);
    var ts := YieldNot(Paren(o)) + rest;
    assert ts[0] == ParenOpen && ts[1..] == YieldOr(o) + after;
    assert OrTail(MeanOr(o, env), after, env) == Ok((MeanOr(o, env), after));
    assert after[1..] == rest;
  }

  // Reading an and-chain arrives at its tree, with the tail still to come.
  lemma {:induction false} AndComplete(t: AndTree, rest: seq<Token>, env: Env)
    requires LegalAnd(t, env) && !StartsComparison(rest)
    ensures AndRule(YieldAnd(t) + rest, env) == AndTail(MeanAnd(t, env), rest, env)
    decreases t, 0
  {
    match t {
      case AndOne(n) => NotComplete(n, rest, env);
      case AndMore(l, n) =>
        NotComplete(n, rest, env);
        var mid := [OpTok(OpAnd)] + (YieldNot(n) + rest);
        Regrouped(YieldAnd(l) + [OpTok(OpAnd)], YieldNot(n), rest);
        Regrouped(YieldAnd(l), [OpTok(OpAnd)], YieldNot(n) + rest);
        AndComplete(l, mid, env);
        assert mid[1..] == YieldNot(n) + rest;
      case AndBeside(l, n) =>
        NotComplete(n, rest, env);
        Regrouped(YieldAnd(l), YieldNot(n), rest);
        AndComplete(l, YieldNot(n) + rest, env);
    }
  }

  lemma {:induction false} OrComplete(t: OrTree, rest: seq<Token>, env: Env)
    requires LegalOr(t, env) && !StartsComparison(rest) && !ContinuesAnd(rest)
    ensures OrRule(YieldOr(t) + rest, env) == OrTail(MeanOr(t, env), rest, env)
    decreases t, 0
  {
    match t {
      case OrOne(a) => AndComplete(a, rest, env);
      case OrMore(l, a) =>
        AndComplete(a, rest, env);
        var mid := [OpTok(OpOr)] + (YieldAnd(a) + rest);
        assert YieldOr(t) + rest == YieldOr(l) + mid;
        OrComplete(l, mid, env);
        assert mid[1..] == YieldAnd(a) + rest;
    }
  }

  /** A query is accepted exactly when the grammar derives all of it, as exactly that tree. */
  lemma QueryIsGrammar(ts: seq<Token>, e: Expr, env: Env)
    ensures QueryRule(ts, env) == Ok(e) <==> Derives(ts, e, env)
  {
    if QueryRule(ts, env) == Ok(e) {
      var t := OrSound(ts, env);
      assert YieldOr(t) + [] == YieldOr(t);
    }
    if Derives(ts, e, env) {
      var t :| LegalOr(t, env) && YieldOr(t) == ts && MeanOr(t, env) == e;
      OrComplete(t, [], env);
      assert YieldOr(t) + [] == ts;
      assert OrTail(e, [], env) == Ok((e, []));
    }
  }

  /** No token list means two things. */
  lemma DerivationIsUnique(ts: seq<Token>, e1: Expr, e2: Expr, env: Env)
    requires Derives(ts, e1, env) && Derives(ts, e2, env)
    ensures e1 == e2
  {
    QueryIsGrammar(ts, e1, env);
    QueryIsGrammar(ts, e2, env);
  }
}
