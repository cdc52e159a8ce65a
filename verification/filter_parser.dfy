/** The Pratt parser, proved to be exactly the stratified grammar. */
module FilterParser {
  import opened FilterAst
  import opened FilterGrammar
  import opened FilterLexer
  import opened Wrappers

  const PREC_LOWEST := 0
  const PREC_OR := 1
  const PREC_AND := 2
  const PREC_NOT := 4

  // What one call with a floor has to read: a whole or, a whole and, or one operand.
  ghost function Level(floor: int, ts: seq<Token>, env: Env): Read {
    if floor < PREC_OR then OrRule(ts, env)
    else if floor < PREC_AND then AndRule(ts, env)
    else NotRule(ts, env)
  }

  // What is still to be folded onto left before a call with this floor returns.
  ghost function Folded(floor: int, left: Expr, ts: seq<Token>, env: Env): Read {
    if floor < PREC_OR then
      var a := AndTail(left, ts, env);
      if a.Err? then a else OrTail(a.value.0, a.value.1, env)
    else if floor < PREC_AND then AndTail(left, ts, env)
    else Ok((left, ts))
  }

  // After an operand of OR nothing is left that an AND could take.
  lemma FoldOr(left: Expr, ts: seq<Token>, env: Env)
    requires Starts(ts, OpTok(OpOr))
    ensures AndRule(ts[1..], env).Err? ==> Folded(PREC_LOWEST, left, ts, env) == AndRule(ts[1..], env)
    ensures AndRule(ts[1..], env).Ok? ==>
              var (right, rest) := AndRule(ts[1..], env).value;
              Folded(PREC_LOWEST, left, ts, env) == Folded(PREC_LOWEST, Logical(OpOr, left, right), rest, env)
  {
    assert AndTail(left, ts, env) == Ok((left, ts));
    if AndRule(ts[1..], env).Ok? {
      var (right, rest) := AndRule(ts[1..], env).value;
      var both := Logical(OpOr, left, right);
      assert AndTail(both, rest, env) == Ok((both, rest));
    }
  }

  lemma FoldAnd(floor: int, left: Expr, ts: seq<Token>, env: Env)
    requires floor < PREC_AND && ContinuesAnd(ts)
    ensures var r := NotRule(if StartsOperand(ts) then ts else ts[1..], env);
            Folded(floor, left, ts, env) ==
            if r.Err? then r else Folded(floor, Logical(OpAnd, left, r.value.0), r.value.1, env)
  {
  }

  class Parser {
    const toks: seq<Token>
    const env: Env
    var pos: nat

    // The list ends in its one EOF, and the cursor never passes it.
    ghost predicate Valid()
      reads this
    {
      && pos < |toks|
      && toks[|toks| - 1] == EOF
      && forall i :: 0 <= i < |toks| - 1 ==> toks[i] != EOF
    }

    ghost function Rest(): seq<Token>
      requires Valid()
      reads this
    {
      toks[pos..|toks| - 1]
    }

    constructor (toks: seq<Token>, env: Env)
      requires toks != [] && toks[|toks| - 1] == EOF
      requires forall i :: 0 <= i < |toks| - 1 ==> toks[i] != EOF
      ensures Valid() && this.toks == toks && this.env == env
      ensures Rest() == toks[..|toks| - 1]
    {
      this.toks := toks;
      this.env := env;
      pos := 0;
    }

    function Cur(): (t: Token)
      requires Valid()
      reads this
      ensures t == if Rest() == [] then EOF else Rest()[0]
    {
      toks[pos]
    }

    method Advance() returns (t: Token)
      requires Valid()
      modifies this
      ensures Valid()
      ensures old(Rest()) == [] ==> t == EOF && pos == old(pos) && Rest() == []
      ensures old(Rest()) != [] ==>
                t == old(Rest())[0] && t != EOF && pos == old(pos) + 1 && Rest() == old(Rest())[1..]
    {
      t := toks[pos];
      if t != EOF {
        pos := pos + 1;
      }
    }

    ghost predicate Reads(r: Result<Expr, QueryError>, spec: Read)
      requires Valid()
      reads this
    {
      if r.Ok? then spec == Ok((r.value, Rest())) else spec == Err(r.error)
    }

    method ParseExpr(floor: int) returns (r: Result<Expr, QueryError>)
      requires Valid()
      modifies this
      ensures Valid()
      ensures Reads(r, Level(floor, old(Rest()), env))
      ensures r.Ok? ==> pos > old(pos)
      decreases |toks| - pos, 1
    {
      ghost var all := Rest();
      var first := ParsePrefix();
      if first.Err? {
        assert AndRule(all, env) == Err(first.error);
        return first;
      }
      var left := first.value;

      while true
        invariant Valid() && pos > old(pos)
        invariant Level(floor, all, env) == Folded(floor, left, Rest(), env)
        decreases |toks| - pos
      {
        ghost var ts := Rest();
        var t := Cur();
        if t == OpTok(OpAnd) || t == OpTok(OpOr) {
          var prec := if t.op == OpAnd then PREC_AND else PREC_OR;
          if prec <= floor {
            return Ok(left);
          }
          if t.op == OpOr {
            FoldOr(left, ts, env);
          } else {
            FoldAnd(floor, left, ts, env);
          }
          var _ := Advance();
          var right := ParseExpr(prec);
          if right.Err? {
            return right;
          }
          left := Logical(t.op, left, right.value);
        } else if t.Str? || t == ParenOpen || t == OpTok(OpNot) {
          if PREC_AND <= floor {
            return Ok(left);
          }
          FoldAnd(floor, left, ts, env);
          var right := ParseExpr(PREC_AND);
          if right.Err? {
            return right;
          }
          left := Logical(OpAnd, left, right.value);
        } else {
          return Ok(left);
        }
      }
    }

    method ParsePrefix() returns (r: Result<Expr, QueryError>)
      requires Valid()
      modifies this
      ensures Valid()
      ensures Reads(r, NotRule(old(Rest()), env))
      ensures r.Ok? ==> pos > old(pos)
      decreases |toks| - pos, 0
    {
      var t := Advance();
      if t == ParenOpen {
        r := ParseExpr(PREC_LOWEST);
        if r.Ok? {
          if Cur() != ParenClose {
            return Err(UnmatchedParen);
          }
          var _ := Advance();
        }
      } else if t == OpTok(OpNot) {
        r := ParseExpr(PREC_NOT);
        if r.Ok? {
          r := Ok(Not(r.value));
        }
      } else if t.Str? {
        r := ParseTerm(t.text);
      } else if t == EOF {
        r := Err(UnexpectedEnd);
      } else {
        r := Err(UnexpectedToken);
      }
    }

    method ParseTerm(text: string) returns (r: Result<Expr, QueryError>)
      requires Valid()
      modifies this
      ensures Valid()
      ensures Reads(r, TermRule(text, old(Rest()), env))
      ensures r.Ok? ==> pos >= old(pos)
    {
      ghost var ts := Rest();
      var next := Cur();
      if !next.OpTok? || next.op.IsLogical() {
        return Ok(Text(text));
      }
      var _ := Advance();
      if next.op == OpExists {
        r := Ok(Compare(OpExists, env.Normalize(text), "", []));
      } else if next.op == OpIn {
        var values := ParseList();
        r := if values.Err? then Err(values.error)
             else Ok(Compare(OpIn, env.Normalize(text), "", values.value));
      } else {
        var val := Advance();
        if !val.Str? {
          return Err(NeedsValue);
        }
        assert ts[1..][1..] == ts[2..];
        if next.op.IsRegexp() && !env.compiles(val.text) {
          return Err(BadRegexp);
        }
        r := Ok(Compare(next.op, env.Normalize(text), val.text, []));
      }
    }

    method ParseList() returns (r: Result<seq<string>, QueryError>)
      requires Valid()
      modifies this
      ensures Valid()
      ensures r.Ok? ==> List(old(Rest())) == Ok((r.value, Rest())) && pos > old(pos)
      ensures r.Err? ==> List(old(Rest())) == Err(r.error)
    {
      ghost var all := Rest();
      var open := Advance();
      if open != ParenOpen {
        return Err(NeedsList);
      }
      var values: seq<string> := [];
      while true
        invariant Valid() && pos > old(pos)
        invariant List(all) == ListItems(Rest(), values)
        decreases |toks| - pos
      {
        var t := Advance();
        match t {
          case Str(text) => values := values + [text];
          case Comma =>
          case ParenClose =>
            if values == [] {
              return Err(EmptyList);
            }
            return Ok(values);
          case EOF => return Err(UnclosedList);
          case _ => return Err(UnexpectedInList);
        }
      }
    }
  }

  /** What a query string means, or why it means nothing. */
  ghost function QueryOf(input: string, env: Env): Result<Expr, QueryError> {
    var ts := LexAll(input);
    if ts.Err? then Err(ts.error) else QueryRule(ts.value, env)
  }

  lemma {:induction false} LexHasNoEOF(s: string)
    ensures LexAll(s).Ok? ==> EOF !in LexAll(s).value
    decreases |s|
  {
    if s != "" && LexOne(s).Ok? {
      var one := LexOne(s).value;
      LexHasNoEOF(s[one.1..]);
      assert EOF !in one.0;
    }
  }

  /**
   * Compiling a query answers a tree exactly when its tokens derive that tree,
   * and the stratified grammar's own error otherwise.
   */
  method Parse(input: string, env: Env) returns (r: Result<Expr, QueryError>)
    ensures r == QueryOf(input, env)
    ensures forall e :: r == Ok(e) <==> LexAll(input).Ok? && Derives(LexAll(input).value, e, env)
  {
    forall e | LexAll(input).Ok?
      ensures QueryRule(LexAll(input).value, env) == Ok(e) <==> Derives(LexAll(input).value, e, env)
    {
      QueryIsGrammar(LexAll(input).value, e, env);
    }
    LexHasNoEOF(input);
    var toks := Lex(input);
    if toks.Err? {
      return Err(toks.error);
    }
    var p := new Parser(toks.value, env);
    ghost var ts := p.Rest();
    assert ts == LexAll(input).value;
    if p.Cur() == EOF {
      return Err(EmptyQuery);
    }
    r := p.ParseExpr(PREC_LOWEST);
    if r.Ok? && p.Cur() != EOF {
      r := Err(UnexpectedToken);
    }
  }
}
