/** A query from its text to its answer: what is compiled, checked beforehand and then matched. */
module FilterQuery {
  import FilterParser
  import FilterRoundTrip
  import opened FilterAst
  import opened FilterEval
  import opened FilterSubject
  import opened Wrappers

  lemma {:induction false} WellFormedIsAndOr(e: Expr, env: Env)
    requires FilterRoundTrip.WellFormed(e, env)
    ensures LogicalIsAndOr(e)
  {
    match e {
      case Not(x) => WellFormedIsAndOr(x, env);
      case Logical(_, l, r) =>
        WellFormedIsAndOr(l, env);
        WellFormedIsAndOr(r, env);
      case Text(_) =>
      case Compare(_, _, _, _) =>
    }
  }

  /**
   * A query that compiles, names known keys and uses operators those keys define is plain
   * boolean logic over any exchange: it never faults, and short-circuiting changes nothing.
   */
  lemma CompiledIsPlainLogic(input: string, env: Env, e: Expr, z: HTTPSubject, s: HTTPSubject, g: Engine)
    requires env.Valid() && FilterParser.QueryOf(input, env) == Ok(e)
    requires Validated(e, z) && WellOperated(e, z)
    ensures Answer(e, s, g) == Verdict(Holds(e, s, g))
  {
    FilterRoundTrip.ParsedIsWellFormed(input, e, env);
    WellFormedIsAndOr(e, env);
    ValidatedIsPlainLogic(e, z, s, g);
  }

  /**
   * A query that compiles and names known keys fails on an exchange exactly when reading it, left
   * to right and no further than it must, meets an undefined comparison that has a text.
   */
  lemma WhenACompiledQueryFaults(input: string, env: Env, e: Expr, z: HTTPSubject, s: HTTPSubject, g: Engine)
    requires env.Valid() && FilterParser.QueryOf(input, env) == Ok(e) && Validated(e, z)
    ensures Answer(e, s, g).Fault? <==> Trips(e, s, g)
    ensures !Trips(e, s, g) ==> Answer(e, s, g) == Verdict(Says(e, s, g))
  {
    FilterRoundTrip.ParsedIsWellFormed(input, e, env);
    WellFormedIsAndOr(e, env);
    WhenAQueryFaults(e, z, s, g);
  }
}
