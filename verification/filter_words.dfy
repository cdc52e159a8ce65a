/** Which words of a query are operators, letter by letter, and that their case does not matter. */
module FilterWords {
  import opened FilterAst
  import opened FilterGrammar
  import opened FilterLexer
  import opened FilterParser
  import opened FilterRoundTrip
  import opened Wrappers

  // ---- words by their letters --------------------------------------------

  // A letter of the alphabet as it is, as its capital, or as the one other character with that capital.
  predicate StandsFor(c: char, letter: char) {
    || c == letter
    || ('a' <= letter <= 'z' && c as int == letter as int - 32)
    || (letter == 'i' && c == '\U{0131}')
    || (letter == 's' && c == '\U{017F}')
  }

  predicate InAnyCase(w: string, name: string) {
    |w| == |name| && forall i :: 0 <= i < |w| ==> StandsFor(w[i], name[i])
  }

  predicate Spells(w: string, op: Op) {
    match op
    case OpAnd => InAnyCase(w, "and")
    case OpOr => InAnyCase(w, "or")
    case OpNot => InAnyCase(w, "not")
    case OpContains => InAnyCase(w, "contains")
    case OpIn => InAnyCase(w, "in")
    case OpExists => InAnyCase(w, "exists")
    case _ => false
  }

  predicate Letters(name: string) {
    forall i :: 0 <= i < |name| ==> 'a' <= name[i] <= 'z'
  }

  lemma CapitalLetter(c: char, letter: char)
    requires 'a' <= letter <= 'z'
    ensures StandsFor(c, letter) <==> Upper(c) == Upper(letter)
  {
  }

  lemma CapitalWord(w: string, name: string)
    requires Letters(name)
    ensures InAnyCase(w, name) <==> UpperWord(w) == UpperWord(name)
  {
    forall i | 0 <= i < |w| && |w| == |name|
      ensures StandsFor(w[i], name[i]) <==> UpperWord(w)[i] == UpperWord(name)[i]
    {
      CapitalLetter(w[i], name[i]);
    }
    assert UpperWord(w) == UpperWord(name) ==> |w| == |name|;
  }

  lemma Capitals()
    ensures UpperWord("and") == "AND" && UpperWord("or") == "OR" && UpperWord("not") == "NOT"
    ensures UpperWord("contains") == "CONTAINS" && UpperWord("in") == "IN" && UpperWord("exists") == "EXISTS"
  {
  }

  lemma ReservedByLetters(w: string)
    ensures forall op :: Classify(w) == OpTok(op) <==> Spells(w, op)
    ensures (forall op :: !Spells(w, op)) ==> Classify(w) == Str(w)
  {
    Capitals();
    CapitalWord(w, "and");
    CapitalWord(w, "or");
    CapitalWord(w, "not");
    CapitalWord(w, "contains");
    CapitalWord(w, "in");
    CapitalWord(w, "exists");
    assert UpperWord(w) == "AND" <==> Spells(w, OpAnd);
    assert UpperWord(w) == "OR" <==> Spells(w, OpOr);
    assert UpperWord(w) == "NOT" <==> Spells(w, OpNot);
    assert UpperWord(w) == "CONTAINS" <==> Spells(w, OpContains);
    assert UpperWord(w) == "IN" <==> Spells(w, OpIn);
    assert UpperWord(w) == "EXISTS" <==> Spells(w, OpExists);
  }

  // A character a word is commonly written in.
  predicate PlainLetter(c: char) {
    || 'a' <= c <= 'z' || 'A' <= c <= 'Z' || '0' <= c <= '9' || c == '.' || c == '-' || c == '_'
    || c == '\U{0131}' || c == '\U{017F}'
  }

  // What a word ends before: the end, a space, or a character of the language's own.
  predicate EndsWord(rest: string) {
    rest == "" || rest[0] in " \t\r\n(),=\"!<>"
  }

  /**
   * A word that spells one of the six operators, in any mixture of cases, is read as that operator, and any
   * other word as the string it is.
   */
  lemma WordsAreRead(w: string, rest: string)
    requires w != "" && (forall i :: 0 <= i < |w| ==> PlainLetter(w[i])) && EndsWord(rest)
    ensures forall op :: Spells(w, op) ==> LexAll(w + rest) == Then(Ok([OpTok(op)]), LexAll(rest))
    ensures (forall op :: !Spells(w, op)) ==> LexAll(w + rest) == Then(Ok([Str(w)]), LexAll(rest))
  {
    assert IsWord(w);
    LexWord(w, rest);
    ReservedByLetters(w);
  }

  /** A word alone is one token and the end. */
  lemma WordIsRead(w: string)
    requires w != "" && forall i :: 0 <= i < |w| ==> PlainLetter(w[i])
    ensures forall op :: Spells(w, op) ==> Then(LexAll(w), Ok([EOF])) == Ok([OpTok(op), EOF])
    ensures (forall op :: !Spells(w, op)) ==> Then(LexAll(w), Ok([EOF])) == Ok([Str(w), EOF])
  {
    WordsAreRead(w, "");
    assert w + "" == w;
    AloneBeforeEnd(w, Str(w));
    forall op | Spells(w, op) ensures Then(LexAll(w), Ok([EOF])) == Ok([OpTok(op), EOF]) {
      AloneBeforeEnd(w, OpTok(op));
    }
  }

  lemma AloneBeforeEnd(w: string, t: Token)
    ensures LexAll(w) == Then(Ok([t]), LexAll("")) ==> Then(LexAll(w), Ok([EOF])) == Ok([t, EOF])
  {
    assert [t] + [] == [t] && [t] + [EOF] == [t, EOF];
  }

  // ---- the operators that are no words -----------------------------------

  predicate Writes(text: string, op: Op) {
    match op
    case OpEq => text == "="
    case OpNotEq => text == "!="
    case OpGt => text == ">"
    case OpLt => text == "<"
    case OpGtEq => text == ">="
    case OpLtEq => text == "<="
    case OpRe => text == "=~"
    case OpNotRe => text == "!~"
    case _ => false
  }

  // With this after it, a symbol of one character is half of one of two.
  predicate GoesOn(text: string, rest: string) {
    |text| == 1 && rest != "" && rest[0] == if text == "=" then '~' else '='
  }

  /** A symbol is read as its operator, two characters that go together as one. */
  lemma SymbolsAreRead(text: string, op: Op, rest: string)
    requires Writes(text, op) && !GoesOn(text, rest)
    ensures LexAll(text + rest) == Then(Ok([OpTok(op)]), LexAll(rest))
  {
    SymbolReads(text, op, rest);
    HeadThenRest(text, [OpTok(op)], rest);
  }

  lemma SymbolReads(text: string, op: Op, rest: string)
    requires Writes(text, op) && !GoesOn(text, rest)
    ensures LexOne(text + rest) == Ok(([OpTok(op)], |text|))
  {
    var s := text + rest;
    assert s[0] == text[0];
    if |text| == 2 {
      assert s[..2] == text;
    } else if rest != "" {
      assert s[..2] == [text[0], rest[0]];
    }
  }

  /** An exclamation mark alone is no operator. */
  lemma BangAloneIsRefused(rest: string)
    requires rest == "" || (rest[0] != '=' && rest[0] != '~')
    ensures LexAll("!" + rest) == Err(InvalidOperator)
  {
    BangHead("!" + rest);
    RefusedHead("!" + rest);
  }

  lemma BangHead(s: string)
    requires s != "" && s[0] == '!' && (|s| > 1 ==> s[1] != '=' && s[1] != '~')
    ensures LexOne(s) == Err(InvalidOperator)
  {
    assert |s| > 1 ==> s[..2][0] == s[0] && s[..2][1] == s[1];
  }

  lemma RefusedHead(s: string)
    requires s != "" && LexOne(s).Err?
    ensures LexAll(s) == Err(LexOne(s).error)
  {
  }

  // ---- case does not matter ----------------------------------------------

  predicate SpellSame(v: string, w: string) {
    exists op :: Spells(v, op) && Spells(w, op)
  }

  // One query is the other, piece by piece, but for the case of its operator words.
  ghost predicate SameButCase(s: string, t: string)
    decreases |s|
  {
    if s == "" || LexOne(s).Err? then t == s
    else
      var n := LexOne(s).value.1;
      && n <= |t| && (t[..n] == s[..n] || SpellSame(s[..n], t[..n]))
      && SameButCase(s[n..], t[n..])
  }

  // A character an operator word may have: of no symbol, and no end of a word.
  predicate Lettery(c: char) {
    IsWordChar(c) && c != '~' && c != '='
  }

  lemma LetterIsLettery(c: char, letter: char)
    requires 'a' <= letter <= 'z' && StandsFor(c, letter)
    ensures Lettery(c)
  {
  }

  lemma CasingIsWord(w: string, name: string)
    requires name != "" && Letters(name) && InAnyCase(w, name)
    ensures IsWord(w) && Lettery(w[0])
  {
    forall i | 0 <= i < |w| ensures Lettery(w[i]) {
      LetterIsLettery(w[i], name[i]);
    }
  }

  lemma SpelledIsWord(w: string, op: Op)
    requires Spells(w, op)
    ensures IsWord(w) && Lettery(w[0])
  {
    match op {
      case OpAnd => CasingIsWord(w, "and");
      case OpOr => CasingIsWord(w, "or");
      case OpNot => CasingIsWord(w, "not");
      case OpContains => CasingIsWord(w, "contains");
      case OpIn => CasingIsWord(w, "in");
      case OpExists => CasingIsWord(w, "exists");
      case _ =>
    }
  }

  // Two characters that are one, or letters of some operator word.
  predicate Alike(a: char, b: char) {
    a == b || (Lettery(a) && Lettery(b))
  }

  lemma PiecesAlike(v: string, w: string)
    requires v != "" && (v == w || SpellSame(v, w))
    ensures w != "" && Alike(v[0], w[0])
  {
    if v != w {
      var op :| Spells(v, op) && Spells(w, op);
      SpelledIsWord(v, op);
      SpelledIsWord(w, op);
    }
  }

  // Two queries that are over together, or go on alike.
  predicate GoAlike(s: string, t: string) {
    if s == "" || t == "" then s == t else Alike(s[0], t[0])
  }

  lemma HeadsAlike(s: string, t: string)
    requires SameButCase(s, t)
    ensures GoAlike(s, t)
  {
    if s != "" && LexOne(s).Ok? {
      var n := LexOne(s).value.1;
      PiecesAlike(s[..n], t[..n]);
      assert s[0] == s[..n][0] && t[0] == t[..n][0];
    }
  }

  // The head of both is one and the same token.
  lemma SameHead(s: string, t: string)
    requires s != "" && LexOne(s).Ok? && SameButCase(s, t)
    ensures t != "" && LexOne(t) == LexOne(s)
  {
    var n := LexOne(s).value.1;
    HeadsAlike(s[n..], t[n..]);
    SamePiece(s, t, n);
  }

  lemma SamePiece(s: string, t: string, n: nat)
    requires s != "" && LexOne(s).Ok? && LexOne(s).value.1 == n <= |t|
    requires (t[..n] == s[..n] || SpellSame(s[..n], t[..n])) && GoAlike(s[n..], t[n..])
    ensures t != "" && LexOne(t) == LexOne(s)
  {
    var v, w := s[..n], t[..n];
    assert s[0] == v[0];
    if IsWordChar(s[0]) {
      WordIsSame(v, w, s[n..], t[n..]);
      assert s == v + s[n..] && t == w + t[n..];
    } else {
      NotSpelled(v, w);
      OtherIsSame(s, t, n);
    }
  }

  lemma OtherIsSame(s: string, t: string, n: nat)
    requires s != "" && !IsWordChar(s[0]) && LexOne(s).Ok? && LexOne(s).value.1 == n <= |t|
    requires t[..n] == s[..n] && GoAlike(s[n..], t[n..])
    ensures t != "" && LexOne(t) == LexOne(s)
  {
    assert t[0] == t[..n][0] == s[..n][0];
    if s[0] == '"' {
      QuoteIsSame(s, t, n);
    } else if StartsOperator(s[0]) {
      SameOperator(s, t, n);
    }
  }

  lemma WordIsSame(v: string, w: string, a: string, b: string)
    requires IsWord(v) && (v == w || SpellSame(v, w))
    requires (a == "" || !IsWordChar(a[0])) && GoAlike(a, b)
    ensures LexOne(w + b) == LexOne(v + a)
  {
    SameWord(v, w);
    assert |v| == |w|;
    WordHead(v, a);
    WordHead(w, b);
  }

  lemma QuoteIsSame(s: string, t: string, n: nat)
    requires 2 <= n <= |s| && n <= |t| && s[0] == '"' && t[..n] == s[..n] && IndexOf(s[1..], '"') == n - 2
    ensures LexOne(t) == LexOne(s)
  {
    var text := s[1..n - 1];
    assert t[..n][1..n - 1] == s[..n][1..n - 1];
    assert t[0] == t[..n][0] && t[n - 1] == t[..n][n - 1] == s[..n][n - 1] == s[1..][n - 2];
    assert forall i :: 0 <= i < |text| ==> text[i] == s[1..][i];
    assert t[1..] == text + ("\"" + t[n..]);
    QuoteEnds(text, t[n..]);
    assert t[1..1 + (n - 2)] == text;
  }

  lemma NotSpelled(v: string, w: string)
    requires v != "" && !IsWordChar(v[0]) && (v == w || SpellSame(v, w))
    ensures v == w
  {
    if v != w {
      var op :| Spells(v, op) && Spells(w, op);
      SpelledIsWord(v, op);
    }
  }

  lemma SameWord(v: string, w: string)
    requires IsWord(v) && (v == w || SpellSame(v, w))
    ensures IsWord(w) && Classify(w) == Classify(v)
  {
    if v != w {
      var op :| Spells(v, op) && Spells(w, op);
      SpelledIsWord(w, op);
      ReservedByLetters(v);
      ReservedByLetters(w);
    }
  }

  lemma SameOperator(s: string, t: string, n: nat)
    requires s != "" && StartsOperator(s[0]) && LexOperator(s).Ok? && LexOperator(s).value.1 == n <= |t|
    requires t[..n] == s[..n] && GoAlike(s[n..], t[n..])
    ensures LexOperator(t) == LexOperator(s)
  {
    assert t[0] == t[..n][0] == s[..n][0];
    if n == 2 {
      assert t[..2] == s[..2];
    } else {
      assert |s| > 1 ==> s[..2] == [s[0], s[1]] && s[n..][0] == s[1];
      assert |t| > 1 ==> t[..2] == [t[0], t[1]] && t[n..][0] == t[1];
    }
  }

  /** Two queries that differ in the case of their operator words alone are read as the same tokens. */
  lemma {:induction false} CaseIsNotRead(s: string, t: string)
    requires SameButCase(s, t)
    ensures LexAll(t) == LexAll(s)
    decreases |s|
  {
    if s != "" && LexOne(s).Ok? {
      var n := LexOne(s).value.1;
      SameHead(s, t);
      CaseIsNotRead(s[n..], t[n..]);
    }
  }

  /** They compile to the same tree, or are refused alike. */
  lemma CaseDoesNotMatter(s: string, t: string, env: Env)
    requires SameButCase(s, t)
    ensures QueryOf(t, env) == QueryOf(s, env)
  {
    CaseIsNotRead(s, t);
  }

  lemma {:induction false} SameAsItself(s: string)
    ensures SameButCase(s, s)
    decreases |s|
  {
    if s != "" && LexOne(s).Ok? {
      SameAsItself(s[LexOne(s).value.1..]);
    }
  }

  lemma OneWordRecased(v: string, w: string, rest: string, op: Op)
    requires Spells(v, op) && Spells(w, op) && EndsWord(rest)
    ensures SameButCase(v + rest, w + rest)
  {
    SpelledIsWord(v, op);
    WordHead(v, rest);
    assert (v + rest)[..|v|] == v && (w + rest)[..|v|] == w;
    assert (v + rest)[|v|..] == rest && (w + rest)[|v|..] == rest;
    SameAsItself(rest);
  }

  /** So an operator word that stands after a space, outside quotes, may be written in any case. */
  lemma AnyCaseWillDo(before: string, v: string, w: string, rest: string, op: Op, env: Env)
    requires '"' !in before && Spells(v, op) && Spells(w, op) && EndsWord(rest)
    ensures QueryOf(before + " " + (v + rest), env) == QueryOf(before + " " + (w + rest), env)
  {
    OneWordRecased(v, w, rest, op);
    CaseIsNotRead(v + rest, w + rest);
    LexBeforeSpace(before, v + rest);
    LexBeforeSpace(before, w + rest);
  }

  // A word that is a string, whatever its case.
  ghost predicate PlainString(w: string) {
    w != "" && (forall i :: 0 <= i < |w| ==> PlainLetter(w[i])) && forall op :: !Spells(w, op)
  }

  // A word and a space, before more.
  lemma SpacedWord(w: string, t: Token, rest: string)
    requires IsWord(w) && Classify(w) == t
    ensures LexAll(w + " " + rest) == Then(Ok([t]), LexAll(rest))
  {
    LexWord(w, " " + rest);
    assert w + " " + rest == w + (" " + rest);
    ReadsPunct();
    ThenNothing(LexAll(rest));
  }

  lemma PlainIsString(w: string)
    requires PlainString(w)
    ensures IsWord(w) && Classify(w) == Str(w)
  {
    ReservedByLetters(w);
  }

  lemma LastWord(w: string)
    requires IsWord(w)
    ensures LexAll(w) == Ok([Classify(w)])
  {
    LexWord(w, "");
    assert w + "" == w;
    ThenNothing(Ok([Classify(w)]));
  }

  lemma ThreeWords(x: string, v: string, y: string, op: Op)
    requires PlainString(x) && Spells(v, op) && PlainString(y)
    ensures LexAll(x + " " + (v + " " + y)) == Ok([Str(x), OpTok(op), Str(y)])
  {
    PlainIsString(x);
    PlainIsString(y);
    SpelledIsWord(v, op);
    ReservedByLetters(v);
    var rest := v + " " + y;
    SpacedWord(x, Str(x), rest);
    SpacedWord(v, OpTok(op), y);
    LastWord(y);
    assert [Str(x)] + ([OpTok(op)] + [Str(y)]) == [Str(x), OpTok(op), Str(y)];
  }

  lemma BareOperand(x: string, env: Env)
    ensures var n := Term(Bare(x)); LegalNot(n, env) && YieldNot(n) == [Str(x)] && MeanNot(n, env) == Text(x)
    ensures var a := AndOne(Term(Bare(x)));
            LegalAnd(a, env) && YieldAnd(a) == [Str(x)] && MeanAnd(a, env) == Text(x)
  {
    var term := Bare(x);
    assert LegalTerm(term, env) && YieldTerm(term) == [Str(x)] && MeanTerm(term, env) == Text(x);
    var n := Term(term);
    assert LegalNot(n, env) && YieldNot(n) == [Str(x)] && MeanNot(n, env) == Text(x);
    assert YieldAnd(AndOne(n)) == YieldNot(n);
  }

  lemma Joined(x: string, y: string, op: Op, env: Env)
    requires op == OpAnd || op == OpOr
    ensures Derives([Str(x), OpTok(op), Str(y)], Logical(op, Text(x), Text(y)), env)
  {
    BareOperand(x, env);
    BareOperand(y, env);
    var n := Term(Bare(y));
    var l, r := AndOne(Term(Bare(x))), AndOne(n);
    var t: OrTree;
    if op == OpAnd {
      var both := AndMore(l, n);
      assert LegalAnd(both, env) && YieldAnd(both) == [Str(x)] + [OpTok(op)] + [Str(y)];
      assert MeanAnd(both, env) == Logical(op, Text(x), Text(y));
      t := OrOne(both);
    } else {
      var first := OrOne(l);
      assert LegalOr(first, env) && YieldOr(first) == [Str(x)] && MeanOr(first, env) == Text(x);
      t := OrMore(first, r);
    }
    assert LegalOr(t, env) && YieldOr(t) == [Str(x)] + [OpTok(op)] + [Str(y)];
    assert MeanOr(t, env) == Logical(op, Text(x), Text(y));
  }

  /** Two words with an and or an or between them, in any case, are joined by it. */
  lemma WordsAreJoined(x: string, v: string, y: string, op: Op, env: Env)
    requires PlainString(x) && (op == OpAnd || op == OpOr) && Spells(v, op) && PlainString(y)
    ensures QueryOf(x + " " + (v + " " + y), env) == Ok(Logical(op, Text(x), Text(y)))
  {
    var s := x + " " + (v + " " + y);
    ThreeWords(x, v, y, op);
    Joined(x, y, op, env);
    JoinedIsQuery(s, [Str(x), OpTok(op), Str(y)], Logical(op, Text(x), Text(y)), env);
  }

  lemma JoinedIsQuery(s: string, ts: seq<Token>, e: Expr, env: Env)
    requires LexAll(s) == Ok(ts) && Derives(ts, e, env)
    ensures QueryOf(s, env) == Ok(e)
  {
    QueryIsGrammar(ts, e, env);
  }
}
