/** Exactly which trees survive being printed and parsed again. */
module FilterRoundTrip {
  import opened FilterAst
  import opened FilterGrammar
  import opened FilterLexer
  import opened FilterParser
  import opened Sequences
  import opened Wrappers

  // ---- the condition -----------------------------------------------------

  // strconv.Quote leaves the text as it is.
  ghost predicate PlainText(s: string, env: Env) {
    forall i :: 0 <= i < |s| ==> s[i] != '"' && s[i] != '\\' && env.printable(s[i])
  }

  // One unreserved bare word, already in lower case.
  ghost predicate PlainKey(s: string, env: Env) {
    IsWord(s) && Classify(s) == Str(s) && env.Normalize(s) == s
  }

  ghost predicate PlainTexts(values: seq<string>, env: Env) {
    forall i :: 0 <= i < |values| ==> PlainText(values[i], env)
  }

  // The fields a node may carry: the ones its operator uses, and no others.
  ghost predicate WellFormed(e: Expr, env: Env) {
    match e
    case Not(x) => WellFormed(x, env)
    case Logical(op, l, r) => (op == OpAnd || op == OpOr) && WellFormed(l, env) && WellFormed(r, env)
    case Text(_) => true
    case Compare(op, _, value, values) =>
      && !op.IsLogical()
      && (if op == OpIn then values != [] else values == [])
      && (if op.TakesValue() then op.IsRegexp() ==> env.compiles(value) else value == "")
  }

  ghost predicate PlainValues(e: Expr, env: Env) {
    match e
    case Not(x) => PlainValues(x, env)
    case Logical(_, l, r) => PlainValues(l, env) && PlainValues(r, env)
    case Text(value) => PlainText(value, env)
    case Compare(_, _, value, values) => PlainText(value, env) && PlainTexts(values, env)
  }

  ghost predicate PlainKeys(e: Expr, env: Env) {
    match e
    case Not(x) => PlainKeys(x, env)
    case Logical(_, l, r) => PlainKeys(l, env) && PlainKeys(r, env)
    case Text(_) => true
    case Compare(_, key, _, _) => PlainKey(key, env)
  }

  ghost predicate Printable(e: Expr, env: Env) {
    WellFormed(e, env) && PlainValues(e, env) && PlainKeys(e, env)
  }

  // ---- lexing, piece by piece --------------------------------------------

  type Tokens = Result<seq<Token>, QueryError>

  /** A piece of text that a lexer reads as r whatever comes after it. */
  ghost predicate ReadBy(lex: string -> Tokens, text: string, r: Tokens) {
    forall rest: string :: lex(text + rest) == Then(r, lex(rest))
  }

  lemma Join(lex: string -> Tokens, a: string, ra: Tokens, b: string, rb: Tokens)
    requires ReadBy(lex, a, ra) && ReadBy(lex, b, rb)
    ensures ReadBy(lex, a + b, Then(ra, rb))
  {
    forall rest: string ensures lex(a + b + rest) == Then(Then(ra, rb), lex(rest)) {
      assert a + b + rest == a + (b + rest);
      assert lex(a + (b + rest)) == Then(ra, lex(b + rest));
      ThenRegroups(ra, rb, lex(rest));
    }
  }

  lemma JoinTokens(lex: string -> Tokens, a: string, ta: seq<Token>, b: string, tb: seq<Token>)
    requires ReadBy(lex, a, Ok(ta)) && ReadBy(lex, b, Ok(tb))
    ensures ReadBy(lex, a + b, Ok(ta + tb))
  {
    Join(lex, a, Ok(ta), b, Ok(tb));
  }

  ghost predicate Reads(text: string, r: Tokens) {
    ReadBy(LexAll, text, r)
  }

  lemma ThenRegroups(a: Tokens, b: Tokens, c: Tokens)
    ensures Then(Then(a, b), c) == Then(a, Then(b, c))
  {
    if a.Ok? {
      ThenAssociates(a.value, if b.Ok? then b.value else [], c);
    }
  }

  lemma ThenNothing(r: Result<seq<Token>, QueryError>)
    ensures Then(Ok([]), r) == r && Then(r, Ok([])) == r
  {
    if r.Ok? {
      assert [] + r.value == r.value && r.value + [] == r.value;
    }
  }

  // If the head of every continuation lexes the same way, that is how the piece reads.
  lemma ReadsOne(text: string, ts: seq<Token>)
    requires text != ""
    requires forall rest: string :: LexOne(text + rest) == Ok((ts, |text|))
    ensures Reads(text, Ok(ts))
  {
    forall rest: string ensures LexAll(text + rest) == Then(Ok(ts), LexAll(rest)) {
      assert (text + rest)[|text|..] == rest;
      assert LexOne(text + rest) == Ok((ts, |text|));
    }
  }

  lemma ReadsPunct()
    ensures Reads("(", Ok([ParenOpen])) && Reads(")", Ok([ParenClose])) && Reads(",", Ok([Comma])) && Reads(" ", Ok([]))
  {
    ReadsOne("(", [ParenOpen]);
    ReadsOne(")", [ParenClose]);
    ReadsOne(",", [Comma]);
    ReadsOne(" ", []);
  }

  lemma ReadsQuoted(text: string)
    requires '"' !in text
    ensures Reads("\"" + text + "\"", Ok([Str(text)]))
  {
    forall rest: string ensures LexOne("\"" + text + "\"" + rest) == Ok(([Str(text)], |text| + 2)) {
      var s := "\"" + text + "\"" + rest;
      assert s[1..] == text + ("\"" + rest);
      QuoteEnds(text, rest);
      assert s[1..1 + |text|] == text;
    }
    ReadsOne("\"" + text + "\"", [Str(text)]);
  }

  lemma {:induction false} QuoteEnds(text: string, rest: string)
    requires '"' !in text
    ensures IndexOf(text + ("\"" + rest), '"') == |text|
  {
    var s := text + ("\"" + rest);
    if text != "" {
      assert s[0] == text[0] && s[1..] == text[1..] + ("\"" + rest);
      QuoteEnds(text[1..], rest);
    }
  }

  lemma {:induction false} WordEnds(w: string, rest: string)
    requires forall i :: 0 <= i < |w| ==> IsWordChar(w[i])
    requires rest == "" || !IsWordChar(rest[0])
    ensures WordLength(w + rest) == |w|
  {
    if w == "" {
      assert w + rest == rest;
    } else {
      assert (w + rest)[1..] == w[1..] + rest;
      WordEnds(w[1..], rest);
    }
  }

  lemma WordHead(w: string, rest: string)
    requires IsWord(w) && (rest == "" || !IsWordChar(rest[0]))
    ensures LexOne(w + rest) == Ok(([Classify(w)], |w|))
  {
    WordEnds(w, rest);
    assert (w + rest)[0] == w[0] && (w + rest)[..|w|] == w;
  }

  lemma LexWord(w: string, rest: string)
    requires IsWord(w) && (rest == "" || !IsWordChar(rest[0]))
    ensures LexAll(w + rest) == Then(Ok([Classify(w)]), LexAll(rest))
  {
    WordHead(w, rest);
    assert (w + rest)[|w|..] == rest;
  }

  lemma LettersAreWord(w: string)
    requires w != "" && forall i :: 0 <= i < |w| ==> 'A' <= w[i] <= 'Z' || 'a' <= w[i] <= 'z'
    ensures IsWord(w)
  {
  }

  lemma SpellingIsUpper(op: Op)
    requires !StartsOperator(op.Spelling()[0])
    ensures UpperWord(op.Spelling()) == match op
            case OpContains => "CONTAINS"
            case OpIn => "IN"
            case OpExists => "EXISTS"
            case _ => op.Spelling()
  {
  }

  lemma SpellingIsReserved(op: Op)
    requires !StartsOperator(op.Spelling()[0])
    ensures IsWord(op.Spelling()) && Classify(op.Spelling()) == OpTok(op)
  {
    LettersAreWord(op.Spelling());
    SpellingIsUpper(op);
  }

  lemma SymbolHead(op: Op, rest: string)
    requires StartsOperator(op.Spelling()[0])
    ensures LexOne(op.Spelling() + " " + rest) == Ok(([OpTok(op)], |op.Spelling()|))
  {
    var w := op.Spelling();
    var s := w + " " + rest;
    assert s[0] == w[0] && s[..2] == [s[0], s[1]];
    assert s[1] == if |w| == 1 then ' ' else w[1];
  }

  lemma SpellingHead(op: Op, rest: string)
    ensures LexOne(op.Spelling() + " " + rest) == Ok(([OpTok(op)], |op.Spelling()|))
  {
    if StartsOperator(op.Spelling()[0]) {
      SymbolHead(op, rest);
    } else {
      SpellingIsReserved(op);
      assert op.Spelling() + " " + rest == op.Spelling() + (" " + rest);
      WordHead(op.Spelling(), " " + rest);
    }
  }

  lemma HeadThenRest(w: string, ts: seq<Token>, rest: string)
    requires w != "" && LexOne(w + rest) == Ok((ts, |w|))
    ensures LexAll(w + rest) == Then(Ok(ts), LexAll(rest))
  {
    assert (w + rest)[|w|..] == rest;
  }

  lemma SpacedBy(lex: string -> Tokens, w: string, ts: seq<Token>)
    requires forall rest: string :: lex(w + (" " + rest)) == Then(Ok(ts), lex(" " + rest))
    requires ReadBy(lex, " ", Ok([]))
    ensures ReadBy(lex, w + " ", Ok(ts))
  {
    forall rest: string ensures lex(w + " " + rest) == Then(Ok(ts), lex(rest)) {
      assert w + " " + rest == w + (" " + rest);
      ThenNothing(lex(rest));
    }
  }

  lemma ReadsSpaced(w: string, ts: seq<Token>)
    requires w != "" && forall rest: string :: LexOne(w + " " + rest) == Ok((ts, |w|))
    ensures Reads(w + " ", Ok(ts))
  {
    forall rest: string ensures LexAll(w + (" " + rest)) == Then(Ok(ts), LexAll(" " + rest)) {
      var spaced := " " + rest;
      assert w + " " + rest == w + spaced;
      HeadThenRest(w, ts, spaced);
    }
    ReadsPunct();
    SpacedBy(LexAll, w, ts);
  }

  lemma ReadsSpelling(op: Op)
    ensures Reads(op.Spelling() + " ", Ok([OpTok(op)]))
  {
    forall rest: string ensures LexOne(op.Spelling() + " " + rest) == Ok(([OpTok(op)], |op.Spelling()|)) {
      SpellingHead(op, rest);
    }
    ReadsSpaced(op.Spelling(), [OpTok(op)]);
  }

  // A space closes whatever the lexer was reading, as the end of input does.
  lemma OneBeforeSpace(s: string, rest: string)
    requires s != "" && '"' !in s
    ensures LexOne(s + " " + rest) == LexOne(s)
  {
    var long := s + " " + rest;
    assert long[0] == s[0];
    if StartsOperator(s[0]) {
      assert long[..2] == if |s| >= 2 then s[..2] else [s[0], ' '];
    } else if IsWordChar(s[0]) {
      var n := WordLength(s);
      assert s == s[..n] + s[n..] && long == s[..n] + (s[n..] + " " + rest);
      WordHead(s[..n], s[n..]);
      WordHead(s[..n], s[n..] + " " + rest);
    } else {
      assert s[0] != '"';
    }
  }

  lemma {:induction false} LexBeforeSpace(s: string, rest: string)
    requires '"' !in s
    ensures LexAll(s + " " + rest) == Then(LexAll(s), LexAll(rest))
    decreases |s|
  {
    if s == "" {
      assert s + " " + rest == " " + rest;
      ReadsPunct();
      ThenNothing(LexAll(rest));
    } else {
      OneBeforeSpace(s, rest);
      if LexOne(s).Ok? {
        var (ts, n) := LexOne(s).value;
        assert (s + " " + rest)[n..] == s[n..] + " " + rest;
        LexBeforeSpace(s[n..], rest);
        ThenRegroups(Ok(ts), LexAll(s[n..]), LexAll(rest));
      }
    }
  }

  lemma ReadsKey(key: string)
    requires '"' !in key
    ensures Reads(key + " ", LexAll(key))
  {
    forall rest: string ensures LexAll(key + " " + rest) == Then(LexAll(key), LexAll(rest)) {
      LexBeforeSpace(key, rest);
    }
  }

  // ---- the tokens of a printed tree --------------------------------------

  ghost predicate QuoteFree(e: Expr) {
    match e
    case Not(x) => QuoteFree(x)
    case Logical(_, l, r) => QuoteFree(l) && QuoteFree(r)
    case Text(value) => '"' !in value
    case Compare(_, key, value, values) => '"' !in key && '"' !in value && QuoteFreeList(values)
  }

  ghost predicate QuoteFreeList(values: seq<string>) {
    forall i :: 0 <= i < |values| ==> '"' !in values[i]
  }

  function ListTokens(values: seq<string>, env: Env): seq<Token> {
    if |values| == 0 then []
    else if |values| == 1 then [Str(EscapeAll(values[0], env))]
    else [Str(EscapeAll(values[0], env)), Comma] + ListTokens(values[1..], env)
  }

  // What follows the key inside a printed comparison, as text and as tokens.
  function AfterKeyText(op: Op, value: string, values: seq<string>, env: Env): string {
    if op == OpExists then "exists)"
    else if op == OpIn then "in " + "(" + (JoinQuoted(values, env) + "))")
    else op.Spelling() + " " + (Quote(value, env) + ")")
  }

  function AfterKey(op: Op, value: string, values: seq<string>, env: Env): seq<Token> {
    if op == OpExists then [OpTok(OpExists), ParenClose]
    else if op == OpIn then [OpTok(OpIn), ParenOpen] + (ListTokens(values, env) + [ParenClose, ParenClose])
    else [OpTok(op)] + [Str(EscapeAll(value, env)), ParenClose]
  }

  function PrintTokens(e: Expr, env: Env): Result<seq<Token>, QueryError> {
    match e
    case Not(x) => Then(Ok([ParenOpen, OpTok(OpNot)]), Then(PrintTokens(x, env), Ok([ParenClose])))
    case Logical(op, l, r) =>
      Then(Then(Ok([ParenOpen]), PrintTokens(l, env)),
           Then(Ok([OpTok(op)]), Then(PrintTokens(r, env), Ok([ParenClose]))))
    case Text(value) => Ok([Str(EscapeAll(value, env))])
    case Compare(op, key, value, values) =>
      Then(Ok([ParenOpen]), Then(LexAll(key), Ok(AfterKey(op, value, values, env))))
  }

  lemma HexHasNoQuote(n: nat, digits: nat)
    ensures '"' !in Hex(n, digits) && '\\' !in Hex(n, digits)
  {
  }

  lemma EscapeFacts(c: char, env: Env)
    requires c != '"'
    ensures '"' !in Escape(c, env)
    ensures c != '\\' && env.printable(c) ==> Escape(c, env) == [c]
    ensures !(c != '\\' && env.printable(c)) ==> Backslashes(Escape(c, env)) > (if c == '\\' then 1 else 0)
  {
    var n := c as int;
    HexHasNoQuote(n, 2);
    HexHasNoQuote(n, 4);
    HexHasNoQuote(n, 8);
  }

  lemma {:induction false} EscapeAllHasNoQuote(s: string, env: Env)
    requires '"' !in s
    ensures '"' !in EscapeAll(s, env)
  {
    if s != "" {
      EscapeFacts(s[0], env);
      EscapeAllHasNoQuote(s[1..], env);
    }
  }

  lemma ReadsQuote(s: string, env: Env)
    requires '"' !in s
    ensures Reads(Quote(s, env), Ok([Str(EscapeAll(s, env))]))
  {
    EscapeAllHasNoQuote(s, env);
    ReadsQuoted(EscapeAll(s, env));
  }

  lemma ReadsComma()
    ensures Reads(", ", Ok([Comma]))
  {
    ReadsPunct();
    JoinTokens(LexAll, ",", [Comma], " ", []);
    assert "," + " " == ", " && [Comma] + [] == [Comma];
  }

  lemma {:induction false} ReadsJoined(values: seq<string>, env: Env)
    requires QuoteFreeList(values)
    ensures Reads(JoinQuoted(values, env), Ok(ListTokens(values, env)))
  {
    if |values| == 0 {
      forall rest: string ensures LexAll("" + rest) == Then(Ok([]), LexAll(rest)) {
        assert "" + rest == rest;
        ThenNothing(LexAll(rest));
      }
    } else if |values| == 1 {
      ReadsQuote(values[0], env);
    } else {
      var first := Str(EscapeAll(values[0], env));
      ReadsQuote(values[0], env);
      ReadsComma();
      JoinTokens(LexAll, Quote(values[0], env), [first], ", ", [Comma]);
      ReadsJoined(values[1..], env);
      JoinTokens(LexAll, Quote(values[0], env) + ", ", [first] + [Comma],
                  JoinQuoted(values[1..], env), ListTokens(values[1..], env));
      assert [first] + [Comma] == [first, Comma];
    }
  }

  lemma ReadsWordClose(w: string, op: Op)
    requires IsWord(w) && Classify(w) == OpTok(op) && Reads(")", Ok([ParenClose]))
    ensures Reads(w + ")", Ok([OpTok(op)] + [ParenClose]))
  {
    forall rest: string ensures LexAll(w + ")" + rest) == Then(Ok([OpTok(op)] + [ParenClose]), LexAll(rest)) {
      assert w + ")" + rest == w + (")" + rest);
      LexWord(w, ")" + rest);
      CloseAfter([OpTok(op)], rest);
    }
  }

  lemma CloseAfter(ts: seq<Token>, rest: string)
    requires Reads(")", Ok([ParenClose]))
    ensures Then(Ok(ts), LexAll(")" + rest)) == Then(Ok(ts + [ParenClose]), LexAll(rest))
  {
    ThenAssociates(ts, [ParenClose], LexAll(rest));
  }

  lemma ReadsAfterIn(lex: string -> Tokens, joined: string, ts: seq<Token>)
    requires ReadBy(lex, "in ", Ok([OpTok(OpIn)])) && ReadBy(lex, joined, Ok(ts))
    requires ReadBy(lex, "(", Ok([ParenOpen])) && ReadBy(lex, ")", Ok([ParenClose]))
    ensures ReadBy(lex, "in " + "(" + (joined + "))"),
                   Ok([OpTok(OpIn), ParenOpen] + (ts + [ParenClose, ParenClose])))
  {
    JoinTokens(lex, "in ", [OpTok(OpIn)], "(", [ParenOpen]);
    JoinTokens(lex, ")", [ParenClose], ")", [ParenClose]);
    assert ")" + ")" == "))" && [ParenClose] + [ParenClose] == [ParenClose, ParenClose];
    JoinTokens(lex, joined, ts, "))", [ParenClose, ParenClose]);
    assert [OpTok(OpIn)] + [ParenOpen] == [OpTok(OpIn), ParenOpen];
    JoinTokens(lex, "in " + "(", [OpTok(OpIn), ParenOpen], joined + "))", ts + [ParenClose, ParenClose]);
  }

  lemma ReadsAfterOp(lex: string -> Tokens, op: Op, quoted: string, q: Token)
    requires ReadBy(lex, op.Spelling() + " ", Ok([OpTok(op)])) && ReadBy(lex, quoted, Ok([q]))
    requires ReadBy(lex, ")", Ok([ParenClose]))
    ensures ReadBy(lex, op.Spelling() + " " + (quoted + ")"), Ok([OpTok(op)] + [q, ParenClose]))
  {
    JoinTokens(lex, quoted, [q], ")", [ParenClose]);
    assert [q] + [ParenClose] == [q, ParenClose];
    JoinTokens(lex, op.Spelling() + " ", [OpTok(op)], quoted + ")", [q, ParenClose]);
  }

  lemma ReadsAfterKey(op: Op, value: string, values: seq<string>, env: Env)
    requires '"' !in value && QuoteFreeList(values)
    ensures Reads(AfterKeyText(op, value, values, env), Ok(AfterKey(op, value, values, env)))
  {
    ReadsPunct();
    ReadsSpelling(op);
    if op == OpExists {
      SpellingIsReserved(OpExists);
      ReadsWordClose(op.Spelling(), OpExists);
      assert op.Spelling() + ")" == "exists)";
      assert [OpTok(OpExists)] + [ParenClose] == [OpTok(OpExists), ParenClose];
    } else if op == OpIn {
      assert OpIn.Spelling() + " " == "in ";
      ReadsJoined(values, env);
      ReadsAfterIn(LexAll, JoinQuoted(values, env), ListTokens(values, env));
    } else {
      ReadsQuote(value, env);
      ReadsAfterOp(LexAll, op, Quote(value, env), Str(EscapeAll(value, env)));
    }
  }

  // A printed node is read once its parts are, whatever the lexer does with them.
  lemma ReadsParens(lex: string -> Tokens, open: string, to: seq<Token>, mid: string, tm: Tokens,
                    close: string, tc: Tokens)
    requires ReadBy(lex, open, Ok(to)) && ReadBy(lex, mid, tm) && ReadBy(lex, close, tc)
    ensures ReadBy(lex, open + (mid + close), Then(Ok(to), Then(tm, tc)))
  {
    Join(lex, mid, tm, close, tc);
    Join(lex, open, Ok(to), mid + close, Then(tm, tc));
  }

  lemma ReadsBinary(lex: string -> Tokens, l: string, tl: Tokens, op: Op, r: string, tr: Tokens)
    requires ReadBy(lex, "(", Ok([ParenOpen])) && ReadBy(lex, ")", Ok([ParenClose])) && ReadBy(lex, " ", Ok([]))
    requires ReadBy(lex, l, tl) && ReadBy(lex, op.Spelling() + " ", Ok([OpTok(op)])) && ReadBy(lex, r, tr)
    ensures ReadBy(lex, ("(" + l) + ((" " + (op.Spelling() + " ")) + (r + ")")),
                   Then(Then(Ok([ParenOpen]), tl), Then(Ok([OpTok(op)]), Then(tr, Ok([ParenClose])))))
  {
    JoinTokens(lex, " ", [], op.Spelling() + " ", [OpTok(op)]);
    assert [] + [OpTok(op)] == [OpTok(op)];
    Join(lex, "(", Ok([ParenOpen]), l, tl);
    ReadsParens(lex, " " + (op.Spelling() + " "), [OpTok(op)], r, tr, ")", Ok([ParenClose]));
    Join(lex, "(" + l, Then(Ok([ParenOpen]), tl),
         (" " + (op.Spelling() + " ")) + (r + ")"), Then(Ok([OpTok(op)]), Then(tr, Ok([ParenClose]))));
  }

  lemma ReadsNotOpen(lex: string -> Tokens, not: string)
    requires not == "NOT " && ReadBy(lex, not, Ok([OpTok(OpNot)])) && ReadBy(lex, "(", Ok([ParenOpen]))
    ensures ReadBy(lex, "(NOT ", Ok([ParenOpen, OpTok(OpNot)]))
  {
    JoinTokens(lex, "(", [ParenOpen], not, [OpTok(OpNot)]);
    assert [ParenOpen] + [OpTok(OpNot)] == [ParenOpen, OpTok(OpNot)] && "(" + "NOT " == "(NOT ";
  }

  lemma GroupThree(open: string, a: string, b: string, c: string, d: string)
    ensures open + a + b + c + d == open + ((a + b) + (c + d))
    ensures open + a + b == open + (a + b)
  {
  }

  lemma GroupBinary(l: string, op: string, r: string)
    ensures "(" + l + " " + op + " " + r + ")" == ("(" + l) + ((" " + (op + " ")) + (r + ")"))
  {
    var spaced := " " + (op + " ");
    assert "(" + l + " " + op + " " == ("(" + l) + spaced;
    assert ("(" + l) + spaced + r + ")" == ("(" + l) + (spaced + (r + ")"));
  }

  lemma PrintGroups(e: Expr, env: Env)
    ensures e.Not? ==> Print(e, env) == "(NOT " + (Print(e.x, env) + ")")
    ensures e.Logical? ==> Print(e, env) ==
                           ("(" + Print(e.l, env)) + ((" " + (e.op.Spelling() + " ")) + (Print(e.r, env) + ")"))
    ensures e.Compare? ==> Print(e, env) ==
                           "(" + ((e.key + " ") + AfterKeyText(e.op, e.value, e.values, env))
  {
    match e {
      case Not(x) => GroupThree("(NOT ", Print(x, env), ")", "", "");
      case Logical(op, l, r) => GroupBinary(Print(l, env), op.Spelling(), Print(r, env));
      case Text(_) =>
      case Compare(op, key, value, values) => PrintCompareGroups(op, key, value, values, env);
    }
  }

  lemma PrintCompareGroups(op: Op, key: string, value: string, values: seq<string>, env: Env)
    ensures Print(Compare(op, key, value, values), env) ==
            "(" + ((key + " ") + AfterKeyText(op, value, values, env))
  {
    if op == OpExists {
      assert "(" + key + " exists)" == "(" + ((key + " ") + "exists)");
    } else if op == OpIn {
      var joined := JoinQuoted(values, env);
      assert " in (" == " " + ("in " + "(");
      assert "(" + key + " in (" + joined + "))" == "(" + ((key + " ") + ("in " + "(" + (joined + "))")));
    } else {
      var spelling, quoted := op.Spelling() + " ", Quote(value, env) + ")";
      GroupThree("(", key, " ", spelling, quoted);
      assert "(" + key + " " + op.Spelling() + " " == "(" + key + " " + spelling;
      GroupThree("(" + key + " " + spelling, Quote(value, env), ")", "", "");
    }
  }

  lemma ReadsCompare(e: Expr, env: Env)
    requires e.Compare? && QuoteFree(e)
    ensures Reads(Print(e, env), PrintTokens(e, env))
  {
    PrintGroups(e, env);
    ReadsPunct();
    ReadsKey(e.key);
    ReadsAfterKey(e.op, e.value, e.values, env);
    ReadsParens(LexAll, "(", [ParenOpen], e.key + " ", LexAll(e.key),
                AfterKeyText(e.op, e.value, e.values, env), Ok(AfterKey(e.op, e.value, e.values, env)));
  }

  lemma NotOpens()
    ensures Reads("(NOT ", Ok([ParenOpen, OpTok(OpNot)]))
  {
    ReadsPunct();
    ReadsSpelling(OpNot);
    ReadsNotOpen(LexAll, OpNot.Spelling() + " ");
  }

  lemma ReadsNot(x: Expr, env: Env)
    requires Reads(Print(x, env), PrintTokens(x, env))
    ensures Reads(Print(Not(x), env), PrintTokens(Not(x), env))
  {
    PrintGroups(Not(x), env);
    NotOpens();
    ReadsPunct();
    ReadsParens(LexAll, "(NOT ", [ParenOpen, OpTok(OpNot)], Print(x, env), PrintTokens(x, env), ")", Ok([ParenClose]));
  }

  lemma ReadsLogical(op: Op, l: Expr, r: Expr, env: Env)
    requires Reads(Print(l, env), PrintTokens(l, env)) && Reads(Print(r, env), PrintTokens(r, env))
    ensures Reads(Print(Logical(op, l, r), env), PrintTokens(Logical(op, l, r), env))
  {
    PrintGroups(Logical(op, l, r), env);
    ReadsPunct();
    ReadsSpelling(op);
    ReadsBinary(LexAll, Print(l, env), PrintTokens(l, env), op, Print(r, env), PrintTokens(r, env));
  }

  /** Printing is read back piece by piece, whatever comes after it. */
  lemma {:induction false} PrintedIsRead(e: Expr, env: Env)
    requires QuoteFree(e)
    ensures Reads(Print(e, env), PrintTokens(e, env))
  {
    match e {
      case Text(value) => ReadsQuote(value, env);
      case Not(x) =>
        PrintedIsRead(x, env);
        ReadsNot(x, env);
      case Logical(op, l, r) =>
        PrintedIsRead(l, env);
        PrintedIsRead(r, env);
        ReadsLogical(op, l, r, env);
      case Compare(_, _, _, _) => ReadsCompare(e, env);
    }
  }

  lemma PrintedWhole(e: Expr, env: Env)
    requires QuoteFree(e)
    ensures LexAll(Print(e, env)) == PrintTokens(e, env)
  {
    PrintedIsRead(e, env);
    assert LexAll(Print(e, env) + "") == Then(PrintTokens(e, env), LexAll(""));
    assert Print(e, env) + "" == Print(e, env);
    ThenNothing(PrintTokens(e, env));
  }

  // ---- plain trees come back ---------------------------------------------

  lemma {:induction false} PlainIsUnescaped(s: string, env: Env)
    requires PlainText(s, env)
    ensures EscapeAll(s, env) == s && '"' !in s
  {
    if s != "" {
      assert PlainText(s[1..], env);
      PlainIsUnescaped(s[1..], env);
    }
  }

  lemma {:induction false} PlainList(values: seq<string>, env: Env)
    requires PlainTexts(values, env)
    ensures Strings(ListTokens(values, env)) == values
    ensures forall i :: 0 <= i < |ListTokens(values, env)| ==>
                          ListTokens(values, env)[i].Str? || ListTokens(values, env)[i] == Comma
  {
    if values != [] {
      PlainIsUnescaped(values[0], env);
      if |values| > 1 {
        var ts := ListTokens(values, env);
        PlainList(values[1..], env);
        assert ts[1..][1..] == ListTokens(values[1..], env);
        assert values == [values[0]] + values[1..];
      }
    }
  }

  lemma {:induction false} PlainIsQuoteFree(e: Expr, env: Env)
    requires Printable(e, env)
    ensures QuoteFree(e)
  {
    match e
    case Not(x) => PlainIsQuoteFree(x, env);
    case Logical(_, l, r) => PlainIsQuoteFree(l, env); PlainIsQuoteFree(r, env);
    case Text(_) =>
    case Compare(_, _, _, _) =>
  }

  lemma PlainKeyLexes(key: string, env: Env)
    requires PlainKey(key, env)
    ensures LexAll(key) == Ok([Str(key)])
  {
    LexWord(key, "");
    assert key + "" == key;
    assert LexAll("") == Ok([]);
    ThenNothing(Ok([Str(key)]));
  }

  function TermOf(e: Expr, env: Env): TermTree
    requires e.Compare?
  {
    if e.op == OpExists then Present(e.key)
    else if e.op == OpIn then OneOf(e.key, ListTokens(e.values, env))
    else Versus(e.key, e.op, e.value)
  }

  function BinaryOf(op: Op, l: NotTree, r: NotTree): OrTree {
    if op == OpOr then OrMore(OrOne(AndOne(l)), AndOne(r)) else OrOne(AndMore(AndOne(l), r))
  }

  // The derivation a printed tree is read by.
  function TreeOf(e: Expr, env: Env): NotTree {
    match e
    case Not(x) => Paren(OrOne(AndOne(NotOf(TreeOf(x, env)))))
    case Logical(op, l, r) => Paren(BinaryOf(op, TreeOf(l, env), TreeOf(r, env)))
    case Text(value) => Term(Bare(value))
    case Compare(_, _, _, _) => Paren(OrOne(AndOne(Term(TermOf(e, env)))))
  }

  lemma InParens(n: NotTree, env: Env)
    requires LegalNot(n, env)
    ensures var p := Paren(OrOne(AndOne(n)));
            && LegalNot(p, env) && MeanNot(p, env) == MeanNot(n, env)
            && YieldNot(p) == [ParenOpen] + YieldNot(n) + [ParenClose]
  {
    var a := AndOne(n);
    var o := OrOne(a);
    assert LegalAnd(a, env) && MeanAnd(a, env) == MeanNot(n, env) && YieldAnd(a) == YieldNot(n);
    assert LegalOr(o, env) && MeanOr(o, env) == MeanAnd(a, env) && YieldOr(o) == YieldAnd(a);
  }

  lemma PlainTermYields(e: Expr, env: Env)
    requires e.Compare? && Printable(e, env)
    ensures LegalTerm(TermOf(e, env), env) && MeanTerm(TermOf(e, env), env) == e
    ensures [Str(e.key)] + AfterKey(e.op, e.value, e.values, env) == YieldTerm(TermOf(e, env)) + [ParenClose]
  {
    if e.op == OpIn {
      PlainList(e.values, env);
      var ts := ListTokens(e.values, env);
      assert [Str(e.key)] + ([OpTok(OpIn), ParenOpen] + (ts + [ParenClose, ParenClose])) ==
             ([Str(e.key), OpTok(OpIn), ParenOpen] + ts + [ParenClose]) + [ParenClose];
    } else {
      PlainIsUnescaped(e.value, env);
    }
  }

  lemma PlainCompareDerives(e: Expr, env: Env)
    requires e.Compare? && Printable(e, env)
    ensures LegalNot(TreeOf(e, env), env) && MeanNot(TreeOf(e, env), env) == e
    ensures PrintTokens(e, env) == Ok(YieldNot(TreeOf(e, env)))
  {
    PlainKeyLexes(e.key, env);
    PlainTermYields(e, env);
    InParens(Term(TermOf(e, env)), env);
    var inner := YieldTerm(TermOf(e, env));
    Regrouped([ParenOpen], inner, [ParenClose]);
  }

  lemma PlainLogicalDerives(op: Op, l: Expr, r: Expr, env: Env)
    requires op == OpAnd || op == OpOr
    requires LegalNot(TreeOf(l, env), env) && MeanNot(TreeOf(l, env), env) == l
    requires LegalNot(TreeOf(r, env), env) && MeanNot(TreeOf(r, env), env) == r
    ensures var o := BinaryOf(op, TreeOf(l, env), TreeOf(r, env));
            && LegalOr(o, env) && MeanOr(o, env) == Logical(op, l, r)
            && YieldOr(o) == YieldNot(TreeOf(l, env)) + [OpTok(op)] + YieldNot(TreeOf(r, env))
  {
    var first, second := AndOne(TreeOf(l, env)), AndOne(TreeOf(r, env));
    assert YieldAnd(first) == YieldNot(TreeOf(l, env)) && LegalAnd(first, env) && MeanAnd(first, env) == l;
    assert YieldAnd(second) == YieldNot(TreeOf(r, env)) && LegalAnd(second, env) && MeanAnd(second, env) == r;
    if op == OpOr {
      var o := OrOne(first);
      assert YieldOr(o) == YieldAnd(first) && LegalOr(o, env) && MeanOr(o, env) == l;
    } else {
      var a := AndMore(first, TreeOf(r, env));
      assert YieldAnd(a) == YieldAnd(first) + [OpTok(OpAnd)] + YieldNot(TreeOf(r, env));
      assert LegalAnd(a, env) && MeanAnd(a, env) == Logical(OpAnd, l, r);
    }
  }

  lemma Enclose(a: seq<Token>, op: Token, b: seq<Token>)
    ensures ([ParenOpen] + a) + ([op] + (b + [ParenClose])) == [ParenOpen] + (a + [op] + b) + [ParenClose]
    ensures [ParenOpen, op] + (a + [ParenClose]) == [ParenOpen] + ([op] + a) + [ParenClose]
  {
  }

  lemma {:induction false} PlainDerives(e: Expr, env: Env)
    requires Printable(e, env)
    ensures LegalNot(TreeOf(e, env), env) && MeanNot(TreeOf(e, env), env) == e
    ensures PrintTokens(e, env) == Ok(YieldNot(TreeOf(e, env)))
  {
    match e {
      case Not(x) =>
        PlainDerives(x, env);
        InParens(NotOf(TreeOf(x, env)), env);
        Enclose(YieldNot(TreeOf(x, env)), OpTok(OpNot), []);
      case Logical(op, l, r) =>
        PlainDerives(l, env);
        PlainDerives(r, env);
        PlainLogicalDerives(op, l, r, env);
        Enclose(YieldNot(TreeOf(l, env)), OpTok(op), YieldNot(TreeOf(r, env)));
      case Text(value) =>
        PlainIsUnescaped(value, env);
        assert LegalTerm(Bare(value), env);
      case Compare(_, _, _, _) => PlainCompareDerives(e, env);
    }
  }

  // ---- nothing else does: two weights that parsing keeps ------------------

  function Backslashes(s: string): nat {
    if s == "" then 0 else (if s[0] == '\\' then 1 else 0) + Backslashes(s[1..])
  }

  function Size(s: string): nat {
    2 * |s| + 1
  }

  function Weight(ts: seq<Token>, w: string -> nat): nat {
    if ts == [] then 0 else (if ts[0].Str? then w(ts[0].text) else 0) + Weight(ts[1..], w)
  }

  function SumOf(values: seq<string>, w: string -> nat): nat {
    if values == [] then 0 else w(values[0]) + SumOf(values[1..], w)
  }

  function ExprWeight(e: Expr, w: string -> nat): nat {
    match e
    case Not(x) => ExprWeight(x, w)
    case Logical(_, l, r) => ExprWeight(l, w) + ExprWeight(r, w)
    case Text(value) => w(value)
    case Compare(op, key, value, values) =>
      w(key) + (if op == OpExists then 0 else if op == OpIn then SumOf(values, w) else w(value))
  }

  lemma {:induction false} WeightAdds(a: seq<Token>, b: seq<Token>, w: string -> nat)
    ensures Weight(a + b, w) == Weight(a, w) + Weight(b, w)
  {
    if a == [] {
      assert a + b == b;
    } else {
      assert (a + b)[1..] == a[1..] + b;
      WeightAdds(a[1..], b, w);
    }
  }

  lemma {:induction false} BackslashesAdd(a: string, b: string)
    ensures Backslashes(a + b) == Backslashes(a) + Backslashes(b)
  {
    if a == "" {
      assert a + b == b;
    } else {
      assert (a + b)[1..] == a[1..] + b;
      BackslashesAdd(a[1..], b);
    }
  }

  lemma BackslashesSplit(s: string, n: nat)
    requires n <= |s|
    ensures Backslashes(s) == Backslashes(s[..n]) + Backslashes(s[n..])
  {
    assert s == s[..n] + s[n..];
    BackslashesAdd(s[..n], s[n..]);
  }

  lemma {:induction false} NormalizeKeepsBackslashes(s: string, env: Env)
    requires env.Valid()
    ensures Backslashes(env.Normalize(s)) == Backslashes(s)
  {
    if s != "" {
      assert env.Normalize(s)[1..] == env.Normalize(s[1..]);
      NormalizeKeepsBackslashes(s[1..], env);
    }
  }

  ghost predicate Settled(e: Expr, env: Env) {
    match e
    case Not(x) => Settled(x, env)
    case Logical(_, l, r) => Settled(l, env) && Settled(r, env)
    case Text(_) => true
    case Compare(_, key, _, _) => env.Normalize(key) == key
  }

  // What the lexer never puts in a string token.
  ghost predicate NoQuoteTokens(ts: seq<Token>) {
    forall i :: 0 <= i < |ts| && ts[i].Str? ==> '"' !in ts[i].text
  }

  lemma {:induction false} StringsOfList(items: seq<Token>, w: string -> nat)
    ensures Weight(items, w) == SumOf(Strings(items), w)
    ensures NoQuoteTokens(items) ==> forall i :: 0 <= i < |Strings(items)| ==> '"' !in Strings(items)[i]
  {
    if items != [] {
      StringsOfList(items[1..], w);
      assert NoQuoteTokens(items) ==> NoQuoteTokens(items[1..]);
      if items[0].Str? {
        var all := Strings(items);
        assert all[0] == items[0].text && all[1..] == Strings(items[1..]);
        assert SumOf(all, w) == w(all[0]) + SumOf(all[1..], w);
      }
    }
  }

  lemma WeightCons(t: Token, ts: seq<Token>, w: string -> nat)
    ensures Weight([t] + ts, w) == (if t.Str? then w(t.text) else 0) + Weight(ts, w)
  {
    assert ([t] + ts)[1..] == ts;
  }

  lemma ListTermWeight(key: string, items: seq<Token>, w: string -> nat)
    ensures Weight(YieldTerm(OneOf(key, items)), w) == w(key) + Weight(items, w)
    ensures NoQuoteTokens(YieldTerm(OneOf(key, items))) ==> '"' !in key && NoQuoteTokens(items)
  {
    var ts := YieldTerm(OneOf(key, items));
    var head := [Str(key), OpTok(OpIn), ParenOpen];
    WeightAdds(head + items, [ParenClose], w);
    WeightAdds(head, items, w);
    WeightAdds([Str(key)], [OpTok(OpIn), ParenOpen], w);
    assert [Str(key)] + [OpTok(OpIn), ParenOpen] == head;
    ValueTermWeight(key, OpIn, "", w);
    assert Weight([OpTok(OpIn), ParenOpen], w) == 0 by {
      assert [OpTok(OpIn), ParenOpen][1..] == [ParenOpen];
    }
    assert ts[0].text == key && forall i :: 0 <= i < |items| ==> items[i] == ts[i + 3];
  }

  lemma ValueTermWeight(key: string, op: Op, value: string, w: string -> nat)
    ensures Weight([Str(key), OpTok(op), Str(value)], w) == w(key) + w(value)
    ensures Weight([Str(key), OpTok(op)], w) == w(key)
    ensures Weight([Str(key)], w) == w(key)
  {
    assert [Str(key), OpTok(op), Str(value)] == [Str(key)] + ([OpTok(op)] + ([Str(value)] + []));
    assert [Str(key), OpTok(op)] == [Str(key)] + ([OpTok(op)] + []);
    assert [Str(key)] == [Str(key)] + [];
    WeightCons(Str(value), [], w);
    WeightCons(OpTok(op), [Str(value)] + [], w);
    WeightCons(Str(key), [OpTok(op)] + ([Str(value)] + []), w);
    WeightCons(OpTok(op), [], w);
    WeightCons(Str(key), [OpTok(op)] + [], w);
    WeightCons(Str(key), [], w);
  }

  lemma TermKeeps(t: TermTree, w: string -> nat, env: Env)
    requires env.Valid() && LegalTerm(t, env)
    requires forall s :: w(env.Normalize(s)) == w(s)
    ensures Weight(YieldTerm(t), w) == ExprWeight(MeanTerm(t, env), w)
    ensures WellFormed(MeanTerm(t, env), env) && Settled(MeanTerm(t, env), env)
    ensures NoQuoteTokens(YieldTerm(t)) ==> QuoteFree(MeanTerm(t, env))
  {
    var ts := YieldTerm(t);
    assert ts[0].Str?;
    match t {
      case Bare(text) =>
        ValueTermWeight(text, OpEq, "", w);
      case Present(key) =>
        ValueTermWeight(key, OpExists, "", w);
        NormalizeKeepsQuotes(key, env);
      case Versus(key, op, value) =>
        ValueTermWeight(key, op, value, w);
        NormalizeKeepsQuotes(key, env);
        assert ts[2].text == value;
      case OneOf(key, items) =>
        ListTermWeight(key, items, w);
        StringsOfList(items, w);
        NormalizeKeepsQuotes(key, env);
    }
  }

  lemma NormalizeKeepsQuotes(key: string, env: Env)
    requires env.Valid()
    ensures '"' !in key ==> '"' !in env.Normalize(key)
    ensures env.Normalize(env.Normalize(key)) == env.Normalize(key)
  {
  }

  lemma {:induction false} NotKeeps(t: NotTree, w: string -> nat, env: Env)
    requires env.Valid() && LegalNot(t, env)
    requires forall s :: w(env.Normalize(s)) == w(s)
    ensures Weight(YieldNot(t), w) == ExprWeight(MeanNot(t, env), w)
    ensures WellFormed(MeanNot(t, env), env) && Settled(MeanNot(t, env), env)
    ensures NoQuoteTokens(YieldNot(t)) ==> QuoteFree(MeanNot(t, env))
  {
    var ts := YieldNot(t);
    match t {
      case NotOf(n) =>
        NotKeeps(n, w, env);
        assert ts[1..] == YieldNot(n);
      case Paren(o) =>
        OrKeeps(o, w, env);
        WeightAdds([ParenOpen] + YieldOr(o), [ParenClose], w);
        WeightAdds([ParenOpen], YieldOr(o), w);
        assert ts[1..|ts| - 1] == YieldOr(o);
      case Term(t) => TermKeeps(t, w, env);
    }
  }

  lemma {:induction false} AndKeeps(t: AndTree, w: string -> nat, env: Env)
    requires env.Valid() && LegalAnd(t, env)
    requires forall s :: w(env.Normalize(s)) == w(s)
    ensures Weight(YieldAnd(t), w) == ExprWeight(MeanAnd(t, env), w)
    ensures WellFormed(MeanAnd(t, env), env) && Settled(MeanAnd(t, env), env)
    ensures NoQuoteTokens(YieldAnd(t)) ==> QuoteFree(MeanAnd(t, env))
  {
    match t {
      case AndOne(n) => NotKeeps(n, w, env);
      case AndMore(l, n) =>
        AndKeeps(l, w, env);
        NotKeeps(n, w, env);
        JoinKeeps(YieldAnd(l), [OpTok(OpAnd)], YieldNot(n), w);
      case AndBeside(l, n) =>
        AndKeeps(l, w, env);
        NotKeeps(n, w, env);
        JoinKeeps(YieldAnd(l), [], YieldNot(n), w);
        assert YieldAnd(l) + [] == YieldAnd(l);
    }
  }

  lemma JoinKeeps(a: seq<Token>, op: seq<Token>, b: seq<Token>, w: string -> nat)
    requires op == [] || (|op| == 1 && op[0].OpTok?)
    ensures Weight(a + op + b, w) == Weight(a, w) + Weight(b, w)
    ensures NoQuoteTokens(a + op + b) ==> NoQuoteTokens(a) && NoQuoteTokens(b)
  {
    WeightAdds(a + op, b, w);
    WeightAdds(a, op, w);
    var all := a + op + b;
    assert all[..|a|] == a && all[|a| + |op|..] == b;
  }

  lemma {:induction false} OrKeeps(t: OrTree, w: string -> nat, env: Env)
    requires env.Valid() && LegalOr(t, env)
    requires forall s :: w(env.Normalize(s)) == w(s)
    ensures Weight(YieldOr(t), w) == ExprWeight(MeanOr(t, env), w)
    ensures WellFormed(MeanOr(t, env), env) && Settled(MeanOr(t, env), env)
    ensures NoQuoteTokens(YieldOr(t)) ==> QuoteFree(MeanOr(t, env))
  {
    match t {
      case OrOne(a) => AndKeeps(a, w, env);
      case OrMore(l, a) =>
        OrKeeps(l, w, env);
        AndKeeps(a, w, env);
        JoinKeeps(YieldOr(l), [OpTok(OpOr)], YieldAnd(a), w);
    }
  }

  lemma OneHasNoQuote(s: string)
    requires s != "" && LexOne(s).Ok?
    ensures NoQuoteTokens(LexOne(s).value.0)
  {
    if IsWordChar(s[0]) {
      var word := s[..WordLength(s)];
      assert forall i :: 0 <= i < |word| ==> IsWordChar(word[i]);
    }
  }

  lemma {:induction false} LexedHasNoQuote(s: string)
    requires LexAll(s).Ok?
    ensures NoQuoteTokens(LexAll(s).value)
    decreases |s|
  {
    if s != "" {
      OneHasNoQuote(s);
      LexedHasNoQuote(s[LexOne(s).value.1..]);
    }
  }

  // A reserved word holds no backslash, so lexing a bare key loses none.
  lemma {:induction false} LexKeepsBackslashes(s: string)
    requires '"' !in s && LexAll(s).Ok?
    ensures Weight(LexAll(s).value, Backslashes) == Backslashes(s)
    decreases |s|
  {
    if s != "" {
      var (ts, n) := LexOne(s).value;
      LexKeepsBackslashes(s[n..]);
      WeightAdds(ts, LexAll(s[n..]).value, Backslashes);
      BackslashesSplit(s, n);
      OneKeepsBackslashes(s);
    }
  }

  lemma OneKeepsBackslashes(s: string)
    requires s != "" && '"' !in s && LexOne(s).Ok?
    ensures Weight(LexOne(s).value.0, Backslashes) == Backslashes(s[..LexOne(s).value.1])
  {
    if IsWordChar(s[0]) {
      WordKeepsBackslashes(s[..WordLength(s)]);
    } else {
      assert s[0] != '"';
      NoBackslash(s[..LexOne(s).value.1]);
    }
  }

  lemma WordKeepsBackslashes(word: string)
    requires word != ""
    ensures Weight([Classify(word)], Backslashes) == Backslashes(word)
  {
    WeightCons(Classify(word), [], Backslashes);
    assert [Classify(word)] + [] == [Classify(word)];
    if !Classify(word).Str? {
      var u := UpperWord(word);
      assert u in {"AND", "OR", "NOT", "CONTAINS", "IN", "EXISTS"};
      forall i | 0 <= i < |word| ensures word[i] != '\\' {
        assert u[i] == Upper(word[i]) && 'A' <= u[i] <= 'Z';
      }
      NoBackslash(word);
    }
  }

  lemma {:induction false} NoBackslash(s: string)
    requires forall i :: 0 <= i < |s| ==> s[i] != '\\'
    ensures Backslashes(s) == 0
  {
    if s != "" {
      NoBackslash(s[1..]);
    }
  }

  // Only a key that is one unreserved word keeps its size through the lexer.
  lemma {:induction false} LexShrinks(s: string)
    requires '"' !in s && LexAll(s).Ok?
    ensures Weight(LexAll(s).value, Size) <= Size(s)
    ensures s == "" || !IsWordChar(s[0]) ==> Weight(LexAll(s).value, Size) <= 2 * |s|
    ensures s != "" && !IsWordChar(s[0]) ==> Weight(LexAll(s).value, Size) < 2 * |s|
    ensures Weight(LexAll(s).value, Size) == Size(s) ==> IsWord(s) && Classify(s) == Str(s)
    decreases |s|
  {
    if s != "" {
      var (ts, n) := LexOne(s).value;
      LexShrinks(s[n..]);
      WeightAdds(ts, LexAll(s[n..]).value, Size);
      OneShrinks(s);
    }
  }

  lemma OneShrinks(s: string)
    requires s != "" && '"' !in s && LexOne(s).Ok?
    ensures var (ts, n) := LexOne(s).value;
            if IsWordChar(s[0]) then
              && IsWord(s[..n]) && (n < |s| ==> !IsWordChar(s[n]))
              && Weight(ts, Size) == (if Classify(s[..n]) == Str(s[..n]) then Size(s[..n]) else 0)
            else Weight(ts, Size) == 0
  {
    var (ts, n) := LexOne(s).value;
    if IsWordChar(s[0]) {
      WeightCons(Classify(s[..n]), [], Size);
      assert [Classify(s[..n])] + [] == ts;
    } else {
      assert s[0] != '"';
      if ts != [] {
        WeightCons(ts[0], [], Size);
        assert [ts[0]] + [] == ts;
      }
    }
  }

  lemma {:induction false} EscapeAddsBackslashes(s: string, env: Env)
    requires '"' !in s
    ensures Backslashes(EscapeAll(s, env)) >= Backslashes(s)
    ensures Backslashes(EscapeAll(s, env)) == Backslashes(s) ==> PlainText(s, env)
  {
    if s != "" {
      EscapeFacts(s[0], env);
      EscapeAddsBackslashes(s[1..], env);
      BackslashesAdd(Escape(s[0], env), EscapeAll(s[1..], env));
      assert PlainText(s[1..], env) ==> forall i :: 1 <= i < |s| ==> s[i] == s[1..][i - 1];
    }
  }

  lemma {:induction false} ListAddsBackslashes(values: seq<string>, env: Env)
    requires forall i :: 0 <= i < |values| ==> '"' !in values[i]
    ensures Weight(ListTokens(values, env), Backslashes) >= SumOf(values, Backslashes)
    ensures Weight(ListTokens(values, env), Backslashes) == SumOf(values, Backslashes) ==> PlainTexts(values, env)
  {
    if values != [] {
      var ts := ListTokens(values, env);
      EscapeAddsBackslashes(values[0], env);
      ListAddsBackslashes(values[1..], env);
      if |values| > 1 {
        assert ts[1..][1..] == ListTokens(values[1..], env);
      }
      assert PlainTexts(values[1..], env) ==> forall i :: 1 <= i < |values| ==> values[i] == values[1..][i - 1];
    }
  }

  lemma AfterKeyWeight(op: Op, value: string, values: seq<string>, w: string -> nat, env: Env)
    ensures Weight(AfterKey(op, value, values, env), w) ==
            if op == OpExists then 0
            else if op == OpIn then Weight(ListTokens(values, env), w)
            else w(EscapeAll(value, env))
  {
    var close := [ParenClose];
    WeightCons(ParenClose, [], w);
    assert [ParenClose] + [] == close;
    if op == OpExists {
      WeightCons(OpTok(OpExists), close, w);
      assert [OpTok(OpExists)] + close == [OpTok(OpExists), ParenClose];
    } else if op == OpIn {
      var ts := ListTokens(values, env);
      WeightAdds([OpTok(OpIn), ParenOpen], ts + [ParenClose, ParenClose], w);
      WeightAdds(ts, [ParenClose, ParenClose], w);
      WeightAdds(close, close, w);
      assert close + close == [ParenClose, ParenClose];
      WeightCons(OpTok(OpIn), [ParenOpen], w);
      WeightCons(ParenOpen, [], w);
      assert [OpTok(OpIn)] + [ParenOpen] == [OpTok(OpIn), ParenOpen] && [ParenOpen] + [] == [ParenOpen];
    } else {
      var q := Str(EscapeAll(value, env));
      WeightCons(q, close, w);
      WeightCons(OpTok(op), [q, ParenClose], w);
      assert [q] + close == [q, ParenClose];
    }
  }

  // The weight of a printed comparison is that of its key's tokens and its values'.
  lemma CompareWeight(e: Expr, w: string -> nat, env: Env)
    requires e.Compare? && LexAll(e.key).Ok?
    ensures PrintTokens(e, env).Ok?
    ensures Weight(PrintTokens(e, env).value, w) == Weight(LexAll(e.key).value, w) +
            (if e.op == OpExists then 0
             else if e.op == OpIn then Weight(ListTokens(e.values, env), w)
             else w(EscapeAll(e.value, env)))
  {
    var key := LexAll(e.key).value;
    var after := AfterKey(e.op, e.value, e.values, env);
    WeightCons(ParenOpen, key + after, w);
    WeightAdds(key, after, w);
    AfterKeyWeight(e.op, e.value, e.values, w, env);
  }

  lemma LogicalWeight(op: Op, l: Expr, r: Expr, w: string -> nat, env: Env)
    requires PrintTokens(Logical(op, l, r), env).Ok?
    ensures PrintTokens(l, env).Ok? && PrintTokens(r, env).Ok?
    ensures Weight(PrintTokens(Logical(op, l, r), env).value, w) ==
            Weight(PrintTokens(l, env).value, w) + Weight(PrintTokens(r, env).value, w)
  {
    var a, b := PrintTokens(l, env).value, PrintTokens(r, env).value;
    WeightAdds([ParenOpen] + a, [OpTok(op)] + (b + [ParenClose]), w);
    WeightAdds([ParenOpen], a, w);
    WeightAdds([OpTok(op)], b + [ParenClose], w);
    WeightAdds(b, [ParenClose], w);
  }

  lemma NotWeight(x: Expr, w: string -> nat, env: Env)
    requires PrintTokens(Not(x), env).Ok?
    ensures PrintTokens(x, env).Ok?
    ensures Weight(PrintTokens(Not(x), env).value, w) == Weight(PrintTokens(x, env).value, w)
  {
    var a := PrintTokens(x, env).value;
    WeightAdds([ParenOpen, OpTok(OpNot)], a + [ParenClose], w);
    WeightAdds(a, [ParenClose], w);
    assert [ParenOpen, OpTok(OpNot)][1..] == [OpTok(OpNot)];
  }

  lemma {:induction false} PrintingAddsBackslashes(e: Expr, env: Env)
    requires QuoteFree(e) && WellFormed(e, env) && PrintTokens(e, env).Ok?
    ensures Weight(PrintTokens(e, env).value, Backslashes) >= ExprWeight(e, Backslashes)
    ensures Weight(PrintTokens(e, env).value, Backslashes) == ExprWeight(e, Backslashes) ==> PlainValues(e, env)
  {
    match e {
      case Not(x) =>
        NotWeight(x, Backslashes, env);
        PrintingAddsBackslashes(x, env);
      case Logical(op, l, r) =>
        LogicalWeight(op, l, r, Backslashes, env);
        PrintingAddsBackslashes(l, env);
        PrintingAddsBackslashes(r, env);
      case Text(value) =>
        EscapeAddsBackslashes(value, env);
        assert PrintTokens(e, env).value[1..] == [];
      case Compare(op, key, value, values) =>
        CompareWeight(e, Backslashes, env);
        LexKeepsBackslashes(key);
        EscapeAddsBackslashes(value, env);
        ListAddsBackslashes(values, env);
    }
  }

  lemma {:induction false} PlainListWeight(values: seq<string>, w: string -> nat, env: Env)
    requires PlainTexts(values, env)
    ensures Weight(ListTokens(values, env), w) == SumOf(values, w)
  {
    PlainList(values, env);
    StringsOfList(ListTokens(values, env), w);
  }

  lemma {:induction false} PrintingShrinksKeys(e: Expr, env: Env)
    requires QuoteFree(e) && WellFormed(e, env) && Settled(e, env) && PlainValues(e, env)
    requires PrintTokens(e, env).Ok?
    ensures Weight(PrintTokens(e, env).value, Size) <= ExprWeight(e, Size)
    ensures Weight(PrintTokens(e, env).value, Size) == ExprWeight(e, Size) ==> PlainKeys(e, env)
  {
    match e {
      case Not(x) =>
        NotWeight(x, Size, env);
        PrintingShrinksKeys(x, env);
      case Logical(op, l, r) =>
        LogicalWeight(op, l, r, Size, env);
        PrintingShrinksKeys(l, env);
        PrintingShrinksKeys(r, env);
      case Text(value) =>
        PlainIsUnescaped(value, env);
        assert PrintTokens(e, env).value[1..] == [];
      case Compare(op, key, value, values) =>
        CompareWeight(e, Size, env);
        LexShrinks(key);
        PlainIsUnescaped(value, env);
        PlainListWeight(values, Size, env);
    }
  }

  lemma ComesBackIsPrintable(e: Expr, env: Env)
    requires env.Valid() && QueryOf(Print(e, env), env) == Ok(e)
    ensures Printable(e, env)
  {
    var ts := LexAll(Print(e, env)).value;
    QueryIsGrammar(ts, e, env);
    var t :| LegalOr(t, env) && YieldOr(t) == ts && MeanOr(t, env) == e;
    forall s ensures Backslashes(env.Normalize(s)) == Backslashes(s) {
      NormalizeKeepsBackslashes(s, env);
    }
    LexedHasNoQuote(Print(e, env));
    OrKeeps(t, Backslashes, env);
    OrKeeps(t, Size, env);
    PrintedWhole(e, env);
    PrintingAddsBackslashes(e, env);
    PrintingShrinksKeys(e, env);
  }

  lemma PrintableComesBack(e: Expr, env: Env)
    requires Printable(e, env)
    ensures QueryOf(Print(e, env), env) == Ok(e)
  {
    PlainIsQuoteFree(e, env);
    PlainDerives(e, env);
    PrintedWhole(e, env);
    var t := OrOne(AndOne(TreeOf(e, env)));
    assert YieldAnd(t.a) == YieldNot(t.a.n) && MeanAnd(t.a, env) == e && LegalAnd(t.a, env);
    assert YieldOr(t) == YieldNot(t.a.n) && MeanOr(t, env) == e && LegalOr(t, env);
    QueryIsGrammar(YieldOr(t), e, env);
  }

  /** A tree parses back from its own text exactly when its keys and values are plain. */
  lemma PrintThenParse(e: Expr, env: Env)
    requires env.Valid()
    ensures QueryOf(Print(e, env), env) == Ok(e) <==> Printable(e, env)
  {
    if Printable(e, env) {
      PrintableComesBack(e, env);
    }
    if QueryOf(Print(e, env), env) == Ok(e) {
      ComesBackIsPrintable(e, env);
    }
  }

  /** What the parser answers carries, in every node, what its operator uses and nothing else. */
  lemma ParsedIsWellFormed(input: string, e: Expr, env: Env)
    requires env.Valid() && QueryOf(input, env) == Ok(e)
    ensures WellFormed(e, env) && Settled(e, env)
  {
    QueryIsGrammar(LexAll(input).value, e, env);
    var t :| LegalOr(t, env) && YieldOr(t) == LexAll(input).value && MeanOr(t, env) == e;
    OrKeeps(t, (s: string) => 0, env);
  }

  /** Of a query that was itself parsed, only the spelling of its keys and values is left to ask about. */
  lemma ParsedThenPrinted(input: string, e: Expr, env: Env)
    requires env.Valid() && QueryOf(input, env) == Ok(e)
    ensures QueryOf(Print(e, env), env) == Ok(e) <==> PlainValues(e, env) && PlainKeys(e, env)
  {
    ParsedIsWellFormed(input, e, env);
    PrintThenParse(e, env);
  }

  /** The package's own sample, a backslash in a regular expression, does not come back. */
  lemma BackslashDoesNotComeBack(env: Env)
    requires env.Valid()
    ensures var e := Compare(OpRe, "req.url", "\\.png$", []);
            QueryOf(Print(e, env), env) != Ok(e)
  {
    var e := Compare(OpRe, "req.url", "\\.png$", []);
    PrintThenParse(e, env);
    assert e.value[0] == '\\';
    assert !PlainText(e.value, env);
  }
}
