/** The one-pass lexer, proved against a recursive reading of the input. */
module FilterLexer {
  import opened FilterAst
  import opened Wrappers

  function Then(a: Result<seq<Token>, QueryError>, b: Result<seq<Token>, QueryError>): Result<seq<Token>, QueryError> {
    if a.Err? then a else if b.Err? then b else Ok(a.value + b.value)
  }

  // Where c first stands in s, or |s|.
  function IndexOf(s: string, c: char): (n: nat)
    ensures n <= |s|
    ensures forall i :: 0 <= i < n ==> s[i] != c
    ensures n < |s| ==> s[n] == c
  {
    if s == "" || s[0] == c then 0 else 1 + IndexOf(s[1..], c)
  }

  // How many word characters s starts with.
  function WordLength(s: string): (n: nat)
    ensures n <= |s|
    ensures forall i :: 0 <= i < n ==> IsWordChar(s[i])
    ensures n < |s| ==> !IsWordChar(s[n])
  {
    if s == "" || !IsWordChar(s[0]) then 0 else 1 + WordLength(s[1..])
  }

  predicate StartsOperator(c: char) {
    c == '=' || c == '!' || c == '<' || c == '>'
  }

  // The operator at the head of s and how many characters it takes.
  function LexOperator(s: string): (r: Result<(Op, nat), QueryError>)
    requires s != "" && StartsOperator(s[0])
    ensures r.Ok? ==> 1 <= r.value.1 <= |s|
  {
    var two := if |s| >= 2 then s[..2] else "";
    if two == "=~" then Ok((OpRe, 2))
    else if two == "!~" then Ok((OpNotRe, 2))
    else if two == "!=" then Ok((OpNotEq, 2))
    else if two == ">=" then Ok((OpGtEq, 2))
    else if two == "<=" then Ok((OpLtEq, 2))
    else if s[0] == '=' then Ok((OpEq, 1))
    else if s[0] == '>' then Ok((OpGt, 1))
    else if s[0] == '<' then Ok((OpLt, 1))
    else Err(InvalidOperator)
  }

  // What the head of s contributes: no token or one, and the characters it takes.
  function LexOne(s: string): (r: Result<(seq<Token>, nat), QueryError>)
    requires s != ""
    ensures r.Ok? ==> 1 <= r.value.1 <= |s|
  {
    if IsSpace(s[0]) then Ok(([], 1))
    else if s[0] == '(' then Ok(([ParenOpen], 1))
    else if s[0] == ')' then Ok(([ParenClose], 1))
    else if s[0] == ',' then Ok(([Comma], 1))
    else if s[0] == '"' then
      var end := IndexOf(s[1..], '"');
      if end == |s| - 1 then Err(UnclosedQuote) else Ok(([Str(s[1..1 + end])], end + 2))
    else if StartsOperator(s[0]) then
      var op := LexOperator(s);
      if op.Err? then Err(op.error) else Ok(([OpTok(op.value.0)], op.value.1))
    else
      var n := WordLength(s);
      Ok(([Classify(s[..n])], n))
  }

  /** The tokens of s, without the closing EOF. */
  function LexAll(s: string): Result<seq<Token>, QueryError>
    decreases |s|
  {
    if s == "" then Ok([])
    else
      var one := LexOne(s);
      if one.Err? then Err(one.error) else Then(Ok(one.value.0), LexAll(s[one.value.1..]))
  }

  lemma ThenAssociates(a: seq<Token>, b: seq<Token>, r: Result<seq<Token>, QueryError>)
    ensures Then(Ok(a), Then(Ok(b), r)) == Then(Ok(a + b), r)
  {
    if r.Ok? {
      assert a + (b + r.value) == (a + b) + r.value;
    }
  }

  // One turn of the lexer's loop, at pos.
  method Scan(input: string, pos: nat) returns (r: Result<(seq<Token>, nat), QueryError>)
    requires pos < |input|
    ensures r == LexOne(input[pos..])
  {
    ghost var rest := input[pos..];
    var c := input[pos];
    if IsSpace(c) {
      r := Ok(([], 1));
    } else if c == '(' {
      r := Ok(([ParenOpen], 1));
    } else if c == ')' {
      r := Ok(([ParenClose], 1));
    } else if c == ',' {
      r := Ok(([Comma], 1));
    } else if c == '"' {
      assert rest[1..] == input[pos + 1..];
      var end := IndexOf(input[pos + 1..], '"');
      if end == |input| - pos - 1 {
        r := Err(UnclosedQuote);
      } else {
        assert input[pos + 1..pos + 1 + end] == rest[1..1 + end];
        r := Ok(([Str(input[pos + 1..pos + 1 + end])], end + 2));
      }
    } else if StartsOperator(c) {
      var op := LexOperator(input[pos..]);
      if op.Err? {
        r := Err(op.error);
      } else {
        r := Ok(([OpTok(op.value.0)], op.value.1));
      }
    } else {
      var end := pos;
      while end < |input| && IsWordChar(input[end])
        invariant pos <= end <= |input|
        invariant WordLength(rest) == end - pos + WordLength(input[end..])
      {
        assert input[end..][1..] == input[end + 1..];
        end := end + 1;
      }
      assert input[pos..end] == rest[..end - pos];
      r := Ok(([Classify(input[pos..end])], end - pos));
    }
  }

  method Lex(input: string) returns (r: Result<seq<Token>, QueryError>)
    ensures r == Then(LexAll(input), Ok([EOF]))
  {
    var toks: seq<Token> := [];
    var pos := 0;
    assert input[0..] == input;
    assert LexAll(input).Ok? ==> toks + LexAll(input).value == LexAll(input).value;

    while pos < |input|
      invariant 0 <= pos <= |input|
      invariant LexAll(input) == Then(Ok(toks), LexAll(input[pos..]))
    {
      var one := Scan(input, pos);
      if one.Err? {
        return Err(one.error);
      }
      var next := pos + one.value.1;
      assert input[pos..][one.value.1..] == input[next..];
      ThenAssociates(toks, one.value.0, LexAll(input[next..]));
      toks := toks + one.value.0;
      pos := next;
    }
    assert input[pos..] == "" && toks + [] == toks;
    r := Ok(toks + [EOF]);
  }
}
