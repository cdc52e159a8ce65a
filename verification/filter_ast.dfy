/** The query language's syntax: operators, tokens, trees, and the printer. */
module FilterAst {

  // Every way a query is refused. The source's messages also carry a position.
  datatype QueryError =
    | EmptyQuery
    | UnclosedQuote
    | InvalidOperator
    | UnexpectedToken
    | UnexpectedEnd
    | UnmatchedParen
    | NeedsValue
    | BadRegexp
    | NeedsList
    | EmptyList
    | UnclosedList
    | UnexpectedInList

  datatype Op =
    | OpEq | OpNotEq | OpGt | OpLt | OpGtEq | OpLtEq | OpRe | OpNotRe
    | OpContains | OpIn | OpExists | OpAnd | OpOr | OpNot
  {
    predicate IsRegexp() {
      this == OpRe || this == OpNotRe
    }

    predicate IsLogical() {
      this == OpAnd || this == OpOr || this == OpNot
    }

    // The operators that take one value on their right.
    predicate TakesValue() {
      !IsLogical() && this != OpIn && this != OpExists
    }

    function Spelling(): string {
      match this
      case OpEq => "="
      case OpNotEq => "!="
      case OpGt => ">"
      case OpLt => "<"
      case OpGtEq => ">="
      case OpLtEq => "<="
      case OpRe => "=~"
      case OpNotRe => "!~"
      case OpContains => "contains"
      case OpIn => "in"
      case OpExists => "exists"
      case OpAnd => "AND"
      case OpOr => "OR"
      case OpNot => "NOT"
    }
  }

  // The end-of-input token closes every token list the lexer returns.
  datatype Token = EOF | Str(text: string) | ParenOpen | ParenClose | Comma | OpTok(op: Op)

  datatype Expr =
    | Not(x: Expr)
    | Logical(op: Op, l: Expr, r: Expr)
    | Compare(op: Op, key: string, value: string, values: seq<string>)
    | Text(value: string)

  /** What the language borrows from Unicode and from the regexp engine. */
  datatype Env = Env(lower: char -> char, printable: char -> bool, compiles: string -> bool) {
    // Case mapping settles in one step and neither makes nor unmakes a quote or a backslash.
    ghost predicate Valid() {
      && (forall c :: lower(lower(c)) == lower(c))
      && (forall c :: lower(c) == '"' <==> c == '"')
      && (forall c :: lower(c) == '\\' <==> c == '\\')
    }

    function Normalize(key: string): (r: string)
      ensures |r| == |key|
      ensures forall i :: 0 <= i < |key| ==> r[i] == lower(key[i])
    {
      seq(|key|, i requires 0 <= i < |key| => lower(key[i]))
    }
  }

  // The characters for which unicode.IsSpace answers true.
  predicate IsSpace(c: char) {
    var n := c as int;
    || 9 <= n <= 13 || n == 0x20 || n == 0x85 || n == 0xA0 || n == 0x1680
    || 0x2000 <= n <= 0x200A || n == 0x2028 || n == 0x2029 || n == 0x202F || n == 0x205F || n == 0x3000
  }

  predicate IsSpecial(c: char) {
    c in "(),=\"!<>"
  }

  predicate IsWordChar(c: char) {
    !IsSpace(c) && !IsSpecial(c)
  }

  predicate IsWord(s: string) {
    s != "" && forall i :: 0 <= i < |s| ==> IsWordChar(s[i])
  }

  // strings.ToUpper as far as a reserved word can tell: besides a-z only the
  // dotless i and the long s map onto an ASCII capital.
  function Upper(c: char): char {
    if 'a' <= c <= 'z' then (c as int - 32) as char
    else if c == '\U{0131}' then 'I'
    else if c == '\U{017F}' then 'S'
    else c
  }

  function UpperWord(s: string): (r: string)
    ensures |r| == |s|
    ensures forall i :: 0 <= i < |s| ==> r[i] == Upper(s[i])
  {
    seq(|s|, i requires 0 <= i < |s| => Upper(s[i]))
  }

  // A word is a reserved operator in any case, and a string otherwise.
  function Classify(word: string): Token {
    var u := UpperWord(word);
    if u == "AND" then OpTok(OpAnd)
    else if u == "OR" then OpTok(OpOr)
    else if u == "NOT" then OpTok(OpNot)
    else if u == "CONTAINS" then OpTok(OpContains)
    else if u == "IN" then OpTok(OpIn)
    else if u == "EXISTS" then OpTok(OpExists)
    else Str(word)
  }

  function HexDigit(n: int): char
    requires 0 <= n < 16
  {
    "0123456789abcdef"[n]
  }

  function Hex(n: nat, digits: nat): string {
    if digits == 0 then "" else Hex(n / 16, digits - 1) + [HexDigit(n % 16)]
  }

  // One character as strconv.Quote writes it.
  function Escape(c: char, env: Env): string {
    var n := c as int;
    if c == '"' || c == '\\' then ['\\', c]
    else if env.printable(c) then [c]
    else if n == 7 then "\\a"
    else if n == 8 then "\\b"
    else if n == 12 then "\\f"
    else if n == 10 then "\\n"
    else if n == 13 then "\\r"
    else if n == 9 then "\\t"
    else if n == 11 then "\\v"
    else if n < 0x20 || n == 0x7f then "\\x" + Hex(n, 2)
    else if n < 0x10000 then "\\u" + Hex(n, 4)
    else "\\U" + Hex(n, 8)
  }

  function EscapeAll(s: string, env: Env): string {
    if s == "" then "" else Escape(s[0], env) + EscapeAll(s[1..], env)
  }

  function Quote(s: string, env: Env): string {
    "\"" + EscapeAll(s, env) + "\""
  }

  function JoinQuoted(values: seq<string>, env: Env): string {
    if |values| == 0 then ""
    else if |values| == 1 then Quote(values[0], env)
    else Quote(values[0], env) + ", " + JoinQuoted(values[1..], env)
  }

  /** The query a tree is rendered back as. */
  function Print(e: Expr, env: Env): string {
    match e
    case Not(x) => "(NOT " + Print(x, env) + ")"
    case Logical(op, l, r) => "(" + Print(l, env) + " " + op.Spelling() + " " + Print(r, env) + ")"
    case Text(value) => Quote(value, env)
    case Compare(op, key, value, values) =>
      if op == OpExists then "(" + key + " exists)"
      else if op == OpIn then "(" + key + " in (" + JoinQuoted(values, env) + "))"
      else "(" + key + " " + op.Spelling() + " " + Quote(value, env) + ")"
  }
}
