/** Quoted texts read back: what the printer writes between quotes stands, as a string literal, for the text it was. */
module FilterQuote {
  import opened FilterAst
  import opened Wrappers

  // ---- a literal, read on its own terms ----------------------------------

  function HexValue(c: char): (d: Option<nat>)
    ensures d.Some? ==> d.value < 16
  {
    if '0' <= c <= '9' then Some(c as int - '0' as int)
    else if 'a' <= c <= 'f' then Some(c as int - 'a' as int + 10)
    else None
  }

  // The number some digits write, most significant first.
  function FromHex(s: string): Option<nat> {
    if s == "" then Some(0)
    else
      var high, low := FromHex(s[..|s| - 1]), HexValue(s[|s| - 1]);
      if high.None? || low.None? then None else Some(16 * high.value + low.value)
  }

  // The character with that number, if there is one.
  function CharOf(n: nat): Option<char> {
    if n < 0xD800 || 0xE000 <= n < 0x11_0000 then Some(n as char) else None
  }

  // What the letter after a backslash stands for by itself.
  function Named(c: char): Option<char> {
    match c
    case 'a' => Some('\U{0007}')
    case 'b' => Some('\U{0008}')
    case 't' => Some('\t')
    case 'n' => Some('\n')
    case 'v' => Some('\U{000B}')
    case 'f' => Some('\U{000C}')
    case 'r' => Some('\r')
    case '\\' => Some('\\')
    case '"' => Some('"')
    case _ => None
  }

  // How many digits follow the letter otherwise.
  function DigitsAfter(c: char): nat {
    if c == 'x' then 2 else if c == 'u' then 4 else if c == 'U' then 8 else 0
  }

  // The first character of a literal and how much of it that takes.
  function OneOf(s: string): (r: Option<(char, nat)>)
    requires s != ""
    ensures r.Some? ==> 0 < r.value.1 <= |s|
  {
    if s[0] == '"' || s[0] == '\n' then None
    else if s[0] != '\\' then Some((s[0], 1))
    else if |s| < 2 then None
    else if Named(s[1]).Some? then Some((Named(s[1]).value, 2))
    else
      var n := DigitsAfter(s[1]);
      if n == 0 || |s| < 2 + n then None
      else
        match FromHex(s[2..2 + n])
        case None => None
        case Some(v) => if CharOf(v).None? then None else Some((CharOf(v).value, 2 + n))
  }

  /** The text between the quotes of a literal, or nothing where it is none. */
  function Unquoted(s: string): Option<string>
    decreases |s|
  {
    if s == "" then Some("")
    else
      match OneOf(s)
      case None => None
      case Some((c, n)) =>
        var rest := Unquoted(s[n..]);
        if rest.None? then None else Some([c] + rest.value)
  }

  // ---- what Escape writes is read back -----------------------------------

  lemma HexDigitReads(d: nat)
    requires d < 16
    ensures HexValue(HexDigit(d)) == Some(d)
  {
  }

  function Pow16(k: nat): nat {
    if k == 0 then 1 else 16 * Pow16(k - 1)
  }

  lemma {:induction false} HexReads(n: nat, k: nat)
    requires n < Pow16(k)
    ensures |Hex(n, k)| == k && FromHex(Hex(n, k)) == Some(n)
  {
    if k > 0 {
      HexReads(n / 16, k - 1);
      HexDigitReads(n % 16);
      assert Hex(n, k)[..k - 1] == Hex(n / 16, k - 1);
    }
  }

  lemma DigitsRead(c: char, letter: char, k: nat, rest: string)
    requires letter == 'x' || letter == 'u' || letter == 'U'
    requires k == DigitsAfter(letter) && c as int < Pow16(k)
    ensures OneOf(['\\', letter] + Hex(c as int, k) + rest) == Some((c, 2 + k))
  {
    var s := ['\\', letter] + Hex(c as int, k) + rest;
    HexReads(c as int, k);
    assert s[0] == '\\' && s[1] == letter && s[2..2 + k] == Hex(c as int, k);
    assert CharOf(c as int) == Some(c);
  }

  lemma NamedRead(c: char, letter: char, rest: string)
    requires Named(letter) == Some(c)
    ensures OneOf(['\\', letter] + rest) == Some((c, 2))
  {
    assert (['\\', letter] + rest)[1] == letter;
  }

  lemma EscapeReads(c: char, env: Env, rest: string)
    requires env.printable(c) ==> c != '\n'
    ensures Escape(c, env) != "" && OneOf(Escape(c, env) + rest) == Some((c, |Escape(c, env)|))
  {
    var n := c as int;
    assert Pow16(2) == 0x100 && Pow16(4) == 0x1_0000 && Pow16(8) == 0x1_0000 * Pow16(4);
    if c == '"' || c == '\\' {
      NamedRead(c, c, rest);
    } else if env.printable(c) {
      assert ([c] + rest)[0] == c;
    } else if 7 <= n <= 13 {
      NamedRead(c, "abtnvfr"[n - 7], rest);
    } else if n < 0x20 || n == 0x7f {
      DigitsRead(c, 'x', 2, rest);
      HexReads(n, 2);
    } else if n < 0x10000 {
      DigitsRead(c, 'u', 4, rest);
      HexReads(n, 4);
    } else {
      DigitsRead(c, 'U', 8, rest);
      HexReads(n, 8);
    }
  }

  /** Whatever the text, its quoted form is a literal of it: no two texts are printed alike. */
  lemma {:induction false} QuoteReadsBack(s: string, env: Env)
    requires !env.printable('\n')
    ensures Unquoted(EscapeAll(s, env)) == Some(s)
  {
    if s != "" {
      var one, rest := Escape(s[0], env), EscapeAll(s[1..], env);
      EscapeReads(s[0], env, rest);
      QuoteReadsBack(s[1..], env);
      assert (one + rest)[|one|..] == rest && s == [s[0]] + s[1..];
    }
  }
}
