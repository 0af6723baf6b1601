/** Tokens of PDF text, read character by character over a list of streams: the lexer the editor reads
    content streams and objects with. */
module Lexer {
  import opened Options

  /** The streams behind the current one, and whether an inline image is being read: between BI and ID. */
  datatype Context = Context(more: seq<string>, image: bool)

  /** What is left of the current stream, and what it stands in. */
  datatype Input = Input(cur: string, ctx: Context)

  datatype Token =
    | TInt(i: int)
    | TReal(r: real)
    | TStr(s: string)
    | TName(n: string)
    | TCmd(c: string)
    | TBool(b: bool)
    | TNull
    | TError
    | TData(bytes: string)

  function Size(inp: Input): nat {
    |inp.cur| + StreamsSize(inp.ctx.more)
  }

  function StreamsSize(more: seq<string>): nat {
    if more == [] then 0 else |more[0]| + 1 + StreamsSize(more[1..])
  }

  /** The next character, from a later stream when this one is used up. */
  function GetChar(inp: Input): (r: Option<(char, Input)>)
    ensures r.Some? ==> Size(r.value.1) < Size(inp)
    decreases |inp.ctx.more|
  {
    if inp.cur != "" then Some((inp.cur[0], inp.(cur := inp.cur[1..])))
    else if inp.ctx.more == [] then None
    else GetChar(Input(inp.ctx.more[0], inp.ctx.(more := inp.ctx.more[1..])))
  }

  /** The next character of the current stream. */
  function LookChar(inp: Input): Option<char> {
    if inp.cur == "" then None else Some(inp.cur[0])
  }

  /** The input behind the character looked at. */
  function Skip(inp: Input): (r: Input)
    requires LookChar(inp).Some?
    ensures Size(r) < Size(inp)
  {
    inp.(cur := inp.cur[1..])
  }

  predicate IsSpace(c: char) {
    c as int in {0, 9, 10, 12, 13, 32}
  }

  /** White space and the characters that end a name or a command. */
  predicate IsSpecial(c: char) {
    IsSpace(c) || c in {'%', '(', ')', '/', '<', '>', '[', ']', '{', '}'}
  }

  predicate IsDigit(c: char) {
    '0' <= c <= '9'
  }

  function DigitValue(c: char): nat
    requires IsDigit(c)
  {
    c as int - '0' as int
  }

  function HexValue(c: char): Option<nat> {
    if IsDigit(c) then Some(DigitValue(c))
    else if 'A' <= c <= 'F' then Some(c as int - 'A' as int + 10)
    else if 'a' <= c <= 'f' then Some(c as int - 'a' as int + 10)
    else None
  }

  function Byte(n: nat): char {
    (n % 256) as char
  }

  /** A 32-bit two's complement integer. */
  function Wrap32(n: int): int {
    (n + 0x8000_0000) % 0x1_0000_0000 - 0x8000_0000
  }

  /** Skips white space and comments, and takes the character behind them. */
  function SkipSpace(inp: Input, comment: bool): (r: Option<(char, Input)>)
    ensures r.Some? ==> Size(r.value.1) < Size(inp)
    decreases Size(inp)
  {
    match GetChar(inp)
    case None => None
    case Some((c, next)) =>
      if comment then SkipSpace(next, !(c == '\r' || c == '\n'))
      else if c == '%' then SkipSpace(next, true)
      else if IsSpace(c) then SkipSpace(next, false)
      else Some((c, next))
  }

  // ------------------------------------------------------------------------------------------
  // Numbers
  // ------------------------------------------------------------------------------------------

  /** Digits of an integer; true when a decimal point follows, which is taken too. */
  function Digits(inp: Input, xi: int): (r: (int, bool, Input))
    ensures Size(r.2) <= Size(inp)
    decreases Size(inp)
  {
    match LookChar(inp)
    case None => (xi, false, inp)
    case Some(c) =>
      if IsDigit(c) then Digits(Skip(inp), Wrap32(xi * 10 + DigitValue(c)))
      else if c == '.' then (xi, true, Skip(inp))
      else (xi, false, inp)
  }

  function AddDigit(xf: real, scale: real, d: real): real {
    xf + scale * d
  }

  /** Digits behind the decimal point; minus signs among them are dropped. */
  function Fraction(inp: Input, xf: real, scale: real): (r: (real, Input))
    ensures Size(r.1) <= Size(inp)
    decreases Size(inp)
  {
    match LookChar(inp)
    case None => (xf, inp)
    case Some(c) =>
      if c == '-' then Fraction(Skip(inp), xf, scale)
      else if IsDigit(c) then Fraction(Skip(inp), AddDigit(xf, scale, DigitValue(c) as real), scale / 10.0)
      else (xf, inp)
  }

  function RealToken(inp: Input, neg: bool, xi: int): (r: (Token, Input))
    ensures Size(r.1) <= Size(inp)
  {
    var (xf, rest) := Fraction(inp, xi as real, 0.1);
    (TReal(if neg then -xf else xf), rest)
  }

  /** A number starting with c: a digit, a minus sign or a decimal point. */
  function NumberToken(c: char, inp: Input): (r: (Token, Input))
    requires IsDigit(c) || c == '-' || c == '.'
    ensures Size(r.1) <= Size(inp)
  {
    if c == '.' then RealToken(inp, false, 0)
    else
      var (xi, point, rest) := Digits(inp, if c == '-' then 0 else DigitValue(c));
      if point then RealToken(rest, c == '-', xi)
      else (TInt(if c == '-' then Wrap32(-xi) else xi), rest)
  }

  // ------------------------------------------------------------------------------------------
  // Strings
  // ------------------------------------------------------------------------------------------

  function Prefix(c: string, r: (string, Input)): (string, Input) {
    (c + r.0, r.1)
  }

  predicate IsOctal(c: Option<char>) {
    c.Some? && '0' <= c.value <= '7'
  }

  /** Up to two more octal digits. */
  function Octal(inp: Input, value: nat, more: nat): (r: (char, Input))
    ensures Size(r.1) <= Size(inp)
    decreases more
  {
    if more > 0 && IsOctal(LookChar(inp))
    then Octal(Skip(inp), value * 8 + DigitValue(LookChar(inp).value), more - 1)
    else (Byte(value), inp)
  }

  /** The characters of a literal string up to the parenthesis that closes depth open ones. */
  function Literal(inp: Input, depth: nat): (r: (string, Input))
    requires depth > 0
    ensures Size(r.1) <= Size(inp)
    decreases Size(inp)
  {
    match GetChar(inp)
    case None => ("", inp)
    case Some((c, next)) =>
      if c == '(' then Prefix([c], Literal(next, depth + 1))
      else if c == ')' then if depth == 1 then ("", next) else Prefix([c], Literal(next, depth - 1))
      else if c == '\\' then LiteralEscape(next, depth)
      else Prefix([c], Literal(next, depth))
  }

  /** Behind a backslash. */
  function LiteralEscape(inp: Input, depth: nat): (r: (string, Input))
    requires depth > 0
    ensures Size(r.1) <= Size(inp)
    decreases Size(inp)
  {
    match GetChar(inp)
    case None => ("", inp)
    case Some((c, next)) =>
      if c == 'n' then Prefix("\n", Literal(next, depth))
      else if c == 'r' then Prefix("\r", Literal(next, depth))
      else if c == 't' then Prefix("\t", Literal(next, depth))
      else if c == 'b' then Prefix([8 as char], Literal(next, depth))
      else if c == 'f' then Prefix([12 as char], Literal(next, depth))
      else if '0' <= c <= '7' then
        var (o, rest) := Octal(next, DigitValue(c), 2);
        Prefix([o], Literal(rest, depth))
      else if c == '\r' then Literal(if LookChar(next) == Some('\n') then Skip(next) else next, depth)
      else if c == '\n' then Literal(next, depth)
      else Prefix([c], Literal(next, depth))
  }

  /** A hexadecimal string; high is the first digit of an unfinished pair. */
  function Hex(inp: Input, high: Option<nat>): (r: (string, Input))
    ensures Size(r.1) <= Size(inp)
    decreases Size(inp)
  {
    match GetChar(inp)
    case None => (if high.Some? then [Byte(high.value * 16)] else "", inp)
    case Some((c, next)) =>
      if c == '>' then (if high.Some? then [Byte(high.value * 16)] else "", next)
      else if IsSpace(c) then Hex(next, high)
      else
        var d := if HexValue(c).Some? then HexValue(c).value else 0;
        if high.Some? then Prefix([Byte(high.value * 16 + d)], Hex(next, None)) else Hex(next, Some(d))
  }

  // ------------------------------------------------------------------------------------------
  // Names and commands
  // ------------------------------------------------------------------------------------------

  const TOKEN_LIMIT: nat := 128

  /** Ordinary characters behind the first n of a command; the one that fills the token buffer is lost. */
  function Word(inp: Input, n: nat): (r: (string, Input))
    ensures Size(r.1) <= Size(inp)
    decreases Size(inp)
  {
    if LookChar(inp) == None || IsSpecial(LookChar(inp).value) then ("", inp)
    else if n + 1 == TOKEN_LIMIT then ("", Skip(inp))
    else Prefix([LookChar(inp).value], Word(Skip(inp), n + 1))
  }

  /** One character of a name, where # may start a two-digit code. */
  function NameUnit(inp: Input): (r: (char, Input))
    requires LookChar(inp).Some?
    ensures Size(r.1) < Size(inp)
  {
    var c, next := LookChar(inp).value, Skip(inp);
    if c != '#' || LookChar(next) == None || HexValue(LookChar(next).value) == None then (c, next)
    else
      var high := HexValue(LookChar(next).value).value * 16;
      match GetChar(Skip(next))
      case None => (Byte(high), Skip(next))
      case Some((c2, rest)) => (Byte(high + (if HexValue(c2).Some? then HexValue(c2).value else 0)), rest)
  }

  function NameWord(inp: Input, n: nat): (r: (string, Input))
    ensures Size(r.1) <= Size(inp)
    decreases Size(inp)
  {
    if LookChar(inp) == None || IsSpecial(LookChar(inp).value) then ("", inp)
    else
      var (c, rest) := NameUnit(inp);
      if n + 1 == TOKEN_LIMIT then ("", rest) else Prefix([c], NameWord(rest, n + 1))
  }

  /** A C string ends at its first NUL. */
  function CString(s: string): string {
    if s == "" || s[0] as int == 0 then "" else [s[0]] + CString(s[1..])
  }

  function WordToken(w: string): Token {
    if w == "true" then TBool(true)
    else if w == "false" then TBool(false)
    else if w == "null" then TNull
    else TCmd(w)
  }

  /** The token starting with c. */
  function TokenAt(c: char, inp: Input): (r: (Token, Input))
    ensures Size(r.1) <= Size(inp)
  {
    if IsDigit(c) || c == '-' || c == '.' then NumberToken(c, inp)
    else if c == '(' then var (s, rest) := Literal(inp, 1); (TStr(s), rest)
    else if c == '/' then var (n, rest) := NameWord(inp, 0); (TName(CString(n)), rest)
    else if c == '[' || c == ']' then (TCmd([c]), inp)
    else if c == '<' then
      if LookChar(inp) == Some('<') then (TCmd("<<"), Skip(inp))
      else var (s, rest) := Hex(inp, None); (TStr(s), rest)
    else if c == '>' then
      if LookChar(inp) == Some('>') then (TCmd(">>"), Skip(inp)) else (TError, inp)
    else if c == ')' || c == '{' || c == '}' then (TError, inp)
    else var (w, rest) := Word(inp, 1); (WordToken([c] + w), rest)
  }

  // ------------------------------------------------------------------------------------------
  // Inline images
  // ------------------------------------------------------------------------------------------

  /** The data of an inline image up to the first EI, and what is left of the stream behind that. A stream without
      one is used up, and its last character is dropped. */
  function UpToEI(s: string): (r: (string, string))
    ensures |r.1| <= |s|
  {
    if |s| < 2 then ("", "")
    else if s[0] == 'E' && s[1] == 'I' then ("", s[2..])
    else var (data, rest) := UpToEI(s[1..]); ([s[0]] + data, rest)
  }

  /** The data behind ID; one character in between is skipped. */
  function ImageData(inp: Input): (r: (string, Input))
    ensures Size(r.1) <= Size(inp)
  {
    var first := if GetChar(inp) == None then inp else GetChar(inp).value.1;
    var (data, rest) := UpToEI(first.cur);
    (data, Input(rest, first.ctx.(image := false)))
  }

  /** All tokens up to the end of the last stream, the data of an inline image being one of them. */
  function Tokens(inp: Input): seq<Token>
    decreases Size(inp)
  {
    match SkipSpace(inp, false)
    case None => []
    case Some((c, next)) =>
      var (t, rest) := TokenAt(c, next);
      if t == TCmd("BI") then [t] + Tokens(rest.(ctx := rest.ctx.(image := true)))
      else if t == TCmd("ID") && rest.ctx.image then
        var (data, behind) := ImageData(rest);
        [t, TData(data)] + Tokens(behind)
      else [t] + Tokens(rest)
  }
}
