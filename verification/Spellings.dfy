/** All the ways to spell a token (sections 7.2 and 7.3 of ISO 32000-1), and that the lexer reads each of them, not
    only the one the editor prints. */
module Spellings {
  import opened Options
  import opened Lexer
  import opened TokenText
  import opened NameReading
  import opened ObjectRoundTrip
  import opened SpelledNumbers
  import opened SpelledStrings

  // ------------------------------------------------------------------------------------------
  // Names
  // ------------------------------------------------------------------------------------------

  /** A character of a name, as it is or as a number sign and two hexadecimal digits; any other character in the
      place of the second digit is taken for a 0. */
  datatype NamePart =
    | Raw(c: char)
    | Coded(h: nat, hLower: bool, l: nat, lLower: bool)
    | Halved(h: nat, hLower: bool, other: char)

  /** Neither white space nor a delimiter (section 7.2.2). */
  predicate IsRegular(c: char) {
    !IsBlank(White(c)) && c !in "()<>[]{}/%"
  }

  predicate IsNamePart(p: NamePart) {
    match p
    case Raw(c) => IsRegular(c)
    case Coded(h, _, l, _) => h < 16 && l < 16 && h + l > 0
    case Halved(h, _, other) => 0 < h < 16 && other !in UPPER && other !in LOWER
  }

  function NamePartText(p: NamePart): string
    requires IsNamePart(p)
  {
    match p
    case Raw(c) => [c]
    case Coded(h, hLower, l, lLower) => "#" + ([HexUnitText(Nibble(h, hLower))] + [HexUnitText(Nibble(l, lLower))])
    case Halved(h, hLower, other) => "#" + ([HexUnitText(Nibble(h, hLower))] + [other])
  }

  function NamePartValue(p: NamePart): char
    requires IsNamePart(p)
  {
    match p
    case Raw(c) => c
    case Coded(h, _, l, _) => (16 * h + l) as char
    case Halved(h, _, _) => (16 * h) as char
  }

  predicate AreNameParts(ps: seq<NamePart>) {
    forall i :: 0 <= i < |ps| ==> IsNamePart(ps[i])
  }

  function NamePartsText(ps: seq<NamePart>): string
    requires AreNameParts(ps)
  {
    if ps == [] then "" else NamePartText(ps[0]) + NamePartsText(ps[1..])
  }

  function NamePartsValue(ps: seq<NamePart>): string
    requires AreNameParts(ps)
  {
    if ps == [] then "" else [NamePartValue(ps[0])] + NamePartsValue(ps[1..])
  }

  /** A number sign on its own is not followed by a hexadecimal digit; the name ends in front of next. */
  predicate NameEndsAt(ps: seq<NamePart>, next: string)
    requires AreNameParts(ps)
  {
    if ps == [] then next == "" || !IsRegular(next[0])
    else
      var behind := NamePartsText(ps[1..]) + next;
      && (ps[0] == Raw('#') && behind != "" ==> behind[0] !in UPPER && behind[0] !in LOWER)
      && NameEndsAt(ps[1..], next)
  }

  lemma RegularIsNotSpecial(c: char)
    ensures IsSpecial(c) <==> !IsRegular(c)
  {
  }

  lemma NamePartRead(p: NamePart, tail: string, ctx: Context, k: nat)
    requires IsNamePart(p) && k + 1 < TOKEN_LIMIT
    requires p == Raw('#') && tail != "" ==> tail[0] !in UPPER && tail[0] !in LOWER
    ensures NameWord(Input(NamePartText(p) + tail, ctx), k)
         == Prefix([NamePartValue(p)], NameWord(Input(tail, ctx), k + 1))
  {
    hide NameWord, HexValue, HexUnitText, IsRegular, IsSpecial;
    match p
    case Raw(c) =>
      RegularIsNotSpecial(c);
      RawRead(c, tail, ctx, k);
    case Coded(h, hLower, l, lLower) =>
      NibbleValue(h, hLower);
      NibbleValue(l, lLower);
      CodedRead(HexUnitText(Nibble(h, hLower)), HexUnitText(Nibble(l, lLower)), h, l, tail, ctx, k);
    case Halved(h, hLower, other) =>
      NibbleValue(h, hLower);
      HexCharacters(other);
      CodedRead(HexUnitText(Nibble(h, hLower)), other, h, 0, tail, ctx, k);
  }

  lemma NibbleValue(v: nat, lower: bool)
    requires v < 16
    ensures HexValue(HexUnitText(Nibble(v, lower))) == Some(v)
  {
    UnitHasValue(Nibble(v, lower));
    assert HexUnitText(Nibble(v, lower)) == if lower then LOWER[v] else UPPER[v];
  }

  lemma RawRead(c: char, tail: string, ctx: Context, k: nat)
    requires !IsSpecial(c) && k + 1 < TOKEN_LIMIT
    requires c == '#' && tail != "" ==> tail[0] !in UPPER && tail[0] !in LOWER
    ensures NameWord(Input([c] + tail, ctx), k) == Prefix([c], NameWord(Input(tail, ctx), k + 1))
  {
    assert ([c] + tail)[1..] == tail;
    if tail != "" {
      HexCharacters(tail[0]);
    }
    hide IsSpecial, HexValue;
  }

  lemma CodedRead(x: char, y: char, h: nat, l: nat, tail: string, ctx: Context, k: nat)
    requires HexValue(x) == Some(h) && h < 16 && k + 1 < TOKEN_LIMIT
    requires l == (if HexValue(y).Some? then HexValue(y).value else 0) && l < 16
    ensures NameWord(Input("#" + ([x] + [y]) + tail, ctx), k)
         == Prefix([(16 * h + l) as char], NameWord(Input(tail, ctx), k + 1))
  {
    assert !IsSpecial('#');
    hide IsSpecial, HexValue, NameUnit;
    CodeUnit(x, y, h, l, tail, ctx);
  }

  lemma CodeUnit(x: char, y: char, h: nat, l: nat, tail: string, ctx: Context)
    requires HexValue(x) == Some(h) && l == if HexValue(y).Some? then HexValue(y).value else 0
    ensures NameUnit(Input("#" + ([x] + [y]) + tail, ctx)) == (Byte(h * 16 + l), Input(tail, ctx))
  {
    hide HexValue;
    var text := "#" + ([x] + [y]) + tail;
    assert text[1..] == [x] + ([y] + tail) && ([x] + ([y] + tail))[1..] == [y] + tail && ([y] + tail)[1..] == tail;
  }

  /** A code cut off by the end of the last stream. */
  lemma CodeCutOff(h: nat, lower: bool, image: bool, k: nat)
    requires h < 16 && k + 1 < TOKEN_LIMIT
    ensures var ctx := Context([], image);
      NameWord(Input("#" + [HexUnitText(Nibble(h, lower))], ctx), k) == ([(16 * h) as char], Input("", ctx))
  {
    var ctx := Context([], image);
    NibbleValue(h, lower);
    var x := HexUnitText(Nibble(h, lower));
    var text := "#" + [x];
    assert text[1..] == [x] && [x][1..] == "";
    assert !IsSpecial('#');
    hide IsSpecial, HexValue, HexUnitText;
    assert NameUnit(Input(text, ctx)) == (Byte(16 * h), Input("", ctx));
    hide NameUnit;
    assert NameWord(Input("", ctx), k + 1) == ("", Input("", ctx));
    assert [Byte(16 * h)] + "" == [(16 * h) as char];
  }

  lemma {:induction false} NamePartsRead(ps: seq<NamePart>, tail: string, ctx: Context, k: nat)
    requires AreNameParts(ps) && NameEndsAt(ps, tail) && k + |ps| < TOKEN_LIMIT
    ensures NameWord(Input(NamePartsText(ps) + tail, ctx), k) == (NamePartsValue(ps), Input(tail, ctx))
  {
    hide NamePartText, NamePartValue, NameWord, IsRegular, NamePartsText;
    if ps == [] {
      NoNameParts(tail);
      NameStops(tail, ctx, k);
    } else {
      NamePartsFront(ps, tail);
      NamePartRead(ps[0], NamePartsText(ps[1..]) + tail, ctx, k);
      NamePartsRead(ps[1..], tail, ctx, k + 1);
    }
  }

  lemma NoNameParts(tail: string)
    ensures NamePartsText([]) + tail == tail
  {
    assert NamePartsText([]) == "";
  }

  lemma NamePartsFront(ps: seq<NamePart>, tail: string)
    requires ps != [] && AreNameParts(ps)
    ensures NamePartsText(ps) + tail == NamePartText(ps[0]) + (NamePartsText(ps[1..]) + tail)
  {
    hide NamePartText;
    ThreeTexts(NamePartText(ps[0]), NamePartsText(ps[1..]), tail);
  }

  lemma {:induction false} NamePartsHaveNoNul(ps: seq<NamePart>)
    requires AreNameParts(ps)
    ensures forall i :: 0 <= i < |NamePartsValue(ps)| ==> NamePartsValue(ps)[i] as int != 0
  {
    hide NamePartValue;
    if ps != [] {
      NamePartsHaveNoNul(ps[1..]);
      NoNulPart(ps[0]);
    }
  }

  lemma NameStops(tail: string, ctx: Context, k: nat)
    requires tail == "" || !IsRegular(tail[0])
    ensures NameWord(Input(tail, ctx), k) == ("", Input(tail, ctx))
  {
    if tail != "" {
      RegularIsNotSpecial(tail[0]);
    }
  }

  lemma NoNulPart(p: NamePart)
    requires IsNamePart(p)
    ensures NamePartValue(p) as int != 0
  {
  }

  // ------------------------------------------------------------------------------------------
  // Words
  // ------------------------------------------------------------------------------------------

  predicate IsKeyword(w: string) {
    && 0 < |w| < TOKEN_LIMIT && (forall i :: 0 <= i < |w| ==> IsRegular(w[i]))
    && w[0] !in "0123456789-."
  }

  function KeywordValue(w: string): Token {
    match w
    case "true" => TBool(true)
    case "false" => TBool(false)
    case "null" => TNull
    case _ => TCmd(w)
  }

  lemma {:induction false} WordRead(w: string, tail: string, ctx: Context, k: nat)
    requires (forall i :: 0 <= i < |w| ==> IsRegular(w[i])) && (tail == "" || !IsRegular(tail[0]))
    requires k + |w| < TOKEN_LIMIT
    ensures Word(Input(w + tail, ctx), k) == (w, Input(tail, ctx))
  {
    hide IsRegular, IsSpecial;
    if w == "" {
      assert w + tail == tail;
      if tail != "" {
        RegularIsNotSpecial(tail[0]);
      }
    } else {
      assert (w + tail)[1..] == w[1..] + tail;
      RegularIsNotSpecial(w[0]);
      WordRead(w[1..], tail, ctx, k + 1);
      assert w == [w[0]] + w[1..];
    }
  }

  /** A word that does not fit into the token buffer is cut, and the character that fills it is lost. */
  lemma {:induction false} LongWordRead(w: string, tail: string, ctx: Context, k: nat)
    requires (forall i :: 0 <= i < |w| ==> IsRegular(w[i])) && k < TOKEN_LIMIT <= k + |w|
    ensures var n := TOKEN_LIMIT - 1 - k;
      Word(Input(w + tail, ctx), k) == (w[..n], Input(w[n + 1..] + tail, ctx))
    decreases |w|
  {
    hide IsRegular, IsSpecial;
    RegularIsNotSpecial(w[0]);
    assert (w + tail)[1..] == w[1..] + tail;
    if k + 1 < TOKEN_LIMIT {
      LongWordRead(w[1..], tail, ctx, k + 1);
      var n := TOKEN_LIMIT - 1 - k;
      assert w[..n] == [w[0]] + w[1..][..n - 1] && w[n + 1..] == w[1..][n..];
    }
  }

  // ------------------------------------------------------------------------------------------
  // Tokens
  // ------------------------------------------------------------------------------------------

  /** The spelling of a token: an integer or a real, a string in either form, a name, a word, one of the marks of
      arrays and dictionaries, or a character that starts no token. */
  datatype Spelling =
    | Whole(neg: bool, digits: seq<nat>)
    | Pointed(neg: bool, digits: seq<nat>, decimals: seq<Decimal>)
    | InParens(ps: seq<Piece>)
    | InAngles(us: seq<HexUnit>)
    | Slashed(parts: seq<NamePart>)
    | Keyword(w: string)
    | Mark(m: string)
    | Stray(c: char)

  predicate IsSpelling(s: Spelling) {
    match s
    case Whole(neg, digits) =>
      (neg || digits != []) && Below(digits, 10) && DecimalValue(digits) < 0x8000_0000 + if neg then 1 else 0
    case Pointed(neg, digits, decimals) =>
      Below(digits, 10) && AreDecimals(decimals) && DecimalValue(digits) < 0x8000_0000
    case InParens(ps) => WellFormed(ps)
    case InAngles(us) => AreHexUnits(us) && (us != [] ==> HexUnitText(us[0]) != '<')
    case Slashed(parts) => AreNameParts(parts) && |parts| < TOKEN_LIMIT
    case Keyword(w) => IsKeyword(w) && w != "BI" && w != "ID"
    case Mark(m) => m in ["[", "]", "<<", ">>"]
    case Stray(c) => c in "){}>"
  }

  function SignText(neg: bool): string {
    if neg then "-" else ""
  }

  function SpellingText(s: Spelling): string
    requires IsSpelling(s)
  {
    match s
    case Whole(neg, digits) => SignText(neg) + DigitsText(digits)
    case Pointed(neg, digits, decimals) => SignText(neg) + DigitsText(digits) + "." + DecimalsText(decimals)
    case InParens(ps) => "(" + PiecesText(ps) + ")"
    case InAngles(us) => "<" + HexUnitsText(us) + ">"
    case Slashed(parts) => "/" + NamePartsText(parts)
    case Keyword(w) => w
    case Mark(m) => m
    case Stray(c) => [c]
  }

  function SpellingValue(s: Spelling): Token
    requires IsSpelling(s)
  {
    match s
    case Whole(neg, digits) => TInt(if neg then 0 - DecimalValue(digits) else DecimalValue(digits))
    case Pointed(neg, digits, decimals) =>
      var v := DecimalValue(digits) as real + FiguresValue(decimals);
      TReal(if neg then -v else v)
    case InParens(ps) => TStr(PiecesValue(ps))
    case InAngles(us) => NibblesBelow(us); TStr(BytesOf(Nibbles(us)))
    case Slashed(parts) => TName(NamePartsValue(parts))
    case Keyword(w) => KeywordValue(w)
    case Mark(m) => TCmd(m)
    case Stray(_) => TError
  }

  /** The token ends in front of next. */
  predicate EndsBefore(s: Spelling, next: string)
    requires IsSpelling(s)
  {
    match s
    case Whole(_, _) => EndsNumber(next, false)
    case Pointed(_, _, _) => EndsNumber(next, true)
    case InParens(ps) => Separate(ps, ")" + next)
    case InAngles(_) => true
    case Slashed(parts) => NameEndsAt(parts, next)
    case Keyword(_) => next == "" || !IsRegular(next[0])
    case Mark(_) => true
    case Stray(c) => c == '>' && next != "" ==> next[0] != '>'
  }

  /** A number too large for 32 bits wraps around. */
  lemma WrapsAround(n: int) returns (k: int)
    ensures -0x8000_0000 <= Wrap32(n) < 0x8000_0000 && Wrap32(n) == n - k * 0x1_0000_0000
  {
    k := (n + 0x8000_0000) / 0x1_0000_0000;
  }

  lemma WholeStops(tail: string, ctx: Context, xi: int)
    requires EndsNumber(tail, false)
    ensures Digits(Input(tail, ctx), xi) == (xi, false, Input(tail, ctx))
  {
    if tail != "" {
      DigitCharacters(tail[0]);
    }
  }

  /** Sign and whole part. */
  lemma SignedStarts(neg: bool, digits: seq<nat>, tail: string, ctx: Context)
    requires (neg || digits != []) && Below(digits, 10) && DecimalValue(digits) <= 0x8000_0000
    ensures var text := SignText(neg) + DigitsText(digits);
      && text != "" && (IsDigit(text[0]) || text[0] == '-') && (text[0] == '-' <==> neg)
      && Digits(Input(text[1..] + tail, ctx), if neg then 0 else DigitValue(text[0]))
         == Digits(Input(tail, ctx), Wrap32(DecimalValue(digits)))
  {
    hide Digits, Wrap32, DecimalValue, DigitsText;
    ContinuedIsValue(digits);
    DigitsFront(digits, tail);
    WrapIsIdentity(0);
    if neg {
      assert ("-" + DigitsText(digits))[1..] == DigitsText(digits);
      DigitsRead(0, digits, tail, ctx);
    } else {
      var d := digits[0];
      DigitRead(d, "", ctx, 0);
      FirstDigit(digits);
      assert "" + DigitsText(digits) == DigitsText(digits);
      WrapIsIdentity(d);
      DigitsRead(d, digits[1..], tail, ctx);
    }
  }

  lemma FirstDigit(digits: seq<nat>)
    requires digits != [] && Below(digits, 10)
    ensures Below(digits[1..], 10) && Continued(0, digits) == Continued(digits[0], digits[1..])
    ensures DigitsText(digits) != "" && DigitsText(digits)[0] == DigitOf(digits[0])
    ensures DigitsText(digits)[1..] == DigitsText(digits[1..])
  {
  }

  lemma WholeSpelled(neg: bool, digits: seq<nat>, tail: string, ctx: Context)
    requires IsSpelling(Whole(neg, digits)) && EndsNumber(tail, false)
    ensures Tokens(Input(SpellingText(Whole(neg, digits)) + tail, ctx))
         == [SpellingValue(Whole(neg, digits))] + Tokens(Input(tail, ctx))
  {
    hide Digits, Tokens, DigitsText, DecimalValue;
    var text := SignText(neg) + DigitsText(digits);
    SignedStarts(neg, digits, tail, ctx);
    NumberStarts(text, tail, ctx);
    WholeStops(tail, ctx, Wrap32(DecimalValue(digits)));
  }

  /** Sign, whole part and point. */
  lemma PointReached(neg: bool, digits: seq<nat>, behind: string, ctx: Context)
    requires Below(digits, 10) && DecimalValue(digits) < 0x8000_0000
    ensures var (t, rest) := RealToken(Input(behind, ctx), neg, DecimalValue(digits));
      Tokens(Input(SignText(neg) + DigitsText(digits) + ("." + behind), ctx)) == [t] + Tokens(rest)
  {
    hide Digits, Tokens, DigitsText, DecimalValue, Fraction, ImageData;
    var front, n := SignText(neg) + DigitsText(digits), DecimalValue(digits);
    if front == "" {
      NoDigitsNoValue(digits);
      assert front + ("." + behind) == ['.'] + behind;
      FirstToken('.', behind, ctx);
    } else {
      SignNotEmpty(neg, digits);
      SignedStarts(neg, digits, "." + behind, ctx);
      NumberStarts(front, "." + behind, ctx);
      WrapIsIdentity(n);
      PointReads(behind, ctx, n);
    }
  }

  lemma PointedSpelled(neg: bool, digits: seq<nat>, decimals: seq<Decimal>, tail: string, ctx: Context)
    requires IsSpelling(Pointed(neg, digits, decimals)) && EndsNumber(tail, true)
    ensures Tokens(Input(SpellingText(Pointed(neg, digits, decimals)) + tail, ctx))
         == [SpellingValue(Pointed(neg, digits, decimals))] + Tokens(Input(tail, ctx))
  {
    hide Tokens, DigitsText, DecimalValue, DecimalsText, FiguresValue, Fraction, AddDigit, EndsNumber, SignText;
    var n := DecimalValue(digits) as real;
    FourParts(SignText(neg) + DigitsText(digits), ".", DecimalsText(decimals), tail);
    PointReached(neg, digits, DecimalsText(decimals) + tail, ctx);
    DecimalsRead(decimals, tail, ctx, n, 0.1);
    Tenth(n, FiguresValue(decimals));
  }

  lemma Tenth(a: real, b: real)
    ensures AddDigit(a, 0.1, b * 10.0) == a + b
  {
  }

  lemma NoDigitsNoValue(digits: seq<nat>)
    requires Below(digits, 10) && DigitsText(digits) == ""
    ensures digits == [] && DecimalValue(digits) == 0
  {
  }

  lemma SignNotEmpty(neg: bool, digits: seq<nat>)
    requires Below(digits, 10) && SignText(neg) + DigitsText(digits) != ""
    ensures neg || digits != []
  {
  }

  lemma StringsSpelled(s: Spelling, tail: string, ctx: Context)
    requires (s.InParens? || s.InAngles?) && IsSpelling(s) && EndsBefore(s, tail)
    ensures Tokens(Input(SpellingText(s) + tail, ctx)) == [SpellingValue(s)] + Tokens(Input(tail, ctx))
  {
    hide Tokens, PiecesText, PiecesValue, Literal, Hex, HexUnitsText, BytesOf, Nibbles, HexUnitText, Separate,
         WellFormed, ImageData;
    if s.InParens? {
      var behind := PiecesText(s.ps) + (")" + tail);
      FourParts("(", PiecesText(s.ps), ")", tail);
      FirstToken('(', behind, ctx);
      PiecesRead(s.ps, ")" + tail, ctx, 1);
      ParensRead(tail, ctx, 1);
      assert PiecesValue(s.ps) + "" == PiecesValue(s.ps);
    } else {
      var behind := HexUnitsText(s.us) + (">" + tail);
      FourParts("<", HexUnitsText(s.us), ">", tail);
      NoAngle(s.us, ">" + tail);
      HexTokenStarts(behind, ctx);
      HexUnitsRead(s.us, ">" + tail, ctx, None);
      assert BehindAngle(">" + tail) == tail;
      NoPending(s.us);
    }
  }

  lemma NoPending(us: seq<HexUnit>)
    ensures Pending(None) + Nibbles(us) == Nibbles(us)
  {
    assert Pending(None) == [];
  }

  lemma NoAngle(us: seq<HexUnit>, end: string)
    requires AreHexUnits(us) && (us != [] ==> HexUnitText(us[0]) != '<') && (end == "" || end[0] == '>')
    ensures var text := HexUnitsText(us) + end; text == "" || text[0] != '<'
  {
    if us != [] {
      UnitsFront(us, end);
    } else {
      NoUnits(end, None);
    }
  }

  /** Strings that the end of the last stream cuts off. */
  lemma ParensCutOff(ps: seq<Piece>, image: bool)
    requires WellFormed(ps) && Separate(ps, "")
    ensures Tokens(Input("(" + PiecesText(ps), Context([], image))) == [TStr(PiecesValue(ps))]
  {
    var ctx := Context([], image);
    NoMoreTokens(ctx);
    assert Literal(Input("", ctx), 1) == ("", Input("", ctx));
    hide Tokens, PiecesText, PiecesValue, Separate, WellFormed, ImageData, Literal;
    FirstToken('(', PiecesText(ps), ctx);
    PiecesRead(ps, "", ctx, 1);
    assert PiecesText(ps) + "" == PiecesText(ps) && PiecesValue(ps) + "" == PiecesValue(ps);
  }

  lemma AnglesCutOff(us: seq<HexUnit>, image: bool)
    requires IsSpelling(InAngles(us))
    ensures Tokens(Input("<" + HexUnitsText(us), Context([], image))) == [SpellingValue(InAngles(us))]
  {
    var ctx := Context([], image);
    NoMoreTokens(ctx);
    InAnglesIs(us);
    hide *;
    NoAngle(us, "");
    assert HexUnitsText(us) + "" == HexUnitsText(us);
    HexTokenStarts(HexUnitsText(us), ctx);
    EndOfStream(ctx);
    HexUnitsRead(us, "", ctx, None);
    NoPending(us);
  }

  lemma InAnglesIs(us: seq<HexUnit>)
    requires IsSpelling(InAngles(us))
    ensures AreHexUnits(us) && (us != [] ==> HexUnitText(us[0]) != '<')
    ensures Below(Nibbles(us), 16) && SpellingValue(InAngles(us)) == TStr(BytesOf(Nibbles(us)))
  {
    NibblesBelow(us);
  }

  lemma EndOfStream(ctx: Context)
    requires ctx.more == []
    ensures EndsHex("", ctx) && BehindAngle("") == ""
  {
  }

  lemma HexTokenStarts(text: string, ctx: Context)
    requires text == "" || text[0] != '<'
    ensures var (s, rest) := Hex(Input(text, ctx), None);
      Tokens(Input("<" + text, ctx)) == [TStr(s)] + Tokens(rest)
  {
    hide Tokens, Hex, ImageData;
    FirstToken('<', text, ctx);
  }

  lemma NoMoreTokens(ctx: Context)
    requires ctx.more == []
    ensures Tokens(Input("", ctx)) == []
  {
  }

  lemma SlashedSpelled(parts: seq<NamePart>, tail: string, ctx: Context)
    requires IsSpelling(Slashed(parts)) && NameEndsAt(parts, tail)
    ensures Tokens(Input(SpellingText(Slashed(parts)) + tail, ctx))
         == [SpellingValue(Slashed(parts))] + Tokens(Input(tail, ctx))
  {
    hide Tokens, NamePartsText, NamePartsValue, NameWord, CString, NameEndsAt, ImageData;
    ThreeTexts("/", NamePartsText(parts), tail);
    FirstToken('/', NamePartsText(parts) + tail, ctx);
    NamePartsRead(parts, tail, ctx, 0);
    NamePartsHaveNoNul(parts);
    NoNul(NamePartsValue(parts));
  }

  lemma KeywordSpelled(w: string, tail: string, ctx: Context)
    requires IsSpelling(Keyword(w)) && EndsBefore(Keyword(w), tail)
    ensures Tokens(Input(w + tail, ctx)) == [KeywordValue(w)] + Tokens(Input(tail, ctx))
  {
    hide Tokens, Word, ImageData, IsRegular, IsSpecial;
    RegularIsNotSpecial(w[0]);
    Regulars(w[0]);
    DigitCharacters(w[0]);
    WordRead(w[1..], tail, ctx, 1);
    assert w + tail == [w[0]] + (w[1..] + tail) && [w[0]] + w[1..] == w;
    FirstToken(w[0], w[1..] + tail, ctx);
  }

  lemma Regulars(c: char)
    requires IsRegular(c)
    ensures c !in "()<>[]{}/%" && !IsSpace(c)
  {
  }

  lemma MarkSpelled(m: string, tail: string, ctx: Context)
    requires IsSpelling(Mark(m))
    ensures Tokens(Input(m + tail, ctx)) == [TCmd(m)] + Tokens(Input(tail, ctx))
  {
    hide Tokens;
    if |m| == 1 {
      BracketReads(m[0], tail, ctx);
    } else {
      AnglesRead(m[0], tail, ctx);
    }
  }

  lemma StraySpelled(c: char, tail: string, ctx: Context)
    requires IsSpelling(Stray(c)) && EndsBefore(Stray(c), tail)
    ensures Tokens(Input([c] + tail, ctx)) == [TError] + Tokens(Input(tail, ctx))
  {
    hide Tokens, ImageData;
    FirstToken(c, tail, ctx);
  }

  /** Whatever way a token is spelled, it is read as what it stands for, and what follows is left. */
  lemma SpellingRead(s: Spelling, tail: string, ctx: Context)
    requires IsSpelling(s) && EndsBefore(s, tail)
    ensures Tokens(Input(SpellingText(s) + tail, ctx)) == [SpellingValue(s)] + Tokens(Input(tail, ctx))
  {
    match s
    case Whole(neg, digits) => WholeSpelled(neg, digits, tail, ctx);
    case Pointed(neg, digits, decimals) => PointedSpelled(neg, digits, decimals, tail, ctx);
    case InParens(_) => StringsSpelled(s, tail, ctx);
    case InAngles(_) => StringsSpelled(s, tail, ctx);
    case Slashed(parts) => SlashedSpelled(parts, tail, ctx);
    case Keyword(w) => KeywordSpelled(w, tail, ctx);
    case Mark(m) => MarkSpelled(m, tail, ctx);
    case Stray(c) => StraySpelled(c, tail, ctx);
  }

  // ------------------------------------------------------------------------------------------
  // Streams
  // ------------------------------------------------------------------------------------------

  /** A spelling with white space and comments in front of it. */
  datatype Spaced = Spaced(blanks: seq<Blank>, s: Spelling)

  predicate AreSpaced(ts: seq<Spaced>) {
    forall i :: 0 <= i < |ts| ==>
      IsSpelling(ts[i].s) && forall k :: 0 <= k < |ts[i].blanks| ==> IsBlank(ts[i].blanks[k])
  }

  function SpacedText(ts: seq<Spaced>): string
    requires AreSpaced(ts)
  {
    if ts == [] then "" else BlanksText(ts[0].blanks) + SpellingText(ts[0].s) + SpacedText(ts[1..])
  }

  function SpacedValues(ts: seq<Spaced>): seq<Token>
    requires AreSpaced(ts)
  {
    if ts == [] then [] else [SpellingValue(ts[0].s)] + SpacedValues(ts[1..])
  }

  /** No two tokens run together. */
  predicate Apart(ts: seq<Spaced>, tail: string)
    requires AreSpaced(ts)
  {
    ts == [] || (EndsBefore(ts[0].s, SpacedText(ts[1..]) + tail) && Apart(ts[1..], tail))
  }

  /** Text put together from tokens in any spelling, with white space and comments between them, is taken apart into
      exactly these tokens. */
  lemma {:induction false} AnySpellingIsRead(ts: seq<Spaced>, tail: string, ctx: Context)
    requires AreSpaced(ts) && Apart(ts, tail)
    ensures Tokens(Input(SpacedText(ts) + tail, ctx)) == SpacedValues(ts) + Tokens(Input(tail, ctx))
  {
    hide Tokens, SpacedText, SpellingText, SpellingValue, EndsBefore, IsSpelling, IsBlank;
    if ts == [] {
      NoSpaced(tail);
    } else {
      var behind := SpacedText(ts[1..]) + tail;
      SpacedFront(ts, tail);
      SpellingRead(ts[0].s, behind, ctx);
      BlanksSkipped(ts[0].blanks, SpellingText(ts[0].s) + behind, ctx);
      AnySpellingIsRead(ts[1..], tail, ctx);
    }
  }

  lemma NoSpaced(tail: string)
    ensures SpacedText([]) + tail == tail
  {
    assert SpacedText([]) == "";
  }

  lemma SpacedFront(ts: seq<Spaced>, tail: string)
    requires ts != [] && AreSpaced(ts)
    ensures SpacedText(ts) + tail
         == BlanksText(ts[0].blanks) + (SpellingText(ts[0].s) + (SpacedText(ts[1..]) + tail))
  {
    hide SpellingText, BlanksText;
    ThreeAndRest(BlanksText(ts[0].blanks), SpellingText(ts[0].s), SpacedText(ts[1..]), tail);
  }

  lemma ThreeAndRest(a: string, b: string, c: string, d: string)
    ensures a + b + c + d == a + (b + (c + d))
  {
  }

  /** At the end of a stream tokens end as well, and reading goes on in the next one. */
  lemma NextStream(next: string, more: seq<string>, image: bool)
    ensures Tokens(Input("", Context([next] + more, image))) == Tokens(Input(next, Context(more, image)))
    ensures Tokens(Input("", Context([], image))) == []
  {
    var here, there := Input("", Context([next] + more, image)), Input(next, Context(more, image));
    assert ([next] + more)[1..] == more;
    assert GetChar(here) == GetChar(there);
    assert SkipSpace(here, false) == SkipSpace(there, false);
    hide TokenAt, ImageData;
  }
}
