/** Strings in all spellings, literal and hexadecimal (section 7.3.4 of ISO 32000-1). */
module SpelledStrings {
  import opened Options
  import opened Lexer
  import opened SpelledNumbers

  // ------------------------------------------------------------------------------------------
  // Literal strings
  // ------------------------------------------------------------------------------------------

  /** A part of a literal string: a character, a backslash with a character, with up to three octal digits or with
      the end of a line behind it, or balanced parentheses. */
  datatype Piece =
    | Plain(c: char)
    | Escape(c: char)
    | Code(digits: seq<nat>)
    | Joined(eol: string)
    | Nested(ps: seq<Piece>)

  function PieceText(p: Piece): string
    requires IsPiece(p)
  {
    match p
    case Plain(c) => [c]
    case Escape(c) => "\\" + [c]
    case Code(digits) => "\\" + DigitsText(digits)
    case Joined(eol) => "\\" + eol
    case Nested(ps) => "(" + PiecesText(ps) + ")"
  }

  function PiecesText(ps: seq<Piece>): string
    requires WellFormed(ps)
  {
    if ps == [] then "" else PieceText(ps[0]) + PiecesText(ps[1..])
  }

  predicate WellFormed(ps: seq<Piece>) {
    ps == [] || (IsPiece(ps[0]) && WellFormed(ps[1..]))
  }

  predicate IsPiece(p: Piece) {
    match p
    case Plain(c) => c !in "()\\"
    case Escape(c) => c !in "01234567\n\r"
    case Code(digits) => 1 <= |digits| <= 3 && Below(digits, 8)
    case Joined(eol) => eol in ["\n", "\r", "\r\n"]
    case Nested(ps) => WellFormed(ps)
  }

  /** What the character behind a backslash stands for (Table 3). */
  function EscapeValue(c: char): char {
    match c
    case 'n' => '\n'
    case 'r' => '\r'
    case 't' => '\t'
    case 'b' => 8 as char
    case 'f' => 12 as char
    case _ => c
  }

  function CodeValue(digits: seq<nat>): nat
    requires 1 <= |digits| <= 3
  {
    if |digits| == 1 then digits[0]
    else if |digits| == 2 then 8 * digits[0] + digits[1]
    else 64 * digits[0] + 8 * digits[1] + digits[2]
  }

  function PieceValue(p: Piece): string
    requires IsPiece(p)
  {
    match p
    case Plain(c) => [c]
    case Escape(c) => [EscapeValue(c)]
    case Code(digits) => [Byte(CodeValue(digits))]
    case Joined(_) => ""
    case Nested(ps) => "(" + PiecesValue(ps) + ")"
  }

  function PiecesValue(ps: seq<Piece>): string
    requires WellFormed(ps)
  {
    if ps == [] then "" else PieceValue(ps[0]) + PiecesValue(ps[1..])
  }

  /** No piece is taken for a longer one because of what follows. */
  predicate Separate(ps: seq<Piece>, next: string)
    requires WellFormed(ps)
  {
    ps == [] || (
      assert IsPiece(ps[0]);
      && SeparateFrom(ps[0], PiecesText(ps[1..]) + next)
      && (ps[0].Nested? ==> Separate(ps[0].ps, ")" + (PiecesText(ps[1..]) + next)))
      && Separate(ps[1..], next))
  }

  predicate SeparateFrom(p: Piece, next: string) {
    && (p.Code? && |p.digits| < 3 && next != "" ==> next[0] !in "01234567")
    && (p == Joined("\r") && next != "" ==> next[0] != '\n')
  }

  lemma PrefixTwice(a: string, b: string, r: (string, Input))
    ensures Prefix(a, Prefix(b, r)) == Prefix(a + b, r)
    ensures Prefix("", r) == r
  {
    assert a + (b + r.0) == a + b + r.0 && "" + r.0 == r.0;
  }

  lemma PlainRead(c: char, tail: string, ctx: Context, depth: nat)
    requires depth > 0 && c !in "()\\"
    ensures Literal(Input([c] + tail, ctx), depth) == Prefix([c], Literal(Input(tail, ctx), depth))
  {
    assert ([c] + tail)[1..] == tail;
  }

  lemma BackslashRead(tail: string, ctx: Context, depth: nat)
    requires depth > 0
    ensures Literal(Input("\\" + tail, ctx), depth) == LiteralEscape(Input(tail, ctx), depth)
  {
    assert ("\\" + tail)[1..] == tail;
  }

  lemma EscapeRead(c: char, tail: string, ctx: Context, depth: nat)
    requires depth > 0 && c !in "01234567\n\r"
    ensures LiteralEscape(Input([c] + tail, ctx), depth) == Prefix([EscapeValue(c)], Literal(Input(tail, ctx), depth))
  {
    hide Literal;
    assert ([c] + tail)[1..] == tail;
  }

  lemma OctalStep(d: nat, tail: string, ctx: Context, value: nat, more: nat)
    requires d < 8 && more > 0
    ensures Octal(Input([DigitOf(d)] + tail, ctx), value, more) == Octal(Input(tail, ctx), value * 8 + d, more - 1)
  {
    assert ([DigitOf(d)] + tail)[1..] == tail;
  }

  lemma OctalStops(tail: string, ctx: Context, value: nat, more: nat)
    requires more > 0 && tail != "" ==> tail[0] !in "01234567"
    ensures Octal(Input(tail, ctx), value, more) == (Byte(value), Input(tail, ctx))
  {
    assert tail != "" ==> (IsOctal(Some(tail[0])) <==> tail[0] in "01234567");
  }

  lemma CodeStarts(d: nat, tail: string, ctx: Context, depth: nat)
    requires depth > 0 && d < 8
    ensures var (o, rest) := Octal(Input(tail, ctx), d, 2);
      LiteralEscape(Input([DigitOf(d)] + tail, ctx), depth) == Prefix([o], Literal(rest, depth))
  {
    hide Literal, Octal;
    assert ([DigitOf(d)] + tail)[1..] == tail;
  }

  lemma OneDigit(d: nat, tail: string, ctx: Context, depth: nat)
    requires depth > 0 && d < 8 && (tail != "" ==> tail[0] !in "01234567")
    ensures LiteralEscape(Input([DigitOf(d)] + tail, ctx), depth) == Prefix([Byte(d)], Literal(Input(tail, ctx), depth))
  {
    hide *;
    CodeStarts(d, tail, ctx, depth);
    OctalStops(tail, ctx, d, 2);
  }

  lemma TwoDigits(d: nat, e: nat, tail: string, ctx: Context, depth: nat)
    requires depth > 0 && d < 8 && e < 8 && (tail != "" ==> tail[0] !in "01234567")
    ensures LiteralEscape(Input([DigitOf(d)] + ([DigitOf(e)] + tail), ctx), depth)
         == Prefix([Byte(d * 8 + e)], Literal(Input(tail, ctx), depth))
  {
    hide *;
    CodeStarts(d, [DigitOf(e)] + tail, ctx, depth);
    OctalStep(e, tail, ctx, d, 2);
    OctalStops(tail, ctx, d * 8 + e, 1);
  }

  lemma ThreeDigits(d: nat, e: nat, f: nat, tail: string, ctx: Context, depth: nat)
    requires depth > 0 && d < 8 && e < 8 && f < 8
    ensures LiteralEscape(Input([DigitOf(d)] + ([DigitOf(e)] + ([DigitOf(f)] + tail)), ctx), depth)
         == Prefix([Byte((d * 8 + e) * 8 + f)], Literal(Input(tail, ctx), depth))
  {
    hide *;
    CodeStarts(d, [DigitOf(e)] + ([DigitOf(f)] + tail), ctx, depth);
    OctalStep(e, [DigitOf(f)] + tail, ctx, d, 2);
    OctalStep(f, tail, ctx, d * 8 + e, 1);
    OctalStops(tail, ctx, (d * 8 + e) * 8 + f, 0);
  }

  lemma DigitsFront(digits: seq<nat>, tail: string)
    requires Below(digits, 10)
    ensures digits == [] ==> DigitsText(digits) + tail == tail
    ensures digits != [] ==>
              && digits[0] < 10 && Below(digits[1..], 10)
              && DigitsText(digits) + tail == [DigitOf(digits[0])] + (DigitsText(digits[1..]) + tail)
  {
    if digits == [] {
      assert DigitsText(digits) == "";
    }
  }

  lemma CodeText(digits: seq<nat>, tail: string)
    requires IsPiece(Code(digits))
    ensures Below(digits, 10)
    ensures |digits| == 1 ==> DigitsText(digits) + tail == [DigitOf(digits[0])] + tail
    ensures |digits| == 2 ==> DigitsText(digits) + tail == [DigitOf(digits[0])] + ([DigitOf(digits[1])] + tail)
    ensures |digits| == 3 ==>
              DigitsText(digits) + tail == [DigitOf(digits[0])] + ([DigitOf(digits[1])] + ([DigitOf(digits[2])] + tail))
  {
    hide DigitsText;
    var one := digits[1..];
    DigitsFront(digits, tail);
    DigitsFront(one, tail);
    if |digits| > 1 {
      var two := one[1..];
      DigitsFront(two, tail);
      if |digits| > 2 {
        DigitsFront(two[1..], tail);
      }
    }
  }

  lemma CodeParts(digits: seq<nat>, tail: string)
    requires IsPiece(Code(digits))
    ensures 1 <= |digits| <= 3 && forall i :: 0 <= i < |digits| ==> digits[i] < 8
    ensures SeparateFrom(Code(digits), tail) && |digits| < 3 && tail != "" ==> tail[0] !in "01234567"
  {
  }

  lemma CodeRead(digits: seq<nat>, tail: string, ctx: Context, depth: nat)
    requires depth > 0 && IsPiece(Code(digits)) && SeparateFrom(Code(digits), tail)
    ensures Below(digits, 10)
    ensures LiteralEscape(Input(DigitsText(digits) + tail, ctx), depth)
         == Prefix([Byte(CodeValue(digits))], Literal(Input(tail, ctx), depth))
  {
    hide *;
    CodeText(digits, tail);
    CodeParts(digits, tail);
    ValueOfCode(digits);
    if |digits| == 1 {
      OneDigit(digits[0], tail, ctx, depth);
    } else if |digits| == 2 {
      TwoDigits(digits[0], digits[1], tail, ctx, depth);
    } else {
      ThreeDigits(digits[0], digits[1], digits[2], tail, ctx, depth);
    }
  }

  lemma ValueOfCode(digits: seq<nat>)
    requires 1 <= |digits| <= 3
    ensures |digits| == 1 ==> CodeValue(digits) == digits[0]
    ensures |digits| == 2 ==> CodeValue(digits) == digits[0] * 8 + digits[1]
    ensures |digits| == 3 ==> CodeValue(digits) == (digits[0] * 8 + digits[1]) * 8 + digits[2]
  {
  }

  lemma JoinedRead(eol: string, tail: string, ctx: Context, depth: nat)
    requires depth > 0 && IsPiece(Joined(eol)) && SeparateFrom(Joined(eol), tail)
    ensures LiteralEscape(Input(eol + tail, ctx), depth) == Literal(Input(tail, ctx), depth)
  {
    hide Literal;
    assert eol == "\r\n" ==> (eol + tail)[1..][1..] == tail;
    assert eol != "\r\n" ==> (eol + tail)[1..] == tail;
  }

  lemma ParensRead(tail: string, ctx: Context, depth: nat)
    requires depth > 0
    ensures Literal(Input("(" + tail, ctx), depth) == Prefix("(", Literal(Input(tail, ctx), depth + 1))
    ensures Literal(Input(")" + tail, ctx), depth + 1) == Prefix(")", Literal(Input(tail, ctx), depth))
    ensures Literal(Input(")" + tail, ctx), 1) == ("", Input(tail, ctx))
  {
    assert ("(" + tail)[1..] == tail && (")" + tail)[1..] == tail;
  }

  lemma ThreeTexts(a: string, b: string, c: string)
    ensures a + b + c == a + (b + c)
  {
  }

  /** A literal string stands for the values of its pieces. */
  lemma {:induction false} PiecesRead(ps: seq<Piece>, tail: string, ctx: Context, depth: nat)
    requires depth > 0 && WellFormed(ps) && Separate(ps, tail)
    ensures Literal(Input(PiecesText(ps) + tail, ctx), depth)
         == Prefix(PiecesValue(ps), Literal(Input(tail, ctx), depth))
    decreases ps, 1
  {
    hide Literal, Prefix, IsPiece, PieceText, PieceValue, SeparateFrom;
    if ps == [] {
      assert PiecesText(ps) + tail == tail;
      PrefixTwice("", "", Literal(Input(tail, ctx), depth));
    } else {
      var behind := PiecesText(ps[1..]) + tail;
      ThreeTexts(PieceText(ps[0]), PiecesText(ps[1..]), tail);
      PieceRead(ps[0], behind, ctx, depth);
      PiecesRead(ps[1..], tail, ctx, depth);
      PrefixTwice(PieceValue(ps[0]), PiecesValue(ps[1..]), Literal(Input(tail, ctx), depth));
    }
  }

  lemma {:induction false} PieceRead(p: Piece, tail: string, ctx: Context, depth: nat)
    requires depth > 0 && IsPiece(p) && SeparateFrom(p, tail)
    requires p.Nested? ==> Separate(p.ps, ")" + tail)
    ensures Literal(Input(PieceText(p) + tail, ctx), depth) == Prefix(PieceValue(p), Literal(Input(tail, ctx), depth))
    decreases p, 0
  {
    hide Literal, LiteralEscape, Prefix, PiecesText, PiecesValue, Separate, DigitsText, CodeValue, EscapeValue, Byte;
    var rest := Literal(Input(tail, ctx), depth);
    match p
    case Plain(c) => PlainRead(c, tail, ctx, depth);
    case Escape(c) =>
      ThreeTexts("\\", [c], tail);
      BackslashRead([c] + tail, ctx, depth);
      EscapeRead(c, tail, ctx, depth);
    case Code(digits) =>
      ThreeTexts("\\", DigitsText(digits), tail);
      BackslashRead(DigitsText(digits) + tail, ctx, depth);
      CodeRead(digits, tail, ctx, depth);
    case Joined(eol) =>
      ThreeTexts("\\", eol, tail);
      BackslashRead(eol + tail, ctx, depth);
      JoinedRead(eol, tail, ctx, depth);
      PrefixTwice("", "", rest);
    case Nested(ps) =>
      FourParts("(", PiecesText(ps), ")", tail);
      ParensRead(PiecesText(ps) + (")" + tail), ctx, depth);
      PiecesRead(ps, ")" + tail, ctx, depth + 1);
      ParensRead(tail, ctx, depth);
      PrefixTwice(PiecesValue(ps), ")", rest);
      PrefixTwice("(", PiecesValue(ps) + ")", rest);
      ThreeTexts("(", PiecesValue(ps), ")");
  }

  lemma FourParts(a: string, b: string, c: string, d: string)
    ensures a + b + c + d == a + (b + (c + d))
  {
  }

  // ------------------------------------------------------------------------------------------
  // Hexadecimal strings
  // ------------------------------------------------------------------------------------------

  /** A hexadecimal digit in either case, white space, or anything else, which counts as 0. */
  datatype HexUnit = Nibble(v: nat, lower: bool) | Gap(c: char) | Junk(c: char)

  predicate IsHexUnit(u: HexUnit) {
    match u
    case Nibble(v, _) => v < 16
    case Gap(c) => IsBlank(White(c))
    case Junk(c) => c != '>' && !IsBlank(White(c)) && c !in UPPER && c !in LOWER
  }

  predicate AreHexUnits(us: seq<HexUnit>) {
    forall i :: 0 <= i < |us| ==> IsHexUnit(us[i])
  }

  function HexUnitText(u: HexUnit): char
    requires IsHexUnit(u)
  {
    match u
    case Nibble(v, lower) => if lower then LOWER[v] else DigitOf(v)
    case Gap(c) => c
    case Junk(c) => c
  }

  function HexUnitsText(us: seq<HexUnit>): string
    requires AreHexUnits(us)
  {
    if us == [] then "" else [HexUnitText(us[0])] + HexUnitsText(us[1..])
  }

  function Nibbles(us: seq<HexUnit>): seq<nat> {
    if us == [] then []
    else (match us[0] case Nibble(v, _) => [v] case Gap(_) => [] case Junk(_) => [0]) + Nibbles(us[1..])
  }

  /** Two digits a byte; a missing last digit counts as 0. */
  function BytesOf(ds: seq<nat>): string
    requires Below(ds, 16)
  {
    if ds == [] then ""
    else if |ds| == 1 then [(ds[0] * 16) as char]
    else [(ds[0] * 16 + ds[1]) as char] + BytesOf(ds[2..])
  }

  lemma {:induction false} NibblesBelow(us: seq<HexUnit>)
    requires AreHexUnits(us)
    ensures Below(Nibbles(us), 16)
  {
    if us != [] {
      NibblesBelow(us[1..]);
    }
  }

  /** What is pending in front of the digits to come. */
  function Pending(high: Option<nat>): seq<nat> {
    if high.Some? then [high.value] else []
  }

  lemma GapRead(c: char, tail: string, ctx: Context, high: Option<nat>)
    requires IsBlank(White(c))
    ensures Hex(Input([c] + tail, ctx), high) == Hex(Input(tail, ctx), high)
  {
    assert ([c] + tail)[1..] == tail;
  }

  /** The value of a hexadecimal unit. */
  function UnitValue(u: HexUnit): nat {
    if u.Nibble? then u.v else 0
  }

  lemma UnitRead(u: HexUnit, tail: string, ctx: Context, high: Option<nat>)
    requires IsHexUnit(u) && !u.Gap? && (high.Some? ==> high.value < 16)
    ensures UnitValue(u) < 16
    ensures Hex(Input([HexUnitText(u)] + tail, ctx), high)
         == if high.Some? then Prefix([(high.value * 16 + UnitValue(u)) as char], Hex(Input(tail, ctx), None))
            else Hex(Input(tail, ctx), Some(UnitValue(u)))
  {
    UnitHasValue(u);
    hide Hex, HexUnitText, IsSpace, HexValue;
    FigureRead(HexUnitText(u), UnitValue(u), tail, ctx, high);
  }

  lemma FigureRead(c: char, v: nat, tail: string, ctx: Context, high: Option<nat>)
    requires v < 16 && !IsSpace(c) && c != '>' && v == if HexValue(c).Some? then HexValue(c).value else 0
    requires high.Some? ==> high.value < 16
    ensures Hex(Input([c] + tail, ctx), high)
         == if high.Some? then Prefix([(high.value * 16 + v) as char], Hex(Input(tail, ctx), None))
            else Hex(Input(tail, ctx), Some(v))
  {
    hide IsSpace, HexValue;
    assert ([c] + tail)[1..] == tail;
  }

  lemma UnitHasValue(u: HexUnit)
    requires IsHexUnit(u) && !u.Gap?
    ensures var c := HexUnitText(u);
      !IsSpace(c) && c != '>' && (if HexValue(c).Some? then HexValue(c).value else 0) == UnitValue(u)
  {
    if u.Nibble? {
      assert HexUnitText(u) == if u.lower then LOWER[u.v] else DigitOf(u.v);
    } else {
      HexCharacters(u.c);
    }
  }

  lemma HexCharacters(c: char)
    ensures HexValue(c).Some? ==> c in UPPER || c in LOWER
  {
    if IsDigit(c) {
      assert c == DigitOf(DigitValue(c));
    } else if 'A' <= c <= 'F' {
      assert c == DigitOf(c as int - 'A' as int + 10);
    } else if 'a' <= c <= 'f' {
      assert c == LOWER[c as int - 'a' as int + 10];
    }
  }

  /** The closing angle, or the end of the last stream. */
  predicate EndsHex(end: string, ctx: Context) {
    if end == "" then ctx.more == [] else end[0] == '>'
  }

  function BehindAngle(end: string): string {
    if end == "" then "" else end[1..]
  }

  /** A hexadecimal string stands for its digits, two a byte, also when it is not closed. */
  lemma {:induction false} HexUnitsRead(us: seq<HexUnit>, end: string, ctx: Context, high: Option<nat>)
    requires AreHexUnits(us) && (high.Some? ==> high.value < 16) && EndsHex(end, ctx)
    ensures Below(Pending(high) + Nibbles(us), 16)
    ensures Hex(Input(HexUnitsText(us) + end, ctx), high)
         == (BytesOf(Pending(high) + Nibbles(us)), Input(BehindAngle(end), ctx))
    decreases |us|
  {
    hide Hex, HexUnitText, BytesOf, Nibbles, Pending, Below, HexUnitsText, EndsHex, BehindAngle;
    NibblesBelow(us);
    if us == [] {
      NoUnits(end, high);
      HexStops(end, ctx, high);
    } else {
      var u, rest := us[0], us[1..];
      UnitsFront(us, end);
      var behind := HexUnitsText(rest) + end;
      if u.Gap? {
        GapRead(u.c, behind, ctx, high);
        HexUnitsRead(rest, end, ctx, high);
      } else {
        UnitRead(u, behind, ctx, high);
        HexUnitsRead(rest, end, ctx, if high.Some? then None else Some(UnitValue(u)));
        NibblesFront(us, high);
      }
    }
  }

  lemma NoUnits(end: string, high: Option<nat>)
    ensures HexUnitsText([]) + end == end && Pending(high) + Nibbles([]) == Pending(high)
  {
    assert HexUnitsText([]) == "";
  }

  lemma UnitsFront(us: seq<HexUnit>, end: string)
    requires us != [] && AreHexUnits(us)
    ensures AreHexUnits(us[1..]) && IsHexUnit(us[0])
    ensures HexUnitsText(us) + end == [HexUnitText(us[0])] + (HexUnitsText(us[1..]) + end)
    ensures us[0].Gap? ==> HexUnitText(us[0]) == us[0].c && Nibbles(us) == Nibbles(us[1..])
  {
    hide IsHexUnit;
  }

  lemma NibblesFront(us: seq<HexUnit>, high: Option<nat>)
    requires us != [] && !us[0].Gap? && (high.Some? ==> high.value < 16) && UnitValue(us[0]) < 16
    requires Below(Pending(if high.Some? then None else Some(UnitValue(us[0]))) + Nibbles(us[1..]), 16)
    ensures Below(Pending(high) + Nibbles(us), 16)
    ensures high == None ==> Pending(high) + Nibbles(us) == Pending(Some(UnitValue(us[0]))) + Nibbles(us[1..])
    ensures high.Some? ==>
              BytesOf(Pending(high) + Nibbles(us))
              == [(high.value * 16 + UnitValue(us[0])) as char] + BytesOf(Pending(None) + Nibbles(us[1..]))
  {
    var v, rest := UnitValue(us[0]), Nibbles(us[1..]);
    assert Nibbles(us) == [v] + rest;
    hide *;
    Pends(if high.Some? then high.value else v, v, rest);
    if high.Some? {
      TwoNibbles(high.value, v, rest);
    }
  }

  lemma Pends(h: nat, v: nat, rest: seq<nat>)
    ensures Pending(None) + rest == rest && Pending(Some(v)) + rest == [v] + rest
    ensures Pending(None) + ([v] + rest) == [v] + rest && Pending(Some(h)) + ([v] + rest) == [h, v] + rest
  {
  }

  lemma TwoNibbles(h: nat, v: nat, rest: seq<nat>)
    requires h < 16 && v < 16 && Below(rest, 16)
    ensures Below([h, v] + rest, 16) && BytesOf([h, v] + rest) == [(h * 16 + v) as char] + BytesOf(rest)
  {
    assert ([h, v] + rest)[2..] == rest;
  }

  lemma HexStops(end: string, ctx: Context, high: Option<nat>)
    requires (high.Some? ==> high.value < 16) && EndsHex(end, ctx)
    ensures Below(Pending(high), 16)
    ensures Hex(Input(end, ctx), high) == (BytesOf(Pending(high)), Input(BehindAngle(end), ctx))
  {
  }
}
