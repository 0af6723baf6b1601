/** White space, comments and numbers in all spellings (sections 7.2 and 7.3.3 of ISO 32000-1). */
module SpelledNumbers {
  import opened Options
  import opened Lexer
  import opened TokenText

  const UPPER: string := "0123456789ABCDEF"
  const LOWER: string := "0123456789abcdef"

  function DigitOf(d: nat): char
    requires d < 16
  {
    UPPER[d]
  }

  // ------------------------------------------------------------------------------------------
  // White space and comments
  // ------------------------------------------------------------------------------------------

  datatype Blank = White(c: char) | Comment(text: string, eol: char)

  /** The white-space characters of Table 1; a comment runs to the end of the line. */
  predicate IsBlank(b: Blank) {
    match b
    case White(c) => c in [0 as char, '\t', '\n', 12 as char, '\r', ' ']
    case Comment(text, eol) => eol in "\r\n" && forall i :: 0 <= i < |text| ==> text[i] !in "\r\n"
  }

  function BlankText(b: Blank): string {
    match b
    case White(c) => [c]
    case Comment(text, eol) => "%" + text + [eol]
  }

  function BlanksText(bs: seq<Blank>): string {
    if bs == [] then "" else BlankText(bs[0]) + BlanksText(bs[1..])
  }

  lemma {:induction false} CommentSkipped(text: string, eol: char, tail: string, ctx: Context)
    requires IsBlank(Comment(text, eol))
    ensures SkipSpace(Input(text + ([eol] + tail), ctx), true) == SkipSpace(Input(tail, ctx), false)
  {
    if text == "" {
      assert text + ([eol] + tail) == [eol] + tail && ([eol] + tail)[1..] == tail;
    } else {
      assert (text + ([eol] + tail))[1..] == text[1..] + ([eol] + tail);
      assert text[0] !in "\r\n";
      CommentSkipped(text[1..], eol, tail, ctx);
    }
  }

  lemma BlankSkipped(b: Blank, tail: string, ctx: Context)
    requires IsBlank(b)
    ensures SkipSpace(Input(BlankText(b) + tail, ctx), false) == SkipSpace(Input(tail, ctx), false)
  {
    match b
    case White(c) => assert ([c] + tail)[1..] == tail;
    case Comment(text, eol) =>
      var behind := text + ([eol] + tail);
      assert BlankText(b) + tail == ['%'] + behind && (['%'] + behind)[1..] == behind;
      CommentSkipped(text, eol, tail, ctx);
  }

  /** White space and comments are passed over, and nothing else is. */
  lemma {:induction false} BlanksSkipped(bs: seq<Blank>, tail: string, ctx: Context)
    requires forall i :: 0 <= i < |bs| ==> IsBlank(bs[i])
    ensures SkipSpace(Input(BlanksText(bs) + tail, ctx), false) == SkipSpace(Input(tail, ctx), false)
    ensures Tokens(Input(BlanksText(bs) + tail, ctx)) == Tokens(Input(tail, ctx))
    ensures tail != "" && !IsBlank(White(tail[0])) && tail[0] != '%' ==>
              SkipSpace(Input(tail, ctx), false) == Some((tail[0], Input(tail[1..], ctx)))
  {
    hide BlankText, TokenAt, ImageData;
    if bs == [] {
      assert BlanksText(bs) + tail == tail;
    } else {
      assert BlanksText(bs) + tail == BlankText(bs[0]) + (BlanksText(bs[1..]) + tail);
      BlankSkipped(bs[0], BlanksText(bs[1..]) + tail, ctx);
      BlanksSkipped(bs[1..], tail, ctx);
    }
  }

  // ------------------------------------------------------------------------------------------
  // Numbers
  // ------------------------------------------------------------------------------------------

  predicate Below(ds: seq<nat>, n: nat) {
    forall i :: 0 <= i < |ds| ==> ds[i] < n
  }

  function DigitsText(ds: seq<nat>): string
    requires Below(ds, 10)
  {
    if ds == [] then "" else [DigitOf(ds[0])] + DigitsText(ds[1..])
  }

  /** The number that digits stand for. */
  function DecimalValue(ds: seq<nat>): nat {
    if ds == [] then 0 else DecimalValue(ds[..|ds| - 1]) * 10 + ds[|ds| - 1]
  }

  /** The number that digits behind n stand for. */
  function Continued(n: nat, ds: seq<nat>): nat
    decreases |ds|
  {
    if ds == [] then n else Continued(n * 10 + ds[0], ds[1..])
  }

  lemma {:induction false} ContinuedLast(n: nat, ds: seq<nat>, d: nat)
    ensures Continued(n, ds + [d]) == Continued(n, ds) * 10 + d
    decreases |ds|
  {
    if ds == [] {
      assert ([] + [d])[1..] == [];
    } else {
      assert (ds + [d])[1..] == ds[1..] + [d];
      ContinuedLast(n * 10 + ds[0], ds[1..], d);
    }
  }

  lemma {:induction false} ContinuedIsValue(ds: seq<nat>)
    ensures Continued(0, ds) == DecimalValue(ds)
  {
    if ds != [] {
      var front := ds[..|ds| - 1];
      ContinuedIsValue(front);
      ContinuedLast(0, front, ds[|ds| - 1]);
      assert ds == front + [ds[|ds| - 1]];
    }
  }

  lemma {:induction false} ContinuedGrows(n: nat, ds: seq<nat>)
    ensures n <= Continued(n, ds) && (ds != [] ==> n * 10 + ds[0] <= Continued(n, ds))
    decreases |ds|
  {
    if ds != [] {
      ContinuedGrows(n * 10 + ds[0], ds[1..]);
    }
  }

  lemma {:induction false} DigitsRead(n: nat, ds: seq<nat>, tail: string, ctx: Context)
    requires Below(ds, 10) && Continued(n, ds) <= 0x8000_0000
    ensures Digits(Input(DigitsText(ds) + tail, ctx), Wrap32(n))
         == Digits(Input(tail, ctx), Wrap32(Continued(n, ds)))
    decreases |ds|
  {
    hide Digits, Wrap32;
    if ds == [] {
      assert DigitsText(ds) + tail == tail;
    } else {
      ContinuedGrows(n, ds);
      WrapIsIdentity(n);
      var behind := DigitsText(ds[1..]) + tail;
      assert DigitsText(ds) + tail == [DigitOf(ds[0])] + behind;
      DigitRead(ds[0], behind, ctx, n);
      DigitsRead(n * 10 + ds[0], ds[1..], tail, ctx);
    }
  }

  lemma DigitRead(d: nat, tail: string, ctx: Context, xi: int)
    requires d < 10
    ensures Digits(Input([DigitOf(d)] + tail, ctx), xi) == Digits(Input(tail, ctx), Wrap32(xi * 10 + d))
    ensures IsDigit(DigitOf(d)) && DigitValue(DigitOf(d)) == d
  {
    assert ([DigitOf(d)] + tail)[1..] == tail;
  }

  /** Digits behind a decimal point; minus signs among them count for nothing. */
  datatype Decimal = Figure(d: nat) | Minus

  predicate AreDecimals(fs: seq<Decimal>) {
    forall i :: 0 <= i < |fs| ==> fs[i].Figure? ==> fs[i].d < 10
  }

  function DecimalsText(fs: seq<Decimal>): string
    requires AreDecimals(fs)
  {
    if fs == [] then "" else [if fs[0].Figure? then DigitOf(fs[0].d) else '-'] + DecimalsText(fs[1..])
  }

  function FiguresValue(fs: seq<Decimal>): real {
    if fs == [] then 0.0
    else if fs[0].Minus? then FiguresValue(fs[1..])
    else (fs[0].d as real + FiguresValue(fs[1..])) / 10.0
  }

  /** A number without or with a decimal point ends in front of this. */
  predicate EndsNumber(next: string, point: bool) {
    next == "" || (next[0] !in "0123456789" && next[0] != if point then '-' else '.')
  }

  lemma DigitCharacters(c: char)
    ensures IsDigit(c) <==> c in "0123456789"
  {
    if IsDigit(c) {
      assert c == "0123456789"[DigitValue(c)];
    }
  }

  lemma {:induction false} DecimalsRead(fs: seq<Decimal>, tail: string, ctx: Context, xf: real, scale: real)
    requires AreDecimals(fs) && EndsNumber(tail, true)
    ensures Fraction(Input(DecimalsText(fs) + tail, ctx), xf, scale)
         == (AddDigit(xf, scale, FiguresValue(fs) * 10.0), Input(tail, ctx))
  {
    hide Fraction, AddDigit, FiguresValue;
    if fs == [] {
      NoFigures();
      assert DecimalsText(fs) + tail == tail;
      NoDecimal(tail, ctx, xf, scale);
    } else {
      var behind := DecimalsText(fs[1..]) + tail;
      if fs[0].Minus? {
        assert DecimalsText(fs) + tail == ['-'] + behind;
        MinusRead(behind, ctx, xf, scale);
        FrontMinus(fs);
        DecimalsRead(fs[1..], tail, ctx, xf, scale);
      } else {
        var d := fs[0].d;
        assert DecimalsText(fs) + tail == [DigitOf(d)] + behind;
        FigureRead(d, behind, ctx, xf, scale);
        DecimalsRead(fs[1..], tail, ctx, AddDigit(xf, scale, d as real), scale / 10.0);
        Distribute(xf, scale, d as real, FiguresValue(fs[1..]) * 10.0);
        FrontFigure(fs);
      }
    }
  }

  lemma NoFigures()
    ensures FiguresValue([]) == 0.0
  {
  }

  lemma FrontMinus(fs: seq<Decimal>)
    requires fs != [] && fs[0].Minus?
    ensures FiguresValue(fs) == FiguresValue(fs[1..])
  {
  }

  lemma FrontFigure(fs: seq<Decimal>)
    requires fs != [] && fs[0].Figure?
    ensures fs[0].d as real + FiguresValue(fs[1..]) * 10.0 / 10.0 == FiguresValue(fs) * 10.0
  {
  }

  lemma NoDecimal(tail: string, ctx: Context, xf: real, scale: real)
    requires EndsNumber(tail, true)
    ensures Fraction(Input(tail, ctx), xf, scale) == (xf, Input(tail, ctx)) && AddDigit(xf, scale, 0.0) == xf
  {
    if tail != "" {
      DigitCharacters(tail[0]);
    }
  }

  lemma MinusRead(tail: string, ctx: Context, xf: real, scale: real)
    ensures Fraction(Input(['-'] + tail, ctx), xf, scale) == Fraction(Input(tail, ctx), xf, scale)
  {
    assert (['-'] + tail)[1..] == tail;
  }

  lemma FigureRead(d: nat, tail: string, ctx: Context, xf: real, scale: real)
    requires d < 10
    ensures Fraction(Input([DigitOf(d)] + tail, ctx), xf, scale)
         == Fraction(Input(tail, ctx), AddDigit(xf, scale, d as real), scale / 10.0)
  {
    hide AddDigit;
    assert ([DigitOf(d)] + tail)[1..] == tail;
  }
}
