/** Reading printed numbers, strings and names back, one token at a time. */
module TokenText {
  import opened Options
  import opened PdfObjects
  import opened PdfOperators
  import opened ObjectText
  import opened Lexer
  import opened StringEscape

  /** Printed objects are followed by one of these. */
  predicate Delimited(rest: string) {
    rest != "" && (rest[0] == ' ' || rest[0] == '\n')
  }

  lemma SpaceIsSkipped(c: char, rest: string, ctx: Context)
    requires IsSpace(c)
    ensures Tokens(Input([c] + rest, ctx)) == Tokens(Input(rest, ctx))
  {
    assert ([c] + rest)[1..] == rest;
  }

  lemma FirstToken(c: char, tail: string, ctx: Context)
    requires !IsSpace(c) && c != '%'
    ensures var (t, rest) := TokenAt(c, Input(tail, ctx));
      && (t != TCmd("BI") && !(t == TCmd("ID") && rest.ctx.image) ==>
            Tokens(Input([c] + tail, ctx)) == [t] + Tokens(rest))
      && (t == TCmd("BI") ==> Tokens(Input([c] + tail, ctx)) == [t] + Tokens(rest.(ctx := rest.ctx.(image := true))))
      && (t == TCmd("ID") && rest.ctx.image ==>
            var (data, behind) := ImageData(rest);
            Tokens(Input([c] + tail, ctx)) == [t, TData(data)] + Tokens(behind))
  {
    hide TokenAt, ImageData;
    assert ([c] + tail)[1..] == tail;
  }

  // ------------------------------------------------------------------------------------------
  // Numbers
  // ------------------------------------------------------------------------------------------

  lemma DigitReads(d: nat)
    requires d < 10
    ensures IsDigit(Digit(d)) && DigitValue(Digit(d)) == d
  {
  }

  lemma DigitStep(d: nat, tail: string, ctx: Context, xi: int)
    requires d < 10
    ensures Digits(Input([Digit(d)] + tail, ctx), xi) == Digits(Input(tail, ctx), Wrap32(xi * 10 + d))
  {
    assert ([Digit(d)] + tail)[1..] == tail;
  }

  lemma WrapIsIdentity(n: int)
    requires -0x8000_0000 <= n < 0x8000_0000
    ensures Wrap32(n) == n
  {
  }

  /** Reading the digits of n, up to the largest magnitude of a 32-bit integer. */
  lemma {:induction false} NatReads(n: nat, tail: string, ctx: Context)
    requires n <= 0x8000_0000
    ensures NatText(n) != "" && IsDigit(NatText(n)[0])
    ensures Digits(Input(NatText(n)[1..] + tail, ctx), DigitValue(NatText(n)[0]))
         == Digits(Input(tail, ctx), Wrap32(n))
    ensures Digits(Input(NatText(n) + tail, ctx), 0) == Digits(Input(tail, ctx), Wrap32(n))
  {
    NatFront(n, tail);
    hide Digits, NatText, Wrap32, Digit, DigitValue, IsDigit;
    if n < 10 {
      DigitReads(n);
      WrapIsIdentity(n);
      DigitStep(n, tail, ctx, 0);
    } else {
      NatReads(n / 10, [Digit(n % 10)] + tail, ctx);
      WrapIsIdentity(n / 10);
      DigitStep(n % 10, tail, ctx, n / 10);
    }
  }

  /** The last digit of a number moved to the text behind it. */
  lemma NatFront(n: nat, tail: string)
    ensures n < 10 ==> NatText(n) == [Digit(n)] && NatText(n)[1..] + tail == tail
    ensures n >= 10 ==>
              && n / 10 * 10 + n % 10 == n
              && (NatText(n / 10) != "" ==>
                    && NatText(n) != "" && NatText(n)[0] == NatText(n / 10)[0]
                    && NatText(n)[1..] + tail == NatText(n / 10)[1..] + ([Digit(n % 10)] + tail))
              && NatText(n) + tail == NatText(n / 10) + ([Digit(n % 10)] + tail)
  {
    hide Digit;
    if n >= 10 {
      var front, d := NatText(n / 10), [Digit(n % 10)];
      hide NatText;
      LastMoves(front, d, tail);
    }
  }

  lemma LastMoves(front: string, d: string, tail: string)
    ensures front + d + tail == front + (d + tail)
    ensures front != "" ==> (front + d)[0] == front[0] && (front + d)[1..] + tail == front[1..] + (d + tail)
  {
  }

  lemma DigitsStop(tail: string, ctx: Context, xi: int)
    requires Delimited(tail)
    ensures Digits(Input(tail, ctx), xi) == (xi, false, Input(tail, ctx))
  {
  }

  /** A minus sign, if any, and the digits of n in front of a decimal point or a delimiter. */
  function Signed(neg: bool, n: nat): string {
    (if neg then "-" else "") + NatText(n)
  }

  function SignedValue(neg: bool, n: nat): int {
    if neg then 0 - n else n
  }

  lemma SignedReads(neg: bool, n: nat, tail: string, ctx: Context)
    requires n <= 0x8000_0000
    ensures var text := Signed(neg, n);
      && text != "" && (IsDigit(text[0]) || text[0] == '-') && (text[0] == '-' <==> neg)
      && Digits(Input(text[1..] + tail, ctx), if neg then 0 else DigitValue(text[0]))
         == Digits(Input(tail, ctx), Wrap32(n))
  {
    hide Digits;
    NatReads(n, tail, ctx);
    var text := Signed(neg, n);
    if neg {
      assert text[1..] == NatText(n);
    } else {
      assert text == NatText(n);
    }
  }

  lemma NumberStarts(text: string, tail: string, ctx: Context)
    requires text != "" && (IsDigit(text[0]) || text[0] == '-')
    ensures var (t, rest) := NumberToken(text[0], Input(text[1..] + tail, ctx));
      Tokens(Input(text + tail, ctx)) == [t] + Tokens(rest)
  {
    hide ImageData, Tokens, Digits, Fraction;
    assert text + tail == [text[0]] + (text[1..] + tail);
    FirstToken(text[0], text[1..] + tail, ctx);
  }

  /** A whole number with a sign. */
  lemma WholeReads(neg: bool, n: nat, tail: string, ctx: Context)
    requires if neg then n <= 0x8000_0000 else n < 0x8000_0000
    requires Delimited(tail)
    ensures Tokens(Input(Signed(neg, n) + tail, ctx))
         == [TInt(SignedValue(neg, n))] + Tokens(Input(tail, ctx))
  {
    hide Digits, Tokens, Signed, NatText;
    SignedReads(neg, n, tail, ctx);
    NumberStarts(Signed(neg, n), tail, ctx);
    DigitsStop(tail, ctx, Wrap32(n));
  }

  lemma IntReads(i: int, tail: string, ctx: Context)
    requires -0x8000_0000 <= i < 0x8000_0000 && Delimited(tail)
    ensures Tokens(Input(IntText(i) + tail, ctx)) == [TInt(i)] + Tokens(Input(tail, ctx))
  {
    hide Tokens;
    WholeReads(i < 0, if i < 0 then -i else i, tail, ctx);
    assert i >= 0 ==> "" + NatText(i) == NatText(i);
  }

  /** The value of digits behind a decimal point, times ten. */
  function FractionValue(d: string): real
    requires AllDigits(d)
  {
    if d == "" then 0.0 else DigitValue(d[0]) as real + FractionValue(d[1..]) / 10.0
  }

  predicate AllDigits(d: string) {
    forall i :: 0 <= i < |d| ==> IsDigit(d[i])
  }

  lemma TimesSum(s: real, a: real, b: real)
    ensures s * (a + b) == s * a + s * b
  {
  }

  lemma MoveTen(a: real, b: real)
    ensures (a / 10.0) * b == a * (b / 10.0)
  {
    var x, y := a / 10.0, b / 10.0;
    assert a == 10.0 * x && b == 10.0 * y;
    assert x * (10.0 * y) == (10.0 * x) * y;
  }

  lemma Distribute(xf: real, scale: real, first: real, others: real)
    ensures AddDigit(AddDigit(xf, scale, first), scale / 10.0, others) == AddDigit(xf, scale, first + others / 10.0)
  {
    TimesSum(scale, first, others / 10.0);
    MoveTen(scale, others);
  }

  lemma FractionStep(d: string, tail: string, ctx: Context, xf: real, scale: real)
    requires d != "" && IsDigit(d[0])
    ensures Fraction(Input(d + tail, ctx), xf, scale)
         == Fraction(Input(d[1..] + tail, ctx), AddDigit(xf, scale, DigitValue(d[0]) as real), scale / 10.0)
  {
    hide AddDigit;
    assert (d + tail)[1..] == d[1..] + tail;
  }

  lemma NoFraction(tail: string, ctx: Context, xf: real, scale: real)
    requires Delimited(tail)
    ensures Fraction(Input(tail, ctx), xf, scale) == (xf, Input(tail, ctx))
    ensures AddDigit(xf, scale, 0.0) == xf
  {
  }

  lemma {:induction false} FractionReads(d: string, tail: string, ctx: Context, xf: real, scale: real)
    requires AllDigits(d) && Delimited(tail)
    ensures Fraction(Input(d + tail, ctx), xf, scale) == (AddDigit(xf, scale, FractionValue(d)), Input(tail, ctx))
  {
    if d == "" {
      assert d + tail == tail;
      hide *;
      NoFraction(tail, ctx, xf, scale);
      NoDigits();
    } else {
      var first, others := DigitValue(d[0]) as real, FractionValue(d[1..]);
      assert AllDigits(d[1..]) && FractionValue(d) == first + others / 10.0;
      hide *;
      FractionStep(d, tail, ctx, xf, scale);
      FractionReads(d[1..], tail, ctx, AddDigit(xf, scale, first), scale / 10.0);
      Distribute(xf, scale, first, others);
    }
  }

  lemma {:induction false} TrimKeepsValue(d: string)
    requires AllDigits(d)
    ensures AllDigits(TrimZeros(d)) && FractionValue(TrimZeros(d)) == FractionValue(d)
    decreases |d|
  {
    if d != "" && d[|d| - 1] == '0' {
      TrimKeepsValue(d[..|d| - 1]);
      DropZero(d);
    }
  }

  lemma {:induction false} DropZero(d: string)
    requires AllDigits(d) && d != "" && d[|d| - 1] == '0'
    ensures FractionValue(d[..|d| - 1]) == FractionValue(d)
  {
    if |d| > 1 {
      DropZero(d[1..]);
      assert d[1..][..|d| - 2] == d[..|d| - 1][1..];
    }
  }

  lemma {:induction false} TrimToNothing(d: string)
    requires AllDigits(d)
    ensures TrimZeros(d) == "" <==> FractionValue(d) == 0.0
    decreases |d|
  {
    if d != "" && d[|d| - 1] == '0' {
      TrimToNothing(d[..|d| - 1]);
      DropZero(d);
    } else if d != "" {
      LastCounts(d);
    }
  }

  lemma {:induction false} LastCounts(d: string)
    requires AllDigits(d)
    ensures FractionValue(d) >= 0.0
    ensures d != "" && d[|d| - 1] != '0' ==> FractionValue(d) > 0.0
  {
    if d != "" {
      LastCounts(d[1..]);
    }
  }

  /** The value of one more digit in front. */
  lemma DigitInFront(v: nat, d: string)
    requires v < 10 && AllDigits(d)
    ensures AllDigits([Digit(v)] + d)
    ensures FractionValue([Digit(v)] + d) == v as real + FractionValue(d) / 10.0
  {
    DigitReads(v);
    assert ([Digit(v)] + d)[1..] == d;
  }

  lemma DecimalsValue(u: nat)
    ensures AllDigits(Decimals(u))
    ensures FractionValue(Decimals(u)) == (u % 100000) as real / 10000.0
  {
    hide AllDigits, FractionValue;
    var a, b, c, d, e := u / 10000 % 10, u / 1000 % 10, u / 100 % 10, u / 10 % 10, u % 10;
    NoDigits();
    DigitInFront(e, "");
    DigitInFront(d, [Digit(e)] + "");
    DigitInFront(c, [Digit(d)] + ([Digit(e)] + ""));
    DigitInFront(b, [Digit(c)] + ([Digit(d)] + ([Digit(e)] + "")));
    DigitInFront(a, [Digit(b)] + ([Digit(c)] + ([Digit(d)] + ([Digit(e)] + ""))));
    assert Decimals(u) == [Digit(a)] + ([Digit(b)] + ([Digit(c)] + ([Digit(d)] + ([Digit(e)] + ""))));
    FiveDigits(u);
  }

  lemma NoDigits()
    ensures AllDigits("") && FractionValue("") == 0.0
  {
  }

  lemma LowDigit(u: nat, ten: nat, tens: nat)
    requires ten > 0 && tens == 10 * ten
    ensures u % tens == u / ten % 10 * ten + u % ten
  {
    var q, r := u / ten, u % ten;
    assert u == q * ten + r;
    DigitInMiddle(q / 10, q % 10, ten);
    assert q == q / 10 * 10 + q % 10;
    QuotientIs(u, tens, q / 10, q % 10 * ten + r);
  }

  lemma DigitInMiddle(high: nat, low: nat, ten: nat)
    requires low < 10
    ensures (high * 10 + low) * ten == high * (10 * ten) + low * ten
    ensures low * ten <= 9 * ten
  {
    assert high * 10 * ten == high * (10 * ten);
  }

  lemma OneQuotient(n: nat, q: nat, r: nat, q2: nat, r2: nat)
    requires q * n + r == q2 * n + r2 && r < n && r2 < n
    ensures q == q2 && r == r2
  {
    if q < q2 {
      Apart(n, q, q2);
    } else if q2 < q {
      Apart(n, q2, q);
    }
  }

  lemma {:induction false} Apart(n: nat, q: nat, q2: nat)
    requires q < q2
    ensures q * n + n <= q2 * n
    decreases q2 - q
  {
    assert (q + 1) * n == q * n + n;
    if q + 1 < q2 {
      Apart(n, q + 1, q2);
    }
  }

  lemma QuotientIs(u: nat, n: nat, q: nat, r: nat)
    requires u == q * n + r && r < n
    ensures u % n == r && u / n == q
  {
    assert u == u / n * n + u % n;
    OneQuotient(n, q, r, u / n, u % n);
  }

  lemma FiveDigits(u: nat)
    ensures u % 100000 == 10000 * (u / 10000 % 10) + 1000 * (u / 1000 % 10) + 100 * (u / 100 % 10)
                          + 10 * (u / 10 % 10) + u % 10
  {
    LowDigit(u, 10, 100);
    LowDigit(u, 100, 1000);
    LowDigit(u, 1000, 10000);
    LowDigit(u, 10000, 100000);
  }

  /** What is read back for a real: rounded to five decimals, and an integer when none are left. */
  function RereadReal(r: real): Obj {
    var u := Hundredthousandths(r);
    if u % 100000 == 0 then Int(SignedValue(r < 0.0, u / 100000))
    else Real(SignedValue(r < 0.0, u) as real / 100000.0)
  }

  function RealTok(r: real): Token {
    match RereadReal(r)
    case Int(i) => TInt(i)
    case o => TReal(if o.Real? then o.r else 0.0)
  }

  lemma PointReads(tail: string, ctx: Context, xi: int)
    ensures Digits(Input("." + tail, ctx), xi) == (xi, true, Input(tail, ctx))
  {
    assert ("." + tail)[1..] == tail;
  }

  /** A decimal number: sign and whole part, a point, and digits. */
  lemma PointNumberReads(neg: bool, n: nat, d: string, tail: string, ctx: Context)
    requires n < 0x8000_0000 && AllDigits(d) && Delimited(tail)
    ensures var v := AddDigit(n as real, 0.1, FractionValue(d));
      Tokens(Input(Signed(neg, n) + "." + d + tail, ctx))
      == [TReal(if neg then -v else v)] + Tokens(Input(tail, ctx))
  {
    hide Digits, Tokens, Signed, NatText, Fraction, AddDigit, FractionValue, AllDigits;
    var behind := "." + (d + tail);
    SignedReads(neg, n, behind, ctx);
    NumberStarts(Signed(neg, n), behind, ctx);
    WrapIsIdentity(n);
    PointReads(d + tail, ctx, n);
    FractionReads(d, tail, ctx, n as real, 0.1);
    assert Signed(neg, n) + "." + d + tail == Signed(neg, n) + behind;
  }

  lemma WholeAndDecimals(u: nat)
    ensures AddDigit((u / 100000) as real, 0.1, (u % 100000) as real / 10000.0) == u as real / 100000.0
  {
    assert u == u / 100000 * 100000 + u % 100000;
  }

  /** Reals whose whole part fits the reader's accumulator. */
  predicate ReadableReal(r: real) {
    var u := Hundredthousandths(r);
    u / 100000 < 0x8000_0000 || (r < 0.0 && u == 0x8000_0000 * 100000)
  }

  lemma FirstIndex(text: string, d: nat)
    requires d <= |text| && '.' !in text[..d] && (d < |text| ==> text[d] == '.')
    ensures d == IndexOf(text, '.')
  {
    var i := IndexOf(text, '.');
    assert forall j :: 0 <= j < d ==> text[j] in text[..d];
    assert forall j :: 0 <= j < i ==> text[j] in text[..i];
  }

  lemma {:induction false} NatHasNoPoint(n: nat)
    ensures '.' !in NatText(n) && 0 as char !in NatText(n)
  {
    if n >= 10 {
      NatHasNoPoint(n / 10);
    }
  }

  function PowerOfTen(k: nat): nat {
    if k == 0 then 1 else 10 * PowerOfTen(k - 1)
  }

  lemma {:induction false} ShortText(n: nat, k: nat)
    requires k > 0 && n < PowerOfTen(k)
    ensures |NatText(n)| <= k
  {
    if n >= 10 {
      assert k > 1;
      ShortText(n / 10, k - 1);
    }
  }

  /** Reals in the range of the reader are far shorter than the printer's buffer. */
  lemma ShortReal(r: real)
    requires ReadableReal(r)
    ensures BufferedText(r) == FixedText(r)
  {
    var u := Hundredthousandths(r);
    assert PowerOfTen(5) == 100000;
    assert PowerOfTen(10) == 100000 * PowerOfTen(5);
    ShortText(u / 100000, 10);
    hide NatText, Hundredthousandths;
  }

  /** A real in the range of the reader is printed without being cut short. */
  lemma ReadableRealText(r: real)
    requires ReadableReal(r)
    ensures var u := Hundredthousandths(r);
      RealText(r) == Trimmed((if r < 0.0 then "-" else "") + NatText(u / 100000), Decimals(u))
  {
    ShortReal(r);
    hide NatText, TrimZeros, IndexOf, BufferedText;
    var u := Hundredthousandths(r);
    var whole := (if r < 0.0 then "-" else "") + NatText(u / 100000);
    NatHasNoPoint(u / 100000);
    var text := whole + "." + Decimals(u);
    assert text[..|whole|] == whole && text[|whole| + 1..] == Decimals(u);
    FirstIndex(text, |whole|);
    assert text == FixedText(r);
  }

  /** A real comes back rounded to five decimals, and as an integer when all of them are zero. */
  lemma RealReads(r: real, tail: string, ctx: Context)
    requires ReadableReal(r) && Delimited(tail)
    ensures Tokens(Input(RealText(r) + tail, ctx)) == [RealTok(r)] + Tokens(Input(tail, ctx))
  {
    hide Tokens, TrimZeros, NatText, Decimals, FractionValue, AllDigits, Hundredthousandths, AddDigit, RealText;
    ReadableRealText(r);
    var u, neg := Hundredthousandths(r), r < 0.0;
    var d := TrimZeros(Decimals(u));
    DecimalsValue(u);
    TrimKeepsValue(Decimals(u));
    TrimToNothing(Decimals(u));
    if d == "" {
      WholeReads(neg, u / 100000, tail, ctx);
    } else {
      PointNumberReads(neg, u / 100000, d, tail, ctx);
      WholeAndDecimals(u);
    }
  }

  // ------------------------------------------------------------------------------------------
  // Strings
  // ------------------------------------------------------------------------------------------

  predicate Bytes(s: string) {
    forall i :: 0 <= i < |s| ==> s[i] as int < 256
  }

  lemma HexDigitReads(d: nat)
    requires d < 16
    ensures HexValue(HexDigit(d)) == Some(d) && !IsSpecial(HexDigit(d))
  {
  }

  lemma FirstHexDigit(d: nat, tail: string, ctx: Context)
    requires d < 16
    ensures Hex(Input([HexDigit(d)] + tail, ctx), None) == Hex(Input(tail, ctx), Some(d))
  {
    HexDigitReads(d);
    assert ([HexDigit(d)] + tail)[1..] == tail;
    hide HexDigit, Byte, HexValue;
  }

  lemma SecondHexDigit(h: nat, d: nat, tail: string, ctx: Context)
    requires d < 16
    ensures Hex(Input([HexDigit(d)] + tail, ctx), Some(h)) == Prefix([Byte(h * 16 + d)], Hex(Input(tail, ctx), None))
  {
    HexDigitReads(d);
    assert ([HexDigit(d)] + tail)[1..] == tail;
    hide HexDigit, Byte, HexValue;
  }

  lemma HexDigitsRead(h: nat, l: nat, tail: string, ctx: Context)
    requires h < 16 && l < 16
    ensures Hex(Input([HexDigit(h)] + ([HexDigit(l)] + tail), ctx), None)
         == Prefix([Byte(h * 16 + l)], Hex(Input(tail, ctx), None))
  {
    hide *;
    FirstHexDigit(h, [HexDigit(l)] + tail, ctx);
    SecondHexDigit(h, l, tail, ctx);
  }

  lemma PairIsByte(c: char)
    requires c as int < 256
    ensures Byte(c as int / 16 % 16 * 16 + c as int % 16) == c
  {
    var n := c as int;
    assert n / 16 < 16 && n / 16 % 16 == n / 16;
  }

  lemma HexTextParts(c: char, tail: string)
    ensures HexText(c) + tail == [HexDigit(c as int / 16 % 16)] + ([HexDigit(c as int % 16)] + tail)
  {
    hide HexDigit;
  }

  lemma HexPairReads(c: char, tail: string, ctx: Context)
    requires c as int < 256
    ensures Hex(Input(HexText(c) + tail, ctx), None) == Prefix([c], Hex(Input(tail, ctx), None))
  {
    hide *;
    PairIsByte(c);
    HexTextParts(c, tail);
    HexDigitsRead(c as int / 16 % 16, c as int % 16, tail, ctx);
  }

  lemma HexEnds(tail: string, ctx: Context)
    ensures Hex(Input(HexBytes("") + ">" + tail, ctx), None) == ("", Input(tail, ctx))
  {
    assert (HexBytes("") + ">" + tail)[1..] == tail;
  }

  lemma HexFront(s: string, tail: string)
    requires s != "" && Bytes(s)
    ensures Bytes(s[1..]) && s[0] as int < 256 && [s[0]] + s[1..] == s
    ensures HexBytes(s) + ">" + tail == HexText(s[0]) + (HexBytes(s[1..]) + ">" + tail)
  {
    hide HexText;
  }

  lemma {:induction false} HexReads(s: string, tail: string, ctx: Context)
    requires Bytes(s)
    ensures Hex(Input(HexBytes(s) + ">" + tail, ctx), None) == (s, Input(tail, ctx))
  {
    hide Hex, HexText, Bytes, HexBytes;
    if s == "" {
      HexEnds(tail, ctx);
    } else {
      HexFront(s, tail);
      HexPairReads(s[0], HexBytes(s[1..]) + ">" + tail, ctx);
      HexReads(s[1..], tail, ctx);
    }
  }

  /** What is read back for a string. */
  function RereadStr(s: string): string {
    if !IsBinary(s) then Reread(s) else if s[0] == '\\' then s[1..] else s
  }

  /** A string is printed in parentheses exactly when all its characters are printable, else in angles with two
      lower-case digits for each byte. */
  lemma PrintedForm(s: string)
    ensures StrText(s) != "" && (StrText(s)[0] == '(' || StrText(s)[0] == '<')
    ensures StrText(s)[0] == '(' <==> forall i :: 0 <= i < |s| ==> 32 <= s[i] as int < 127
  {
    hide Escaped, HexString;
  }

  lemma PrintedDigits(d: nat)
    requires d < 16
    ensures HexDigit(d) == "0123456789abcdef"[d]
  {
  }

  lemma StrReads(s: string, tail: string, ctx: Context)
    requires Bytes(s)
    ensures Tokens(Input(StrText(s) + tail, ctx)) == [TStr(RereadStr(s))] + Tokens(Input(tail, ctx))
  {
    hide Tokens, Hex, Literal, Escaped, Reread, HexBytes, TokenAt;
    if IsBinary(s) {
      var t := RereadStr(s);
      var inside := HexBytes(t) + ">" + tail;
      BinaryText(s);
      HexTokenReads(t, tail, ctx);
      assert StrText(s) + tail == "<" + inside;
      FirstToken('<', inside, ctx);
    } else {
      var inside := Escaped(s) + ")" + tail;
      LiteralStops(s, tail, ctx);
      LiteralToken(inside, ctx);
      assert StrText(s) + tail == "(" + inside;
      FirstToken('(', inside, ctx);
    }
  }

  lemma BinaryText(s: string)
    requires IsBinary(s)
    ensures s != "" && StrText(s) == "<" + HexBytes(RereadStr(s)) + ">" && (Bytes(s) ==> Bytes(RereadStr(s)))
  {
    hide HexBytes, Reread, Escaped;
  }

  lemma LiteralToken(inside: string, ctx: Context)
    ensures TokenAt('(', Input(inside, ctx))
         == (TStr(Literal(Input(inside, ctx), 1).0), Literal(Input(inside, ctx), 1).1)
  {
    hide Literal;
  }

  lemma HexTokenReads(t: string, tail: string, ctx: Context)
    requires Bytes(t)
    ensures TokenAt('<', Input(HexBytes(t) + ">" + tail, ctx)) == (TStr(t), Input(tail, ctx))
  {
    hide Hex, HexBytes, Bytes;
    HexReads(t, tail, ctx);
    HexStarts(t, ">" + tail);
    assert HexBytes(t) + ">" + tail == HexBytes(t) + (">" + tail);
  }

  lemma HexStarts(t: string, tail: string)
    requires tail != "" && tail[0] != '<'
    ensures HexBytes(t) + tail != "" && (HexBytes(t) + tail)[0] != '<'
  {
    if t != "" {
      HexDigitReads(t[0] as int / 16 % 16);
    }
  }

  /** Which strings come back unchanged: those without an escape in them, and binary ones that do not start
      with a backslash. */
  lemma RereadStrIsIdentity(s: string)
    ensures RereadStr(s) == s <==> if IsBinary(s) then s[0] != '\\' else NoEscapes(s)
    ensures RereadStr(s) == s || |RereadStr(s)| < |s|
  {
    hide Reread, NoEscapes;
    RereadIsIdentity(s);
  }

  /** Strings that do not come back: an escape anywhere loses a backslash, and so does a binary string that
      starts with one. */
  lemma BackslashesAreLost(a: string, c: char, b: string)
    requires c == '\\' || IsParen(c)
    ensures var s := a + ['\\', c] + b; !IsBinary(s) ==> |RereadStr(s)| < |s|
    ensures IsBinary(a) ==> RereadStr("\\" + a) == a
    ensures RereadStr("\\(") == "("
  {
    var s := a + ['\\', c] + b;
    assert s[|a|] == '\\' && s[|a| + 1] == c;
    RereadStrIsIdentity(s);
    var d := "\\" + a;
    assert d[1..] == a;
    assert forall i :: 0 <= i < |a| ==> d[i + 1] == a[i];
    assert Unit("\\(") == ('(', "");
    assert Reread("\\(") == ['('] + Reread("");
  }
}
