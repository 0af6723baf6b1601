/** Reading printed names back: exactly the plain names survive. */
module NameReading {
  import opened Options
  import opened ObjectText
  import opened Lexer
  import opened TokenText

  /** Bytes other than NUL, no delimiters, and no number sign in front of a hexadecimal digit. */
  predicate PlainChars(n: string) {
    forall i :: 0 <= i < |n| ==>
      && 0 < n[i] as int < 256
      && (IsSpecial(n[i]) ==> !IsVisible(n[i]))
      && (n[i] == '#' && i + 1 < |n| ==> HexValue(n[i + 1]) == None)
  }

  /** A name short enough for the reader's token buffer. */
  predicate PlainName(n: string) {
    |n| < TOKEN_LIMIT && PlainChars(n)
  }

  /** No streams behind the current one. */
  const NOWHERE: Context := Context([], false)

  /** A name ends in front of this. */
  predicate EndsName(tail: string) {
    tail != "" && IsSpecial(tail[0])
  }

  lemma DelimiterEndsName(tail: string)
    requires Delimited(tail)
    ensures EndsName(tail)
  {
  }

  predicate IsVisible(c: char) {
    '!' <= c <= '~'
  }

  lemma VisibleUnit(c: char, tail: string, ctx: Context, k: nat)
    requires IsVisible(c) && !IsSpecial(c) && k + 1 < TOKEN_LIMIT
    requires c == '#' ==> tail == "" || HexValue(tail[0]) == None
    ensures NameWord(Input([c] + tail, ctx), k) == Prefix([c], NameWord(Input(tail, ctx), k + 1))
  {
    assert ([c] + tail)[1..] == tail;
  }

  lemma CodeReads(x: char, y: char, h: nat, l: nat, tail: string, ctx: Context)
    requires HexValue(x) == Some(h) && HexValue(y) == Some(l)
    ensures NameUnit(Input("#" + ([x, y] + tail), ctx)) == (Byte(h * 16 + l), Input(tail, ctx))
  {
    var text := "#" + ([x, y] + tail);
    assert text[1..] == [x, y] + tail;
    assert text[1..][1..] == [y] + tail;
    assert text[1..][1..][1..] == tail;
  }

  lemma LowByte(n: nat)
    ensures Byte(n / 16 % 16 * 16 + n % 16) == Byte(n)
  {
    LowDigit16(n);
  }

  lemma LowDigit16(n: nat)
    ensures (n / 16 % 16 * 16 + n % 16) % 256 == n % 256
  {
    var q, r := n / 16, n % 16;
    assert n == 16 * q + r && q == 16 * (q / 16) + q % 16;
    Remainder(q / 16, q % 16 * 16 + r);
  }

  lemma Remainder(k: nat, r: nat)
    requires r < 256
    ensures (256 * k + r) % 256 == r
  {
  }

  lemma CodedUnit(c: char, tail: string, ctx: Context, k: nat)
    requires !IsVisible(c) && k + 1 < TOKEN_LIMIT
    ensures NameWord(Input(NameChar(c) + tail, ctx), k) == Prefix([Byte(c as int)], NameWord(Input(tail, ctx), k + 1))
  {
    hide NameUnit, HexDigit, Byte, HexValue;
    var h, l := c as int / 16 % 16, c as int % 16;
    HexDigitReads(h);
    HexDigitReads(l);
    CodeReads(HexDigit(h), HexDigit(l), h, l, tail, ctx);
    LowByte(c as int);
    assert NameChar(c) + tail == "#" + ([HexDigit(h), HexDigit(l)] + tail);
  }

  lemma EmptyName()
    ensures NameText("") == ""
  {
  }

  lemma NameEnds(tail: string, ctx: Context, k: nat)
    requires EndsName(tail)
    ensures NameWord(Input(tail, ctx), k) == ("", Input(tail, ctx))
  {
  }

  lemma TextFront(n: string, tail: string)
    requires n != ""
    ensures NameText(n) + tail == NameChar(n[0]) + (NameText(n[1..]) + tail)
    ensures IsVisible(n[0]) ==> NameText(n) + tail == [n[0]] + (NameText(n[1..]) + tail)
    ensures (NameText(n) + tail)[0] == if IsVisible(n[0]) then n[0] else '#'
  {
    Attached(NameChar(n[0]), NameText(n[1..]), tail);
    assert NameText(n) == NameChar(n[0]) + NameText(n[1..]);
    hide NameText;
    assert NameChar(n[0])[0] == if IsVisible(n[0]) then n[0] else '#';
  }

  lemma Attached(a: string, b: string, c: string)
    ensures a + b + c == a + (b + c)
  {
  }

  lemma PlainFront(n: string)
    requires PlainChars(n) && n != ""
    ensures PlainChars(n[1..]) && 0 < n[0] as int < 256 && (IsVisible(n[0]) ==> !IsSpecial(n[0]))
    ensures n[0] == '#' && n[1..] != "" ==> HexValue(n[1..][0]) == None
  {
    hide IsSpecial, HexValue;
    assert forall i :: 0 <= i < |n| - 1 ==> n[1..][i] == n[i + 1];
  }

  lemma BehindFront(n: string, tail: string)
    requires EndsName(tail) && (n != "" ==> HexValue(n[0]) == None)
    ensures NameText(n) + tail != "" && HexValue((NameText(n) + tail)[0]) == None
  {
    if n != "" {
      TextFront(n, tail);
    } else {
      assert NameText(n) + tail == tail;
    }
  }

  /** Plain names are read back whole. */
  lemma {:induction false} NameReads(n: string, tail: string, ctx: Context, k: nat)
    requires PlainChars(n) && k + |n| < TOKEN_LIMIT && EndsName(tail)
    ensures NameWord(Input(NameText(n) + tail, ctx), k) == (n, Input(tail, ctx))
  {
    hide PlainChars, NameWord, NameText, NameChar, HexValue, EndsName, IsSpecial;
    if n == "" {
      EmptyName();
      assert NameText(n) + tail == tail;
      NameEnds(tail, ctx, k);
    } else {
      var behind := NameText(n[1..]) + tail;
      PlainFront(n);
      NameReads(n[1..], tail, ctx, k + 1);
      TextFront(n, tail);
      assert [n[0]] + n[1..] == n;
      if n[0] == '#' {
        BehindFront(n[1..], tail);
      }
      if IsVisible(n[0]) {
        VisibleUnit(n[0], behind, ctx, k);
      } else {
        CodedUnit(n[0], behind, ctx, k);
      }
    }
  }

  lemma {:induction false} NoNul(s: string)
    requires forall i :: 0 <= i < |s| ==> s[i] as int != 0
    ensures CString(s) == s
  {
    if s != "" {
      NoNul(s[1..]);
    }
  }

  lemma {:induction false} CStringNoNul(s: string)
    ensures |CString(s)| <= |s|
    ensures forall i :: 0 <= i < |CString(s)| ==> CString(s)[i] == s[i] && s[i] as int != 0
  {
    if s != "" && s[0] as int != 0 {
      CStringNoNul(s[1..]);
    }
  }

  /** What is read for the name n in front of a space, behind k characters of the name. */
  function ReadBack(n: string, k: nat): string {
    NameWord(Input(NameText(n) + " ", NOWHERE), k).0
  }

  /** A number sign in front of a hexadecimal digit starts a code, whatever follows. */
  lemma SignUnit(c: char, t: string, k: nat)
    requires HexValue(c).Some? && t != "" && k + 1 < TOKEN_LIMIT
    ensures var low := if HexValue(t[0]).Some? then HexValue(t[0]).value else 0;
      NameWord(Input("#" + ([c] + t), NOWHERE), k)
      == Prefix([Byte(HexValue(c).value * 16 + low)], NameWord(Input(t[1..], NOWHERE), k + 1))
  {
    hide HexValue;
    var text := "#" + ([c] + t);
    assert text[1..] == [c] + t;
    assert text[1..][1..] == t;
  }

  lemma HexPairLength(x: char, y: char, tail: string, k: nat)
    requires HexValue(x).Some? && HexValue(y).Some? && k < TOKEN_LIMIT
    ensures NameWord(Input([x, y] + tail, NOWHERE), k).0 == ""
         || |NameWord(Input([x, y] + tail, NOWHERE), k).0| == 1
         || (k + 2 < TOKEN_LIMIT
             && |NameWord(Input([x, y] + tail, NOWHERE), k).0| == 2 + |NameWord(Input(tail, NOWHERE), k + 2).0|)
  {
    assert [x, y] + tail == [x] + ([y] + tail);
    HexIsVisible(x);
    HexIsVisible(y);
    NoHexSign();
    hide NameWord, HexValue, IsSpecial, IsVisible;
    AtLimit([x] + ([y] + tail), k);
    AtLimit([y] + tail, k + 1);
    if k + 1 < TOKEN_LIMIT {
      VisibleUnit(x, [y] + tail, NOWHERE, k);
      if k + 2 < TOKEN_LIMIT {
        VisibleUnit(y, tail, NOWHERE, k + 1);
      }
    }
  }

  lemma AtLimit(text: string, k: nat)
    ensures k + 1 == TOKEN_LIMIT ==> NameWord(Input(text, NOWHERE), k).0 == ""
  {
  }

  lemma SpecialStops(c: char, tail: string, k: nat)
    requires IsSpecial(c)
    ensures NameWord(Input([c] + tail, NOWHERE), k).0 == ""
  {
  }

  predicate SignBeforeHex(n: string) {
    |n| >= 2 && n[0] == '#' && HexValue(n[1]).Some?
  }

  /** Such a number sign eats at least one more character, so the name read is shorter or starts otherwise. */
  lemma SignEats(n: string, k: nat)
    requires SignBeforeHex(n) && k + 1 < TOKEN_LIMIT
    requires |n| > 2 ==> forall j :: 0 <= j < TOKEN_LIMIT ==> |ReadBack(n[3..], j)| <= |n| - 3
    ensures |ReadBack(n, k)| <= |n| && ReadBack(n, k) != n
  {
    hide HexValue, NameWord, NameText, NameChar;
    var t := NameText(n[2..]) + " ";
    var h := HexValue(n[1]).value;
    HexIsVisible(n[1]);
    TextFront(n, " ");
    TextFront(n[1..], " ");
    assert n[1..][1..] == n[2..] && n[1..][0] == n[1];
    SignUnit(n[1], t, k);
    if |n| == 2 {
      EmptyName();
      assert n[2..] == "" && t == " ";
      assert t[1..] == "";
      NothingLeft(k + 1);
    } else {
      assert n[2..][1..] == n[3..];
      TextFront(n[2..], " ");
      if IsVisible(n[2]) {
        assert t[1..] == NameText(n[3..]) + " ";
        assert |ReadBack(n[3..], k + 1)| <= |n| - 3;
      } else {
        NoHexSign();
        ByteOfHigh(h, n[1]);
        var x, y := HexDigit(n[2] as int / 16 % 16), HexDigit(n[2] as int % 16);
        HexDigitReads(n[2] as int / 16 % 16);
        HexDigitReads(n[2] as int % 16);
        CodeText(n[2]);
        assert t[1..] == [x, y] + (NameText(n[3..]) + " ");
        HexPairLength(x, y, NameText(n[3..]) + " ", k + 1);
        assert k + 3 < TOKEN_LIMIT ==> |ReadBack(n[3..], k + 3)| <= |n| - 3;
      }
    }
  }

  lemma CodeText(c: char)
    requires !IsVisible(c)
    ensures NameChar(c) == "#" + [HexDigit(c as int / 16 % 16), HexDigit(c as int % 16)]
  {
  }

  lemma HexIsVisible(c: char)
    requires HexValue(c).Some?
    ensures IsVisible(c) && !IsSpecial(c) && HexValue(c).value < 16
  {
  }

  lemma NoHexSign()
    ensures HexValue('#') == None
  {
  }

  lemma ByteOfHigh(h: nat, c: char)
    requires HexValue(c) == Some(h)
    ensures Byte(h * 16 + 0) != '#'
  {
  }

  lemma NothingLeft(k: nat)
    ensures NameWord(Input("", NOWHERE), k).0 == ""
  {
  }

  lemma OneSpaceDelimits()
    ensures Delimited(" ")
  {
  }

  lemma ByteOfVisible(c: char)
    ensures IsVisible(c) ==> Byte(c as int) == c
  {
  }

  /** The first character of a name that neither ends it nor starts a code by accident. */
  lemma FrontReads(n: string, k: nat)
    requires n != "" && k + 1 < TOKEN_LIMIT
    requires !SignBeforeHex(n) && !(IsVisible(n[0]) && IsSpecial(n[0]))
    ensures ReadBack(n, k) == [Byte(n[0] as int)] + ReadBack(n[1..], k + 1)
  {
    hide HexValue, NameWord, NameText, NameChar, IsSpecial;
    var behind := NameText(n[1..]) + " ";
    TextFront(n, " ");
    ByteOfVisible(n[0]);
    if n[0] == '#' {
      if n[1..] != "" {
        assert n[1..][0] == n[1];
      }
      OneSpaceDelimits();
      DelimiterEndsName(" ");
      BehindFront(n[1..], " ");
    }
    hide SignBeforeHex, Byte, IsVisible, Delimited;
    if IsVisible(n[0]) {
      VisibleUnit(n[0], behind, NOWHERE, k);
    } else {
      CodedUnit(n[0], behind, NOWHERE, k);
    }
  }

  lemma {:induction false} ReadsNoLonger(n: string, k: nat)
    requires k < TOKEN_LIMIT
    ensures |ReadBack(n, k)| <= |n|
    decreases |n|
  {
    hide *;
    if n == "" {
      NothingRead(k);
    } else if k + 1 == TOKEN_LIMIT {
      LimitReads(n, k);
    } else if SignBeforeHex(n) {
      if |n| > 2 {
        forall j | 0 <= j < TOKEN_LIMIT ensures |ReadBack(n[3..], j)| <= |n| - 3 {
          ReadsNoLonger(n[3..], j);
        }
      }
      SignEats(n, k);
    } else if IsVisible(n[0]) && IsSpecial(n[0]) {
      SpecialReads(n, k);
    } else {
      FrontReads(n, k);
      ReadsNoLonger(n[1..], k + 1);
    }
  }

  lemma NothingRead(k: nat)
    ensures ReadBack("", k) == ""
  {
    EmptyName();
    assert NameText("") + " " == " ";
    NameEnds(" ", NOWHERE, k);
  }

  lemma LimitReads(n: string, k: nat)
    requires k + 1 == TOKEN_LIMIT
    ensures ReadBack(n, k) == ""
  {
    AtLimit(NameText(n) + " ", k);
  }

  lemma SpecialReads(n: string, k: nat)
    requires n != "" && IsVisible(n[0]) && IsSpecial(n[0])
    ensures ReadBack(n, k) == ""
  {
    TextFront(n, " ");
    SpecialStops(n[0], NameText(n[1..]) + " ", k);
  }

  /** Only plain names are read back whole. */
  lemma {:induction false} OnlyPlainReads(n: string, k: nat)
    requires k < TOKEN_LIMIT && ReadBack(n, k) == n
    requires forall i :: 0 <= i < |n| ==> n[i] as int != 0
    ensures PlainChars(n) && k + |n| < TOKEN_LIMIT
    decreases |n|
  {
    hide ReadBack, IsSpecial, HexValue, Byte, IsVisible, PlainChars;
    if n == "" {
      PlainNothing();
    } else if k + 1 == TOKEN_LIMIT {
      LimitReads(n, k);
    } else if SignBeforeHex(n) {
      if |n| > 2 {
        forall j | 0 <= j < TOKEN_LIMIT ensures |ReadBack(n[3..], j)| <= |n| - 3 {
          ReadsNoLonger(n[3..], j);
        }
      }
      SignEats(n, k);
    } else if IsVisible(n[0]) && IsSpecial(n[0]) {
      SpecialReads(n, k);
    } else {
      FrontReads(n, k);
      assert n[1..] == ReadBack(n[1..], k + 1);
      OnlyPlainReads(n[1..], k + 1);
      ByteIsByte(n[0]);
      PlainWith(n);
    }
  }

  lemma PlainNothing()
    ensures PlainChars("")
  {
  }

  lemma ByteIsByte(c: char)
    ensures Byte(c as int) as int < 256
  {
  }

  lemma PlainWith(n: string)
    requires n != "" && PlainChars(n[1..]) && 0 < n[0] as int < 256
    requires !SignBeforeHex(n) && !(IsVisible(n[0]) && IsSpecial(n[0]))
    ensures PlainChars(n)
  {
    hide HexValue, IsSpecial, IsVisible;
    forall i | 0 <= i < |n|
      ensures 0 < n[i] as int < 256
      ensures IsSpecial(n[i]) ==> !IsVisible(n[i])
      ensures n[i] == '#' && i + 1 < |n| ==> HexValue(n[i + 1]) == None
    {
      if i > 0 {
        assert n[1..][i - 1] == n[i];
        if i + 1 < |n| {
          assert n[1..][i] == n[i + 1];
        }
      }
    }
  }

  /** What the reader makes of a printed name in front of tail. */
  function NameIn(n: string, tail: string, ctx: Context): (string, Input) {
    var (w, rest) := NameWord(Input(NameText(n) + tail, ctx), 0);
    (CString(w), rest)
  }

  /** Plain names, and no others, come back wherever they stand. */
  lemma NamesThatSurvive(n: string)
    ensures PlainName(n) <==>
            forall tail, ctx :: Delimited(tail) ==> NameIn(n, tail, ctx) == (n, Input(tail, ctx))
  {
    hide NameWord, NameText, CString, PlainChars;
    if PlainName(n) {
      PlainHasNoNul(n);
      NoNul(n);
      forall tail, ctx | Delimited(tail) ensures NameIn(n, tail, ctx) == (n, Input(tail, ctx)) {
        DelimiterEndsName(tail);
        NameReads(n, tail, ctx, 0);
      }
    } else if forall tail, ctx :: Delimited(tail) ==> NameIn(n, tail, ctx) == (n, Input(tail, ctx)) {
      assert NameIn(n, " ", NOWHERE) == (n, Input(" ", NOWHERE));
      CStringNoNul(ReadBack(n, 0));
      ReadsNoLonger(n, 0);
      assert ReadBack(n, 0) == n;
      OnlyPlainReads(n, 0);
    }
  }

  lemma PlainHasNoNul(n: string)
    requires PlainChars(n)
    ensures forall i :: 0 <= i < |n| ==> n[i] as int != 0
  {
  }

  /** Names that do not come back: one with a delimiter ends there, what follows is read as something else;
      and a number sign in front of two hexadecimal digits is taken for a code. */
  lemma NameCutShort(n: string, c: char, t: string, tail: string, ctx: Context)
    requires PlainName(n) && IsVisible(c) && IsSpecial(c)
    ensures NameIn(n + [c] + t, tail, ctx) == (n, Input([c] + NameText(t) + tail, ctx))
    ensures NameIn("#41", " ", NOWHERE) == ("A", Input(" ", NOWHERE))
  {
    hide NameWord, NameText, CString, PlainChars, IsVisible, IsSpecial;
    CutText(n, c, t, tail);
    CodeIsRead();
    PlainHasNoNul(n);
    NoNul(n);
    NameReads(n, [c] + NameText(t) + tail, ctx, 0);
  }

  lemma CutText(n: string, c: char, t: string, tail: string)
    requires IsVisible(c) && IsSpecial(c)
    ensures NameText(n + [c] + t) + tail == NameText(n) + ([c] + NameText(t) + tail)
    ensures EndsName([c] + NameText(t) + tail)
  {
    NameTextConcat(n, [c] + t);
    Attached(n, [c], t);
    assert ([c] + t)[1..] == t && NameText([c] + t) == [c] + NameText(t);
    hide NameText;
    Attached(NameText(n), [c] + NameText(t), tail);
  }

  lemma {:induction false} NameTextConcat(a: string, b: string)
    ensures NameText(a + b) == NameText(a) + NameText(b)
  {
    if a == "" {
      assert a + b == b;
    } else {
      assert (a + b)[1..] == a[1..] + b;
      NameTextConcat(a[1..], b);
    }
  }

  lemma CodeIsRead()
    ensures NameIn("#41", " ", NOWHERE) == ("A", Input(" ", NOWHERE))
  {
    assert NameText("#41") == "#" + NameText("41") && NameText("41") == "4" + NameText("1");
    OneCodeReads();
    assert NameText("#41") + " " == "#" + (['4', '1'] + " ");
  }

  lemma OneCodeReads()
    ensures NameWord(Input("#" + (['4', '1'] + " "), NOWHERE), 0) == ("A", Input(" ", NOWHERE))
  {
    CodeReads('4', '1', 4, 1, " ", NOWHERE);
    NameEnds(" ", NOWHERE, 1);
    var inp := Input("#" + (['4', '1'] + " "), NOWHERE);
    assert NameUnit(inp) == ('A', Input(" ", NOWHERE));
    hide NameUnit;
    assert LookChar(inp) == Some('#') && !IsSpecial('#');
    assert NameWord(inp, 0) == Prefix(['A'], NameWord(Input(" ", NOWHERE), 1));
    assert ['A'] + "" == "A";
  }
}
