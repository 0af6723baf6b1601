/** The escaping of literal strings: what the right-to-left scan produces, and what a reader makes of it. */
module StringEscape {
  import opened ObjectText
  import opened Lexer

  /** makeStringPdfValid: scans from the end, collecting the characters backwards, and reverses them. */
  method MakeStringPdfValid(str: string) returns (tmp: string)
    ensures tmp == Escaped(str)
  {
    tmp := "";
    var needEscape := false;
    var i := |str|;
    while i > 0
      invariant 0 <= i <= |str|
      invariant Scan(Reversed(tmp), needEscape) == ScanString(str[i..])
    {
      i := i - 1;
      assert str[i..][1..] == str[i + 1..];
      ReversedAppend(tmp, '\\');
      if str[i] == '\\' {
        needEscape := !needEscape;
      } else if needEscape {
        tmp := tmp + "\\";
        needEscape := false;
      }
      if !needEscape && IsParen(str[i]) {
        needEscape := true;
      }
      ReversedAppend(tmp, str[i]);
      tmp := tmp + [str[i]];
    }
    ReversedAppend(tmp, '\\');
    if needEscape {
      tmp := tmp + "\\";
    }
    assert str[0..] == str;
    tmp := Reversed(tmp);
  }

  function Reversed(s: string): string {
    if s == "" then "" else Reversed(s[1..]) + [s[0]]
  }

  lemma {:induction false} ReversedAppend(s: string, c: char)
    ensures Reversed(s + [c]) == [c] + Reversed(s)
  {
    if s != "" {
      assert (s + [c])[1..] == s[1..] + [c];
      ReversedAppend(s[1..], c);
    }
  }

  // ------------------------------------------------------------------------------------------
  // The scan, told from the left
  // ------------------------------------------------------------------------------------------

  /** Whether the backslash that s starts with already escapes the character behind it. */
  predicate EscapesNext(s: string) {
    |s| >= 2 && s[0] == '\\' && (s[1] == '\\' || IsParen(s[1]))
  }

  /** The first character of what s says, an escape counting as the character escaped, and what follows. */
  function Unit(s: string): (r: (char, string))
    requires s != ""
    ensures |r.1| < |s|
  {
    if EscapesNext(s) then (s[1], s[2..]) else (s[0], s[1..])
  }

  /** Existing escapes of backslashes and parentheses are kept; other backslashes, and parentheses, get one. */
  function EscapedFromLeft(s: string): string {
    if s == "" then ""
    else
      var (c, t) := Unit(s);
      if c == '\\' || IsParen(c) then ['\\', c] + EscapedFromLeft(t) else [c] + EscapedFromLeft(t)
  }

  /** An escape at the front is passed through. */
  lemma ScanEscape(s: string)
    requires EscapesNext(s)
    ensures Escaped(s) == ['\\', s[1]] + Escaped(s[2..])
  {
    assert s[1..][1..] == s[2..];
    var t := ScanString(s[2..]);
    assert ScanString(s[1..]) == ScanChar(s[1], t);
    assert ScanString(s) == ScanChar('\\', ScanChar(s[1], t));
  }

  lemma NoEscapePending(s: string)
    requires s == "" || (s[0] != '\\' && !IsParen(s[0]))
    ensures !ScanString(s).needEscape
  {
  }

  lemma ScanOther(s: string)
    requires s != "" && !EscapesNext(s)
    ensures Escaped(s) == (if s[0] == '\\' || IsParen(s[0]) then ['\\', s[0]] else [s[0]]) + Escaped(s[1..])
  {
    var t := ScanString(s[1..]);
    if s[0] == '\\' {
      if s[1..] != "" {
        assert s[1..][0] == s[1];
      }
      NoEscapePending(s[1..]);
    }
    assert ScanString(s) == ScanChar(s[0], t);
  }

  lemma {:induction false} EscapedIsFromLeft(s: string)
    ensures Escaped(s) == EscapedFromLeft(s)
  {
    hide Escaped;
    if s == "" {
      NothingEscaped();
    } else if EscapesNext(s) {
      ScanEscape(s);
      EscapedIsFromLeft(s[2..]);
    } else {
      ScanOther(s);
      EscapedIsFromLeft(s[1..]);
    }
  }

  lemma NothingEscaped()
    ensures Escaped("") == ""
  {
  }

  // ------------------------------------------------------------------------------------------
  // Runs of backslashes
  // ------------------------------------------------------------------------------------------

  /** The number of backslashes right before position i. */
  function RunBefore(s: string, i: nat): nat
    requires i <= |s|
  {
    if i == 0 || s[i - 1] != '\\' then 0 else 1 + RunBefore(s, i - 1)
  }

  /** An odd run before a parenthesis, an even one before anything else but a backslash. */
  predicate RunFitsAt(s: string, i: nat)
    requires i <= |s|
  {
    if i < |s| && IsParen(s[i]) then RunBefore(s, i) % 2 == 1
    else (i < |s| && s[i] == '\\') || RunBefore(s, i) % 2 == 0
  }

  /** An odd run of backslashes before every parenthesis, an even run before everything else but a
      backslash, and before the end. */
  predicate WellEscaped(s: string) {
    forall i :: 0 <= i <= |s| ==> RunFitsAt(s, i)
  }

  /** The same, read from the left; odd says whether an odd run of backslashes has just been read. */
  predicate RunsFit(s: string, odd: bool) {
    if s == "" then !odd
    else if s[0] == '\\' then RunsFit(s[1..], !odd)
    else (IsParen(s[0]) <==> odd) && RunsFit(s[1..], false)
  }

  lemma RunsFitStep(s: string, k: nat)
    requires k < |s|
    ensures RunsFit(s[k..], RunBefore(s, k) % 2 == 1) <==>
            RunFitsAt(s, k) && RunsFit(s[k + 1..], RunBefore(s, k + 1) % 2 == 1)
  {
    assert s[k..][1..] == s[k + 1..];
    assert s[k..][0] == s[k];
  }

  lemma RunsFitEnd(s: string)
    ensures RunsFit(s[|s|..], RunBefore(s, |s|) % 2 == 1) <==> RunFitsAt(s, |s|)
  {
  }

  lemma {:induction false} RunsFitFrom(s: string, k: nat)
    requires k <= |s|
    ensures RunsFit(s[k..], RunBefore(s, k) % 2 == 1) <==> forall i :: k <= i <= |s| ==> RunFitsAt(s, i)
    decreases |s| - k
  {
    hide RunsFit, RunFitsAt, RunBefore;
    if k < |s| {
      RunsFitStep(s, k);
      RunsFitFrom(s, k + 1);
    } else {
      RunsFitEnd(s);
    }
  }

  lemma WellEscapedIsRunsFit(s: string)
    ensures WellEscaped(s) <==> RunsFit(s, false)
  {
    RunsFitFrom(s, 0);
    assert s[0..] == s;
  }

  lemma FitsEscape(c: char, s: string)
    requires c == '\\' || IsParen(c)
    ensures RunsFit(['\\', c] + s, false) <==> RunsFit(s, false)
  {
    var t := ['\\', c] + s;
    assert t[1..] == [c] + s && ([c] + s)[1..] == s;
    assert RunsFit(t, false) <==> RunsFit([c] + s, true);
  }

  lemma FitsOther(c: char, s: string)
    requires c != '\\' && !IsParen(c)
    ensures RunsFit([c] + s, false) <==> RunsFit(s, false)
  {
    assert ([c] + s)[1..] == s;
  }

  /** Unescaped, a backslash or a parenthesis does not fit. */
  lemma FitsNot(s: string)
    requires s != "" && (s[0] == '\\' || IsParen(s[0])) && !EscapesNext(s)
    ensures !RunsFit(s, false)
  {
    if s[0] == '\\' && s[1..] != "" {
      assert s[1..][0] == s[1];
    }
  }

  lemma {:induction false} EscapedFits(s: string)
    ensures RunsFit(EscapedFromLeft(s), false)
    ensures EscapedFromLeft(s) == s <==> RunsFit(s, false)
  {
    hide RunsFit;
    if s == "" {
      NothingFits();
    } else if EscapesNext(s) {
      EscapedFits(s[2..]);
      FitsEscape(s[1], EscapedFromLeft(s[2..]));
      FitsEscape(s[1], s[2..]);
      assert s == ['\\', s[1]] + s[2..];
      SameFront(['\\', s[1]], EscapedFromLeft(s[2..]), s[2..]);
    } else if s[0] == '\\' || IsParen(s[0]) {
      EscapedFits(s[1..]);
      FitsEscape(s[0], EscapedFromLeft(s[1..]));
      FitsNot(s);
      EscapedNoShorter(s[1..]);
    } else {
      EscapedFits(s[1..]);
      FitsOther(s[0], EscapedFromLeft(s[1..]));
      FitsOther(s[0], s[1..]);
      assert s == [s[0]] + s[1..];
      SameFront([s[0]], EscapedFromLeft(s[1..]), s[1..]);
    }
  }

  lemma NothingFits()
    ensures RunsFit("", false)
  {
  }

  lemma SameFront(a: string, b: string, c: string)
    ensures a + b == a + c <==> b == c
  {
    if a + b == a + c {
      assert b == (a + b)[|a|..] == (a + c)[|a|..] == c;
    }
  }

  lemma {:induction false} EscapedNoShorter(s: string)
    ensures |EscapedFromLeft(s)| >= |s|
  {
    if s != "" {
      EscapedNoShorter(if EscapesNext(s) then s[2..] else s[1..]);
    }
  }

  /** The output has an odd run of backslashes before every parenthesis and even runs elsewhere; input of
      that form, and no other, comes back unchanged; so escaping twice is escaping once. */
  lemma EscapedForm(s: string)
    ensures WellEscaped(Escaped(s))
    ensures Escaped(s) == s <==> WellEscaped(s)
    ensures Escaped(Escaped(s)) == Escaped(s)
  {
    EscapedIsFromLeft(s);
    EscapedFits(s);
    EscapedIsFromLeft(Escaped(s));
    EscapedFits(Escaped(s));
    WellEscapedIsRunsFit(s);
    WellEscapedIsRunsFit(Escaped(s));
  }

  // ------------------------------------------------------------------------------------------
  // Reading an escaped string back
  // ------------------------------------------------------------------------------------------

  /** What a reader makes of the escaped form of s. */
  function Reread(s: string): string {
    if s == "" then "" else var (c, t) := Unit(s); [c] + Reread(t)
  }

  lemma LiteralPlain(c: char, tail: string, ctx: Context)
    requires c != '\\' && !IsParen(c)
    ensures Literal(Input([c] + tail, ctx), 1) == Prefix([c], Literal(Input(tail, ctx), 1))
  {
    assert ([c] + tail)[1..] == tail;
  }

  lemma LiteralEscaped(c: char, tail: string, ctx: Context)
    requires c == '\\' || IsParen(c)
    ensures Literal(Input(['\\', c] + tail, ctx), 1) == Prefix([c], Literal(Input(tail, ctx), 1))
  {
    assert (['\\', c] + tail)[1..] == [c] + tail;
    assert ([c] + tail)[1..] == tail;
  }

  lemma {:induction false} LiteralFromLeft(s: string, rest: string, ctx: Context)
    ensures Literal(Input(EscapedFromLeft(s) + (")" + rest), ctx), 1) == (Reread(s), Input(rest, ctx))
  {
    hide Literal;
    if s == "" {
      LiteralEnd(rest, ctx);
      assert "" + (")" + rest) == ")" + rest;
    } else {
      var (c, t) := Unit(s);
      assert Reread(s) == [c] + Reread(t);
      var tail := EscapedFromLeft(t) + (")" + rest);
      if c == '\\' || IsParen(c) {
        assert EscapedFromLeft(s) + (")" + rest) == ['\\', c] + tail;
        LiteralEscaped(c, tail, ctx);
      } else {
        assert EscapedFromLeft(s) + (")" + rest) == [c] + tail;
        LiteralPlain(c, tail, ctx);
      }
      hide EscapedFromLeft, Reread;
      LiteralFromLeft(t, rest, ctx);
    }
  }

  lemma LiteralEnd(rest: string, ctx: Context)
    ensures Literal(Input(")" + rest, ctx), 1) == ("", Input(rest, ctx))
  {
    assert (")" + rest)[1..] == rest;
  }

  /** A literal-string reader stops exactly at the parenthesis put behind the escaped form. */
  lemma LiteralStops(s: string, rest: string, ctx: Context)
    ensures Literal(Input(Escaped(s) + ")" + rest, ctx), 1) == (Reread(s), Input(rest, ctx))
  {
    EscapedIsFromLeft(s);
    LiteralFromLeft(s, rest, ctx);
    assert Escaped(s) + ")" + rest == EscapedFromLeft(s) + (")" + rest);
  }

  /** No backslash stands right before a backslash or a parenthesis. */
  predicate NoEscapes(s: string) {
    forall i :: 0 <= i < |s| - 1 ==> !(s[i] == '\\' && (s[i + 1] == '\\' || IsParen(s[i + 1])))
  }

  /** Escaping and reading gives back exactly the strings that contain no escape of a backslash or of a
      parenthesis; in particular every string without a backslash. */
  lemma {:induction false} RereadIsIdentity(s: string)
    ensures Reread(s) == s <==> NoEscapes(s)
    ensures Reread(s) == s || |Reread(s)| < |s|
    ensures '\\' !in s ==> NoEscapes(s)
  {
    if s != "" {
      var (c, t) := Unit(s);
      RereadIsIdentity(t);
      RereadFront(s);
      if EscapesNext(s) {
        EscapeInFront(s);
      } else {
        NoEscapeInFront(s);
      }
    }
  }

  lemma RereadFront(s: string)
    requires s != ""
    ensures Reread(s) == [Unit(s).0] + Reread(Unit(s).1)
    ensures EscapesNext(s) ==> |Unit(s).1| == |s| - 2
    ensures !EscapesNext(s) ==> Unit(s) == (s[0], s[1..]) && s == [s[0]] + s[1..]
  {
  }

  lemma EscapeInFront(s: string)
    requires EscapesNext(s)
    ensures !NoEscapes(s) && '\\' in s
  {
    var i := 0;
    assert s[i] == '\\' && (s[i + 1] == '\\' || IsParen(s[i + 1]));
  }

  lemma NoEscapeInFront(s: string)
    requires s != "" && !EscapesNext(s)
    ensures NoEscapes(s) <==> NoEscapes(s[1..])
  {
    var t := s[1..];
    assert forall i :: 0 <= i < |t| ==> t[i] == s[i + 1];
    if NoEscapes(t) {
      forall i | 0 <= i < |s| - 1 ensures !(s[i] == '\\' && (s[i + 1] == '\\' || IsParen(s[i + 1]))) {
        assert i > 0 ==> t[i - 1] == s[i] && t[i - 1 + 1] == s[i + 1];
      }
    }
    if NoEscapes(s) {
      forall i | 0 <= i < |t| - 1 ensures !(t[i] == '\\' && (t[i + 1] == '\\' || IsParen(t[i + 1]))) {
        assert s[i + 1] == t[i] && s[i + 1 + 1] == t[i + 1];
      }
    }
  }
}
