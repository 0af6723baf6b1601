/** The name of a new font: the first generated name that no font of the page has. */
module PageFonts {
  import opened ObjectText
  import opened Lexer
  import opened TokenText

  const FONT_ID: string := "PDFEDIT_F"

  function FontName(i: nat): string {
    FONT_ID + NatText(i)
  }

  /** A fixed prefix, and digits that are read as the number. */
  lemma FontNameReads(i: nat, tail: string, ctx: Context)
    requires i < 0x8000_0000 && Delimited(tail)
    ensures FontName(i)[..9] == "PDFEDIT_F"
    ensures Tokens(Input(FontName(i)[9..] + tail, ctx)) == [TInt(i)] + Tokens(Input(tail, ctx))
  {
    hide Tokens;
    assert FontName(i)[9..] == IntText(i);
    IntReads(i, tail, ctx);
  }

  /** findFont: whether a font of that id is listed. */
  method FindFont(container: seq<(string, string)>, name: string) returns (found: bool)
    ensures found <==> name in Ids(container)
  {
    for i := 0 to |container|
      invariant name !in Ids(container[..i])
    {
      IdsUpTo(container, i);
      if container[i].0 == name {
        assert Ids(container)[i] == name;
        return true;
      }
    }
    assert container[..|container|] == container;
    return false;
  }

  function Ids(container: seq<(string, string)>): (ids: seq<string>)
    ensures |ids| == |container| && forall i :: 0 <= i < |ids| ==> ids[i] == container[i].0
  {
    if container == [] then [] else [container[0].0] + Ids(container[1..])
  }

  lemma IdsUpTo(container: seq<(string, string)>, i: nat)
    requires i < |container|
    ensures Ids(container[..i + 1]) == Ids(container[..i]) + [container[i].0]
  {
  }

  lemma {:induction false} NatTextInjective(i: nat, j: nat)
    requires NatText(i) == NatText(j)
    ensures i == j
  {
    TextLength(i);
    TextLength(j);
    if i >= 10 {
      var s, t := NatText(i), NatText(j);
      assert NatText(i / 10) == s[..|s| - 1] && NatText(j / 10) == t[..|t| - 1];
      NatTextInjective(i / 10, j / 10);
      assert s[|s| - 1] == Digit(i % 10) && t[|t| - 1] == Digit(j % 10);
    }
  }

  lemma TextLength(i: nat)
    ensures |NatText(i)| == 1 <==> i < 10
    ensures NatText(i) != ""
  {
    if i >= 10 {
      TextLength(i / 10);
    }
  }

  lemma NamesDiffer(i: nat, j: nat)
    requires i != j
    ensures FontName(i) != FontName(j)
  {
    if FontName(i) == FontName(j) {
      assert NatText(i) == FontName(i)[|FONT_ID|..] && NatText(j) == FontName(j)[|FONT_ID|..];
      NatTextInjective(i, j);
    }
  }

  /** The first n generated names. */
  function Names(n: nat): (s: set<string>)
  {
    if n == 0 then {} else Names(n - 1) + {FontName(n)}
  }

  lemma {:induction false} NameIn(n: nat, ids: seq<string>)
    requires forall i :: 0 < i <= n ==> FontName(i) in ids
    ensures forall x :: x in Names(n) ==> x in ids
  {
    hide FontName;
    if n > 0 {
      NameIn(n - 1, ids);
    }
  }

  lemma {:induction false} NotAmong(n: nat, m: nat)
    requires n < m
    ensures FontName(m) !in Names(n)
  {
    hide FontName;
    if n > 0 {
      NotAmong(n - 1, m);
      NamesDiffer(m, n);
    }
  }

  lemma {:induction false} NamesAre(n: nat)
    ensures |Names(n)| == n
  {
    hide FontName;
    if n > 0 {
      NamesAre(n - 1);
      NotAmong(n - 1, n);
    }
  }

  /** There are no more names in use than fonts. */
  lemma UsedNames(ids: seq<string>, n: nat)
    requires forall i :: 0 < i <= n ==> FontName(i) in ids
    ensures n <= |ids|
  {
    hide FontName;
    NamesAre(n);
    NameIn(n, ids);
    var listed := set x | x in ids;
    SubsetSize(Names(n), listed);
    ListedSize(ids);
  }

  lemma {:induction false} SubsetSize(a: set<string>, b: set<string>)
    requires a <= b
    ensures |a| <= |b|
  {
    if a != {} {
      var x :| x in a;
      SubsetSize(a - {x}, b - {x});
    }
  }

  lemma {:induction false} ListedSize(ids: seq<string>)
    ensures |set x | x in ids| <= |ids|
  {
    if ids != [] {
      ListedSize(ids[1..]);
      assert (set x | x in ids) == (set x | x in ids[1..]) + {ids[0]};
    }
  }

  /** The loop of addSystemType1Font: it ends after at most one try more than there are fonts, with the
      first generated name that is not in use. */
  method NewFontName(fs: seq<(string, string)>) returns (name: string, ghost tries: nat)
    ensures 0 < tries <= |fs| + 1 && name == FontName(tries) && name !in Ids(fs)
    ensures forall i :: 0 < i < tries ==> FontName(i) in Ids(fs)
  {
    var i: nat := 1;
    name := FontName(i);
    i := i + 1;
    var found := FindFont(fs, name);
    while found
      invariant i > 1 && name == FontName(i - 1) && (found <==> name in Ids(fs))
      invariant forall j :: 0 < j < i - 1 ==> FontName(j) in Ids(fs)
      decreases |fs| + 2 - i
    {
      UsedNames(Ids(fs), i - 1);
      name := FontName(i);
      i := i + 1;
      found := FindFont(fs, name);
    }
    tries := i - 1;
    UsedNames(Ids(fs), tries - 1);
  }
}
