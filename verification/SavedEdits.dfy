/** Edits of streams that can be saved and loaded: what the editor writes behind them can be loaded again. */
module SavedEdits {
  import opened Forests
  import opened PdfOperators
  import opened OperatorTable
  import opened ObjectText
  import opened TokenText
  import opened StreamGrammar
  import opened ObjectReader
  import opened ObjectRoundTrip
  import opened StreamRoundTrip
  import opened ContentStream

  /** Well-nested operators whose text is read back as it was put together. */
  predicate LoadsAgain(f: Forest<PdfOperator>) {
    WellNested(Contents(f)) && Printable(Contents(f))
  }

  /** Does not end a composite. */
  predicate IsNoEnd(l: Label) {
    l.OperatorName() !in {"Q", "ET", "EX"}
  }

  /** The editor makes this operator from its own text. */
  predicate IsMade(l: Label) {
    Canonical(l) && PrintableLabel(l) && !l.Composite?
  }

  lemma CompositeEnds(l: Label)
    requires Canonical(l) && l.Composite?
    ensures l.endTag in {"Q", "ET", "EX"}
  {
    OperandsUsedUp(l.begin, []);
  }

  lemma {:induction false} MemberIsMade(f: Forest<PdfOperator>, x: PdfOperator)
    requires LoadsAgain(f) && x in Flat(f)
    ensures Canonical(x.content) && PrintableLabel(x.content)
  {
    hide Canonical, PrintableLabel, EndsWith;
    var Tree(r, k, s) := f;
    if x in Flat(k) {
      MemberIsMade(k, x);
    } else if r != x {
      MemberIsMade(s, x);
    }
  }

  ghost predicate RootsAreNoEnds(g: Forest<PdfOperator>) {
    match g
    case Empty => true
    case Tree(r, _, s) => IsNoEnd(r.content) && RootsAreNoEnds(s)
  }

  lemma {:induction false} ConcatEnds(g: Forest<PdfOperator>, s: Forest<PdfOperator>, endTag: string)
    requires RootsAreNoEnds(g) && EndsWith(Contents(s), endTag) && endTag in {"Q", "ET", "EX"}
    ensures EndsWith(Contents(Concat(g, s)), endTag)
  {
    if g.Tree? {
      ConcatEnds(g.rest, s, endTag);
    }
  }

  lemma {:induction false} ConcatLoads(g: Forest<PdfOperator>, s: Forest<PdfOperator>)
    requires LoadsAgain(g) && LoadsAgain(s)
    ensures LoadsAgain(Concat(g, s))
  {
    hide Canonical, PrintableLabel, EndsWith;
    if g.Tree? {
      ConcatLoads(g.rest, s);
    }
  }

  lemma {:induction false} SpliceEnds(k: Forest<PdfOperator>, x: PdfOperator, g: Forest<PdfOperator>, endTag: string)
    requires x in Flat(k) && IsNoEnd(x.content) && RootsAreNoEnds(g)
    requires EndsWith(Contents(k), endTag) && endTag in {"Q", "ET", "EX"}
    ensures EndsWith(Contents(Splice(k, x, g)), endTag)
  {
    var Tree(r, kk, s) := k;
    if r == x {
      ConcatEnds(g, s, endTag);
    } else if x !in Flat(kk) {
      SpliceEnds(s, x, g, endTag);
    }
  }

  /** Putting loadable trees in the place of one operator's tree, end tags apart, leaves the whole loadable. */
  lemma {:induction false} SpliceLoads(f: Forest<PdfOperator>, x: PdfOperator, g: Forest<PdfOperator>)
    requires LoadsAgain(f) && LoadsAgain(g) && x in Flat(f) && IsNoEnd(x.content) && RootsAreNoEnds(g)
    ensures LoadsAgain(Splice(f, x, g))
  {
    hide Canonical, PrintableLabel, EndsWith, IsNoEnd, RootsAreNoEnds;
    var Tree(r, k, s) := f;
    if r == x {
      ConcatLoads(g, s);
    } else if x in Flat(k) {
      SpliceLoads(k, x, g);
      if r.content.Composite? {
        CompositeEnds(r.content);
        SpliceEnds(k, x, g, r.content.endTag);
      }
    } else {
      SpliceLoads(s, x, g);
    }
  }

  lemma LeafLoads(x: PdfOperator)
    requires IsMade(x.content)
    ensures LoadsAgain(Single(x, Empty))
  {
    hide Canonical, PrintableLabel;
    var l, none := x.content, Contents(Empty);
    assert none == Empty && Contents(Single(x, Empty)) == Tree(l, none, none);
    assert WellNested(none) && Printable(none);
  }

  /** Operators without children are put in behind others, replace them or go, and the stream still loads again. */
  lemma LeafEditsLoad(f: Forest<PdfOperator>, x: PdfOperator, leaf: PdfOperator)
    requires LoadsAgain(f) && x in Flat(f) && Kids(f, x) == Empty && !x.content.Composite?
    requires IsNoEnd(x.content) && IsNoEnd(leaf.content) && IsMade(leaf.content)
    ensures LoadsAgain(InsertAfter(f, x, Single(leaf, Empty)))
    ensures LoadsAgain(Splice(f, x, Single(leaf, Empty)))
    ensures LoadsAgain(Remove(f, x))
  {
    MemberIsMade(f, x);
    hide Canonical, PrintableLabel, IsNoEnd;
    var g := Single(leaf, Empty);
    LeafLoads(leaf);
    SpliceLoads(f, x, g);
    SpliceLoads(f, x, Empty);
    SpliceLoads(f, x, Tree(x, Empty, g));
  }

  /** Translations of the matrix and of the text line are what the editor makes of their own text, which is read back
      when their numbers are in range. */
  lemma NumbersLoad(name: string, x: seq<real>)
    requires (name == "cm" && |x| == 6) || (name == "Td" && |x| == 2)
    ensures var l := Simple(name, Reals(x));
      Canonical(l) && IsNoEnd(l) && ((forall i :: 0 <= i < |x| ==> ReadableReal(x[i])) ==> IsMade(l))
  {
    hide FindOp, CreateOperator, Reals, ReadableReal;
    if name == "cm" {
      WithSixNumbers(name, x, []);
    } else {
      WithTwoNumbers(name, x, []);
    }
    if forall i :: 0 <= i < |x| ==> ReadableReal(x[i]) {
      RealsReadable(x, 0);
      assert Reals(x)[0..] == Reals(x);
    }
  }

  lemma {:induction false} RealsReadable(x: seq<real>, n: nat)
    requires n <= |x| && forall i :: 0 <= i < |x| ==> ReadableReal(x[i])
    ensures ReadableItems(Reals(x)[n..])
    decreases |x| - n
  {
    hide ReadableReal, Reals;
    if n < |x| {
      RealsReadable(x, n + 1);
      assert Reals(x)[n..][1..] == Reals(x)[n + 1..];
    }
  }

  /** Loading what was saved gives the operators of the tree back, operands in normal form. */
  ghost predicate SavedLoads(cs: CContentStream)
    reads cs, Elems(cs.forest)
  {
    && LoadsAgain(cs.forest)
    && Makeable(Contents(cs.forest))
    && ParseAll(StreamItems(cs.cstreams)) == (Reloaded(Contents(cs.forest)), End, [])
  }

  lemma SavedIsLoaded(cs: CContentStream, n: nat)
    requires LoadsAgain(cs.forest) && n > 0 && cs.cstreams == Saved(n, ForestText(Contents(cs.forest)))
    ensures SavedLoads(cs)
  {
    hide WellNested, Printable, ParseAll, StreamItems, Makeable, ForestText;
    SaveThenReload(Contents(cs.forest), n);
  }
}
