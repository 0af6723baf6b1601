/** Edits that put in single operators without children. */
module LeafEdits {
  import opened Forests
  import opened PdfOperators
  import opened ContentStream
  import ObjectText

  /** Operators other than composites have no children. */
  lemma {:induction false} LeafHasNoKids(f: Forest<PdfOperator>, x: PdfOperator)
    requires Shaped(f) && !x.content.Composite?
    ensures Kids(f, x) == Empty
  {
    match f
    case Empty =>
    case Tree(r, k, s) =>
      LeafHasNoKids(k, x);
      LeafHasNoKids(s, x);
  }

  /** Not in any tree or queue. */
  predicate Alone(op: PdfOperator)
    reads op
  {
    op.children == [] && op.prev == null && op.next == null
  }

  lemma AloneIsLinked(op: PdfOperator)
    requires Alone(op)
    ensures WellLinked(Single(op, Empty))
  {
    assert Flat(Single(op, Empty)) == [op];
  }

  lemma LeafFlat<T>(x: T)
    ensures Flat(Single(x, Empty)) == [x] && Elems(Single(x, Empty)) == {x}
  {
    assert Flat(Single(x, Empty)) == [x];
  }

  lemma ElemsAreFlat(f: Forest<PdfOperator>)
    ensures forall o: PdfOperator :: o in Elems(f) <==> o in Flat(f)
  {
  }

  /** The operators of f with x put in, and perhaps one taken out. */
  lemma LeafMembers<T>(f: Forest<T>, op: T, x: T)
    requires op in Flat(f) && Distinct(Flat(f)) && x !in Flat(f)
    ensures Elems(InsertAfter(f, op, Single(x, Empty))) == Elems(f) + {x}
    ensures Kids(f, op) == Empty ==> Elems(Splice(f, op, Single(x, Empty))) == Elems(f) - {op} + {x}
  {
    hide Splice, InsertAfter, Kids, Before, After, Flat;
    var g := Single(x, Empty);
    LeafFlat(x);
    InsertFlat(f, op, g);
    SpliceDistinct(f, op, g) by { SubtreeIsSegment(f, op); }
    LeafFlat(op);
  }

  /** insertOperator with a new operator without children. */
  method InsertLeaf(cs: CContentStream, op: PdfOperator, leaf: PdfOperator)
    requires cs.Valid() && cs.writable && cs.cstreams != [] && op in Elems(cs.forest)
    requires leaf !in Elems(cs.forest) && WellLinked(Single(leaf, Empty)) && !leaf.content.Composite?
    modifies cs`operators, cs`forest, cs`cstreams, Elems(cs.forest), leaf
    ensures cs.Valid() && cs.forest == InsertAfter(old(cs.forest), op, Single(leaf, Empty))
    ensures Elems(cs.forest) == old(Elems(cs.forest)) + {leaf}
    ensures Kids(cs.forest, leaf) == Empty
    ensures |cs.cstreams| == old(|cs.cstreams|)
    ensures cs.cstreams == Saved(old(|cs.cstreams|), ObjectText.ForestText(Contents(cs.forest)))
  {
    hide Splice, InsertAfter, Kids, Before, After, Flat, Single;
    ghost var f := cs.forest;
    LeafFlat(leaf);
    LeafMembers(f, op, leaf);
    RootsInFlat(f);
    var _ := cs.InsertOperator(op, leaf, true, Empty);
    LeafHasNoKids(cs.forest, leaf);
  }

  /** replaceOperator of an operator without children by another. */
  method ReplaceLeaf(cs: CContentStream, op: PdfOperator, leaf: PdfOperator, indicateChange: bool)
    requires cs.Valid() && cs.writable && cs.cstreams != [] && op in Elems(cs.forest) && !op.content.Composite?
    requires leaf !in Elems(cs.forest) && WellLinked(Single(leaf, Empty)) && !leaf.content.Composite?
    modifies cs`operators, cs`forest, cs`cstreams, Elems(cs.forest), leaf
    ensures cs.Valid() && cs.forest == Splice(old(cs.forest), op, Single(leaf, Empty))
    ensures Elems(cs.forest) == old(Elems(cs.forest)) - {op} + {leaf}
    ensures Kids(cs.forest, leaf) == Empty && WellLinked(Single(op, Empty))
    ensures |cs.cstreams| == old(|cs.cstreams|)
  {
    hide Splice, InsertAfter, Kids, Before, After, Flat, Single;
    ghost var f := cs.forest;
    LeafFlat(leaf);
    LeafHasNoKids(f, op);
    LeafMembers(f, op, leaf);
    RootsInFlat(f);
    var _ := cs.ReplaceOperator(op, leaf, indicateChange, Empty);
    LeafHasNoKids(cs.forest, leaf);
  }
}
