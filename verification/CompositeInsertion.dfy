/** Inserting a composite with children in front of other operators: the queue the code leaves behind. */
module CompositeInsertion {
  import opened Forests
  import opened PdfOperators
  import opened ContentStream
  import opened LeafEdits
  import Lexer
  import ObjectReader
  import StreamGrammar

  /** An empty q ... Q pair. */
  method NewPair() returns (q: PdfOperator, end: PdfOperator)
    ensures fresh(q) && fresh(end) && WellLinked(Single(q, Single(end, Empty)))
    ensures Flat(Single(q, Single(end, Empty))) == [q, end]
  {
    q := new PdfOperator(Composite("q", "Q"));
    end := new PdfOperator(Simple("Q", []));
    q.children := [end];
    q.next := end;
    end.prev := q;
    PairFlat(q, end);
  }

  lemma PairFlat(q: PdfOperator, end: PdfOperator)
    ensures Flat(Single(q, Single(end, Empty))) == [q, end]
    ensures q.children == [end] && end.children == [] && q.content.Composite? ==> Shaped(Single(q, Single(end, Empty)))
  {
    LeafFlat(end);
    SingleFlat(q, Single(end, Empty));
  }

  /** In every stream, behind every operator that is not the last in the queue, inserting such a pair makes the
      queue disagree with the tree. */
  method InsertPair(cs: CContentStream, op: PdfOperator, q: PdfOperator, end: PdfOperator)
    requires cs.Valid() && cs.writable && cs.cstreams != []
    requires op in Flat(cs.forest) && After(cs.forest, op) != []
    requires WellLinked(Single(q, Single(end, Empty))) && q !in Flat(cs.forest) && end !in Flat(cs.forest)
    modifies cs`operators, cs`forest, cs`cstreams, Elems(cs.forest), q, end
    ensures cs.TreeValid() && !cs.Valid()
  {
    hide After, Kids, Splice, InsertAfter, Shaped, Distinct, Chain;
    RootsInFlat(cs.forest);
    PairFlat(q, end);
    var _ := cs.InsertOperator(op, q, true, Single(end, Empty));
  }

  /** A stream of one operator. */
  method OneOperator() returns (cs: CContentStream, a: PdfOperator)
    ensures fresh(cs) && fresh(a) && cs.Valid() && cs.writable && |cs.cstreams| == 1
    ensures cs.forest == Single(a, Empty)
  {
    cs := new CContentStream([""], true);
    NothingToRead();
    RootsInFlat(cs.forest);
    InHeap(cs.forest);
    a := new PdfOperator(Simple("n", []));
    AloneIsLinked(a);
    LeafFlat(a);
    var _ := cs.InsertOperator(null, a, true, Empty);
  }

  /** A stream of two operators, a first. */
  method TwoOperators() returns (cs: CContentStream, a: PdfOperator)
    ensures fresh(cs) && fresh(Elems(cs.forest)) && cs.Valid() && cs.writable && cs.cstreams != []
    ensures a in Flat(cs.forest) && After(cs.forest, a) != []
  {
    cs, a := OneOperator();
    LeafFlat(a);
    var b := new PdfOperator(Simple("n", []));
    AloneIsLinked(b);
    LeafBehind(a, b);
    hide *;
    InsertLeaf(cs, a, b);
  }

  lemma LeafBehind<T>(a: T, b: T)
    ensures var f := InsertAfter(Single(a, Empty), a, Single(b, Empty)); a in Flat(f) && After(f, a) != []
  {
    var g := Tree(a, Empty, Single(b, Empty));
    ConcatEmpty(g);
    assert InsertAfter(Single(a, Empty), a, Single(b, Empty)) == g;
    LeafFlat(b);
    assert Flat(g) == [a] + [] + [b];
  }

  /** Such a stream can be had with three insertions into an empty one. */
  method BrokenQueue() returns (cs: CContentStream)
    ensures fresh(cs) && cs.TreeValid() && !cs.Valid()
  {
    var a;
    cs, a := TwoOperators();
    ElemsAreFlat(cs.forest);
    hide *;
    InHeap(cs.forest);
    var q, end := NewPair();
    InsertPair(cs, a, q, end);
  }

  lemma NothingToRead()
    ensures StreamGrammar.ParseAll(ObjectReader.StreamItems([""])).0 == Empty
  {
    assert Lexer.Tokens(Lexer.Input("", Lexer.Context([], false))) == [];
    assert [""][1..] == [];
  }
}
