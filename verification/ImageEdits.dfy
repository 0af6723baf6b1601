/** The image editor at work on a linked content stream: the edit made when an image has been dragged. */
module ImageEdits {
  import opened Options
  import opened Forests
  import opened PdfOperators
  import opened Graphics
  import opened ImageDrag
  import opened MatrixScan
  import opened EditLaws
  import opened LeafEdits
  import opened ContentStream
  import opened ObjectText
  import StreamParser
  import opened PdfObjects
  import opened OperatorTable
  import opened TokenText
  import opened StreamGrammar
  import opened StreamRoundTrip
  import opened SavedEdits

  // ------------------------------------------------------------------------------------------
  // Dragging
  // ------------------------------------------------------------------------------------------

  /** The three operators that take the place of the image. */
  function Around<T>(nw: T, img: T, prev: T): Forest<T> {
    Tree(nw, Empty, Tree(img, Empty, Single(prev, Empty)))
  }

  /** Replacing the image, putting it behind the replacement, and the other translation behind it. */
  lemma ThreeEdits<T>(f: Forest<T>, img: T, nw: T, prev: T)
    requires Distinct(Flat(f)) && img in Flat(f) && nw !in Flat(f) && nw != img
    ensures var f1 := Splice(f, img, Single(nw, Empty));
      Kids(f1, nw) == Empty ==>
      var f2 := InsertAfter(f1, nw, Single(img, Empty));
      && f2 == Splice(f, img, Tree(nw, Empty, Single(img, Empty)))
      && (Kids(f2, img) == Empty ==> InsertAfter(f2, img, Single(prev, Empty)) == Splice(f, img, Around(nw, img, prev)))
  {
    var f1, g1 := Splice(f, img, Single(nw, Empty)), Single(nw, Empty);
    if Kids(f1, nw) == Empty {
      var g2 := Tree(nw, Empty, Single(img, Empty));
      assert Flat(g1) == [nw] && Flat(g2) == [nw, img];
      SpliceInside(f, img, g1, nw, g2);
      assert Splice(g1, nw, g2) == Concat(g2, Empty);
      ConcatEmpty(g2);
      var h := Tree(img, Empty, Single(prev, Empty));
      SpliceInside(f, img, g2, img, h);
      assert Splice(g2, img, h) == Tree(nw, Empty, Concat(h, Empty));
      ConcatEmpty(h);
    }
  }

  lemma AroundFlat(f: Forest<PdfOperator>, img: PdfOperator, nw: PdfOperator, prev: PdfOperator)
    requires img in Flat(f)
    ensures Labels(Flat(Splice(f, img, Around(nw, img, prev))))
         == Labels(Before(f, img)) + [nw.content, img.content, prev.content] + Labels(After(f, img))
  {
    var g := Around(nw, img, prev);
    assert Flat(g) == [nw] + [] + ([img] + [] + Flat(Single(prev, Empty))) == [nw, img, prev];
    assert Labels([nw, img, prev]) == [nw.content, img.content, prev.content];
    SpliceFlat(f, img, g);
    LabelsConcat(Before(f, img) + [nw, img, prev], After(f, img));
    LabelsConcat(Before(f, img), [nw, img, prev]);
  }

  lemma NoRepetition(cs: CContentStream)
    requires cs.Valid()
    ensures Distinct(Flat(cs.forest))
  {
    hide Distinct, Flat;
  }

  /** The three edits of the image drag. */
  method PutAround(cs: CContentStream, img: PdfOperator, nw: PdfOperator, prev: PdfOperator)
    requires cs.Valid() && cs.writable && cs.operators != [] && cs.cstreams != []
    requires img in Flat(cs.forest) && img.content.InlineImage?
    requires nw !in Flat(cs.forest) && prev !in Flat(cs.forest) && nw != prev
    requires nw.content.Simple? && prev.content.Simple?
    requires Alone(nw) && Alone(prev)
    modifies cs`operators, cs`forest, cs`cstreams, Elems(cs.forest), nw, prev
    ensures cs.Valid()
    ensures cs.forest == Splice(old(cs.forest), img, Around(nw, img, prev))
    ensures cs.cstreams == Saved(old(|cs.cstreams|), ForestText(Contents(cs.forest)))
  {
    hide *;
    ghost var f := cs.forest;
    ElemsAreFlat(f);
    NoRepetition(cs);
    ThreeEdits(f, img, nw, prev);
    AloneIsLinked(nw);
    ReplaceLeaf(cs, img, nw, true);
    InsertLeaf(cs, nw, img);
    AloneIsLinked(prev);
    InsertLeaf(cs, img, prev);
  }

  lemma Position(f: Forest<PdfOperator>, img: PdfOperator) returns (k: nat)
    requires img in Flat(f)
    ensures k < |Flat(f)| && Flat(f)[k] == img
    ensures Labels(Flat(f)[..k + 1]) == Labels(Before(f, img)) + [img.content]
  {
    SubtreeIsSegment(f, img);
    k := |Before(f, img)|;
    LabelsConcat(Before(f, img), [img]);
    assert Labels([img]) == [img.content];
    assert Flat(f)[..k + 1] == Before(f, img) + [img];
  }

  lemma ImageRunsThrough(ops: seq<Label>, image: Label, s: GState)
    requires image.InlineImage?
    ensures Run(s, ops + [image]) == Run(s, ops)
    ensures NoStray(ops + [image]) <==> NoStray(ops)
  {
    var more := ops + [image];
    assert more[..|more| - 1] == ops;
    RunStep(s, more);
    ImageStep(Run(s, ops), image);
    StrayStep(more);
  }

  /** Every transformation in the forest has its six numbers. */
  ghost predicate CmsComplete(f: Forest<PdfOperator>) {
    forall i :: 0 <= i < |Flat(f)| && Flat(f)[i].content.OperatorName() == "cm" ==> IsCm(Flat(f)[i].content)
  }

  /** The matrix current at an image of a content stream. */
  method ImageMatrix(cs: CContentStream, img: PdfOperator, initial: Matrix)
    returns (act: Matrix, res: Option<Matrix>)
    requires cs.Valid() && img in Flat(cs.forest) && img.content.InlineImage? && CmsComplete(cs.forest)
    ensures res == Inverted(act)
    ensures NoStray(Labels(Before(cs.forest, img))) ==>
              act == Run(GState(initial, []), Labels(Before(cs.forest, img))).ctm
  {
    hide Before, Flat, Inverted, Run, NoStray;
    ghost var f := cs.forest;
    ghost var k := Position(f, img);
    act, res := GetInvertMatrix(img, initial, Flat(f), k);
    ImageRunsThrough(Labels(Before(f, img)), img.content, GState(initial, []));
  }

  /** The operators around an image. */
  lemma AroundImage(f: Forest<PdfOperator>, img: PdfOperator)
    requires img in Flat(f) && Kids(f, img) == Empty
    ensures Flat(Contents(f)) == Labels(Before(f, img)) + [img.content] + Labels(After(f, img))
  {
    LeafFlat(img);
    InsertFlat(f, img, Empty);
    hide *;
    LabelsOfFlat(f);
    LabelsConcat(Before(f, img) + [img], After(f, img));
    LabelsConcat(Before(f, img), [img]);
    OneLabel(img);
  }

  lemma OneLabel(op: PdfOperator)
    ensures Labels([op]) == [op.content]
  {
  }

  /** The numbers of both translations can be read back. */
  predicate ReadableVector(v: Vector) {
    ReadableReal(v.x) && ReadableReal(v.y) && ReadableReal(-v.x) && ReadableReal(-v.y)
  }

  lemma TranslationLoads(v: Vector)
    ensures Canonical(TranslationOp(v)) && IsNoEnd(TranslationOp(v))
    ensures ReadableReal(v.x) && ReadableReal(v.y) ==> IsMade(TranslationOp(v))
  {
    var x := [1.0, 0.0, 0.0, 1.0, v.x, v.y];
    assert Reals(x) == [Real(1.0), Real(0.0), Real(0.0), Real(1.0), Real(v.x), Real(v.y)];
    ZeroAndOne();
    hide *;
    NumbersLoad("cm", x);
  }

  lemma ZeroAndOne()
    ensures ReadableReal(0.0) && ReadableReal(1.0)
  {
    assert Hundredthousandths(1.0) == 100000;
  }

  /** With the image between two translations the stream still loads again. */
  lemma AroundLoads(f: Forest<PdfOperator>, img: PdfOperator, nw: PdfOperator, prev: PdfOperator, v: Vector)
    requires LoadsAgain(f) && img in Flat(f) && img.content.InlineImage? && ReadableVector(v)
    requires nw.content == TranslationOp(v) && prev.content == TranslationOp(Opposite(v))
    ensures LoadsAgain(Splice(f, img, Around(nw, img, prev)))
  {
    BothReadable(v);
    TranslationLoads(v);
    TranslationLoads(Opposite(v));
    MemberIsMade(f, img);
    var g := Around(nw, img, prev);
    hide *;
    ImageIsMade(img);
    AroundRoots(nw, img, prev);
    LeafLoads(nw);
    LeafLoads(img);
    LeafLoads(prev);
    ConcatLoads(Single(img, Empty), Single(prev, Empty));
    ConcatLoads(Single(nw, Empty), Concat(Single(img, Empty), Single(prev, Empty)));
    SpliceLoads(f, img, g);
  }

  lemma AroundRoots(nw: PdfOperator, img: PdfOperator, prev: PdfOperator)
    ensures Concat(Single(nw, Empty), Concat(Single(img, Empty), Single(prev, Empty))) == Around(nw, img, prev)
    ensures IsNoEnd(nw.content) && IsNoEnd(img.content) && IsNoEnd(prev.content) ==>
              RootsAreNoEnds(Around(nw, img, prev))
  {
    hide IsNoEnd;
    var last := Single(prev, Empty);
    var both := Tree(img, Empty, last);
    assert RootsAreNoEnds(Empty);
    assert IsNoEnd(prev.content) ==> RootsAreNoEnds(last);
    assert Concat(Single(img, Empty), last) == both;
    assert Concat(Single(nw, Empty), both) == Around(nw, img, prev);
  }

  lemma ImageIsMade(img: PdfOperator)
    requires img.content.InlineImage?
    ensures Canonical(img.content) && PrintableLabel(img.content) ==> IsMade(img.content)
    ensures IsNoEnd(img.content)
  {
    hide PrintableLabel;
  }

  lemma BothReadable(v: Vector)
    requires ReadableVector(v)
    ensures ReadableReal(v.x) && ReadableReal(v.y) && ReadableReal(Opposite(v).x) && ReadableReal(Opposite(v).y)
  {
  }

  /** Whether the pointer went less than two pixels in both directions. */
  predicate HardlyMoved(mouse: (int, int), point: (int, int)) {
    -2 < mouse.0 - point.0 < 2 && -2 < mouse.1 - point.1 < 2
  }

  lemma Unflipped(y: int, z: int)
    ensures (z - y) as real == -((y - z) as real)
  {
  }

  lemma DragIsSeen(f: Forest<PdfOperator>, img: PdfOperator, initial: Matrix, act: Matrix, dx: real, dy: real,
                   quarter: nat)
    requires img.content.InlineImage? && Inverted(act).Some?
    requires NoStray(Labels(Before(f, img))) ==> act == Run(GState(initial, []), Labels(Before(f, img))).ctm
    ensures quarter % 4 == 0 && InLimits(initial) && NoStray(Labels(Before(f, img))) ==>
              OnlyImageMoves(Labels(Before(f, img)), img.content, Labels(After(f, img)), GState(initial, []),
                             Displacement(dx, -dy, act, quarter), Vector(dx, dy))
  {
    hide *;
    if quarter % 4 == 0 && InLimits(initial) && NoStray(Labels(Before(f, img))) {
      DragMovesTheImage(Labels(Before(f, img)), img.content, Labels(After(f, img)), initial, dx, dy, quarter);
    }
  }

  lemma HardlyMovedIs(mouse: (int, int), point: (int, int))
    ensures !HardlyMoved(mouse, point) <==> || point.0 - mouse.0 >= 2 || mouse.0 - point.0 >= 2
                                            || point.1 - mouse.1 >= 2 || mouse.1 - point.1 >= 2
  {
  }

  /** The image-selected branch of mouseReleased: the pointer went from mouse to point on a page shown in
      the given rotation. Nothing happens on a read-only document or when the pointer hardly moved; a
      singular matrix has no inverse. v is the displacement in user space. */
  method DragImage(cs: CContentStream, img: PdfOperator, mouse: (int, int), point: (int, int), initial: Matrix,
                   quarter: nat) returns (moved: bool, act: Matrix, v: Vector)
    requires cs.Valid() && cs.cstreams != [] && img in Flat(cs.forest) && img.content.InlineImage?
    requires CmsComplete(cs.forest)
    modifies cs`operators, cs`forest, cs`cstreams, Elems(cs.forest)
    ensures cs.Valid()
    ensures !moved ==> cs.forest == old(cs.forest) && cs.cstreams == old(cs.cstreams)
    ensures moved <==> && old(cs.writable) && Determinant(act) != 0.0
                       && (|| point.0 - mouse.0 >= 2 || mouse.0 - point.0 >= 2
                           || point.1 - mouse.1 >= 2 || mouse.1 - point.1 >= 2)
    ensures NoStray(Labels(Before(old(cs.forest), img))) ==>
              act == Run(GState(initial, []), Labels(Before(old(cs.forest), img))).ctm
    ensures moved ==> Inverted(act).Some?
    ensures moved ==> v == Displacement((point.0 - mouse.0) as real, (mouse.1 - point.1) as real, act, quarter)
    ensures moved ==>
              Flat(Contents(cs.forest)) == Labels(Before(old(cs.forest), img))
                                           + [TranslationOp(v), img.content, TranslationOp(Opposite(v))]
                                           + Labels(After(old(cs.forest), img))
    ensures moved ==> cs.cstreams == Saved(old(|cs.cstreams|), ForestText(Contents(cs.forest)))
    ensures moved ==>
              var f := old(cs.forest);
              Flat(Contents(f)) == Labels(Before(f, img)) + [img.content] + Labels(After(f, img))
    ensures moved && LoadsAgain(old(cs.forest)) && ReadableVector(v) ==> SavedLoads(cs)
    ensures moved && quarter % 4 == 0 && InLimits(initial) && NoStray(Labels(Before(old(cs.forest), img))) ==>
              OnlyImageMoves(Labels(Before(old(cs.forest), img)), img.content, Labels(After(old(cs.forest), img)),
                             GState(initial, []), v,
                             Vector((point.0 - mouse.0) as real, (point.1 - mouse.1) as real))
  {
    hide Splice, InsertAfter, Kids, Before, After, Flat, Single, Inverted, Displacement, Run, NoStray, TranslationOp,
         Shaped, CmsComplete, OnlyImageMoves, InLimits, LoadsAgain, ReadableVector, SavedLoads, Determinant,
         HardlyMoved;
    v := Vector(0.0, 0.0);
    InHeap(cs.forest);
    label before:
    var res;
    act, res := ImageMatrix(cs, img, initial);
    InvertedIffRegular(act);
    StreamParser.StaysWellLinked@before(cs.forest);
    HardlyMovedIs(mouse, point);
    if !cs.writable || HardlyMoved(mouse, point) || res == None {
      return false, act, v;
    }
    v := Displacement((point.0 - mouse.0) as real, (mouse.1 - point.1) as real, act, quarter);
    LeafHasNoKids(cs.forest, img);
    AroundImage(cs.forest, img);
    Unflipped(point.1, mouse.1);
    DragIsSeen(cs.forest, img, initial, act, (point.0 - mouse.0) as real, (point.1 - mouse.1) as real, quarter);
    TranslateImage(cs, img, v);
    moved := true;
  }

  /** Puts the image between a translation and its opposite. */
  method TranslateImage(cs: CContentStream, img: PdfOperator, v: Vector)
    requires cs.Valid() && cs.writable && cs.cstreams != []
    requires img in Flat(cs.forest) && img.content.InlineImage?
    modifies cs`operators, cs`forest, cs`cstreams, Elems(cs.forest)
    ensures cs.Valid() && Flat(Contents(cs.forest)) ==
                            Labels(Before(old(cs.forest), img))
                            + [TranslationOp(v), img.content, TranslationOp(Opposite(v))]
                            + Labels(After(old(cs.forest), img))
    ensures LoadsAgain(old(cs.forest)) && ReadableVector(v) ==> SavedLoads(cs)
    ensures cs.cstreams == Saved(old(|cs.cstreams|), ForestText(Contents(cs.forest)))
  {
    hide Splice, InsertAfter, Kids, Before, After, Flat, Single, Shaped, Around, LoadsAgain, ReadableVector, SavedLoads;
    ghost var f := cs.forest;
    InHeap(f);
    var nw := new PdfOperator(TranslationOp(v));
    var prev := new PdfOperator(TranslationOp(Opposite(v)));
    RootsInFlat(f);
    AroundFlat(f, img, nw, prev);
    PutAround(cs, img, nw, prev);
    LabelsOfFlat(cs.forest);
    if LoadsAgain(f) && ReadableVector(v) {
      AroundLoads(f, img, nw, prev, v);
      SavedIsLoaded(cs, |cs.cstreams|);
    }
  }
}
