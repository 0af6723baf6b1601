/** Erasing selected text: the translations put around what is kept leave the text line matrix of every other
    operator as it was. */
module TextErase {
  import opened Forests
  import opened PdfObjects
  import opened PdfOperators
  import opened ContentStream
  import opened LeafEdits
  import opened Graphics
  import opened ObjectText
  import opened OperatorTable
  import opened TokenText
  import opened StreamGrammar
  import opened StreamRoundTrip
  import opened SavedEdits
  import opened ImageEdits
  import opened MatrixScan

  /** The text line matrix, and the leading, which is part of the graphics state, with its saved values (sections
      9.4.2, 9.3.5 and 8.4.2 of ISO 32000-1). */
  datatype TextState = TextState(line: Matrix, leading: real, saved: seq<real>)

  function Translated(x: real, y: real, m: Matrix): Matrix {
    Product(Matrix(1.0, 0.0, 0.0, 1.0, x, y), m)
  }

  function TextStep(s: TextState, l: Label): TextState {
    if IsSave(l) then s.(saved := [s.leading] + s.saved)
    else if IsRestore(l) then if s.saved == [] then s else s.(leading := s.saved[0], saved := s.saved[1..])
    else if !l.Simple? then if l.OperatorName() == "BT" then s.(line := IDENTITY) else s
    else
      var o := l.operands;
      if l.name == "Td" && |o| == 2 then s.(line := Translated(NumberOf(o[0]), NumberOf(o[1]), s.line))
      else if l.name == "TD" && |o| == 2 then
        s.(line := Translated(NumberOf(o[0]), NumberOf(o[1]), s.line), leading := -NumberOf(o[1]))
      else if l.name == "Tm" && |o| == 6 then
        s.(line := Matrix(NumberOf(o[0]), NumberOf(o[1]), NumberOf(o[2]),
                          NumberOf(o[3]), NumberOf(o[4]), NumberOf(o[5])))
      else if l.name == "TL" && |o| == 1 then s.(leading := NumberOf(o[0]))
      else if l.name in {"T*", "'", "\""} then s.(line := Translated(0.0, -s.leading, s.line))
      else s
  }

  function TextRun(s: TextState, ls: seq<Label>): TextState
    decreases |ls|
  {
    if ls == [] then s else TextRun(TextStep(s, ls[0]), ls[1..])
  }

  lemma {:induction false} TextRunConcat(s: TextState, a: seq<Label>, b: seq<Label>)
    ensures TextRun(s, a + b) == TextRun(TextRun(s, a), b)
    decreases |a|
  {
    hide TextStep;
    if a == [] {
      assert a + b == b;
    } else {
      assert (a + b)[1..] == a[1..] + b;
      TextRunConcat(TextStep(s, a[0]), a[1..], b);
    }
  }

  /** Shows text without moving to a new line. */
  predicate Shows(l: Label) {
    l.Simple? && (l.name == "Tj" || l.name == "TJ")
  }

  /** createTranslationTd along the line. */
  function TdOp(x: real): Label {
    Simple("Td", [Real(x), Real(0.0)])
  }

  lemma TdMoves(s: TextState, x: real)
    ensures TextStep(s, TdOp(x)) == s.(line := Translated(x, 0.0, s.line))
  {
  }

  lemma BackAndForth(m: Matrix, x: real)
    ensures Translated(-x, 0.0, Translated(x, 0.0, m)) == m
  {
    var t := Translated(x, 0.0, m);
    assert t.a == m.a && t.b == m.b && t.c == m.c && t.d == m.d;
    assert t.e == x * m.a + m.e && t.f == x * m.b + m.f;
    Negated(x, m.a);
    Negated(x, m.b);
    var u := Translated(-x, 0.0, t);
    assert u.a == m.a && u.b == m.b && u.c == m.c && u.d == m.d;
    assert u.e == -x * m.a + t.e;
    assert u.f == -x * m.b + t.f;
  }

  lemma Negated(x: real, a: real)
    ensures -x * a == -(x * a)
  {
  }

  /** Text shown between a translation and its opposite. */
  function Shifted(kept: Label, x: real): seq<Label> {
    [TdOp(x), kept, TdOp(-x)]
  }

  lemma ShowsNothing(s: TextState, l: Label)
    requires Shows(l)
    ensures TextStep(s, l) == s
  {
  }

  lemma ShiftedIsNeutral(s: TextState, kept: Label, x: real)
    requires Shows(kept)
    ensures TextRun(s, Shifted(kept, x)) == s && TextRun(s, [kept]) == s
  {
    hide TextStep, TdOp, Translated;
    TdMoves(s, x);
    ShowsNothing(TextStep(s, TdOp(x)), kept);
    ShowsNothing(s, kept);
    TdMoves(TextStep(s, TdOp(x)), -x);
    BackAndForth(s.line, x);
    ThreeSteps(s, TdOp(x), kept, TdOp(-x));
    ThreeSteps(s, kept, kept, kept);
  }

  lemma ThreeSteps(s: TextState, a: Label, b: Label, c: Label)
    ensures TextRun(s, [a, b, c]) == TextStep(TextStep(TextStep(s, a), b), c)
    ensures TextRun(s, [a]) == TextStep(s, a)
  {
    hide TextStep;
    assert [a, b, c][1..] == [b, c] && [b, c][1..] == [c] && [c][1..] == [] && [a][1..] == [];
    assert TextRun(TextStep(s, a), [b, c]) == TextRun(TextStep(TextStep(s, a), b), [c]);
  }

  // ------------------------------------------------------------------------------------------
  // Positions in the queue
  // ------------------------------------------------------------------------------------------

  /** The text state in which the operator o of the queue q runs. */
  function TextAt(s: TextState, q: seq<PdfOperator>, o: PdfOperator): TextState {
    TextRun(s, Labels(q[..IndexOf(q, o)]))
  }

  lemma IndexIs(q: seq<PdfOperator>, a: seq<PdfOperator>, b: seq<PdfOperator>, o: PdfOperator)
    requires q == a + [o] + b && o !in a
    ensures IndexOf(q, o) == |a| && q[..|a|] == a
  {
    assert q[|a|] == o;
    assert forall i :: 0 <= i < |a| ==> q[i] == a[i];
  }

  lemma SplitAt(q: seq<PdfOperator>, o: PdfOperator) returns (x: seq<PdfOperator>, y: seq<PdfOperator>)
    requires o in q
    ensures q == x + [o] + y && o !in x
  {
    var i := IndexOf(q, o);
    x, y := q[..i], q[i + 1..];
  }

  lemma RunsBefore(s: TextState, q: seq<PdfOperator>, x: seq<PdfOperator>, y: seq<PdfOperator>, o: PdfOperator)
    requires q == x + [o] + y && o !in x
    ensures TextAt(s, q, o) == TextRun(s, Labels(x))
  {
    IndexIs(q, x, y, o);
  }

  lemma InFront(s: TextState, a: seq<PdfOperator>, rest: seq<PdfOperator>, o: PdfOperator)
    requires o in a
    ensures TextAt(s, a + rest, o) == TextAt(s, a, o)
  {
    hide TextAt;
    var x, y := SplitAt(a, o);
    RunsBefore(s, a, x, y, o);
    assert a + rest == x + [o] + (y + rest);
    RunsBefore(s, a + rest, x, y + rest, o);
  }

  lemma Behind(s: TextState, a: seq<PdfOperator>, b: seq<PdfOperator>, o: PdfOperator)
    requires o in b && o !in a
    ensures TextAt(s, a + b, o) == TextAt(TextRun(s, Labels(a)), b, o)
  {
    hide TextAt, Labels, TextRun;
    var x, y := SplitAt(b, o);
    assert a + b == (a + x) + [o] + y;
    RunsBefore(s, a + b, a + x, y, o);
    RunsBefore(TextRun(s, Labels(a)), b, x, y, o);
    LabelsConcat(a, x);
    TextRunConcat(s, Labels(a), Labels(x));
  }

  /** Operators outside a segment run in the same state when it is replaced by one of the same effect. */
  lemma SameEffect(s: TextState, a: seq<PdfOperator>, m: seq<PdfOperator>, n: seq<PdfOperator>,
                   b: seq<PdfOperator>, o: PdfOperator)
    requires o in a || (o in b && o !in a + m && o !in a + n)
    requires TextRun(TextRun(s, Labels(a)), Labels(m)) == TextRun(TextRun(s, Labels(a)), Labels(n))
    ensures TextAt(s, a + m + b, o) == TextAt(s, a + n + b, o)
  {
    hide TextRun, Labels, TextAt;
    if o in a {
      assert a + m + b == a + (m + b) && a + n + b == a + (n + b);
      InFront(s, a, m + b, o);
      InFront(s, a, n + b, o);
    } else {
      LabelsConcat(a, m);
      LabelsConcat(a, n);
      TextRunConcat(s, Labels(a), Labels(m));
      TextRunConcat(s, Labels(a), Labels(n));
      Behind(s, a + m, b, o);
      Behind(s, a + n, b, o);
    }
  }

  // ------------------------------------------------------------------------------------------
  // The edits, in the queue
  // ------------------------------------------------------------------------------------------

  lemma OneSplit(a: seq<PdfOperator>, b: seq<PdfOperator>, c: seq<PdfOperator>, d: seq<PdfOperator>, o: PdfOperator)
    requires a + [o] + b == c + [o] + d && o !in a && o !in c
    ensures a == c && b == d
  {
    IndexIs(a + [o] + b, a, b, o);
    IndexIs(c + [o] + d, c, d, o);
    assert b == (a + [o] + b)[|a| + 1..] && d == (c + [o] + d)[|c| + 1..];
  }

  /** Inserting, replacing and removing operators without children, in preorder. */
  lemma LeafEdited(f: Forest<PdfOperator>, op: PdfOperator, a: seq<PdfOperator>, b: seq<PdfOperator>,
                   leaf: PdfOperator)
    requires Distinct(Flat(f)) && Flat(f) == a + [op] + b && Kids(f, op) == Empty
    ensures op in Flat(f)
    ensures Flat(InsertAfter(f, op, Single(leaf, Empty))) == a + [op] + [leaf] + b
    ensures Flat(Splice(f, op, Single(leaf, Empty))) == a + [leaf] + b
    ensures Flat(Remove(f, op)) == a + b
  {
    LeafFlat(op);
    LeafFlat(leaf);
    hide Flat, Splice, InsertAfter, Before, After, Kids, Single;
    assert (a + [op] + b)[|a|] == op;
    DistinctConcat(a + [op], b);
    DistinctConcat(a, [op]);
    InsertFlat(f, op, Single(leaf, Empty));
    RemoveFlat(f, op);
    SubtreeIsSegment(f, op);
    SpliceDistinct(f, op, Empty);
    OneSplit(a, b, Before(f, op), After(f, op), op);
  }

  lemma NewIsOutside(f: Forest<PdfOperator>)
    ensures forall o: PdfOperator :: o in Elems(f) ==> allocated(o)
  {
    InHeap(f);
  }

  /** eraseSelectedText inside one operator, with text kept behind the selection: op keeps the text in front
      of it, a clone the text behind it. The texts themselves are cut in place and are not modelled. */
  method EraseInOne(cs: CContentStream, op: PdfOperator, dist: real, ghost s: TextState)
    returns (kept: seq<PdfOperator>)
    requires cs.Valid() && cs.writable && cs.cstreams != [] && op in Elems(cs.forest) && Shows(op.content)
    modifies cs`operators, cs`forest, cs`cstreams, Elems(cs.forest)
    ensures cs.Valid() && Labels(kept) == Shifted(op.content, dist)
    ensures Flat(cs.forest) == PutAfter(old(Flat(cs.forest)), op, kept)
    ensures Elems(cs.forest) == old(Elems(cs.forest)) + Members(kept)
    ensures KeepsText(s, old(Flat(cs.forest)), Flat(cs.forest), {})
    ensures TextAt(s, Flat(cs.forest), kept[1]).line ==
            Translated(dist, 0.0, TextAt(s, old(Flat(cs.forest)), op).line)
    ensures cs.cstreams == Saved(old(|cs.cstreams|), ForestText(Contents(cs.forest)))
    ensures LoadsAgain(old(cs.forest)) && ReadableShift(dist) ==> SavedLoads(cs)
  {
    hide Flat, Shaped, Labels, TextRun, TextAt, KeepsText, Elems, Members, PutAfter, Translated, Shifted, LoadsAgain,
         ReadableShift, SavedLoads;
    ElemsAreFlat(cs.forest);
    ghost var q := Flat(cs.forest);
    ghost var a, b := SplitAt(q, op);
    kept := PutBehind(cs, op, dist, a, b);
    ReadyToLoad(cs, |cs.cstreams|);
    ShiftedBehindKeeps(s, a, op, kept, b, dist, cs.forest);
    PutsAfter(q, a, op, kept, b);
    KeptRunsShifted(s, a + [op], kept, b, op.content, dist);
    RunsBefore(s, q, a, b, op);
    ShowsBehind(s, a, op);
    NoRepetition(cs);
  }

  lemma ReadyToLoad(cs: CContentStream, n: nat)
    requires n > 0 && cs.cstreams == Saved(n, ForestText(Contents(cs.forest)))
    ensures LoadsAgain(cs.forest) ==> SavedLoads(cs)
  {
    hide *;
    if LoadsAgain(cs.forest) {
      SavedIsLoaded(cs, n);
    }
  }

  /** The operators of q, those of kept coming right behind op. */
  function PutAfter(q: seq<PdfOperator>, op: PdfOperator, kept: seq<PdfOperator>): seq<PdfOperator> {
    var i := IndexOf(q, op);
    if i < |q| then q[..i + 1] + kept + q[i + 1..] else q
  }

  /** The operators of q, those of kept in the place of op. */
  function PutFor(q: seq<PdfOperator>, op: PdfOperator, kept: seq<PdfOperator>): seq<PdfOperator> {
    var i := IndexOf(q, op);
    if i < |q| then q[..i] + kept + q[i + 1..] else q
  }

  lemma PutsAfter(q: seq<PdfOperator>, a: seq<PdfOperator>, op: PdfOperator, kept: seq<PdfOperator>,
                  b: seq<PdfOperator>)
    requires q == a + [op] + b && op !in a
    ensures PutAfter(q, op, kept) == a + [op] + kept + b
    ensures PutFor(q, op, kept) == a + kept + b
  {
    IndexIs(q, a, b, op);
    assert q[..|a| + 1] == a + [op] && q[|a| + 1..] == b;
  }

  lemma ShowsBehind(s: TextState, a: seq<PdfOperator>, op: PdfOperator)
    requires Shows(op.content)
    ensures TextRun(s, Labels(a + [op])) == TextRun(s, Labels(a))
  {
    hide Shows, Labels, TextRun;
    LabelsConcat(a, [op]);
    TextRunConcat(s, Labels(a), Labels([op]));
    ShowsRun(TextRun(s, Labels(a)), op);
  }

  /** The kept text is shown that much further along the line. */
  lemma KeptRunsShifted(s: TextState, a: seq<PdfOperator>, kept: seq<PdfOperator>, b: seq<PdfOperator>, shown: Label,
                        dist: real)
    requires Labels(kept) == Shifted(shown, dist) && Distinct(a + kept + b)
    ensures |kept| == 3 && TextAt(s, a + kept + b, kept[1]).line
         == Translated(dist, 0.0, TextRun(s, Labels(a)).line)
  {
    assert |Labels(kept)| == 3;
    var x := a + [kept[0]];
    assert kept == [kept[0]] + [kept[1]] + [kept[2]];
    assert a + kept + b == x + [kept[1]] + ([kept[2]] + b);
    DistinctConcat(x + [kept[1]], [kept[2]] + b);
    DistinctConcat(x, [kept[1]]);
    assert kept[1] in [kept[1]];
    RunsBefore(s, a + kept + b, x, [kept[2]] + b, kept[1]);
    LabelsConcat(a, [kept[0]]);
    assert kept[0].content == TdOp(dist) && Labels([kept[0]]) == [TdOp(dist)];
    TextRunConcat(s, Labels(a), [TdOp(dist)]);
    hide TextRun, Labels, Translated, TextAt;
    ThreeSteps(TextRun(s, Labels(a)), TdOp(dist), TdOp(dist), TdOp(dist));
    TdMoves(TextRun(s, Labels(a)), dist);
  }

  method PutBehind(cs: CContentStream, op: PdfOperator, dist: real,
                   ghost a: seq<PdfOperator>, ghost b: seq<PdfOperator>) returns (kept: seq<PdfOperator>)
    requires cs.Valid() && cs.writable && cs.cstreams != []
    requires Flat(cs.forest) == a + [op] + b && Shows(op.content)
    modifies cs`operators, cs`forest, cs`cstreams, Elems(cs.forest)
    ensures cs.Valid() && Flat(cs.forest) == a + [op] + kept + b
    ensures Labels(kept) == Shifted(op.content, dist)
    ensures Elems(cs.forest) == old(Elems(cs.forest)) + Members(kept)
    ensures LoadsAgain(old(cs.forest)) && ReadableShift(dist) ==> LoadsAgain(cs.forest)
    ensures cs.cstreams == Saved(old(|cs.cstreams|), ForestText(Contents(cs.forest)))
  {
    hide *;
    NewIsOutside(cs.forest);
    LeafLabels(op.content, dist);
    if LoadsAgain(cs.forest) && ReadableShift(dist) {
      ShiftedFits(cs.forest, op, dist);
    }
    var optd := NewLeaf(TdOp(-dist));
    InsertBehind(cs, op, optd, a, b);
    var clone := NewLeaf(op.content);
    InsertBehind(cs, op, clone, a, [optd] + b);
    var td := NewLeaf(TdOp(dist));
    InsertBehind(cs, op, td, a, [clone] + ([optd] + b));
    kept := [td, clone, optd];
    ThreeInFront(a + [op], td, clone, optd, b);
    ThreeLabels(td, clone, optd);
    ThreeMembers(td, clone, optd);
  }

  lemma ShiftedBehindKeeps(s: TextState, a: seq<PdfOperator>, op: PdfOperator, kept: seq<PdfOperator>,
                           b: seq<PdfOperator>, dist: real, f: Forest<PdfOperator>)
    requires Distinct(a + [op] + b) && Distinct(Flat(f)) && Flat(f) == a + [op] + kept + b
    requires Shows(op.content) && Labels(kept) == Shifted(op.content, dist)
    ensures KeepsText(s, a + [op] + b, Flat(f), {})
  {
    hide Labels, TextRun, KeepsText, Flat;
    var here := TextRun(s, Labels(a + [op]));
    ShowsRun(here, op);
    ShiftedIsNeutral(here, op.content, dist);
    assert a + [op] + [] + b == a + [op] + b;
    SegmentKeeps(s, a + [op], [], kept, b, {});
  }

  lemma ThreeInFront<T>(a: seq<T>, x: T, y: T, z: T, b: seq<T>)
    ensures a + ([x] + ([y] + ([z] + b))) == a + [x, y, z] + b
  {
  }

  lemma ThreeLabels(x: PdfOperator, y: PdfOperator, z: PdfOperator)
    ensures Labels([x, y, z]) == [x.content, y.content, z.content]
  {
  }

  /** Neither ends a composite, and the editor makes the new one from its own text. */
  predicate FitsIn(op: Label, leaf: Label) {
    IsNoEnd(op) && IsNoEnd(leaf) && IsMade(leaf)
  }

  lemma FittingLoads(f: Forest<PdfOperator>, op: PdfOperator, leaf: PdfOperator)
    requires op in Flat(f) && Kids(f, op) == Empty && !op.content.Composite?
    ensures LoadsAgain(f) && FitsIn(op.content, leaf.content) ==>
              && LoadsAgain(InsertAfter(f, op, Single(leaf, Empty)))
              && LoadsAgain(Splice(f, op, Single(leaf, Empty)))
  {
    hide *;
    if LoadsAgain(f) && FitsIn(op.content, leaf.content) {
      FitsInBoth(op.content, leaf.content);
      LeafEditsLoad(f, op, leaf);
    }
  }

  lemma FitsInBoth(op: Label, leaf: Label)
    ensures FitsIn(op, leaf) <==> IsNoEnd(op) && IsNoEnd(leaf) && IsMade(leaf)
  {
    hide IsNoEnd, IsMade;
  }

  /** The numbers of both translations can be read back. */
  predicate ReadableShift(x: real) {
    ReadableReal(x) && ReadableReal(-x) && ReadableReal(0.0)
  }

  lemma ShiftLoads(x: real)
    ensures Canonical(TdOp(x)) && IsNoEnd(TdOp(x))
    ensures ReadableShift(x) ==> IsMade(TdOp(x)) && IsMade(TdOp(-x))
    ensures ReadableShift(x) ==> IsNoEnd(TdOp(-x))
  {
    assert Reals([x, 0.0]) == [Real(x), Real(0.0)] && Reals([-x, 0.0]) == [Real(-x), Real(0.0)];
    hide Canonical, ReadableReal;
    NumbersLoad("Td", [x, 0.0]);
    NumbersLoad("Td", [-x, 0.0]);
  }

  lemma ShownIsMade(f: Forest<PdfOperator>, op: PdfOperator)
    requires LoadsAgain(f) && op in Flat(f) && Shows(op.content)
    ensures IsMade(op.content) && IsNoEnd(op.content)
  {
    MemberIsMade(f, op);
    hide Canonical, PrintableLabel, LoadsAgain;
  }

  /** What may be put around shown text. */
  lemma ShiftedFits(f: Forest<PdfOperator>, op: PdfOperator, x: real)
    requires LoadsAgain(f) && ReadableShift(x) && op in Flat(f) && Shows(op.content)
    ensures var l, t, u := op.content, TdOp(x), TdOp(-x);
      FitsIn(l, l) && FitsIn(l, t) && FitsIn(l, u) && FitsIn(t, l)
  {
    ShiftLoads(x);
    ShownIsMade(f, op);
    hide IsMade, IsNoEnd, TdOp, ReadableShift, LoadsAgain;
  }

  /** insertOperator with a new operator without children, in the queue. */
  method InsertBehind(cs: CContentStream, op: PdfOperator, leaf: PdfOperator,
                      ghost a: seq<PdfOperator>, ghost b: seq<PdfOperator>)
    requires cs.Valid() && cs.writable && cs.cstreams != []
    requires Flat(cs.forest) == a + [op] + b && !op.content.Composite?
    requires leaf !in Elems(cs.forest) && Alone(leaf) && !leaf.content.Composite?
    modifies cs`operators, cs`forest, cs`cstreams, Elems(cs.forest), leaf
    ensures cs.Valid() && Flat(cs.forest) == a + [op] + ([leaf] + b)
    ensures Elems(cs.forest) == old(Elems(cs.forest)) + {leaf}
    ensures |cs.cstreams| == old(|cs.cstreams|)
    ensures LoadsAgain(old(cs.forest)) && FitsIn(op.content, leaf.content) ==> LoadsAgain(cs.forest)
    ensures cs.cstreams == Saved(old(|cs.cstreams|), ForestText(Contents(cs.forest)))
  {
    hide Splice, InsertAfter, Kids, Before, After, Flat, Single, LoadsAgain, FitsIn, Shaped, Saved, ForestText, Contents,
         Distinct, Threaded, Roots;
    LeafHasNoKids(cs.forest, op);
    LeafEdited(cs.forest, op, a, b, leaf);
    FittingLoads(cs.forest, op, leaf);
    AloneIsLinked(leaf);
    InsertLeaf(cs, op, leaf);
    assert a + [op] + [leaf] + b == a + [op] + ([leaf] + b);
  }

  /** Every operator left in both queues runs in the same text state. */
  ghost predicate KeepsText(s: TextState, p: seq<PdfOperator>, q: seq<PdfOperator>, but: set<PdfOperator>) {
    forall i :: 0 <= i < |p| && p[i] !in but ==> p[i] in q && TextAt(s, q, p[i]) == TextAt(s, p, p[i])
  }

  lemma SegmentKeeps(s: TextState, a: seq<PdfOperator>, m: seq<PdfOperator>, n: seq<PdfOperator>, b: seq<PdfOperator>,
                     but: set<PdfOperator>)
    requires Distinct(a + m + b) && Distinct(a + n + b)
    requires forall o :: o in but <==> o in m && o !in n
    requires forall o :: o in m && o in n ==> o in a
    requires TextRun(TextRun(s, Labels(a)), Labels(m)) == TextRun(TextRun(s, Labels(a)), Labels(n))
    ensures KeepsText(s, a + m + b, a + n + b, but)
  {
    hide TextRun, Labels, TextAt;
    var p, q := a + m + b, a + n + b;
    DistinctConcat(a + m, b);
    DistinctConcat(a + n, b);
    forall i | 0 <= i < |p| && p[i] !in but
      ensures p[i] in q && TextAt(s, q, p[i]) == TextAt(s, p, p[i])
    {
      var o := p[i];
      InThree(a, m, b, o);
      InThree(a, n, b, o);
      SameEffect(s, a, m, n, b, o);
    }
  }

  lemma InThree(a: seq<PdfOperator>, m: seq<PdfOperator>, b: seq<PdfOperator>, o: PdfOperator)
    ensures o in a + m + b <==> o in a || o in m || o in b
    ensures o in a + m <==> o in a || o in m
  {
  }

  lemma KeepsTwice(s: TextState, p: seq<PdfOperator>, q: seq<PdfOperator>, r: seq<PdfOperator>,
                   but: set<PdfOperator>, also: set<PdfOperator>)
    requires KeepsText(s, p, q, but) && KeepsText(s, q, r, also)
    ensures KeepsText(s, p, r, but + also)
  {
    hide TextAt;
    forall i | 0 <= i < |p| && p[i] !in but + also
      ensures p[i] in r && TextAt(s, r, p[i]) == TextAt(s, p, p[i])
    {
      var j :| 0 <= j < |q| && q[j] == p[i];
    }
  }

  /** Deletes one operator that shows text. */
  method DeleteShown(cs: CContentStream, op: PdfOperator, ghost s: TextState)
    requires cs.Valid() && cs.writable && cs.cstreams != [] && op in Elems(cs.forest) && Shows(op.content)
    modifies cs`operators, cs`forest, cs`cstreams, Elems(cs.forest)
    ensures cs.Valid() && |cs.cstreams| == |old(cs.cstreams)| && Elems(cs.forest) == old(Elems(cs.forest)) - {op}
    ensures LoadsAgain(old(cs.forest)) ==> LoadsAgain(cs.forest)
    ensures KeepsText(s, old(Flat(cs.forest)), Flat(cs.forest), {op})
    ensures Flat(cs.forest) == Left(old(Flat(cs.forest)), {op})
  {
    hide Splice, InsertAfter, Kids, Before, After, Flat, Single, Shaped, Labels, TextRun, KeepsText, Left, LoadsAgain;
    ghost var f := cs.forest;
    RootsInFlat(f);
    LeafHasNoKids(f, op);
    DeletionLoads(f, op);
    ghost var a, b := SplitAt(Flat(f), op);
    LeafEdited(f, op, a, b, op);
    ghost var here := TextRun(s, Labels(a));
    ShowsRun(here, op);
    DistinctWithout(a, op, b);
    assert a + [] + b == a + b;
    LeftOf(a, op, b);
    SegmentKeeps(s, a, [op], [], b, {op});
    var _ := cs.DeleteOperator(op, true);
  }

  lemma DeletionLoads(f: Forest<PdfOperator>, op: PdfOperator)
    requires op in Flat(f) && Kids(f, op) == Empty && Shows(op.content)
    ensures LoadsAgain(f) ==> LoadsAgain(Remove(f, op))
  {
    hide LoadsAgain, IsMade, IsNoEnd, Kids, Flat;
    if LoadsAgain(f) {
      ShownIsMade(f, op);
      LeafEditsLoad(f, op, op);
    }
  }

  /** The operators of q that are not in gone, in order. */
  function Left(q: seq<PdfOperator>, gone: set<PdfOperator>): seq<PdfOperator> {
    if q == [] then [] else (if q[0] in gone then [] else [q[0]]) + Left(q[1..], gone)
  }

  lemma {:induction false} LeftConcat(p: seq<PdfOperator>, q: seq<PdfOperator>, gone: set<PdfOperator>)
    ensures Left(p + q, gone) == Left(p, gone) + Left(q, gone)
  {
    if p == [] {
      assert p + q == q;
    } else {
      assert (p + q)[1..] == p[1..] + q;
      LeftConcat(p[1..], q, gone);
    }
  }

  lemma {:induction false} NothingGone(q: seq<PdfOperator>, gone: set<PdfOperator>)
    requires forall o: PdfOperator :: o in q ==> o !in gone
    ensures Left(q, gone) == q
  {
    if q != [] {
      NothingGone(q[1..], gone);
      assert q == [q[0]] + q[1..];
    }
  }

  lemma LeftOf(a: seq<PdfOperator>, op: PdfOperator, b: seq<PdfOperator>)
    requires Distinct(a + [op] + b)
    ensures Left(a + [op] + b, {op}) == a + b
  {
    hide *;
    AloneIn(a, op, b);
    LeftConcat(a + [op], b, {op});
    LeftConcat(a, [op], {op});
    NothingGone(a, {op});
    NothingGone(b, {op});
    OneGone(op);
    NoMore(a, b);
  }

  lemma AloneIn(a: seq<PdfOperator>, op: PdfOperator, b: seq<PdfOperator>)
    requires Distinct(a + [op] + b)
    ensures forall o: PdfOperator :: o in a ==> o !in {op}
    ensures forall o: PdfOperator :: o in b ==> o !in {op}
  {
    DistinctConcat(a + [op], b);
    DistinctConcat(a, [op]);
    assert op in [op] && op in a + [op];
  }

  lemma OneGone(op: PdfOperator)
    ensures Left([op], {op}) == []
  {
  }

  lemma {:induction false} LeftTwice(q: seq<PdfOperator>, gone: set<PdfOperator>, also: set<PdfOperator>)
    ensures Left(Left(q, gone), also) == Left(q, gone + also)
  {
    if q != [] {
      LeftTwice(q[1..], gone, also);
      if q[0] !in gone {
        var rest := Left(q[1..], gone);
        assert ([q[0]] + rest)[1..] == rest;
      } else {
        assert Left(q, gone) == Left(q[1..], gone);
      }
    }
  }

  /** What is left are exactly the operators not gone. */
  lemma {:induction false} LeftMembers(q: seq<PdfOperator>, gone: set<PdfOperator>)
    ensures forall o: PdfOperator :: o in Left(q, gone) <==> o in q && o !in gone
  {
    if q != [] {
      LeftMembers(q[1..], gone);
      assert q == [q[0]] + q[1..];
    }
  }

  lemma ShowsRun(s: TextState, op: PdfOperator)
    requires Shows(op.content)
    ensures TextRun(s, Labels([op])) == s && TextRun(s, Labels([])) == s
  {
    assert Labels([op]) == [op.content];
    ShiftedIsNeutral(s, op.content, 0.0);
  }

  lemma DistinctWithout(a: seq<PdfOperator>, op: PdfOperator, b: seq<PdfOperator>)
    requires Distinct(a + [op] + b)
    ensures Distinct(a + b)
    ensures forall o :: o in a + b <==> o in a + [op] + b && o != op
  {
    DistinctConcat(a + [op], b);
    DistinctConcat(a, [op]);
    DistinctConcat(a, b);
    assert op in [op];
  }

  function Members(q: seq<PdfOperator>): set<PdfOperator> {
    set o | o in q
  }

  /** The erasing loop over the operators between the first and the last one selected. */
  method DeleteBetween(cs: CContentStream, erased: seq<PdfOperator>, ghost s: TextState)
    requires cs.Valid() && cs.writable && cs.cstreams != [] && Distinct(erased)
    requires forall i :: 0 <= i < |erased| ==> erased[i] in Elems(cs.forest) && Shows(erased[i].content)
    modifies cs`operators, cs`forest, cs`cstreams, Elems(cs.forest)
    ensures cs.Valid() && |cs.cstreams| == |old(cs.cstreams)|
    ensures LoadsAgain(old(cs.forest)) ==> LoadsAgain(cs.forest)
    ensures Elems(cs.forest) == old(Elems(cs.forest)) - Members(erased)
    ensures KeepsText(s, old(Flat(cs.forest)), Flat(cs.forest), Members(erased))
    ensures Flat(cs.forest) == Left(old(Flat(cs.forest)), Members(erased))
  {
    hide Flat, Shaped, Labels, TextRun, KeepsText, Shows, Elems, Left, LoadsAgain;
    ghost var f := cs.forest;
    KeepsNothing(s, Flat(f));
    NothingGone(Flat(f), Members(erased[..0]));
    var i := 0;
    while i < |erased|
      invariant 0 <= i <= |erased| && cs.Valid() && cs.writable && |cs.cstreams| == |old(cs.cstreams)|
      invariant LoadsAgain(f) ==> LoadsAgain(cs.forest)
      invariant Elems(cs.forest) == Elems(f) - Members(erased[..i])
      invariant KeepsText(s, Flat(f), Flat(cs.forest), Members(erased[..i]))
      invariant Flat(cs.forest) == Left(Flat(f), Members(erased[..i]))
    {
      ghost var q, gone := Flat(cs.forest), Members(erased[..i]);
      OneMore(erased, i);
      DeleteShown(cs, erased[i], s);
      KeepsTwice(s, Flat(f), q, Flat(cs.forest), gone, {erased[i]});
      LeftTwice(Flat(f), gone, {erased[i]});
      i := i + 1;
    }
    assert erased[..i] == erased;
  }

  lemma KeepsNothing(s: TextState, q: seq<PdfOperator>)
    ensures KeepsText(s, q, q, Members(q[..0]))
  {
  }

  lemma OneMore(q: seq<PdfOperator>, i: nat)
    requires i < |q| && Distinct(q)
    ensures q[i] !in q[..i]
    ensures Members(q[..i + 1]) == Members(q[..i]) + {q[i]}
  {
    assert q[..i + 1] == q[..i] + [q[i]];
  }

  /** Puts what is kept of the last operator selected between two translations; insertBefore clones it. */
  method ShiftLast(cs: CContentStream, end: PdfOperator, dist: real, ghost s: TextState)
    returns (kept: seq<PdfOperator>)
    requires cs.Valid() && cs.writable && cs.cstreams != [] && end in Elems(cs.forest) && Shows(end.content)
    modifies cs`operators, cs`forest, cs`cstreams, Elems(cs.forest)
    ensures cs.Valid() && Labels(kept) == Shifted(end.content, dist)
    ensures Elems(cs.forest) == old(Elems(cs.forest)) - {end} + Members(kept)
    ensures KeepsText(s, old(Flat(cs.forest)), Flat(cs.forest), {end})
    ensures Flat(cs.forest) == PutFor(old(Flat(cs.forest)), end, kept)
    ensures TextAt(s, Flat(cs.forest), kept[1]).line ==
            Translated(dist, 0.0, TextAt(s, old(Flat(cs.forest)), end).line)
    ensures cs.cstreams == Saved(old(|cs.cstreams|), ForestText(Contents(cs.forest)))
    ensures LoadsAgain(old(cs.forest)) && ReadableShift(dist) ==> SavedLoads(cs)
  {
    hide Flat, Shaped, Labels, TextRun, TextAt, KeepsText, Elems, PutFor, Translated, Shifted, LoadsAgain,
         ReadableShift, SavedLoads;
    ElemsAreFlat(cs.forest);
    ghost var q := Flat(cs.forest);
    ghost var a, b := SplitAt(q, end);
    kept := Surround(cs, end, dist, a, b);
    ReadyToLoad(cs, |cs.cstreams|);
    ShiftedKeeps(s, a, end, kept, b, dist, cs.forest);
    PutsAfter(q, a, end, kept, b);
    NoRepetition(cs);
    KeptRunsShifted(s, a, kept, b, end.content, dist);
    RunsBefore(s, q, a, b, end);
  }

  method Surround(cs: CContentStream, end: PdfOperator, dist: real,
                  ghost a: seq<PdfOperator>, ghost b: seq<PdfOperator>) returns (kept: seq<PdfOperator>)
    requires cs.Valid() && cs.writable && cs.cstreams != []
    requires Flat(cs.forest) == a + [end] + b && end in Elems(cs.forest) && Shows(end.content)
    modifies cs`operators, cs`forest, cs`cstreams, Elems(cs.forest)
    ensures cs.Valid() && Flat(cs.forest) == a + kept + b && end !in kept
    ensures Labels(kept) == Shifted(end.content, dist)
    ensures Elems(cs.forest) == old(Elems(cs.forest)) - {end} + Members(kept)
    ensures LoadsAgain(old(cs.forest)) && ReadableShift(dist) ==> LoadsAgain(cs.forest)
    ensures cs.cstreams == Saved(old(|cs.cstreams|), ForestText(Contents(cs.forest)))
  {
    hide *;
    NewIsOutside(cs.forest);
    LeafLabels(end.content, dist);
    if LoadsAgain(cs.forest) && ReadableShift(dist) {
      ShiftedFits(cs.forest, end, dist);
    }
    var after := NewLeaf(TdOp(-dist));
    InsertBehind(cs, end, after, a, b);
    var clone := NewLeaf(end.content);
    var before := NewLeaf(TdOp(dist));
    ReplaceInQueue(cs, end, before, a, [after] + b);
    InsertBehind(cs, before, clone, a, [after] + b);
    kept := [before, clone, after];
    ThreeInFront(a, before, clone, after, b);
    ThreeLabels(before, clone, after);
    ThreeMembers(before, clone, after);
  }

  method NewLeaf(content: Label) returns (op: PdfOperator)
    ensures fresh(op) && op.content == content && Alone(op)
  {
    op := new PdfOperator(content);
  }

  lemma LeafLabels(shown: Label, x: real)
    requires Shows(shown)
    ensures !shown.Composite? && !TdOp(x).Composite? && !TdOp(-x).Composite?
    ensures Shifted(shown, x) == [TdOp(x), shown, TdOp(-x)]
  {
  }

  lemma ThreeMembers(x: PdfOperator, y: PdfOperator, z: PdfOperator)
    ensures Members([x, y, z]) == {x, y, z}
  {
  }

  lemma ShiftedKeeps(s: TextState, a: seq<PdfOperator>, end: PdfOperator, kept: seq<PdfOperator>, b: seq<PdfOperator>,
                     dist: real, f: Forest<PdfOperator>)
    requires Distinct(a + [end] + b) && Distinct(Flat(f)) && Flat(f) == a + kept + b
    requires Shows(end.content) && Labels(kept) == Shifted(end.content, dist) && end !in kept
    ensures KeepsText(s, a + [end] + b, Flat(f), {end})
  {
    hide Labels, TextRun, KeepsText, Flat;
    var here := TextRun(s, Labels(a));
    ShowsRun(here, end);
    ShiftedIsNeutral(here, end.content, dist);
    SegmentKeeps(s, a, [end], kept, b, {end});
  }

  /** replaceOperator, without saving, of one operator without children by another, in the queue. */
  method ReplaceInQueue(cs: CContentStream, op: PdfOperator, leaf: PdfOperator,
                        ghost a: seq<PdfOperator>, ghost b: seq<PdfOperator>)
    requires cs.Valid() && cs.writable && cs.cstreams != []
    requires Flat(cs.forest) == a + [op] + b && !op.content.Composite?
    requires leaf !in Elems(cs.forest) && Alone(leaf) && !leaf.content.Composite?
    modifies cs`operators, cs`forest, cs`cstreams, Elems(cs.forest), leaf
    ensures cs.Valid() && Flat(cs.forest) == a + [leaf] + b
    ensures Elems(cs.forest) == old(Elems(cs.forest)) - {op} + {leaf}
    ensures |cs.cstreams| == old(|cs.cstreams|)
    ensures LoadsAgain(old(cs.forest)) && FitsIn(op.content, leaf.content) ==> LoadsAgain(cs.forest)
  {
    hide Splice, InsertAfter, Kids, Before, After, Flat, Single, LoadsAgain;
    LeafHasNoKids(cs.forest, op);
    LeafEdited(cs.forest, op, a, b, leaf);
    FittingLoads(cs.forest, op, leaf);
    AloneIsLinked(leaf);
    ReplaceLeaf(cs, op, leaf, false);
  }

  lemma KeptAlso(s: TextState, p: seq<PdfOperator>, q: seq<PdfOperator>, but: set<PdfOperator>, o: PdfOperator)
    requires KeepsText(s, p, q, but) && o in p && o !in but
    ensures TextAt(s, q, o) == TextAt(s, p, o)
  {
    hide TextAt;
    var i :| 0 <= i < |p| && p[i] == o;
  }

  /** eraseSelectedText over several operators: those strictly inside the selection are deleted, the kept
      text of the last one is shifted there and back. All others keep their text line matrix. */
  method EraseAcross(cs: CContentStream, erased: seq<PdfOperator>, end: PdfOperator, dist: real, ghost s: TextState)
    returns (kept: seq<PdfOperator>)
    requires cs.Valid() && cs.writable && cs.cstreams != [] && Distinct(erased) && end !in erased
    requires forall i :: 0 <= i < |erased| ==> erased[i] in Elems(cs.forest) && Shows(erased[i].content)
    requires end in Elems(cs.forest) && Shows(end.content)
    modifies cs`operators, cs`forest, cs`cstreams, Elems(cs.forest)
    ensures cs.Valid() && Labels(kept) == Shifted(end.content, dist)
    ensures Elems(cs.forest) == old(Elems(cs.forest)) - Members(erased) - {end} + Members(kept)
    ensures KeepsText(s, old(Flat(cs.forest)), Flat(cs.forest), Members(erased) + {end})
    ensures Flat(cs.forest) == PutFor(Left(old(Flat(cs.forest)), Members(erased)), end, kept)
    ensures TextAt(s, Flat(cs.forest), kept[1]).line ==
            Translated(dist, 0.0, TextAt(s, old(Flat(cs.forest)), end).line)
    ensures cs.cstreams == Saved(old(|cs.cstreams|), ForestText(Contents(cs.forest)))
    ensures LoadsAgain(old(cs.forest)) && ReadableShift(dist) ==> SavedLoads(cs)
  {
    hide Flat, Shaped, Labels, TextRun, TextAt, KeepsText, Shows, Elems, PutFor, Left, Translated, LoadsAgain,
         ReadableShift, SavedLoads;
    ghost var p := Flat(cs.forest);
    ElemsAreFlat(cs.forest);
    DeleteBetween(cs, erased, s);
    ghost var q := Flat(cs.forest);
    KeptAlso(s, p, q, Members(erased), end);
    kept := ShiftLast(cs, end, dist, s);
    KeepsTwice(s, p, q, Flat(cs.forest), Members(erased), {end});
  }
}
