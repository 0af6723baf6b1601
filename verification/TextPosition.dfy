/** Where text behind an erased selection is drawn: the text matrix, which shown text moves along the line. */
module TextPosition {
  import opened PdfObjects
  import opened PdfOperators
  import opened Graphics
  import opened TextErase

  /** Starts at the line matrix whatever the text matrix was (sections 9.4.1, 9.4.2 and 9.4.3 of ISO 32000-1). */
  predicate Positions(l: Label) {
    if !l.Simple? then l.OperatorName() == "BT"
    else
      || (l.name in {"Td", "TD"} && |l.operands| == 2) || (l.name == "Tm" && |l.operands| == 6)
      || l.name in {"T*", "'", "\""}
  }

  predicate ShowsText(l: Label) {
    l.Simple? && l.name in {"Tj", "TJ", "'", "\""}
  }

  /** The text matrix behind an operator; advance says how far along the line its text goes, if it shows any. */
  function PenStep(advance: Label -> real, s: TextState, pen: Matrix, l: Label): Matrix {
    var start := if Positions(l) then TextStep(s, l).line else pen;
    if ShowsText(l) then Translated(advance(l), 0.0, start) else start
  }

  function PenRun(advance: Label -> real, s: TextState, pen: Matrix, ls: seq<Label>): Matrix
    decreases |ls|
  {
    if ls == [] then pen else PenRun(advance, TextStep(s, ls[0]), PenStep(advance, s, pen, ls[0]), ls[1..])
  }

  lemma {:induction false} PenRunConcat(advance: Label -> real, s: TextState, pen: Matrix, a: seq<Label>, b: seq<Label>)
    ensures PenRun(advance, s, pen, a + b) == PenRun(advance, TextRun(s, a), PenRun(advance, s, pen, a), b)
    decreases |a|
  {
    hide TextStep, PenStep;
    if a == [] {
      assert a + b == b;
    } else {
      assert (a + b)[1..] == a[1..] + b;
      PenRunConcat(advance, TextStep(s, a[0]), PenStep(advance, s, pen, a[0]), a[1..], b);
    }
  }

  // ------------------------------------------------------------------------------------------
  // What the positioning operators do
  // ------------------------------------------------------------------------------------------

  /** Behind "x y Td" a point is where the one displaced by (x, y) was before. */
  lemma TdMovesPoints(s: TextState, operands: seq<Obj>, x: seq<real>, p: Point)
    requires |x| == 2 && AreNumbers(operands, x)
    ensures var t := TextStep(s, Simple("Td", operands));
      && Apply(t.line, p) == Apply(s.line, Point(p.x + x[0], p.y + x[1]))
      && t.leading == s.leading && t.saved == s.saved
  {
    var m := Matrix(1.0, 0.0, 0.0, 1.0, x[0], x[1]);
    assert Apply(m, p) == Point(p.x + x[0], p.y + x[1]);
    assert TextStep(s, Simple("Td", operands)) == s.(line := Product(m, s.line));
    hide TextStep, Product, Apply;
    ProductApplies(m, s.line, p);
  }

  /** Behind "a b c d e f Tm" a point (x, y) is at (a x + c y + e, b x + d y + f), whatever was before. */
  lemma TmSetsPoints(s: TextState, operands: seq<Obj>, x: seq<real>, p: Point)
    requires |x| == 6 && AreNumbers(operands, x)
    ensures var t := TextStep(s, Simple("Tm", operands));
      && Apply(t.line, p) == Point(x[0] * p.x + x[2] * p.y + x[4], x[1] * p.x + x[3] * p.y + x[5])
      && t.leading == s.leading && t.saved == s.saved
  {
    assert TextStep(s, Simple("Tm", operands)).line == Matrix(x[0], x[1], x[2], x[3], x[4], x[5]);
  }

  /** "x y TD" is "-y TL x y Td", T* is "0 -l Td" behind "l TL", and ' and the quotation mark move as T* does. */
  lemma LinesByLeading(s: TextState, operands: seq<Obj>, x: seq<real>, l: seq<real>, shown: seq<Obj>)
    requires |x| == 2 && AreNumbers(operands, x) && |l| == 1
    ensures TextStep(s, Simple("TD", operands))
         == TextStep(TextStep(s, Simple("TL", [Real(-x[1])])), Simple("Td", operands))
    ensures var t := TextStep(s, Simple("TL", [Real(l[0])]));
      && t.line == s.line && t.saved == s.saved
      && TextStep(t, Simple("T*", [])) == TextStep(t, Simple("Td", [Real(0.0), Real(-l[0])]))
      && TextStep(t, Simple("'", shown)) == TextStep(t, Simple("T*", []))
      && TextStep(t, Simple("\"", shown)) == TextStep(t, Simple("T*", []))
  {
    hide Product;
  }

  lemma BtStartsOver(s: TextState, p: Point)
    ensures Apply(TextStep(s, Composite("BT", "ET")).line, p) == p
    ensures TextStep(s, Composite("BT", "ET")).leading == s.leading
  {
  }

  /** The leading is part of the saved graphics state, the line matrix is not. */
  lemma RestoresLeading(s: TextState, l: real, operands: seq<Obj>)
    ensures var t := TextStep(TextStep(s, Composite("q", "Q")), Simple("TL", [Real(l)]));
      t.leading == l && TextStep(t, Simple("Q", [])) == s
    ensures var t := TextStep(TextStep(s, Composite("q", "Q")), Simple("Tm", operands));
      TextStep(t, Simple("Q", [])) == t.(saved := s.saved)
  {
  }

  /** Shown text moves the text matrix along the line by its advance; ' starts on the next line; a line matrix that is
      set becomes the text matrix; and nothing else changes it. */
  lemma ShownTextMoves(advance: Label -> real, s: TextState, pen: Matrix, l: Label, p: Point)
    ensures l.Simple? && l.name in {"Tj", "TJ"} ==>
              Apply(PenStep(advance, s, pen, l), p) == Apply(pen, Point(p.x + advance(l), p.y))
    ensures l.Simple? && l.name == "'" ==>
              Apply(PenStep(advance, s, pen, l), p) == Apply(TextStep(s, l).line, Point(p.x + advance(l), p.y))
    ensures l.Simple? && ((l.name in {"Td", "TD"} && |l.operands| == 2) || (l.name == "Tm" && |l.operands| == 6)) ==>
              PenStep(advance, s, pen, l) == TextStep(s, l).line
    ensures l == Simple("T*", []) || l == Composite("BT", "ET") ==> PenStep(advance, s, pen, l) == TextStep(s, l).line
    ensures l.OperatorName() !in {"Tj", "TJ", "'", "\"", "Td", "TD", "Tm", "T*", "BT"} ==>
              PenStep(advance, s, pen, l) == pen
  {
    TranslatedApplies(advance(l), pen, p);
    TranslatedApplies(advance(l), TextStep(s, l).line, p);
    hide TextStep, Translated, Apply;
  }

  lemma TranslatedApplies(x: real, m: Matrix, p: Point)
    ensures Apply(Translated(x, 0.0, m), p) == Apply(m, Point(p.x + x, p.y))
  {
    var t := Matrix(1.0, 0.0, 0.0, 1.0, x, 0.0);
    assert Apply(t, p) == Point(p.x + x, p.y);
    hide Apply, Product;
    ProductApplies(t, m, p);
  }

  /** The same but for the position. */
  predicate Parallel(m: Matrix, n: Matrix) {
    m.a == n.a && m.b == n.b && m.c == n.c && m.d == n.d
  }

  lemma TranslatedParallel(x: real, y: real, m: Matrix)
    ensures Parallel(Translated(x, y, m), m)
    ensures Translated(x, 0.0, m) == m.(e := x * m.a + m.e, f := x * m.b + m.f)
  {
    var t := Translated(x, y, m);
    assert t.a == m.a && t.b == m.b && t.c == m.c && t.d == m.d;
  }

  lemma PenStaysParallel(advance: Label -> real, s: TextState, pen: Matrix, l: Label)
    requires Parallel(pen, s.line)
    ensures Parallel(PenStep(advance, s, pen, l), TextStep(s, l).line)
  {
    hide Translated;
    TranslatedParallel(advance(l), 0.0, pen);
    TranslatedParallel(advance(l), 0.0, TextStep(s, l).line);
    if !Positions(l) {
      LineStays(s, l);
    }
  }

  lemma LineStays(s: TextState, l: Label)
    requires !Positions(l)
    ensures TextStep(s, l).line == s.line
  {
  }

  lemma {:induction false} PenRunsParallel(advance: Label -> real, s: TextState, pen: Matrix, ls: seq<Label>)
    requires Parallel(pen, s.line)
    ensures Parallel(PenRun(advance, s, pen, ls), TextRun(s, ls).line)
    decreases |ls|
  {
    hide TextStep, PenStep;
    if ls != [] {
      PenStaysParallel(advance, s, pen, ls[0]);
      PenRunsParallel(advance, TextStep(s, ls[0]), PenStep(advance, s, pen, ls[0]), ls[1..]);
    }
  }

  predicate Repositioned(ls: seq<Label>) {
    ls != [] && (Positions(ls[0]) || Repositioned(ls[1..]))
  }

  lemma SamePenStep(advance: Label -> real, s: TextState, p: Matrix, q: Matrix, l: Label)
    requires Parallel(p, s.line) && Parallel(q, s.line)
    ensures PenStep(advance, s, p, l) == PenStep(advance, s, q, l) <==> p == q || Positions(l)
  {
    hide TextStep, Translated;
    TranslatedParallel(advance(l), 0.0, p);
    TranslatedParallel(advance(l), 0.0, q);
  }

  /** Two positions on a line stay different until an operator sets a new one, and are forgotten then. */
  lemma {:induction false} PenForgets(advance: Label -> real, s: TextState, p: Matrix, q: Matrix, ls: seq<Label>)
    requires Parallel(p, s.line) && Parallel(q, s.line)
    ensures PenRun(advance, s, p, ls) == PenRun(advance, s, q, ls) <==> p == q || Repositioned(ls)
    decreases |ls|
  {
    hide TextStep, PenStep, Positions, Parallel;
    if ls != [] {
      PenStaysParallel(advance, s, p, ls[0]);
      PenStaysParallel(advance, s, q, ls[0]);
      SamePenStep(advance, s, p, q, ls[0]);
      PenForgets(advance, TextStep(s, ls[0]), PenStep(advance, s, p, ls[0]), PenStep(advance, s, q, ls[0]), ls[1..]);
    }
  }

  /** The last translation of an erased selection ends at the start of the line. */
  lemma ShiftedEndsAtLine(advance: Label -> real, s: TextState, pen: Matrix, kept: Label, dist: real)
    requires Shows(kept)
    ensures PenRun(advance, s, pen, Shifted(kept, dist)) == s.line
  {
    var front, back := [TdOp(dist), kept], [TdOp(-dist)];
    assert Shifted(kept, dist) == front + back;
    hide Shows, Shifted, Translated;
    PenRunConcat(advance, s, pen, front, back);
    ShiftedIsNeutral(s, kept, dist);
    TextRunConcat(s, front, back);
    OneTd(advance, TextRun(s, front), PenRun(advance, s, pen, front), -dist);
  }

  lemma OneTd(advance: Label -> real, s: TextState, pen: Matrix, x: real)
    ensures PenRun(advance, s, pen, [TdOp(x)]) == TextRun(s, [TdOp(x)]).line
  {
    assert [TdOp(x)][1..] == [];
  }

  /** When a segment of operators is replaced by one that has the same effect on the text state and ends with kept
      text between translations, what follows is drawn where it was exactly from the next positioning operator on,
      unless the segment ended at the start of the line before. */
  lemma FollowingTextMoves(advance: Label -> real, s: TextState, pen: Matrix, was: seq<Label>, front: seq<Label>,
                           kept: Label, dist: real, after: seq<Label>)
    requires Parallel(pen, s.line) && Shows(kept)
    requires TextRun(s, was) == TextRun(s, front + Shifted(kept, dist))
    ensures PenRun(advance, s, pen, was + after) == PenRun(advance, s, pen, front + Shifted(kept, dist) + after)
       <==> PenRun(advance, s, pen, was) == TextRun(s, was).line || Repositioned(after)
  {
    hide TextRun, PenRun, Shifted, Parallel, Repositioned, Shows;
    var now := front + Shifted(kept, dist);
    PenRunConcat(advance, s, pen, was, after);
    PenRunConcat(advance, s, pen, now, after);
    PenRunConcat(advance, s, pen, front, Shifted(kept, dist));
    TextRunConcat(s, front, Shifted(kept, dist));
    ShiftedIsNeutral(TextRun(s, front), kept, dist);
    ShiftedEndsAtLine(advance, TextRun(s, front), PenRun(advance, s, pen, front), kept, dist);
    PenRunsParallel(advance, s, pen, was);
    SelfParallel(TextRun(s, was).line);
    PenForgets(advance, TextRun(s, was), PenRun(advance, s, pen, was), TextRun(s, was).line, after);
  }

  lemma SelfParallel(m: Matrix)
    ensures Parallel(m, m)
  {
  }

  /** Erasing inside one operator at offset x of its line: text behind it that has no position of its own is drawn
      where it was exactly when the whole text before ended at the start of the line, or the line has no length. */
  lemma ErasedInOneMoves(advance: Label -> real, s: TextState, x: real, op: Label, front: Label, kept: Label,
                         dist: real, after: seq<Label>)
    requires Shows(op) && Shows(front) && Shows(kept)
    ensures var pen := Translated(x, 0.0, s.line);
      PenRun(advance, s, pen, [op] + after) == PenRun(advance, s, pen, [front] + Shifted(kept, dist) + after)
      <==> x + advance(op) == 0.0 || (s.line.a == 0.0 && s.line.b == 0.0) || Repositioned(after)
  {
    var pen := Translated(x, 0.0, s.line);
    TranslatedParallel(x, 0.0, s.line);
    ShowsNothing(s, op);
    ShowsNothing(s, front);
    ThreeSteps(s, op, op, op);
    ThreeSteps(s, front, front, front);
    ShiftedIsNeutral(s, kept, dist);
    TextRunConcat(s, [front], Shifted(kept, dist));
    FollowingTextMoves(advance, s, pen, [op], [front], kept, dist, after);
    OneShown(advance, s, pen, op);
    MovesTwice(x, advance(op), s.line);
  }

  lemma OneShown(advance: Label -> real, s: TextState, pen: Matrix, l: Label)
    requires Shows(l)
    ensures PenRun(advance, s, pen, [l]) == Translated(advance(l), 0.0, pen)
  {
    hide Translated;
    assert [l][1..] == [];
  }

  lemma MovesTwice(x: real, y: real, m: Matrix)
    ensures Translated(y, 0.0, Translated(x, 0.0, m)) == m <==> x + y == 0.0 || (m.a == 0.0 && m.b == 0.0)
  {
    hide Translated;
    TranslatedParallel(x, 0.0, m);
    TranslatedParallel(y, 0.0, Translated(x, 0.0, m));
    Along(x, y, m.a);
    Along(x, y, m.b);
  }

  lemma Along(x: real, y: real, a: real)
    ensures y * a + x * a == 0.0 <==> x + y == 0.0 || a == 0.0
  {
    assert y * a + x * a == (x + y) * a;
  }
}
