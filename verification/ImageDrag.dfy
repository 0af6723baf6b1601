/** Moving an inline image: the matrices the editor computes, and what its edit does to every operator. */
module ImageDrag {
  import opened Options
  import opened PdfObjects
  import opened PdfOperators
  import opened Graphics

  // ------------------------------------------------------------------------------------------
  // The inverted matrix
  // ------------------------------------------------------------------------------------------

  function Determinant(m: Matrix): real {
    m.a * m.d - m.b * m.c
  }

  /** The matrix getInvertMatrix computes from the current one; there is none for a singular matrix. */
  function Inverted(m: Matrix): Option<Matrix> {
    var s := -m.d * m.a + m.b * m.c;
    if s == 0.0 then None else Some(Matrix(-m.d / s, m.b / s, -m.c / s, m.a / s, 0.0, 0.0))
  }

  /** There is none exactly when the determinant vanishes. */
  lemma InvertedIffRegular(m: Matrix)
    ensures Inverted(m).Some? <==> Determinant(m) != 0.0
  {
    assert -m.d * m.a + m.b * m.c == -Determinant(m);
  }

  lemma DivTimes(p: real, s: real, t: real)
    requires s != 0.0
    ensures p / s * t == p * t / s
  {
    var q := p / s;
    assert q * s == p;
    assert q * s * t == q * t * s;
  }

  lemma SumOver(p: real, q: real, s: real, r: real)
    requires s != 0.0 && p + q == r * s
    ensures p / s + q / s == r
  {
  }

  lemma Entry(p: real, t: real, q: real, u: real, s: real, r: real)
    requires s != 0.0 && p * t + q * u == r * s
    ensures p / s * t + q / s * u == r
  {
    DivTimes(p, s, t);
    DivTimes(q, s, u);
    SumOver(p * t, q * u, s, r);
  }

  /** Applied before the current matrix, the inverted one leaves a flip of the vertical axis. */
  lemma InvertedFlips(m: Matrix)
    requires Inverted(m).Some?
    ensures Determinant(m) != 0.0
    ensures Product(Inverted(m).value, m) == Matrix(1.0, 0.0, 0.0, -1.0, m.e, m.f)
  {
    var s := -m.d * m.a + m.b * m.c;
    assert s == -Determinant(m);
    Entry(-m.d, m.a, m.b, m.c, s, 1.0);
    Entry(-m.d, m.b, m.b, m.d, s, 0.0);
    Entry(-m.c, m.a, m.a, m.c, s, 0.0);
    Entry(-m.c, m.b, m.a, m.d, s, -1.0);
  }

  // ------------------------------------------------------------------------------------------
  // Vectors
  // ------------------------------------------------------------------------------------------

  datatype Vector = Vector(x: real, y: real)

  /** A displacement through the linear part of a matrix. */
  function Through(v: Vector, m: Matrix): Vector {
    Vector(v.x * m.a + v.y * m.c, v.x * m.b + v.y * m.d)
  }

  function Translation(v: Vector): Matrix {
    Matrix(1.0, 0.0, 0.0, 1.0, v.x, v.y)
  }

  /** rotate for a multiple of 90 degrees, clockwise. */
  function Turned(v: Vector, quarter: nat): Vector {
    match quarter % 4
    case 0 => v
    case 1 => Vector(v.y, -v.x)
    case 2 => Vector(-v.x, -v.y)
    case _ => Vector(-v.y, v.x)
  }

  /** A quarter turn keeps the length and is clockwise; four of them are none. */
  lemma TurnsClockwise(v: Vector, quarter: nat)
    ensures var t := Turned(v, 1);
      && v.x * t.x + v.y * t.y == 0.0
      && v.x * t.y - v.y * t.x == -(v.x * v.x + v.y * v.y) == -(t.x * t.x + t.y * t.y)
    ensures Turned(v, 0) == v && Turned(v, quarter + 1) == Turned(Turned(v, quarter), 1)
    ensures Turned(v, 4) == v
  {
    NegativeTwice(v.x);
    Negate(v.x, v.x);
    assert (quarter + 1) % 4 == if quarter % 4 == 3 then 0 else quarter % 4 + 1;
  }

  lemma NegativeTwice(x: real)
    ensures -x * -x == x * x
  {
  }

  /** The displacement in user space the editor computes for a pointer moved by (x, -y) pixels on a page
      shown in the given rotation. */
  function Displacement(x: real, y: real, ctm: Matrix, quarter: nat): Vector
    requires Inverted(ctm).Some?
  {
    Turned(Through(Vector(x, y), Inverted(ctm).value), quarter)
  }

  lemma ThroughProduct(v: Vector, m: Matrix, n: Matrix)
    ensures Through(Through(v, m), n) == Through(v, Product(m, n))
  {
    Spread(v, m, n.a, n.c);
    Spread(v, m, n.b, n.d);
  }

  lemma Spread(v: Vector, m: Matrix, p: real, q: real)
    ensures (v.x * m.a + v.y * m.c) * p + (v.x * m.b + v.y * m.d) * q
         == v.x * (m.a * p + m.b * q) + v.y * (m.c * p + m.d * q)
  {
    Expand(p, v.x * m.a, v.y * m.c);
    Expand(q, v.x * m.b, v.y * m.d);
    Expand(v.x, m.a * p, m.b * q);
    Expand(v.y, m.c * p, m.d * q);
    Reorder(p, v.x, m.a);
    Reorder(p, v.y, m.c);
    Reorder(q, v.x, m.b);
    Reorder(q, v.y, m.d);
  }

  lemma Expand(s: real, a: real, b: real)
    ensures s * (a + b) == s * a + s * b
  {
  }

  lemma Reorder(p: real, x: real, a: real)
    ensures p * (x * a) == x * (a * p)
  {
  }

  /** On an unrotated page the displacement is seen as exactly the pointer's. */
  lemma DisplacementIsSeen(x: real, y: real, ctm: Matrix)
    requires Inverted(ctm).Some?
    ensures Through(Displacement(x, y, ctm, 0), ctm) == Vector(x, -y)
  {
    InvertedFlips(ctm);
    ThroughProduct(Vector(x, y), Inverted(ctm).value, ctm);
  }

  /** Turned back, the displacement is seen as exactly the pointer's. */
  lemma TurnedBackIsSeen(x: real, y: real, ctm: Matrix, quarter: nat, back: nat)
    requires Inverted(ctm).Some? && (quarter + back) % 4 == 0
    ensures Through(Turned(Displacement(x, y, ctm, quarter), back), ctm) == Vector(x, -y)
  {
    DisplacementIsSeen(x, y, ctm);
    hide Through, Inverted;
    TurnedBack(Displacement(x, y, ctm, 0), quarter, back);
  }

  lemma TurnedBack(v: Vector, quarter: nat, back: nat)
    requires (quarter + back) % 4 == 0
    ensures Turned(Turned(v, quarter), back) == v && Turned(v, 0) == v
  {
    assert back % 4 == if quarter % 4 == 0 then 0 else 4 - quarter % 4;
  }

  lemma Cancel(p: real, q: real, r: real, t: real, x: real, y: real)
    requires p * x + q * y == 0.0 && r * x + t * y == 0.0 && p * t - r * q != 0.0
    ensures x == 0.0 && y == 0.0
  {
    calc {
      (p * t - r * q) * x;
      t * (p * x + q * y) - q * (r * x + t * y);
      0.0;
    }
    calc {
      (p * t - r * q) * y;
      p * (r * x + t * y) - r * (p * x + q * y);
      0.0;
    }
    NoZeroDivisor(p * t - r * q, x);
    NoZeroDivisor(p * t - r * q, y);
  }

  lemma NoZeroDivisor(a: real, x: real)
    requires a * x == 0.0 && a != 0.0
    ensures x == 0.0
  {
  }

  lemma Difference(p: real, x: real, y: real)
    ensures p * (x - y) == x * p - y * p
  {
  }

  lemma ThroughIsInjective(v: Vector, w: Vector, m: Matrix)
    requires Determinant(m) != 0.0 && Through(v, m) == Through(w, m)
    ensures v == w
  {
    var x, y := v.x - w.x, v.y - w.y;
    Difference(m.a, v.x, w.x);
    Difference(m.c, v.y, w.y);
    Difference(m.b, v.x, w.x);
    Difference(m.d, v.y, w.y);
    Cancel(m.a, m.c, m.b, m.d, x, y);
  }

  /** The displacement is seen as the pointer's exactly on pages that are not shown rotated, since the
      matrix that is inverted already holds the rotation. */
  lemma SeenIffUnrotated(x: real, y: real, ctm: Matrix, quarter: nat)
    requires Inverted(ctm).Some? && (x != 0.0 || y != 0.0)
    ensures Through(Displacement(x, y, ctm, quarter), ctm) == Vector(x, -y) <==> quarter % 4 == 0
  {
    DisplacementIsSeen(x, y, ctm);
    InvertedFlips(ctm);
    var u := Displacement(x, y, ctm, 0);
    hide Through, Inverted, Determinant;
    if Through(Turned(u, quarter), ctm) == Vector(x, -y) {
      ThroughIsInjective(Turned(u, quarter), u, ctm);
      if quarter % 4 != 0 {
        assert u == Vector(0.0, 0.0);
        NothingThrough(ctm);
      }
    }
  }

  lemma NothingThrough(m: Matrix)
    ensures Through(Vector(0.0, 0.0), m) == Vector(0.0, 0.0)
  {
  }

  // ------------------------------------------------------------------------------------------
  // The edit
  // ------------------------------------------------------------------------------------------

  /** createOperatorTranslation. */
  function TranslationOp(v: Vector): Label {
    Simple("cm", [Real(1.0), Real(0.0), Real(0.0), Real(1.0), Real(v.x), Real(v.y)])
  }

  function Opposite(v: Vector): Vector {
    Vector(-v.x, -v.y)
  }

  predicate InLimits(m: Matrix) {
    Clamped(m) == m
  }

  function Moved(m: Matrix, w: Vector): Matrix {
    m.(e := m.e + w.x, f := m.f + w.y)
  }

  lemma TranslationMoves(v: Vector, ctm: Matrix)
    ensures Product(Translation(v), ctm) == Moved(ctm, Through(v, ctm))
  {
    var t, p := Translation(v), Product(Translation(v), ctm);
    assert t.a == 1.0 && t.b == 0.0 && t.c == 0.0 && t.d == 1.0 && t.e == v.x && t.f == v.y;
    assert p.a == ctm.a;
    assert p.b == ctm.b;
    assert p.c == ctm.c;
    assert p.d == ctm.d;
    assert p.e == Through(v, ctm).x + ctm.e;
    assert p.f == Through(v, ctm).y + ctm.f;
  }

  lemma OppositeThrough(v: Vector, m: Matrix)
    ensures Through(Opposite(v), m) == Opposite(Through(v, m))
  {
    Negate(v.x, m.a);
    Negate(v.y, m.c);
    Negate(v.x, m.b);
    Negate(v.y, m.d);
  }

  lemma Negate(x: real, a: real)
    ensures -x * a == -(x * a)
  {
  }

  lemma MovedBack(v: Vector, ctm: Matrix)
    ensures var m := Moved(ctm, Through(v, ctm)); Product(Translation(Opposite(v)), m) == ctm
  {
    var m := Moved(ctm, Through(v, ctm));
    OppositeThrough(v, ctm);
    assert Through(Opposite(v), m) == Through(Opposite(v), ctm);
    hide Through, Product;
    TranslationMoves(Opposite(v), m);
  }

  lemma RunsTranslation(s: GState, v: Vector)
    ensures Step(s, TranslationOp(v)) == GState(ConcatCTM(Translation(v), s.ctm), s.saved)
  {
    hide ConcatCTM;
  }

  /** Around the image the matrix moves by the displacement and then back. */
  lemma TranslationsCancel(s: GState, v: Vector)
    requires InLimits(s.ctm) && InLimits(Moved(s.ctm, Through(v, s.ctm)))
    ensures Step(s, TranslationOp(v)) == GState(Moved(s.ctm, Through(v, s.ctm)), s.saved)
    ensures Step(Step(s, TranslationOp(v)), TranslationOp(Opposite(v))) == s
  {
    hide Step, TranslationOp, Through, Product, Translation, Clamped;
    TranslationMoves(v, s.ctm);
    MovedBack(v, s.ctm);
    RunsTranslation(s, v);
    RunsTranslation(Step(s, TranslationOp(v)), Opposite(v));
  }

  lemma ClampedMove(s: GState, v: Vector)
    ensures Step(s, TranslationOp(v)).ctm == Clamped(Moved(s.ctm, Through(v, s.ctm)))
  {
    hide Step, TranslationOp, Through, Product, Translation, Clamped;
    TranslationMoves(v, s.ctm);
    RunsTranslation(s, v);
  }

  /** From a matrix within the limit, the image runs with its matrix moved by the displacement, cut off at the
      limit; when nothing is cut off, every operator behind it runs in the state it ran in without the edit. */
  lemma EditMovesOnlyTheImage(s: GState, before: seq<Label>, image: Label, after: seq<Label>, v: Vector)
    requires image.InlineImage? && InLimits(Run(s, before).ctm)
    ensures var m := Run(s, before).ctm;
      var dragged := before + [TranslationOp(v), image, TranslationOp(Opposite(v))];
      && Run(s, before + [TranslationOp(v)]).ctm == Clamped(Moved(m, Through(v, m)))
      && (InLimits(Moved(m, Through(v, m))) ==>
            && Run(s, dragged) == Run(s, before + [image])
            && Run(s, dragged + after) == Run(s, before + [image] + after))
  {
    hide Through, Moved, Clamped;
    var t, u := TranslationOp(v), TranslationOp(Opposite(v));
    var here := Run(s, before);
    hide TranslationOp;
    ClampedMove(here, v);
    OneStep(here, t);
    hide Run;
    RunInParts(s, before, [t]);
    if InLimits(Moved(here.ctm, Through(v, here.ctm))) {
      TranslationsCancel(here, v);
      ImageBetween(here, t, image, u);
      RunInParts(s, before, [t, image, u]);
      RunInParts(s, before, [image]);
      RunInParts(s, before + [t, image, u], after);
      RunInParts(s, before + [image], after);
    }
  }

  lemma ImageBetween(s: GState, t: Label, image: Label, u: Label)
    requires image.InlineImage?
    ensures Run(s, [t, image, u]) == Step(Step(s, t), u) && Run(s, [image]) == s
  {
    hide Step;
    OneStep(s, t);
    OneStep(s, image);
    OneStep(Run(s, [t]), image);
    OneStep(Run(s, [t, image]), u);
    RunInParts(s, [t], [image]);
    RunInParts(s, [t, image], [u]);
    assert [t] + [image] == [t, image] && [t, image] + [u] == [t, image, u];
  }

  lemma OneStep(s: GState, l: Label)
    ensures Run(s, [l]) == Step(s, l)
    ensures l.InlineImage? ==> Step(s, l) == s
  {
    hide Step;
    RunStep(s, [l]);
    assert [l][..0] == [];
    ImageStep(s, l);
  }

  lemma ImageStep(s: GState, l: Label)
    ensures l.InlineImage? ==> Step(s, l) == s
  {
  }

  /** Entries that start within the limit stay there, in the current matrix and in the saved ones. */
  lemma {:induction false} RunInLimits(s: GState, ops: seq<Label>)
    requires InLimits(s.ctm) && forall i :: 0 <= i < |s.saved| ==> InLimits(s.saved[i])
    ensures InLimits(Run(s, ops).ctm) && forall i :: 0 <= i < |Run(s, ops).saved| ==> InLimits(Run(s, ops).saved[i])
  {
    if ops != [] {
      RunInLimits(s, ops[..|ops| - 1]);
      RunStep(s, ops);
      hide Run;
      StepInLimits(Run(s, ops[..|ops| - 1]), ops[|ops| - 1]);
    }
  }

  lemma StepInLimits(s: GState, l: Label)
    requires InLimits(s.ctm) && forall i :: 0 <= i < |s.saved| ==> InLimits(s.saved[i])
    ensures InLimits(Step(s, l).ctm) && forall i :: 0 <= i < |Step(s, l).saved| ==> InLimits(Step(s, l).saved[i])
  {
    hide Product, CmOf;
    if IsCm(l) {
      ClampedInLimits(Product(CmOf(l), s.ctm));
    }
  }

  lemma ClampedInLimits(m: Matrix)
    ensures InLimits(Clamped(m))
  {
  }

  /** With v and its opposite around it, the image's matrix is moved by d exactly when that is within the limit;
      then every operator behind it, and so every other operator, runs in the state it ran in. */
  ghost predicate OnlyImageMoves(before: seq<Label>, image: Label, after: seq<Label>, start: GState, v: Vector,
                                 d: Vector)
  {
    var m := Run(start, before).ctm;
    var dragged := before + [TranslationOp(v), image, TranslationOp(Opposite(v))];
    && (Run(start, before + [TranslationOp(v)]).ctm == Moved(m, d) <==> InLimits(Moved(m, d)))
    && (InLimits(Moved(m, d)) ==>
        forall n :: 0 <= n <= |after| ==> Run(start, dragged + after[..n]) == Run(start, before + [image] + after[..n]))
  }

  /** Dragging an image by (dx, dy) pixels on a page not shown rotated, from an initial matrix within the limit: the
      image is moved by exactly that much in device space, and nothing else is. */
  lemma DragMovesTheImage(before: seq<Label>, image: Label, after: seq<Label>, initial: Matrix, dx: real, dy: real,
                          quarter: nat)
    requires image.InlineImage? && Inverted(Run(GState(initial, []), before).ctm).Some? && InLimits(initial)
    requires quarter % 4 == 0
    ensures var start := GState(initial, []);
      var v := Displacement(dx, -dy, Run(start, before).ctm, quarter);
      OnlyImageMoves(before, image, after, start, v, Vector(dx, dy))
  {
    hide Run, Inverted, Moved, TranslationOp, Displacement, Through, Clamped;
    var start := GState(initial, []);
    var m := Run(start, before).ctm;
    var v := Displacement(dx, -dy, m, quarter);
    RunInLimits(start, before);
    Unturned(dx, -dy, m, quarter);
    DisplacementIsSeen(dx, -dy, m);
    EditMovesOnlyTheImage(start, before, image, [], v);
    var dragged := before + [TranslationOp(v), image, TranslationOp(Opposite(v))];
    if InLimits(Moved(m, Vector(dx, dy))) {
      forall n | 0 <= n <= |after|
        ensures Run(start, dragged + after[..n]) == Run(start, before + [image] + after[..n])
      {
        EditMovesOnlyTheImage(start, before, image, after[..n], v);
      }
    }
  }

  lemma Unturned(x: real, y: real, ctm: Matrix, quarter: nat)
    requires Inverted(ctm).Some? && quarter % 4 == 0
    ensures Displacement(x, y, ctm, quarter) == Displacement(x, y, ctm, 0)
  {
    hide Through, Inverted;
  }
}
