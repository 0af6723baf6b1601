/** The current transformation matrix: running operators forwards with the saved-state stack, and the image
    editor's scan backwards with a counter of unmatched restores. Exact real arithmetic. */
module Graphics {
  import opened Forests
  import opened PdfObjects
  import opened PdfOperators
  import opened StreamGrammar

  datatype Matrix = Matrix(a: real, b: real, c: real, d: real, e: real, f: real)

  const IDENTITY: Matrix := Matrix(1.0, 0.0, 0.0, 1.0, 0.0, 0.0)

  const CTM_LIMIT: real := 10000000000.0

  function Clamp(x: real): real {
    if x > CTM_LIMIT then CTM_LIMIT else if x < -CTM_LIMIT then -CTM_LIMIT else x
  }

  /** The matrix that applies m first and then ctm. */
  function Product(m: Matrix, ctm: Matrix): Matrix {
    Matrix(m.a * ctm.a + m.b * ctm.c, m.a * ctm.b + m.b * ctm.d,
           m.c * ctm.a + m.d * ctm.c, m.c * ctm.b + m.d * ctm.d,
           m.e * ctm.a + m.f * ctm.c + ctm.e, m.e * ctm.b + m.f * ctm.d + ctm.f)
  }

  function Clamped(m: Matrix): Matrix {
    Matrix(Clamp(m.a), Clamp(m.b), Clamp(m.c), Clamp(m.d), Clamp(m.e), Clamp(m.f))
  }

  /** Clamping gives the number within the limit that is nearest. */
  lemma ClampIsNearest(x: real, y: real)
    requires -CTM_LIMIT <= y <= CTM_LIMIT
    ensures -CTM_LIMIT <= Clamp(x) <= CTM_LIMIT
    ensures (if x < Clamp(x) then Clamp(x) - x else x - Clamp(x)) <= if x < y then y - x else x - y
  {
  }

  /** GfxState::concatCTM. */
  function ConcatCTM(m: Matrix, ctm: Matrix): Matrix {
    Clamped(Product(m, ctm))
  }

  function NumberOf(o: Obj): real {
    match o
    case Int(i) => i as real
    case Real(r) => r
    case _ => 0.0
  }

  /** A transformation operator; the operator table gives it six numbers. */
  predicate IsCm(l: Label) {
    l.Simple? && l.name == "cm" && |l.operands| == 6
  }

  function CmOf(l: Label): Matrix
    requires IsCm(l)
  {
    var o := l.operands;
    Matrix(NumberOf(o[0]), NumberOf(o[1]), NumberOf(o[2]), NumberOf(o[3]), NumberOf(o[4]), NumberOf(o[5]))
  }

  predicate IsSave(l: Label) {
    l.OperatorName() == "q"
  }

  predicate IsRestore(l: Label) {
    l.OperatorName() == "Q"
  }

  // ------------------------------------------------------------------------------------------
  // Forwards
  // ------------------------------------------------------------------------------------------

  /** The current matrix and the saved ones, the latest first. */
  datatype GState = GState(ctm: Matrix, saved: seq<Matrix>)

  /** A restore without a saved state changes nothing. */
  function Step(s: GState, l: Label): GState {
    if IsSave(l) then GState(s.ctm, [s.ctm] + s.saved)
    else if IsRestore(l) then if s.saved == [] then s else GState(s.saved[0], s.saved[1..])
    else if IsCm(l) then GState(ConcatCTM(CmOf(l), s.ctm), s.saved)
    else s
  }

  function Run(s: GState, ops: seq<Label>): GState {
    if ops == [] then s else Step(Run(s, ops[..|ops| - 1]), ops[|ops| - 1])
  }

  /** Saved states after the operators. */
  function Depth(ops: seq<Label>): nat {
    if ops == [] then 0
    else
      var d, l := Depth(ops[..|ops| - 1]), ops[|ops| - 1];
      if IsSave(l) then d + 1 else if IsRestore(l) && d > 0 then d - 1 else d
  }

  /** Behind the last restore without a saved state. */
  function LastStray(ops: seq<Label>): (n: nat)
    ensures n <= |ops|
  {
    if ops == [] then 0
    else if IsRestore(ops[|ops| - 1]) && Depth(ops[..|ops| - 1]) == 0 then |ops|
    else LastStray(ops[..|ops| - 1])
  }

  predicate NoStray(ops: seq<Label>) {
    LastStray(ops) == 0
  }

  /** The matrix k saved states below the current one. */
  function Below(s: GState, k: nat): Matrix
    requires k <= |s.saved|
  {
    if k == 0 then s.ctm else s.saved[k - 1]
  }

  // ------------------------------------------------------------------------------------------
  // Points
  // ------------------------------------------------------------------------------------------

  datatype Point = Point(x: real, y: real)

  function Coordinate(u: real, v: real, w: real, p: Point): real {
    u * p.x + v * p.y + w
  }

  /** Where a matrix takes a point (section 8.3.4 of ISO 32000-1). */
  function Apply(m: Matrix, p: Point): Point {
    Point(Coordinate(m.a, m.c, m.e, p), Coordinate(m.b, m.d, m.f, p))
  }

  lemma Distributed(s: real, t: real, u: real, p: real)
    ensures (s + t + u) * p == s * p + t * p + u * p
  {
  }

  lemma Reordered(a: real, x: real, p: real)
    ensures a * x * p == a * p * x
  {
  }

  /** One coordinate of a point taken through two matrices. */
  lemma CoordinateApplies(m: Matrix, p: Point, u: real, v: real, w: real, r: real, s: real, t: real)
    requires r == m.a * u + m.b * v && s == m.c * u + m.d * v && t == m.e * u + m.f * v + w
    ensures Coordinate(r, s, t, p) == Coordinate(u, v, w, Apply(m, p))
  {
    Distributed(m.a * p.x, m.c * p.y, m.e, u);
    Distributed(m.b * p.x, m.d * p.y, m.f, v);
    Distributed(m.a * u, m.b * v, 0.0, p.x);
    Distributed(m.c * u, m.d * v, 0.0, p.y);
    Reordered(m.a, p.x, u);
    Reordered(m.c, p.y, u);
    Reordered(m.b, p.x, v);
    Reordered(m.d, p.y, v);
  }

  /** The product of two matrices takes a point where the second one takes it from where the first one did. */
  lemma ProductApplies(m: Matrix, ctm: Matrix, p: Point)
    ensures Apply(Product(m, ctm), p) == Apply(ctm, Apply(m, p))
  {
    hide Coordinate;
    var n := Product(m, ctm);
    CoordinateApplies(m, p, ctm.a, ctm.c, ctm.e, n.a, n.c, n.e);
    CoordinateApplies(m, p, ctm.b, ctm.d, ctm.f, n.b, n.d, n.f);
  }

  /** Numbers, as integers or as reals. */
  predicate AreNumbers(operands: seq<Obj>, x: seq<real>) {
    |operands| == |x| &&
    forall i :: 0 <= i < |x| ==> operands[i] == Real(x[i]) || (operands[i].Int? && operands[i].i as real == x[i])
  }

  /** All entries below the limit, so that none was cut off. */
  predicate BelowLimit(m: Matrix) {
    && -CTM_LIMIT < m.a < CTM_LIMIT && -CTM_LIMIT < m.b < CTM_LIMIT && -CTM_LIMIT < m.c < CTM_LIMIT
    && -CTM_LIMIT < m.d < CTM_LIMIT && -CTM_LIMIT < m.e < CTM_LIMIT && -CTM_LIMIT < m.f < CTM_LIMIT
  }

  lemma CmStep(s: GState, l: Label, x: seq<real>)
    requires l.Simple? && l.name == "cm" && |x| == 6 && AreNumbers(l.operands, x)
    ensures Step(s, l) == GState(ConcatCTM(Matrix(x[0], x[1], x[2], x[3], x[4], x[5]), s.ctm), s.saved)
  {
    hide ConcatCTM;
    assert CmOf(l) == Matrix(x[0], x[1], x[2], x[3], x[4], x[5]);
  }

  /** Where the operands a b c d e f of a transformation take a point. */
  function TakenTo(x: seq<real>, p: Point): Point
    requires |x| == 6
  {
    Point(x[0] * p.x + x[2] * p.y + x[4], x[1] * p.x + x[3] * p.y + x[5])
  }

  /** Behind "a b c d e f cm" a point (x, y) is where (a x + c y + e, b x + d y + f) was before. */
  lemma CmMovesPoints(s: GState, l: Label, x: seq<real>, p: Point)
    requires l.Simple? && l.name == "cm" && |x| == 6 && AreNumbers(l.operands, x)
    requires BelowLimit(Step(s, l).ctm)
    ensures Apply(Step(s, l).ctm, p) == Apply(s.ctm, TakenTo(x, p))
    ensures Step(s, l).saved == s.saved
  {
    hide *;
    AppliedTo(x, p);
    CmActs(s, l, x, p);
  }

  lemma CmActs(s: GState, l: Label, x: seq<real>, p: Point)
    requires l.Simple? && l.name == "cm" && |x| == 6 && AreNumbers(l.operands, x)
    requires BelowLimit(Step(s, l).ctm)
    ensures Apply(Step(s, l).ctm, p) == Apply(s.ctm, Apply(Matrix(x[0], x[1], x[2], x[3], x[4], x[5]), p))
    ensures Step(s, l).saved == s.saved
  {
    var m := Matrix(x[0], x[1], x[2], x[3], x[4], x[5]);
    CmStep(s, l, x);
    assert ConcatCTM(m, s.ctm) == Clamped(Product(m, s.ctm)) by {
      hide Clamped, Product;
    }
    hide *;
    Unclamped(Product(m, s.ctm));
    ProductApplies(m, s.ctm, p);
  }

  lemma AppliedTo(x: seq<real>, p: Point)
    requires |x| == 6
    ensures Apply(Matrix(x[0], x[1], x[2], x[3], x[4], x[5]), p) == TakenTo(x, p)
  {
  }

  lemma Unclamped(m: Matrix)
    ensures BelowLimit(Clamped(m)) ==> Clamped(m) == m
  {
  }

  // ------------------------------------------------------------------------------------------
  // Backwards
  // ------------------------------------------------------------------------------------------

  /** The matrices found on the way back from the end of ops, with k restores not yet matched. */
  function Found(ops: seq<Label>, k: nat): seq<Matrix> {
    if ops == [] then []
    else
      var front, l := ops[..|ops| - 1], ops[|ops| - 1];
      if IsRestore(l) then Found(front, k + 1)
      else if IsSave(l) && k > 0 then Found(front, k - 1)
      else if IsCm(l) && k == 0 then Found(front, k) + [CmOf(l)]
      else Found(front, k)
  }

  function ConcatAll(ctm: Matrix, ms: seq<Matrix>): Matrix {
    if ms == [] then ctm else ConcatCTM(ms[|ms| - 1], ConcatAll(ctm, ms[..|ms| - 1]))
  }

  lemma {:induction false} DeepFindsNothing(ops: seq<Label>, k: nat)
    requires k > Depth(ops)
    ensures Found(ops, k) == []
  {
    hide IsCm;
    if ops != [] {
      var front, l := ops[..|ops| - 1], ops[|ops| - 1];
      DeepFindsNothing(front, if IsRestore(l) then k + 1 else if IsSave(l) then k - 1 else k);
    }
  }

  lemma {:induction false} DepthIsSaved(ops: seq<Label>, ctm: Matrix)
    ensures |Run(GState(ctm, []), ops).saved| == Depth(ops)
  {
    hide IsCm, ConcatCTM;
    if ops != [] {
      DepthIsSaved(ops[..|ops| - 1], ctm);
    }
  }

  lemma SliceStep(ops: seq<Label>, n: nat)
    requires n < |ops|
    ensures ops[n..] != [] && ops[n..][|ops[n..]| - 1] == ops[|ops| - 1]
    ensures ops[n..][..|ops[n..]| - 1] == ops[..|ops| - 1][n..]
  {
  }

  lemma DepthStep(ops: seq<Label>)
    requires ops != []
    ensures var d, l := Depth(ops[..|ops| - 1]), ops[|ops| - 1];
      Depth(ops) == if IsSave(l) then d + 1 else if IsRestore(l) && d > 0 then d - 1 else d
  {
  }

  lemma StrayStep(ops: seq<Label>)
    requires ops != []
    ensures LastStray(ops) == if IsRestore(ops[|ops| - 1]) && Depth(ops[..|ops| - 1]) == 0 then |ops|
                              else LastStray(ops[..|ops| - 1])
  {
  }

  lemma {:induction false} StrayLeavesDepth(ops: seq<Label>)
    ensures Depth(ops[LastStray(ops)..]) == Depth(ops)
  {
    if ops != [] {
      hide IsSave, IsRestore, Depth, LastStray;
      var front, n := ops[..|ops| - 1], LastStray(ops);
      StrayLeavesDepth(front);
      StrayStep(ops);
      DepthStep(ops);
      if n < |ops| {
        SliceStep(ops, n);
        DepthStep(ops[n..]);
      } else {
        NoDepth(ops);
      }
    }
  }

  lemma NoDepth(ops: seq<Label>)
    requires LastStray(ops) == |ops|
    ensures ops[LastStray(ops)..] == [] && Depth([]) == 0
    ensures ops != [] ==> Depth(ops) == 0
  {
    assert ops[|ops|..] == [];
  }

  /** One step of the scan against one step forwards. */
  lemma ScanStep(s: GState, l: Label, init: Matrix, found: seq<Matrix>, k: nat)
    requires k <= |Step(s, l).saved| && !(IsRestore(l) && s.saved == [])
    requires var j := if IsRestore(l) then k + 1 else if IsSave(l) && k > 0 then k - 1 else k;
      j <= |s.saved| && ConcatAll(init, found) == Below(s, j)
    ensures var taken := if !IsRestore(l) && !IsSave(l) && IsCm(l) && k == 0 then found + [CmOf(l)] else found;
      ConcatAll(init, taken) == Below(Step(s, l), k)
  {
    hide ConcatCTM, IsCm, CmOf;
    if !IsRestore(l) && !IsSave(l) && IsCm(l) && k == 0 {
      assert (found + [CmOf(l)])[..|found|] == found;
    }
  }

  lemma FoundStep(ops: seq<Label>, k: nat)
    requires ops != []
    ensures var front, l := ops[..|ops| - 1], ops[|ops| - 1];
      var j := if IsRestore(l) then k + 1 else if IsSave(l) && k > 0 then k - 1 else k;
      Found(ops, k) == if !IsRestore(l) && !IsSave(l) && IsCm(l) && k == 0 then Found(front, j) + [CmOf(l)]
                       else Found(front, j)
  {
    hide CmOf;
  }

  lemma RunStep(s: GState, ops: seq<Label>)
    requires ops != []
    ensures Run(s, ops) == Step(Run(s, ops[..|ops| - 1]), ops[|ops| - 1])
  {
    hide Step;
  }

  /** The scan with a counter of k finds the k-th saved matrix, counted from the last stray restore on. */
  lemma {:induction false} ScanFinds(ops: seq<Label>, ctm: Matrix, k: nat)
    requires k <= Depth(ops)
    ensures var s := Run(GState(ctm, []), ops[LastStray(ops)..]);
      k <= |s.saved| && ConcatAll(ctm, Found(ops, k)) == Below(s, k)
  {
    var n := LastStray(ops);
    DepthIsSaved(ops[n..], ctm);
    StrayLeavesDepth(ops);
    if ops != [] {
      var front, l := ops[..|ops| - 1], ops[|ops| - 1];
      DepthStep(ops);
      StrayStep(ops);
      FoundStep(ops, k);
      if n == |ops| {
        assert ops[n..] == [];
        DeepFindsNothing(front, k + 1);
      } else {
        hide IsCm, ConcatCTM, Depth, Found, LastStray, IsSave, IsRestore, Run, Step, ConcatAll, CmOf, Below;
        SliceStep(ops, n);
        RunStep(GState(ctm, []), ops[n..]);
        DepthIsSaved(front[n..], ctm);
        StrayLeavesDepth(front);
        var j := if IsRestore(l) then k + 1 else if IsSave(l) && k > 0 then k - 1 else k;
        ScanFinds(front, ctm, j);
        ScanStep(Run(GState(ctm, []), front[n..]), l, ctm, Found(front, j), k);
      }
    }
  }

  /** Scanning backwards gives the current matrix of running forwards from the last stray restore, as if
      nothing had been concatenated before it. */
  lemma ScanIsRun(ops: seq<Label>, ctm: Matrix)
    ensures ConcatAll(ctm, Found(ops, 0)) == Run(GState(ctm, []), ops[LastStray(ops)..]).ctm
    ensures NoStray(ops) ==> ConcatAll(ctm, Found(ops, 0)) == Run(GState(ctm, []), ops).ctm
  {
    ScanFinds(ops, ctm, 0);
    assert ops[0..] == ops;
  }

  lemma {:induction false} RunInParts(s: GState, ops: seq<Label>, more: seq<Label>)
    ensures Run(s, ops + more) == Run(Run(s, ops), more)
  {
    hide Step;
    if more == [] {
      assert ops + more == ops;
    } else {
      assert (ops + more)[..|ops + more| - 1] == ops + more[..|more| - 1];
      RunInParts(s, ops, more[..|more| - 1]);
    }
  }

  lemma {:induction false} StrayIsBottom(ops: seq<Label>)
    ensures Depth(ops[..LastStray(ops)]) == 0
  {
    hide IsSave, IsRestore;
    if ops != [] {
      var front, n := ops[..|ops| - 1], LastStray(ops);
      StrayStep(ops);
      if n == |ops| {
        NoDepth(ops);
        assert ops[..n] == ops;
      } else {
        StrayIsBottom(front);
        assert front[..n] == ops[..n];
      }
    }
  }

  /** Running forwards reaches the last stray restore with nothing saved, and from there on does what the
      scan does; so the scan is right whenever the matrix there is still the initial one. */
  lemma ScanAndRunAgreeFromStray(ops: seq<Label>, ctm: Matrix)
    ensures var n, start := LastStray(ops), GState(ctm, []);
      && Run(start, ops[..n]).saved == []
      && Run(start, ops) == Run(Run(start, ops[..n]), ops[n..])
      && (Run(start, ops[..n]).ctm == ctm ==> ConcatAll(ctm, Found(ops, 0)) == Run(start, ops).ctm)
  {
    hide *;
    var n, start := LastStray(ops), GState(ctm, []);
    StrayIsBottom(ops);
    DepthIsSaved(ops[..n], ctm);
    assert ops == ops[..n] + ops[n..];
    RunInParts(start, ops[..n], ops[n..]);
    ScanIsRun(ops, ctm);
  }

  /** Behind a stray restore the scan is right for whatever operators follow, up to the next stray one,
      exactly when the current matrix at the restore is still the initial one. */
  lemma StrayRightIff(ops: seq<Label>, ctm: Matrix)
    requires LastStray(ops) == |ops|
    ensures Run(GState(ctm, []), ops).ctm == ctm <==>
            forall more :: LastStray(ops + more) == |ops| ==>
              ConcatAll(ctm, Found(ops + more, 0)) == Run(GState(ctm, []), ops + more).ctm
  {
    hide Found, ConcatAll, Run, LastStray;
    var start := GState(ctm, []);
    if Run(start, ops).ctm == ctm {
      forall more | LastStray(ops + more) == |ops|
        ensures ConcatAll(ctm, Found(ops + more, 0)) == Run(start, ops + more).ctm
      {
        assert (ops + more)[..|ops|] == ops;
        ScanAndRunAgreeFromStray(ops + more, ctm);
      }
    } else {
      assert ops + [] == ops;
      ScanIsRun(ops, ctm);
      assert ops[|ops|..] == [];
      NothingRun(start);
      assert ConcatAll(ctm, Found(ops + [], 0)) != Run(start, ops + []).ctm;
    }
  }

  lemma NothingRun(s: GState)
    ensures Run(s, []) == s
  {
  }

  /** Behind one matrix and a stray restore the scan is right exactly when the matrix changed nothing. */
  lemma StrayMisleads(l: Label, restore: Label, ctm: Matrix)
    requires IsCm(l) && IsRestore(restore)
    ensures ConcatAll(ctm, Found([l, restore], 0)) == Run(GState(ctm, []), [l, restore]).ctm
       <==> ConcatCTM(CmOf(l), ctm) == ctm
  {
    hide ConcatCTM;
    var ops := [l, restore];
    assert ops[..1] == [l] && [l][..0] == [];
    var start := GState(ctm, []);
    RunStep(start, [l]);
    RunStep(start, ops);
    assert Run(start, []) == start;
    FoundStep(ops, 0);
    DeepFindsNothing([l], 1);
  }

  // ------------------------------------------------------------------------------------------
  // Operator trees
  // ------------------------------------------------------------------------------------------

  /** Every restore is the end of its own save composite. */
  predicate Tidy(f: Forest<Label>, inSave: bool) {
    match f
    case Empty => true
    case Tree(l, k, s) =>
      && (IsRestore(l) ==> inSave && s == Empty)
      && Tidy(k, IsSave(l)) && Tidy(s, inSave)
  }

  lemma SaveAndRestoreAre(l: Label)
    requires Canonical(l)
    ensures IsSave(l) ==> l.Composite? && l.endTag == "Q"
    ensures IsRestore(l) ==> l.Simple?
  {
  }

  /** What being tidy means for the first operator, its children and its siblings. */
  lemma TidyParts(f: Forest<Label>, inSave: bool)
    requires f.Tree? && WellNested(f) && Tidy(f, inSave)
    ensures WellNested(f.kids) && Tidy(f.kids, IsSave(f.root)) && WellNested(f.rest) && Tidy(f.rest, inSave)
    ensures IsSave(f.root) ==> EndsWith(f.kids, "Q") && !IsRestore(f.root)
    ensures !IsSave(f.root) ==> !IsRestore(f.root) || (inSave && f.rest == Empty)
    ensures inSave && EndsWith(f, "Q") ==> if f.rest == Empty then IsRestore(f.root) else EndsWith(f.rest, "Q")
    ensures f.rest != Empty ==> !IsRestore(f.root)
  {
    hide Canonical;
    SaveAndRestoreAre(f.root);
  }

  lemma FlatBehind(before: seq<Label>, l: Label, k: Forest<Label>, s: Forest<Label>)
    ensures before + Flat(Tree(l, k, s)) == before + [l] + Flat(k) + Flat(s)
    ensures s == Empty ==> Flat(s) == []
  {
    FlatTree(l, k, s);
    assert s == Empty ==> Flat(s) == [];
    hide *;
    AppendAtEnd(before, [l] + Flat(k), Flat(s));
    AppendAtEnd(before, [l], Flat(k));
  }

  /** In a tidy, well-nested stream no operator is preceded by a stray restore. */
  lemma {:induction false} TidyHasNoStray(f: Forest<Label>, before: seq<Label>, inSave: bool)
    requires WellNested(f) && Tidy(f, inSave) && NoStray(before)
    requires inSave ==> Depth(before) > 0 && EndsWith(f, "Q")
    ensures NoStray(before + Flat(f))
    ensures Depth(before + Flat(f)) + (if inSave then 1 else 0) == Depth(before)
  {
    if f == Empty {
      assert before + Flat(f) == before;
    } else {
      hide WellNested, Tidy, Flat, Depth, LastStray, EndsWith, IsSave, IsRestore;
      var Tree(l, k, s) := f;
      TidyParts(f, inSave);
      FlatBehind(before, l, k, s);
      var here := before + [l];
      assert here[..|here| - 1] == before;
      DepthStep(here);
      StrayStep(here);
      TidyHasNoStray(k, here, IsSave(l));
      if s == Empty {
        assert here + Flat(k) + [] == here + Flat(k);
      } else {
        TidyHasNoStray(s, here + Flat(k), inSave);
      }
    }
  }
}
