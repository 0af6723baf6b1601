/** The image editor's scan along the prev links of a content stream, for the matrix current at an image. */
module MatrixScan {
  import opened Options
  import opened Forests
  import opened PdfOperators
  import opened Graphics
  import opened ImageDrag

  /** What the operators of a queue segment are. */
  function Labels(q: seq<PdfOperator>): (ls: seq<Label>)
    ensures |ls| == |q| && forall i :: 0 <= i < |q| ==> ls[i] == q[i].content
  {
    if q == [] then [] else Labels(q[..|q| - 1]) + [q[|q| - 1].content]
  }

  lemma LabelsConcat(p: seq<PdfOperator>, q: seq<PdfOperator>)
    ensures Labels(p + q) == Labels(p) + Labels(q)
  {
  }

  lemma {:induction false} LabelsOfFlat(f: Forest<PdfOperator>)
    ensures Labels(Flat(f)) == Flat(Contents(f))
  {
    match f
    case Empty =>
    case Tree(r, k, s) =>
      LabelsOfFlat(k);
      LabelsOfFlat(s);
      LabelsConcat([r] + Flat(k), Flat(s));
      LabelsConcat([r], Flat(k));
  }

  function Reversed(s: seq<Matrix>): seq<Matrix> {
    if s == [] then [] else [s[|s| - 1]] + Reversed(s[..|s| - 1])
  }

  lemma ReversedPush(s: seq<Matrix>, m: Matrix)
    ensures Reversed(s + [m]) == [m] + Reversed(s)
  {
    assert (s + [m])[..|s|] == s;
  }

  lemma {:induction false} ConcatFirst(ctm: Matrix, m: Matrix, ms: seq<Matrix>)
    ensures ConcatAll(ctm, [m] + ms) == ConcatAll(ConcatCTM(m, ctm), ms)
  {
    hide ConcatCTM;
    var all := [m] + ms;
    if ms == [] {
      assert all[..0] == [];
    } else {
      assert all[..|all| - 1] == [m] + ms[..|ms| - 1];
      ConcatFirst(ctm, m, ms[..|ms| - 1]);
    }
  }

  /** The backward loop of getInvertMatrix: from ii along the prev links. */
  method CollectMatrices(ii: PdfOperator, ghost q: seq<PdfOperator>, ghost k: nat) returns (cms: seq<Matrix>)
    requires Chain(q, null, null) && k < |q| && q[k] == ii
    requires forall i :: 0 <= i < |q| && q[i].content.OperatorName() == "cm" ==> IsCm(q[i].content)
    ensures Reversed(cms) == Found(Labels(q[..k + 1]), 0)
  {
    hide Reversed, Found, Chain, CmOf;
    var iter: PdfOperator? := ii;
    var ballance: nat := 0;
    ghost var n := k + 1;
    cms := [];
    NothingReversed(q[..k + 1]);
    while iter != null
      invariant 0 <= n <= k + 1 && iter == if n == 0 then null else q[n - 1]
      invariant Found(Labels(q[..k + 1]), 0) == Found(Labels(q[..n]), ballance) + Reversed(cms)
      decreases n
    {
      var name := iter.content.OperatorName();
      FoundBack(q, n, ballance, Reversed(cms));
      if name == "Q" {
        ballance := ballance + 1;
      } else if name == "q" && ballance > 0 {
        ballance := ballance - 1;
      } else if name == "cm" && ballance == 0 {
        ReversedPush(cms, CmOf(iter.content));
        cms := cms + [CmOf(iter.content)];
      }
      NextInChain(q, n - 1);
      n := n - 1;
      iter := iter.prev;
    }
    assert q[..0] == [];
    NothingFound(ballance, Reversed(cms));
  }

  lemma NothingReversed(q: seq<PdfOperator>)
    ensures Found(Labels(q), 0) == Found(Labels(q), 0) + Reversed([])
  {
  }

  lemma NothingFound(k: nat, rest: seq<Matrix>)
    ensures Found(Labels([]), k) + rest == rest
  {
  }

  /** One round of the scan. */
  lemma FoundBack(q: seq<PdfOperator>, n: nat, k: nat, rest: seq<Matrix>)
    requires 0 < n <= |q|
    ensures var l := q[n - 1].content;
      Found(Labels(q[..n]), k) + rest ==
      if IsRestore(l) then Found(Labels(q[..n - 1]), k + 1) + rest
      else if IsSave(l) && k > 0 then Found(Labels(q[..n - 1]), k - 1) + rest
      else if !IsSave(l) && IsCm(l) && k == 0 then Found(Labels(q[..n - 1]), k) + ([CmOf(l)] + rest)
      else Found(Labels(q[..n - 1]), k) + rest
  {
    hide CmOf, IsCm;
    var ls := Labels(q[..n]);
    assert ls[..|ls| - 1] == Labels(q[..n - 1]);
    FoundStep(ls, k);
  }

  /** getInvertMatrix: the matrix current at ii, and its inverse for displacements. */
  method GetInvertMatrix(ii: PdfOperator, initial: Matrix, ghost q: seq<PdfOperator>, ghost k: nat)
    returns (act: Matrix, res: Option<Matrix>)
    requires Chain(q, null, null) && k < |q| && q[k] == ii
    requires forall i :: 0 <= i < |q| && q[i].content.OperatorName() == "cm" ==> IsCm(q[i].content)
    ensures act == Run(GState(initial, []), Labels(q[..k + 1])[LastStray(Labels(q[..k + 1]))..]).ctm
    ensures NoStray(Labels(q[..k + 1])) ==> act == Run(GState(initial, []), Labels(q[..k + 1])).ctm
    ensures res == Inverted(act)
  {
    hide ConcatCTM, Found, Run, LastStray, NoStray, Inverted;
    var cms := CollectMatrices(ii, q, k);
    act := initial;
    ghost var all := Reversed(cms);
    while cms != []
      invariant ConcatAll(act, Reversed(cms)) == ConcatAll(initial, all)
      decreases |cms|
    {
      var cm := cms[|cms| - 1];
      ConcatFirst(act, cm, Reversed(cms[..|cms| - 1]));
      act := ConcatCTM(cm, act);
      cms := cms[..|cms| - 1];
    }
    ScanIsRun(Labels(q[..k + 1]), initial);
    res := Inverted(act);
  }
}
