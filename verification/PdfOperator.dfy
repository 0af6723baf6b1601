/** Content stream operators as linked objects: each one has a list of children and a place in a flat
    doubly linked queue. */
module PdfOperators {
  import opened Forests
  import opened PdfObjects

  /** What an operator prints as, apart from its children. */
  datatype Label =
    | Simple(name: string, operands: seq<Obj>)
    | Composite(begin: string, endTag: string)
    | InlineImage(entries: seq<Entry>, bytes: string)
  {
    function OperatorName(): string {
      match this
      case Simple(n, _) => n
      case Composite(b, _) => b
      case InlineImage(_, _) => "BI"
    }
  }

  class PdfOperator {
    const content: Label
    var children: seq<PdfOperator>
    var prev: PdfOperator?
    var next: PdfOperator?

    constructor (content: Label)
      ensures this.content == content && children == [] && prev == null && next == null
    {
      this.content := content;
      children := [];
      prev := null;
      next := null;
    }

    predicate IsComposite() {
      !content.Simple?
    }

    /** Erases op from the children, leaving the queue alone. */
    method Remove(op: PdfOperator)
      requires op in children
      modifies this`children
      ensures children == ReplaceIn(old(children), op, [])
    {
      var i := IndexOf(children, op);
      ReplaceAt(children, op, [], i);
      children := children[..i] + children[i + 1..];
    }

    /** Inserts newOper behind oper among the children, leaving the queue alone. */
    method InsertAfterChild(oper: PdfOperator, newOper: PdfOperator)
      requires oper in children
      modifies this`children
      ensures children == ReplaceIn(old(children), oper, [oper, newOper])
    {
      var i := IndexOf(children, oper);
      InsertAt(children, oper, newOper, i);
      children := children[..i + 1] + [newOper] + children[i + 1..];
    }
  }

  /** std::find: the first position of x, or the length of s. */
  function IndexOf<T(==)>(s: seq<T>, x: T): (i: nat)
    ensures i <= |s| && x !in s[..i]
    ensures i < |s| <==> x in s
    ensures i < |s| ==> s[i] == x
  {
    if s == [] || s[0] == x then 0 else 1 + IndexOf(s[1..], x)
  }

  lemma {:induction false} ReplaceAt<T>(s: seq<T>, x: T, g: seq<T>, i: nat)
    requires i < |s| && x !in s[..i] && s[i] == x
    ensures ReplaceIn(s, x, g) == s[..i] + g + s[i + 1..]
  {
    if i == 0 {
      assert s[..0] + g == g;
    } else {
      assert s[0] == s[..i][0];
      assert s[1..][..i - 1] == s[..i][1..];
      ReplaceAt(s[1..], x, g, i - 1);
      assert s[1..][i - 1 + 1..] == s[i + 1..];
    }
  }

  lemma InsertAt<T>(s: seq<T>, x: T, y: T, i: nat)
    requires i < |s| && x !in s[..i] && s[i] == x
    ensures ReplaceIn(s, x, [x, y]) == s[..i + 1] + [y] + s[i + 1..]
  {
    ReplaceAt(s, x, [x, y], i);
    TakeOneMore(s, i);
    AppendPair(s[..i], x, y);
  }

  lemma TakeOneMore<T>(s: seq<T>, i: nat)
    requires i < |s|
    ensures s[..i + 1] == s[..i] + [s[i]]
  {
  }

  lemma AppendPair<T>(s: seq<T>, x: T, y: T)
    ensures s + [x, y] == s + [x] + [y]
  {
  }

  // ------------------------------------------------------------------------------------------
  // The two views
  // ------------------------------------------------------------------------------------------

  /** The children fields spell out f, and only composites other than inline images have children. */
  ghost predicate Shaped(f: Forest<PdfOperator>)
    reads Elems(f)`children
  {
    match f
    case Empty => true
    case Tree(r, k, s) =>
      assert Elems(k) <= Elems(f) && Elems(s) <= Elems(f) && r in Elems(f);
      r.children == Roots(k) && (k.Tree? ==> r.content.Composite?) && Shaped(k) && Shaped(s)
  }

  /** Neighbours in s point at each other. */
  ghost predicate Linked(s: seq<PdfOperator>)
    reads s`prev, s`next
  {
    forall i :: 0 < i < |s| ==> s[i].prev == s[i - 1] && s[i - 1].next == s[i]
  }

  /** The prev and next fields of s make one queue segment between the neighbours p and n. */
  ghost predicate Chain(s: seq<PdfOperator>, p: PdfOperator?, n: PdfOperator?)
    reads s`prev, s`next
  {
    s != [] ==> s[0].prev == p && s[|s| - 1].next == n && Linked(s)
  }

  lemma NextInChain(s: seq<PdfOperator>, i: nat)
    requires Chain(s, null, null) && i < |s|
    ensures s[i].next == if i + 1 < |s| then s[i + 1] else null
    ensures s[i].prev == if i > 0 then s[i - 1] else null
  {
    var j := i + 1;
    assert j < |s| ==> s[j].prev == s[j - 1] && s[j - 1].next == s[j];
  }

  ghost predicate Threaded(f: Forest<PdfOperator>)
    reads Elems(f)`prev, Elems(f)`next
  {
    Chain(Flat(f), null, null)
  }

  /** A tree or forest of its own, both views agreeing. */
  ghost predicate WellLinked(f: Forest<PdfOperator>)
    reads Elems(f)
  {
    Distinct(Flat(f)) && Shaped(f) && Threaded(f)
  }

  /** Operators in a forest exist already, so a call that modifies nothing leaves them as they are. */
  lemma {:induction false} InHeap(f: Forest<PdfOperator>)
    ensures forall i :: 0 <= i < |Flat(f)| ==> allocated(Flat(f)[i])
  {
    match f
    case Empty =>
    case Tree(_, k, s) =>
      InHeap(k);
      InHeap(s);
  }

  /** Shaped depends on the child lists of the forest's own operators only. */
  twostate lemma {:induction false} StaysShaped(f: Forest<PdfOperator>)
    requires old(Shaped(f))
    requires forall i :: 0 <= i < |Flat(f)| ==>
               old(allocated(Flat(f)[i])) && Flat(f)[i].children == old(Flat(f)[i].children)
    ensures Shaped(f)
  {
    match f
    case Empty =>
    case Tree(r, k, s) =>
      var q := Flat(f);
      assert q[0] == r;
      assert forall i :: 0 <= i < |Flat(k)| ==> Flat(k)[i] == q[1 + i];
      assert forall i :: 0 <= i < |Flat(s)| ==> Flat(s)[i] == q[1 + |Flat(k)| + i];
      StaysShaped(k);
      StaysShaped(s);
  }

  function First(s: seq<PdfOperator>, default: PdfOperator?): PdfOperator? {
    if s == [] then default else s[0]
  }

  function Last(s: seq<PdfOperator>, default: PdfOperator?): PdfOperator? {
    if s == [] then default else s[|s| - 1]
  }

  lemma ChainConcat(a: seq<PdfOperator>, b: seq<PdfOperator>, p: PdfOperator?, n: PdfOperator?)
    ensures Chain(a + b, p, n) <==> Chain(a, p, First(b, n)) && Chain(b, Last(a, p), n)
  {
    var c := a + b;
    if a == [] || b == [] {
      assert a == [] ==> c == b;
      assert b == [] ==> c == a;
      return;
    }
    assert forall i :: 0 <= i < |a| ==> c[i] == a[i];
    assert forall i :: 0 <= i < |b| ==> c[|a| + i] == b[i];
    if Chain(c, p, n) {
      assert c[|a|].prev == c[|a| - 1];
      forall i | 0 < i < |b| ensures b[i].prev == b[i - 1] && b[i - 1].next == b[i] {
        var j := |a| + i;
        assert c[j].prev == c[j - 1] && c[j - 1].next == c[j];
      }
    }
    if Chain(a, p, b[0]) && Chain(b, a[|a| - 1], n) {
      forall j | 0 < j < |c| ensures c[j].prev == c[j - 1] && c[j - 1].next == c[j] {
        if |a| < j {
          var i := j - |a|;
          assert b[i].prev == b[i - 1] && b[i - 1].next == b[i];
        }
      }
    }
  }

  /** What the operators of a tree print as. */
  function Contents(f: Forest<PdfOperator>): Forest<Label> {
    match f
    case Empty => Empty
    case Tree(r, k, s) => Tree(r.content, Contents(k), Contents(s))
  }

  lemma {:induction false} ContentsConcat(f: Forest<PdfOperator>, g: Forest<PdfOperator>)
    ensures Contents(Concat(f, g)) == Concat(Contents(f), Contents(g))
  {
    match f
    case Empty =>
    case Tree(_, _, s) => ContentsConcat(s, g);
  }

  lemma {:induction false} ShapedConcat(f: Forest<PdfOperator>, g: Forest<PdfOperator>)
    ensures Shaped(Concat(f, g)) <==> Shaped(f) && Shaped(g)
  {
    match f
    case Empty =>
    case Tree(_, _, s) =>
      ShapedConcat(s, g);
      ConcatFlat(s, g);
  }

  // ------------------------------------------------------------------------------------------
  // Navigation
  // ------------------------------------------------------------------------------------------

  /** The last tree of a forest. */
  ghost function LastTree<T>(f: Forest<T>): Forest<T>
    requires f.Tree?
  {
    if f.rest == Empty then f else LastTree(f.rest)
  }

  lemma {:induction false} LastTreeEndsForest(f: Forest<PdfOperator>)
    requires f.Tree? && Shaped(f)
    ensures var t := LastTree(f);
      && t.Tree? && t.rest == Empty && Shaped(t)
      && t.root == Last(Roots(f), null)
      && Last(Flat(t), null) == Last(Flat(f), null)
      && |Flat(t)| <= |Flat(f)|
  {
    if f.rest.Tree? {
      LastTreeEndsForest(f.rest);
    }
  }

  /** The operator that ends the subtree of oper in the queue. */
  method GetLastOperator(oper: PdfOperator, ghost kids: Forest<PdfOperator>) returns (last: PdfOperator)
    requires Shaped(Single(oper, kids))
    ensures last == Last(Flat(Single(oper, kids)), null)
  {
    if !oper.IsComposite() || |oper.children| == 0 {
      return oper;
    }
    var opers := oper.children;
    LastTreeEndsForest(kids);
    ghost var t := LastTree(kids);
    last := opers[|opers| - 1];
    while last.IsComposite()
      invariant t.Tree? && t.rest == Empty && last == t.root && Shaped(t)
      invariant Last(Flat(t), null) == Last(Flat(Single(oper, kids)), null)
      decreases |Flat(t)|
    {
      opers := last.children;
      if opers == [] {
        break;
      }
      last := opers[|opers| - 1];
      LastTreeEndsForest(t.kids);
      t := LastTree(t.kids);
    }
  }
}
