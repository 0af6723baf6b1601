/** The tree view of linked operators: finding the composite that holds an operator, and what an edit of
    one child list does to the whole shape. */
module OperatorTree {
  import opened Forests
  import opened PdfOperators

  ghost function ChildLists(s: set<PdfOperator>): map<PdfOperator, seq<PdfOperator>>
    reads s`children
  {
    map o | o in s :: o.children
  }

  /** Shaped, said of a snapshot of the child lists. */
  lemma {:induction false} ShapedIsFits(f: Forest<PdfOperator>, ch: map<PdfOperator, seq<PdfOperator>>)
    requires forall o: PdfOperator :: o in Flat(f) ==> o in ch && ch[o] == o.children
    ensures Shaped(f) <==>
            Fits(f, ch) && forall o: PdfOperator :: o in Flat(f) && o.children != [] ==> o.content.Composite?
  {
    match f
    case Empty =>
    case Tree(r, k, s) =>
      ShapedIsFits(k, ch);
      ShapedIsFits(s, ch);
      RootsInFlat(k);
      assert r in Flat(f);
      if Fits(f, ch) && forall o: PdfOperator :: o in Flat(f) && o.children != [] ==> o.content.Composite? {
        assert forall o: PdfOperator :: o in Flat(k) ==> o in Flat(f);
        assert forall o: PdfOperator :: o in Flat(s) ==> o in Flat(f);
      }
  }

  /** ch lists the children of f's operators as they were before an edit that replaced x by the roots of g
      in the child lists outside the subtree of x. */
  ghost predicate ChildrenSpliced(f: Forest<PdfOperator>, x: PdfOperator, g: seq<PdfOperator>,
                                  ch: map<PdfOperator, seq<PdfOperator>>)
    requires Fits(f, ch)
    reads Elems(f)`children
  {
    FitsInside(f, ch);
    forall o: PdfOperator :: o in Flat(f) ==>
      o.children == (if o == x || o in Flat(Kids(f, x)) then ch[o] else ReplaceIn(ch[o], x, g))
  }

  /** Such an edit makes the spliced shape ... */
  lemma SplicedShape(f: Forest<PdfOperator>, x: PdfOperator, g: Forest<PdfOperator>,
                     ch: map<PdfOperator, seq<PdfOperator>>)
    requires Fits(f, ch) && Distinct(Flat(f)) && x in Flat(f) && Shaped(g)
    requires ChildrenSpliced(f, x, Roots(g), ch)
    requires forall o: PdfOperator :: o in Flat(f) && o.children != [] ==> o.content.Composite?
    ensures Shaped(Splice(f, x, g))
  {
    var ch' := ChildLists(Elems(f) + Elems(g));
    assert Fits(g, ch') && forall o: PdfOperator :: o in Flat(g) && o.children != [] ==> o.content.Composite? by {
      ShapedIsFits(g, ch');
    }
    assert Fits(Splice(f, x, g), ch') by {
      FitsInside(f, ch);
      SpliceFits(f, x, g, ch, ch');
    }
    SplicedMembers(f, x, g);
    ShapedIsFits(Splice(f, x, g), ch');
  }

  /** ... and leaves the subtree of x as it was. */
  lemma CutShape(f: Forest<PdfOperator>, x: PdfOperator, g: seq<PdfOperator>,
                 ch: map<PdfOperator, seq<PdfOperator>>)
    requires Fits(f, ch) && x in Flat(f) && ChildrenSpliced(f, x, g, ch)
    requires forall o: PdfOperator :: o in Flat(f) && o.children != [] ==> o.content.Composite?
    ensures Shaped(Single(x, Kids(f, x)))
  {
    FitsInside(f, ch);
    KidsFits(f, x, ch);
    KidsInside(f, x);
    ShapedIsFits(Single(x, Kids(f, x)), ch);
  }

  lemma SplicedMembers<T>(f: Forest<T>, x: T, g: Forest<T>)
    requires x in Flat(f)
    ensures forall o :: o in Flat(Splice(f, x, g)) ==> o in Flat(f) || o in Flat(g)
  {
    SubtreeIsSegment(f, x);
    SpliceFlat(f, x, g);
  }

  ghost predicate Snapshot(f: Forest<PdfOperator>, ch: map<PdfOperator, seq<PdfOperator>>) {
    && Fits(f, ch) && Distinct(Flat(f))
    && forall o: PdfOperator :: o in Flat(f) && o in ch && ch[o] != [] ==> o.content.Composite?
  }

  /** The child lists are as in ch, except that the list holding x, if any, has x replaced by g. */
  ghost predicate HolderEdited(f: Forest<PdfOperator>, x: PdfOperator, g: seq<PdfOperator>,
                               ch: map<PdfOperator, seq<PdfOperator>>)
    requires x in Flat(f)
    reads Elems(f)`children
  {
    forall o: PdfOperator :: o in Flat(f) && o in ch ==>
      o.children == if x !in Roots(f) && o == Parent(f, x) then ReplaceIn(ch[o], x, g) else ch[o]
  }

  lemma ChildrenEdited(f: Forest<PdfOperator>, x: PdfOperator, g: seq<PdfOperator>,
                       ch: map<PdfOperator, seq<PdfOperator>>)
    requires Snapshot(f, ch) && x in Flat(f) && HolderEdited(f, x, g, ch)
    ensures ChildrenSpliced(f, x, g, ch)
    ensures forall o: PdfOperator :: o in Flat(f) && o.children != [] ==> o.content.Composite?
  {
    FitsInside(f, ch);
    KidsInside(f, x);
    SpliceDistinct(f, x, Empty);
    if x in Roots(f) {
      NoParent(f, x, ch);
    } else {
      OneParent(f, x, ch);
    }
    forall o: PdfOperator | o in Flat(f) && x !in ch[o] ensures ReplaceIn(ch[o], x, g) == ch[o] {
      ReplaceAbsent(ch[o], x, g);
    }
  }

  /** An edit of the one list that holds x splices the shape and cuts out the subtree of x. */
  lemma TreeEdited(f: Forest<PdfOperator>, x: PdfOperator, g: Forest<PdfOperator>, keep: bool,
                   ch: map<PdfOperator, seq<PdfOperator>>)
    requires Snapshot(f, ch) && x in Flat(f) && Shaped(g)
    requires HolderEdited(f, x, (if keep then [x] else []) + Roots(g), ch)
    ensures Shaped(Single(x, Kids(f, x)))
    ensures Shaped(if keep then InsertAfter(f, x, g) else Splice(f, x, g))
  {
    var h := if keep then Tree(x, Kids(f, x), g) else g;
    assert Roots(h) == (if keep then [x] else []) + Roots(g);
    ChildrenEdited(f, x, Roots(h), ch);
    CutShape(f, x, Roots(h), ch);
    SplicedShape(f, x, h, ch);
  }

  /** Which child lists hold x. */
  lemma HeldByParent(f: Forest<PdfOperator>, x: PdfOperator)
    requires Distinct(Flat(f)) && Shaped(f)
    ensures x in Flat(f) && x !in Roots(f) ==> Parent(f, x) in Before(f, x)
    ensures forall p: PdfOperator :: p in Flat(f) ==>
              (x in p.children <==> x in Flat(f) && x !in Roots(f) && p == Parent(f, x))
    ensures forall p: PdfOperator :: p in Flat(f) && p.children != [] ==> p.content.Composite?
  {
    var ch := ChildLists(Elems(f));
    ShapedIsFits(f, ch);
    if x in Flat(f) && x !in Roots(f) {
      OneParent(f, x, ch);
    } else {
      NoParent(f, x, ch);
    }
  }

  /** Where the search for x ends: at its parent, which comes before x, or past the end. */
  lemma ParentPosition(f: Forest<PdfOperator>, x: PdfOperator) returns (k: nat)
    requires Distinct(Flat(f)) && Shaped(f) && x !in Roots(f)
    ensures k <= |Flat(f)| && x !in Flat(f)[..k]
    ensures x in Flat(f) ==> k < |Flat(f)| && Flat(f)[k] == Parent(f, x) != x
    ensures x !in Flat(f) ==> k == |Flat(f)|
    ensures forall i :: 0 <= i < k ==> x !in Flat(f)[i].children
    ensures k < |Flat(f)| ==> x in Flat(f)[k].children && Flat(f)[k].IsComposite()
  {
    HeldByParent(f, x);
    if x in Flat(f) {
      SubtreeIsSegment(f, x);
      k :| 0 <= k < |Before(f, x)| && Before(f, x)[k] == Parent(f, x);
      assert Flat(f)[|Before(f, x)|] == x;
      assert Flat(f)[k] == Parent(f, x);
    } else {
      k := |Flat(f)|;
    }
    assert forall i :: 0 <= i < |Flat(f)| ==> Flat(f)[i] in Flat(f);
  }

  /** The composite whose children include oper, searched along the queue q from its first operator; null
      stands for the exception thrown when the search runs off the end. */
  method FindCompositeOfPdfOperator(first: PdfOperator, oper: PdfOperator,
                                    ghost q: seq<PdfOperator>, ghost k: nat)
    returns (composite: PdfOperator?)
    requires Chain(q, null, null) && q != [] && first == q[0]
    requires k <= |q| && oper !in q[..k] && forall i :: 0 <= i < k ==> oper !in q[i].children
    requires k < |q| ==> oper in q[k].children && q[k].IsComposite()
    ensures composite == if k < |q| then q[k] else null
    ensures composite != null ==> oper in composite.children
  {
    var cur: PdfOperator? := first;
    ghost var i: nat := 0;
    while cur != null
      invariant i <= k && cur == (if i < |q| then q[i] else null)
      decreases k - i
    {
      NextInChain(q, i);
      if cur.IsComposite() {
        if oper in cur.children {
          return cur;
        }
      } else if cur == oper {
        // The exception for a first-level operator; callers have looked there first.
        assert false;
      }
      cur := cur.next;
      i := i + 1;
    }
    return null;
  }
}
