/** The relinking steps that the content stream edits share, on queue segments. */
module QueueLinks {
  import opened Forests
  import opened PdfOperators
  import opened OperatorTree

  /** Three neighbouring segments. */
  lemma Chain3(a: seq<PdfOperator>, t: seq<PdfOperator>, b: seq<PdfOperator>)
    requires t != []
    ensures Chain(a + t + b, null, null)
       <==> Chain(a, null, t[0]) && Chain(t, Last(a, null), First(b, null)) && Chain(b, t[|t| - 1], null)
  {
    ChainConcat(a + t, b, null, null);
    ChainConcat(a, t, null, First(b, null));
  }

  lemma Apart<T>(a: seq<T>, t: seq<T>, b: seq<T>)
    requires Distinct(a + t + b)
    ensures Distinct(a) && Distinct(t) && Distinct(b)
    ensures forall x :: x in a ==> x !in t && x !in b
    ensures forall x :: x in t ==> x !in b
  {
    DistinctConcat(a + t, b);
    DistinctConcat(a, t);
    assert forall x :: x in a || x in t ==> x in a + t;
  }

  /** Changing the outward links of s, next of its last element and prev of its first, keeps s linked. */
  twostate lemma StaysLinked(s: seq<PdfOperator>)
    requires Distinct(s) && old(Linked(s))
    requires forall o: PdfOperator :: o in s && o != s[|s| - 1] ==> o.next == old(o.next)
    requires forall o: PdfOperator :: o in s && o != s[0] ==> o.prev == old(o.prev)
    ensures Linked(s)
  {
    forall i | 0 < i < |s| ensures s[i].prev == s[i - 1] && s[i - 1].next == s[i] {
      assert s[i] in s && s[i] != s[0] && s[i - 1] in s && s[i - 1] != s[|s| - 1];
    }
  }

  /** Takes the segment t, from op to last, out of the queue a + t + b. */
  method Unlink(op: PdfOperator, last: PdfOperator,
                ghost a: seq<PdfOperator>, ghost t: seq<PdfOperator>, ghost b: seq<PdfOperator>)
    requires Distinct(a + t + b) && Chain(a + t + b, null, null)
    requires t != [] && op == t[0] && last == t[|t| - 1]
    modifies {Last(a, null), last}`next, {First(b, null), op}`prev
    ensures Chain(a + b, null, null) && Chain(t, null, null)
  {
    Chain3(a, t, b);
    Apart(a, t, b);
    var nxt := last.next;
    var prv := op.prev;
    assert nxt != null ==> nxt in b && nxt !in a && nxt !in t;
    assert prv != null ==> prv in a && prv !in b && prv !in t;
    if nxt != null {
      nxt.prev := prv;
    }
    if prv != null {
      prv.next := nxt;
    }
    op.prev := null;
    last.next := null;
    StaysLinked(a);
    StaysLinked(b);
    StaysLinked(t);
    ChainConcat(a, b, null, null);
  }

  /** Links newOper, which starts the detached segment t, into the queue a + b behind cur. The queue is
      whole again exactly when newOper stands alone or goes to the end: the code points newOper's own
      next field at the successor of cur, not that of its last descendant. */
  method LinkBehind(cur: PdfOperator, newOper: PdfOperator,
                    ghost a: seq<PdfOperator>, ghost t: seq<PdfOperator>, ghost b: seq<PdfOperator>)
    requires Distinct(a + t + b) && Chain(a + b, null, null) && Chain(t, null, null)
    requires a != [] && cur == a[|a| - 1] && t != [] && newOper == t[0]
    modifies {cur, newOper}`next, {newOper, First(b, null)}`prev
    ensures Chain(a + t + b, null, null) <==> |t| == 1 || b == []
  {
    ChainConcat(a, b, null, null);
    Apart(a, t, b);
    var nxt := cur.next;
    assert nxt != null ==> nxt in b && nxt !in a && nxt !in t;
    assert cur in a && newOper in t;
    cur.next := newOper;
    newOper.prev := cur;
    if nxt != null {
      nxt.prev := newOper;
      newOper.next := nxt;
    }
    StaysLinked(a);
    StaysLinked(b);
    if |t| == 1 || b == [] {
      StaysLinked(t);
    } else {
      assert t[0].next == b[0] && t[1] in t && t[1] != b[0];
    }
    Chain3(a, t, b);
  }

  /** Links the detached segment t, which ends in last, in front of the queue b. */
  method LinkInFront(second: PdfOperator, last: PdfOperator,
                     ghost t: seq<PdfOperator>, ghost b: seq<PdfOperator>)
    requires Distinct(t + b) && Chain(t, null, null) && Chain(b, null, null)
    requires t != [] && last == t[|t| - 1] && b != [] && second == b[0]
    modifies last`next, second`prev
    ensures Chain(t + b, null, null)
  {
    DistinctConcat(t, b);
    assert last in t && second in b;
    second.prev := last;
    last.next := second;
    StaysLinked(t);
    StaysLinked(b);
    ChainConcat(t, b, null, null);
  }

  /** Puts the detached segment g in the place of t, from op to last, in the queue a + t + b. */
  method Relink(op: PdfOperator, last: PdfOperator, newOper: PdfOperator, newLast: PdfOperator,
                ghost a: seq<PdfOperator>, ghost t: seq<PdfOperator>, ghost b: seq<PdfOperator>,
                ghost g: seq<PdfOperator>)
    requires Distinct(a + t + b) && Chain(a + t + b, null, null)
    requires Distinct(a + g + b) && Chain(g, null, null) && forall x :: x in g ==> x !in t
    requires t != [] && op == t[0] && last == t[|t| - 1]
    requires g != [] && newOper == g[0] && newLast == g[|g| - 1]
    modifies {Last(a, null), last, newLast}`next, {First(b, null), op, newOper}`prev
    ensures Chain(a + g + b, null, null) && Chain(t, null, null)
  {
    Chain3(a, t, b);
    Apart(a, t, b);
    Apart(a, g, b);
    var prv := op.prev;
    var nxt := last.next;
    assert nxt != null ==> nxt in b && nxt !in a && nxt !in t && nxt !in g;
    assert prv != null ==> prv in a && prv !in b && prv !in t && prv !in g;
    assert b != [] ==> b[|b| - 1] in b;
    if nxt != null {
      nxt.prev := newLast;
      newLast.next := nxt;
    }
    if prv != null {
      prv.next := newOper;
      newOper.prev := prv;
    }
    op.prev := null;
    last.next := null;
    StaysLinked(a);
    StaysLinked(b);
    StaysLinked(t);
    StaysLinked(g);
    assert Chain(b, newLast, null);
    Chain3(a, g, b);
  }

  // ------------------------------------------------------------------------------------------
  // The same steps, for the segments that trees make
  // ------------------------------------------------------------------------------------------

  /** The child lists in ch are those of the operators in q. */
  ghost predicate Holds(q: seq<PdfOperator>, ch: map<PdfOperator, seq<PdfOperator>>)
    reads q`children
  {
    forall i :: 0 <= i < |q| ==> q[i] in ch && q[i].children == ch[q[i]]
  }

  ghost function SnapshotOf(q: seq<PdfOperator>): (ch: map<PdfOperator, seq<PdfOperator>>)
    reads q`children
    ensures Holds(q, ch)
  {
    map o: PdfOperator | o in q :: o.children
  }

  /** ch records the child lists of f. */
  ghost predicate Recorded(f: Forest<PdfOperator>, ch: map<PdfOperator, seq<PdfOperator>>) {
    Fits(f, ch) && forall o: PdfOperator :: o in Flat(f) && o in ch && ch[o] != [] ==> o.content.Composite?
  }

  lemma ShapedFromSnapshot(f: Forest<PdfOperator>, q: seq<PdfOperator>, ch: map<PdfOperator, seq<PdfOperator>>)
    requires Holds(q, ch) && forall o: PdfOperator :: o in Flat(f) ==> o in q
    ensures Shaped(f) <==> Recorded(f, ch)
  {
    ShapedIsFits(f, ch);
  }

  /** The queue segments that cutting out the subtree of x deals with. */
  lemma CutSegments(f: Forest<PdfOperator>, x: PdfOperator)
    requires x in Flat(f)
    ensures Flat(f) == Before(f, x) + Flat(Single(x, Kids(f, x))) + After(f, x)
    ensures Flat(Remove(f, x)) == Before(f, x) + After(f, x)
    ensures Last(Before(f, x), x) in Flat(f) && First(After(f, x), x) in Flat(f)
    ensures Last(Flat(Single(x, Kids(f, x))), null) in Flat(f)
  {
    hide Flat, Before, After, Kids, Splice;
    var b, t, a := Before(f, x), Flat(Single(x, Kids(f, x))), After(f, x);
    SubtreeIsSegment(f, x);
    SingleFlat(x, Kids(f, x));
    RemoveFlat(f, x);
    assert t[|t| - 1] in b + t + a;
  }

  /** Cuts the subtree of op out of the queue q of f. */
  method UnlinkTree(op: PdfOperator, ghost f: Forest<PdfOperator>, ghost q: seq<PdfOperator>,
                    ghost ch: map<PdfOperator, seq<PdfOperator>>)
    requires q == Flat(f) && Distinct(q) && Chain(q, null, null) && op in q && Holds(q, ch)
    requires Shaped(Single(op, Kids(f, op)))
    modifies q`prev, q`next
    ensures Threaded(Remove(f, op)) && Threaded(Single(op, Kids(f, op)))
    ensures Holds(q, ch)
  {
    hide Flat, Before, After, Kids, Splice;
    CutSegments(f, op);
    SingleFlat(op, Kids(f, op));
    var last := GetLastOperator(op, Kids(f, op));
    Unlink(op, last, Before(f, op), Flat(Single(op, Kids(f, op))), After(f, op));
  }

  lemma InBoth<T>(q: seq<T>, t: seq<T>)
    ensures forall x :: x in q || x in t ==> x in q + t
  {
  }

  /** Links the detached tree of newOper into the queue of f, behind the subtree of op. */
  method LinkTree(op: PdfOperator, newOper: PdfOperator, ghost kids: Forest<PdfOperator>,
                  ghost f: Forest<PdfOperator>, ghost q: seq<PdfOperator>, ghost t: seq<PdfOperator>,
                  ghost ch: map<PdfOperator, seq<PdfOperator>>)
    requires q == Flat(f) && t == Flat(Single(newOper, kids)) && op in q
    requires Distinct(q) && Distinct(t) && forall x: PdfOperator :: x in t ==> x !in q
    requires Chain(q, null, null) && Chain(t, null, null) && Holds(q + t, ch)
    requires Shaped(Single(op, Kids(f, op)))
    modifies (q + t)`prev, (q + t)`next
    ensures Threaded(InsertAfter(f, op, Single(newOper, kids))) <==> |t| == 1 || After(f, op) == []
    ensures Holds(q + t, ch)
  {
    hide Flat, Before, After, Kids, Splice, InsertAfter;
    ghost var a, b := Before(f, op) + Flat(Single(op, Kids(f, op))), After(f, op);
    InsertFlat(f, op, Single(newOper, kids));
    SingleFlat(op, Kids(f, op));
    SingleFlat(newOper, kids);
    InsertMembers(f, op, Single(newOper, kids));
    InBoth(q, t);
    assert First(b, op) in q && a[|a| - 1] in q && newOper in t;
    var last := GetLastOperator(op, Kids(f, op));
    LinkBehind(last, newOper, a, t, b);
  }

  /** Puts the detached tree of newOper in the place of the subtree of op in the queue of f. */
  method RelinkTree(op: PdfOperator, newOper: PdfOperator, ghost kids: Forest<PdfOperator>,
                    ghost f: Forest<PdfOperator>, ghost q: seq<PdfOperator>, ghost t: seq<PdfOperator>,
                    ghost ch: map<PdfOperator, seq<PdfOperator>>)
    requires q == Flat(f) && t == Flat(Single(newOper, kids)) && op in q
    requires Distinct(q) && Distinct(t) && forall x: PdfOperator :: x in t ==> x !in q
    requires Chain(q, null, null) && Chain(t, null, null) && Holds(q + t, ch)
    requires Shaped(Single(op, Kids(f, op))) && Shaped(Single(newOper, kids))
    modifies (q + t)`prev, (q + t)`next
    ensures Threaded(Splice(f, op, Single(newOper, kids))) && Threaded(Single(op, Kids(f, op)))
    ensures Holds(q + t, ch)
  {
    hide Flat, Before, After, Kids, Splice, InsertAfter, Shaped, Recorded;
    ghost var a, c, b := Before(f, op), Flat(Single(op, Kids(f, op))), After(f, op);
    InsertFlat(f, op, Single(newOper, kids));
    SingleFlat(op, Kids(f, op));
    SingleFlat(newOper, kids);
    InsertMembers(f, op, Single(newOper, kids));
    InBoth(q, t);
    assert First(b, op) in q && Last(a, op) in q && c[|c| - 1] in q && t[|t| - 1] in t && newOper in t;
    ShapedFromSnapshot(Single(op, Kids(f, op)), q + t, ch);
    var newLast := GetLastOperator(newOper, kids);
    ShapedFromSnapshot(Single(op, Kids(f, op)), q + t, ch);
    var last := GetLastOperator(op, Kids(f, op));
    Relink(op, last, newOper, newLast, a, c, b, t);
  }

  /** Links the detached tree of newOper in front of the queue q. */
  method LinkFront(newOper: PdfOperator, ghost kids: Forest<PdfOperator>, second: PdfOperator,
                   ghost q: seq<PdfOperator>, ghost t: seq<PdfOperator>,
                   ghost ch: map<PdfOperator, seq<PdfOperator>>)
    requires q != [] && second == q[0] && t == Flat(Single(newOper, kids)) && Shaped(Single(newOper, kids))
    requires Distinct(t + q) && Chain(q, null, null) && Chain(t, null, null) && Holds(t + q, ch)
    modifies (t + q)`prev, (t + q)`next
    ensures Chain(t + q, null, null) && Holds(t + q, ch)
  {
    hide Flat, Shaped;
    SingleFlat(newOper, kids);
    InBoth(t, q);
    var last := GetLastOperator(newOper, kids);
    assert last in t && second in q;
    LinkInFront(second, last, t, q);
  }
}
