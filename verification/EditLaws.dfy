/** How edits of an operator tree combine: what one edit undoes, and which edits commute. */
module EditLaws {
  import opened Forests

  lemma {:induction false} SpliceConcat<T>(f: Forest<T>, s: Forest<T>, y: T, h: Forest<T>)
    requires y in Flat(f) && y !in Flat(s)
    ensures Splice(Concat(f, s), y, h) == Concat(Splice(f, y, h), s)
  {
    var Tree(r, k, t) := f;
    if r == y {
      ConcatAssoc(h, t, s);
    } else if y !in Flat(k) {
      SpliceConcat(t, s, y, h);
    }
  }

  /** An edit inside trees just put in can be made before they are put in. */
  lemma {:induction false} SpliceInside<T>(f: Forest<T>, x: T, g: Forest<T>, y: T, h: Forest<T>)
    requires x in Flat(f) && y in Flat(g) && (y !in Flat(f) || y == x)
    requires Distinct(Flat(f))
    ensures Splice(Splice(f, x, g), y, h) == Splice(f, x, Splice(g, y, h))
  {
    var Tree(r, k, s) := f;
    DistinctTree(r, k, s);
    if r == x {
      SpliceConcat(g, s, y, h);
    } else if x in Flat(k) {
      SpliceFlat(k, x, g);
      SpliceInside(k, x, g, y, h);
    } else {
      SpliceInside(s, x, g, y, h);
    }
  }

  lemma {:induction false} SpliceSelf<T>(f: Forest<T>, x: T)
    requires x in Flat(f)
    ensures Splice(f, x, Single(x, Kids(f, x))) == f
  {
    var Tree(r, k, s) := f;
    if r == x {
      assert Concat(Empty, s) == s;
    } else if x in Flat(k) {
      SpliceSelf(k, x);
    } else {
      SpliceSelf(s, x);
    }
  }

  /** Deleting what was just inserted restores the forest, wherever it was inserted. */
  lemma DeleteUndoesInsert<T>(f: Forest<T>, x: T, y: T, k: Forest<T>)
    requires x in Flat(f) && y !in Flat(f) && Distinct(Flat(f))
    ensures Remove(InsertAfter(f, x, Single(y, k)), y) == f
    ensures Remove(Tree(y, k, f), y) == f
  {
    var h := Tree(x, Kids(f, x), Single(y, k));
    KidsInside(f, x);
    SingleFlat(y, k);
    assert y in Flat(Single(y, k));
    SpliceInside(f, x, h, y, Empty);
    assert Splice(h, y, Empty) == Tree(x, Kids(f, x), Splice(Single(y, k), y, Empty));
    SpliceSelf(f, x);
  }

  /** Putting a replaced tree back in its place restores the forest. */
  lemma ReplaceUndoesReplace<T>(f: Forest<T>, x: T, y: T, k: Forest<T>)
    requires x in Flat(f) && y !in Flat(f) && Distinct(Flat(f))
    ensures Splice(Splice(f, x, Single(y, k)), y, Single(x, Kids(f, x))) == f
  {
    SingleFlat(y, k);
    assert y in Flat(Single(y, k));
    var back := Single(x, Kids(f, x));
    SpliceInside(f, x, Single(y, k), y, back);
    assert Splice(Single(y, k), y, back) == Concat(back, Empty);
    ConcatEmpty(back);
    SpliceSelf(f, x);
  }

  /** Replacing is inserting behind and then deleting. */
  lemma ReplaceIsInsertThenDelete<T>(f: Forest<T>, x: T, y: T, k: Forest<T>)
    requires x in Flat(f) && y !in Flat(f) && x !in Flat(Single(y, k)) && Distinct(Flat(f))
    ensures Remove(InsertAfter(f, x, Single(y, k)), x) == Splice(f, x, Single(y, k))
  {
    var h := Tree(x, Kids(f, x), Single(y, k));
    SpliceInside(f, x, h, x, Empty);
    assert Splice(h, x, Empty) == Concat(Empty, Single(y, k)) == Single(y, k);
  }

  /** Neither subtree holds the other. */
  predicate Independent<T(==)>(f: Forest<T>, x: T, y: T) {
    x != y && x !in Flat(Kids(f, y)) && y !in Flat(Kids(f, x))
  }

  lemma {:induction false} StillThere<T>(f: Forest<T>, x: T, g: Forest<T>, y: T)
    requires x in Flat(f) && y in Flat(f) && y != x && y !in Flat(Kids(f, x))
    ensures y in Flat(Splice(f, x, g))
  {
    SubtreeIsSegment(f, x);
    SpliceFlat(f, x, g);
  }

  lemma {:induction false} NotBrought<T>(f: Forest<T>, x: T, g: Forest<T>, y: T)
    requires x in Flat(f) && y !in Flat(f) && y !in Flat(g)
    ensures y !in Flat(Splice(f, x, g))
  {
    SubtreeIsSegment(f, x);
    SpliceFlat(f, x, g);
    var b, m, a := Before(f, x), [x] + Flat(Kids(f, x)), After(f, x);
    assert forall o :: o in b || o in a ==> o in b + m + a;
  }

  /** Edits in different places commute. */
  lemma {:induction false} EditsCommute<T>(f: Forest<T>, x: T, g: Forest<T>, y: T, h: Forest<T>)
    requires Distinct(Flat(f)) && x in Flat(f) && y in Flat(f) && Independent(f, x, y)
    requires forall o :: o in Flat(g) ==> o !in Flat(f)
    requires forall o :: o in Flat(h) ==> o !in Flat(f)
    ensures Splice(Splice(f, x, g), y, h) == Splice(Splice(f, y, h), x, g)
  {
    var Tree(r, k, s) := f;
    DistinctTree(r, k, s);
    if x in Flat(k) && y in Flat(k) {
      StillThere(k, x, g, y);
      StillThere(k, y, h, x);
      EditsCommute(k, x, g, y, h);
    } else if x in Flat(s) && y in Flat(s) {
      EditsCommute(s, x, g, y, h);
    } else if r == x {
      SpliceConcatRight(g, s, y, h);
    } else if r == y {
      SpliceConcatRight(h, s, x, g);
    } else if x in Flat(k) {
      NotBrought(k, x, g, y);
    } else {
      NotBrought(k, y, h, x);
    }
  }

  lemma {:induction false} SpliceConcatRight<T>(f: Forest<T>, s: Forest<T>, y: T, h: Forest<T>)
    requires y !in Flat(f)
    ensures Splice(Concat(f, s), y, h) == Concat(f, Splice(s, y, h))
  {
    if f.Tree? {
      SpliceConcatRight(f.rest, s, y, h);
    }
  }
}
