/** Ordered forests: the shape of an operator tree, apart from the objects in it.

    A forest is read in first-child / next-sibling form, so one constructor covers both a list of
    first-level operators and the children of a composite. */
module Forests {

  datatype Forest<T> = Empty | Tree(root: T, kids: Forest<T>, rest: Forest<T>)

  /** Operators in preorder: the order in which a content stream executes them. */
  function Flat<T>(f: Forest<T>): seq<T> {
    match f
    case Empty => []
    case Tree(r, k, s) => [r] + Flat(k) + Flat(s)
  }

  function Roots<T>(f: Forest<T>): seq<T> {
    match f
    case Empty => []
    case Tree(r, _, s) => [r] + Roots(s)
  }

  function Concat<T>(f: Forest<T>, g: Forest<T>): Forest<T> {
    match f
    case Empty => g
    case Tree(r, k, s) => Tree(r, k, Concat(s, g))
  }

  function Single<T>(root: T, kids: Forest<T>): Forest<T> {
    Tree(root, kids, Empty)
  }

  /** The children of x. */
  function Kids<T(==)>(f: Forest<T>, x: T): Forest<T> {
    match f
    case Empty => Empty
    case Tree(r, k, s) => if r == x then k else if x in Flat(k) then Kids(k, x) else Kids(s, x)
  }

  /** What precedes x in preorder. */
  function Before<T(==)>(f: Forest<T>, x: T): seq<T> {
    match f
    case Empty => []
    case Tree(r, k, s) =>
      if r == x then [] else if x in Flat(k) then [r] + Before(k, x) else [r] + Flat(k) + Before(s, x)
  }

  /** What follows the whole subtree of x in preorder. */
  function After<T(==)>(f: Forest<T>, x: T): seq<T> {
    match f
    case Empty => []
    case Tree(r, k, s) =>
      if r == x then Flat(s) else if x in Flat(k) then After(k, x) + Flat(s) else After(s, x)
  }

  /** The forest with the subtree of x replaced by the trees of g. */
  function Splice<T(==)>(f: Forest<T>, x: T, g: Forest<T>): Forest<T> {
    match f
    case Empty => Empty
    case Tree(r, k, s) =>
      if r == x then Concat(g, s)
      else if x in Flat(k) then Tree(r, Splice(k, x, g), s)
      else Tree(r, k, Splice(s, x, g))
  }

  function Remove<T(==)>(f: Forest<T>, x: T): Forest<T> {
    Splice(f, x, Empty)
  }

  function InsertAfter<T(==)>(f: Forest<T>, x: T, g: Forest<T>): Forest<T> {
    Splice(f, x, Tree(x, Kids(f, x), g))
  }

  /** The elements of s with x replaced by the elements of g. */
  function ReplaceIn<T(==)>(s: seq<T>, x: T, g: seq<T>): seq<T> {
    if s == [] then [] else if s[0] == x then g + s[1..] else [s[0]] + ReplaceIn(s[1..], x, g)
  }

  ghost predicate Distinct<T>(s: seq<T>) {
    forall i, j :: 0 <= i < j < |s| ==> s[i] != s[j]
  }

  function Elems<T>(f: Forest<T>): set<T> {
    set x | x in Flat(f)
  }

  /** The child lists in ch are those of f. */
  ghost predicate Fits<T>(f: Forest<T>, ch: map<T, seq<T>>) {
    match f
    case Empty => true
    case Tree(r, k, s) => r in ch && ch[r] == Roots(k) && Fits(k, ch) && Fits(s, ch)
  }

  // ------------------------------------------------------------------------------------------
  // Concatenation
  // ------------------------------------------------------------------------------------------

  lemma {:induction false} ConcatFlat<T>(f: Forest<T>, g: Forest<T>)
    ensures Flat(Concat(f, g)) == Flat(f) + Flat(g)
    ensures Roots(Concat(f, g)) == Roots(f) + Roots(g)
  {
    match f
    case Empty =>
    case Tree(r, k, s) =>
      ConcatFlat(s, g);
      assert Concat(f, g) == Tree(r, k, Concat(s, g));
      assert Flat(f) == [r] + Flat(k) + Flat(s) && Roots(f) == [r] + Roots(s);
      FlatTree(r, k, Concat(s, g));
      hide *;
      AppendAtEnd([r] + Flat(k), Flat(s), Flat(g));
      AppendAtEnd([r], Roots(s), Roots(g));
  }

  lemma AppendAtEnd<T>(a: seq<T>, b: seq<T>, c: seq<T>)
    ensures a + (b + c) == a + b + c
  {
  }

  lemma SingleFlat<T>(x: T, k: Forest<T>)
    ensures Flat(Single(x, k)) == [x] + Flat(k)
    ensures Roots(Single(x, k)) == [x]
  {
    assert Flat<T>(Empty) == [];
  }

  lemma {:induction false} ConcatAssoc<T>(f: Forest<T>, g: Forest<T>, h: Forest<T>)
    ensures Concat(Concat(f, g), h) == Concat(f, Concat(g, h))
  {
    match f
    case Empty =>
    case Tree(_, _, s) => ConcatAssoc(s, g, h);
  }

  lemma {:induction false} ConcatEmpty<T>(f: Forest<T>)
    ensures Concat(f, Empty) == f
  {
    match f
    case Empty =>
    case Tree(_, _, s) => ConcatEmpty(s);
  }

  lemma {:induction false} RootsInFlat<T>(f: Forest<T>)
    ensures forall x :: x in Roots(f) ==> x in Flat(f)
    ensures Flat(f) == [] <==> f == Empty
    ensures Roots(f) == [] <==> f == Empty
    ensures f != Empty ==> Flat(f)[0] == Roots(f)[0]
  {
    match f
    case Empty =>
    case Tree(_, _, s) => RootsInFlat(s);
  }

  // ------------------------------------------------------------------------------------------
  // Splicing and preorder
  // ------------------------------------------------------------------------------------------

  /** A segment stays a segment of any longer sequence. */
  lemma Widen<T>(p: seq<T>, b: seq<T>, m: seq<T>, a: seq<T>, q: seq<T>)
    ensures p + (b + m + a) + q == (p + b) + m + (a + q)
  {
  }

  /** The subtree of x is a contiguous segment of the preorder. */
  lemma {:induction false} SubtreeIsSegment<T>(f: Forest<T>, x: T)
    requires x in Flat(f)
    ensures Flat(f) == Before(f, x) + ([x] + Flat(Kids(f, x))) + After(f, x)
  {
    var Tree(r, k, s) := f;
    PartsOfTree(r, k, s, x);
    FlatTree(r, k, s);
    hide *;
    var m := [x] + Flat(Kids(f, x));
    if r == x {
      NoMore(m + Flat(s), m);
      assert [] + m == m;
    } else if x in Flat(k) {
      SubtreeIsSegment(k, x);
      Widen([r], Before(k, x), m, After(k, x), Flat(s));
    } else {
      InSecond([r] + Flat(k), Flat(s), r, Flat(k), x);
      SubtreeIsSegment(s, x);
      Widen([r] + Flat(k), Before(s, x), m, After(s, x), []);
      NoMore(After(s, x), Flat(f));
    }
  }

  lemma InSecond<T>(a: seq<T>, b: seq<T>, r: T, k: seq<T>, x: T)
    requires a == [r] + k && x in a + b && x != r && x !in k
    ensures x in b
  {
  }

  lemma PartsOfTree<T>(r: T, k: Forest<T>, s: Forest<T>, x: T)
    ensures var f := Tree(r, k, s);
      if r == x then Before(f, x) == [] && Kids(f, x) == k && After(f, x) == Flat(s)
      else if x in Flat(k) then
        Before(f, x) == [r] + Before(k, x) && Kids(f, x) == Kids(k, x) && After(f, x) == After(k, x) + Flat(s)
      else
        Before(f, x) == [r] + Flat(k) + Before(s, x) && Kids(f, x) == Kids(s, x) && After(f, x) == After(s, x)
  {
  }

  /** Splicing swaps that segment and nothing else. */
  lemma {:induction false} SpliceFlat<T>(f: Forest<T>, x: T, g: Forest<T>)
    requires x in Flat(f)
    ensures Flat(Splice(f, x, g)) == Before(f, x) + Flat(g) + After(f, x)
  {
    var Tree(r, k, s) := f;
    if r == x {
      ConcatFlat(g, s);
      assert Before(f, x) + Flat(g) == Flat(g);
    } else if x in Flat(k) {
      SpliceFlat(k, x, g);
      assert Splice(f, x, g) == Tree(r, Splice(k, x, g), s);
      assert Before(f, x) == [r] + Before(k, x) && After(f, x) == After(k, x) + Flat(s);
      FlatTree(r, Splice(k, x, g), s);
      hide *;
      Widen([r], Before(k, x), Flat(g), After(k, x), Flat(s));
    } else {
      SpliceFlat(s, x, g);
      assert Splice(f, x, g) == Tree(r, k, Splice(s, x, g));
      assert Before(f, x) == [r] + Flat(k) + Before(s, x) && After(f, x) == After(s, x);
      FlatTree(r, k, Splice(s, x, g));
      hide *;
      Widen([r] + Flat(k), Before(s, x), Flat(g), After(s, x), []);
      NoMore([r] + Flat(k) + (Before(s, x) + Flat(g) + After(s, x)), After(s, x));
    }
  }

  lemma FlatTree<T>(r: T, k: Forest<T>, s: Forest<T>)
    ensures Flat(Tree(r, k, s)) == [r] + Flat(k) + Flat(s) && Roots(Tree(r, k, s)) == [r] + Roots(s)
  {
  }

  lemma NoMore<T>(a: seq<T>, b: seq<T>)
    ensures a + [] == a && b + [] == b
  {
  }

  lemma RemoveFlat<T>(f: Forest<T>, x: T)
    requires x in Flat(f)
    ensures Flat(Remove(f, x)) == Before(f, x) + After(f, x)
  {
    hide Before, After, Kids, Splice;
    SpliceFlat(f, x, Empty);
    assert Before(f, x) + [] == Before(f, x);
  }

  // ------------------------------------------------------------------------------------------
  // Splicing and child lists
  // ------------------------------------------------------------------------------------------

  lemma DistinctConcat<T>(a: seq<T>, b: seq<T>)
    ensures Distinct(a + b) <==> Distinct(a) && Distinct(b) && forall x :: x in a ==> x !in b
  {
    var c := a + b;
    if Distinct(c) {
      forall i, j | 0 <= i < j < |a| ensures a[i] != a[j] {
        assert c[i] != c[j];
      }
      forall i, j | 0 <= i < j < |b| ensures b[i] != b[j] {
        assert c[|a| + i] != c[|a| + j];
      }
      forall i, j | 0 <= i < |a| && 0 <= j < |b| ensures a[i] != b[j] {
        assert c[i] != c[|a| + j];
      }
    }
    if Distinct(a) && Distinct(b) && forall x :: x in a ==> x !in b {
      forall i, j | 0 <= i < j < |c| ensures c[i] != c[j] {
        assert i < |a| ==> c[i] in a;
        assert |a| <= j ==> c[j] in b;
      }
    }
  }

  lemma DistinctTree<T>(r: T, k: Forest<T>, s: Forest<T>)
    requires Distinct(Flat(Tree(r, k, s)))
    ensures Distinct(Flat(k)) && Distinct(Flat(s)) && r !in Flat(k) && r !in Flat(s)
    ensures forall x :: x in Flat(k) ==> x !in Flat(s)
  {
    DistinctConcat([r] + Flat(k), Flat(s));
    DistinctConcat([r], Flat(k));
    assert r in [r] + Flat(k);
    assert forall x :: x in Flat(k) ==> x in [r] + Flat(k);
  }

  lemma {:induction false} ReplaceAbsent<T>(s: seq<T>, x: T, g: seq<T>)
    requires x !in s
    ensures ReplaceIn(s, x, g) == s
  {
    if s != [] {
      ReplaceAbsent(s[1..], x, g);
    }
  }

  lemma {:induction false} ReplaceItself<T>(s: seq<T>, x: T)
    ensures ReplaceIn(s, x, [x]) == s
  {
    if s != [] {
      ReplaceItself(s[1..], x);
    }
  }

  lemma {:induction false} SpliceAbsent<T>(f: Forest<T>, x: T, g: Forest<T>)
    requires x !in Flat(f)
    ensures Splice(f, x, g) == f
  {
    match f
    case Empty =>
    case Tree(r, k, s) => SpliceAbsent(s, x, g);
  }

  /** On the first level, splicing replaces one list element. */
  lemma {:induction false} SpliceRoots<T>(f: Forest<T>, x: T, g: Forest<T>)
    requires Distinct(Flat(f))
    ensures Roots(Splice(f, x, g)) == ReplaceIn(Roots(f), x, Roots(g))
  {
    match f
    case Empty =>
    case Tree(r, k, s) =>
      DistinctTree(r, k, s);
      if r == x {
        ConcatFlat(g, s);
      } else if x in Flat(k) {
        RootsInFlat(s);
        ReplaceAbsent(Roots(s), x, Roots(g));
      } else {
        SpliceRoots(s, x, g);
      }
  }

  lemma {:induction false} FitsConcat<T>(f: Forest<T>, g: Forest<T>, ch: map<T, seq<T>>)
    ensures Fits(Concat(f, g), ch) <==> Fits(f, ch) && Fits(g, ch)
  {
    match f
    case Empty =>
    case Tree(_, k, s) => FitsConcat(s, g, ch);
  }

  lemma {:induction false} FitsAbsent<T>(f: Forest<T>, x: T, g: seq<T>, ch: map<T, seq<T>>, ch': map<T, seq<T>>)
    requires x !in Flat(f) && Fits(f, ch)
    requires forall o :: o in Flat(f) && o in ch ==> o in ch' && ch'[o] == ReplaceIn(ch[o], x, g)
    ensures Fits(f, ch')
  {
    match f
    case Empty =>
    case Tree(r, k, s) =>
      FitsAbsent(k, x, g, ch, ch');
      FitsAbsent(s, x, g, ch, ch');
      RootsInFlat(k);
      ReplaceAbsent(Roots(k), x, g);
      assert r in Flat(f);
  }

  /** Replacing x by the roots of g in every child list outside the subtree of x turns the child lists
      of a forest into those of the spliced forest: only the list holding x changes. */
  lemma {:induction false} SpliceFits<T>(f: Forest<T>, x: T, g: Forest<T>,
                                         ch: map<T, seq<T>>, ch': map<T, seq<T>>)
    requires Distinct(Flat(f)) && Fits(f, ch) && Fits(g, ch')
    requires forall o :: o in Flat(f) && o != x && o !in Flat(Kids(f, x)) && o in ch ==>
               o in ch' && ch'[o] == ReplaceIn(ch[o], x, Roots(g))
    ensures Fits(Splice(f, x, g), ch')
  {
    match f
    case Empty =>
    case Tree(r, k, s) =>
      DistinctTree(r, k, s);
      assert r in Flat(f);
      if r == x {
        FitsAbsent(s, x, Roots(g), ch, ch');
        FitsConcat(g, s, ch');
      } else if x in Flat(k) {
        KidsInside(k, x);
        SpliceFits(k, x, g, ch, ch');
        FitsAbsent(s, x, Roots(g), ch, ch');
        SpliceRoots(k, x, g);
      } else {
        KidsInside(s, x);
        FitsAbsent(k, x, Roots(g), ch, ch');
        SpliceFits(s, x, g, ch, ch');
        RootsInFlat(k);
        ReplaceAbsent(Roots(k), x, Roots(g));
      }
  }

  lemma {:induction false} KidsInside<T>(f: Forest<T>, x: T)
    ensures forall o :: o in Flat(Kids(f, x)) ==> o in Flat(f)
    ensures x !in Flat(f) ==> Kids(f, x) == Empty
  {
    match f
    case Empty =>
    case Tree(r, k, s) =>
      KidsInside(k, x);
      KidsInside(s, x);
  }

  lemma {:induction false} KidsFits<T>(f: Forest<T>, x: T, ch: map<T, seq<T>>)
    requires Fits(f, ch) && x in Flat(f)
    ensures Fits(Kids(f, x), ch) && x in ch && ch[x] == Roots(Kids(f, x))
  {
    var Tree(r, k, s) := f;
    if r == x {
    } else if x in Flat(k) {
      KidsFits(k, x, ch);
    } else {
      KidsFits(s, x, ch);
    }
  }

  /** What splicing does to membership and distinctness. */
  lemma SpliceDistinct<T>(f: Forest<T>, x: T, g: Forest<T>)
    requires Distinct(Flat(f)) && x in Flat(f) && Distinct(Flat(g))
    requires forall o :: o in Flat(g) ==> o !in Before(f, x) && o !in After(f, x)
    ensures Distinct(Flat(Splice(f, x, g)))
    ensures Distinct([x] + Flat(Kids(f, x)))
    ensures forall o :: o in Before(f, x) ==> o != x && o !in Flat(Kids(f, x)) && o !in After(f, x)
    ensures forall o :: o in After(f, x) ==> o != x && o !in Flat(Kids(f, x))
  {
    SubtreeIsSegment(f, x);
    SpliceFlat(f, x, g);
    var b, m, a := Before(f, x), [x] + Flat(Kids(f, x)), After(f, x);
    DistinctConcat(b + m, a);
    DistinctConcat(b, m);
    DistinctConcat(b + Flat(g), a);
    DistinctConcat(b, Flat(g));
    assert forall o :: o in b + m <==> o in b || o in m;
    assert forall o :: o in m <==> o == x || o in Flat(Kids(f, x));
  }

  /** Removing x splits the members into those that stay and those of the tree that leaves. */
  lemma CutMembers<T>(f: Forest<T>, x: T)
    requires x in Flat(f) && Distinct(Flat(f))
    ensures forall o :: o in Flat(f) ==> o in Flat(Remove(f, x)) || o in Flat(Single(x, Kids(f, x)))
    ensures forall o :: o in Flat(Remove(f, x)) ==> o in Flat(f)
    ensures forall o :: o in Flat(Single(x, Kids(f, x))) ==> o in Flat(f)
    ensures forall o :: o in Flat(Remove(f, x)) ==> o !in Flat(Single(x, Kids(f, x)))
    ensures Distinct(Flat(Remove(f, x))) && Distinct(Flat(Single(x, Kids(f, x))))
    ensures Flat(Single(x, Kids(f, x))) != [] && Flat(Single(x, Kids(f, x)))[0] == x
  {
    assert Flat<T>(Empty) == [];
    hide Flat, Before, After, Kids, Splice;
    SubtreeIsSegment(f, x);
    SingleFlat(x, Kids(f, x));
    RemoveFlat(f, x);
    SpliceDistinct(f, x, Empty);
  }

  /** Inserting g behind x, or putting it in the place of x, in preorder. */
  lemma InsertFlat<T>(f: Forest<T>, x: T, g: Forest<T>)
    requires x in Flat(f)
    ensures Flat(f) == Before(f, x) + Flat(Single(x, Kids(f, x))) + After(f, x)
    ensures Flat(InsertAfter(f, x, g)) == Before(f, x) + Flat(Single(x, Kids(f, x))) + Flat(g) + After(f, x)
    ensures Flat(Splice(f, x, g)) == Before(f, x) + Flat(g) + After(f, x)
  {
    var h := Tree(x, Kids(f, x), g);
    assert Flat(h) == [x] + Flat(Kids(f, x)) + Flat(g);
    hide Flat, Before, After, Kids, Splice;
    SubtreeIsSegment(f, x);
    SingleFlat(x, Kids(f, x));
    SpliceFlat(f, x, h);
    SpliceFlat(f, x, g);
    Regroup(Before(f, x), [x] + Flat(Kids(f, x)), Flat(g), After(f, x));
  }

  lemma Regroup<T>(a: seq<T>, b: seq<T>, c: seq<T>, d: seq<T>)
    ensures a + (b + c) + d == a + b + c + d
  {
  }

  lemma InsertMembers<T>(f: Forest<T>, x: T, g: Forest<T>)
    requires x in Flat(f) && Distinct(Flat(f)) && Distinct(Flat(g))
    requires forall o :: o in Flat(g) ==> o !in Flat(f)
    ensures Distinct(Flat(InsertAfter(f, x, g))) && Distinct(Flat(Splice(f, x, g)))
    ensures forall o :: o in Flat(InsertAfter(f, x, g)) ==> o in Flat(f) || o in Flat(g)
    ensures forall o :: o in Flat(Splice(f, x, g)) ==> o in Flat(f) || o in Flat(g)
  {
    hide Flat, Before, After, Kids, Splice, InsertAfter;
    InsertFlat(f, x, g);
    var b, t, h, a := Before(f, x), Flat(Single(x, Kids(f, x))), Flat(g), After(f, x);
    DistinctSegments(b, t, h, a);
  }

  lemma DistinctSegments<T>(b: seq<T>, t: seq<T>, h: seq<T>, a: seq<T>)
    requires Distinct(b + t + a) && Distinct(h)
    requires forall o :: o in h ==> o !in b + t + a
    ensures Distinct(b + t + h + a) && Distinct(b + h + a)
  {
    DistinctConcat(b + t, a);
    DistinctConcat(b, t);
    assert forall o :: o in b || o in t || o in a ==> o in b + t + a;
    assert forall o :: o in b || o in t ==> o in b + t;
    DistinctConcat(b + t, h);
    DistinctConcat(b + t + h, a);
    DistinctConcat(b, h);
    DistinctConcat(b + h, a);
  }

  // ------------------------------------------------------------------------------------------
  // Other children
  // ------------------------------------------------------------------------------------------

  /** The objects of w other than x and what is below it. */
  function Outside<T(==)>(w: Forest<T>, x: T): set<T> {
    Elems(w) - {x} - Elems(Kids(w, x))
  }

  /** Other children below x take the place of what was below x in the preorder. */
  lemma SpliceSegment<T>(w: Forest<T>, x: T, n: Forest<T>)
    requires Distinct(Flat(w)) && x in Flat(w) && Distinct([x] + Flat(n))
    requires forall o :: o in Flat(n) ==> o in Flat(Kids(w, x)) || o !in Flat(w)
    ensures Flat(w) == Before(w, x) + ([x] + Flat(Kids(w, x))) + After(w, x)
    ensures Flat(Splice(w, x, Single(x, n))) == Before(w, x) + ([x] + Flat(n)) + After(w, x)
    ensures Distinct(Flat(Splice(w, x, Single(x, n))))
  {
    hide *;
    KidsDistinct(w, x);
    SingleFlat(x, n);
    SubtreeIsSegment(w, x);
    Segments(Before(w, x), [x] + Flat(Kids(w, x)), After(w, x));
    SpliceDistinct(w, x, Single(x, n));
    SpliceFlat(w, x, Single(x, n));
  }

  lemma Segments<T>(b: seq<T>, m: seq<T>, a: seq<T>)
    ensures forall o :: o in b + m + a ==> o in b || o in m || o in a
    ensures (forall o :: o in b ==> o in b + m + a) && (forall o :: o in m ==> o in b + m + a)
    ensures forall o :: o in a ==> o in b + m + a
  {
  }

  /** The objects of a tree once other children are below x: what was below x is gone. */
  lemma SpliceElems<T>(w: Forest<T>, x: T, n: Forest<T>)
    requires Distinct(Flat(w)) && x in Flat(w) && Distinct(Flat(Single(x, n)))
    requires forall o :: o in Elems(n) ==> o in Elems(Kids(w, x)) || o !in Elems(w)
    ensures Distinct(Flat(Splice(w, x, Single(x, n))))
    ensures Elems(Splice(w, x, Single(x, n))) == Outside(w, x) + {x} + Elems(n)
  {
    hide *;
    InFlat(w);
    InFlat(n);
    InFlat(Kids(w, x));
    InFlat(Splice(w, x, Single(x, n)));
    OutsideIs(w, x);
    SingleFlat(x, n);
    KidsDistinct(w, x);
    SpliceSegment(w, x, n);
    OutsideSegment(Before(w, x), x, Flat(Kids(w, x)), After(w, x));
  }

  lemma OutsideSegment<T>(b: seq<T>, x: T, k: seq<T>, a: seq<T>)
    requires forall o :: o in b ==> o != x && o !in k
    requires forall o :: o in a ==> o != x && o !in k
    ensures forall o :: o in b + ([x] + k) + a && o != x ==> o in k || o in b || o in a
    ensures forall o :: o in b ==> o in b + ([x] + k) + a && o != x && o !in k
    ensures forall o :: o in a ==> o in b + ([x] + k) + a && o != x && o !in k
  {
  }

  lemma OutsideIs<T>(w: Forest<T>, x: T)
    ensures Outside(w, x) == Elems(w) - {x} - Elems(Kids(w, x))
  {
  }

  lemma InFlat<T>(f: Forest<T>)
    ensures forall o :: o in Flat(f) ==> o in Elems(f)
    ensures forall o :: o in Elems(f) ==> o in Flat(f)
  {
  }

  lemma KidsDistinct<T>(w: Forest<T>, x: T)
    requires Distinct(Flat(w)) && x in Flat(w)
    ensures Distinct([x] + Flat(Kids(w, x)))
    ensures forall o :: o in Before(w, x) ==> o != x && o !in Flat(Kids(w, x))
    ensures forall o :: o in After(w, x) ==> o != x && o !in Flat(Kids(w, x))
  {
    assert Flat<T>(Empty) == [];
    hide Flat, Kids, Splice, Before, After;
    SpliceDistinct(w, x, Empty);
  }

  lemma TreeElems<T>(r: T, k: Forest<T>, s: Forest<T>)
    ensures Elems(Tree(r, k, s)) == {r} + Elems(k) + Elems(s)
    ensures Elems<T>(Empty) == {}
  {
  }

  lemma OutsideParts<T>(r: T, k: Forest<T>, s: Forest<T>, x: T)
    requires Distinct(Flat(Tree(r, k, s))) && x in Flat(Tree(r, k, s))
    ensures Distinct(Flat(k)) && Distinct(Flat(s)) && r !in Elems(k) && r !in Elems(s) && Elems(k) !! Elems(s)
    ensures var all := Outside(Tree(r, k, s), x);
      if r == x then all == Elems(s)
      else if x in Flat(k) then all == {r} + Outside(k, x) + Elems(s)
      else x in Flat(s) && all == {r} + Elems(k) + Outside(s, x)
  {
    hide *;
    var w := Tree(r, k, s);
    KidsOf(r, k, s, x);
    DistinctTree(r, k, s);
    TreeElems(r, k, s);
    InFlat(w);
    InFlat(k);
    InFlat(s);
    KidsInElems(k, x);
    KidsInElems(s, x);
    OutsideIs(w, x);
    OutsideIs(k, x);
    OutsideIs(s, x);
  }

  lemma KidsOf<T>(r: T, k: Forest<T>, s: Forest<T>, x: T)
    ensures Kids(Tree(r, k, s), x) == if r == x then k else if x in Flat(k) then Kids(k, x) else Kids(s, x)
  {
  }

  lemma KidsInElems<T>(f: Forest<T>, x: T)
    ensures Elems(Kids(f, x)) <= Elems(f)
  {
    hide Kids, Flat;
    KidsInside(f, x);
  }

  // ------------------------------------------------------------------------------------------
  // Parents
  // ------------------------------------------------------------------------------------------

  /** The node that has x as a child. */
  function Parent<T(==)>(f: Forest<T>, x: T): T
    requires x in Flat(f) && x !in Roots(f)
  {
    var Tree(r, k, s) := f;
    if x in Flat(k) then if x in Roots(k) then r else Parent(k, x) else Parent(s, x)
  }

  lemma {:induction false} NoParent<T>(f: Forest<T>, x: T, ch: map<T, seq<T>>)
    requires Fits(f, ch) && Distinct(Flat(f)) && (x in Roots(f) || x !in Flat(f))
    ensures forall p :: p in Flat(f) ==> p in ch && x !in ch[p]
  {
    match f
    case Empty =>
    case Tree(r, k, s) =>
      DistinctTree(r, k, s);
      RootsInFlat(k);
      RootsInFlat(s);
      NoParent(k, x, ch);
      NoParent(s, x, ch);
  }

  /** Exactly one child list holds a node below the first level, and that list belongs to a node before it. */
  lemma {:induction false} OneParent<T>(f: Forest<T>, x: T, ch: map<T, seq<T>>)
    requires Fits(f, ch) && Distinct(Flat(f)) && x in Flat(f) && x !in Roots(f)
    ensures Parent(f, x) in Before(f, x)
    ensures forall p :: p in Flat(f) ==> p in ch && (x in ch[p] <==> p == Parent(f, x))
  {
    var Tree(r, k, s) := f;
    DistinctTree(r, k, s);
    RootsInFlat(k);
    RootsInFlat(s);
    if x in Flat(k) {
      NoParent(s, x, ch);
      if x in Roots(k) {
        NoParent(k, x, ch);
      } else {
        OneParent(k, x, ch);
        SubtreeIsSegment(k, x);
      }
    } else {
      NoParent(k, x, ch);
      OneParent(s, x, ch);
      SubtreeIsSegment(s, x);
    }
  }

  lemma {:induction false} FitsInside<T>(f: Forest<T>, ch: map<T, seq<T>>)
    requires Fits(f, ch)
    ensures forall p :: p in Flat(f) ==> p in ch && forall x :: x in ch[p] ==> x in Flat(f)
  {
    match f
    case Empty =>
    case Tree(r, k, s) =>
      RootsInFlat(k);
      FitsInside(k, ch);
      FitsInside(s, ch);
  }
}
