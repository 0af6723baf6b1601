/** Arrays and dictionaries as trees of objects: children are clones of what is put in, they carry the
    document and the reference of their container, and no object is in two places. */
module Containers {
  import opened Options
  import opened Forests
  import opened PdfObjects

  datatype Shape = Plain(value: Obj) | ArrayShape | DictShape

  /** A property; names go with the values of a dictionary. */
  class Property {
    const shape: Shape
    var names: seq<string>
    var value: seq<Property>
    var pdf: Option<nat>
    var ref: Option<(nat, nat)>

    constructor (shape: Shape)
      ensures this.shape == shape && names == [] && value == [] && pdf == None && ref == None
    {
      this.shape := shape;
      names, value, pdf, ref := [], [], None, None;
    }
  }

  // ------------------------------------------------------------------------------------------
  // Trees
  // ------------------------------------------------------------------------------------------

  /** The fields of one object fit the children k. */
  ghost predicate Holds(r: Property, k: Forest<Property>)
    reads r`value, r`names
  {
    && r.value == Roots(k)
    && (if r.shape.DictShape? then |r.names| == |r.value| else r.names == [])
    && (r.shape.Plain? ==> r.value == [])
  }

  /** The value fields spell out f. */
  ghost predicate Owns(f: Forest<Property>)
    reads Elems(f)`value, Elems(f)`names
  {
    match f
    case Empty => true
    case Tree(r, k, s) =>
      assert Elems(k) <= Elems(f) && Elems(s) <= Elems(f) && r in Elems(f);
      Holds(r, k) && Owns(k) && Owns(s)
  }

  /** A tree or forest of its own: no object is in it twice. */
  ghost predicate OwnTree(f: Forest<Property>)
    reads Elems(f)`value, Elems(f)`names
  {
    Distinct(Flat(f)) && Owns(f)
  }

  datatype Node = Node(shape: Shape, names: seq<string>)

  /** What the objects of a forest hold. */
  function Structure(f: Forest<Property>): Forest<Node>
    reads Elems(f)`names
  {
    match f
    case Empty => Empty
    case Tree(r, k, s) =>
      assert Elems(k) <= Elems(f) && Elems(s) <= Elems(f) && r in Elems(f);
      Tree(Node(r.shape, r.names), Structure(k), Structure(s))
  }

  /** All objects carry this document and this reference. */
  ghost predicate Marked(f: Forest<Property>, pdf: Option<nat>, ref: Option<(nat, nat)>)
    reads Elems(f)`pdf, Elems(f)`ref
  {
    forall o: Property :: o in Elems(f) ==> o.pdf == pdf && o.ref == ref
  }

  lemma OneTree(p: Property, k: Forest<Property>)
    ensures Owns(Single(p, k)) ==> p.value == Roots(k) && Owns(k)
    ensures Elems(Single(p, k)) == {p} + Elems(k)
    ensures |Flat(k)| < |Flat(Single(p, k))|
  {
    TreeElems(p, k, Empty);
  }

  /** The first tree of a forest and the others. */
  lemma Front(g: Forest<Property>)
    requires Owns(g) && Roots(g) != []
    ensures g.Tree? && Owns(Single(g.root, g.kids)) && Owns(g.rest)
    ensures Elems(g) == Elems(Single(g.root, g.kids)) + Elems(g.rest)
    ensures Roots(g) == [g.root] + Roots(g.rest)
    ensures |Flat(g.kids)| < |Flat(g)| && |Flat(g.rest)| < |Flat(g)|
  {
    TreeElems(g.root, g.kids, g.rest);
    TreeElems(g.root, g.kids, Empty);
  }

  lemma NoRoots(g: Forest<Property>)
    requires Roots(g) == []
    ensures g == Empty && Elems(g) == {}
  {
    assert Flat<Property>(Empty) == [];
  }

  lemma {:induction false} InHeap(f: Forest<Property>)
    ensures forall o: Property :: o in Elems(f) ==> allocated(o)
  {
    match f
    case Empty =>
    case Tree(_, k, s) =>
      InHeap(k);
      InHeap(s);
      assert forall o :: o in Elems(f) ==> o == f.root || o in Elems(k) || o in Elems(s);
  }

  twostate lemma {:induction false} StaysOwned(f: Forest<Property>)
    requires old(Owns(f))
    requires forall o: Property :: o in Elems(f) ==>
               old(allocated(o)) && o.value == old(o.value) && o.names == old(o.names)
    ensures Owns(f) && Structure(f) == old(Structure(f))
  {
    match f
    case Empty =>
    case Tree(r, k, s) =>
      TreeElems(r, k, s);
      StaysOwned(k);
      StaysOwned(s);
  }

  // ------------------------------------------------------------------------------------------
  // Marking
  // ------------------------------------------------------------------------------------------

  /** setPdf of a property and everything below it. */
  method SetPdf(p: Property, pdf: Option<nat>, ghost k: Forest<Property>)
    requires Owns(Single(p, k))
    modifies Elems(Single(p, k))`pdf
    ensures forall o: Property :: o in Elems(Single(p, k)) ==> o.pdf == pdf
    decreases |Flat(k)|, 1
  {
    OneTree(p, k);
    hide *;
    InHeap(k);
    label start:
    p.pdf := pdf;
    StaysOwned@start(k);
    ghost var g := k;
    for i := 0 to |p.value|
      invariant p.value[i..] == Roots(g) && Owns(g) && Elems(g) <= Elems(k) && |Flat(g)| <= |Flat(k)|
      invariant forall o: Property :: o in {p} + Elems(k) && o !in Elems(g) ==> o.pdf == pdf
    {
      Front(g);
      InHeap(g);
      label before:
      SetPdf(p.value[i], pdf, g.kids);
      StaysOwned@before(g.rest);
      g := g.rest;
    }
    NoRoots(g);
  }

  /** setIndiRef of a property and everything below it. */
  method SetIndiRef(p: Property, ref: Option<(nat, nat)>, ghost k: Forest<Property>)
    requires Owns(Single(p, k))
    modifies Elems(Single(p, k))`ref
    ensures forall o: Property :: o in Elems(Single(p, k)) ==> o.ref == ref
    decreases |Flat(k)|, 1
  {
    OneTree(p, k);
    hide *;
    InHeap(k);
    label start:
    p.ref := ref;
    StaysOwned@start(k);
    ghost var g := k;
    for i := 0 to |p.value|
      invariant p.value[i..] == Roots(g) && Owns(g) && Elems(g) <= Elems(k) && |Flat(g)| <= |Flat(k)|
      invariant forall o: Property :: o in {p} + Elems(k) && o !in Elems(g) ==> o.ref == ref
    {
      Front(g);
      InHeap(g);
      label before:
      SetIndiRef(p.value[i], ref, g.kids);
      StaysOwned@before(g.rest);
      g := g.rest;
    }
    NoRoots(g);
  }

  // ------------------------------------------------------------------------------------------
  // Cloning
  // ------------------------------------------------------------------------------------------

  lemma {:induction false} Joined(f: Forest<Property>, g: Forest<Property>)
    ensures Owns(Concat(f, g)) <==> Owns(f) && Owns(g)
    ensures Structure(Concat(f, g)) == Concat(Structure(f), Structure(g))
    ensures Elems(Concat(f, g)) == Elems(f) + Elems(g)
  {
    ConcatFlat(f, g);
    match f
    case Empty =>
    case Tree(_, _, s) => Joined(s, g);
  }

  lemma JoinedDistinct(f: Forest<Property>, g: Forest<Property>)
    requires Distinct(Flat(f)) && Distinct(Flat(g)) && Elems(f) !! Elems(g)
    ensures Distinct(Flat(Concat(f, g)))
  {
    ConcatFlat(f, g);
    DistinctConcat(Flat(f), Flat(g));
    assert forall o :: o in Flat(f) ==> o in Elems(f);
    assert forall o :: o in Flat(g) ==> o in Elems(g);
  }

  lemma NothingOwned()
    ensures Owns(Empty) && Distinct<Property>(Flat(Empty)) && Structure(Empty) == Empty
    ensures Elems<Property>(Empty) == {} && Roots<Property>(Empty) == []
    ensures forall f: Forest<Node> :: Concat(Empty, f) == f
  {
  }

  lemma TreeOwned(p: Property, k: Forest<Property>)
    requires Owns(k) && p.value == Roots(k) && Distinct(Flat(k)) && p !in Elems(k)
    requires if p.shape.DictShape? then |p.names| == |p.value| else p.names == []
    requires p.shape.Plain? ==> p.value == []
    ensures OwnTree(Single(p, k)) && Structure(Single(p, k)) == Single(Node(p.shape, p.names), Structure(k))
  {
    SingleFlat(p, k);
    DistinctConcat([p], Flat(k));
    assert forall o :: o in Flat(k) ==> o in Elems(k);
  }

  lemma NamesOf(p: Property, k: Forest<Property>)
    requires Owns(Single(p, k))
    ensures if p.shape.DictShape? then |p.names| == |p.value| else p.names == []
    ensures p.shape.Plain? ==> p.value == []
    ensures Structure(Single(p, k)) == Single(Node(p.shape, p.names), Structure(k))
  {
    TreeElems(p, k, Empty);
  }

  /** One more clone behind those made so far. */
  lemma StepClone(done: Forest<Node>, g: Forest<Property>, n: Forest<Property>, m: Forest<Property>)
    requires Owns(g) && g.Tree? && Structure(m) == Structure(Single(g.root, g.kids)) && done == Structure(n)
    ensures Concat(done, Structure(g)) == Concat(Structure(Concat(n, m)), Structure(g.rest))
  {
    Joined(n, m);
    TreeElems(g.root, g.kids, g.rest);
    TreeElems(g.root, g.kids, Empty);
    ConcatAssoc(Structure(n), Structure(m), Structure(g.rest));
    assert Structure(g) == Concat(Structure(Single(g.root, g.kids)), Structure(g.rest));
  }

  /** Clones made by a call that changes nothing stay what they are. */
  twostate lemma StaysClone(n: Forest<Property>)
    requires old(Owns(n)) && old(Marked(n, None, None))
    requires forall o: Property :: o in Elems(n) ==> old(allocated(o)) && unchanged(o)
    ensures Owns(n) && Marked(n, None, None) && Structure(n) == old(Structure(n))
  {
    hide Owns, Structure;
    StaysOwned(n);
  }

  lemma MarkedJoined(f: Forest<Property>, g: Forest<Property>, pdf: Option<nat>, ref: Option<(nat, nat)>)
    requires Marked(f, pdf, ref) && Marked(g, pdf, ref)
    ensures Marked(Concat(f, g), pdf, ref)
  {
    Joined(f, g);
  }

  lemma OwnTreeIs(f: Forest<Property>)
    ensures OwnTree(f) <==> Distinct(Flat(f)) && Owns(f)
  {
  }

  lemma LastRoot(n: Forest<Property>, c: Property, m: Forest<Property>)
    ensures Roots(Concat(n, Single(c, m))) == Roots(n) + [c]
  {
    ConcatFlat(n, Single(c, m));
    SingleFlat(c, m);
  }

  /** clone: a tree of new objects with the same contents, belonging to no document. */
  method Clone(p: Property, ghost k: Forest<Property>) returns (c: Property, ghost n: Forest<Property>)
    requires Owns(Single(p, k))
    ensures OwnTree(Single(c, n)) && fresh(Elems(Single(c, n)))
    ensures Structure(Single(c, n)) == old(Structure(Single(p, k))) && Marked(Single(c, n), None, None)
    decreases |Flat(k)|, 2
  {
    OneTree(p, k);
    NamesOf(p, k);
    hide *;
    var items;
    items, n := CloneAll(p.value, k);
    c := Container(p.shape, items, p.names, n);
    OneTree(c, n);
  }

  /** The loop of clone. */
  method CloneAll(ps: seq<Property>, ghost k: Forest<Property>)
    returns (items: seq<Property>, ghost n: Forest<Property>)
    requires Owns(k) && ps == Roots(k)
    ensures items == Roots(n) && |items| == |ps| && Owns(n) && Distinct(Flat(n)) && fresh(Elems(n))
    ensures Structure(n) == old(Structure(k)) && Marked(n, None, None)
    decreases |Flat(k)|, 1
  {
    NothingOwned();
    hide *;
    n := Empty;
    ghost var g, whole := k, Structure(k);
    items := [];
    NothingMarked();
    for i := 0 to |ps|
      invariant ps[i..] == Roots(g) && Owns(g) && |Flat(g)| <= |Flat(k)|
      invariant items == Roots(n) && |items| == i
      invariant Owns(n) && Distinct(Flat(n)) && Marked(n, None, None)
      invariant forall o: Property :: o in Elems(n) ==> fresh(o)
      invariant whole == Concat(Structure(n), Structure(g))
    {
      Front(g);
      var child;
      child, g, n := CloneNext(ps[i], g, n);
      items := items + [child];
    }
    NoRoots(g);
    ConcatEmpty(Structure(n));
  }

  /** A new container for clones. */
  method Container(shape: Shape, items: seq<Property>, names: seq<string>, ghost n: Forest<Property>)
    returns (c: Property)
    requires Owns(n) && Distinct(Flat(n)) && Marked(n, None, None) && items == Roots(n)
    requires (if shape.DictShape? then |names| == |items| else names == []) && (shape.Plain? ==> items == [])
    ensures fresh(c) && OwnTree(Single(c, n)) && Marked(Single(c, n), None, None)
    ensures Structure(Single(c, n)) == Single(Node(shape, names), old(Structure(n)))
  {
    hide *;
    InHeap(n);
    label built:
    c := new Property(shape);
    c.value, c.names := items, names;
    StaysClone@built(n);
    TreeOwned(c, n);
    MarkedTree(c, n);
  }

  lemma MarkedTree(c: Property, n: Forest<Property>)
    requires Marked(n, c.pdf, c.ref)
    ensures Marked(Single(c, n), c.pdf, c.ref)
  {
    TreeElems(c, n, Empty);
  }

  lemma NothingMarked()
    ensures Marked(Empty, None, None)
  {
    NoRoots(Empty);
  }

  /** Clones the first tree of g and puts it behind the clones made so far. */
  method CloneNext(p: Property, ghost g: Forest<Property>, ghost n: Forest<Property>)
    returns (child: Property, ghost g': Forest<Property>, ghost n': Forest<Property>)
    requires Owns(g) && g.Tree? && p == g.root
    requires Owns(n) && Distinct(Flat(n)) && Marked(n, None, None)
    ensures g' == g.rest && Owns(g') && |Flat(g')| < |Flat(g)|
    ensures Roots(n') == Roots(n) + [child] && Owns(n') && Distinct(Flat(n')) && Marked(n', None, None)
    ensures forall o: Property :: o in Elems(n') ==> o in Elems(n) || fresh(o)
    ensures Concat(old(Structure(n)), old(Structure(g))) == Concat(Structure(n'), Structure(g'))
    decreases |Flat(g)|, 0
  {
    SplitFront(g);
    hide *;
    InHeap(g);
    InHeap(n);
    label before:
    ghost var m;
    child, m := Clone(p, g.kids);
    StaysOwned@before(g);
    StaysOwned@before(g.rest);
    StaysClone@before(n);
    OwnTreeIs(Single(child, m));
    StepClone(Structure(n), g, n, Single(child, m));
    Joined(n, Single(child, m));
    JoinedDistinct(n, Single(child, m));
    MarkedJoined(n, Single(child, m), None, None);
    LastRoot(n, child, m);
    g', n' := g.rest, Concat(n, Single(child, m));
  }

  lemma SplitFront(g: Forest<Property>)
    requires Owns(g) && g.Tree?
    ensures Owns(Single(g.root, g.kids)) && Owns(g.rest)
    ensures |Flat(g.kids)| < |Flat(g)| && |Flat(g.rest)| < |Flat(g)|
    ensures Elems(g.rest) <= Elems(g) && Elems(Single(g.root, g.kids)) <= Elems(g)
  {
    TreeElems(g.root, g.kids, g.rest);
    TreeElems(g.root, g.kids, Empty);
  }

  // ------------------------------------------------------------------------------------------
  // Positions
  // ------------------------------------------------------------------------------------------

  /** The first i trees. */
  function Take<T>(f: Forest<T>, i: nat): Forest<T>
    requires i <= |Roots(f)|
  {
    if i == 0 then Empty else Tree(f.root, f.kids, Take(f.rest, i - 1))
  }

  /** All trees but the first i. */
  function Skip<T>(f: Forest<T>, i: nat): Forest<T>
    requires i <= |Roots(f)|
  {
    if i == 0 then f else Skip(f.rest, i - 1)
  }

  /** What is below the i-th tree. */
  function KidsAt<T>(f: Forest<T>, i: nat): Forest<T>
    requires i < |Roots(f)|
  {
    if i == 0 then f.kids else KidsAt(f.rest, i - 1)
  }

  lemma {:induction false} TakeSkip<T>(f: Forest<T>, i: nat)
    requires i <= |Roots(f)|
    ensures Concat(Take(f, i), Skip(f, i)) == f
    ensures Roots(Take(f, i)) == Roots(f)[..i] && Roots(Skip(f, i)) == Roots(f)[i..]
    ensures i < |Roots(f)| ==>
              Skip(f, i) == Tree(Roots(f)[i], KidsAt(f, i), Skip(f, i + 1))
  {
    if i > 0 {
      TakeSkip(f.rest, i - 1);
    }
  }

  /** The parts of an own forest around the i-th tree have nothing in common. */
  lemma Parts(k: Forest<Property>, i: nat)
    requires i < |Roots(k)| && Distinct(Flat(k)) && Owns(k)
    ensures var a, t, b := Take(k, i), Single(Roots(k)[i], KidsAt(k, i)), Skip(k, i + 1);
      && k == Concat(a, Concat(t, b))
      && Owns(a) && OwnTree(t) && Owns(b) && Distinct(Flat(a)) && Distinct(Flat(b))
      && Elems(k) == Elems(a) + Elems(t) + Elems(b)
      && Elems(a) !! Elems(t) && Elems(t) !! Elems(b) && Elems(a) !! Elems(b)
  {
    TakeSkip(k, i);
    var a, x, b := Take(k, i), Skip(k, i), Skip(k, i + 1);
    var t := Single(x.root, x.kids);
    assert Concat(t, b) == x;
    Joined(a, x);
    Joined(t, b);
    Separate(a, x);
    Separate(t, b);
  }

  lemma Separate(f: Forest<Property>, g: Forest<Property>)
    requires Distinct(Flat(Concat(f, g)))
    ensures Distinct(Flat(f)) && Distinct(Flat(g)) && Elems(f) !! Elems(g)
  {
    ConcatFlat(f, g);
    DistinctConcat(Flat(f), Flat(g));
  }

  // ------------------------------------------------------------------------------------------
  // Edits by identity
  // ------------------------------------------------------------------------------------------

  /** value.erase(remove(begin, end, x)): moves everything but x to the front, and erases one element behind. */
  method EraseRemoved(s: seq<Property>, x: Property) returns (r: seq<Property>)
    requires x in s
    ensures |r| == |s| - 1
    ensures forall i :: 0 <= i < |s| && s[i] == x && x !in s[..i] && x !in s[i + 1..] ==> r == s[..i] + s[i + 1..]
  {
    var v, w := s, 0;
    for i := 0 to |s|
      invariant |v| == |s| && w == |Without(s[..i], x)| <= i
      invariant v[..w] == Without(s[..i], x)
    {
      OneMoreWithout(s, x, i);
      if s[i] != x {
        v := v[w := s[i]];
        w := w + 1;
      }
    }
    assert s[..|s|] == s;
    ShorterWithout(s, x);
    r := v[..w] + v[w + 1..];
    forall i | 0 <= i < |s| && s[i] == x && x !in s[..i] && x !in s[i + 1..] ensures r == s[..i] + s[i + 1..] {
      OnceWithout(s, x, i);
    }
  }

  function Without(s: seq<Property>, x: Property): seq<Property> {
    if s == [] then [] else Without(s[..|s| - 1], x) + if s[|s| - 1] == x then [] else [s[|s| - 1]]
  }

  lemma OneMoreWithout(s: seq<Property>, x: Property, i: nat)
    requires i < |s|
    ensures Without(s[..i + 1], x) == Without(s[..i], x) + if s[i] == x then [] else [s[i]]
  {
    assert s[..i + 1][..i] == s[..i];
  }

  lemma {:induction false} ShorterWithout(s: seq<Property>, x: Property)
    ensures |Without(s, x)| <= |s| && (x in s ==> |Without(s, x)| < |s|)
    ensures x !in s ==> Without(s, x) == s
  {
    if s != [] {
      ShorterWithout(s[..|s| - 1], x);
    }
  }

  lemma {:induction false} WithoutConcat(a: seq<Property>, b: seq<Property>, x: Property)
    ensures Without(a + b, x) == Without(a, x) + Without(b, x)
    decreases |b|
  {
    if b == [] {
      assert a + b == a;
    } else {
      assert (a + b)[..|a + b| - 1] == a + b[..|b| - 1];
      WithoutConcat(a, b[..|b| - 1], x);
    }
  }

  lemma OnceWithout(s: seq<Property>, x: Property, i: nat)
    requires i < |s| && s[i] == x && x !in s[..i] && x !in s[i + 1..]
    ensures Without(s, x) == s[..i] + s[i + 1..]
  {
    hide *;
    var a, b := s[..i], s[i + 1..];
    SplitOff(s, i);
    NothingWithout(x);
    WithoutConcat(a, [x] + b, x);
    WithoutConcat([x], b, x);
    ShorterWithout(a, x);
    ShorterWithout(b, x);
  }

  lemma SplitOff(s: seq<Property>, i: nat)
    requires i < |s|
    ensures s == s[..i] + ([s[i]] + s[i + 1..])
    ensures [] + s[i + 1..] == s[i + 1..]
  {
  }

  lemma NothingWithout(x: Property)
    ensures Without([x], x) == []
  {
    assert [x][..0] == [];
  }

  // ------------------------------------------------------------------------------------------
  // Edits
  // ------------------------------------------------------------------------------------------

  /** A tree of its own that carries one document and one reference throughout. */
  ghost predicate Whole(w: Forest<Property>, pdf: Option<nat>, ref: Option<(nat, nat)>)
    reads Elems(w)
  {
    OwnTree(w) && Marked(w, pdf, ref)
  }

  /** A container whose own tree carries its document and reference throughout. */
  ghost predicate Settled(p: Property, k: Forest<Property>)
    reads Elems(Single(p, k))
  {
    Whole(Single(p, k), p.pdf, p.ref)
  }

  lemma SettledParts(p: Property, k: Forest<Property>)
    requires Settled(p, k)
    ensures Owns(k) && Distinct(Flat(k)) && p !in Elems(k) && p.value == Roots(k)
    ensures Elems(Single(p, k)) == {p} + Elems(k) && Marked(k, p.pdf, p.ref)
    ensures if p.shape.DictShape? then |p.names| == |p.value| else p.names == []
    ensures !p.shape.Plain? || p.value == []
  {
    TreeElems(p, k, Empty);
    SingleFlat(p, k);
    DistinctConcat([p], Flat(k));
    assert p in [p];
  }

  lemma Settles(p: Property, k: Forest<Property>)
    requires Owns(k) && Distinct(Flat(k)) && p !in Elems(k) && p.value == Roots(k) && Marked(k, p.pdf, p.ref)
    requires (if p.shape.DictShape? then |p.names| == |p.value| else p.names == []) && !p.shape.Plain?
    ensures Settled(p, k)
  {
    hide Owns, Distinct, Flat;
    TreeOwned(p, k);
    MarkedTree(p, k);
  }

  lemma MarkedIs(f: Forest<Property>, pdf: Option<nat>, ref: Option<(nat, nat)>)
    ensures Marked(f, pdf, ref) <==> forall o: Property :: o in Elems(f) ==> o.pdf == pdf && o.ref == ref
  {
  }

  /** The fields of a removed or replaced child, when the container belongs to a document. */
  method Release(x: Property, valid: bool, ghost kx: Forest<Property>)
    requires OwnTree(Single(x, kx))
    modifies Elems(Single(x, kx))`pdf, Elems(Single(x, kx))`ref
    ensures OwnTree(Single(x, kx)) && (valid ==> Marked(Single(x, kx), None, None))
    ensures Structure(Single(x, kx)) == old(Structure(Single(x, kx)))
  {
    OwnTreeIs(Single(x, kx));
    hide *;
    InHeap(Single(x, kx));
    label start:
    if valid {
      SetPdf(x, None, kx);
      StaysOwned@start(Single(x, kx));
      SetIndiRef(x, None, kx);
    }
    StaysOwned@start(Single(x, kx));
    OwnTreeIs(Single(x, kx));
    MarkedIs(Single(x, kx), None, None);
  }

  lemma NoTwice(k: Forest<Property>, i: nat)
    requires Distinct(Flat(k)) && i < |Roots(k)|
    ensures var s := Roots(k); s[i] !in s[..i] && s[i] !in s[i + 1..]
  {
    RootsDistinct(k);
  }

  lemma {:induction false} RootsDistinct(k: Forest<Property>)
    requires Distinct(Flat(k))
    ensures Distinct(Roots(k))
  {
    match k
    case Empty =>
    case Tree(r, kk, s) =>
      DistinctTree(r, kk, s);
      RootsDistinct(s);
      RootsInFlat(s);
      DistinctConcat([r], Roots(s));
  }

  /** The container once the i-th child is out of its tree. */
  lemma CutSettles(p: Property, k: Forest<Property>, i: nat)
    requires i < |Roots(k)| && Distinct(Flat(k)) && Owns(k) && p !in Elems(k) && !p.shape.Plain?
    requires p.value == Roots(k)[..i] + Roots(k)[i + 1..]
    requires if p.shape.DictShape? then |p.names| == |p.value| else p.names == []
    requires forall o: Property :: o in Elems(k) && o !in Elems(Single(Roots(k)[i], KidsAt(k, i))) ==>
               o.pdf == p.pdf && o.ref == p.ref
    ensures Settled(p, Cut(k, i)) && Structure(Cut(k, i)) == Concat(Structure(Take(k, i)), Structure(Skip(k, i + 1)))
  {
    hide *;
    Parts(k, i);
    TakeSkip(k, i);
    TakeSkip(k, i + 1);
    CutIs(k, i);
    var a, b := Take(k, i), Skip(k, i + 1);
    Joined(a, b);
    JoinedDistinct(a, b);
    MarkedIs(Concat(a, b), p.pdf, p.ref);
    ConcatFlat(a, b);
    Settles(p, Concat(a, b));
  }

  /** A forest without its i-th tree. */
  function Cut<T>(f: Forest<T>, i: nat): Forest<T>
    requires i < |Roots(f)|
  {
    TakeSkip(f, i);
    Concat(Take(f, i), Skip(f, i + 1))
  }

  lemma CutIs<T>(f: Forest<T>, i: nat)
    requires i < |Roots(f)|
    ensures Cut(f, i) == Concat(Take(f, i), Skip(f, i + 1))
  {
  }

  /** Takes the i-th child out; value and names are what is left. */
  method TakeOut(p: Property, i: nat, value: seq<Property>, names: seq<string>, ghost k: Forest<Property>)
    requires Settled(p, k) && i < |p.value| && !p.shape.Plain?
    requires value == p.value[..i] + p.value[i + 1..]
    requires if p.shape.DictShape? then |names| == |value| else names == []
    modifies p`value, p`names, Elems(k)`pdf, Elems(k)`ref
    ensures p.value == value && p.names == names && i < |Roots(k)| && Settled(p, Cut(k, i))
    ensures var gone := Single(old(p.value)[i], KidsAt(k, i));
              OwnTree(gone) && (p.pdf.Some? ==> Marked(gone, None, None))
  {
    SettledParts(p, k);
    hide *;
    MarkedIs(k, p.pdf, p.ref);
    Parts(k, i);
    InHeap(k);
    label start:
    var oldip := p.value[i];
    p.value, p.names := value, names;
    StaysOwned@start(k);
    Parts(k, i);
    Release(oldip, p.pdf.Some?, KidsAt(k, i));
    StaysOwned@start(k);
    CutSettles(p, k, i);
  }

  /** A forest with the trees of g in front of its i-th tree. */
  function Widened<T>(f: Forest<T>, i: nat, g: Forest<T>): Forest<T>
    requires i <= |Roots(f)|
  {
    Concat(Take(f, i), Concat(g, Skip(f, i)))
  }

  /** A forest with the trees of g in the place of its i-th tree. */
  function Changed<T>(f: Forest<T>, i: nat, g: Forest<T>): Forest<T>
    requires i < |Roots(f)|
  {
    TakeSkip(f, i);
    Concat(Take(f, i), Concat(g, Skip(f, i + 1)))
  }

  /** A container around three runs of its children. */
  lemma ThreeSettle(p: Property, a: Forest<Property>, t: Forest<Property>, b: Forest<Property>)
    requires Owns(a) && Owns(t) && Owns(b) && Distinct(Flat(a)) && Distinct(Flat(t)) && Distinct(Flat(b))
    requires Elems(a) !! Elems(t) && Elems(t) !! Elems(b) && Elems(a) !! Elems(b)
    requires p !in Elems(a) && p !in Elems(t) && p !in Elems(b) && !p.shape.Plain?
    requires p.value == Roots(a) + Roots(t) + Roots(b)
    requires if p.shape.DictShape? then |p.names| == |p.value| else p.names == []
    requires Marked(a, p.pdf, p.ref) && Marked(t, p.pdf, p.ref) && Marked(b, p.pdf, p.ref)
    ensures Settled(p, Concat(a, Concat(t, b)))
  {
    hide *;
    Joined(t, b);
    JoinedDistinct(t, b);
    MarkedJoined(t, b, p.pdf, p.ref);
    ConcatFlat(t, b);
    Joined(a, Concat(t, b));
    JoinedDistinct(a, Concat(t, b));
    MarkedJoined(a, Concat(t, b), p.pdf, p.ref);
    ConcatFlat(a, Concat(t, b));
    RightFirst(Roots(a), Roots(t), Roots(b));
    Settles(p, Concat(a, Concat(t, b)));
  }

  lemma RightFirst(a: seq<Property>, b: seq<Property>, c: seq<Property>)
    ensures a + (b + c) == a + b + c
  {
  }

  /** A clone that takes on the document and the reference of its new container. */
  method Adopt(p: Property, newIp: Property, ghost nk: Forest<Property>)
    returns (c: Property, ghost n: Forest<Property>)
    requires Owns(Single(newIp, nk))
    ensures OwnTree(Single(c, n)) && fresh(Elems(Single(c, n))) && Marked(Single(c, n), p.pdf, p.ref)
    ensures Structure(Single(c, n)) == old(Structure(Single(newIp, nk)))
  {
    hide *;
    c, n := Clone(newIp, nk);
    OwnTreeIs(Single(c, n));
    InHeap(Single(c, n));
    label cloned:
    SetPdf(c, p.pdf, n);
    StaysOwned@cloned(Single(c, n));
    SetIndiRef(c, p.ref, n);
    StaysOwned@cloned(Single(c, n));
    OwnTreeIs(Single(c, n));
    MarkedIs(Single(c, n), p.pdf, p.ref);
  }

  /** The container once a tree of its own stands between the first i children and those from j on. */
  lemma PutSettles(p: Property, k: Forest<Property>, i: nat, j: nat, t: Forest<Property>)
    requires i <= j <= |Roots(k)| && Distinct(Flat(k)) && Owns(k) && p !in Elems(k) && !p.shape.Plain?
    requires OwnTree(t) && Marked(t, p.pdf, p.ref) && Elems(t) !! Elems(k) && p !in Elems(t)
    requires p.value == Roots(k)[..i] + Roots(t) + Roots(k)[j..]
    requires if p.shape.DictShape? then |p.names| == |p.value| else p.names == []
    requires Marked(k, p.pdf, p.ref)
    ensures Settled(p, Concat(Take(k, i), Concat(t, Skip(k, j))))
  {
    hide *;
    MarkedIs(k, p.pdf, p.ref);
    TakeSkip(k, i);
    TakeSkip(k, j);
    OwnTreeIs(t);
    Ends(k, i, j);
    MarkedIs(Take(k, i), p.pdf, p.ref);
    MarkedIs(Skip(k, j), p.pdf, p.ref);
    ThreeSettle(p, Take(k, i), t, Skip(k, j));
  }

  /** Inserts a clone of newIp in front of the i-th child. */
  method PutIn(p: Property, i: nat, newIp: Property, names: seq<string>, ghost k: Forest<Property>,
               ghost nk: Forest<Property>) returns (c: Property, ghost n: Forest<Property>)
    requires Settled(p, k) && i <= |p.value| && !p.shape.Plain? && Owns(Single(newIp, nk))
    requires if p.shape.DictShape? then |names| == |p.value| + 1 else names == []
    modifies p`value, p`names
    ensures fresh(Elems(Single(c, n))) && p.value == old(p.value)[..i] + [c] + old(p.value)[i..] && p.names == names
    ensures i <= |Roots(k)| && Settled(p, Widened(k, i, Single(c, n)))
    ensures Structure(Single(c, n)) == old(Structure(Single(newIp, nk)))
  {
    SettledParts(p, k);
    hide *;
    MarkedIs(k, p.pdf, p.ref);
    InHeap(Single(p, k));
    label start:
    c, n := Adopt(p, newIp, nk);
    OneTree(c, n);
    StaysOwned@start(k);
    WidenedIs(k, i, Single(c, n));
    Place(p, i, i, c, p.value[..i] + [c] + p.value[i..], names, k, n);
  }

  lemma WidenedIs<T>(f: Forest<T>, i: nat, g: Forest<T>)
    requires i <= |Roots(f)|
    ensures Widened(f, i, g) == Concat(Take(f, i), Concat(g, Skip(f, i)))
    ensures i < |Roots(f)| ==> Changed(f, i, g) == Concat(Take(f, i), Concat(g, Skip(f, i + 1)))
  {
  }

  /** Puts a clone of newIp in the place of the i-th child. */
  method Exchange(p: Property, i: nat, newIp: Property, ghost k: Forest<Property>, ghost nk: Forest<Property>)
    returns (c: Property, ghost n: Forest<Property>)
    requires Settled(p, k) && i < |p.value| && !p.shape.Plain? && Owns(Single(newIp, nk))
    modifies p`value, p`names, Elems(k)`pdf, Elems(k)`ref
    ensures fresh(Elems(Single(c, n))) && p.value == old(p.value)[i := c] && p.names == old(p.names)
    ensures i < |Roots(k)| && Settled(p, Changed(k, i, Single(c, n)))
    ensures Structure(Single(c, n)) == old(Structure(Single(newIp, nk)))
    ensures var gone := Single(old(p.value)[i], KidsAt(k, i));
              OwnTree(gone) && (p.pdf.Some? ==> Marked(gone, None, None))
  {
    SettledParts(p, k);
    hide *;
    MarkedIs(k, p.pdf, p.ref);
    InHeap(Single(p, k));
    label start:
    c, n := Adopt(p, newIp, nk);
    OneTree(c, n);
    StaysOwned@start(k);
    Swap(p, i, c, k, n);
  }

  /** Stores an adopted clone in the place of the i-th child. */
  method Swap(p: Property, i: nat, c: Property, ghost k: Forest<Property>, ghost n: Forest<Property>)
    requires Owns(k) && Distinct(Flat(k)) && p.value == Roots(k) && p !in Elems(k)
    requires forall o: Property :: o in Elems(k) ==> o.pdf == p.pdf && o.ref == p.ref
    requires i < |p.value| && !p.shape.Plain?
    requires OwnTree(Single(c, n)) && Marked(Single(c, n), p.pdf, p.ref)
    requires Elems(Single(c, n)) !! Elems(k) && p !in Elems(Single(c, n))
    requires if p.shape.DictShape? then |p.names| == |p.value| else p.names == []
    modifies p`value, p`names, Elems(k)`pdf, Elems(k)`ref
    ensures p.value == old(p.value)[i := c] && p.names == old(p.names)
    ensures i < |Roots(k)| && Settled(p, Changed(k, i, Single(c, n)))
    ensures Structure(Single(c, n)) == old(Structure(Single(c, n)))
    ensures var gone := Single(old(p.value)[i], KidsAt(k, i));
              OwnTree(gone) && (p.pdf.Some? ==> Marked(gone, None, None))
  {
    hide *;
    NoTwice(k, i);
    IndexUpdate(p.value, i, c);
    WidenedIs(k, i, Single(c, n));
    var oldip := p.value[i];
    var value := Replaced(p.value, oldip, c, i);
    Place(p, i, i + 1, c, value, p.names, k, n);
    ReleaseOld(p, oldip, i, k, c, n);
  }

  /** std::replace as a function, for a value that occurs once. */
  function Replaced(s: seq<Property>, x: Property, c: Property, ghost i: nat): (r: seq<Property>)
    requires i < |s| && s[i] == x && x !in s[..i] && x !in s[i + 1..]
    ensures r == s[i := c]
  {
    OnlyAt(s, x, i);
    seq(|s|, j requires 0 <= j < |s| => if s[j] == x then c else s[j])
  }

  lemma OnlyAt(s: seq<Property>, x: Property, i: nat)
    requires i < |s| && s[i] == x && x !in s[..i] && x !in s[i + 1..]
    ensures forall j :: 0 <= j < |s| ==> (s[j] == x <==> j == i)
  {
    assert forall j :: 0 <= j < i ==> s[j] in s[..i];
    assert forall j :: i < j < |s| ==> s[j] == s[i + 1..][j - i - 1];
  }

  lemma SettledIs(p: Property, k: Forest<Property>)
    ensures Settled(p, k) <==> OwnTree(Single(p, k)) && Marked(Single(p, k), p.pdf, p.ref)
  {
  }

  lemma ChangedApart(p: Property, k: Forest<Property>, i: nat, t: Forest<Property>)
    requires i < |Roots(k)| && Owns(k) && Distinct(Flat(k)) && Elems(t) !! Elems(k) && p !in Elems(k)
    ensures Elems(Single(p, Changed(k, i, t))) !! Elems(Single(Roots(k)[i], KidsAt(k, i)))
  {
    hide *;
    Parts(k, i);
    TakeSkip(k, i);
    WidenedIs(k, i, t);
    Joined(t, Skip(k, i + 1));
    Joined(Take(k, i), Concat(t, Skip(k, i + 1)));
    OneTree(p, Changed(k, i, t));
  }

  /** The replaced child leaves its document. */
  method ReleaseOld(p: Property, oldip: Property, ghost i: nat, ghost k: Forest<Property>, ghost c: Property,
                    ghost n: Forest<Property>)
    requires i < |Roots(k)| && Owns(k) && Distinct(Flat(k)) && Elems(Single(c, n)) !! Elems(k) && p !in Elems(k)
    requires oldip == Roots(k)[i] && Settled(p, Changed(k, i, Single(c, n)))
    modifies Elems(k)`pdf, Elems(k)`ref
    ensures Settled(p, Changed(k, i, Single(c, n)))
    ensures var gone := Single(oldip, KidsAt(k, i)); OwnTree(gone) && (p.pdf.Some? ==> Marked(gone, None, None))
    ensures Structure(Single(c, n)) == old(Structure(Single(c, n)))
  {
    hide *;
    ghost var all := Single(p, Changed(k, i, Single(c, n)));
    Parts(k, i);
    ChangedApart(p, k, i, Single(c, n));
    SettledIs(p, Changed(k, i, Single(c, n)));
    OwnTreeIs(all);
    MarkedIs(all, p.pdf, p.ref);
    InHeap(all);
    InHeap(Single(c, n));
    label placed:
    Release(oldip, p.pdf.Some?, KidsAt(k, i));
    StaysOwned@placed(all);
    MarkedIs(all, p.pdf, p.ref);
    OwnTreeIs(all);
    SettledIs(p, Changed(k, i, Single(c, n)));
  }

  /** Stores the children with a tree of its own among them. */
  method Place(p: Property, ghost i: nat, ghost j: nat, ghost c: Property, value: seq<Property>, names: seq<string>,
               ghost k: Forest<Property>, ghost n: Forest<Property>)
    requires Owns(k) && Distinct(Flat(k)) && p.value == Roots(k) && p !in Elems(k)
    requires forall o: Property :: o in Elems(k) ==> o.pdf == p.pdf && o.ref == p.ref
    requires i <= j <= |p.value| && j <= i + 1 && !p.shape.Plain?
    requires OwnTree(Single(c, n)) && Marked(Single(c, n), p.pdf, p.ref)
    requires Elems(Single(c, n)) !! Elems(k) && p !in Elems(Single(c, n))
    requires value == p.value[..i] + [c] + p.value[j..]
    requires if p.shape.DictShape? then |names| == |value| else names == []
    modifies p`value, p`names
    ensures p.value == value && p.names == names
    ensures Settled(p, Concat(Take(k, i), Concat(Single(c, n), Skip(k, j))))
    ensures Structure(Single(c, n)) == old(Structure(Single(c, n)))
    ensures Owns(k) && Marked(k, p.pdf, p.ref)
  {
    hide *;
    OwnTreeIs(Single(c, n));
    MarkedIs(Single(c, n), p.pdf, p.ref);
    InHeap(k);
    InHeap(Single(c, n));
    label start:
    p.value, p.names := value, names;
    StaysOwned@start(k);
    StaysOwned@start(Single(c, n));
    OwnTreeIs(Single(c, n));
    MarkedIs(Single(c, n), p.pdf, p.ref);
    MarkedIs(k, p.pdf, p.ref);
    SingleFlat(c, n);
    PutSettles(p, k, i, j, Single(c, n));
  }

  /** The first i trees and those from j on. */
  lemma Ends(k: Forest<Property>, i: nat, j: nat)
    requires i <= j <= |Roots(k)| && Distinct(Flat(k)) && Owns(k)
    ensures Owns(Take(k, i)) && Owns(Skip(k, j)) && Distinct(Flat(Take(k, i))) && Distinct(Flat(Skip(k, j)))
    ensures Elems(Take(k, i)) <= Elems(k) && Elems(Skip(k, j)) <= Elems(k) && Elems(Take(k, i)) !! Elems(Skip(k, j))
  {
    hide *;
    TakeSkip(k, i);
    Joined(Take(k, i), Skip(k, i));
    Separate(Take(k, i), Skip(k, i));
    SkipMore(k, i, j);
    TakeSkip(Skip(k, i), j - i);
    Joined(Take(Skip(k, i), j - i), Skip(k, j));
    Separate(Take(Skip(k, i), j - i), Skip(k, j));
  }

  lemma {:induction false} SkipMore<T>(k: Forest<T>, i: nat, j: nat)
    requires i <= j <= |Roots(k)|
    ensures |Roots(Skip(k, i))| == |Roots(k)| - i && Skip(Skip(k, i), j - i) == Skip(k, j)
  {
    if i > 0 {
      SkipMore(k.rest, i - 1, j - 1);
    }
  }

  lemma IndexUpdate(s: seq<Property>, i: nat, c: Property)
    requires i < |s|
    ensures s[i := c] == s[..i] + [c] + s[i + 1..]
  {
  }

  // ------------------------------------------------------------------------------------------
  // Containers inside containers
  // ------------------------------------------------------------------------------------------

  lemma {:induction false} Inside(w: Forest<Property>, x: Property)
    requires Owns(w) && x in Flat(w)
    ensures Owns(Single(x, Kids(w, x)))
  {
    var Tree(r, k, s) := w;
    TreeElems(r, k, s);
    if r == x {
      TreeElems(r, k, Empty);
    } else if x in Flat(k) {
      Inside(k, x);
    } else {
      Inside(s, x);
    }
  }

  /** Every container of a whole tree, at any depth, is settled. */
  lemma InnerSettled(w: Forest<Property>, x: Property)
    requires Whole(w, x.pdf, x.ref) && x in Elems(w)
    ensures Settled(x, Kids(w, x))
  {
    hide Owns, Kids;
    Inside(w, x);
    KidsInside(w, x);
    KidsDistinct(w, x);
    SingleFlat(x, Kids(w, x));
  }

  /** The value fields spell out w, except for x and what is below it. */
  ghost predicate OwnsOutside(w: Forest<Property>, x: Property)
    requires Distinct(Flat(w)) && x in Flat(w)
    reads Outside(w, x)
  {
    OutsideParts(w.root, w.kids, w.rest, x);
    if w.root == x then Owns(w.rest)
    else if x in Flat(w.kids) then Holds(w.root, w.kids) && OwnsOutside(w.kids, x) && Owns(w.rest)
    else Holds(w.root, w.kids) && Owns(w.kids) && OwnsOutside(w.rest, x)
  }

  lemma {:induction false} OwnedOutside(w: Forest<Property>, x: Property)
    requires Owns(w) && Distinct(Flat(w)) && x in Flat(w)
    ensures OwnsOutside(w, x)
  {
    var Tree(r, k, s) := w;
    TreeElems(r, k, s);
    DistinctTree(r, k, s);
    if r != x && x in Flat(k) {
      OwnedOutside(k, x);
    } else if r != x {
      OwnedOutside(s, x);
    }
  }

  lemma {:induction false} SpliceOwned(w: Forest<Property>, x: Property, n: Forest<Property>)
    requires Distinct(Flat(w)) && x in Flat(w) && OwnsOutside(w, x) && Owns(Single(x, n))
    ensures Owns(Splice(w, x, Single(x, n)))
  {
    var Tree(r, k, s) := w;
    TreeElems(r, k, s);
    DistinctTree(r, k, s);
    if r == x {
      Joined(Single(x, n), s);
    } else if x in Flat(k) {
      SpliceOwned(k, x, n);
      SpliceRoots(k, x, Single(x, n));
      SingleFlat(x, n);
      ReplaceItself(Roots(k), x);
      TreeIs(r, Splice(k, x, Single(x, n)), s);
    } else {
      SpliceOwned(s, x, n);
      TreeIs(r, k, Splice(s, x, Single(x, n)));
    }
  }

  lemma TreeIs(r: Property, k: Forest<Property>, s: Forest<Property>)
    ensures Owns(Tree(r, k, s)) <==> Holds(r, k) && Owns(k) && Owns(s)
  {
    TreeElems(r, k, s);
  }

  lemma SpliceWhole(w: Forest<Property>, x: Property, n: Forest<Property>)
    requires Distinct(Flat(w)) && x in Flat(w) && OwnsOutside(w, x) && Settled(x, n)
    requires forall o: Property :: o in Outside(w, x) ==> o.pdf == x.pdf && o.ref == x.ref
    requires forall o: Property :: o in Elems(n) ==> o in Elems(Kids(w, x)) || o !in Elems(w)
    ensures Whole(Splice(w, x, Single(x, n)), x.pdf, x.ref)
    ensures Elems(Splice(w, x, Single(x, n))) == Outside(w, x) + {x} + Elems(n)
  {
    hide *;
    var v := Splice(w, x, Single(x, n));
    SettledIs(x, n);
    OwnTreeIs(Single(x, n));
    MarkedIs(Single(x, n), x.pdf, x.ref);
    OneTree(x, n);
    assert forall o :: o in Elems(n) ==> o in Elems(Kids(w, x)) || o !in Elems(w);
    SpliceElems(w, x, n);
    SpliceOwned(w, x, n);
    OwnTreeIs(v);
    MarkedIs(v, x.pdf, x.ref);
    WholeIs(v, x.pdf, x.ref);
  }

  /** For a container outer around x: a change below x that leaves its whole tree in order leaves it settled. */
  lemma OuterSettled(outer: Property, f: Forest<Property>, x: Property, n: Forest<Property>)
    requires x != outer && x in Flat(f)
    requires Whole(Splice(Single(outer, f), x, Single(x, n)), x.pdf, x.ref)
    ensures Settled(outer, Splice(f, x, Single(x, n)))
  {
    var v := Single(outer, Splice(f, x, Single(x, n)));
    assert Splice(Single(outer, f), x, Single(x, n)) == v;
    assert outer in Elems(v);
  }

  lemma WholeIs(w: Forest<Property>, pdf: Option<nat>, ref: Option<(nat, nat)>)
    ensures Whole(w, pdf, ref) <==> OwnTree(w) && Marked(w, pdf, ref)
  {
  }

  /** No name occurs twice. */
  predicate UniqueNames(names: seq<string>) {
    forall i, j :: 0 <= i < j < |names| ==> names[i] != names[j]
  }

  /** No dictionary in w has a name twice. */
  ghost predicate Named(w: Forest<Property>)
    reads Elems(w)`names
  {
    forall o: Property :: o in Elems(w) ==> UniqueNames(o.names)
  }

  /** A tree that has left w and belongs to no document. */
  ghost predicate Gone(t: Forest<Property>, w: Forest<Property>, pdf: Option<nat>)
    reads Elems(t)
  {
    OwnTree(t) && Elems(t) !! Elems(w) && (pdf.Some? ==> Marked(t, None, None))
  }

  /** What a change at x leaves as it is. */
  lemma WholeParts(w: Forest<Property>, x: Property)
    requires Whole(w, x.pdf, x.ref) && x in Elems(w)
    ensures Distinct(Flat(w)) && x in Flat(w) && OwnsOutside(w, x) && Settled(x, Kids(w, x))
    ensures forall o: Property :: o in Outside(w, x) ==> o.pdf == x.pdf && o.ref == x.ref
    ensures forall o: Property :: o in Elems(w) ==> allocated(o)
    ensures x !in Elems(Kids(w, x)) && Outside(w, x) !! {x} + Elems(Kids(w, x))
    ensures Elems(w) == Outside(w, x) + {x} + Elems(Kids(w, x))
  {
    InnerSettled(w, x);
    hide *;
    WholeIs(w, x.pdf, x.ref);
    OwnTreeIs(w);
    MarkedIs(w, x.pdf, x.ref);
    InFlat(w);
    OwnedOutside(w, x);
    OutsideIs(w, x);
    KidsInElems(w, x);
    InHeap(w);
    SettledParts(x, Kids(w, x));
  }

  /** Takes the i-th child of a container inside w out. */
  method TakeOutInside(p: Property, i: nat, value: seq<Property>, names: seq<string>, ghost w: Forest<Property>)
    requires Whole(w, p.pdf, p.ref) && p in Elems(w) && i < |p.value| && !p.shape.Plain?
    requires value == p.value[..i] + p.value[i + 1..]
    requires if p.shape.DictShape? then |names| == |value| else names == []
    modifies p`value, p`names, Elems(Kids(w, p))`pdf, Elems(Kids(w, p))`ref
    ensures p.value == value && p.names == names && i < |Roots(Kids(w, p))|
    ensures var k, v := Kids(w, p), Splice(w, p, Single(p, Cut(Kids(w, p), i)));
      && Whole(v, p.pdf, p.ref) && Gone(Single(old(p.value)[i], KidsAt(k, i)), v, p.pdf)
      && (old(Named(w)) && UniqueNames(names) ==> Named(v))
  {
    hide *;
    ghost var k := Kids(w, p);
    WholeParts(w, p);
    SettledParts(p, k);
    CutApart(k, i);
    NamedIs(w);
    TakeOut(p, i, value, names, k);
    SpliceWhole(w, p, Cut(k, i));
    ghost var v := Splice(w, p, Single(p, Cut(k, i)));
    NamedIs(v);
    GoneIs(Single(old(p.value)[i], KidsAt(k, i)), v, p.pdf);
  }

  lemma NamedIs(w: Forest<Property>)
    ensures Named(w) <==> forall o: Property :: o in Elems(w) ==> UniqueNames(o.names)
  {
  }

  lemma GoneIs(t: Forest<Property>, w: Forest<Property>, pdf: Option<nat>)
    ensures Gone(t, w, pdf) <==> OwnTree(t) && Elems(t) !! Elems(w) && (pdf.Some? ==> Marked(t, None, None))
  {
  }

  lemma CutApart(k: Forest<Property>, i: nat)
    requires i < |Roots(k)| && Distinct(Flat(k))
    ensures Elems(Cut(k, i)) == Elems(k) - Elems(Single(Roots(k)[i], KidsAt(k, i)))
    ensures Elems(Single(Roots(k)[i], KidsAt(k, i))) <= Elems(k)
  {
    hide *;
    TreesApart(k, i);
    CutIs(k, i);
    Joined(Take(k, i), Skip(k, i + 1));
  }

  /** Inserts a clone of newIp in front of the i-th child of a container inside w. */
  method PutInInside(p: Property, i: nat, newIp: Property, names: seq<string>, ghost w: Forest<Property>,
                     ghost nk: Forest<Property>) returns (c: Property, ghost n: Forest<Property>)
    requires Whole(w, p.pdf, p.ref) && p in Elems(w) && i <= |p.value| && !p.shape.Plain?
    requires Owns(Single(newIp, nk))
    requires if p.shape.DictShape? then |names| == |p.value| + 1 else names == []
    modifies p`value, p`names
    ensures p.value == old(p.value)[..i] + [c] + old(p.value)[i..] && p.names == names
    ensures fresh(Elems(Single(c, n))) && Structure(Single(c, n)) == old(Structure(Single(newIp, nk)))
    ensures i <= |Roots(Kids(w, p))|
    ensures var v := Splice(w, p, Single(p, Widened(Kids(w, p), i, Single(c, n))));
      && Whole(v, p.pdf, p.ref)
      && (old(Named(w) && Named(Single(newIp, nk))) && UniqueNames(names) ==> Named(v))
  {
    hide *;
    ghost var k := Kids(w, p);
    WholeParts(w, p);
    SettledParts(p, k);
    NamedIs(w);
    NamedStructure(Single(newIp, nk));
    c, n := PutIn(p, i, newIp, names, k, nk);
    NamedStructure(Single(c, n));
    NamedIs(Single(c, n));
    WidenedElems(k, i, Single(c, n));
    SpliceWhole(w, p, Widened(k, i, Single(c, n)));
    NamedIs(Splice(w, p, Single(p, Widened(k, i, Single(c, n)))));
  }

  lemma {:induction false} NamedStructure(f: Forest<Property>)
    ensures Named(f) <==> NamedNodes(Structure(f))
  {
    match f
    case Empty =>
    case Tree(r, k, s) =>
      NamedStructure(k);
      NamedStructure(s);
      TreeElems(r, k, s);
  }

  predicate NamedNodes(f: Forest<Node>) {
    f.Empty? || (UniqueNames(f.root.names) && NamedNodes(f.kids) && NamedNodes(f.rest))
  }

  lemma WidenedElems(k: Forest<Property>, i: nat, t: Forest<Property>)
    requires i <= |Roots(k)|
    ensures Elems(Widened(k, i, t)) == Elems(k) + Elems(t)
  {
    hide *;
    WidenedIs(k, i, t);
    TakeSkip(k, i);
    Joined(Take(k, i), Skip(k, i));
    Joined(t, Skip(k, i));
    Joined(Take(k, i), Concat(t, Skip(k, i)));
  }

  /** Puts a clone of newIp in the place of the i-th child of a container inside w. */
  method ExchangeInside(p: Property, i: nat, newIp: Property, ghost w: Forest<Property>, ghost nk: Forest<Property>)
    returns (c: Property, ghost n: Forest<Property>)
    requires Whole(w, p.pdf, p.ref) && p in Elems(w) && i < |p.value| && !p.shape.Plain?
    requires Owns(Single(newIp, nk))
    modifies p`value, p`names, Elems(Kids(w, p))`pdf, Elems(Kids(w, p))`ref
    ensures p.value == old(p.value)[i := c] && p.names == old(p.names) && i < |Roots(Kids(w, p))|
    ensures fresh(Elems(Single(c, n))) && Structure(Single(c, n)) == old(Structure(Single(newIp, nk)))
    ensures var k, v := Kids(w, p), Splice(w, p, Single(p, Changed(Kids(w, p), i, Single(c, n))));
      && Whole(v, p.pdf, p.ref) && Gone(Single(old(p.value)[i], KidsAt(k, i)), v, p.pdf)
      && (old(Named(w) && Named(Single(newIp, nk))) ==> Named(v))
  {
    hide *;
    ghost var k := Kids(w, p);
    WholeParts(w, p);
    SettledParts(p, k);
    NamedIs(w);
    NamedStructure(Single(newIp, nk));
    c, n := Exchange(p, i, newIp, k, nk);
    ghost var t := Single(c, n);
    NamedStructure(t);
    NamedIs(t);
    ChangedElems(k, i, t);
    SpliceWhole(w, p, Changed(k, i, t));
    ghost var v := Splice(w, p, Single(p, Changed(k, i, t)));
    NamedIs(v);
    GoneIs(Single(old(p.value)[i], KidsAt(k, i)), v, p.pdf);
  }

  lemma ChangedElems(k: Forest<Property>, i: nat, t: Forest<Property>)
    requires i < |Roots(k)| && Distinct(Flat(k)) && Elems(t) !! Elems(k)
    ensures Elems(Changed(k, i, t)) == Elems(k) - Elems(Single(Roots(k)[i], KidsAt(k, i))) + Elems(t)
    ensures Elems(Single(Roots(k)[i], KidsAt(k, i))) <= Elems(k)
  {
    hide *;
    TreesApart(k, i);
    TakeSkip(k, i);
    WidenedIs(k, i, t);
    Joined(t, Skip(k, i + 1));
    Joined(Take(k, i), Concat(t, Skip(k, i + 1)));
  }

  /** The i-th tree has nothing in common with the others. */
  lemma TreesApart(k: Forest<Property>, i: nat)
    requires i < |Roots(k)| && Distinct(Flat(k))
    ensures var a, t, b := Take(k, i), Single(Roots(k)[i], KidsAt(k, i)), Skip(k, i + 1);
      Elems(k) == Elems(a) + Elems(t) + Elems(b) && Elems(a) !! Elems(t) && Elems(t) !! Elems(b)
  {
    TakeSkip(k, i);
    var a, x, b := Take(k, i), Skip(k, i), Skip(k, i + 1);
    var t := Single(x.root, x.kids);
    assert Concat(t, b) == x;
    Joined(a, x);
    Joined(t, b);
    Separate(a, x);
    Separate(t, b);
  }

  // ------------------------------------------------------------------------------------------
  // Arrays
  // ------------------------------------------------------------------------------------------

  /** delProperty of an array: fails behind the end; else the element goes, and belongs to no document. */
  method DelProperty(arr: Property, id: nat, ghost w: Forest<Property>) returns (ok: bool)
    requires arr.shape.ArrayShape? && Whole(w, arr.pdf, arr.ref) && arr in Elems(w)
    modifies arr`value, arr`names, Elems(Kids(w, arr))`pdf, Elems(Kids(w, arr))`ref
    ensures ok <==> id < |old(arr.value)|
    ensures arr.pdf == old(arr.pdf) && arr.ref == old(arr.ref)
    ensures !ok ==> arr.value == old(arr.value) && Whole(w, arr.pdf, arr.ref) && (old(Named(w)) ==> Named(w))
    ensures ok ==> arr.value == old(arr.value)[..id] + old(arr.value)[id + 1..] && id < |Roots(Kids(w, arr))|
    ensures ok ==> var k, v := Kids(w, arr), Splice(w, arr, Single(arr, Cut(Kids(w, arr), id)));
              && Whole(v, arr.pdf, arr.ref) && Gone(Single(old(arr.value)[id], KidsAt(k, id)), v, arr.pdf)
              && (old(Named(w)) ==> Named(v))
  {
    WholeParts(w, arr);
    SettledParts(arr, Kids(w, arr));
    hide *;
    if id >= |arr.value| {
      return false;
    }
    NoNames();
    NoTwice(Kids(w, arr), id);
    var value := EraseRemoved(arr.value, arr.value[id]);
    WholeParts(w, arr);
    TakeOutInside(arr, id, value, [], w);
    ok := true;
  }

  lemma NoNames()
    ensures UniqueNames([])
  {
  }

  /** addProperty at a position: fails behind the end; else a clone, marked like the array, stands there. */
  method AddProperty(arr: Property, position: nat, newIp: Property, ghost w: Forest<Property>,
                     ghost nk: Forest<Property>)
    returns (ok: bool, ghost c: Property, ghost n: Forest<Property>)
    requires arr.shape.ArrayShape? && Whole(w, arr.pdf, arr.ref) && arr in Elems(w) && Owns(Single(newIp, nk))
    modifies arr`value, arr`names
    ensures ok <==> position <= |old(arr.value)|
    ensures !ok ==> arr.value == old(arr.value) && Whole(w, arr.pdf, arr.ref) && (old(Named(w)) ==> Named(w))
    ensures ok ==> arr.value == old(arr.value)[..position] + [c] + old(arr.value)[position..]
    ensures ok ==> fresh(Elems(Single(c, n))) && Structure(Single(c, n)) == old(Structure(Single(newIp, nk)))
    ensures ok ==> position <= |Roots(Kids(w, arr))|
    ensures ok ==> var v := Splice(w, arr, Single(arr, Widened(Kids(w, arr), position, Single(c, n))));
              && Whole(v, arr.pdf, arr.ref)
              && (old(Named(w) && Named(Single(newIp, nk))) ==> Named(v))
  {
    hide *;
    c, n := newIp, nk;
    if position > |arr.value| {
      return false, c, n;
    }
    NoNames();
    var clone;
    clone, n := PutInInside(arr, position, newIp, [], w, nk);
    c := clone;
    ok := true;
  }

  /** setProperty of an array: right behind the end it adds, further behind it fails. */
  method SetProperty(arr: Property, id: nat, newIp: Property, ghost w: Forest<Property>, ghost nk: Forest<Property>)
    returns (ok: bool, ghost c: Property, ghost n: Forest<Property>)
    requires arr.shape.ArrayShape? && Whole(w, arr.pdf, arr.ref) && arr in Elems(w) && Owns(Single(newIp, nk))
    modifies arr`value, arr`names, Elems(Kids(w, arr))`pdf, Elems(Kids(w, arr))`ref
    ensures ok <==> id <= |old(arr.value)|
    ensures arr.pdf == old(arr.pdf) && arr.ref == old(arr.ref)
    ensures !ok ==> arr.value == old(arr.value) && Whole(w, arr.pdf, arr.ref) && (old(Named(w)) ==> Named(w))
    ensures ok ==> fresh(Elems(Single(c, n))) && Structure(Single(c, n)) == old(Structure(Single(newIp, nk)))
    ensures ok ==> arr.value == if id < |old(arr.value)| then old(arr.value)[id := c] else old(arr.value) + [c]
    ensures ok ==> |Roots(Kids(w, arr))| == |old(arr.value)|
    ensures ok && id == |old(arr.value)| ==>
              var v := Splice(w, arr, Single(arr, Widened(Kids(w, arr), id, Single(c, n))));
              && Whole(v, arr.pdf, arr.ref)
              && (old(Named(w) && Named(Single(newIp, nk))) ==> Named(v))
    ensures ok && id < |old(arr.value)| ==>
              var k, v := Kids(w, arr), Splice(w, arr, Single(arr, Changed(Kids(w, arr), id, Single(c, n))));
              && Whole(v, arr.pdf, arr.ref) && Gone(Single(old(arr.value)[id], KidsAt(k, id)), v, arr.pdf)
              && (old(Named(w) && Named(Single(newIp, nk))) ==> Named(v))
  {
    WholeParts(w, arr);
    SettledParts(arr, Kids(w, arr));
    hide *;
    if id >= |arr.value| {
      AtEnd(arr.value);
      ok, c, n := AddProperty(arr, id, newIp, w, nk);
      return;
    }
    var clone;
    clone, n := ExchangeInside(arr, id, newIp, w, nk);
    c := clone;
    ok := true;
  }

  lemma AtEnd(s: seq<Property>)
    ensures s[..|s|] == s && s[|s|..] == []
    ensures forall c: Property :: s + [c] + [] == s + [c]
  {
  }

  // ------------------------------------------------------------------------------------------
  // Dictionaries
  // ------------------------------------------------------------------------------------------

  /** The value of a name. */
  function Find(names: seq<string>, value: seq<Property>, x: string): Option<Property>
    requires |names| == |value|
  {
    if names == [] then None else if names[0] == x then Some(value[0]) else Find(names[1..], value[1..], x)
  }

  /** The entries differ in what they say about one name only. */
  ghost predicate Updates(names: seq<string>, value: seq<Property>, names': seq<string>, value': seq<Property>,
                          name: string, r: Option<Property>)
    requires |names| == |value| && |names'| == |value'|
  {
    forall x :: Find(names', value', x) == if x == name then r else Find(names, value, x)
  }

  /** The first entry of a name, or the number of entries. */
  method FindName(names: seq<string>, name: string) returns (i: nat)
    ensures i <= |names| && name !in names[..i] && (i < |names| ==> names[i] == name)
    ensures i < |names| <==> name in names
  {
    i := 0;
    while i < |names| && names[i] != name
      invariant i <= |names| && name !in names[..i]
    {
      assert names[..i + 1] == names[..i] + [names[i]];
      i := i + 1;
    }
    assert names == names[..i] + names[i..];
  }

  lemma {:induction false} FoundAfterAdd(names: seq<string>, value: seq<Property>, name: string, c: Property, x: string)
    requires |names| == |value| && name !in names
    ensures Find(names + [name], value + [c], x) == if x == name then Some(c) else Find(names, value, x)
  {
    if names == [] {
      assert names + [name] == [name] && value + [c] == [c];
    } else {
      assert (names + [name])[1..] == names[1..] + [name] && (value + [c])[1..] == value[1..] + [c];
      FoundAfterAdd(names[1..], value[1..], name, c, x);
    }
  }

  lemma {:induction false} FoundAfterSet(names: seq<string>, value: seq<Property>, i: nat, c: Property, x: string)
    requires |names| == |value| && UniqueNames(names) && i < |names|
    ensures Find(names, value[i := c], x) == if x == names[i] then Some(c) else Find(names, value, x)
  {
    if i > 0 {
      assert value[i := c][1..] == value[1..][i - 1 := c];
      FoundAfterSet(names[1..], value[1..], i - 1, c, x);
    } else {
      assert value[0 := c][1..] == value[1..];
    }
  }

  lemma {:induction false} NotFound(names: seq<string>, value: seq<Property>, x: string)
    requires |names| == |value| && x !in names
    ensures Find(names, value, x) == None
  {
    if names != [] {
      NotFound(names[1..], value[1..], x);
    }
  }

  lemma {:induction false} FoundAfterRemove(names: seq<string>, value: seq<Property>, i: nat, x: string)
    requires |names| == |value| && UniqueNames(names) && i < |names|
    ensures Find(names[..i] + names[i + 1..], value[..i] + value[i + 1..], x)
         == if x == names[i] then None else Find(names, value, x)
  {
    var n, v := names[..i] + names[i + 1..], value[..i] + value[i + 1..];
    if i > 0 {
      assert n[1..] == names[1..][..i - 1] + names[1..][i..] && v[1..] == value[1..][..i - 1] + value[1..][i..];
      FoundAfterRemove(names[1..], value[1..], i - 1, x);
    } else {
      assert n == names[1..] && v == value[1..];
      if x == names[0] {
        NotFound(names[1..], value[1..], x);
      }
    }
  }

  lemma Added(names: seq<string>, value: seq<Property>, name: string, c: Property)
    requires |names| == |value| && UniqueNames(names) && name !in names
    ensures UniqueNames(names + [name]) && Updates(names, value, names + [name], value + [c], name, Some(c))
  {
    hide Find;
    forall x ensures Find(names + [name], value + [c], x) == if x == name then Some(c) else Find(names, value, x) {
      FoundAfterAdd(names, value, name, c, x);
    }
  }

  lemma Set(names: seq<string>, value: seq<Property>, i: nat, c: Property)
    requires |names| == |value| && UniqueNames(names) && i < |names|
    ensures Updates(names, value, names, value[i := c], names[i], Some(c))
  {
    hide Find;
    forall x ensures Find(names, value[i := c], x) == if x == names[i] then Some(c) else Find(names, value, x) {
      FoundAfterSet(names, value, i, c, x);
    }
  }

  lemma Removed(names: seq<string>, value: seq<Property>, i: nat)
    requires |names| == |value| && UniqueNames(names) && i < |names|
    ensures var n, v := names[..i] + names[i + 1..], value[..i] + value[i + 1..];
      UniqueNames(n) && Updates(names, value, n, v, names[i], None)
  {
    hide Find;
    var n, v := names[..i] + names[i + 1..], value[..i] + value[i + 1..];
    assert forall j :: 0 <= j < |n| ==> n[j] == names[if j < i then j else j + 1];
    forall x ensures Find(n, v, x) == if x == names[i] then None else Find(names, value, x) {
      FoundAfterRemove(names, value, i, x);
    }
  }

  /** addProperty of a dictionary: fails when the name is there; else an entry at the end. */
  method AddEntry(d: Property, name: string, newIp: Property, ghost w: Forest<Property>, ghost nk: Forest<Property>)
    returns (ok: bool, ghost c: Property, ghost n: Forest<Property>)
    requires d.shape.DictShape? && Whole(w, d.pdf, d.ref) && d in Elems(w) && Owns(Single(newIp, nk))
    requires UniqueNames(d.names) && |d.names| == |d.value|
    modifies d`value, d`names
    ensures ok <==> name !in old(d.names)
    ensures !ok ==> d.value == old(d.value) && d.names == old(d.names) && Whole(w, d.pdf, d.ref)
    ensures !ok ==> old(Named(w)) ==> Named(w)
    ensures ok ==> d.names == old(d.names) + [name] && d.value == old(d.value) + [c] && UniqueNames(d.names)
    ensures ok ==> Updates(old(d.names), old(d.value), d.names, d.value, name, Some(c))
    ensures ok ==> fresh(Elems(Single(c, n))) && Structure(Single(c, n)) == old(Structure(Single(newIp, nk)))
    ensures ok ==> |old(d.value)| <= |Roots(Kids(w, d))|
    ensures ok ==> var v := Splice(w, d, Single(d, Widened(Kids(w, d), |old(d.value)|, Single(c, n))));
              && Whole(v, d.pdf, d.ref)
              && (old(Named(w) && Named(Single(newIp, nk))) ==> Named(v))
  {
    hide *;
    c, n := newIp, nk;
    InHeap(w);
    InHeap(Single(newIp, nk));
    var i := FindName(d.names, name);
    if i < |d.names| {
      return false, c, n;
    }
    AtEnd(d.value);
    ghost var value, names := d.value, d.names;
    AddedUnique(names, name);
    var clone;
    clone, n := PutInInside(d, |d.value|, newIp, d.names + [name], w, nk);
    c := clone;
    Added(names, value, name, c);
    ok := true;
  }

  lemma AddedUnique(names: seq<string>, name: string)
    requires UniqueNames(names) && name !in names
    ensures UniqueNames(names + [name])
  {
  }

  /** delProperty of a dictionary: fails when the name is not there; else its entry goes. */
  method DelEntry(d: Property, name: string, ghost w: Forest<Property>) returns (ok: bool, ghost i: nat)
    requires d.shape.DictShape? && Whole(w, d.pdf, d.ref) && d in Elems(w)
    requires UniqueNames(d.names) && |d.names| == |d.value|
    modifies d`value, d`names, Elems(Kids(w, d))`pdf, Elems(Kids(w, d))`ref
    ensures ok <==> name in old(d.names)
    ensures d.pdf == old(d.pdf) && d.ref == old(d.ref)
    ensures !ok ==> d.value == old(d.value) && d.names == old(d.names) && Whole(w, d.pdf, d.ref)
    ensures !ok ==> old(Named(w)) ==> Named(w)
    ensures ok ==>
              && i < |old(d.names)| && old(d.names)[i] == name
              && d.names == old(d.names)[..i] + old(d.names)[i + 1..]
              && d.value == old(d.value)[..i] + old(d.value)[i + 1..] && UniqueNames(d.names)
              && Updates(old(d.names), old(d.value), d.names, d.value, name, None)
    ensures ok ==> i < |Roots(Kids(w, d))|
    ensures ok ==> var k, v := Kids(w, d), Splice(w, d, Single(d, Cut(Kids(w, d), i)));
              && Whole(v, d.pdf, d.ref) && Gone(Single(old(d.value)[i], KidsAt(k, i)), v, d.pdf)
              && (old(Named(w)) ==> Named(v))
  {
    WholeParts(w, d);
    hide *;
    var at := FindName(d.names, name);
    i := at;
    if at == |d.names| {
      return false, i;
    }
    Removed(d.names, d.value, at);
    TakeOutInside(d, at, d.value[..at] + d.value[at + 1..], d.names[..at] + d.names[at + 1..], w);
    ok := true;
  }

  /** setProperty of a dictionary: changes the entry of the name, or adds one. */
  method SetEntry(d: Property, name: string, newIp: Property, ghost w: Forest<Property>, ghost nk: Forest<Property>)
    returns (ghost c: Property, ghost n: Forest<Property>, ghost i: nat)
    requires d.shape.DictShape? && Whole(w, d.pdf, d.ref) && d in Elems(w) && Owns(Single(newIp, nk))
    requires UniqueNames(d.names) && |d.names| == |d.value|
    modifies d`value, d`names, Elems(Kids(w, d))`pdf, Elems(Kids(w, d))`ref
    ensures d.pdf == old(d.pdf) && d.ref == old(d.ref)
    ensures fresh(Elems(Single(c, n))) && Structure(Single(c, n)) == old(Structure(Single(newIp, nk)))
    ensures |d.names| == |d.value| && UniqueNames(d.names)
    ensures Updates(old(d.names), old(d.value), d.names, d.value, name, Some(c))
    ensures d.names == if name in old(d.names) then old(d.names) else old(d.names) + [name]
    ensures |Roots(Kids(w, d))| == |old(d.value)|
    ensures name in old(d.names) ==>
              && i < |old(d.names)| && old(d.names)[i] == name && d.value == old(d.value)[i := c]
              && var k, v := Kids(w, d), Splice(w, d, Single(d, Changed(Kids(w, d), i, Single(c, n))));
              && Whole(v, d.pdf, d.ref) && Gone(Single(old(d.value)[i], KidsAt(k, i)), v, d.pdf)
              && (old(Named(w) && Named(Single(newIp, nk))) ==> Named(v))
    ensures name !in old(d.names) ==>
              && d.value == old(d.value) + [c]
              && var v := Splice(w, d, Single(d, Widened(Kids(w, d), |old(d.value)|, Single(c, n))));
              && Whole(v, d.pdf, d.ref)
              && (old(Named(w) && Named(Single(newIp, nk))) ==> Named(v))
  {
    WholeParts(w, d);
    SettledParts(d, Kids(w, d));
    hide *;
    InHeap(Single(newIp, nk));
    var at := FindName(d.names, name);
    i := at;
    if at == |d.names| {
      var ok;
      ok, c, n := AddEntry(d, name, newIp, w, nk);
      return;
    }
    ghost var value, names := d.value, d.names;
    var clone;
    clone, n := ExchangeInside(d, at, newIp, w, nk);
    c := clone;
    Set(names, value, at, c);
  }
}
