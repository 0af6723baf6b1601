/** A page's annotation list as a mirror of its Annots array: what observers keep, and when deleting by
    position deletes the right entry. */
module PageAnnots {
  import opened Forests

  /** An element of an Annots array: a reference to a dictionary, another reference, or something direct. */
  datatype Elem = DictRef(id: nat) | OtherRef | Direct

  /** The Annots entry of a page dictionary. */
  datatype Annots = Missing | NotArray | Arr(elems: seq<Elem>)

  class CAnnotation {
    const dict: nat
    var valid: bool

    constructor (dict: nat)
      ensures this.dict == dict && valid
    {
      this.dict := dict;
      valid := true;
    }

    method Invalidate()
      modifies this
      ensures !valid
    {
      valid := false;
    }
  }

  /** The dictionaries annotations stand for. */
  function Dicts(s: seq<CAnnotation>): (d: seq<nat>)
    ensures |d| == |s| && forall i :: 0 <= i < |s| ==> d[i] == s[i].dict
  {
    if s == [] then [] else [s[0].dict] + Dicts(s[1..])
  }

  /** The dictionaries referred to by an array. */
  function Targets(elems: seq<Elem>): seq<nat> {
    if elems == [] then []
    else (if elems[0].DictRef? then [elems[0].id] else []) + Targets(elems[1..])
  }

  function TargetsOf(a: Annots): seq<nat> {
    if a.Arr? then Targets(a.elems) else []
  }

  function Target(e: Elem): seq<nat> {
    if e.DictRef? then [e.id] else []
  }

  lemma {:induction false} TargetsConcat(a: seq<Elem>, b: seq<Elem>)
    ensures Targets(a + b) == Targets(a) + Targets(b)
  {
    hide Targets;
    if a == [] {
      assert a + b == b;
      NothingTargeted(b);
    } else {
      TargetsFront(a);
      TargetsConcat(a[1..], b);
      TargetsFront(a + b);
      assert (a + b)[1..] == a[1..] + b && (a + b)[0] == a[0];
      AppendAtEnd(Target(a[0]), Targets(a[1..]), Targets(b));
    }
  }

  lemma NothingTargeted(b: seq<Elem>)
    ensures Targets([]) + Targets(b) == Targets(b)
  {
  }

  lemma TargetsFront(a: seq<Elem>)
    requires a != []
    ensures Targets(a) == Target(a[0]) + Targets(a[1..])
  {
  }

  /** Replacing the elements in the middle of an array. */
  lemma TargetsSpliced(a: seq<Elem>, m: seq<Elem>, n: seq<Elem>, b: seq<Elem>)
    ensures multiset(Targets(a + n + b)) == multiset(Targets(a + m + b)) - multiset(Targets(m)) + multiset(Targets(n))
  {
    TargetsConcat(a + m, b);
    TargetsConcat(a, m);
    TargetsConcat(a + n, b);
    TargetsConcat(a, n);
  }

  lemma DictsConcat(a: seq<CAnnotation>, b: seq<CAnnotation>)
    ensures Dicts(a + b) == Dicts(a) + Dicts(b)
  {
  }

  lemma DictsErased(s: seq<CAnnotation>, i: nat)
    requires i < |s|
    ensures multiset(Dicts(s[..i] + s[i + 1..])) == multiset(Dicts(s)) - multiset{s[i].dict}
  {
    hide *;
    var a, b, m := s[..i], s[i + 1..], [s[i]];
    Pieces(s, i);
    OneDict(s[i]);
    DictsConcat(a + m, b);
    DictsConcat(a, m);
    DictsConcat(a, b);
    WithoutOne(Dicts(a), s[i].dict, Dicts(b));
  }

  lemma Pieces<T>(s: seq<T>, i: nat)
    requires i < |s|
    ensures s == s[..i] + [s[i]] + s[i + 1..]
  {
  }

  lemma OneDict(a: CAnnotation)
    ensures Dicts([a]) == [a.dict]
  {
  }

  lemma WithoutOne(p: seq<nat>, x: nat, q: seq<nat>)
    ensures multiset(p + q) == multiset(p + [x] + q) - multiset{x}
  {
  }

  lemma OneTarget(e: Elem)
    ensures Targets([e]) == Target(e) && Targets([]) == []
  {
  }

  function ElemsOf(a: Annots): seq<Elem> {
    if a.Arr? then a.elems else []
  }

  lemma ElemsAre(a: Annots)
    ensures ElemsOf(a) == if a.Arr? then a.elems else []
    ensures forall e: Elem :: ElemsOf(a)[..|ElemsOf(a)|] + [e] + ElemsOf(a)[|ElemsOf(a)|..] == ElemsOf(a) + [e]
  {
  }

  /** One annotation for each reference to a dictionary, whose object number is in use. */
  ghost predicate Mirrors(s: seq<CAnnotation>, a: Annots, unused: nat) {
    multiset(Dicts(s)) == multiset(TargetsOf(a)) && forall d :: d in Dicts(s) ==> d < unused
  }

  class CPageAnnots {
    /** The Annots entry of the page. */
    var annots: Annots
    /** The mirror. */
    var annotations: seq<CAnnotation>
    /** Object numbers from here on are unused. */
    var unused: nat
    /** Every annotation ever listed. */
    ghost var known: set<CAnnotation>

    /** Listed annotations are valid, all others listed once are not. */
    ghost predicate Listed()
      reads this`annotations, this`known, known
    {
      && Distinct(annotations)
      && (forall a: CAnnotation :: a in annotations ==> a in known)
      && forall a: CAnnotation :: a in known ==> (a.valid <==> a in annotations)
    }

    /** One valid annotation for each reference to a dictionary. */
    ghost predicate Valid()
      reads this, known
    {
      Listed() && Mirrors(annotations, annots, unused)
    }

    /** Erases the first annotation of a dictionary and makes it invalid. */
    method Forget(dict: nat) returns (i: nat)
      requires Listed() && dict in Dicts(annotations)
      modifies this`annotations, annotations
      ensures Listed() && i < |old(annotations)|
      ensures old(annotations)[i].dict == dict && dict !in Dicts(old(annotations)[..i])
      ensures annotations == old(annotations)[..i] + old(annotations)[i + 1..]
    {
      i := PositionOfDict(annotations, dict);
      hide Dicts;
      Withdraw(i);
    }

    /** Takes an annotation off the list and makes it invalid. */
    method Withdraw(i: nat)
      requires Listed() && i < |annotations|
      modifies this`annotations, annotations
      ensures Listed() && annotations == old(annotations)[..i] + old(annotations)[i + 1..]
    {
      EraseOne(annotations, i);
      hide Distinct;
      annotations[i].Invalidate();
      annotations := annotations[..i] + annotations[i + 1..];
    }

    /** The part of consolidate that takes care of the value an element had. */
    method DropOld(oldValue: Elem)
      requires Listed()
      modifies this`annotations, annotations
      ensures Listed() && Dropped(old(annotations), annotations, oldValue)
    {
      hide Listed, Dicts;
      if oldValue.DictRef? && oldValue.id in Dicts(annotations) {
        ghost var s := annotations;
        var i := Forget(oldValue.id);
        assert FirstOf(s, i, oldValue.id);
      }
    }

    /** The part of consolidate that takes care of the value an element gets. */
    method ListNew(newValue: Elem)
      requires Listed()
      modifies this`annotations, this`known
      ensures Listed() && known >= old(known) && fresh(known - old(known))
      ensures Appended(old(annotations), annotations, newValue)
      ensures !newValue.DictRef? ==> known == old(known)
    {
      if newValue.DictRef? {
        var annot := new CAnnotation(newValue.id);
        DictsConcat(annotations, [annot]);
        OneDict(annot);
        known := known + {annot};
        annotations := annotations + [annot];
      }
    }

    /** consolidate: what an observed change of an element does to the mirror. */
    method Consolidate(oldValue: Elem, newValue: Elem) returns (ghost between: seq<CAnnotation>)
      requires Listed()
      modifies this`annotations, this`known, annotations
      ensures Listed() && known >= old(known) && fresh(known - old(known))
      ensures Dropped(old(annotations), between, oldValue) && Appended(between, annotations, newValue)
      ensures !newValue.DictRef? ==> known == old(known)
    {
      DropOld(oldValue);
      between := annotations;
      ListNew(newValue);
    }

    /** An array whose elements m have become n, observed through a change from oldValue to newValue. */
    method Observe(oldValue: Elem, newValue: Elem, ghost a: seq<Elem>, ghost m: seq<Elem>, ghost n: seq<Elem>,
                   ghost b: seq<Elem>)
      requires Listed() && Mirrors(annotations, Arr(a + m + b), unused) && annots == Arr(a + n + b)
      requires Targets(m) == Target(oldValue) && Targets(n) == Target(newValue)
      requires newValue.DictRef? ==> newValue.id < unused
      modifies this`annotations, this`known, annotations
      ensures Valid() && known >= old(known) && fresh(known - old(known))
      ensures newValue == Direct ==> known == old(known) && Dropped(old(annotations), annotations, oldValue)
      ensures oldValue == Direct ==> Appended(old(annotations), annotations, newValue)
    {
      hide Listed, Mirrors, Dicts, Targets, Target, Dropped, Appended;
      ghost var s := annotations;
      var between := Consolidate(oldValue, newValue);
      StillMirrors(a, m, n, b, s, between, annotations, oldValue, newValue, unused);
      NothingAppended(between, annotations);
      NothingDropped(s, between);
    }

    /** CArray::addProperty at a position, observed. */
    method InsertElement(pos: nat, e: Elem)
      requires Valid() && annots.Arr? && pos <= |annots.elems| && (e.DictRef? ==> e.id < unused)
      modifies this`annots, this`annotations, this`known, annotations
      ensures Valid() && known >= old(known) && fresh(known - old(known))
      ensures annots == Arr(old(annots).elems[..pos] + [e] + old(annots).elems[pos..])
      ensures Appended(old(annotations), annotations, e)
    {
      hide Listed, Mirrors, Dicts, Targets, Dropped, Appended;
      ghost var a, b := annots.elems[..pos], annots.elems[pos..];
      Halves(annots.elems, pos);
      OneTarget(e);
      annots := Arr(annots.elems[..pos] + [e] + annots.elems[pos..]);
      Observe(Direct, e, a, [], [e], b);
    }

    /** CArray::setProperty, or a changed reference value, observed. */
    method SetElement(i: nat, e: Elem)
      requires Valid() && annots.Arr? && i < |annots.elems| && (e.DictRef? ==> e.id < unused)
      modifies this`annots, this`annotations, this`known, annotations
      ensures Valid() && known >= old(known) && fresh(known - old(known))
      ensures annots == Arr(old(annots).elems[i := e])
    {
      hide Listed, Mirrors, Dicts, Targets, Dropped, Appended;
      ghost var a, b := annots.elems[..i], annots.elems[i + 1..];
      var was := annots.elems[i];
      Pieces(annots.elems, i);
      OneTarget(was);
      OneTarget(e);
      annots := Arr(annots.elems[i := e]);
      assert annots.elems == a + [e] + b;
      Observe(was, e, a, [was], [e], b);
    }

    /** CArray::delProperty, observed. */
    method DeleteElement(i: nat)
      requires Valid() && annots.Arr? && i < |annots.elems|
      modifies this`annots, this`annotations, this`known, annotations
      ensures Valid() && known == old(known)
      ensures annots == Arr(old(annots).elems[..i] + old(annots).elems[i + 1..])
      ensures Dropped(old(annotations), annotations, old(annots).elems[i])
    {
      hide Listed, Mirrors, Dicts, Targets, Dropped, Appended;
      ghost var a, b := annots.elems[..i], annots.elems[i + 1..];
      var was := annots.elems[i];
      Pieces(annots.elems, i);
      OneTarget(was);
      annots := Arr(annots.elems[..i] + annots.elems[i + 1..]);
      assert a + [] + b == annots.elems;
      Observe(was, Direct, a, [was], [], b);
    }

    /** Takes over the Annots entry of a page. */
    constructor (annots: Annots, unused: nat)
      requires forall d :: d in TargetsOf(annots) ==> d < unused
      ensures Valid() && Ordered() && this.annots == annots && fresh(known)
      ensures DifferentDicts(annots) ==> Lined(annots, annotations)
    {
      this.annots := annots;
      this.unused := unused;
      annotations := [];
      known := {};
      new;
      Collect();
      OrderedIsLined(annots, annotations);
    }

    /** The annotations stand in the order of their references. */
    predicate Ordered()
      reads this
    {
      Dicts(annotations) == TargetsOf(annots)
    }

    /** collectAnnotations, into an empty list. */
    method Collect()
      requires Listed() && annotations == [] && forall d :: d in TargetsOf(annots) ==> d < unused
      modifies this`annotations, this`known
      ensures Valid() && Ordered() && known >= old(known) && fresh(known - old(known))
    {
      hide Dicts, Targets, Distinct;
      NoTargets([]);
      if annots.Arr? {
        var elems := annots.elems;
        NoTargets(elems);
        for i := 0 to |elems|
          invariant annots == Arr(elems) && Listed() && known >= old(known) && fresh(known - old(known))
          invariant Dicts(annotations) == Targets(elems[..i])
        {
          TargetsUpTo(elems, i);
          ListNew(elems[i]);
        }
        assert elems[..|elems|] == elems;
      }
      assert Dicts(annotations) == TargetsOf(annots);
      SameMultiset(Dicts(annotations), TargetsOf(annots));
    }

    /** PropWatchDog::notify: another Annots entry; all annotations are given up and collected anew. */
    method ReplaceAnnots(value: Annots)
      requires Valid() && forall d :: d in TargetsOf(value) ==> d < unused
      modifies this`annots, this`annotations, this`known, annotations
      ensures Valid() && Ordered() && annots == value && fresh(known - old(known))
      ensures forall a: CAnnotation :: a in old(known) ==> a !in annotations && !a.valid
      ensures DifferentDicts(value) ==> Lined(annots, annotations)
    {
      hide Dicts, TargetsOf;
      annots := value;
      Discard();
      Collect();
      OrderedIsLined(annots, annotations);
    }

    /** Makes all annotations invalid and empties the list. */
    method Discard()
      requires Listed()
      modifies this`annotations, annotations
      ensures Listed() && annotations == [] && known == old(known)
    {
      ghost var s := annotations;
      for i := 0 to |annotations|
        invariant annotations == s && known == old(known)
        invariant forall a: CAnnotation :: a in known ==> (a.valid <==> a in s[i..])
      {
        assert s[i..] == [s[i]] + s[i + 1..];
        annotations[i].Invalidate();
      }
      annotations := [];
    }

    /** add: a new dictionary for the annotation, and a reference to it at the end of the array, which is
        made when there is none. Fails when Annots is something else. */
    method Add() returns (ok: bool)
      requires Valid()
      modifies this, annotations
      ensures Valid() && known >= old(known) && fresh(known - old(known))
      ensures ok <==> old(annots) != NotArray
      ensures !ok ==> annots == old(annots) && annotations == old(annotations)
      ensures ok ==>
                && annots == Arr(ElemsOf(old(annots)) + [DictRef(old(unused))])
                && Appended(old(annotations), annotations, DictRef(old(unused))) && unused == old(unused) + 1
      ensures old(Ordered()) ==> Ordered()
      ensures ok && Lined(old(annots), old(annotations)) ==> Lined(annots, annotations)
    {
      hide Dicts, TargetsOf, Listed, Mirrors, Appended, Lined, ElemsOf;
      if annots == NotArray {
        return false;
      }
      ElemsAre(annots);
      MirrorsElems(annotations, annots, unused);
      ghost var e, s := annots, annotations;
      if annots == Missing {
        annots := Arr([]);
      }
      unused := unused + 1;
      Halves(annots.elems, |annots.elems|);
      InsertElement(|annots.elems|, DictRef(unused - 1));
      AddedInOrder(e, s, annotations, unused - 1);
      ok := true;
    }

    /** Whether the element at an annotation's position is the annotation's own reference. */
    predicate StandsRight(pos: nat)
      reads this
      requires pos < |annotations|
    {
      && annots.Arr? && pos < |annots.elems|
      && annots.elems[pos] == DictRef(annotations[pos].dict) && annotations[pos].dict !in Dicts(annotations[..pos])
    }

    /** del: finds the annotation in the mirror and deletes the element at the same position of the array.
        The mirror is in order afterwards exactly when that element was the annotation's own. */
    method Del(annot: CAnnotation) returns (ok: bool, ghost pos: nat)
      requires Valid()
      modifies this`annots, this`annotations, this`known, annotations
      ensures ok <==> annot in old(annotations)
      ensures !ok ==> Valid() && annots == old(annots) && annotations == old(annotations)
      ensures ok ==>
                && pos < |old(annotations)| && old(annotations)[pos] == annot
                && old(annots).Arr? && pos < |old(annots).elems|
                && annots == Arr(old(annots).elems[..pos] + old(annots).elems[pos + 1..])
                && Dropped(old(annotations), annotations, old(annots).elems[pos]) && !annot.valid
                && (Valid() <==> old(StandsRight(pos)))
      ensures Lined(old(annots), old(annotations)) ==> Valid() && Lined(annots, annotations)
    {
      hide Dicts, Targets, TargetsOf, Dropped, LinedUp, Mirrors;
      if annot !in annotations {
        return false, 0;
      }
      ghost var s, e := annotations, annots;
      var i := PositionOf(annotations, annot);
      EnoughElements();
      ghost var elem := annots.elems[i];
      DeleteElement(i);
      pos := i;
      DroppedOr(s, annotations, elem, i);
      if e.Arr? && LinedUp(e.elems, s) {
        LinedDelete(e.elems, s, annotations, i);
      }
      annot.Invalidate();
      ok := true;
    }

    lemma EnoughElements()
      requires Valid() && annotations != []
      ensures annots.Arr? && |annotations| <= |annots.elems|
    {
      assert |multiset(Dicts(annotations))| == |annotations|;
      assert |multiset(TargetsOf(annots))| == |TargetsOf(annots)|;
      if annots.Arr? {
        TargetsFew(annots.elems);
      }
    }
  }

  ghost predicate LinedUp(elems: seq<Elem>, s: seq<CAnnotation>) {
    && |elems| == |s| && (forall i :: 0 <= i < |s| ==> elems[i] == DictRef(s[i].dict))
    && forall i, j :: 0 <= i < j < |s| ==> s[i].dict != s[j].dict
  }

  /** All elements refer to different dictionaries, and the annotations stand at their positions. */
  ghost predicate Lined(a: Annots, s: seq<CAnnotation>) {
    if a.Arr? then LinedUp(a.elems, s) else s == []
  }

  /** An Annots entry whose elements all refer to dictionaries, different ones. */
  predicate DifferentDicts(a: Annots) {
    a.Arr? ==>
      && (forall i :: 0 <= i < |a.elems| ==> a.elems[i].DictRef?)
      && forall i, j :: 0 <= i < j < |a.elems| ==> a.elems[i] != a.elems[j]
  }

  /** Annotations collected from such an entry stand at the positions of their references. */
  lemma OrderedIsLined(a: Annots, s: seq<CAnnotation>)
    requires Dicts(s) == TargetsOf(a)
    ensures DifferentDicts(a) ==> Lined(a, s)
  {
    if a.Arr? && DifferentDicts(a) {
      TargetsOfDicts(a.elems);
      assert forall i :: 0 <= i < |s| ==> Dicts(s)[i] == s[i].dict;
    }
  }

  lemma {:induction false} TargetsOfDicts(elems: seq<Elem>)
    requires forall i :: 0 <= i < |elems| ==> elems[i].DictRef?
    ensures |Targets(elems)| == |elems| && forall i :: 0 <= i < |elems| ==> Targets(elems)[i] == elems[i].id
  {
    if elems != [] {
      TargetsOfDicts(elems[1..]);
    }
  }

  /** When an array does not start with a reference to a dictionary, deleting the first annotation deletes that
      element instead: the annotation is invalid, but the array and the mirror still list it. */
  method DelFirst(page: CPageAnnots) returns (ok: bool)
    requires page.Valid() && page.annotations != [] && page.annots.Arr?
    requires page.annots.elems != [] && !page.annots.elems[0].DictRef?
    modifies page, page.annotations
    ensures ok && !page.Valid() && page.annots == Arr(old(page.annots.elems[1..]))
    ensures page.annotations == old(page.annotations) && !page.annotations[0].valid
  {
    hide Dicts, Targets, TargetsOf;
    var annot := page.annotations[0];
    ghost var pos;
    ok, pos := page.Del(annot);
  }

  lemma ListedKnown(page: CPageAnnots)
    requires page.Valid()
    ensures forall i :: 0 <= i < |page.annotations| ==> page.annotations[i] in page.known
  {
    hide Mirrors, Distinct;
  }

  lemma TwoElements(x: Elem, y: Elem)
    ensures Targets([x, y]) == Target(x) + Target(y) && [x, y][1..] == [y]
  {
    assert [x, y] == [x] + [y];
    TargetsConcat([x], [y]);
    OneTarget(x);
    OneTarget(y);
  }

  /** A page that gets there from a freshly collected array. */
  method Stranded() returns (page: CPageAnnots)
    ensures fresh(page) && !page.Valid()
  {
    var elems := [OtherRef, DictRef(0)];
    TwoElements(OtherRef, DictRef(0));
    page := new CPageAnnots(Arr(elems), 1);
    assert page.annotations != [];
    hide *;
    ListedKnown(page);
    var ok := DelFirst(page);
  }

  lemma LinedAdd(elems: seq<Elem>, s: seq<CAnnotation>, t: seq<CAnnotation>, id: nat)
    requires Appended(s, t, DictRef(id)) && forall d :: d in Dicts(s) ==> d < id
    ensures LinedUp(elems, s) ==> LinedUp(elems + [DictRef(id)], t)
    ensures LinedUp([], [])
  {
    assert forall i :: 0 <= i < |s| ==> s[i].dict in Dicts(s) && t[i] == s[i];
    assert Dicts(t)[|s|] == t[|s|].dict;
  }

  lemma FirstIsAt(s: seq<CAnnotation>, pos: nat, i: nat)
    requires pos < |s| && i < |s| && s[i].dict == s[pos].dict
    requires forall i, j :: 0 <= i < j < |s| ==> s[i].dict != s[j].dict
    ensures i == pos && s[pos].dict !in Dicts(s[..pos])
  {
    var front := s[..pos];
    assert forall j :: 0 <= j < pos ==> front[j] == s[j];
  }

  lemma LinedDelete(elems: seq<Elem>, s: seq<CAnnotation>, t: seq<CAnnotation>, pos: nat)
    requires LinedUp(elems, s) && pos < |s| && Dropped(s, t, elems[pos])
    ensures s[pos].dict !in Dicts(s[..pos]) && elems[pos] == DictRef(s[pos].dict)
    ensures LinedUp(elems[..pos] + elems[pos + 1..], t)
  {
    assert Dicts(s)[pos] == s[pos].dict;
    var i :| 0 <= i < |s| && FirstOf(s, i, elems[pos].id) && t == s[..i] + s[i + 1..];
    FirstIsAt(s, pos, i);
    hide Dicts;
    LinedWithout(elems, s, pos);
  }

  lemma LinedWithout(elems: seq<Elem>, s: seq<CAnnotation>, pos: nat)
    requires LinedUp(elems, s) && pos < |s|
    ensures LinedUp(elems[..pos] + elems[pos + 1..], s[..pos] + s[pos + 1..])
  {
    var t, u := s[..pos] + s[pos + 1..], elems[..pos] + elems[pos + 1..];
    assert forall j :: 0 <= j < |t| ==> t[j] == s[if j < pos then j else j + 1];
    assert forall j :: 0 <= j < |u| ==> u[j] == elems[if j < pos then j else j + 1];
  }

  lemma SameMultiset(a: seq<nat>, b: seq<nat>)
    requires a == b
    ensures multiset(a) == multiset(b)
  {
  }

  lemma NoTargets(elems: seq<Elem>)
    ensures Targets(elems[..0]) == [] && Dicts([]) == []
  {
  }

  lemma TargetsUpTo(elems: seq<Elem>, i: nat)
    requires i < |elems|
    ensures Targets(elems[..i + 1]) == Targets(elems[..i]) + Target(elems[i])
  {
    assert elems[..i + 1] == elems[..i] + [elems[i]];
    TargetsConcat(elems[..i], [elems[i]]);
  }

  /** A missing array may be taken for an empty one. */
  lemma MirrorsElems(s: seq<CAnnotation>, a: Annots, unused: nat)
    requires Mirrors(s, a, unused)
    ensures Mirrors(s, Arr(ElemsOf(a)), unused + 1)
  {
    hide Dicts;
    NoTargets([]);
  }

  lemma AddedInOrder(a: Annots, s: seq<CAnnotation>, t: seq<CAnnotation>, id: nat)
    requires Mirrors(s, a, id) && Appended(s, t, DictRef(id))
    ensures Dicts(s) == TargetsOf(a) ==> Dicts(t) == TargetsOf(Arr(ElemsOf(a) + [DictRef(id)]))
    ensures Lined(a, s) ==> Lined(Arr(ElemsOf(a) + [DictRef(id)]), t)
  {
    hide Dicts, Targets, LinedUp;
    NoTargets([]);
    OneTarget(DictRef(id));
    TargetsConcat(ElemsOf(a), [DictRef(id)]);
    LinedAdd(ElemsOf(a), s, t, id);
  }

  lemma {:induction false} TargetsFew(elems: seq<Elem>)
    ensures |Targets(elems)| <= |elems|
  {
    if elems != [] {
      TargetsFew(elems[1..]);
    }
  }

  lemma NotLast(s: seq<CAnnotation>, a: CAnnotation, i: nat)
    requires i < |s| && a in s && a !in s[..i] && s[i] != a
    ensures i + 1 < |s| && a !in s[..i + 1]
  {
    assert s[..i + 1] == s[..i] + [s[i]];
    assert forall k :: 0 <= k < i ==> s[k] in s[..i];
  }

  method PositionOf(s: seq<CAnnotation>, a: CAnnotation) returns (i: nat)
    requires a in s
    ensures i < |s| && s[i] == a
  {
    i := 0;
    while s[i] != a
      invariant i < |s| && a !in s[..i]
      decreases |s| - i
    {
      NotLast(s, a, i);
      i := i + 1;
    }
  }

  /** The first annotation of a dictionary. */
  method PositionOfDict(s: seq<CAnnotation>, dict: nat) returns (i: nat)
    requires dict in Dicts(s)
    ensures i < |s| && s[i].dict == dict && dict !in Dicts(s[..i])
  {
    NothingBefore(s, dict);
    hide *;
    i := 0;
    while s[i].dict != dict
      invariant i < |s| && dict !in Dicts(s[..i])
      decreases |s| - i
    {
      DictsUpTo(s, i);
      i := i + 1;
    }
  }

  lemma NothingBefore(s: seq<CAnnotation>, dict: nat)
    requires dict in Dicts(s)
    ensures s != [] && dict !in Dicts(s[..0])
  {
  }

  /** The annotation at the position goes exactly when the element was its own. */
  lemma DroppedOr(s: seq<CAnnotation>, t: seq<CAnnotation>, e: Elem, pos: nat)
    requires Dropped(s, t, e) && Distinct(s) && pos < |s|
    ensures s[pos] !in t <==> e == DictRef(s[pos].dict) && s[pos].dict !in Dicts(s[..pos])
  {
    DictIn(s, pos);
    if e.DictRef? && e.id in Dicts(s) {
      var i :| 0 <= i < |s| && FirstOf(s, i, e.id) && t == s[..i] + s[i + 1..];
      EraseOne(s, i);
      DictBefore(s, i, pos);
      DictBefore(s, pos, i);
    }
  }

  lemma DictIn(s: seq<CAnnotation>, i: nat)
    requires i < |s|
    ensures s[i].dict in Dicts(s)
  {
    assert Dicts(s)[i] == s[i].dict;
  }

  lemma DictBefore(s: seq<CAnnotation>, i: nat, j: nat)
    requires i < |s| && j < |s|
    ensures i < j ==> s[i].dict in Dicts(s[..j])
    ensures s[i] == s[j] && Distinct(s) ==> i == j
  {
    if i < j {
      DictIn(s[..j], i);
    }
  }

  lemma Halves<T>(s: seq<T>, i: nat)
    requires i <= |s|
    ensures s == s[..i] + [] + s[i..]
  {
  }

  /** The mirror follows a change in the middle of the array. */
  lemma StillMirrors(a: seq<Elem>, m: seq<Elem>, n: seq<Elem>, b: seq<Elem>, s: seq<CAnnotation>,
                     between: seq<CAnnotation>, t: seq<CAnnotation>, oldValue: Elem, newValue: Elem, unused: nat)
    requires Targets(m) == Target(oldValue) && Targets(n) == Target(newValue)
    requires Mirrors(s, Arr(a + m + b), unused)
    requires Dropped(s, between, oldValue) && Appended(between, t, newValue)
    requires newValue.DictRef? ==> newValue.id < unused
    ensures Mirrors(t, Arr(a + n + b), unused)
  {
    hide Dicts, Targets, Dropped, Target;
    DroppedDicts(s, between, oldValue);
    TargetsSpliced(a, m, n, b);
    AppendedDicts(between, t, newValue);
    Shrunk(Dicts(s), Dicts(between), Target(oldValue), unused);
  }

  lemma AppendedDicts(s: seq<CAnnotation>, t: seq<CAnnotation>, e: Elem)
    requires Appended(s, t, e)
    ensures multiset(Dicts(t)) == multiset(Dicts(s)) + multiset(Target(e))
    ensures forall d :: d in Dicts(t) ==> d in Dicts(s) || (e.DictRef? && d == e.id)
  {
    hide Dicts;
  }

  lemma Shrunk(s: seq<nat>, t: seq<nat>, gone: seq<nat>, bound: nat)
    requires multiset(t) == multiset(s) - multiset(gone) && forall d :: d in s ==> d < bound
    ensures forall d :: d in t ==> d < bound
  {
    forall d: nat | d in t ensures d < bound {
      assert multiset(t)[d] > 0;
      assert multiset(s)[d] >= multiset(t)[d];
      assert d in s;
    }
  }

  lemma NothingAppended(s: seq<CAnnotation>, t: seq<CAnnotation>)
    ensures Appended(s, t, Direct) ==> s == t
  {
    hide Dicts;
  }

  lemma NothingDropped(s: seq<CAnnotation>, t: seq<CAnnotation>)
    ensures Dropped(s, t, Direct) ==> s == t
  {
  }

  /** Without the first annotation of the dictionary an element referred to, if there is one. */
  ghost predicate Dropped(s: seq<CAnnotation>, t: seq<CAnnotation>, e: Elem) {
    if e.DictRef? && e.id in Dicts(s)
    then exists i :: 0 <= i < |s| && FirstOf(s, i, e.id) && t == s[..i] + s[i + 1..]
    else t == s
  }

  /** With an annotation at the end for the dictionary an element refers to, if it does. */
  predicate Appended(s: seq<CAnnotation>, t: seq<CAnnotation>, e: Elem) {
    s <= t && Dicts(t) == Dicts(s) + Target(e)
  }

  lemma DroppedDicts(s: seq<CAnnotation>, t: seq<CAnnotation>, e: Elem)
    requires Dropped(s, t, e)
    ensures multiset(Dicts(t)) == multiset(Dicts(s)) - multiset(Target(e))
  {
    if e.DictRef? && e.id in Dicts(s) {
      var i :| 0 <= i < |s| && FirstOf(s, i, e.id) && t == s[..i] + s[i + 1..];
      DictsErased(s, i);
    }
  }

  /** The i-th annotation is the first one of its dictionary. */
  predicate FirstOf(s: seq<CAnnotation>, i: nat, dict: nat)
    requires i < |s|
  {
    s[i].dict == dict && dict !in Dicts(s[..i])
  }

  lemma DictsUpTo(s: seq<CAnnotation>, i: nat)
    requires i < |s|
    ensures Dicts(s[..i + 1]) == Dicts(s[..i]) + [s[i].dict]
    ensures i + 1 == |s| ==> s[..i + 1] == s
  {
  }

  lemma EraseOne(s: seq<CAnnotation>, i: nat)
    requires i < |s| && Distinct(s)
    ensures Distinct(s[..i] + s[i + 1..])
    ensures forall a: CAnnotation :: a in s[..i] + s[i + 1..] <==> a in s && a != s[i]
  {
    var t := s[..i] + s[i + 1..];
    assert forall j :: 0 <= j < |t| ==> t[j] == if j < i then s[j] else s[j + 1];
    forall a: CAnnotation | a in s && a != s[i] ensures a in t {
      var j :| 0 <= j < |s| && s[j] == a;
      assert t[if j < i then j else j - 1] == a;
    }
  }
}
