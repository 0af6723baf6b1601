/** The inheritable attributes of a page: the walk up the page tree, and making a page independent of it
    (section 7.7.3.4 of ISO 32000-1). */
module PageAttributes {
  import opened Options
  import opened PdfObjects

  datatype Attr = Resources | MediaBox | CropBox | Rotate

  /** What a dictionary says about its parent: nothing, something that is no dictionary, or an ancestor. */
  datatype Parent = NoParent | BadParent | Above(dict: Ancestor)

  /** A dictionary further up the page tree; references are taken as followed. */
  datatype Ancestor = Ancestor(attrs: map<Attr, Obj>, parent: Parent)

  const ALL_ATTRS: set<Attr> := {Resources, MediaBox, CropBox, Rotate}

  lemma AnyAttr(a: Attr)
    ensures a in ALL_ATTRS
  {
    match a
    case Resources =>
    case MediaBox =>
    case CropBox =>
    case Rotate =>
  }

  predicate WellTyped(a: Attr, o: Obj) {
    match a
    case Resources => o.Dict?
    case MediaBox => o.Array?
    case CropBox => o.Array?
    case Rotate => o.Int?
  }

  /** getProperty with a type: fails on a missing value and on one of another type. */
  function Get(attrs: map<Attr, Obj>, a: Attr): (r: Option<Obj>)
    ensures r.Some? ==> WellTyped(a, r.value)
  {
    if a in attrs && WellTyped(a, attrs[a]) then Some(attrs[a]) else None
  }

  const DEFAULT_BOX: Obj := Array([Real(0.0), Real(0.0), Real(612.0), Real(792.0)])

  function Default(a: Attr): Obj {
    match a
    case Resources => Dict([])
    case MediaBox => DEFAULT_BOX
    case CropBox => DEFAULT_BOX
    case Rotate => Int(0)
  }

  // ------------------------------------------------------------------------------------------
  // The value that counts
  // ------------------------------------------------------------------------------------------

  /** The well-typed value of the nearest dictionary that has one. */
  function Nearest(attrs: map<Attr, Obj>, parent: Parent, a: Attr): Option<Obj>
    decreases parent
  {
    if Get(attrs, a).Some? then Get(attrs, a)
    else if parent.Above? then Nearest(parent.dict.attrs, parent.dict.parent, a)
    else None
  }

  /** The inherited value, or the default; the crop box defaults to the media box in force. */
  function Effective(attrs: map<Attr, Obj>, parent: Parent, a: Attr): Obj {
    var v := Nearest(attrs, parent, a);
    if v.Some? then v.value
    else if a == CropBox && Nearest(attrs, parent, MediaBox).Some? then Nearest(attrs, parent, MediaBox).value
    else Default(a)
  }

  /** Without an entry anywhere: no resources, a page of 612 by 792 units shown whole, and no rotation. */
  lemma DefaultsAre(parent: Parent, a: Attr)
    requires parent == NoParent
    ensures Effective(map[], parent, Resources) == Dict([]) && Effective(map[], parent, Rotate) == Int(0)
    ensures a in {MediaBox, CropBox} ==>
              Effective(map[], parent, a) == Array([Real(0.0), Real(0.0), Real(612.0), Real(792.0)])
  {
  }

  /** The walk up the tree is cut short by a parent entry of the wrong type. */
  predicate Broken(parent: Parent) {
    match parent
    case NoParent => false
    case BadParent => true
    case Above(d) => Broken(d.parent)
  }

  // ------------------------------------------------------------------------------------------
  // fillInherited
  // ------------------------------------------------------------------------------------------

  class InheritedAttributes {
    var resources: Option<Obj>
    var mediaBox: Option<Obj>
    var cropBox: Option<Obj>
    var rotate: Option<Obj>

    constructor ()
      ensures forall a :: Field(a) == None
    {
      resources, mediaBox, cropBox, rotate := None, None, None, None;
    }

    function Field(a: Attr): Option<Obj>
      reads this
    {
      match a
      case Resources => resources
      case MediaBox => mediaBox
      case CropBox => cropBox
      case Rotate => rotate
    }

    /** The values this dictionary has for what is still missing; counts what is there then. */
    method Take(attrs: map<Attr, Obj>) returns (initialized: nat)
      modifies this
      ensures forall a :: Field(a) == if old(Field(a)).Some? then old(Field(a)) else Get(attrs, a)
      ensures initialized <= 4 && (initialized == 4 <==> forall a :: Field(a).Some?)
    {
      hide Get;
      initialized := 0;
      if resources == None {
        resources := Get(attrs, Resources);
      }
      if resources.Some? {
        initialized := initialized + 1;
      }
      if mediaBox == None {
        mediaBox := Get(attrs, MediaBox);
      }
      if mediaBox.Some? {
        initialized := initialized + 1;
      }
      if cropBox == None {
        cropBox := Get(attrs, CropBox);
      }
      if cropBox.Some? {
        initialized := initialized + 1;
      }
      if rotate == None {
        rotate := Get(attrs, Rotate);
      }
      if rotate.Some? {
        initialized := initialized + 1;
      }
      AllFields();
    }

    lemma AllFields()
      ensures (forall a :: Field(a).Some?) <==> resources.Some? && mediaBox.Some? && cropBox.Some? && rotate.Some?
    {
      assert Field(Resources) == resources && Field(MediaBox) == mediaBox;
      assert Field(CropBox) == cropBox && Field(Rotate) == rotate;
    }

    /** The values at the root of the page tree for what is still missing. */
    method SetDefaults()
      modifies this
      ensures mediaBox.Some? && forall a ::
                Field(a) == if old(Field(a)).Some? then old(Field(a))
                            else Some(if a == CropBox then mediaBox.value else Default(a))
    {
      if resources == None {
        resources := Some(Default(Resources));
      }
      if mediaBox == None {
        mediaBox := Some(DEFAULT_BOX);
      }
      if cropBox == None {
        cropBox := mediaBox;
      }
      if rotate == None {
        rotate := Some(Default(Rotate));
      }
    }

    /** fillInherited: takes what is still missing from this dictionary and then from its ancestors, as long
        as fewer than four values are there. Fails on a parent entry of the wrong type. */
    method Fill(attrs: map<Attr, Obj>, parent: Parent) returns (ok: bool)
      modifies this
      ensures ok ==> forall a :: Field(a) == Filled(attrs, parent, a, old(Field(a)), old(Field(MediaBox)))
      ensures !ok <==> Broken(parent) && exists a :: old(Field(a)) == None && Nearest(attrs, parent, a) == None
      decreases parent
    {
      var initialized := Take(attrs);
      if initialized < 4 {
        match parent
        case BadParent =>
          return false;
        case Above(dict) =>
          ok := Fill(dict.attrs, dict.parent);
          return ok;
        case NoParent =>
          SetDefaults();
      }
      return true;
    }
  }

  /** What an attribute is filled with that had the value had, next to a media box that had the value box. */
  function Filled(attrs: map<Attr, Obj>, parent: Parent, a: Attr, had: Option<Obj>, box: Option<Obj>): Option<Obj> {
    if had.Some? then had
    else if Nearest(attrs, parent, a).Some? then Nearest(attrs, parent, a)
    else if a == CropBox && box.Some? then box
    else Some(Effective(attrs, parent, a))
  }

  // ------------------------------------------------------------------------------------------
  // setInheritable
  // ------------------------------------------------------------------------------------------

  class CPageDict {
    var attrs: map<Attr, Obj>
    const parent: Parent

    constructor (attrs: map<Attr, Obj>, parent: Parent)
      ensures this.attrs == attrs && this.parent == parent
    {
      this.attrs := attrs;
      this.parent := parent;
    }

    /** addProperty of one attribute, unless the page has an entry of that name. */
    method AddMissing(a: Attr, value: Option<Obj>)
      requires value.Some?
      modifies this
      ensures attrs == if a in old(attrs) then old(attrs) else old(attrs)[a := value.value]
    {
      if a !in attrs {
        attrs := attrs[a := value.value];
      }
    }

    /** setInheritable: writes the values in force into the page itself. They stay in force, and no entry of
        the page is changed; when all its entries are well typed it no longer needs its ancestors. */
    method SetInheritable() returns (ok: bool)
      modifies this
      ensures !ok ==> attrs == old(attrs)
      ensures !ok <==> Broken(parent) && exists a :: Nearest(old(attrs), parent, a) == None
      ensures ok ==> attrs == Completed(old(attrs), parent)
    {
      var inherited := new InheritedAttributes();
      assert forall a :: inherited.Field(a) == None;
      ok := inherited.Fill(attrs, parent);
      if !ok {
        return;
      }
      ghost var was := attrs;
      assert forall a :: inherited.Field(a) == Some(Effective(was, parent, a));
      assert inherited.Field(Resources) == inherited.resources && inherited.Field(MediaBox) == inherited.mediaBox;
      assert inherited.Field(CropBox) == inherited.cropBox && inherited.Field(Rotate) == inherited.rotate;
      AddMissing(Resources, inherited.resources);
      AddMissing(MediaBox, inherited.mediaBox);
      AddMissing(CropBox, inherited.cropBox);
      AddMissing(Rotate, inherited.rotate);
      forall a: Attr ensures a in attrs && attrs[a] == if a in was then was[a] else Effective(was, parent, a) {
        AnyAttr(a);
      }
      AllAdded(was, attrs, parent);
    }
  }

  /** The entries of a page with the missing ones added. */
  function Completed(attrs: map<Attr, Obj>, parent: Parent): map<Attr, Obj> {
    map a: Attr | a in ALL_ATTRS ::
      if a in attrs then attrs[a] else Effective(attrs, parent, a)
  }

  lemma AllAdded(was: map<Attr, Obj>, now: map<Attr, Obj>, parent: Parent)
    requires forall a: Attr :: a in now && now[a] == if a in was then was[a] else Effective(was, parent, a)
    ensures now == Completed(was, parent)
  {
    forall a: Attr ensures a in Completed(was, parent) && Completed(was, parent)[a] == now[a] {
      AnyAttr(a);
    }
  }

  /** The values in force have the right types. */
  lemma {:induction false} NearestIsTyped(attrs: map<Attr, Obj>, parent: Parent, a: Attr)
    ensures Nearest(attrs, parent, a).Some? ==> WellTyped(a, Nearest(attrs, parent, a).value)
    decreases parent
  {
    if Get(attrs, a) == None && parent.Above? {
      NearestIsTyped(parent.dict.attrs, parent.dict.parent, a);
    }
  }

  lemma EffectiveIsTyped(attrs: map<Attr, Obj>, parent: Parent, a: Attr)
    ensures WellTyped(a, Effective(attrs, parent, a))
  {
    NearestIsTyped(attrs, parent, a);
    NearestIsTyped(attrs, parent, MediaBox);
  }

  /** Completing a page keeps every value in force; doing it again changes nothing; and an attribute is
      then found in the page itself unless the page has an entry for it of the wrong type. */
  lemma CompletedKeepsValues(attrs: map<Attr, Obj>, parent: Parent)
    ensures var done := Completed(attrs, parent);
      && (forall a :: Effective(done, parent, a) == Effective(attrs, parent, a))
      && Completed(done, parent) == done
      && (forall a :: Get(done, a) == Some(Effective(attrs, parent, a)) <==>
                      !(a in attrs && !WellTyped(a, attrs[a])))
  {
    var done := Completed(attrs, parent);
    EffectiveIsTyped(attrs, parent, MediaBox);
    forall a
      ensures Effective(done, parent, a) == Effective(attrs, parent, a)
      ensures Get(done, a) == Some(Effective(attrs, parent, a)) <==> !(a in attrs && !WellTyped(a, attrs[a]))
    {
      EffectiveIsTyped(attrs, parent, a);
      AnyAttr(a);
    }
  }
}
