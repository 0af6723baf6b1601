/** A content stream: the operator tree, its queue, and the streams it is saved to. */
module ContentStream {
  import opened Forests
  import opened PdfObjects
  import opened PdfOperators
  import opened OperatorTree
  import opened QueueLinks
  import opened ObjectText
  import G = StreamGrammar
  import ObjectReader
  import P = StreamParser

  /** How an edit ends. */
  datatype Outcome = Done | ReadOnly | InvalidOperation

  /** Buffers after a save: the whole text in the first, the others empty. */
  function Saved(n: nat, text: string): (r: seq<string>)
    requires n > 0
    ensures |r| == n && r[0] == text && forall i :: 0 < i < n ==> r[i] == ""
  {
    [text] + seq(n - 1, _ => "")
  }

  method OperandsToString(operands: seq<Obj>) returns (str: string)
    ensures str == OperandsText(operands)
  {
    str := "";
    for i := 0 to |operands|
      invariant OperandsText(operands) == str + OperandsText(operands[i..])
    {
      var tmp := ObjText(operands[i]);
      assert operands[i..][1..] == operands[i + 1..];
      AppendThree(str, tmp, " ", OperandsText(operands[i + 1..]));
      str := str + (tmp + " ");
    }
    assert operands[|operands|..] == [];
  }

  lemma AppendThree(a: string, b: string, c: string, d: string)
    ensures a + (b + c + d) == a + (b + c) + d
  {
  }

  /** getStringRepresentation of one operator. */
  method OperatorToString(op: PdfOperator, ghost kids: Forest<PdfOperator>) returns (str: string)
    requires Shaped(Single(op, kids))
    ensures str == LabelText(op.content) + ForestText(Contents(kids))
    decreases |Flat(kids)|, 1
  {
    match op.content
    case Simple(name, operands) =>
      str := OperandsToString(operands);
      str := str + name;
    case Composite(begin, _) =>
      var inner := OperatorsToString(op.children, kids);
      str := begin + " " + inner;
    case InlineImage(entries, bytes) =>
      var tmp := ImageToString(entries, bytes);
      str := "BI\n" + tmp + "EI\n";
  }

  /** getStringRepresentation of an inline image. */
  method ImageToString(entries: seq<Entry>, bytes: string) returns (str: string)
    ensures str == ImageText(entries, bytes)
  {
    str := "";
    for i := 0 to |entries|
      invariant ImageEntriesText(entries) == str + ImageEntriesText(entries[i..])
    {
      EntryInFront(entries, i, str);
      var tmp := ObjText(entries[i].value);
      str := str + ("/" + entries[i].key + " " + tmp + "\n");
    }
    assert ImageEntriesText(entries) == str;
    str := str + "ID";
    str := str + [NUL];
    for i := 0 to |bytes|
      invariant str == ImageEntriesText(entries) + "ID" + [NUL] + bytes[..i]
    {
      str := str + [bytes[i]];
    }
  }

  lemma EntryInFront(entries: seq<Entry>, i: nat, str: string)
    requires i < |entries|
    ensures var front := "/" + entries[i].key + " " + ObjText(entries[i].value) + "\n";
      str + ImageEntriesText(entries[i..]) == str + front + ImageEntriesText(entries[i + 1..])
  {
    hide ObjText;
    assert entries[i..][1..] == entries[i + 1..];
  }

  /** getStringRepresentation of a list of operators, each followed by a space. */
  method OperatorsToString(ops: seq<PdfOperator>, ghost f: Forest<PdfOperator>) returns (str: string)
    requires ops == Roots(f) && Shaped(f)
    ensures str == ForestText(Contents(f))
    decreases |Flat(f)|, 0
  {
    NoText(f);
    hide Flat, Shaped, Contents, ForestText, LabelText, Roots;
    str := "";
    ghost var g := f;
    for i := 0 to |ops|
      invariant ops[i..] == Roots(g) && Shaped(g) && |Flat(g)| <= |Flat(f)|
      invariant ForestText(Contents(f)) == str + ForestText(Contents(g))
    {
      assert ops[i..] == [ops[i]] + ops[i + 1..];
      FirstText(g);
      InHeap(g.rest);
      label before:
      var tmp := OperatorToString(ops[i], g.kids);
      StaysShaped@before(g.rest);
      AppendThree(str, tmp, " ", ForestText(Contents(g.rest)));
      str := str + (tmp + " ");
      g := g.rest;
    }
    NoText(g);
  }

  /** The first operator of a list and what it prints as. */
  lemma FirstText(g: Forest<PdfOperator>)
    requires Shaped(g) && Roots(g) != []
    ensures g.Tree? && Roots(g) == [g.root] + Roots(g.rest)
    ensures Shaped(Single(g.root, g.kids)) && Shaped(g.rest)
    ensures |Flat(g.kids)| < |Flat(g)| && |Flat(g.rest)| < |Flat(g)|
    ensures ForestText(Contents(g)) ==
            LabelText(g.root.content) + ForestText(Contents(g.kids)) + " " + ForestText(Contents(g.rest))
  {
    hide LabelText;
  }

  lemma NoText(g: Forest<PdfOperator>)
    ensures Roots(g) == [] ==> ForestText(Contents(g)) == ""
    ensures "" + ForestText(Contents(g)) == ForestText(Contents(g))
  {
  }

  lemma SnapshotTaken(f: Forest<PdfOperator>, q: seq<PdfOperator>, ch: map<PdfOperator, seq<PdfOperator>>)
    requires q == Flat(f) && Distinct(q) && Shaped(f) && Holds(q, ch)
    ensures Snapshot(f, ch)
    ensures forall o: PdfOperator :: o in Flat(f) ==> o in ch && ch[o] == o.children
  {
    ShapedFromSnapshot(f, q, ch);
  }

  class CContentStream {
    /** Buffers of the underlying streams. */
    var cstreams: seq<string>
    /** First-level operators. */
    var operators: seq<PdfOperator>
    /** Whether the document accepts changes. */
    var writable: bool
    /** The shape that the operators spell out. */
    ghost var forest: Forest<PdfOperator>

    ghost predicate TreeValid()
      reads this, Elems(forest)
    {
      operators == Roots(forest) && Distinct(Flat(forest)) && Shaped(forest)
    }

    /** The tree and the queue agree. */
    ghost predicate Valid()
      reads this, Elems(forest)
    {
      TreeValid() && Threaded(forest)
    }

    /** A content stream read from streams. */
    constructor (cstreams: seq<string>, writable: bool)
      ensures Valid() && fresh(Elems(forest)) && this.cstreams == cstreams && this.writable == writable
      ensures var (read, why, _) := G.ParseAll(ObjectReader.StreamItems(cstreams));
        Contents(forest) == if why == G.Broken then Empty else read
    {
      this.cstreams, this.writable := cstreams, writable;
      operators, forest := [], Empty;
      new;
      var _ := Reparse();
    }

    /** Looks op up in the tree: among the first-level operators, else below a composite. */
    method Locate(op: PdfOperator) returns (i: nat, composite: PdfOperator?)
      requires Valid() && operators != []
      ensures i <= |operators| && op !in operators[..i] && (i < |operators| ==> operators[i] == op)
      ensures i < |operators| <==> op in operators
      ensures composite != null <==> op in Flat(forest) && op !in operators
      ensures composite != null ==> composite == Parent(forest, op)
      ensures composite != null ==> composite in Elems(forest) && op in composite.children
    {
      composite := null;
      i := IndexOf(operators, op);
      if i == |operators| {
        ghost var k := ParentPosition(forest, op);
        RootsInFlat(forest);
        assert k < |Flat(forest)| ==> Flat(forest)[k] in Elems(forest);
        composite := FindCompositeOfPdfOperator(operators[0], op, Flat(forest), k);
      }
      RootsInFlat(forest);
    }

    /** Takes op out of the list that holds it. */
    method RemoveFromTree(op: PdfOperator, ghost ch: map<PdfOperator, seq<PdfOperator>>) returns (found: bool)
      requires Valid() && operators != [] && Snapshot(forest, ch)
      requires forall o: PdfOperator :: o in Flat(forest) ==> o in ch && ch[o] == o.children
      modifies this`operators, Elems(forest)`children
      ensures found <==> op in Flat(forest)
      ensures found ==> operators == ReplaceIn(old(operators), op, []) && HolderEdited(forest, op, [], ch)
      ensures !found ==> Valid() && operators == old(operators)
    {
      hide Flat, Distinct, Chain, Shaped, Fits;
      var i, composite := Locate(op);
      RootsInFlat(forest);
      if i < |operators| {
        ReplaceAt(operators, op, [], i);
        operators := operators[..i] + operators[i + 1..];
      } else if composite != null {
        composite.Remove(op);
        ReplaceAbsent(operators, op, []);
      } else {
        return false;
      }
      return true;
    }

    /** Puts newOper behind op in the list that holds op. */
    method InsertIntoTree(op: PdfOperator, newOper: PdfOperator, ghost ch: map<PdfOperator, seq<PdfOperator>>)
      returns (found: bool)
      requires Valid() && operators != [] && Snapshot(forest, ch)
      requires forall o: PdfOperator :: o in Flat(forest) ==> o in ch && ch[o] == o.children
      modifies this`operators, Elems(forest)`children
      ensures found <==> op in Flat(forest)
      ensures found ==> operators == ReplaceIn(old(operators), op, [op, newOper])
      ensures found ==> HolderEdited(forest, op, [op, newOper], ch)
      ensures !found ==> Valid() && operators == old(operators)
    {
      hide Flat, Distinct, Chain, Shaped, Fits;
      var i, composite := Locate(op);
      RootsInFlat(forest);
      if i < |operators| {
        InsertAt(operators, op, newOper, i);
        operators := operators[..i + 1] + [newOper] + operators[i + 1..];
      } else if composite != null {
        composite.InsertAfterChild(op, newOper);
        ReplaceAbsent(operators, op, [op, newOper]);
      } else {
        return false;
      }
      return true;
    }

    /** Puts newOper in the place of op. */
    method ReplaceInTree(op: PdfOperator, newOper: PdfOperator, ghost ch: map<PdfOperator, seq<PdfOperator>>)
      returns (found: bool)
      requires Valid() && operators != [] && Snapshot(forest, ch)
      requires forall o: PdfOperator :: o in Flat(forest) ==> o in ch && ch[o] == o.children
      modifies this`operators, Elems(forest)`children
      ensures found <==> op in Flat(forest)
      ensures found ==> operators == ReplaceIn(old(operators), op, [newOper])
      ensures found ==> HolderEdited(forest, op, [newOper], ch)
      ensures !found ==> Valid() && operators == old(operators)
    {
      hide Flat, Distinct, Chain, Shaped, Fits;
      var i, composite := Locate(op);
      RootsInFlat(forest);
      if i < |operators| {
        ReplaceAt(operators, op, [newOper], i);
        operators := operators[..i] + [newOper] + operators[i + 1..];
      } else if composite != null {
        ReplaceTwice(composite.children, op, newOper);
        composite.InsertAfterChild(op, newOper);
        composite.Remove(op);
        ReplaceAbsent(operators, op, [newOper]);
      } else {
        return false;
      }
      return true;
    }

    /** Writes the operators to the streams: everything into the first, nothing into the others. */
    method ObjectChanged()
      requires TreeValid() && cstreams != []
      modifies this`cstreams
      ensures cstreams == Saved(old(|cstreams|), ForestText(Contents(forest)))
      ensures |cstreams| == old(|cstreams|) && cstreams[0] == ForestText(Contents(forest))
      ensures forall i :: 0 < i < |cstreams| ==> cstreams[i] == ""
    {
      var tmp := OperatorsToString(operators, forest);
      var bufs := cstreams[0 := tmp];
      for i := 1 to |bufs|
        invariant |bufs| == |cstreams| && bufs[0] == tmp
        invariant forall j :: 1 <= j < i ==> bufs[j] == ""
      {
        bufs := bufs[i := ""];
      }
      cstreams := bufs;
    }

    /** ObjectChanged, with what it leaves alone: this tree and queue, and any other forest. */
    method SaveIf(indicateChange: bool, ghost other: Forest<PdfOperator>)
      requires TreeValid() && cstreams != [] && WellLinked(other)
      modifies this`cstreams
      ensures cstreams == if indicateChange then Saved(old(|cstreams|), ForestText(Contents(forest)))
                          else old(cstreams)
      ensures TreeValid() && (Valid() <==> old(Valid())) && WellLinked(other)
    {
      hide Flat, Shaped, Contents, ForestText;
      if indicateChange {
        InHeap(forest);
        InHeap(other);
        label before:
        ObjectChanged();
        StaysShaped@before(forest);
        StaysShaped@before(other);
      }
    }

    /** Throws the operators away and reads them from the streams again. Operators in front of an illegal
        one are kept; after the document exception there are none. */
    method Reparse() returns (why: G.Stop)
      modifies this`operators, this`forest
      ensures Valid() && fresh(Elems(forest))
      ensures why == G.ParseAll(ObjectReader.StreamItems(cstreams)).1
      ensures Contents(forest) == if why == G.Broken then Empty
                                  else G.ParseAll(ObjectReader.StreamItems(cstreams)).0
    {
      var reader := new P.ItemReader(ObjectReader.StreamItems(cstreams));
      why, operators, forest := P.ParseStream(reader);
    }

    /** Removes op and its subtree from both views; they stay behind as a tree of their own. */
    method DeleteOperator(op: PdfOperator, indicateChange: bool) returns (r: Outcome)
      requires Valid() && operators != [] && cstreams != []
      modifies this`operators, this`forest, this`cstreams, Elems(forest)
      ensures r == ReadOnly <==> !writable
      ensures r == InvalidOperation <==> writable && op !in old(Flat(forest))
      ensures Valid()
      ensures forest == if r == Done then Remove(old(forest), op) else old(forest)
      ensures r == Done ==> WellLinked(Single(op, Kids(old(forest), op)))
      ensures cstreams == if r == Done && indicateChange
                          then Saved(old(|cstreams|), ForestText(Contents(forest))) else old(cstreams)
    {
      hide Flat, Shaped, Distinct, Chain, Kids, Splice, Contents, ForestText, Single;
      if !writable {
        return ReadOnly;
      }
      ghost var f := forest;
      var found := DetachTree(op);
      if !found {
        return InvalidOperation;
      }
      SaveIf(indicateChange, Single(op, Kids(f, op)));
      return Done;
    }

    /** DeleteOperator without the save. */
    method DetachTree(op: PdfOperator) returns (found: bool)
      requires Valid() && operators != []
      modifies this`operators, this`forest, Elems(forest)
      ensures found <==> op in old(Flat(forest))
      ensures Valid()
      ensures forest == if found then Remove(old(forest), op) else old(forest)
      ensures found ==> WellLinked(Single(op, Kids(old(forest), op)))
    {
      hide Flat, Before, After, Kids, Splice, Recorded, Single, Shaped, Distinct, Chain;
      ghost var f, q := forest, Flat(forest);
      InHeap(f);
      ghost var ch;
      found, ch := CutFromTree(op, q);
      if found {
        CutMembers(f, op);
        UnlinkTree(op, f, q, ch);
        forest := Remove(f, op);
        ShapedFromSnapshot(Remove(f, op), q, ch);
        ShapedFromSnapshot(Single(op, Kids(f, op)), q, ch);
      }
    }

    method CutFromTree(op: PdfOperator, ghost q: seq<PdfOperator>)
      returns (found: bool, ghost ch: map<PdfOperator, seq<PdfOperator>>)
      requires Valid() && operators != [] && q == Flat(forest)
      modifies this`operators, Elems(forest)`children
      ensures found <==> op in Flat(forest)
      ensures found ==> operators == Roots(Remove(forest, op)) && Holds(q, ch)
      ensures found ==> Recorded(Remove(forest, op), ch) && Recorded(Single(op, Kids(forest, op)), ch)
      ensures found ==> Shaped(Single(op, Kids(forest, op)))
      ensures !found ==> Valid()
    {
      hide Flat, Before, After, Kids, Splice, Fits, Single, Shaped, Recorded;
      ghost var f := forest;
      ch := SnapshotOf(q);
      SnapshotTaken(f, q, ch);
      found := RemoveFromTree(op, ch);
      if found {
        TreeEdited(f, op, Empty, false, ch);
        CutMembers(f, op);
        SpliceRoots(f, op, Empty);
        ch := SnapshotOf(q);
        ShapedFromSnapshot(Remove(f, op), q, ch);
        ShapedFromSnapshot(Single(op, Kids(f, op)), q, ch);
      }
    }

    // ----------------------------------------------------------------------------------------
    // Insertion
    // ----------------------------------------------------------------------------------------

    /** Inserts the tree of newOper behind op, or into an empty stream. Both views agree afterwards exactly
        when newOper has no children or ends up last. Into an empty stream nothing is saved. */
    method InsertOperator(op: PdfOperator?, newOper: PdfOperator, indicateChange: bool,
                          ghost kids: Forest<PdfOperator>) returns (r: Outcome)
      requires Valid() && cstreams != [] && (operators != [] ==> op != null)
      requires WellLinked(Single(newOper, kids))
      requires forall x: PdfOperator :: x in Flat(Single(newOper, kids)) ==> x !in Flat(forest)
      modifies this`operators, this`forest, this`cstreams, Elems(forest), Elems(Single(newOper, kids))
      ensures r == ReadOnly <==> !writable
      ensures r == InvalidOperation <==> writable && old(operators) != [] && op !in old(Flat(forest))
      ensures r != Done ==> Valid() && forest == old(forest)
      ensures r == Done && old(operators) == [] ==> Valid() && forest == Single(newOper, kids)
      ensures r == Done && old(operators) != [] ==>
                && op in old(Flat(forest))
                && forest == InsertAfter(old(forest), op, Single(newOper, kids))
                && TreeValid()
                && (Valid() <==> kids == Empty || After(old(forest), op) == [])
      ensures cstreams == if r == Done && indicateChange && old(operators) != []
                          then Saved(old(|cstreams|), ForestText(Contents(forest))) else old(cstreams)
    {
      if !writable {
        return ReadOnly;
      }
      if operators == [] {
        RootsInFlat(forest);
        SingleFlat(newOper, kids);
        operators := [newOper];
        forest := Single(newOper, kids);
        return Done;
      }
      var found := AttachTree(op, newOper, kids);
      if !found {
        return InvalidOperation;
      }
      SaveIf(indicateChange, Empty);
      return Done;
    }

    /** InsertOperator into a stream with operators, without the save. */
    method AttachTree(op: PdfOperator, newOper: PdfOperator, ghost kids: Forest<PdfOperator>) returns (found: bool)
      requires Valid() && operators != [] && WellLinked(Single(newOper, kids))
      requires forall x: PdfOperator :: x in Flat(Single(newOper, kids)) ==> x !in Flat(forest)
      modifies this`operators, this`forest, Elems(forest), Elems(Single(newOper, kids))
      ensures found <==> op in old(Flat(forest))
      ensures !found ==> Valid() && forest == old(forest)
      ensures found ==> forest == InsertAfter(old(forest), op, Single(newOper, kids)) && TreeValid()
      ensures found ==> (Valid() <==> kids == Empty || After(old(forest), op) == [])
    {
      hide Flat, Before, After, Kids, Splice, InsertAfter, Recorded, Single, Shaped, Distinct, Chain;
      ghost var f, q, g := forest, Flat(forest), Single(newOper, kids);
      ghost var t := Flat(g);
      InHeap(f);
      InHeap(g);
      SingleFlat(newOper, kids);
      RootsInFlat(kids);
      ghost var ch;
      found, ch := PutIntoTree(op, newOper, kids, q, t, true);
      if found {
        InsertMembers(f, op, g);
        LinkTree(op, newOper, kids, f, q, t, ch);
        forest := InsertAfter(f, op, g);
        ShapedFromSnapshot(InsertAfter(f, op, g), q + t, ch);
      }
    }

    /** The tree part of inserting behind op, or of replacing op. */
    method PutIntoTree(op: PdfOperator, newOper: PdfOperator, ghost kids: Forest<PdfOperator>,
                       ghost q: seq<PdfOperator>, ghost t: seq<PdfOperator>, keep: bool)
      returns (found: bool, ghost ch: map<PdfOperator, seq<PdfOperator>>)
      requires Valid() && operators != [] && q == Flat(forest) && t == Flat(Single(newOper, kids))
      requires Shaped(Single(newOper, kids)) && Distinct(t) && forall x: PdfOperator :: x in t ==> x !in q
      modifies this`operators, Elems(forest)`children
      ensures found <==> op in Flat(forest)
      ensures !found ==> Valid()
      ensures found ==> Holds(q + t, ch)
      ensures found ==> var f' := if keep then InsertAfter(forest, op, Single(newOper, kids))
                                  else Splice(forest, op, Single(newOper, kids));
                operators == Roots(f') && Recorded(f', ch)
      ensures found ==> Shaped(Single(op, Kids(forest, op))) && Recorded(Single(op, Kids(forest, op)), ch)
      ensures found ==> Shaped(Single(newOper, kids))
    {
      hide Flat, Before, After, Kids, Splice, InsertAfter, Fits, Single, Shaped, Recorded, Distinct, Chain;
      ghost var f, g := forest, Single(newOper, kids);
      ch := SnapshotOf(q);
      ghost var ct := SnapshotOf(t);
      SnapshotTaken(f, q, ch);
      ShapedFromSnapshot(g, t, ct);
      SingleFlat(newOper, kids);
      if keep {
        found := InsertIntoTree(op, newOper, ch);
      } else {
        found := ReplaceInTree(op, newOper, ch);
      }
      if found {
        assert Holds(t, ct);
        ShapedFromSnapshot(g, t, ct);
        PutRoots(f, op, newOper, kids);
        PutShape(f, op, newOper, kids, keep, q, t, ch);
        ch := SnapshotOf(q + t);
      }
    }

    /** Inserts the tree of newOper before everything else. */
    method FrontInsertOperator(newOper: PdfOperator, indicateChange: bool, ghost kids: Forest<PdfOperator>)
      returns (r: Outcome)
      requires Valid() && cstreams != [] && WellLinked(Single(newOper, kids))
      requires forall x: PdfOperator :: x in Flat(Single(newOper, kids)) ==> x !in Flat(forest)
      modifies this`operators, this`forest, this`cstreams, Elems(forest), Elems(Single(newOper, kids))
      ensures r == (if writable then Done else ReadOnly) && Valid()
      ensures forest == if r == Done then Tree(newOper, kids, old(forest)) else old(forest)
      ensures cstreams == if r == Done && indicateChange
                          then Saved(old(|cstreams|), ForestText(Contents(forest))) else old(cstreams)
    {
      if !writable {
        return ReadOnly;
      }
      PutInFront(newOper, kids);
      SaveIf(indicateChange, Empty);
      return Done;
    }

    /** FrontInsertOperator without the save. */
    method PutInFront(newOper: PdfOperator, ghost kids: Forest<PdfOperator>)
      requires Valid() && WellLinked(Single(newOper, kids))
      requires forall x: PdfOperator :: x in Flat(Single(newOper, kids)) ==> x !in Flat(forest)
      modifies this`operators, this`forest, Elems(forest), Elems(Single(newOper, kids))
      ensures Valid() && forest == Tree(newOper, kids, old(forest))
    {
      ghost var f, q, t := forest, Flat(forest), Flat(Single(newOper, kids));
      InHeap(f);
      InHeap(Single(newOper, kids));
      SingleFlat(newOper, kids);
      RootsInFlat(f);
      assert Flat(Tree(newOper, kids, f)) == t + q;
      DistinctConcat(t, q);
      InBoth(t, q);
      forest := Tree(newOper, kids, f);
      if operators == [] {
        operators := [newOper];
        assert t + [] == t;
      } else {
        var secondoper := operators[0];
        operators := [newOper] + operators;
        ghost var ch := SnapshotOf(t + q);
        assert Shaped(forest);
        assert Recorded(forest, ch) by { ShapedFromSnapshot(forest, t + q, ch); }
        LinkFront(newOper, kids, secondoper, q, t, ch);
        ShapedFromSnapshot(forest, t + q, ch);
      }
    }

    /** Puts the tree of newOper in the place of op and its subtree, which stay behind as a tree of their own. */
    method ReplaceOperator(op: PdfOperator, newOper: PdfOperator, indicateChange: bool,
                           ghost kids: Forest<PdfOperator>) returns (r: Outcome)
      requires Valid() && operators != [] && cstreams != [] && WellLinked(Single(newOper, kids))
      requires forall x: PdfOperator :: x in Flat(Single(newOper, kids)) ==> x !in Flat(forest)
      modifies this`operators, this`forest, this`cstreams, Elems(forest), Elems(Single(newOper, kids))
      ensures r == ReadOnly <==> !writable
      ensures r == InvalidOperation <==> writable && op !in old(Flat(forest))
      ensures Valid()
      ensures forest == if r == Done then Splice(old(forest), op, Single(newOper, kids)) else old(forest)
      ensures r == Done ==> WellLinked(Single(op, Kids(old(forest), op)))
      ensures cstreams == if r == Done && indicateChange
                          then Saved(old(|cstreams|), ForestText(Contents(forest))) else old(cstreams)
    {
      hide Flat, Shaped, Distinct, Chain, Kids, Splice, Contents, ForestText, Single;
      if !writable {
        return ReadOnly;
      }
      ghost var f := forest;
      var found := SwapTree(op, newOper, kids);
      if !found {
        return InvalidOperation;
      }
      SaveIf(indicateChange, Single(op, Kids(f, op)));
      return Done;
    }

    /** ReplaceOperator without the save. */
    method SwapTree(op: PdfOperator, newOper: PdfOperator, ghost kids: Forest<PdfOperator>) returns (found: bool)
      requires Valid() && operators != [] && WellLinked(Single(newOper, kids))
      requires forall x: PdfOperator :: x in Flat(Single(newOper, kids)) ==> x !in Flat(forest)
      modifies this`operators, this`forest, Elems(forest), Elems(Single(newOper, kids))
      ensures found <==> op in old(Flat(forest))
      ensures Valid()
      ensures forest == if found then Splice(old(forest), op, Single(newOper, kids)) else old(forest)
      ensures found ==> WellLinked(Single(op, Kids(old(forest), op)))
    {
      hide Flat, Before, After, Kids, Splice, InsertAfter, Recorded, Single, Shaped, Distinct, Chain;
      ghost var f, q, g := forest, Flat(forest), Single(newOper, kids);
      ghost var t := Flat(g);
      InHeap(f);
      InHeap(g);
      ghost var ch;
      found, ch := PutIntoTree(op, newOper, kids, q, t, false);
      if found {
        InsertMembers(f, op, g);
        CutMembers(f, op);
        RelinkTree(op, newOper, kids, f, q, t, ch);
        InBoth(q, t);
        forest := Splice(f, op, g);
        ShapedFromSnapshot(Splice(f, op, g), q + t, ch);
        ShapedFromSnapshot(Single(op, Kids(f, op)), q + t, ch);
      }
    }
  }

  lemma PutShape(f: Forest<PdfOperator>, x: PdfOperator, y: PdfOperator, kids: Forest<PdfOperator>, keep: bool,
                 q: seq<PdfOperator>, t: seq<PdfOperator>, ch: map<PdfOperator, seq<PdfOperator>>)
    requires Snapshot(f, ch) && x in Flat(f) && q == Flat(f) && t == Flat(Single(y, kids))
    requires Shaped(Single(y, kids)) && Distinct(t) && forall o: PdfOperator :: o in t ==> o !in q
    requires HolderEdited(f, x, if keep then [x, y] else [y], ch)
    ensures Shaped(Single(x, Kids(f, x))) && Recorded(Single(x, Kids(f, x)), SnapshotOf(q + t))
    ensures keep ==> Recorded(InsertAfter(f, x, Single(y, kids)), SnapshotOf(q + t))
    ensures !keep ==> Recorded(Splice(f, x, Single(y, kids)), SnapshotOf(q + t))
  {
    hide Flat, Before, After, Kids, Splice, InsertAfter, Fits, Single, Shaped, Recorded;
    var g := Single(y, kids);
    SingleFlat(y, kids);
    assert [x] + [y] == [x, y] && [] + [y] == [y];
    TreeEdited(f, x, g, keep, ch);
    InsertMembers(f, x, g);
    CutMembers(f, x);
    InBoth(q, t);
    var ch' := SnapshotOf(q + t);
    ShapedFromSnapshot(if keep then InsertAfter(f, x, g) else Splice(f, x, g), q + t, ch');
    ShapedFromSnapshot(Single(x, Kids(f, x)), q + t, ch');
  }

  lemma PutRoots(f: Forest<PdfOperator>, x: PdfOperator, y: PdfOperator, kids: Forest<PdfOperator>)
    requires Distinct(Flat(f))
    ensures Roots(InsertAfter(f, x, Single(y, kids))) == ReplaceIn(Roots(f), x, [x, y])
    ensures Roots(Splice(f, x, Single(y, kids))) == ReplaceIn(Roots(f), x, [y])
  {
    var g := Single(y, kids);
    SpliceRoots(f, x, Tree(x, Kids(f, x), g));
    SpliceRoots(f, x, g);
    SingleFlat(y, kids);
    assert [x] + Roots(g) == [x, y];
  }

  /** Inserting behind x and then removing x replaces x. */
  lemma {:induction false} ReplaceTwice<T>(s: seq<T>, x: T, y: T)
    requires x in s
    ensures x in ReplaceIn(s, x, [x, y])
    ensures ReplaceIn(ReplaceIn(s, x, [x, y]), x, []) == ReplaceIn(s, x, [y])
  {
    if s[0] == x {
      assert ReplaceIn(s, x, [x, y])[1..] == [y] + s[1..];
    } else {
      ReplaceTwice(s[1..], x, y);
      assert ReplaceIn(s, x, [x, y])[1..] == ReplaceIn(s[1..], x, [x, y]);
    }
  }
}
