/** The content stream parser: it builds linked operators, both views at once, from the items of a stream. */
module StreamParser {
  import opened Options
  import opened Forests
  import opened PdfObjects
  import opened PdfOperators
  import opened OperatorTable
  import opened QueueLinks
  import opened G = StreamGrammar

  /** The reader of objects and commands over all the streams of a page. */
  class ItemReader {
    const items: seq<Item>
    var pos: nat

    constructor (items: seq<Item>)
      ensures this.items == items && pos == 0 && Valid() && Rest() == items
    {
      this.items := items;
      pos := 0;
    }

    ghost predicate Valid()
      reads this
    {
      pos <= |items|
    }

    function Rest(): seq<Item>
      reads this
      requires Valid()
    {
      items[pos..]
    }

    /** The next item; None at the end of all streams. */
    method Next() returns (item: Option<Item>)
      requires Valid()
      modifies this
      ensures Valid()
      ensures item == if old(Rest()) == [] then None else Some(old(Rest())[0])
      ensures Rest() == if old(Rest()) == [] then [] else old(Rest())[1..]
    {
      if pos == |items| {
        return None;
      }
      item := Some(items[pos]);
      pos := pos + 1;
    }
  }

  /** Reads operands up to the command, image or failure that follows them; None at the end. */
  method CreateOperandsFromStream(reader: ItemReader, operands: seq<Obj>)
    returns (item: Option<Item>, read: seq<Obj>)
    requires reader.Valid()
    modifies reader
    ensures reader.Valid() && |reader.Rest()| <= |old(reader.Rest())|
    ensures item.Some? ==> !item.value.Operand? && |reader.Rest()| < |old(reader.Rest())|
    ensures item == None ==> ParseOp(old(reader.Rest()), operands) == Stopped(End)
    ensures item.Some? ==> ParseOp(old(reader.Rest()), operands) == ParseOp([item.value] + reader.Rest(), read)
  {
    hide CreateOperator, ParseOp;
    read := operands;
    item := reader.Next();
    ghost var rest := reader.Rest();
    assert (if item.Some? then [item.value] else []) + rest == old(reader.Rest());
    while item.Some? && item.value.Operand?
      invariant reader.Valid() && rest == reader.Rest() && |rest| <= |old(reader.Rest())|
      invariant item.Some? ==> |rest| < |old(reader.Rest())|
      invariant ParseOp(old(reader.Rest()), operands) ==
                ParseOp((if item.Some? then [item.value] else []) + rest, read)
      invariant item == None ==> rest == []
      decreases |rest| + if item.Some? then 1 else 0
    {
      OperandParsed(item.value.o, rest, read);
      read := read + [item.value.o];
      item := reader.Next();
      assert (if item.Some? then [item.value] else []) + reader.Rest() == rest;
      rest := reader.Rest();
    }
    StepEnd(read);
  }

  lemma StepEnd(read: seq<Obj>)
    ensures ParseOp([] + [], read) == Stopped(End)
  {
  }

  // ------------------------------------------------------------------------------------------
  // Building the two views
  // ------------------------------------------------------------------------------------------

  /** PdfOperator::putBehind: links which into the queue a + b, behind the last of a. */
  method PutBehind(behindWhich: PdfOperator, which: PdfOperator,
                   ghost a: seq<PdfOperator>, ghost t: seq<PdfOperator>, ghost b: seq<PdfOperator>)
    requires Distinct(a + t + b) && Chain(a + b, null, null) && Chain(t, null, null)
    requires a != [] && behindWhich == a[|a| - 1] && t != [] && which == t[0]
    modifies {behindWhich, which}`next, {which, First(b, null)}`prev
    ensures Chain(a + t + b, null, null) <==> |t| == 1 || b == []
  {
    ChainConcat(a, b, null, null);
    Apart(a, t, b);
    assert behindWhich in a && which in t;
    var nxt := behindWhich.next;
    assert nxt != null ==> nxt in b && nxt !in a && nxt !in t;
    if nxt != null {
      which.next := nxt;
      nxt.prev := which;
      which.prev := behindWhich;
      behindWhich.next := which;
    } else {
      behindWhich.next := which;
      which.prev := behindWhich;
    }
    StaysLinked(a);
    StaysLinked(b);
    if |t| == 1 || b == [] {
      StaysLinked(t);
    } else {
      assert t[0].next == b[0] && t[1] in t && t[1] != b[0];
    }
    Chain3(a, t, b);
  }

  /** A forest keeps its links through anything that leaves its operators' fields alone. */
  twostate lemma StaysWellLinked(f: Forest<PdfOperator>)
    requires old(WellLinked(f))
    requires forall i :: 0 <= i < |Flat(f)| ==>
               old(allocated(Flat(f)[i])) && unchanged(Flat(f)[i])
    ensures WellLinked(f)
  {
    hide Flat, Shaped;
    StaysShaped(f);
  }

  /** CompositePdfOperator::push_back with the operator after which the new child goes in the queue. */
  method PushBack(result: PdfOperator, oper: PdfOperator, prev: PdfOperator,
                  ghost kids: Forest<PdfOperator>, ghost operKids: Forest<PdfOperator>)
    requires WellLinked(Single(result, kids)) && result.content.Composite?
    requires WellLinked(Single(oper, operKids)) && Elems(Single(result, kids)) !! Elems(Single(oper, operKids))
    requires prev == Last(Flat(Single(result, kids)), null)
    modifies result`children, {prev, oper}`next, oper`prev
    ensures WellLinked(Single(result, Concat(kids, Single(oper, operKids))))
    ensures Shaped(Single(oper, operKids))
  {
    hide Flat, Shaped, Recorded;
    ghost var r, g := Single(result, kids), Single(oper, operKids);
    ghost var a, t, q := Flat(r), Flat(g), Flat(kids) + Flat(g);
    ghost var ch := SnapshotOf(q);
    ChildrenAppended(result, kids, g);
    SingleFlat(oper, operKids);
    InBoth(Flat(kids), t);
    assert forall x: PdfOperator :: x in Flat(kids) || x in t ==> x in q && x != result;
    assert a + t + [] == a + t && a + [] == a;
    ShapedFromSnapshot(kids, q, ch);
    ShapedFromSnapshot(g, q, ch);
    if result.children == [] {
      result.children := [oper];
      PutBehind(prev, oper, a, t, []);
    } else {
      PutBehind(prev, oper, a, t, []);
      result.children := result.children + [oper];
    }
    ShapedFromSnapshot(kids, q, ch);
    ShapedFromSnapshot(g, q, ch);
    ShapedConcat(kids, g);
    ShapedRoot(result, Concat(kids, g));
  }

  lemma ShapedRoot(r: PdfOperator, k: Forest<PdfOperator>)
    ensures Shaped(Single(r, k)) <==> r.children == Roots(k) && (k.Tree? ==> r.content.Composite?) && Shaped(k)
  {
  }

  /** Members and preorder when g is appended to the children of r. */
  lemma ChildrenAppended(r: PdfOperator, k: Forest<PdfOperator>, g: Forest<PdfOperator>)
    requires Distinct(Flat(Single(r, k))) && Distinct(Flat(g)) && Elems(Single(r, k)) !! Elems(g)
    requires Shaped(Single(r, k))
    ensures Flat(Single(r, Concat(k, g))) == Flat(Single(r, k)) + Flat(g)
    ensures Distinct(Flat(Single(r, k)) + Flat(g))
    ensures r !in Flat(k) && r !in Flat(g) && r in Flat(Single(r, k))
    ensures Shaped(k) && r.children == Roots(k)
    ensures Roots(Concat(k, g)) == Roots(k) + Roots(g)
  {
    ShapedRoot(r, k);
    SingleFlat(r, k);
    SingleFlat(r, Concat(k, g));
    hide Flat, Shaped;
    ConcatFlat(k, g);
    assert [r] + (Flat(k) + Flat(g)) == ([r] + Flat(k)) + Flat(g);
    DistinctConcat([r], Flat(k));
    assert r in [r];
    assert r in Elems(Single(r, k));
    assert forall x: PdfOperator :: x in Flat(g) ==> x in Elems(g);
    assert forall x: PdfOperator :: x in Flat(Single(r, k)) ==> x in Elems(Single(r, k));
    DistinctConcat(Flat(Single(r, k)), Flat(g));
  }

  // ------------------------------------------------------------------------------------------
  // parseOp
  // ------------------------------------------------------------------------------------------

  /** More children in front of those still to be read. */
  function Prepend(f: Forest<Label>, r: ParsedKids): ParsedKids {
    match r
    case NoKids(why) => r
    case GotKids(kids, rest) => GotKids(Concat(f, kids), rest)
  }

  lemma PrependNothing(r: ParsedKids)
    ensures Prepend(Empty, r) == r
  {
  }

  lemma StopKids(items: seq<Item>, endTag: string, why: Stop)
    requires ParseOp(items, []) == Stopped(why)
    ensures ParseKids(items, endTag) == NoKids(if why == End then Threw else why)
  {
  }

  /** One round of the loop over the children. */
  lemma StepKids(f: Forest<Label>, items: seq<Item>, endTag: string)
    requires ParseOp(items, []).Got?
    ensures var r := ParseOp(items, []);
      Prepend(f, ParseKids(items, endTag)) ==
        if r.op.OperatorName() == endTag then GotKids(Concat(f, Single(r.op, r.kids)), r.rest)
        else Prepend(Concat(f, Single(r.op, r.kids)), ParseKids(r.rest, endTag))
  {
    hide CreateOperator;
    var r := ParseOp(items, []);
    if r.op.OperatorName() != endTag && ParseKids(r.rest, endTag).GotKids? {
      ConcatAssoc(f, Single(r.op, r.kids), ParseKids(r.rest, endTag).kids);
    }
  }

  lemma NewOperator(op: PdfOperator)
    requires op.children == [] && op.prev == null && op.next == null
    ensures WellLinked(Single(op, Empty)) && Contents(Single(op, Empty)) == Single(op.content, Empty)
  {
    assert Flat(Single(op, Empty)) == [op];
  }

  lemma SingleElems(op: PdfOperator, kids: Forest<PdfOperator>)
    ensures Elems(Single(op, kids)) == {op} + Elems(kids)
  {
    SingleFlat(op, kids);
  }

  lemma LastOf(op: PdfOperator, kids: Forest<PdfOperator>)
    ensures Last(Flat(Single(op, kids)), null) in Elems(Single(op, kids))
    ensures kids == Empty ==> Last(Flat(Single(op, kids)), null) == op && Elems(kids) == {}
  {
    SingleFlat(op, kids);
    var q := Flat(Single(op, kids));
    assert q[|q| - 1] in q;
  }

  lemma LastAppended(r: PdfOperator, k: Forest<PdfOperator>, op: PdfOperator, kids: Forest<PdfOperator>)
    ensures Last(Flat(Single(r, Concat(k, Single(op, kids)))), null) == Last(Flat(Single(op, kids)), null)
  {
    SingleFlat(r, Concat(k, Single(op, kids)));
    SingleFlat(op, kids);
    ConcatFlat(k, Single(op, kids));
  }

  lemma ElemsConcat(f: Forest<PdfOperator>, g: Forest<PdfOperator>)
    ensures Elems(Concat(f, g)) == Elems(f) + Elems(g)
  {
    ConcatFlat(f, g);
  }

  /** parseOp: reads one operator with its children and links it up. */
  method ParseOperator(reader: ItemReader, operands: seq<Obj>)
    returns (op: PdfOperator?, why: Stop, ghost kids: Forest<PdfOperator>, left: seq<Obj>)
    requires reader.Valid()
    modifies reader
    ensures reader.Valid() && |reader.Rest()| <= |old(reader.Rest())|
    ensures op == null ==> ParseOp(old(reader.Rest()), operands) == Stopped(why)
    ensures op != null ==>
              ParseOp(old(reader.Rest()), operands) == Got(op.content, Contents(kids), reader.Rest())
    ensures op != null ==> left == [] && WellLinked(Single(op, kids)) && fresh(Elems(Single(op, kids)))
    decreases |reader.Rest()|, 0
  {
    hide CreateOperator, ParseKids;
    op, why, kids := null, End, Empty;
    var item;
    item, left := CreateOperandsFromStream(reader, operands);
    if item == None {
      return;
    }
    assert ([item.value] + reader.Rest())[1..] == reader.Rest();
    match item.value
    case Image(entries, bytes) =>
      if left == [] {
        op := new PdfOperator(InlineImage(entries, bytes));
        NewOperator(op);
        SingleElems(op, kids);
      } else {
        why := Threw;
      }
    case BadObject => why := Threw;
    case Malformed => why := Broken;
    case BrokenImage => why := if left == [] then Broken else Threw;
    case Command(name) =>
      match CreateOperator(name, left) {
        case None => why := Threw;
        case Some(l) =>
          OperandsUsedUp(name, left);
          left := [];
          op := new PdfOperator(l);
          NewOperator(op);
          if l.Composite? {
            var stop;
            stop, kids := ParseChildren(reader, op, l.endTag);
            if stop.Some? {
              op, why := null, stop.value;
              return;
            }
          }
          SingleElems(op, kids);
      }
  }

  /** The part of parseOp that collects the children of a composite up to its end tag. */
  method ParseChildren(reader: ItemReader, result: PdfOperator, endTag: string)
    returns (stop: Option<Stop>, ghost kids: Forest<PdfOperator>)
    requires reader.Valid() && result.content.Composite? && WellLinked(Single(result, Empty))
    modifies reader, result
    ensures reader.Valid() && |reader.Rest()| <= |old(reader.Rest())|
    ensures stop.Some? ==> ParseKids(old(reader.Rest()), endTag) == NoKids(stop.value)
    ensures stop == None ==> ParseKids(old(reader.Rest()), endTag) == GotKids(Contents(kids), reader.Rest())
    ensures stop == None ==> WellLinked(Single(result, kids)) && fresh(Elems(kids))
    decreases |reader.Rest()|, 1
  {
    hide CreateOperator, ParseKids, ParseOp, Shaped, Flat, Concat;
    kids := Empty;
    var previousLast := result;
    SingleElems(result, Empty);
    LastOf(result, Empty);
    PrependNothing(ParseKids(reader.Rest(), endTag));
    while true
      invariant reader.Valid() && |reader.Rest()| <= |old(reader.Rest())|
      invariant WellLinked(Single(result, kids)) && previousLast == Last(Flat(Single(result, kids)), null)
      invariant fresh(Elems(kids))
      invariant ParseKids(old(reader.Rest()), endTag) ==
                Prepend(Contents(kids), ParseKids(reader.Rest(), endTag))
      decreases |reader.Rest()|
    {
      ghost var rest := reader.Rest();
      InHeap(Single(result, kids));
      label before:
      var newop, why, operKids, _ := ParseOperator(reader, []);
      if newop == null {
        StopKids(rest, endTag, why);
        return Some(if why == End then Threw else why), kids;
      }
      StaysWellLinked@before(Single(result, kids));
      StepKids(Contents(kids), rest, endTag);
      SingleElems(result, kids);
      SingleElems(newop, operKids);
      LastOf(result, kids);
      ElemsConcat(kids, Single(newop, operKids));
      ContentsConcat(kids, Single(newop, operKids));
      PushBack(result, newop, previousLast, kids, operKids);
      LastAppended(result, kids, newop, operKids);
      kids := Concat(kids, Single(newop, operKids));
      if newop.content.OperatorName() == endTag {
        return None, kids;
      }
      InHeap(Single(result, kids));
      label linked:
      previousLast := GetLastOperator(newop, operKids);
      StaysWellLinked@linked(Single(result, kids));
    }
  }

  // ------------------------------------------------------------------------------------------
  // parse
  // ------------------------------------------------------------------------------------------

  /** More first-level operators in front of those still to be read. */
  function PrependAll(f: Forest<Label>, r: (Forest<Label>, Stop, seq<Item>)): (Forest<Label>, Stop, seq<Item>) {
    (Concat(f, r.0), r.1, r.2)
  }

  /** One round of the first-level loop. */
  lemma StepAll(f: Forest<Label>, items: seq<Item>)
    ensures var r := ParseOp(items, []);
      PrependAll(f, ParseAll(items)) ==
        if r.Stopped? then (f, r.why, items)
        else PrependAll(Concat(f, Single(r.op, r.kids)), ParseAll(r.rest))
  {
    hide ParseOp;
    var r := ParseOp(items, []);
    ConcatEmpty(f);
    if r.Got? {
      ConcatAssoc(f, Single(r.op, r.kids), ParseAll(r.rest).0);
    }
  }

  /** The first-level loop of parse, under an unnamed composite. */
  method ParseTop(reader: ItemReader, topoperator: PdfOperator) returns (why: Stop, ghost f: Forest<PdfOperator>)
    requires reader.Valid() && topoperator.content.Composite? && WellLinked(Single(topoperator, Empty))
    modifies reader, topoperator
    ensures reader.Valid()
    ensures (Contents(f), why) == (ParseAll(old(reader.Rest())).0, ParseAll(old(reader.Rest())).1)
    ensures WellLinked(Single(topoperator, f)) && fresh(Elems(f))
  {
    hide CreateOperator, ParseAll, ParseOp, Shaped, Flat, Concat;
    f := Empty;
    var previousLast := topoperator;
    SingleElems(topoperator, Empty);
    LastOf(topoperator, Empty);
    StepNothing(ParseAll(reader.Rest()));
    while true
      invariant reader.Valid()
      invariant WellLinked(Single(topoperator, f)) && previousLast == Last(Flat(Single(topoperator, f)), null)
      invariant fresh(Elems(f))
      invariant ParseAll(old(reader.Rest())) == PrependAll(Contents(f), ParseAll(reader.Rest()))
      decreases |reader.Rest()|
    {
      ghost var rest := reader.Rest();
      InHeap(Single(topoperator, f));
      StepAll(Contents(f), rest);
      label before:
      var newop, stop, kids, _ := ParseOperator(reader, []);
      StaysWellLinked@before(Single(topoperator, f));
      if newop == null {
        return stop, f;
      }
      SingleElems(topoperator, f);
      SingleElems(newop, kids);
      LastOf(topoperator, f);
      ElemsConcat(f, Single(newop, kids));
      ContentsConcat(f, Single(newop, kids));
      PushBack(topoperator, newop, previousLast, f, kids);
      LastAppended(topoperator, f, newop, kids);
      f := Concat(f, Single(newop, kids));
      InHeap(Single(topoperator, f));
      label linked:
      previousLast := GetLastOperator(newop, kids);
      StaysWellLinked@linked(Single(topoperator, f));
    }
  }

  lemma StepNothing(r: (Forest<Label>, Stop, seq<Item>))
    ensures PrependAll(Empty, r) == r
  {
  }

  /** parse: the first-level operators of a stream, linked in both views. On the document exception, which
      is not caught here, there are none. */
  method ParseStream(reader: ItemReader)
    returns (why: Stop, operators: seq<PdfOperator>, ghost f: Forest<PdfOperator>)
    requires reader.Valid()
    modifies reader
    ensures why == ParseAll(old(reader.Rest())).1
    ensures Contents(f) == if why == Broken then Empty else ParseAll(old(reader.Rest())).0
    ensures operators == Roots(f) && WellLinked(f) && fresh(Elems(f))
  {
    hide ParseAll;
    var topoperator := new PdfOperator(Composite("", ""));
    NewOperator(topoperator);
    why, f := ParseTop(reader, topoperator);
    if why == Broken {
      assert Flat<PdfOperator>(Empty) == [];
      return why, [], Empty;
    }
    operators := topoperator.children;
    ChainWithoutFirst(topoperator, f);
    RootsInFlat(f);
    if operators != [] {
      operators[0].prev := null;
    }
  }

  /** Below the composite they were collected under, the operators are linked but for one prev field. */
  lemma ChainWithoutFirst(top: PdfOperator, f: Forest<PdfOperator>)
    requires WellLinked(Single(top, f))
    ensures Distinct(Flat(f)) && Shaped(f) && top.children == Roots(f) && Chain(Flat(f), top, null)
  {
    ShapedRoot(top, f);
    SingleFlat(top, f);
    DistinctConcat([top], Flat(f));
    ChainConcat([top], Flat(f), null, null);
  }
}
