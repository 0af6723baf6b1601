/** The grammar of content streams on the level of objects and commands: reading a stream into an operator
    forest, and the forests that reading gives back. */
module StreamGrammar {
  import opened Options
  import opened Forests
  import opened PdfObjects
  import opened PdfOperators
  import opened OperatorTable

  /** What the object reader delivers. BadObject stands for an object that cannot be an operand (it raises
      the editor's own object exception), Malformed for a broken array or dictionary (it raises the
      document exception, which the content stream parser does not catch). Image is a whole inline image, and
      BrokenImage one with a broken array or dictionary inside. */
  datatype Item =
    | Operand(o: Obj)
    | Command(name: string)
    | Image(entries: seq<Entry>, bytes: string)
    | BadObject
    | Malformed
    | BrokenImage

  /** The end of the items, the object exception, or the document exception. */
  datatype Stop = End | Threw | Broken

  /** One operator with its children and what is left to read. */
  datatype Parsed = Stopped(why: Stop) | Got(op: Label, kids: Forest<Label>, rest: seq<Item>)

  /** The children of a composite up to its end tag. */
  datatype ParsedKids = NoKids(why: Stop) | GotKids(kids: Forest<Label>, rest: seq<Item>)

  /** parseOp: operands are those read so far. */
  function ParseOp(items: seq<Item>, operands: seq<Obj>): (r: Parsed)
    ensures r.Got? ==> |r.rest| < |items|
    decreases |items|, 0
  {
    if items == [] then Stopped(End)
    else match items[0]
    case Operand(o) => ParseOp(items[1..], operands + [o])
    case Image(entries, bytes) =>
      if operands == [] then Got(InlineImage(entries, bytes), Empty, items[1..]) else Stopped(Threw)
    case BrokenImage => Stopped(if operands == [] then Broken else Threw)
    case BadObject => Stopped(Threw)
    case Malformed => Stopped(Broken)
    case Command(name) =>
      match CreateOperator(name, operands)
      case None => Stopped(Threw)
      case Some(Composite(begin, endTag)) =>
        (match ParseKids(items[1..], endTag)
         case NoKids(why) => Stopped(why)
         case GotKids(kids, rest) => Got(Composite(begin, endTag), kids, rest))
      case Some(op) => Got(op, Empty, items[1..])
  }

  /** The loop over the children of a composite; running out of items before the end tag is an error. */
  function ParseKids(items: seq<Item>, endTag: string): (r: ParsedKids)
    ensures r.GotKids? ==> |r.rest| < |items|
    decreases |items|, 1
  {
    match ParseOp(items, [])
    case Stopped(why) => NoKids(if why == End then Threw else why)
    case Got(op, kids, rest) =>
      if op.OperatorName() == endTag then GotKids(Single(op, kids), rest)
      else match ParseKids(rest, endTag)
      case NoKids(why) => NoKids(why)
      case GotKids(more, rest') => GotKids(Tree(op, kids, more), rest')
  }

  /** The first-level loop: the operators read, why it stopped, and what was not read. */
  function ParseAll(items: seq<Item>): (Forest<Label>, Stop, seq<Item>)
    decreases |items|
  {
    match ParseOp(items, [])
    case Stopped(why) => (Empty, why, items)
    case Got(op, kids, rest) =>
      var (more, why, unread) := ParseAll(rest);
      (Tree(op, kids, more), why, unread)
  }

  // ------------------------------------------------------------------------------------------
  // Flattening
  // ------------------------------------------------------------------------------------------

  function Operands(os: seq<Obj>): seq<Item> {
    if os == [] then [] else [Operand(os[0])] + Operands(os[1..])
  }

  function LabelItems(l: Label): seq<Item> {
    match l
    case Simple(name, operands) => Operands(operands) + [Command(name)]
    case Composite(begin, _) => [Command(begin)]
    case InlineImage(entries, bytes) => [Image(entries, bytes)]
  }

  function Items(f: Forest<Label>): seq<Item> {
    match f
    case Empty => []
    case Tree(l, k, s) => LabelItems(l) + Items(k) + Items(s)
  }

  /** An operator that the editor would make again from its own name and operands. */
  predicate Canonical(l: Label) {
    match l
    case Simple(name, operands) => CreateOperator(name, operands) == Some(l)
    case Composite(begin, _) => CreateOperator(begin, []) == Some(l)
    case InlineImage(_, _) => true
  }

  /** A composite's children end with its end tag, and it occurs among them only there. */
  predicate EndsWith(k: Forest<Label>, endTag: string) {
    match k
    case Empty => false
    case Tree(l, _, s) => if s == Empty then l.OperatorName() == endTag
                          else l.OperatorName() != endTag && EndsWith(s, endTag)
  }

  /** A well-nested forest of operators. */
  predicate WellNested(f: Forest<Label>) {
    match f
    case Empty => true
    case Tree(l, k, s) =>
      && Canonical(l)
      && (if l.Composite? then EndsWith(k, l.endTag) else k == Empty)
      && WellNested(k) && WellNested(s)
  }

  /** An operator that can be made from this name and these operands, integers standing for reals or not. */
  predicate Makes(l: Label) {
    match l
    case Simple(name, operands) => CreateOperator(name, operands).Some? && CreateOperator(name, operands).value.Simple?
    case _ => Canonical(l)
  }

  function MadeLabel(l: Label): Label
    requires Makes(l)
  {
    if l.Simple? then CreateOperator(l.name, l.operands).value else l
  }

  /** Well nested but for operands not yet converted. */
  predicate Makeable(f: Forest<Label>) {
    match f
    case Empty => true
    case Tree(l, k, s) =>
      && Makes(l)
      && (if l.Composite? then EndsWith(k, l.endTag) else k == Empty)
      && Makeable(k) && Makeable(s)
  }

  function Made(f: Forest<Label>): Forest<Label>
    requires Makeable(f)
  {
    match f
    case Empty => Empty
    case Tree(l, k, s) => Tree(MadeLabel(l), Made(k), Made(s))
  }

  lemma {:induction false} WellNestedIsMade(f: Forest<Label>)
    requires WellNested(f)
    ensures Makeable(f) && Made(f) == f
  {
    hide CreateOperator;
    if f.Tree? {
      WellNestedIsMade(f.kids);
      WellNestedIsMade(f.rest);
    }
  }

  // ------------------------------------------------------------------------------------------
  // Parsing undoes flattening
  // ------------------------------------------------------------------------------------------

  lemma {:induction false} ParseOperands(os: seq<Obj>, operands: seq<Obj>, rest: seq<Item>)
    ensures ParseOp(Operands(os) + rest, operands) == ParseOp(rest, operands + os)
  {
    hide ParseOp;
    if os == [] {
      assert Operands(os) + rest == rest && operands + os == operands;
    } else {
      assert Operands(os) + rest == [Operand(os[0])] + (Operands(os[1..]) + rest);
      OperandParsed(os[0], Operands(os[1..]) + rest, operands);
      ParseOperands(os[1..], operands + [os[0]], rest);
      assert operands + [os[0]] + os[1..] == operands + os;
    }
  }

  lemma OperandParsed(o: Obj, rest: seq<Item>, operands: seq<Obj>)
    ensures ParseOp([Operand(o)] + rest, operands) == ParseOp(rest, operands + [o])
  {
    assert ([Operand(o)] + rest)[1..] == rest;
  }

  lemma MadeName(l: Label)
    requires Makes(l)
    ensures MadeLabel(l).OperatorName() == l.OperatorName() && (MadeLabel(l).Simple? <==> l.Simple?)
  {
    hide FindOp;
    if l.Simple? {
      OperandsUsedUp(l.name, l.operands);
    }
  }

  /** Reading the items of one operator makes it and leaves what follows. */
  lemma {:induction false} ParseFlattenedOp(l: Label, k: Forest<Label>, rest: seq<Item>)
    requires Makeable(Single(l, k))
    ensures ParseOp(LabelItems(l) + Items(k) + rest, []) == Got(MadeLabel(l), Made(k), rest)
    decreases k, 1
  {
    hide CreateOperator, ParseOp, ParseKids, Items, Operands;
    match l
    case Simple(name, operands) => SimpleParsed(name, operands, rest);
    case Composite(begin, endTag) =>
      ParseFlattenedKids(k, endTag, rest);
      CompositeParsed(l, k, rest);
    case InlineImage(_, _) => ImageParsed(l, rest);
  }

  lemma SimpleParsed(name: string, operands: seq<Obj>, rest: seq<Item>)
    requires Makes(Simple(name, operands))
    ensures ParseOp(LabelItems(Simple(name, operands)) + Items(Empty) + rest, [])
         == Got(MadeLabel(Simple(name, operands)), Empty, rest)
  {
    hide CreateOperator, ParseKids;
    var command := [Command(name)] + rest;
    assert LabelItems(Simple(name, operands)) + Items(Empty) + rest == Operands(operands) + command;
    ParseOperands(operands, [], command);
    assert [] + operands == operands && command[1..] == rest;
  }

  lemma CompositeParsed(l: Label, k: Forest<Label>, rest: seq<Item>)
    requires l.Composite? && Makes(l) && Makeable(k)
    requires ParseKids(Items(k) + rest, l.endTag) == GotKids(Made(k), rest)
    ensures ParseOp(LabelItems(l) + Items(k) + rest, []) == Got(MadeLabel(l), Made(k), rest)
  {
    hide CreateOperator, ParseKids, Items, Made;
    var items := LabelItems(l) + Items(k) + rest;
    assert items[0] == Command(l.begin) && items[1..] == Items(k) + rest;
  }

  lemma ImageParsed(l: Label, rest: seq<Item>)
    requires l.InlineImage?
    ensures ParseOp(LabelItems(l) + Items(Empty) + rest, []) == Got(l, Empty, rest)
  {
    hide CreateOperator, ParseKids;
    assert (LabelItems(l) + Items(Empty) + rest)[1..] == rest;
  }

  lemma ItemsTree(l: Label, k: Forest<Label>, s: Forest<Label>, rest: seq<Item>)
    ensures Items(Tree(l, k, s)) + rest == LabelItems(l) + Items(k) + (Items(s) + rest)
    ensures s == Empty ==> Items(s) + rest == rest
  {
    hide LabelItems;
  }

  lemma {:induction false} ParseFlattenedKids(k: Forest<Label>, endTag: string, rest: seq<Item>)
    requires Makeable(k) && EndsWith(k, endTag)
    ensures ParseKids(Items(k) + rest, endTag) == GotKids(Made(k), rest)
    decreases k, 0
  {
    hide CreateOperator, MadeLabel, Items, LabelItems, ParseOp, Makes;
    var Tree(l, kk, s) := k;
    MadeName(l);
    ItemsTree(l, kk, s, rest);
    ParseFlattenedOp(l, kk, Items(s) + rest);
    if s != Empty {
      ParseFlattenedKids(s, endTag, rest);
    }
  }

  lemma {:induction false} ParseFlattened(f: Forest<Label>)
    requires Makeable(f)
    ensures ParseAll(Items(f)) == (Made(f), End, [])
  {
    hide CreateOperator, MadeLabel;
    match f
    case Empty =>
    case Tree(l, k, s) =>
      ParseFlattenedOp(l, k, Items(s));
      ParseFlattened(s);
  }

  /** Behind complete operators a broken item stops the reading: what was read is kept, and the operands in front of
      the item are unread like the item itself. */
  lemma {:induction false} ParseStops(f: Forest<Label>, os: seq<Obj>, bad: Item, rest: seq<Item>)
    requires Makeable(f)
    ensures var unread := Operands(os) + ([bad] + rest);
      && (bad == BadObject ==> ParseAll(Items(f) + unread) == (Made(f), Threw, unread))
      && (bad == Malformed ==> ParseAll(Items(f) + unread) == (Made(f), Broken, unread))
      && (bad == BrokenImage ==> ParseAll(Items(f) + unread) == (Made(f), if os == [] then Broken else Threw, unread))
      && (bad.Image? && os != [] ==> ParseAll(Items(f) + unread) == (Made(f), Threw, unread))
      && (bad.Command? && CreateOperator(bad.name, os) == None ==>
            ParseAll(Items(f) + unread) == (Made(f), Threw, unread))
    ensures ParseAll(Items(f) + Operands(os)) == (Made(f), End, Operands(os))
  {
    hide CreateOperator, MadeLabel, ParseOp, Makes, LabelItems, Operands, ParseKids;
    match f
    case Empty =>
      StopsHere(os, bad, rest);
      assert Items(Empty) + (Operands(os) + ([bad] + rest)) == Operands(os) + ([bad] + rest);
      assert Items(Empty) + Operands(os) == Operands(os);
    case Tree(l, k, s) =>
      var unread := Operands(os) + ([bad] + rest);
      ItemsTree(l, k, s, unread);
      ItemsTree(l, k, s, Operands(os));
      MadeTree(l, k, s);
      ParseFlattenedOp(l, k, Items(s) + unread);
      ParseFlattenedOp(l, k, Items(s) + Operands(os));
      ParseStops(s, os, bad, rest);
  }

  lemma MadeTree(l: Label, k: Forest<Label>, s: Forest<Label>)
    requires Makeable(Tree(l, k, s))
    ensures Makeable(Single(l, k)) && Makeable(s) && Made(Tree(l, k, s)) == Tree(MadeLabel(l), Made(k), Made(s))
  {
    hide Makes, MadeLabel;
  }

  lemma StopsHere(os: seq<Obj>, bad: Item, rest: seq<Item>)
    ensures var r := ParseOp(Operands(os) + ([bad] + rest), []);
      && (bad == BadObject ==> r == Stopped(Threw))
      && (bad == Malformed ==> r == Stopped(Broken))
      && (bad == BrokenImage ==> r == Stopped(if os == [] then Broken else Threw))
      && (bad.Image? && os != [] ==> r == Stopped(Threw))
      && (bad.Command? && CreateOperator(bad.name, os) == None ==> r == Stopped(Threw))
    ensures ParseOp(Operands(os), []) == Stopped(End)
  {
    hide CreateOperator, Operands, ParseKids;
    ParseOperands(os, [], [bad] + rest);
    ParseOperands(os, [], []);
    assert Operands(os) + [] == Operands(os) && [] + os == os;
  }

  // ------------------------------------------------------------------------------------------
  // What parsing gives back on any input
  // ------------------------------------------------------------------------------------------

  /** Whatever is read, the operators read are well nested. */
  lemma {:induction false} ParsedOpNested(items: seq<Item>, operands: seq<Obj>)
    requires ParseOp(items, operands).Got?
    ensures var r := ParseOp(items, operands); WellNested(Single(r.op, r.kids))
    decreases |items|, 0
  {
    hide CreateOperator, FindOp;
    match items[0]
    case Operand(o) => ParsedOpNested(items[1..], operands + [o]);
    case Command(name) =>
      OperandsUsedUp(name, operands);
      CreateTwice(name, operands);
      var l := CreateOperator(name, operands).value;
      if l.Composite? {
        ParsedKidsNested(items[1..], l.endTag);
      }
    case _ =>
  }

  lemma {:induction false} ParsedKidsNested(items: seq<Item>, endTag: string)
    requires ParseKids(items, endTag).GotKids?
    ensures var k := ParseKids(items, endTag).kids; WellNested(k) && EndsWith(k, endTag)
    decreases |items|, 1
  {
    hide CreateOperator;
    ParsedOpNested(items, []);
    var r := ParseOp(items, []);
    if r.op.OperatorName() != endTag {
      ParsedKidsNested(r.rest, endTag);
    }
  }

  lemma {:induction false} ParsedNested(items: seq<Item>)
    ensures WellNested(ParseAll(items).0)
    decreases |items|
  {
    hide CreateOperator;
    var r := ParseOp(items, []);
    if r.Got? {
      ParsedOpNested(items, []);
      ParsedNested(r.rest);
    }
  }

  /** Parsing undoes flattening on exactly the well-nested forests. */
  lemma ParseUndoesFlatten(f: Forest<Label>)
    ensures ParseAll(Items(f)) == (f, End, []) <==> WellNested(f)
    ensures ParseAll(Items(f)).0 == f <==> WellNested(f)
  {
    ParsedNested(Items(f));
    if WellNested(f) {
      WellNestedIsMade(f);
      ParseFlattened(f);
    }
  }

  /** The same item, up to an integer operand that became the equal real. */
  predicate SameItem(a: Item, b: Item) {
    a == b || (a.Operand? && b.Operand? && SameNumber(a.o, b.o))
  }

  predicate SameItems(a: seq<Item>, b: seq<Item>) {
    |a| == |b| && forall i :: 0 <= i < |a| ==> SameItem(a[i], b[i])
  }

  lemma SameAppend(a: seq<Item>, b: seq<Item>, c: seq<Item>, d: seq<Item>)
    requires SameItems(a, b) && SameItems(c, d)
    ensures SameItems(a + c, b + d)
  {
  }

  lemma {:induction false} OperandItems(os: seq<Obj>)
    ensures |Operands(os)| == |os| && forall i :: 0 <= i < |os| ==> Operands(os)[i] == Operand(os[i])
  {
    if os != [] {
      OperandItems(os[1..]);
    }
  }

  /** The part of s that is gone once only rest is left. */
  function Consumed<T>(s: seq<T>, rest: seq<T>): seq<T>
    requires |rest| <= |s|
  {
    s[..|s| - |rest|]
  }

  /** What is consumed with one more item in front. */
  lemma ConsumedFront(items: seq<Item>, rest: seq<Item>)
    requires items != [] && |rest| < |items| && rest == items[1..][|items[1..]| - |rest|..]
    ensures rest == items[|items| - |rest|..]
    ensures Consumed(items, rest) == [items[0]] + Consumed(items[1..], rest)
  {
  }

  lemma OperandInFront(os: seq<Obj>, o: Obj, used: seq<Item>)
    ensures Operands(os) + ([Operand(o)] + used) == Operands(os + [o]) + used
  {
    OperandItems(os);
    OperandItems(os + [o]);
    hide Operands;
    assert Operands(os + [o]) == Operands(os) + [Operand(o)];
  }

  lemma CommandInFront(os: seq<Obj>, c: Item, l: Label, used: seq<Item>, kids: seq<Item>)
    requires SameItems(Operands(os) + [c], LabelItems(l)) && SameItems(used, kids)
    ensures SameItems(Operands(os) + ([c] + used), LabelItems(l) + kids)
  {
    hide Operands, LabelItems, SameItems;
    SameAppend(Operands(os) + [c], LabelItems(l), used, kids);
    assert Operands(os) + ([c] + used) == (Operands(os) + [c]) + used;
  }

  lemma NothingConsumed(items: seq<Item>)
    ensures Consumed(items, items) == [] && SameItems(Consumed(items, items), Items(Empty))
  {
  }

  lemma {:induction false} ParsedOpConsumes(items: seq<Item>, operands: seq<Obj>)
    requires ParseOp(items, operands).Got?
    ensures var r := ParseOp(items, operands);
      && |r.rest| <= |items| && r.rest == items[|items| - |r.rest|..]
      && SameItems(Operands(operands) + Consumed(items, r.rest), LabelItems(r.op) + Items(r.kids))
    decreases |items|, 0
  {
    hide CreateOperator, FindOp, Operands, Consumed, SameItems, LabelItems, Items, ParseKids;
    var r := ParseOp(items, operands);
    match items[0]
    case Operand(o) =>
      ParsedOpConsumes(items[1..], operands + [o]);
      ConsumedFront(items, r.rest);
      OperandInFront(operands, o, Consumed(items[1..], r.rest));
    case Command(name) =>
      CommandConsumes(name, operands);
      NothingConsumed(items[1..]);
      if r.op.Composite? {
        ParsedKidsConsume(items[1..], r.op.endTag);
      }
      ConsumedFront(items, r.rest);
      CommandInFront(operands, items[0], r.op, Consumed(items[1..], r.rest), Items(r.kids));
    case Image(_, _) =>
      ImageConsumed(items, r.op);
    case _ =>
  }

  lemma ImageConsumed(items: seq<Item>, l: Label)
    requires items != [] && items[0].Image? && l == InlineImage(items[0].entries, items[0].bytes)
    ensures items[1..] == items[|items| - |items[1..]|..]
    ensures SameItems(Operands([]) + Consumed(items, items[1..]), LabelItems(l) + Items(Empty))
  {
    assert Consumed(items, items[1..]) == [items[0]];
  }

  lemma CommandConsumes(name: string, operands: seq<Obj>)
    requires CreateOperator(name, operands).Some?
    ensures SameItems(Operands(operands) + [Command(name)], LabelItems(CreateOperator(name, operands).value))
  {
    hide FindOp;
    OperandsUsedUp(name, operands);
    OperandItems(operands);
    var l := CreateOperator(name, operands).value;
    if l.Simple? {
      OperandItems(l.operands);
      if FindOp(name).Some? {
        FixKeepsValues(FindOp(name).value, 0, operands);
      }
    }
  }

  lemma ConsumedInSteps<T>(s: seq<T>, mid: seq<T>, rest: seq<T>)
    requires |rest| <= |mid| <= |s| && mid == s[|s| - |mid|..] && rest == mid[|mid| - |rest|..]
    ensures rest == s[|s| - |rest|..]
    ensures Consumed(s, rest) == Consumed(s, mid) + Consumed(mid, rest)
  {
  }

  lemma ItemsSingle(l: Label, k: Forest<Label>)
    ensures Items(Single(l, k)) == LabelItems(l) + Items(k)
  {
    hide LabelItems;
    assert Items(Empty) == [];
  }

  lemma {:induction false} ParsedKidsConsume(items: seq<Item>, endTag: string)
    requires ParseKids(items, endTag).GotKids?
    ensures var r := ParseKids(items, endTag);
      r.rest == items[|items| - |r.rest|..] && SameItems(Consumed(items, r.rest), Items(r.kids))
    decreases |items|, 1
  {
    hide CreateOperator, ParseOp, SameItems, Consumed, LabelItems, Operands;
    ParsedOpConsumes(items, []);
    var r := ParseOp(items, []);
    NoOperands(Consumed(items, r.rest));
    if r.op.OperatorName() == endTag {
      ItemsSingle(r.op, r.kids);
    } else {
      ParsedKidsConsume(r.rest, endTag);
      var more := ParseKids(r.rest, endTag);
      ConsumedInSteps(items, r.rest, more.rest);
      SameAppend(Consumed(items, r.rest), LabelItems(r.op) + Items(r.kids),
                 Consumed(r.rest, more.rest), Items(more.kids));
    }
  }

  lemma NoOperands(items: seq<Item>)
    ensures Operands([]) + items == items
  {
  }

  /** On any input, the items of the operators read are the items consumed; reading stops at the first
      operator that cannot be completed, and a regular end leaves only operands without an operator. */
  lemma {:induction false} ParseReadsPrefix(items: seq<Item>)
    ensures var (f, why, unread) := ParseAll(items);
      && |unread| <= |items| && unread == items[|items| - |unread|..]
      && SameItems(Consumed(items, unread), Items(f))
      && ParseOp(unread, []) == Stopped(why)
      && (why == End ==> forall i :: 0 <= i < |unread| ==> unread[i].Operand?)
    decreases |items|
  {
    hide CreateOperator, ParseOp, SameItems, LabelItems, Operands, ParseKids;
    var r := ParseOp(items, []);
    if r.Got? {
      hide Consumed;
      ParsedOpConsumes(items, []);
      NoOperands(Consumed(items, r.rest));
      ParseReadsPrefix(r.rest);
      var (f, why, unread) := ParseAll(r.rest);
      ConsumedInSteps(items, r.rest, unread);
      SameAppend(Consumed(items, r.rest), LabelItems(r.op) + Items(r.kids), Consumed(r.rest, unread), Items(f));
    } else {
      NothingConsumed(items);
      assert items[0..] == items;
      if r.why == End {
        EndLeavesOperands(items, []);
      }
    }
  }

  lemma {:induction false} EndLeavesOperands(items: seq<Item>, operands: seq<Obj>)
    requires ParseOp(items, operands) == Stopped(End)
    ensures forall i :: 0 <= i < |items| ==> items[i].Operand?
    decreases |items|
  {
    hide CreateOperator;
    if items != [] && items[0].Operand? {
      EndLeavesOperands(items[1..], operands + [items[0].o]);
      assert forall i :: 1 <= i < |items| ==> items[i] == items[1..][i - 1];
    } else if items != [] && items[0].Command? {
      KidsNeverEnd(items[1..]);
    }
  }

  lemma KidsNeverEnd(items: seq<Item>)
    ensures forall endTag :: ParseKids(items, endTag) != NoKids(End)
  {
    forall endTag ensures ParseKids(items, endTag) != NoKids(End) {
      KidsStop(items, endTag);
    }
  }

  lemma {:induction false} KidsStop(items: seq<Item>, endTag: string)
    ensures ParseKids(items, endTag) != NoKids(End)
    decreases |items|
  {
    hide CreateOperator;
    var r := ParseOp(items, []);
    if r.Got? && r.op.OperatorName() != endTag {
      KidsStop(r.rest, endTag);
    }
  }
}
