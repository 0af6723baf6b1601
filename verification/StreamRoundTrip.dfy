/** Saving a content stream and reading it back: the printed operators, through lexer, object parser and
    operator parser. */
module StreamRoundTrip {
  import opened Options
  import opened Forests
  import opened PdfObjects
  import opened PdfOperators
  import opened OperatorTable
  import opened ObjectText
  import opened Lexer
  import opened TokenText
  import opened StreamGrammar
  import opened ObjectReader
  import opened ObjectSyntax
  import opened ObjectRoundTrip
  import opened InlineImages
  import opened ContentStream

  /** A word that is read as a command; a closing bracket or angles are commands outside of arrays and
      dictionaries. */
  predicate CommandWord(w: string) {
    || w == "]" || w == ">>"
    || (PlainWord(w) && w != "true" && w != "false" && w != "null" && w != "BI")
  }

  predicate ReadsAsInt(o: Obj) {
    Normal(o).Int?
  }

  /** Two integers in front of an operator named R would be read as a reference. */
  predicate HidesRef(name: string, operands: seq<Obj>) {
    && name == "R" && |operands| >= 2
    && ReadsAsInt(operands[|operands| - 2]) && ReadsAsInt(operands[|operands| - 1])
  }

  /** Operators whose text is read back as it was put together. */
  predicate PrintableLabel(l: Label) {
    match l
    case Simple(name, operands) => CommandWord(name) && ReadableItems(operands) && !HidesRef(name, operands)
    case Composite(begin, _) => CommandWord(begin)
    case InlineImage(entries, bytes) => ReadableHeader(entries) && NoEI(bytes)
  }

  predicate Printable(f: Forest<Label>) {
    match f
    case Empty => true
    case Tree(l, k, s) => PrintableLabel(l) && Printable(k) && Printable(s)
  }

  // ------------------------------------------------------------------------------------------
  // Tokens
  // ------------------------------------------------------------------------------------------

  function LabelToks(l: Label): seq<Token> {
    match l
    case Simple(name, operands) => ItemsToks(operands) + [TCmd(name)]
    case Composite(begin, _) => [TCmd(begin)]
    case InlineImage(entries, bytes) => [TCmd("BI")] + DataToks(entries, bytes)
  }

  function ForestToks(f: Forest<Label>): seq<Token> {
    match f
    case Empty => []
    case Tree(l, k, s) => LabelToks(l) + ForestToks(k) + ForestToks(s)
  }

  lemma {:induction false} OperandsRead(operands: seq<Obj>, tail: string, ctx: Context)
    requires ReadableItems(operands)
    ensures Tokens(Input(OperandsText(operands) + tail, ctx)) == ItemsToks(operands) + Tokens(Input(tail, ctx))
  {
    hide Tokens, ObjText, ObjToks, Readable;
    if operands == [] {
      assert OperandsText(operands) + tail == tail;
    } else {
      var behind := OperandsText(operands[1..]) + tail;
      assert OperandsText(operands) + tail == ObjText(operands[0]) + (" " + behind);
      ObjReads(operands[0], " " + behind, ctx);
      SpaceFirst(behind, ctx);
      OperandsRead(operands[1..], tail, ctx);
    }
  }

  lemma CommandReads(w: string, tail: string, ctx: Context)
    requires CommandWord(w) && !ctx.image
    ensures Tokens(Input(w + (" " + tail), ctx)) == [TCmd(w)] + Tokens(Input(tail, ctx))
  {
    hide Tokens;
    SpaceFirst(tail, ctx);
    if w == "]" {
      BracketReads(']', " " + tail, ctx);
    } else if w == ">>" {
      AnglesRead('>', " " + tail, ctx);
    } else {
      WordTokenReads(w, " " + tail, ctx);
    }
  }

  lemma SimpleReads(name: string, operands: seq<Obj>, tail: string, ctx: Context)
    requires CommandWord(name) && ReadableItems(operands) && !ctx.image
    ensures Tokens(Input(LabelText(Simple(name, operands)) + (" " + tail), ctx))
         == ItemsToks(operands) + [TCmd(name)] + Tokens(Input(tail, ctx))
  {
    hide Tokens, OperandsText, ReadableItems, CommandWord, ItemsToks;
    CommandReads(name, tail, ctx);
    OperandsRead(operands, name + (" " + tail), ctx);
    assert OperandsText(operands) + name + (" " + tail) == OperandsText(operands) + (name + (" " + tail));
  }

  lemma FourParts(a: string, b: string, c: string, d: string)
    ensures a + b + c + d == a + (b + (c + d))
  {
  }

  /** The text of a forest, taken apart again. */
  lemma {:induction false} ForestReads(f: Forest<Label>, tail: string, ctx: Context)
    requires Printable(f) && Makeable(f) && !ctx.image
    ensures Tokens(Input(ForestText(f) + tail, ctx)) == ForestToks(f) + Tokens(Input(tail, ctx))
    decreases f, 0
  {
    hide Tokens, LabelText, LabelToks, Makes, PrintableLabel;
    match f
    case Empty => assert ForestText(f) + tail == tail;
    case Tree(l, k, s) =>
      ForestReads(s, tail, ctx);
      TreeReads(l, k, ForestText(s) + tail, ctx);
      FourParts(LabelText(l) + ForestText(k), " ", ForestText(s), tail);
  }

  /** The text of one tree, taken apart again. */
  lemma {:induction false} TreeReads(l: Label, k: Forest<Label>, tail: string, ctx: Context)
    requires PrintableLabel(l) && Printable(k) && Makeable(k) && (l.Composite? || k == Empty) && !ctx.image
    ensures Tokens(Input(LabelText(l) + ForestText(k) + (" " + tail), ctx))
         == LabelToks(l) + ForestToks(k) + Tokens(Input(tail, ctx))
    decreases k, 1
  {
    hide Tokens, LabelText, Printable, Makeable, CommandWord, ReadableItems, HidesRef, ItemsToks, ReadableHeader, NoEI,
         DataToks;
    if k == Empty {
      NoKids(l);
    }
    match l
    case Simple(name, operands) => SimpleReads(name, operands, tail, ctx);
    case Composite(begin, _) =>
      ForestReads(k, " " + tail, ctx);
      SpaceFirst(tail, ctx);
      CompositeText(l);
      FourParts(begin, " ", ForestText(k), " " + tail);
      CommandReads(begin, ForestText(k) + (" " + tail), ctx);
    case InlineImage(entries, bytes) => WholeImageReads(entries, bytes, tail, ctx);
  }

  lemma NoKids(l: Label)
    ensures LabelText(l) + ForestText(Empty) == LabelText(l) && LabelToks(l) + ForestToks(Empty) == LabelToks(l)
  {
    assert ForestText(Empty) == "" && ForestToks(Empty) == [];
  }

  lemma WholeImageReads(entries: seq<Entry>, bytes: string, tail: string, ctx: Context)
    requires ReadableHeader(entries) && NoEI(bytes) && !ctx.image
    ensures Tokens(Input(LabelText(InlineImage(entries, bytes)) + (" " + tail), ctx))
         == [TCmd("BI")] + DataToks(entries, bytes) + Tokens(Input(tail, ctx))
  {
    hide Tokens, LabelText, ReadableHeader, NoEI, UpToEI, DataToks;
    ImageTokens(entries, bytes, " " + tail, ctx);
    DataReads(bytes, "\n" + (" " + tail));
    SpaceFirst(" " + tail, ctx);
    SpaceFirst(tail, ctx);
  }

  lemma CompositeText(l: Label)
    requires l.Composite?
    ensures LabelText(l) == l.begin + " "
  {
  }

  // ------------------------------------------------------------------------------------------
  // Items
  // ------------------------------------------------------------------------------------------

  /** Operands and image entries as they are read back, before the operator converts them. */
  function NormalLabel(l: Label): Label {
    match l
    case Simple(name, operands) => Simple(name, NormalItems(operands))
    case Composite(_, _) => l
    case InlineImage(entries, bytes) => InlineImage(NormalEntries(entries), bytes)
  }

  function NormalForest(f: Forest<Label>): Forest<Label> {
    match f
    case Empty => Empty
    case Tree(l, k, s) => Tree(NormalLabel(l), NormalForest(k), NormalForest(s))
  }

  lemma CommandParses(name: string, rest: seq<Token>)
    requires CommandWord(name)
    ensures ReadItems([TCmd(name)] + rest) == [Command(name)] + ReadItems(rest)
  {
    var toks := [TCmd(name)] + rest;
    assert toks[1..] == rest;
    assert name != "" && name[0] != '[' && name[0] != '<';
    assert GetObj(toks) == (Cmd(name), rest);
  }

  lemma OperandParses(o: Obj, rest: seq<Token>)
    requires Readable(o)
    requires ReadsAsInt(o) ==> !RefFollows(rest)
    ensures ReadItems(ObjToks(o) + rest) == [Operand(Normal(o))] + ReadItems(rest)
  {
    hide GetObj, ObjToks;
    ToksFront(o);
    ObjParses(o, rest);
  }

  /** No reference starts by accident in front of the other operands. */
  lemma NoRefBehind(name: string, operands: seq<Obj>, rest: seq<Token>)
    requires operands != [] && ReadsAsInt(operands[0]) && !HidesRef(name, operands)
    ensures !RefFollows(ItemsToks(operands[1..]) + ([TCmd(name)] + rest))
  {
    hide ItemsToks, ObjToks;
    var others, close := operands[1..], [TCmd(name)] + rest;
    ItemsToksFront(others, close);
    if others != [] {
      ToksFront(others[0]);
      IntToks(others[0]);
      ItemsToksFront(others[1..], close);
      if others[1..] != [] {
        ToksFront(others[1..][0]);
      }
    }
  }

  lemma IntToks(o: Obj)
    ensures |ObjToks(o)| == 1 && ObjToks(o)[0].TInt? ==> ReadsAsInt(o)
  {
    hide RereadStr;
    if o.Real? {
      RealOrInt(o.r);
    }
  }

  lemma {:induction false} SimpleParses(name: string, operands: seq<Obj>, rest: seq<Token>)
    requires CommandWord(name) && !HidesRef(name, operands) && ReadableItems(operands)
    ensures ReadItems(ItemsToks(operands) + ([TCmd(name)] + rest))
         == Operands(NormalItems(operands)) + [Command(name)] + ReadItems(rest)
  {
    hide ItemsToks, ReadItems, CommandWord, ReadsAsInt;
    ItemsToksFront(operands, [TCmd(name)] + rest);
    if operands == [] {
      CommandParses(name, rest);
    } else {
      if ReadsAsInt(operands[0]) {
        NoRefBehind(name, operands, rest);
      }
      OperandParses(operands[0], ItemsToks(operands[1..]) + ([TCmd(name)] + rest));
      SimpleParses(name, operands[1..], rest);
      NormalFront(operands);
    }
  }

  lemma NormalFront(operands: seq<Obj>)
    requires operands != []
    ensures Operands(NormalItems(operands)) == [Operand(Normal(operands[0]))] + Operands(NormalItems(operands[1..]))
  {
    hide Normal;
    assert NormalItems(operands)[1..] == NormalItems(operands[1..]);
  }

  lemma ToksOfTree(l: Label, k: Forest<Label>, s: Forest<Label>, rest: seq<Token>)
    ensures ForestToks(Tree(l, k, s)) + rest == LabelToks(l) + (ForestToks(k) + (ForestToks(s) + rest))
    ensures ForestToks(Empty) + rest == rest
  {
    var a, b, c := LabelToks(l), ForestToks(k), ForestToks(s);
    assert ForestToks(Tree(l, k, s)) == a + b + c && ForestToks(Empty) == [];
    hide *;
    Associate(a, b, c, rest);
  }

  lemma Associate<T>(a: seq<T>, b: seq<T>, c: seq<T>, d: seq<T>)
    ensures a + b + c + d == a + (b + (c + d))
    ensures [] + d == d
  {
  }

  lemma ItemsOfTree(l: Label, k: Forest<Label>, s: Forest<Label>, rest: seq<Item>)
    ensures Items(NormalForest(Tree(l, k, s))) + rest
         == LabelItems(NormalLabel(l)) + (Items(NormalForest(k)) + (Items(NormalForest(s)) + rest))
    ensures Items(NormalForest(Empty)) + rest == rest
  {
    var a, b, c := LabelItems(NormalLabel(l)), Items(NormalForest(k)), Items(NormalForest(s));
    assert Items(NormalForest(Tree(l, k, s))) == a + b + c && Items(NormalForest(Empty)) == [];
    hide *;
    Associate(a, b, c, rest);
  }

  lemma LabelParses(l: Label, rest: seq<Token>)
    requires PrintableLabel(l)
    ensures ReadItems(LabelToks(l) + rest) == LabelItems(NormalLabel(l)) + ReadItems(rest)
  {
    hide ItemsToks, ReadItems, CommandWord, HidesRef, Operands, NormalItems;
    match l
    case Simple(name, operands) =>
      SimpleParses(name, operands, rest);
      assert LabelToks(l) + rest == ItemsToks(operands) + ([TCmd(name)] + rest);
    case Composite(begin, _) => CommandParses(begin, rest);
    case InlineImage(entries, bytes) =>
      assert LabelToks(l) + rest == [TCmd("BI")] + (DataToks(entries, bytes) + rest);
      ImageParses(entries, bytes, rest);
  }

  lemma {:induction false} ForestParses(f: Forest<Label>, rest: seq<Token>)
    requires Printable(f)
    ensures ReadItems(ForestToks(f) + rest) == Items(NormalForest(f)) + ReadItems(rest)
  {
    hide ReadItems, PrintableLabel, ForestToks, Items, NormalForest, LabelToks, NormalLabel;
    match f
    case Empty =>
      ToksOfTree(Composite("", ""), f, f, rest);
      ItemsOfTree(Composite("", ""), f, f, ReadItems(rest));
    case Tree(l, k, s) =>
      ToksOfTree(l, k, s, rest);
      ItemsOfTree(l, k, s, ReadItems(rest));
      ForestParses(s, rest);
      ForestParses(k, ForestToks(s) + rest);
      LabelParses(l, ForestToks(k) + (ForestToks(s) + rest));
  }

  // ------------------------------------------------------------------------------------------
  // Operators
  // ------------------------------------------------------------------------------------------

  /** Kinds are kept, except that a real may come back as an integer. */
  lemma NormalKind(o: Obj)
    ensures KindOf(Normal(o)) == KindOf(o) || (KindOf(o) == KReal && KindOf(Normal(o)) == KInt)
  {
    hide RereadStr;
    if o.Real? {
      RealOrInt(o.r);
    }
  }

  /** Wherever the table allows a real it allows an integer. */
  lemma RealsMayBeInts(name: string, i: nat)
    requires FindOp(name).Some?
    ensures KReal in FindOp(name).value.Allows(i) ==> KInt in FindOp(name).value.Allows(i)
  {
    NumbersAreNumbers(1, i);
    NumbersAreNumbers(2, i);
    NumbersAreNumbers(3, i);
    NumbersAreNumbers(4, i);
    NumbersAreNumbers(6, i);
    hide Numbers;
  }

  lemma {:induction false} NumbersAreNumbers(n: nat, i: nat)
    ensures |Numbers(n)| == n && (i < n ==> Numbers(n)[i] == NUMBER)
  {
    if n > 0 && i > 0 {
      NumbersAreNumbers(n - 1, i - 1);
    } else if n > 0 {
      NumbersAreNumbers(n - 1, 0);
    }
  }

  lemma {:induction false} NormalFixes(spec: OpSpec, pos: nat, operands: seq<Obj>)
    requires FixOperands(spec, pos, operands).Some?
    requires forall i: nat :: KReal in spec.Allows(i) ==> KInt in spec.Allows(i)
    ensures FixOperands(spec, pos, NormalItems(operands)).Some?
    ensures |NormalItems(operands)| == |operands|
    decreases operands
  {
    hide Normal;
    if operands != [] {
      NormalKind(operands[0]);
      NormalFixes(spec, pos + 1, operands[1..]);
      var ns := NormalItems(operands);
      assert ns[1..] == NormalItems(operands[1..]);
      KindIsKept(spec.Allows(pos), operands[0]);
    }
  }

  lemma KindIsKept(allowed: set<Kind>, o: Obj)
    requires FixOperand(allowed, o).Some? && (KReal in allowed ==> KInt in allowed)
    ensures FixOperand(allowed, Normal(o)).Some?
  {
    hide Normal;
    NormalKind(o);
  }

  lemma {:induction false} NormalLength(operands: seq<Obj>)
    ensures |NormalItems(operands)| == |operands|
  {
    if operands != [] {
      NormalLength(operands[1..]);
    }
  }

  lemma NormalMakes(l: Label)
    requires Makes(l)
    ensures Makes(NormalLabel(l))
  {
    hide FindOp, Normal, FixOperands, NormalItems;
    if l.Simple? && FindOp(l.name).Some? {
      var spec := FindOp(l.name).value;
      forall i: nat ensures KReal in spec.Allows(i) ==> KInt in spec.Allows(i) {
        RealsMayBeInts(l.name, i);
      }
      NormalLength(l.operands);
      NormalFixes(spec, 0, l.operands);
    }
  }

  lemma {:induction false} NormalEnds(k: Forest<Label>, endTag: string)
    requires EndsWith(k, endTag)
    ensures EndsWith(NormalForest(k), endTag)
  {
    if k.rest != Empty {
      NormalEnds(k.rest, endTag);
    }
  }

  lemma {:induction false} NormalMakeable(f: Forest<Label>)
    requires Makeable(f)
    ensures Makeable(NormalForest(f))
  {
    hide Makes;
    match f
    case Empty =>
    case Tree(l, k, s) =>
      NormalMakes(l);
      if l.Composite? {
        NormalEnds(k, l.endTag);
      }
      NormalMakeable(k);
      NormalMakeable(s);
  }

  /** What comes back of a forest that is saved and read again: operands in normal form, converted to the
      types their operators take. */
  function Reloaded(f: Forest<Label>): Forest<Label>
    requires Makeable(f)
  {
    NormalMakeable(f);
    Made(NormalForest(f))
  }

  lemma {:induction false} EmptyStreams(n: nat)
    ensures Tokens(Input("", Context(seq(n, _ => ""), false))) == []
  {
    hide TokenAt;
    NoChar(seq(n, _ => ""));
  }

  lemma {:induction false} NoChar(more: seq<string>)
    requires forall i :: 0 <= i < |more| ==> more[i] == ""
    ensures GetChar(Input("", Context(more, false))) == None
    decreases |more|
  {
    if more != [] {
      NoChar(more[1..]);
    }
  }

  /** Saving to any number of streams and reading them back, for every printable, well-nested forest: the
      same operators in the same nesting, operands in normal form; nothing is left unread. */
  lemma SaveThenReload(f: Forest<Label>, n: nat)
    requires Printable(f) && WellNested(f) && n > 0
    ensures Makeable(f)
    ensures ParseAll(StreamItems(Saved(n, ForestText(f)))) == (Reloaded(f), End, [])
    ensures WellNested(Reloaded(f))
  {
    hide Tokens, ReadItems, ForestText, ForestToks, ParseAll, Items, Made;
    WellNestedIsMade(f);
    NormalMakeable(f);
    var streams := Saved(n, ForestText(f));
    var more := streams[1..];
    assert more == seq(n - 1, _ => "");
    EmptyStreams(n - 1);
    ForestReads(f, "", Context(more, false));
    assert ForestText(f) + "" == ForestText(f);
    ForestParses(f, []);
    NoItems();
    assert Items(NormalForest(f)) + [] == Items(NormalForest(f));
    assert ForestToks(f) + [] == ForestToks(f);
    ParseFlattened(NormalForest(f));
    ParsedNested(Items(NormalForest(f)));
  }

  lemma NoItems()
    ensures ReadItems([]) == []
  {
  }
}
