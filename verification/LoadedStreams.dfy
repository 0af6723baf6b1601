/** Streams loaded from bytes: what the lexer and the parsers can deliver, and which loaded streams can be
    saved and loaded again. */
module LoadedStreams {
  import opened Options
  import opened Forests
  import opened PdfObjects
  import opened PdfOperators
  import opened OperatorTable
  import opened ObjectText
  import opened Lexer
  import opened TokenText
  import opened NameReading
  import opened StreamGrammar
  import opened ObjectReader
  import opened ObjectRoundTrip
  import opened InlineImages
  import opened StreamRoundTrip
  import opened ContentStream

  // ------------------------------------------------------------------------------------------
  // Characters
  // ------------------------------------------------------------------------------------------

  predicate ByteInput(inp: Input) {
    Bytes(inp.cur) && forall i :: 0 <= i < |inp.ctx.more| ==> Bytes(inp.ctx.more[i])
  }

  lemma {:induction false} GetByte(inp: Input)
    requires ByteInput(inp) && GetChar(inp).Some?
    ensures var (c, rest) := GetChar(inp).value; c as int < 256 && ByteInput(rest)
    decreases |inp.ctx.more|
  {
    if inp.cur == "" {
      GetByte(Input(inp.ctx.more[0], inp.ctx.(more := inp.ctx.more[1..])));
    }
  }

  lemma SkipByte(inp: Input)
    requires ByteInput(inp) && LookChar(inp).Some?
    ensures ByteInput(Skip(inp)) && LookChar(inp).value as int < 256
  {
  }

  lemma {:induction false} SkippedBytes(inp: Input, comment: bool)
    requires ByteInput(inp) && SkipSpace(inp, comment).Some?
    ensures var (c, rest) := SkipSpace(inp, comment).value;
      c as int < 256 && ByteInput(rest) && !IsSpace(c) && (!comment ==> c != '%')
    decreases Size(inp)
  {
    hide ByteInput, IsSpace, GetChar;
    GetByte(inp);
    var (c, next) := GetChar(inp).value;
    if comment {
      SkippedBytes(next, !(c == '\r' || c == '\n'));
      PercentSkipped(next, !(c == '\r' || c == '\n'));
    } else if c == '%' {
      SkippedBytes(next, true);
      PercentSkipped(next, true);
    } else if IsSpace(c) {
      SkippedBytes(next, false);
    }
  }

  /** A comment sign never comes through. */
  lemma {:induction false} PercentSkipped(inp: Input, comment: bool)
    requires SkipSpace(inp, comment).Some?
    ensures SkipSpace(inp, comment).value.0 != '%'
    decreases Size(inp)
  {
    hide IsSpace, GetChar;
    var (c, next) := GetChar(inp).value;
    if comment {
      PercentSkipped(next, !(c == '\r' || c == '\n'));
    } else if c == '%' {
      PercentSkipped(next, true);
    } else if IsSpace(c) {
      PercentSkipped(next, false);
    }
  }

  // ------------------------------------------------------------------------------------------
  // Tokens
  // ------------------------------------------------------------------------------------------

  lemma WrapFits(n: int)
    ensures FitsInt(Wrap32(n))
  {
  }

  lemma {:induction false} DigitsFit(inp: Input, xi: int)
    requires ByteInput(inp) && FitsInt(xi)
    ensures FitsInt(Digits(inp, xi).0) && ByteInput(Digits(inp, xi).2)
    decreases Size(inp)
  {
    hide ByteInput, Wrap32, FitsInt;
    if LookChar(inp).Some? {
      SkipByte(inp);
      var c := LookChar(inp).value;
      if IsDigit(c) {
        WrapFits(xi * 10 + DigitValue(c));
        DigitsFit(Skip(inp), Wrap32(xi * 10 + DigitValue(c)));
      }
    }
  }

  lemma {:induction false} FractionLeaves(inp: Input, xf: real, scale: real)
    requires ByteInput(inp)
    ensures ByteInput(Fraction(inp, xf, scale).1)
    decreases Size(inp)
  {
    hide ByteInput, AddDigit;
    if LookChar(inp).Some? {
      SkipByte(inp);
      var c := LookChar(inp).value;
      if c == '-' {
        FractionLeaves(Skip(inp), xf, scale);
      } else if IsDigit(c) {
        FractionLeaves(Skip(inp), AddDigit(xf, scale, DigitValue(c) as real), scale / 10.0);
      }
    }
  }

  lemma {:induction false} OctalLeaves(inp: Input, value: nat, more: nat)
    requires ByteInput(inp)
    ensures var (c, rest) := Octal(inp, value, more); c as int < 256 && ByteInput(rest)
    decreases more
  {
    hide ByteInput;
    if more > 0 && IsOctal(LookChar(inp)) {
      SkipByte(inp);
      OctalLeaves(Skip(inp), value * 8 + DigitValue(LookChar(inp).value), more - 1);
    }
  }

  lemma OneByte(c: char)
    requires c as int < 256
    ensures Bytes([c])
  {
  }

  lemma {:induction false} LiteralBytes(inp: Input, depth: nat)
    requires ByteInput(inp) && depth > 0
    ensures Bytes(Literal(inp, depth).0) && ByteInput(Literal(inp, depth).1)
    decreases Size(inp), 1
  {
    hide ByteInput, LiteralEscape, GetChar;
    if GetChar(inp).Some? {
      GetByte(inp);
      var (c, next) := GetChar(inp).value;
      OneByte(c);
      if c == '(' {
        LiteralBytes(next, depth + 1);
      } else if c == ')' {
        if depth > 1 {
          LiteralBytes(next, depth - 1);
        }
      } else if c == '\\' {
        LiteralEscapeBytes(next, depth);
      } else {
        LiteralBytes(next, depth);
      }
    }
  }

  lemma {:induction false} LiteralEscapeBytes(inp: Input, depth: nat)
    requires ByteInput(inp) && depth > 0
    ensures Bytes(LiteralEscape(inp, depth).0) && ByteInput(LiteralEscape(inp, depth).1)
    decreases Size(inp), 0
  {
    hide ByteInput, Literal, GetChar, Octal;
    if GetChar(inp).Some? {
      GetByte(inp);
      var (c, next) := GetChar(inp).value;
      OneByte(c);
      LiteralBytes(next, depth);
      if '0' <= c <= '7' {
        OctalLeaves(next, DigitValue(c), 2);
        LiteralBytes(Octal(next, DigitValue(c), 2).1, depth);
      } else if c == '\r' && LookChar(next) == Some('\n') {
        SkipByte(next);
        LiteralBytes(Skip(next), depth);
      }
    }
  }

  lemma {:induction false} HexYieldsBytes(inp: Input, high: Option<nat>)
    requires ByteInput(inp)
    ensures Bytes(Hex(inp, high).0) && ByteInput(Hex(inp, high).1)
    decreases Size(inp)
  {
    hide ByteInput, GetChar;
    if GetChar(inp).Some? {
      GetByte(inp);
      var (c, next) := GetChar(inp).value;
      if c != '>' {
        if IsSpace(c) {
          HexYieldsBytes(next, high);
        } else {
          var d := if HexValue(c).Some? then HexValue(c).value else 0;
          HexYieldsBytes(next, if high.Some? then None else Some(d));
        }
      }
    }
  }

  lemma {:induction false} WordIsPlain(inp: Input, n: nat)
    requires ByteInput(inp) && n < TOKEN_LIMIT
    ensures var (w, rest) := Word(inp, n);
      && n + |w| < TOKEN_LIMIT && (forall i :: 0 <= i < |w| ==> !IsSpecial(w[i])) && ByteInput(rest)
    decreases Size(inp)
  {
    hide ByteInput, IsSpecial;
    if LookChar(inp).Some? && !IsSpecial(LookChar(inp).value) {
      SkipByte(inp);
      if n + 1 < TOKEN_LIMIT {
        WordIsPlain(Skip(inp), n + 1);
      }
    }
  }

  lemma NameUnitByte(inp: Input)
    requires ByteInput(inp) && LookChar(inp).Some?
    ensures NameUnit(inp).0 as int < 256 && ByteInput(NameUnit(inp).1)
  {
    hide ByteInput, GetChar;
    SkipByte(inp);
    var next := Skip(inp);
    if LookChar(next).Some? {
      SkipByte(next);
      if GetChar(Skip(next)).Some? {
        GetByte(Skip(next));
      }
    }
  }

  lemma {:induction false} NameBytes(inp: Input, n: nat)
    requires ByteInput(inp)
    ensures Bytes(NameWord(inp, n).0) && ByteInput(NameWord(inp, n).1)
    decreases Size(inp)
  {
    hide ByteInput, IsSpecial, NameUnit;
    if LookChar(inp).Some? && !IsSpecial(LookChar(inp).value) {
      NameUnitByte(inp);
      NameBytes(NameUnit(inp).1, n + 1);
    }
  }

  /** What the lexer can deliver. */
  predicate Lexed(t: Token) {
    match t
    case TInt(i) => FitsInt(i)
    case TStr(s) => Bytes(s)
    case TName(n) => Bytes(n) && forall i :: 0 <= i < |n| ==> n[i] as int != 0
    case TCmd(c) => c == "[" || c == "<<" || c == "BI" || CommandWord(c)
    case TData(bytes) => NoEI(bytes)
    case _ => true
  }

  lemma WordTokenLexed(c: char, w: string)
    requires !IsSpecial(c) && !IsDigit(c) && c != '-' && c != '.'
    requires 1 + |w| < TOKEN_LIMIT && forall i :: 0 <= i < |w| ==> !IsSpecial(w[i])
    ensures Lexed(WordToken([c] + w))
  {
    hide IsSpecial;
    assert PlainWord([c] + w);
  }

  lemma NameTokenLexed(n: string)
    requires Bytes(n)
    ensures Lexed(TName(CString(n)))
  {
    CStringNoNul(n);
  }

  lemma NumberLexed(c: char, inp: Input)
    requires ByteInput(inp) && (IsDigit(c) || c == '-' || c == '.')
    ensures Lexed(NumberToken(c, inp).0) && ByteInput(NumberToken(c, inp).1)
  {
    hide ByteInput, Digits, Fraction, Wrap32;
    if c == '.' {
      FractionLeaves(inp, 0.0, 0.1);
    } else {
      var first := if c == '-' then 0 else DigitValue(c);
      DigitsFit(inp, first);
      var (xi, point, rest) := Digits(inp, first);
      WrapFits(-xi);
      FractionLeaves(rest, xi as real, 0.1);
    }
  }

  lemma TokenLexed(c: char, inp: Input)
    requires ByteInput(inp) && c as int < 256 && !IsSpace(c) && c != '%'
    ensures Lexed(TokenAt(c, inp).0) && ByteInput(TokenAt(c, inp).1)
  {
    hide ByteInput, NumberToken, Literal, NameWord, Hex, Word, WordToken, CString, PlainWord, Bytes, FitsInt;
    NumberOrNot(c, inp);
    LiteralBytes(inp, 1);
    NameBytes(inp, 0);
    NameTokenLexed(NameWord(inp, 0).0);
    HexYieldsBytes(inp, None);
    WordIsPlain(inp, 1);
    if !IsSpecial(c) && !IsDigit(c) && c != '-' && c != '.' {
      WordTokenLexed(c, Word(inp, 1).0);
    }
    if LookChar(inp).Some? {
      SkipByte(inp);
    }
  }

  lemma NumberOrNot(c: char, inp: Input)
    requires ByteInput(inp)
    ensures IsDigit(c) || c == '-' || c == '.' ==> Lexed(NumberToken(c, inp).0) && ByteInput(NumberToken(c, inp).1)
  {
    if IsDigit(c) || c == '-' || c == '.' {
      NumberLexed(c, inp);
    }
  }

  lemma {:induction false} BehindData(s: string)
    requires Bytes(s)
    ensures Bytes(UpToEI(s).1)
  {
    if |s| >= 2 && !(s[0] == 'E' && s[1] == 'I') {
      BehindData(s[1..]);
    }
  }

  lemma DataLexed(inp: Input)
    requires ByteInput(inp)
    ensures Lexed(TData(ImageData(inp).0)) && ByteInput(ImageData(inp).1)
  {
    hide UpToEI, GetChar, NoEI;
    var first := if GetChar(inp) == None then inp else GetChar(inp).value.1;
    if GetChar(inp).Some? {
      GetByte(inp);
    }
    DataHasNoEI(first.cur);
    BehindData(first.cur);
  }

  lemma ByteContext(inp: Input, image: bool)
    requires ByteInput(inp)
    ensures ByteInput(inp.(ctx := inp.ctx.(image := image)))
  {
  }

  predicate AllLexed(toks: seq<Token>) {
    forall i :: 0 <= i < |toks| ==> Lexed(toks[i])
  }

  lemma {:induction false} TokensLexed(inp: Input)
    requires ByteInput(inp)
    ensures AllLexed(Tokens(inp))
    decreases Size(inp)
  {
    hide ByteInput, Lexed, TokenAt, SkipSpace, ImageData;
    if SkipSpace(inp, false).Some? {
      SkippedBytes(inp, false);
      var (c, next) := SkipSpace(inp, false).value;
      TokenLexed(c, next);
      var (t, rest) := TokenAt(c, next);
      if t == TCmd("BI") {
        ByteContext(rest, true);
        TokensLexed(rest.(ctx := rest.ctx.(image := true)));
      } else if t == TCmd("ID") && rest.ctx.image {
        DataLexed(rest);
        TokensLexed(ImageData(rest).1);
      } else {
        TokensLexed(rest);
      }
    }
  }

  // ------------------------------------------------------------------------------------------
  // Objects and operators
  // ------------------------------------------------------------------------------------------

  /** What the object parser can deliver: readable but for reals out of range and names that are not plain. */
  predicate LoadedObj(o: Obj) {
    match o
    case Int(i) => FitsInt(i)
    case Str(s) => Bytes(s)
    case Ref(num, gen) => FitsInt(num) && FitsInt(gen)
    case Array(items) => LoadedItems(items)
    case Dict(entries) => UniqueKeys(entries) && LoadedEntries(entries)
    case _ => true
  }

  predicate LoadedItems(items: seq<Obj>) {
    forall i :: 0 <= i < |items| ==> LoadedObj(items[i])
  }

  predicate LoadedEntries(entries: seq<Entry>) {
    forall i :: 0 <= i < |entries| ==> LoadedObj(entries[i].value)
  }

  lemma RestLexed(toks: seq<Token>, n: nat)
    requires AllLexed(toks) && n <= |toks|
    ensures AllLexed(toks[n..]) && (n < |toks| ==> Lexed(toks[n]))
  {
  }

  lemma {:induction false} ObjLoaded(toks: seq<Token>)
    requires toks != [] && AllLexed(toks)
    ensures var (r, rest) := GetObj(toks);
      AllLexed(rest) && (r.Good? ==> LoadedObj(r.o)) && (r.Cmd? ==> r.c == "BI" || CommandWord(r.c))
    decreases |toks|, 0
  {
    RestLexed(toks, 0);
    RestLexed(toks, 1);
    if |toks| >= 3 {
      RestLexed(toks, 3);
      assert Lexed(toks[1]);
    }
    if toks[0] == TCmd("[") {
      NothingLoaded();
      ArrayLoaded(toks[1..], [], true);
    } else if toks[0] == TCmd("<<") {
      NothingLoaded();
      DictLoaded(toks[1..], [], true);
    }
    hide GetArray, GetDict, AllLexed, CommandWord, LoadedItems, LoadedEntries, Bytes, FitsInt;
  }

  lemma NothingLoaded()
    ensures LoadedItems([]) && LoadedEntries([])
  {
  }

  lemma {:induction false} ArrayLoaded(toks: seq<Token>, items: seq<Obj>, ok: bool)
    requires AllLexed(toks) && LoadedItems(items)
    ensures var (r, rest) := GetArray(toks, items, ok);
      AllLexed(rest) && !r.Cmd? && (r.Good? ==> LoadedObj(r.o))
    decreases |toks|, 1
  {
    if toks != [] {
      RestLexed(toks, 1);
      hide GetObj, AllLexed, LoadedItems;
      if toks[0] != TCmd("]") {
        ObjLoaded(toks);
        var (r, rest) := GetObj(toks);
        if r.Good? {
          OneMoreItem(items, r.o);
          ArrayLoaded(rest, items + [r.o], ok);
        } else if !r.Failed? {
          ArrayLoaded(rest, items, false);
        }
      }
    }
  }

  lemma OneMoreItem(items: seq<Obj>, o: Obj)
    requires LoadedItems(items) && LoadedObj(o)
    ensures LoadedItems(items + [o])
  {
    hide LoadedObj;
  }

  lemma OneMoreEntry(entries: seq<Entry>, e: Entry)
    requires LoadedEntries(entries) && LoadedObj(e.value)
    ensures LoadedEntries(entries + [e])
  {
    hide LoadedObj;
  }

  lemma {:induction false} DictLoaded(toks: seq<Token>, entries: seq<Entry>, ok: bool)
    requires AllLexed(toks) && LoadedEntries(entries)
    ensures var (r, rest) := GetDict(toks, entries, ok);
      AllLexed(rest) && !r.Cmd? && (r.Good? ==> LoadedObj(r.o))
    decreases |toks|, 1
  {
    if toks != [] {
      RestLexed(toks, 1);
      if |toks| > 1 {
        RestLexed(toks, 2);
      }
      hide GetObj, AllLexed, LoadedEntries;
      if toks[0] != TCmd(">>") && toks[0].TName? && |toks| > 1 && toks[1] != TError {
        ObjLoaded(toks[1..]);
        var (r, rest) := GetObj(toks[1..]);
        if r.Good? {
          OneMoreEntry(entries, Entry(toks[0].n, r.o));
          DictLoaded(rest, entries + [Entry(toks[0].n, r.o)], ok);
        } else if !r.Failed? {
          DictLoaded(rest, entries, false);
        }
      }
    }
  }

  predicate LoadedImage(entries: seq<Entry>, bytes: string) {
    UniqueKeys(entries) && LoadedEntries(entries) && NoEI(bytes)
  }

  lemma {:induction false} ImageLoaded(toks: seq<Token>, entries: seq<Entry>, ok: bool)
    requires AllLexed(toks) && LoadedEntries(entries)
    ensures var (image, rest) := GetImage(toks, entries, ok);
      AllLexed(rest) && LoadedItem(image)
    decreases |toks|
  {
    RestLexed([], 0);
    if toks != [] {
      ObjLoaded(toks);
      hide GetObj, AllLexed, LoadedEntries, UniqueKeys, CommandWord, NoEI;
      var (r, rest) := GetObj(toks);
      if r == Cmd("ID") {
        if rest != [] {
          RestLexed(rest, 0);
          RestLexed(rest, 1);
        }
      } else if r.Failed? {
      } else if !(r.Good? && r.o.Name?) {
        ImageLoaded(rest, entries, ok);
      } else if rest != [] {
        ObjLoaded(rest);
        var (v, behind) := GetObj(rest);
        if v.Good? {
          OneMoreEntry(entries, Entry(r.o.n, v.o));
          ImageLoaded(behind, entries + [Entry(r.o.n, v.o)], ok);
        } else if !v.Failed? {
          ImageLoaded(behind, entries, false);
        }
      }
    }
  }

  /** What the content stream parser can be given. */
  predicate LoadedItem(i: Item) {
    match i
    case Operand(o) => LoadedObj(o)
    case Command(name) => CommandWord(name)
    case Image(entries, bytes) => LoadedImage(entries, bytes)
    case _ => true
  }

  predicate AllLoaded(items: seq<Item>) {
    forall i :: 0 <= i < |items| ==> LoadedItem(items[i])
  }

  lemma {:induction false} ItemsLoaded(toks: seq<Token>)
    requires AllLexed(toks)
    ensures AllLoaded(ReadItems(toks))
    decreases |toks|
  {
    hide GetObj, AllLexed, LoadedObj, CommandWord, GetImage, LoadedImage;
    if toks != [] {
      ObjLoaded(toks);
      var (r, rest) := GetObj(toks);
      if r == Cmd("BI") {
        NothingLoaded();
        ImageLoaded(rest, [], true);
        ItemsLoaded(GetImage(rest, [], true).1);
      } else {
        ItemsLoaded(rest);
      }
    }
  }

  predicate LoadedLabel(l: Label) {
    match l
    case Simple(name, operands) => CommandWord(name) && LoadedItems(operands)
    case Composite(begin, _) => CommandWord(begin)
    case InlineImage(entries, bytes) => LoadedImage(entries, bytes)
  }

  predicate LoadedForest(f: Forest<Label>) {
    match f
    case Empty => true
    case Tree(l, k, s) => LoadedLabel(l) && LoadedForest(k) && LoadedForest(s)
  }

  lemma {:induction false} FixedLoaded(spec: OpSpec, pos: nat, operands: seq<Obj>)
    requires FixOperands(spec, pos, operands).Some? && LoadedItems(operands)
    ensures LoadedItems(FixOperands(spec, pos, operands).value)
    decreases operands
  {
    if operands != [] {
      assert LoadedItems(operands[1..]) && LoadedObj(operands[0]);
      FixedLoaded(spec, pos + 1, operands[1..]);
    }
  }

  lemma MadeLoaded(name: string, operands: seq<Obj>)
    requires CreateOperator(name, operands).Some? && CommandWord(name) && LoadedItems(operands)
    ensures LoadedLabel(CreateOperator(name, operands).value)
  {
    OperandsUsedUp(name, operands);
    hide FindOp, LoadedItems, CommandWord, FixOperands;
    if FindOp(name).Some? {
      var spec := FindOp(name).value;
      if FixOperands(spec, 0, operands).Some? {
        FixedLoaded(spec, 0, operands);
      }
    }
  }

  lemma RestLoaded(items: seq<Item>)
    requires AllLoaded(items) && items != []
    ensures AllLoaded(items[1..]) && LoadedItem(items[0])
  {
  }

  lemma {:induction false} OpLoaded(items: seq<Item>, operands: seq<Obj>)
    requires AllLoaded(items) && LoadedItems(operands) && ParseOp(items, operands).Got?
    ensures var r := ParseOp(items, operands); LoadedLabel(r.op) && LoadedForest(r.kids) && AllLoaded(r.rest)
    decreases |items|, 0
  {
    hide CreateOperator, ParseKids, AllLoaded, LoadedItems, LoadedObj, LoadedLabel, CommandWord;
    RestLoaded(items);
    match items[0]
    case Operand(o) =>
      OneMoreItem(operands, o);
      OpLoaded(items[1..], operands + [o]);
    case Command(name) =>
      MadeLoaded(name, operands);
      var l := CreateOperator(name, operands).value;
      if l.Composite? {
        KidsLoaded(items[1..], l.endTag);
      }
    case Image(entries, bytes) => ImageLabelLoaded(entries, bytes);
    case _ =>
  }

  lemma ImageLabelLoaded(entries: seq<Entry>, bytes: string)
    ensures LoadedItem(Image(entries, bytes)) == LoadedLabel(InlineImage(entries, bytes))
  {
  }

  lemma {:induction false} KidsLoaded(items: seq<Item>, endTag: string)
    requires AllLoaded(items) && ParseKids(items, endTag).GotKids?
    ensures var r := ParseKids(items, endTag); LoadedForest(r.kids) && AllLoaded(r.rest)
    decreases |items|, 1
  {
    hide ParseOp, AllLoaded, LoadedLabel, LoadedItems;
    NothingLoaded();
    OpLoaded(items, []);
    var r := ParseOp(items, []);
    if r.op.OperatorName() != endTag {
      KidsLoaded(r.rest, endTag);
    }
  }

  lemma {:induction false} AllOpsLoaded(items: seq<Item>)
    requires AllLoaded(items)
    ensures LoadedForest(ParseAll(items).0)
    decreases |items|
  {
    hide ParseOp, AllLoaded, LoadedLabel, LoadedItems;
    NothingLoaded();
    var r := ParseOp(items, []);
    if r.Got? {
      OpLoaded(items, []);
      AllOpsLoaded(r.rest);
    }
  }

  // ------------------------------------------------------------------------------------------
  // Saving what was loaded
  // ------------------------------------------------------------------------------------------

  /** Reals in range and plain names all through an object. */
  predicate Resavable(o: Obj) {
    match o
    case Real(r) => ReadableReal(r)
    case Name(n) => PlainName(n)
    case Array(items) => ResavableItems(items)
    case Dict(entries) => ResavableEntries(entries)
    case _ => true
  }

  predicate ResavableItems(items: seq<Obj>) {
    items == [] || (Resavable(items[0]) && ResavableItems(items[1..]))
  }

  predicate ResavableEntries(entries: seq<Entry>) {
    entries == [] ||
    (PlainName(entries[0].key) && Resavable(entries[0].value) && ResavableEntries(entries[1..]))
  }

  /** Names plain, those of inline images also without codes, reals in range, and no operator named R behind two
      integers. */
  predicate ResavableForest(f: Forest<Label>) {
    match f
    case Empty => true
    case Tree(l, k, s) =>
      && (l.Simple? ==> ResavableItems(l.operands) && !HidesRef(l.name, l.operands))
      && (l.InlineImage? ==> ResavableEntries(l.entries) && RawKeys(l.entries))
      && ResavableForest(k) && ResavableForest(s)
  }

  lemma {:induction false} ReadableIsResavable(o: Obj)
    requires LoadedObj(o)
    ensures Readable(o) <==> Resavable(o)
    decreases o
  {
    hide PlainName, ReadableReal, Bytes, FitsInt, ReadableItems, ReadableEntries, ResavableItems, ResavableEntries,
         LoadedItems, LoadedEntries;
    match o
    case Array(items) => ReadableItemsAre(items);
    case Dict(entries) => ReadableEntriesAre(entries);
    case _ =>
  }

  lemma {:induction false} ReadableItemsAre(items: seq<Obj>)
    requires LoadedItems(items)
    ensures ReadableItems(items) <==> ResavableItems(items)
    decreases items
  {
    hide Readable, Resavable, LoadedObj;
    if items != [] {
      assert LoadedObj(items[0]) && LoadedItems(items[1..]);
      ReadableIsResavable(items[0]);
      ReadableItemsAre(items[1..]);
    }
  }

  lemma {:induction false} ReadableEntriesAre(entries: seq<Entry>)
    requires LoadedEntries(entries)
    ensures ReadableEntries(entries) <==> ResavableEntries(entries)
    decreases entries
  {
    hide Readable, Resavable, LoadedObj, PlainName;
    if entries != [] {
      assert LoadedObj(entries[0].value) && LoadedEntries(entries[1..]);
      ReadableIsResavable(entries[0].value);
      ReadableEntriesAre(entries[1..]);
    }
  }

  lemma {:induction false} PrintableIsResavable(f: Forest<Label>)
    requires LoadedForest(f)
    ensures Printable(f) <==> ResavableForest(f)
  {
    hide CommandWord, LoadedItems, ReadableItems, ResavableItems, HidesRef;
    match f
    case Empty =>
    case Tree(l, k, s) =>
      PrintableIsResavable(k);
      PrintableIsResavable(s);
      if l.Simple? {
        ReadableItemsAre(l.operands);
      } else if l.InlineImage? {
        ReadableEntriesAre(l.entries);
      }
  }

  /** Of any streams of bytes, the operators loaded are well nested, and printable exactly when their names
      are plain, those of inline images without codes, their reals in range, and no operator named R stands behind
      two integers. */
  lemma LoadedIsPrintable(streams: seq<string>)
    requires forall i :: 0 <= i < |streams| ==> Bytes(streams[i])
    ensures var f := ParseAll(StreamItems(streams)).0;
      WellNested(f) && (Printable(f) <==> ResavableForest(f))
  {
    hide ParseAll, ReadItems, Tokens, WellNested, Printable, ResavableForest, Bytes;
    var items := StreamItems(streams);
    ParsedNested(items);
    if streams != [] {
      TokensLexed(Input(streams[0], Context(streams[1..], false)));
      ItemsLoaded(Tokens(Input(streams[0], Context(streams[1..], false))));
    }
    AllOpsLoaded(items);
    PrintableIsResavable(ParseAll(items).0);
  }

  /** Load, save to as many streams, and load again: the same operators, operands in normal form. */
  lemma LoadSaveLoad(streams: seq<string>)
    requires streams != [] && forall i :: 0 <= i < |streams| ==> Bytes(streams[i])
    requires ResavableForest(ParseAll(StreamItems(streams)).0)
    ensures var f := ParseAll(StreamItems(streams)).0;
      Makeable(f) && ParseAll(StreamItems(Saved(|streams|, ForestText(f)))) == (Reloaded(f), End, [])
  {
    hide ParseAll, StreamItems, WellNested, Printable, ResavableForest, Makeable, ForestText, Bytes;
    LoadedIsPrintable(streams);
    SaveThenReload(ParseAll(StreamItems(streams)).0, |streams|);
  }
}
