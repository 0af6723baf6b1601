/** Reading printed objects back: token by token, and through the object parser. */
module ObjectRoundTrip {
  import opened PdfObjects
  import opened ObjectText
  import opened Lexer
  import opened TokenText
  import opened NameReading
  import opened ObjectReader
  import opened ObjectSyntax

  // ------------------------------------------------------------------------------------------
  // Which objects come back, and as what
  // ------------------------------------------------------------------------------------------

  predicate FitsInt(i: int) {
    -0x8000_0000 <= i < 0x8000_0000
  }

  /** Objects whose text the lexer takes apart as it was put together: numbers in the range of the reader's
      32-bit accumulator, strings of bytes, plain names. */
  predicate Readable(o: Obj) {
    match o
    case Int(i) => FitsInt(i)
    case Real(r) => ReadableReal(r)
    case Str(s) => Bytes(s)
    case Name(n) => PlainName(n)
    case Ref(num, gen) => FitsInt(num) && FitsInt(gen)
    case Array(items) => ReadableItems(items)
    case Dict(entries) => UniqueKeys(entries) && ReadableEntries(entries)
    case _ => true
  }

  predicate ReadableItems(items: seq<Obj>) {
    items == [] || (Readable(items[0]) && ReadableItems(items[1..]))
  }

  predicate ReadableEntries(entries: seq<Entry>) {
    entries == [] ||
    (PlainName(entries[0].key) && Readable(entries[0].value) && ReadableEntries(entries[1..]))
  }

  /** What is read back: reals rounded, strings unescaped. */
  function Normal(o: Obj): Obj {
    match o
    case Real(r) => RereadReal(r)
    case Str(s) => Str(RereadStr(s))
    case Array(items) => Array(NormalItems(items))
    case Dict(entries) => Dict(NormalEntries(entries))
    case _ => o
  }

  function NormalItems(items: seq<Obj>): seq<Obj> {
    if items == [] then [] else [Normal(items[0])] + NormalItems(items[1..])
  }

  function NormalEntries(entries: seq<Entry>): seq<Entry> {
    if entries == [] then []
    else [Entry(entries[0].key, Normal(entries[0].value))] + NormalEntries(entries[1..])
  }

  function ObjToks(o: Obj): seq<Token> {
    match o
    case Null => [TNull]
    case Bool(b) => [TBool(b)]
    case Int(i) => [TInt(i)]
    case Real(r) => [RealTok(r)]
    case Str(s) => [TStr(RereadStr(s))]
    case Name(n) => [TName(n)]
    case Ref(num, gen) => [TInt(num), TInt(gen), TCmd("R")]
    case Array(items) => [TCmd("[")] + (ItemsToks(items) + [TCmd("]")])
    case Dict(entries) => [TCmd("<<")] + (EntriesToks(entries) + [TCmd(">>")])
  }

  function ItemsToks(items: seq<Obj>): seq<Token> {
    if items == [] then [] else ObjToks(items[0]) + ItemsToks(items[1..])
  }

  function EntriesToks(entries: seq<Entry>): seq<Token> {
    if entries == [] then []
    else [TName(entries[0].key)] + ObjToks(entries[0].value) + EntriesToks(entries[1..])
  }

  // ------------------------------------------------------------------------------------------
  // Tokens of printed objects
  // ------------------------------------------------------------------------------------------

  /** A word that is a command or a keyword of its own. */
  predicate PlainWord(w: string) {
    && 0 < |w| < TOKEN_LIMIT && (forall i :: 0 <= i < |w| ==> !IsSpecial(w[i]))
    && !IsDigit(w[0]) && w[0] != '-' && w[0] != '.'
  }

  lemma {:induction false} WordReads(w: string, tail: string, ctx: Context, k: nat)
    requires (forall i :: 0 <= i < |w| ==> !IsSpecial(w[i])) && k + |w| < TOKEN_LIMIT && Delimited(tail)
    ensures Word(Input(w + tail, ctx), k) == (w, Input(tail, ctx))
  {
    if w == "" {
      assert w + tail == tail;
    } else {
      assert (w + tail)[1..] == w[1..] + tail;
      WordReads(w[1..], tail, ctx, k + 1);
      assert w == [w[0]] + w[1..];
    }
  }

  lemma WordTokenReads(w: string, tail: string, ctx: Context)
    requires PlainWord(w) && Delimited(tail) && w != "BI" && !(w == "ID" && ctx.image)
    ensures Tokens(Input(w + tail, ctx)) == [WordToken(w)] + Tokens(Input(tail, ctx))
  {
    hide Tokens, Word, ImageData;
    WordReads(w[1..], tail, ctx, 1);
    assert w + tail == [w[0]] + (w[1..] + tail);
    FirstToken(w[0], w[1..] + tail, ctx);
    assert w == [w[0]] + w[1..];
  }

  lemma NameTokenReads(n: string, tail: string, ctx: Context)
    requires PlainName(n) && Delimited(tail)
    ensures Tokens(Input("/" + NameText(n) + tail, ctx)) == [TName(n)] + Tokens(Input(tail, ctx))
  {
    hide Tokens, NameWord, NameText, PlainChars, CString;
    DelimiterEndsName(tail);
    NameReads(n, tail, ctx, 0);
    PlainHasNoNul(n);
    NoNul(n);
    assert "/" + NameText(n) + tail == ['/'] + (NameText(n) + tail);
    FirstToken('/', NameText(n) + tail, ctx);
  }

  lemma KeywordReads(o: Obj, tail: string, ctx: Context)
    requires (o.Null? || o.Bool?) && Delimited(tail)
    ensures Tokens(Input(ObjText(o) + tail, ctx)) == ObjToks(o) + Tokens(Input(tail, ctx))
  {
    hide Tokens;
    WordTokenReads(ObjText(o), tail, ctx);
  }

  lemma SpaceFirst(text: string, ctx: Context)
    ensures Tokens(Input(" " + text, ctx)) == Tokens(Input(text, ctx))
    ensures Tokens(Input("\n" + text, ctx)) == Tokens(Input(text, ctx))
  {
    SpaceIsSkipped(' ', text, ctx);
    SpaceIsSkipped('\n', text, ctx);
  }

  lemma RefReads(num: int, gen: int, tail: string, ctx: Context)
    requires FitsInt(num) && FitsInt(gen) && Delimited(tail)
    ensures Tokens(Input(ObjText(Ref(num, gen)) + tail, ctx))
         == [TInt(num), TInt(gen), TCmd("R")] + Tokens(Input(tail, ctx))
  {
    hide Tokens, IntText;
    WordTokenReads("R", tail, ctx);
    SpaceFirst("R" + tail, ctx);
    IntReads(gen, " " + ("R" + tail), ctx);
    SpaceFirst(IntText(gen) + (" " + ("R" + tail)), ctx);
    IntReads(num, " " + (IntText(gen) + (" " + ("R" + tail))), ctx);
    assert ObjText(Ref(num, gen)) + tail == IntText(num) + (" " + (IntText(gen) + (" " + ("R" + tail))));
  }

  lemma BracketReads(c: char, tail: string, ctx: Context)
    requires c == '[' || c == ']'
    ensures Tokens(Input([c] + tail, ctx)) == [TCmd([c])] + Tokens(Input(tail, ctx))
  {
    hide Tokens;
    FirstToken(c, tail, ctx);
  }

  lemma AnglesRead(c: char, tail: string, ctx: Context)
    requires c == '<' || c == '>'
    ensures Tokens(Input([c, c] + tail, ctx)) == [TCmd([c, c])] + Tokens(Input(tail, ctx))
  {
    hide Tokens;
    assert [c, c] + tail == [c] + ([c] + tail);
    assert ([c] + tail)[1..] == tail;
    FirstToken(c, [c] + tail, ctx);
  }

  lemma ItemsDelimit(items: seq<Obj>, tail: string)
    requires Delimited(tail)
    ensures Delimited(ItemsText(items) + tail)
  {
    if items == [] {
      assert ItemsText(items) + tail == tail;
    }
  }

  lemma EntriesDelimit(entries: seq<Entry>, tail: string)
    requires Delimited(tail)
    ensures Delimited(EntriesText(entries) + tail)
  {
    if entries == [] {
      assert EntriesText(entries) + tail == tail;
    }
  }

  /** The text of a readable object, taken apart again. */
  lemma {:induction false} ObjReads(o: Obj, tail: string, ctx: Context)
    requires Readable(o) && Delimited(tail)
    ensures Tokens(Input(ObjText(o) + tail, ctx)) == ObjToks(o) + Tokens(Input(tail, ctx))
    decreases o
  {
    hide Tokens, ItemsText, EntriesText, ItemsToks, EntriesToks, IntText, RealText, StrText, NameText,
         ReadableItems, ReadableEntries, Delimited;
    match o
    case Int(i) => IntReads(i, tail, ctx);
    case Real(r) => RealReads(r, tail, ctx);
    case Str(s) => StrReads(s, tail, ctx);
    case Name(n) => NameTokenReads(n, tail, ctx);
    case Ref(num, gen) => RefReads(num, gen, tail, ctx);
    case Array(items) => ArrayReads(items, tail, ctx);
    case Dict(entries) => DictReads(entries, tail, ctx);
    case _ => KeywordReads(o, tail, ctx);
  }

  lemma {:induction false} ArrayReads(items: seq<Obj>, tail: string, ctx: Context)
    requires ReadableItems(items) && Delimited(tail)
    ensures Tokens(Input(ObjText(Array(items)) + tail, ctx)) == ObjToks(Array(items)) + Tokens(Input(tail, ctx))
    decreases items, 1
  {
    BracketsText(items, tail, Tokens(Input(tail, ctx)));
    hide *;
    BracketReads('[', ItemsText(items) + (" " + ("]" + tail)), ctx);
    SpaceDelimits("]" + tail);
    ItemsRead(items, " " + ("]" + tail), ctx);
    SpaceFirst("]" + tail, ctx);
    BracketReads(']', tail, ctx);
  }

  lemma BracketsText(items: seq<Obj>, tail: string, rest: seq<Token>)
    ensures ObjText(Array(items)) + tail == ['['] + (ItemsText(items) + (" " + ("]" + tail)))
    ensures ObjToks(Array(items)) + rest == [TCmd("[")] + (ItemsToks(items) + ([TCmd("]")] + rest))
    ensures "]" + tail == [']'] + tail
  {
    hide ItemsText, ItemsToks;
    Enclosed("[", ItemsText(items), " ]", " ", "]", tail);
    Enclosed([TCmd("[")], ItemsToks(items), [TCmd("]")], [], [TCmd("]")], rest);
    NothingInFront([TCmd("]")] + rest);
  }

  lemma Enclosed<T>(a: seq<T>, b: seq<T>, c: seq<T>, d: seq<T>, e: seq<T>, rest: seq<T>)
    requires c == d + e
    ensures a + (b + c) + rest == a + (b + (d + (e + rest))) == a + b + c + rest
  {
  }

  lemma {:induction false} DictReads(entries: seq<Entry>, tail: string, ctx: Context)
    requires ReadableEntries(entries) && Delimited(tail)
    ensures Tokens(Input(ObjText(Dict(entries)) + tail, ctx)) == ObjToks(Dict(entries)) + Tokens(Input(tail, ctx))
    decreases entries, 1
  {
    AnglesText(entries, tail, Tokens(Input(tail, ctx)));
    hide *;
    AnglesRead('<', EntriesText(entries) + ("\n" + (">>" + tail)), ctx);
    SpaceDelimits(">>" + tail);
    EntriesRead(entries, "\n" + (">>" + tail), ctx);
    SpaceFirst(">>" + tail, ctx);
    AnglesRead('>', tail, ctx);
  }

  lemma AnglesText(entries: seq<Entry>, tail: string, rest: seq<Token>)
    ensures ObjText(Dict(entries)) + tail == ['<', '<'] + (EntriesText(entries) + ("\n" + (">>" + tail)))
    ensures ObjToks(Dict(entries)) + rest == [TCmd("<<")] + (EntriesToks(entries) + ([TCmd(">>")] + rest))
    ensures ">>" + tail == ['>', '>'] + tail
  {
    hide EntriesText, EntriesToks;
    Enclosed("<<", EntriesText(entries), "\n>>", "\n", ">>", tail);
    Enclosed([TCmd("<<")], EntriesToks(entries), [TCmd(">>")], [], [TCmd(">>")], rest);
    NothingInFront([TCmd(">>")] + rest);
  }

  lemma SpaceDelimits(text: string)
    ensures Delimited(" " + text) && Delimited("\n" + text)
  {
  }

  lemma {:induction false} ItemsRead(items: seq<Obj>, tail: string, ctx: Context)
    requires ReadableItems(items) && Delimited(tail)
    ensures Tokens(Input(ItemsText(items) + tail, ctx)) == ItemsToks(items) + Tokens(Input(tail, ctx))
    decreases items, 0
  {
    hide Tokens, ObjText, ObjToks, Readable, Delimited;
    if items == [] {
      assert ItemsText(items) + tail == tail;
    } else {
      var behind := ItemsText(items[1..]) + tail;
      ItemsDelimit(items[1..], tail);
      SpaceFirst(ObjText(items[0]) + behind, ctx);
      assert ItemsText(items) + tail == " " + (ObjText(items[0]) + behind);
      ObjReads(items[0], behind, ctx);
      ItemsRead(items[1..], tail, ctx);
    }
  }

  lemma SixParts(a: string, b: string, c: string, d: string, e: string, f: string, g: string)
    ensures a + b + c + d + e + f + g == a + (b + c + (d + (e + (f + g))))
  {
    assert a + b + c + d + e + f + g == a + b + c + (d + (e + (f + g)));
  }

  lemma EntriesFront(entries: seq<Entry>, tail: string)
    requires entries != []
    ensures EntriesText(entries) + tail
         == "\n" + ("/" + NameText(entries[0].key)
                    + (" " + (ObjText(entries[0].value) + (EntriesText(entries[1..]) + tail))))
  {
    var n, o, es := NameText(entries[0].key), ObjText(entries[0].value), EntriesText(entries[1..]);
    assert EntriesText(entries) == "\n/" + n + " " + o + es;
    hide *;
    assert "\n/" == "\n" + "/";
    SixParts("\n", "/", n, " ", o, es, tail);
  }

  lemma NoEntries(tail: string)
    ensures EntriesText([]) + tail == tail && EntriesToks([]) == []
  {
    assert EntriesText([]) == "";
  }

  lemma EntriesToksFront(entries: seq<Entry>)
    requires entries != []
    ensures EntriesToks(entries)
         == [TName(entries[0].key)] + ObjToks(entries[0].value) + EntriesToks(entries[1..])
  {
  }

  lemma {:induction false} EntriesRead(entries: seq<Entry>, tail: string, ctx: Context)
    requires ReadableEntries(entries) && Delimited(tail)
    ensures Tokens(Input(EntriesText(entries) + tail, ctx)) == EntriesToks(entries) + Tokens(Input(tail, ctx))
    decreases entries, 0
  {
    hide Tokens, ObjText, ObjToks, NameText, Readable, PlainName, Delimited, EntriesText, EntriesToks;
    if entries == [] {
      NoEntries(tail);
    } else {
      EntriesToksFront(entries);
      var Entry(key, value) := entries[0];
      var behind := EntriesText(entries[1..]) + tail;
      EntriesDelimit(entries[1..], tail);
      SpaceDelimits(ObjText(value) + behind);
      SpaceFirst("/" + NameText(key) + (" " + (ObjText(value) + behind)), ctx);
      NameTokenReads(key, " " + (ObjText(value) + behind), ctx);
      SpaceFirst(ObjText(value) + behind, ctx);
      EntriesFront(entries, tail);
      ObjReads(value, behind, ctx);
      EntriesRead(entries[1..], tail, ctx);
    }
  }

  // ------------------------------------------------------------------------------------------
  // Objects from tokens
  // ------------------------------------------------------------------------------------------

  lemma ToksFront(o: Obj)
    ensures ObjToks(o) != []
    ensures ObjToks(o)[0] !in {TCmd("R"), TCmd("]"), TCmd(">>"), TError}
    ensures ObjToks(o)[0].TInt? ==> ObjToks(o) == [ObjToks(o)[0]] || (|ObjToks(o)| == 3 && ObjToks(o)[1].TInt?)
  {
    hide ItemsToks, EntriesToks, RereadStr, RereadReal;
  }

  lemma ItemsToksFront(items: seq<Obj>, rest: seq<Token>)
    ensures items != [] ==> ItemsToks(items) + rest == ObjToks(items[0]) + (ItemsToks(items[1..]) + rest)
    ensures items == [] ==> ItemsToks(items) + rest == rest
  {
    if items == [] {
      NothingInFront(rest);
    } else {
      Regrouped(ObjToks(items[0]), ItemsToks(items[1..]), rest);
    }
  }

  lemma NothingInFront<T>(a: seq<T>)
    ensures [] + a == a
  {
  }

  lemma Regrouped<T>(a: seq<T>, b: seq<T>, c: seq<T>)
    ensures a + b + c == a + (b + c)
  {
  }

  lemma RealOrInt(r: real)
    ensures RereadReal(r).Int? || RereadReal(r).Real?
  {
  }

  /** The tokens of the text are those of the normal form. */
  lemma {:induction false} ToksAreSyntax(o: Obj)
    ensures ObjToks(o) == Syntax(Normal(o))
    decreases o, 1
  {
    hide ItemsToks, ItemsSyntax, NormalItems, EntriesToks, EntriesSyntax, NormalEntries, RereadStr;
    match o
    case Real(r) => RealOrInt(r);
    case Array(items) => ItemsToksAreSyntax(items);
    case Dict(entries) => EntriesToksAreSyntax(entries);
    case _ =>
  }

  lemma {:induction false} ItemsToksAreSyntax(items: seq<Obj>)
    ensures ItemsToks(items) == ItemsSyntax(NormalItems(items))
    decreases items, 0
  {
    hide ObjToks, Syntax, Normal;
    if items != [] {
      ToksAreSyntax(items[0]);
      ItemsToksAreSyntax(items[1..]);
      assert NormalItems(items)[1..] == NormalItems(items[1..]);
    }
  }

  lemma {:induction false} EntriesToksAreSyntax(entries: seq<Entry>)
    ensures EntriesToks(entries) == EntriesSyntax(NormalEntries(entries))
    decreases entries, 0
  {
    hide ObjToks, Syntax, Normal;
    if entries != [] {
      var Entry(key, value) := entries[0];
      ToksAreSyntax(value);
      EntriesToksAreSyntax(entries[1..]);
      assert NormalEntries(entries)[1..] == NormalEntries(entries[1..]);
      Regrouped([TName(key)], ObjToks(value), EntriesToks(entries[1..]));
    }
  }

  lemma {:induction false} KeyAt(entries: seq<Entry>, i: nat)
    ensures |NormalEntries(entries)| == |entries|
    ensures i < |entries| ==> NormalEntries(entries)[i].key == entries[i].key
  {
    hide Normal;
    if entries != [] {
      KeyAt(entries[1..], if i > 0 then i - 1 else 0);
    }
  }

  /** Names stay the same when entries are read back. */
  lemma SameKeys(entries: seq<Entry>)
    requires UniqueKeys(entries)
    ensures UniqueKeys(NormalEntries(entries))
  {
    KeyAt(entries, 0);
    forall i | 0 <= i < |entries| ensures NormalEntries(entries)[i].key == entries[i].key {
      KeyAt(entries, i);
    }
  }

  lemma {:induction false} NormalIsConsistent(o: Obj)
    requires Readable(o)
    ensures Consistent(Normal(o))
    decreases o, 1
  {
    hide ReadableItems, NormalItems, ConsistentItems, ReadableEntries, NormalEntries, ConsistentEntries, RereadStr,
         ReadableReal, UniqueKeys;
    match o
    case Real(r) => RealOrInt(r);
    case Array(items) => NormalItemsAreConsistent(items);
    case Dict(entries) =>
      SameKeys(entries);
      NormalEntriesAreConsistent(entries);
    case _ =>
  }

  lemma {:induction false} NormalItemsAreConsistent(items: seq<Obj>)
    requires ReadableItems(items)
    ensures ConsistentItems(NormalItems(items))
    decreases items, 0
  {
    hide Readable, Normal, Consistent;
    if items != [] {
      NormalIsConsistent(items[0]);
      NormalItemsAreConsistent(items[1..]);
      assert NormalItems(items)[1..] == NormalItems(items[1..]);
    }
  }

  lemma {:induction false} NormalEntriesAreConsistent(entries: seq<Entry>)
    requires ReadableEntries(entries)
    ensures ConsistentEntries(NormalEntries(entries))
    decreases entries, 0
  {
    hide Readable, Normal, Consistent, PlainName;
    if entries != [] {
      NormalIsConsistent(entries[0].value);
      NormalEntriesAreConsistent(entries[1..]);
      assert NormalEntries(entries)[1..] == NormalEntries(entries[1..]);
    }
  }

  /** The tokens of an object are parsed back, unless it reads as an integer and what follows makes a
      reference of it. */
  lemma ObjParses(o: Obj, rest: seq<Token>)
    requires Readable(o) && (Normal(o).Int? ==> !RefFollows(rest))
    ensures GetObj(ObjToks(o) + rest) == (Good(Normal(o)), rest)
  {
    hide Readable, Normal, Consistent, ObjToks, Syntax, GetObj;
    ToksAreSyntax(o);
    NormalIsConsistent(o);
    ObjectParses(Normal(o), rest);
  }

  /** Reading the printed form of a readable object gives the object back in its normal form, and leaves
      what follows, whatever it is, as long as the object and it cannot be taken for a reference. */
  lemma PrintedObjectIsRead(o: Obj, tail: string, ctx: Context)
    requires Readable(o) && Delimited(tail)
    requires Normal(o).Int? ==> !RefFollows(Tokens(Input(tail, ctx)))
    ensures Tokens(Input(ObjText(o) + tail, ctx)) != []
    ensures GetObj(Tokens(Input(ObjText(o) + tail, ctx))) == (Good(Normal(o)), Tokens(Input(tail, ctx)))
  {
    ObjReads(o, tail, ctx);
    ObjParses(o, Tokens(Input(tail, ctx)));
    ToksFront(o);
  }
}
