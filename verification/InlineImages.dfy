/** Inline images: printing one and reading it back. */
module InlineImages {
  import opened PdfObjects
  import opened PdfOperators
  import opened ObjectText
  import opened Lexer
  import opened TokenText
  import opened NameReading
  import opened StreamGrammar
  import opened ObjectReader
  import opened ObjectSyntax
  import opened ObjectRoundTrip

  // ------------------------------------------------------------------------------------------
  // Data
  // ------------------------------------------------------------------------------------------

  /** No E with an I behind it. */
  predicate NoEI(s: string) {
    forall i :: 0 <= i < |s| - 1 ==> s[i] == 'E' ==> s[i + 1] != 'I'
  }

  lemma NoEIFront(s: string)
    requires |s| >= 2
    ensures NoEI(s) <==> !(s[0] == 'E' && s[1] == 'I') && NoEI(s[1..])
  {
    var t := s[1..];
    assert forall i :: 0 <= i < |t| ==> t[i] == s[i + 1];
    if !(s[0] == 'E' && s[1] == 'I') && NoEI(t) {
      forall i | 0 <= i < |s| - 1 && s[i] == 'E' ensures s[i + 1] != 'I' {
        assert i > 0 ==> t[i - 1] == s[i] && t[i - 1 + 1] == s[i + 1];
      }
    }
    if NoEI(s) {
      forall i | 0 <= i < |t| - 1 && t[i] == 'E' ensures t[i + 1] != 'I' {
        assert s[i + 1] == 'E' && s[i + 1 + 1] == t[i + 1];
      }
    }
  }

  /** What is read as data never has an EI in it. */
  lemma {:induction false} DataHasNoEI(s: string)
    ensures NoEI(UpToEI(s).0) && (UpToEI(s).0 != "" ==> UpToEI(s).0[0] == s[0])
  {
    if |s| >= 2 && !(s[0] == 'E' && s[1] == 'I') {
      DataHasNoEI(s[1..]);
      var data := UpToEI(s[1..]).0;
      assert UpToEI(s).0[1..] == data;
      if |UpToEI(s).0| >= 2 {
        NoEIFront(UpToEI(s).0);
      }
    }
  }

  /** Data is read back whole, and what follows it is left, exactly when it has no EI in it. */
  lemma {:induction false} DataReads(bytes: string, tail: string)
    ensures NoEI(bytes) ==> UpToEI(bytes + ("EI" + tail)) == (bytes, tail)
    ensures UpToEI(bytes + ("EI" + tail)).0 == bytes ==> NoEI(bytes)
  {
    var s := bytes + ("EI" + tail);
    DataHasNoEI(s);
    if bytes == "" {
      assert s == "EI" + tail && s[2..] == tail;
    } else if NoEI(bytes) {
      assert s[1..] == bytes[1..] + ("EI" + tail);
      if |bytes| >= 2 {
        NoEIFront(bytes);
      }
      DataReads(bytes[1..], tail);
      assert bytes == [bytes[0]] + bytes[1..];
    }
  }

  /** Data without an EI behind it goes to the end of its stream, and its last character is lost. */
  lemma {:induction false} DataCutOff(s: string)
    requires NoEI(s)
    ensures UpToEI(s) == (if s == "" then "" else s[..|s| - 1], "")
  {
    if |s| >= 2 {
      NoEIFront(s);
      DataCutOff(s[1..]);
      assert s[..|s| - 1] == [s[0]] + s[1..][..|s| - 2];
    }
  }

  // ------------------------------------------------------------------------------------------
  // Entries
  // ------------------------------------------------------------------------------------------

  /** Names that are the same written as they are, as in an inline image, and with codes. */
  predicate RawKeys(entries: seq<Entry>) {
    entries == [] || (RawName(entries[0].key) && RawKeys(entries[1..]))
  }

  predicate RawName(n: string) {
    forall i :: 0 <= i < |n| ==> IsVisible(n[i])
  }

  lemma {:induction false} RawNameText(n: string)
    requires RawName(n)
    ensures NameText(n) == n
  {
    if n != "" {
      RawNameText(n[1..]);
      assert NameChar(n[0]) == [n[0]];
    }
  }

  /** Entries whose text is read back as it was put together. */
  predicate ReadableHeader(entries: seq<Entry>) {
    UniqueKeys(entries) && ReadableEntries(entries) && RawKeys(entries)
  }

  lemma FrontText(entries: seq<Entry>, tail: string)
    requires entries != []
    ensures ImageEntriesText(entries) + tail
         == "/" + entries[0].key
            + (" " + (ObjText(entries[0].value) + ("\n" + (ImageEntriesText(entries[1..]) + tail))))
  {
    var n, o, es := entries[0].key, ObjText(entries[0].value), ImageEntriesText(entries[1..]);
    assert ImageEntriesText(entries) == "/" + n + " " + o + "\n" + es;
    hide *;
    EntryParts("/" + n, " ", o, "\n", es, tail);
  }

  lemma EntryParts<T>(a: seq<T>, b: seq<T>, c: seq<T>, d: seq<T>, e: seq<T>, f: seq<T>)
    ensures a + b + c + d + e + f == a + (b + (c + (d + (e + f))))
  {
    assert a + b + c + d + e + f == a + b + c + (d + (e + f));
  }

  lemma NoFrontText(tail: string)
    ensures ImageEntriesText([]) + tail == tail
  {
    assert ImageEntriesText([]) == "";
  }

  lemma {:induction false} HeaderReads(entries: seq<Entry>, tail: string, ctx: Context)
    requires ReadableEntries(entries) && RawKeys(entries)
    ensures Tokens(Input(ImageEntriesText(entries) + tail, ctx)) == EntriesToks(entries) + Tokens(Input(tail, ctx))
  {
    hide Tokens, ObjText, ObjToks, NameText, Readable, PlainName, Delimited, RawName, ImageEntriesText, EntriesToks;
    if entries == [] {
      NoFrontText(tail);
      NoEntries(tail);
    } else {
      EntriesToksFront(entries);
      var Entry(key, value) := entries[0];
      var behind := ImageEntriesText(entries[1..]) + tail;
      RawNameText(key);
      SpaceDelimits(ObjText(value) + ("\n" + behind));
      NameTokenReads(key, " " + (ObjText(value) + ("\n" + behind)), ctx);
      SpaceFirst(ObjText(value) + ("\n" + behind), ctx);
      SpaceDelimits(behind);
      ObjReads(value, "\n" + behind, ctx);
      SpaceFirst(behind, ctx);
      HeaderReads(entries[1..], tail, ctx);
      FrontText(entries, tail);
    }
  }

  // ------------------------------------------------------------------------------------------
  // Tokens of a printed image
  // ------------------------------------------------------------------------------------------

  lemma BeginReads(tail: string, ctx: Context)
    requires !ctx.image
    ensures Tokens(Input("BI" + ("\n" + tail), ctx)) == [TCmd("BI")] + Tokens(Input(tail, ctx.(image := true)))
  {
    hide Tokens, Word, ImageData;
    WordReads("I", "\n" + tail, ctx, 1);
    assert "BI" + ("\n" + tail) == ['B'] + ("I" + ("\n" + tail));
    FirstToken('B', "I" + ("\n" + tail), ctx);
    SpaceFirst(tail, ctx.(image := true));
    assert ['B'] + "I" == "BI";
  }

  lemma {:induction false} WordUpToNul(w: string, tail: string, ctx: Context, k: nat)
    requires (forall i :: 0 <= i < |w| ==> !IsSpecial(w[i])) && k + |w| < TOKEN_LIMIT
    ensures Word(Input(w + ([NUL] + tail), ctx), k) == (w, Input([NUL] + tail, ctx))
  {
    var text := [NUL] + tail;
    if w == "" {
      assert w + text == text;
    } else {
      assert (w + text)[1..] == w[1..] + text;
      WordUpToNul(w[1..], tail, ctx, k + 1);
      assert w == [w[0]] + w[1..];
    }
  }

  lemma DataTokens(tail: string, ctx: Context)
    requires ctx.image
    ensures Tokens(Input("ID" + ([NUL] + tail), ctx))
         == [TCmd("ID"), TData(UpToEI(tail).0)] + Tokens(Input(UpToEI(tail).1, ctx.(image := false)))
  {
    hide Tokens, Word, UpToEI;
    WordUpToNul("D", tail, ctx, 1);
    assert "ID" + ([NUL] + tail) == ['I'] + ("D" + ([NUL] + tail));
    FirstToken('I', "D" + ([NUL] + tail), ctx);
    assert ['I'] + "D" == "ID";
    assert ([NUL] + tail)[1..] == tail;
  }

  function DataToks(entries: seq<Entry>, bytes: string): seq<Token> {
    EntriesToks(entries) + [TCmd("ID"), TData(bytes)]
  }

  lemma ImageParts(entries: seq<Entry>, bytes: string, tail: string)
    ensures LabelText(InlineImage(entries, bytes)) + tail
         == "BI" + ("\n" + (ImageEntriesText(entries) + ("ID" + ([NUL] + (bytes + ("EI" + ("\n" + tail)))))))
  {
    var es := ImageEntriesText(entries);
    assert LabelText(InlineImage(entries, bytes)) == "BI\n" + (es + "ID" + [NUL] + bytes) + "EI\n";
    hide *;
    assert "BI\n" == "BI" + "\n" && "EI\n" == "EI" + "\n";
    EntryParts(es, "ID", [NUL], bytes, "EI", "\n" + tail);
    Framed("BI", "\n", es + "ID" + [NUL] + bytes, "EI", "\n", tail);
  }

  lemma Framed<T>(a: seq<T>, b: seq<T>, c: seq<T>, d: seq<T>, e: seq<T>, f: seq<T>)
    ensures a + b + c + (d + e) + f == a + (b + (c + d + (e + f)))
  {
    assert a + b + c + (d + e) + f == a + b + c + (d + (e + f));
  }

  /** The text of an image with any data, taken apart again. */
  lemma ImageTokens(entries: seq<Entry>, bytes: string, tail: string, ctx: Context)
    requires ReadableHeader(entries) && !ctx.image
    ensures var (data, rest) := UpToEI(bytes + ("EI" + ("\n" + tail)));
      Tokens(Input(LabelText(InlineImage(entries, bytes)) + tail, ctx))
      == [TCmd("BI")] + (DataToks(entries, data) + Tokens(Input(rest, ctx)))
  {
    hide *;
    var behind := bytes + ("EI" + ("\n" + tail));
    ImageParts(entries, bytes, tail);
    BeginReads(ImageEntriesText(entries) + ("ID" + ([NUL] + behind)), ctx);
    HeaderAndData(entries, behind, ctx);
  }

  lemma HeaderAndData(entries: seq<Entry>, tail: string, ctx: Context)
    requires ReadableHeader(entries) && !ctx.image
    ensures Tokens(Input(ImageEntriesText(entries) + ("ID" + ([NUL] + tail)), ctx.(image := true)))
         == DataToks(entries, UpToEI(tail).0) + Tokens(Input(UpToEI(tail).1, ctx))
  {
    DataToksParts(entries, UpToEI(tail).0, Tokens(Input(UpToEI(tail).1, ctx)));
    hide *;
    HeaderParts(entries);
    HeaderReads(entries, "ID" + ([NUL] + tail), ctx.(image := true));
    DataTokens(tail, ctx.(image := true));
    assert ctx.(image := true).(image := false) == ctx;
  }

  lemma DataToksParts(entries: seq<Entry>, data: string, rest: seq<Token>)
    ensures DataToks(entries, data) + rest == EntriesToks(entries) + ([TCmd("ID"), TData(data)] + rest)
  {
    hide EntriesToks;
  }

  lemma HeaderParts(entries: seq<Entry>)
    requires ReadableHeader(entries)
    ensures UniqueKeys(entries) && ReadableEntries(entries) && RawKeys(entries)
  {
  }

  // ------------------------------------------------------------------------------------------
  // Images from tokens
  // ------------------------------------------------------------------------------------------

  /** Entries are taken one by one. */
  lemma {:induction false} HeaderTaken(entries: seq<Entry>, done: seq<Entry>, ok: bool, rest: seq<Token>)
    requires ConsistentEntries(entries) && NoRefAhead(rest)
    ensures GetImage(EntriesSyntax(entries) + rest, done, ok) == GetImage(rest, done + entries, ok)
  {
    hide GetObj, GetImage, EntriesSyntax, Syntax, Consistent;
    ObjectSyntax.EntriesFront(entries, rest);
    if entries == [] {
      assert done + entries == done;
    } else {
      var Entry(key, value) := entries[0];
      var behind := EntriesSyntax(entries[1..]) + rest;
      EntriesHideNoRef(entries[1..], rest);
      ObjectParses(value, behind);
      ImageEntryTaken(key, Syntax(value) + behind, done, ok);
      HeaderTaken(entries[1..], done + [entries[0]], ok, rest);
      assert done + [entries[0]] + entries[1..] == done + entries;
    }
  }

  lemma ImageEntryTaken(key: string, toks: seq<Token>, done: seq<Entry>, ok: bool)
    requires toks != []
    ensures var (v, rest) := GetObj(toks);
      GetImage([TName(key)] + toks, done, ok)
      == if v.Failed? then (BrokenImage, [])
         else if v.Good? then GetImage(rest, done + [Entry(key, v.o)], ok)
         else GetImage(rest, done, false)
  {
    NameRead(key, toks);
    hide GetObj;
  }

  lemma ImageCloses(entries: seq<Entry>, ok: bool, data: string, rest: seq<Token>)
    ensures ok && UniqueKeys(entries) ==>
              GetImage([TCmd("ID"), TData(data)] + rest, entries, ok) == (Image(entries, data), rest)
    ensures !ok || !UniqueKeys(entries) ==> GetImage([TCmd("ID"), TData(data)] + rest, entries, ok).0 == BadObject
  {
    var toks := [TCmd("ID"), TData(data)] + rest;
    assert toks[1..][1..] == rest;
    CommandRead("ID", toks);
    hide GetObj, UniqueKeys;
  }

  lemma CommandRead(c: string, toks: seq<Token>)
    requires toks != [] && toks[0] == TCmd(c) && c != "[" && c != "<<"
    ensures GetObj(toks) == (Cmd(c), toks[1..])
  {
  }

  lemma NameRead(n: string, rest: seq<Token>)
    ensures GetObj([TName(n)] + rest) == (Good(Name(n)), rest)
  {
    assert ([TName(n)] + rest)[1..] == rest;
  }

  lemma ImageBegins(toks: seq<Token>)
    ensures var (image, behind) := GetImage(toks, [], true);
      ReadItems([TCmd("BI")] + toks) == [image] + ReadItems(behind)
  {
    var all := [TCmd("BI")] + toks;
    CommandRead("BI", all);
    assert all[1..] == toks;
    hide GetObj, GetImage;
  }

  /** An image is read from its entries and its data; with a name twice it is refused. */
  lemma ImageItem(entries: seq<Entry>, data: string, rest: seq<Token>)
    requires ConsistentEntries(entries)
    ensures var toks := [TCmd("BI")] + (EntriesSyntax(entries) + ([TCmd("ID"), TData(data)] + rest));
      && (UniqueKeys(entries) ==> ReadItems(toks) == [Image(entries, data)] + ReadItems(rest))
      && (!UniqueKeys(entries) ==> ReadItems(toks) != [] && ReadItems(toks)[0] == BadObject)
  {
    hide GetImage, EntriesSyntax, ConsistentEntries, UniqueKeys, ReadItems;
    var close := [TCmd("ID"), TData(data)] + rest;
    HeaderTaken(entries, [], true, close);
    assert [] + entries == entries;
    ImageCloses(entries, true, data, rest);
    ImageBegins(EntriesSyntax(entries) + close);
  }

  /** Objects other than names, commands and illegal tokens between the entries are passed over. */
  lemma PassedOver(o: Obj, t: Token, rest: seq<Token>, done: seq<Entry>, ok: bool)
    requires Consistent(o) && !o.Name? && (o.Int? ==> !RefFollows(rest))
    requires (PlainCommand(t) && t != TCmd("ID")) || t == TError
    ensures GetImage(Syntax(o) + rest, done, ok) == GetImage(rest, done, ok)
    ensures GetImage([t] + rest, done, ok) == GetImage(rest, done, ok)
  {
    SyntaxFront(o);
    ObjectParses(o, rest);
    assert ([t] + rest)[1..] == rest;
    assert GetObj([t] + rest) == (if t.TCmd? then Cmd(t.c) else Bad, rest);
    hide GetObj, Syntax, Consistent;
  }

  /** Without an ID there is no image; neither is there with a command or an illegal token for a value. */
  lemma ImageRefused(entries: seq<Entry>, key: string, t: Token, more: seq<Entry>, data: string, rest: seq<Token>)
    requires ConsistentEntries(entries) && ConsistentEntries(more)
    requires (PlainCommand(t) && t != TCmd("ID")) || t == TError
    ensures GetImage(EntriesSyntax(entries), [], true).0 == BadObject
    ensures GetImage(EntriesSyntax(entries) + [TName(key)], [], true).0 == BadObject
    ensures GetImage(EntriesSyntax(entries) + ([TName(key)] + ([t] + (EntriesSyntax(more) +
                     ([TCmd("ID"), TData(data)] + rest)))), [], true).0 == BadObject
    ensures GetImage(EntriesSyntax(entries) + ([TName(key)] + [TCmd("[")]), [], true).0 == BrokenImage
  {
    hide GetObj, EntriesSyntax, ConsistentEntries, UniqueKeys;
    assert [] + entries == entries;
    HeaderTaken(entries, [], true, []);
    assert EntriesSyntax(entries) + [] == EntriesSyntax(entries);
    HeaderTaken(entries, [], true, [TName(key)]);
    NameRead(key, []);
    assert [TName(key)] + [] == [TName(key)];
    var close := [TCmd("ID"), TData(data)] + rest;
    var behind := EntriesSyntax(more) + close;
    hide GetImage;
    HeaderTaken(entries, [], true, [TName(key)] + ([t] + behind));
    ImageEntryTaken(key, [t] + behind, entries, true);
    NoValue(t, behind);
    HeaderTaken(more, entries, false, close);
    ImageCloses(entries + more, false, data, rest);
    HeaderTaken(entries, [], true, [TName(key)] + [TCmd("[")]);
    ImageEntryTaken(key, [TCmd("[")], entries, true);
    Unclosed();
  }

  lemma NoValue(t: Token, rest: seq<Token>)
    requires PlainCommand(t) || t == TError
    ensures GetObj([t] + rest) == (if t.TCmd? then Cmd(t.c) else Bad, rest)
  {
    assert ([t] + rest)[1..] == rest;
  }

  lemma Unclosed()
    ensures GetObj([TCmd("[")]).0 == Failed
  {
  }

  /** Reading a printed image gives back its entries in normal form and its data, and leaves what follows, exactly
      when the data has no EI in it. */
  lemma PrintedImageIsRead(entries: seq<Entry>, bytes: string, tail: string, ctx: Context)
    requires ReadableHeader(entries) && !ctx.image
    ensures var items := ReadItems(Tokens(Input(LabelText(InlineImage(entries, bytes)) + tail, ctx)));
      && items != []
      && (NoEI(bytes) ==>
            items == [Image(NormalEntries(entries), bytes)] + ReadItems(Tokens(Input(tail, ctx))))
      && (items[0] == Image(NormalEntries(entries), bytes) ==> NoEI(bytes))
  {
    HeaderParts(entries);
    hide Tokens, LabelText, ReadableEntries, UniqueKeys, RawKeys, NoEI, UpToEI, GetObj, DataToks;
    var (data, rest) := UpToEI(bytes + ("EI" + ("\n" + tail)));
    ImageTokens(entries, bytes, tail, ctx);
    DataReads(bytes, "\n" + tail);
    SpaceFirst(tail, ctx);
    ImageParses(entries, data, Tokens(Input(rest, ctx)));
  }

  lemma ImageParses(entries: seq<Entry>, data: string, rest: seq<Token>)
    requires ReadableHeader(entries)
    ensures ReadItems([TCmd("BI")] + (DataToks(entries, data) + rest))
         == [Image(NormalEntries(entries), data)] + ReadItems(rest)
  {
    DataToksParts(entries, data, rest);
    hide *;
    HeaderParts(entries);
    EntriesToksAreSyntax(entries);
    NormalEntriesAreConsistent(entries);
    SameKeys(entries);
    ImageItem(NormalEntries(entries), data, rest);
  }
}
