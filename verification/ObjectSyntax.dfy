/** The tokens that make up an object: the object parser accepts exactly these, and what it does with others. */
module ObjectSyntax {
  import opened PdfObjects
  import opened Lexer
  import opened StreamGrammar
  import opened ObjectReader

  function Syntax(o: Obj): seq<Token> {
    match o
    case Null => [TNull]
    case Bool(b) => [TBool(b)]
    case Int(i) => [TInt(i)]
    case Real(r) => [TReal(r)]
    case Str(s) => [TStr(s)]
    case Name(n) => [TName(n)]
    case Ref(num, gen) => [TInt(num), TInt(gen), TCmd("R")]
    case Array(items) => [TCmd("[")] + (ItemsSyntax(items) + [TCmd("]")])
    case Dict(entries) => [TCmd("<<")] + (EntriesSyntax(entries) + [TCmd(">>")])
  }

  function ItemsSyntax(items: seq<Obj>): seq<Token> {
    if items == [] then [] else Syntax(items[0]) + ItemsSyntax(items[1..])
  }

  function EntriesSyntax(entries: seq<Entry>): seq<Token> {
    if entries == [] then []
    else [TName(entries[0].key)] + (Syntax(entries[0].value) + EntriesSyntax(entries[1..]))
  }

  /** No dictionary in it has a name twice. */
  predicate Consistent(o: Obj) {
    match o
    case Array(items) => ConsistentItems(items)
    case Dict(entries) => UniqueKeys(entries) && ConsistentEntries(entries)
    case _ => true
  }

  predicate ConsistentItems(items: seq<Obj>) {
    items == [] || (Consistent(items[0]) && ConsistentItems(items[1..]))
  }

  predicate ConsistentEntries(entries: seq<Entry>) {
    entries == [] || (Consistent(entries[0].value) && ConsistentEntries(entries[1..]))
  }

  /** The tokens that turn an integer in front of them into the start of a reference. */
  predicate RefFollows(rest: seq<Token>) {
    |rest| >= 2 && rest[0].TInt? && rest[1] == TCmd("R")
  }

  /** No integers in front of this are taken for a reference. */
  predicate NoRefAhead(rest: seq<Token>) {
    rest != [] ==> !rest[0].TInt? && rest[0] != TCmd("R")
  }

  // ------------------------------------------------------------------------------------------
  // From objects to tokens and back
  // ------------------------------------------------------------------------------------------

  lemma SyntaxFront(o: Obj)
    ensures Syntax(o) != []
    ensures Syntax(o)[0] !in {TCmd("R"), TCmd("]"), TCmd(">>"), TError}
    ensures Syntax(o)[0].TInt? ==> Syntax(o) == [Syntax(o)[0]] || (|Syntax(o)| == 3 && Syntax(o)[1].TInt?)
  {
    hide ItemsSyntax, EntriesSyntax;
  }

  lemma Regrouped<T>(a: seq<T>, b: seq<T>, c: seq<T>)
    ensures a + b + c == a + (b + c)
    ensures [] + c == c
  {
  }

  lemma ItemsFront(items: seq<Obj>, rest: seq<Token>)
    ensures items != [] ==> ItemsSyntax(items) + rest == Syntax(items[0]) + (ItemsSyntax(items[1..]) + rest)
    ensures items == [] ==> ItemsSyntax(items) + rest == rest
  {
    if items == [] {
      Regrouped([], [], rest);
    } else {
      Regrouped(Syntax(items[0]), ItemsSyntax(items[1..]), rest);
    }
  }

  lemma EntriesFront(entries: seq<Entry>, rest: seq<Token>)
    ensures entries != [] ==>
              EntriesSyntax(entries) + rest
              == [TName(entries[0].key)] + (Syntax(entries[0].value) + (EntriesSyntax(entries[1..]) + rest))
    ensures entries == [] ==> EntriesSyntax(entries) + rest == rest
  {
    if entries == [] {
      Regrouped([], [], rest);
    } else {
      var k, v, es := [TName(entries[0].key)], Syntax(entries[0].value), EntriesSyntax(entries[1..]);
      Regrouped(k, v + es, rest);
      Regrouped(v, es, rest);
    }
  }

  /** No reference starts by accident between the elements of an array. */
  lemma ItemsHideNoRef(items: seq<Obj>, rest: seq<Token>)
    requires NoRefAhead(rest)
    ensures !RefFollows(ItemsSyntax(items) + rest)
  {
    hide ItemsSyntax, Syntax;
    ItemsFront(items, rest);
    if items != [] {
      SyntaxFront(items[0]);
      ItemsFront(items[1..], rest);
      if items[1..] != [] {
        SyntaxFront(items[1..][0]);
      }
    }
  }

  lemma EntriesHideNoRef(entries: seq<Entry>, rest: seq<Token>)
    requires NoRefAhead(rest)
    ensures !RefFollows(EntriesSyntax(entries) + rest)
  {
    EntriesFront(entries, rest);
  }

  lemma AtomParses(o: Obj, rest: seq<Token>)
    requires !o.Array? && !o.Dict? && (o.Int? ==> !RefFollows(rest))
    ensures GetObj(Syntax(o) + rest) == (Good(o), rest)
  {
    var toks := Syntax(o) + rest;
    if o.Ref? {
      assert toks[3..] == rest;
    } else {
      assert toks[1..] == rest;
      assert o.Int? && |toks| >= 3 ==> toks[1] == rest[0] && toks[2] == rest[1];
    }
  }

  /** The tokens of an object are parsed back, unless it is an integer and what follows makes a reference of it. */
  lemma {:induction false} ObjectParses(o: Obj, rest: seq<Token>)
    requires Consistent(o) && (o.Int? ==> !RefFollows(rest))
    ensures GetObj(Syntax(o) + rest) == (Good(o), rest)
    decreases o, 1
  {
    match o
    case Array(items) => ArrayParses(items, rest);
    case Dict(entries) => DictParses(entries, rest);
    case _ => AtomParses(o, rest);
  }

  lemma {:induction false} ArrayParses(items: seq<Obj>, rest: seq<Token>)
    requires ConsistentItems(items)
    ensures GetObj(Syntax(Array(items)) + rest) == (Good(Array(items)), rest)
    decreases items, 2
  {
    hide GetArray, ItemsSyntax, ConsistentItems;
    var toks := Syntax(Array(items)) + rest;
    var close := [TCmd("]")] + rest;
    assert toks[1..] == ItemsSyntax(items) + close && toks[0] == TCmd("[");
    ItemsTaken(items, [], true, close);
    assert [] + items == items;
    ArrayCloses(items, true, rest);
  }

  lemma ArrayCloses(items: seq<Obj>, ok: bool, rest: seq<Token>)
    ensures GetArray([TCmd("]")] + rest, items, ok) == (if ok then Good(Array(items)) else Bad, rest)
  {
    assert ([TCmd("]")] + rest)[1..] == rest;
  }

  /** Elements are taken one by one. */
  lemma {:induction false} ItemsTaken(items: seq<Obj>, done: seq<Obj>, ok: bool, rest: seq<Token>)
    requires ConsistentItems(items) && NoRefAhead(rest)
    ensures GetArray(ItemsSyntax(items) + rest, done, ok) == GetArray(rest, done + items, ok)
    decreases items, 1
  {
    hide GetObj, ItemsSyntax, Syntax, Consistent;
    ItemsFront(items, rest);
    if items == [] {
      assert done + items == done;
    } else {
      var o, behind := items[0], ItemsSyntax(items[1..]) + rest;
      SyntaxFront(o);
      ItemsHideNoRef(items[1..], rest);
      ObjectParses(o, behind);
      ItemTaken(o, behind, done, ok);
      ItemsTaken(items[1..], done + [o], ok, rest);
      assert done + [o] + items[1..] == done + items;
    }
  }

  lemma ItemTaken(o: Obj, rest: seq<Token>, done: seq<Obj>, ok: bool)
    requires GetObj(Syntax(o) + rest) == (Good(o), rest)
    ensures GetArray(Syntax(o) + rest, done, ok) == GetArray(rest, done + [o], ok)
  {
    hide GetObj, Syntax;
    SyntaxFront(o);
    assert (Syntax(o) + rest)[0] == Syntax(o)[0];
  }

  lemma {:induction false} DictParses(entries: seq<Entry>, rest: seq<Token>)
    requires UniqueKeys(entries) && ConsistentEntries(entries)
    ensures GetObj(Syntax(Dict(entries)) + rest) == (Good(Dict(entries)), rest)
    decreases entries, 2
  {
    hide GetDict, EntriesSyntax, ConsistentEntries, UniqueKeys;
    var toks := Syntax(Dict(entries)) + rest;
    var close := [TCmd(">>")] + rest;
    assert toks[1..] == EntriesSyntax(entries) + close && toks[0] == TCmd("<<");
    EntriesTaken(entries, [], true, close);
    assert [] + entries == entries;
    DictCloses(entries, true, rest);
  }

  lemma DictCloses(entries: seq<Entry>, ok: bool, rest: seq<Token>)
    ensures GetDict([TCmd(">>")] + rest, entries, ok)
         == (if ok && UniqueKeys(entries) then Good(Dict(entries)) else Bad, rest)
  {
    assert ([TCmd(">>")] + rest)[1..] == rest;
  }

  /** Entries are taken one by one. */
  lemma {:induction false} EntriesTaken(entries: seq<Entry>, done: seq<Entry>, ok: bool, rest: seq<Token>)
    requires ConsistentEntries(entries) && NoRefAhead(rest)
    ensures GetDict(EntriesSyntax(entries) + rest, done, ok) == GetDict(rest, done + entries, ok)
    decreases entries, 1
  {
    hide GetObj, GetDict, EntriesSyntax, Syntax, Consistent;
    EntriesFront(entries, rest);
    if entries == [] {
      assert done + entries == done;
    } else {
      var Entry(key, value) := entries[0];
      var behind := EntriesSyntax(entries[1..]) + rest;
      EntriesHideNoRef(entries[1..], rest);
      ObjectParses(value, behind);
      EntryTaken(key, value, behind, done, ok);
      EntriesTaken(entries[1..], done + [entries[0]], ok, rest);
      assert done + [entries[0]] + entries[1..] == done + entries;
    }
  }

  lemma EntryTaken(key: string, value: Obj, rest: seq<Token>, done: seq<Entry>, ok: bool)
    requires GetObj(Syntax(value) + rest) == (Good(value), rest)
    ensures GetDict([TName(key)] + (Syntax(value) + rest), done, ok) == GetDict(rest, done + [Entry(key, value)], ok)
  {
    hide GetObj, Syntax;
    SyntaxFront(value);
    var behind := Syntax(value) + rest;
    assert ([TName(key)] + behind)[1..] == behind && behind[0] == Syntax(value)[0];
  }

  // ------------------------------------------------------------------------------------------
  // Nothing else is parsed
  // ------------------------------------------------------------------------------------------

  predicate NoErrors(toks: seq<Token>) {
    forall i :: 0 <= i < |toks| ==> toks[i] != TError
  }

  lemma NoErrorsBehind(toks: seq<Token>, n: nat)
    requires NoErrors(toks) && n <= |toks|
    ensures NoErrors(toks[n..])
  {
  }

  lemma {:induction false} ParsedObject(toks: seq<Token>)
    requires toks != [] && NoErrors(toks) && GetObj(toks).0.Good?
    ensures var (r, rest) := GetObj(toks);
      toks == Syntax(r.o) + rest && Consistent(r.o) && NoErrors(rest) && (r.o.Int? ==> !RefFollows(rest))
    decreases |toks|, 0
  {
    hide GetArray, GetDict, ItemsSyntax, EntriesSyntax, ConsistentItems, ConsistentEntries, UniqueKeys;
    NoErrorsBehind(toks, 1);
    var (r, rest) := GetObj(toks);
    if toks[0] == TCmd("[") {
      ParsedArray(toks[1..], [], true);
      assert r.o.items[0..] == r.o.items;
    } else if toks[0] == TCmd("<<") {
      ParsedDict(toks[1..], [], true);
      assert r.o.entries[0..] == r.o.entries;
    } else if r.o.Ref? {
      NoErrorsBehind(toks, 3);
      assert toks == toks[..3] + toks[3..];
    }
  }

  lemma {:induction false} ParsedArray(toks: seq<Token>, done: seq<Obj>, ok: bool)
    requires NoErrors(toks) && GetArray(toks, done, ok).0.Good?
    ensures var (r, rest) := GetArray(toks, done, ok);
      && ok && r.o.Array? && |done| <= |r.o.items| && r.o.items[..|done|] == done && NoErrors(rest)
      && ConsistentItems(r.o.items[|done|..])
      && toks == ItemsSyntax(r.o.items[|done|..]) + ([TCmd("]")] + rest)
    decreases |toks|, 1
  {
    hide GetObj, Syntax, Consistent, NoErrors;
    if toks[0] == TCmd("]") {
      NoErrorsBehind(toks, 1);
      assert done[|done|..] == [];
      assert toks == [TCmd("]")] + toks[1..];
      ItemsFront([], [TCmd("]")] + toks[1..]);
    } else {
      GoodElement(toks, done, ok);
      ParsedObject(toks);
      var (v, behind) := GetObj(toks);
      ParsedArray(behind, done + [v.o], ok);
      var (r, rest) := GetArray(toks, done, ok);
      var more := r.o.items[|done|..];
      assert more[0] == v.o && more[1..] == r.o.items[|done + [v.o]|..];
      ItemsFront(more, [TCmd("]")] + rest);
    }
  }

  /** An array with something else in it is refused. */
  lemma {:induction false} GoodElement(toks: seq<Token>, done: seq<Obj>, ok: bool)
    requires toks != [] && toks[0] != TCmd("]") && GetArray(toks, done, ok).0.Good?
    ensures GetObj(toks).0.Good?
  {
    hide GetObj;
    var (v, behind) := GetObj(toks);
    if !v.Good? && !v.Failed? {
      NeverGood(behind, done);
    }
  }

  lemma {:induction false} NeverGood(toks: seq<Token>, done: seq<Obj>)
    ensures !GetArray(toks, done, false).0.Good?
    decreases |toks|
  {
    hide GetObj;
    if toks != [] && toks[0] != TCmd("]") {
      var (v, behind) := GetObj(toks);
      NeverGood(behind, if v.Good? then done + [v.o] else done);
    }
  }

  lemma {:induction false} NeverGoodDict(toks: seq<Token>, done: seq<Entry>)
    ensures !GetDict(toks, done, false).0.Good?
    decreases |toks|
  {
    hide GetObj, UniqueKeys;
    if |toks| >= 2 && toks[0].TName? && toks[1] != TError {
      var (v, behind) := GetObj(toks[1..]);
      NeverGoodDict(behind, if v.Good? then done + [Entry(toks[0].n, v.o)] else done);
    }
  }

  lemma {:induction false} ParsedDict(toks: seq<Token>, done: seq<Entry>, ok: bool)
    requires NoErrors(toks) && GetDict(toks, done, ok).0.Good?
    ensures var (r, rest) := GetDict(toks, done, ok);
      && ok && r.o.Dict? && |done| <= |r.o.entries| && r.o.entries[..|done|] == done && NoErrors(rest)
      && UniqueKeys(r.o.entries) && ConsistentEntries(r.o.entries[|done|..])
      && toks == EntriesSyntax(r.o.entries[|done|..]) + ([TCmd(">>")] + rest)
    decreases |toks|, 1
  {
    hide GetObj, Syntax, Consistent, NoErrors, UniqueKeys;
    if toks[0] == TCmd(">>") {
      NoErrorsBehind(toks, 1);
      assert done[|done|..] == [];
      assert toks == [TCmd(">>")] + toks[1..];
      EntriesFront([], [TCmd(">>")] + toks[1..]);
    } else {
      NoErrorAt(toks);
      NoErrorsBehind(toks, 1);
      var (v, behind) := GetObj(toks[1..]);
      if !v.Good? && !v.Failed? {
        NeverGoodDict(behind, done);
      }
      ParsedObject(toks[1..]);
      var e := Entry(toks[0].n, v.o);
      ParsedDict(behind, done + [e], ok);
      var (r, rest) := GetDict(toks, done, ok);
      var more := r.o.entries[|done|..];
      assert more[0] == e && more[1..] == r.o.entries[|done + [e]|..];
      EntriesFront(more, [TCmd(">>")] + rest);
      assert toks == [toks[0]] + toks[1..];
    }
  }

  lemma NoErrorAt(toks: seq<Token>)
    requires NoErrors(toks) && |toks| >= 2
    ensures toks[1] != TError
  {
  }

  /** From tokens without an error among them an object is parsed exactly when they start with its own, no dictionary
      in it has a name twice, and it is not an integer that starts a reference. */
  lemma ParsedExactly(toks: seq<Token>, o: Obj, rest: seq<Token>)
    requires toks != [] && NoErrors(toks)
    ensures GetObj(toks) == (Good(o), rest) <==>
            toks == Syntax(o) + rest && Consistent(o) && (o.Int? ==> !RefFollows(rest))
  {
    hide GetObj, Syntax, Consistent, RefFollows, NoErrors;
    if GetObj(toks) == (Good(o), rest) {
      ParsedObject(toks);
    }
    if toks == Syntax(o) + rest && Consistent(o) && (o.Int? ==> !RefFollows(rest)) {
      ObjectParses(o, rest);
    }
  }

  // ------------------------------------------------------------------------------------------
  // What is refused
  // ------------------------------------------------------------------------------------------

  /** A command that opens or closes nothing and makes no reference. */
  predicate PlainCommand(t: Token) {
    t.TCmd? && t.c !in {"[", "]", "<<", ">>", "R"}
  }

  /** An array with a command or an illegal token between its elements is no operand, and reading goes on behind it;
      one that does not end stops the reader. */
  lemma ArrayRefused(a: seq<Obj>, t: Token, b: seq<Obj>, rest: seq<Token>)
    requires ConsistentItems(a) && ConsistentItems(b) && (PlainCommand(t) || t == TError)
    ensures var open := [TCmd("[")] + ItemsSyntax(a);
      && ReadItems(open + ([t] + (ItemsSyntax(b) + ([TCmd("]")] + rest)))) == [BadObject] + ReadItems(rest)
      && ReadItems(open) == [Malformed]
  {
    hide GetObj, ItemsSyntax, ConsistentItems;
    var close := [TCmd("]")] + rest;
    var behind := ItemsSyntax(b) + close;
    var open := [TCmd("[")] + ItemsSyntax(a);
    ItemsTaken(a, [], true, [t] + behind);
    ElementRefused(t, behind, [] + a);
    ItemsTaken(b, [] + a, false, close);
    ArrayCloses([] + a + b, false, rest);
    ArrayOpens(ItemsSyntax(a) + ([t] + behind));
    assert open + ([t] + behind) == [TCmd("[")] + (ItemsSyntax(a) + ([t] + behind));
    ItemsTaken(a, [], true, []);
    assert ItemsSyntax(a) + [] == ItemsSyntax(a);
    ArrayOpens(ItemsSyntax(a));
  }

  lemma ArrayOpens(toks: seq<Token>)
    ensures GetObj([TCmd("[")] + toks) == GetArray(toks, [], true)
  {
    assert ([TCmd("[")] + toks)[1..] == toks;
  }

  lemma ElementRefused(t: Token, rest: seq<Token>, done: seq<Obj>)
    requires PlainCommand(t) || t == TError
    ensures GetArray([t] + rest, done, true) == GetArray(rest, done, false)
  {
    assert ([t] + rest)[1..] == rest;
  }

  lemma DictOpens(toks: seq<Token>)
    ensures GetObj([TCmd("<<")] + toks) == GetDict(toks, [], true)
  {
    assert ([TCmd("<<")] + toks)[1..] == toks;
  }

  lemma KeyRefused(t: Token, rest: seq<Token>, done: seq<Entry>)
    requires !t.TName? && t != TCmd(">>")
    ensures GetDict([t] + rest, done, true) == (Failed, [])
  {
  }

  lemma ValueRefused(key: string, t: Token, rest: seq<Token>, done: seq<Entry>, ok: bool)
    requires PlainCommand(t)
    ensures GetDict([TName(key)] + ([t] + rest), done, ok) == GetDict(rest, done, false)
    ensures GetDict([TName(key), TError] + rest, done, ok)
         == (if ok && UniqueKeys(done) then Good(Dict(done)) else Bad, rest)
  {
    var toks := [TName(key)] + ([t] + rest);
    assert toks[1..] == [t] + rest && ([t] + rest)[1..] == rest;
    assert ([TName(key), TError] + rest)[2..] == rest;
    hide UniqueKeys;
  }

  /** A dictionary with something else than a name for a key, or without an end, stops the reader; one with a
      command for a value or with a name twice is no operand; an illegal token for a value ends it early. */
  lemma DictRefused(a: seq<Entry>, key: string, t: Token, b: seq<Entry>, rest: seq<Token>)
    requires ConsistentEntries(a) && ConsistentEntries(b)
    ensures var open := [TCmd("<<")] + EntriesSyntax(a);
      && ReadItems(open) == [Malformed]
      && (!t.TName? && t != TCmd(">>") && NoRefAhead([t]) ==> ReadItems(open + ([t] + rest)) == [Malformed])
      && (PlainCommand(t) ==>
            ReadItems(open + ([TName(key)] + ([t] + (EntriesSyntax(b) + ([TCmd(">>")] + rest)))))
            == [BadObject] + ReadItems(rest))
      && (!UniqueKeys(a) ==> ReadItems(open + ([TCmd(">>")] + rest)) == [BadObject] + ReadItems(rest))
      && (UniqueKeys(a) ==> ReadItems(open + ([TName(key), TError] + rest)) == [Operand(Dict(a))] + ReadItems(rest))
  {
    hide GetObj, GetDict, EntriesSyntax, ConsistentEntries, UniqueKeys;
    var open := [TCmd("<<")] + EntriesSyntax(a);
    assert [] + a == a;
    Behind(a, []);
    NoEnd(a);
    assert open + [] == open;
    Behind(a, [TCmd(">>")] + rest);
    DictCloses(a, true, rest);
    Behind(a, [TName(key), TError] + rest);
    if !t.TName? && t != TCmd(">>") && NoRefAhead([t]) {
      Behind(a, [t] + rest);
      KeyRefused(t, rest, a);
    }
    ValueRefused(key, TCmd("n"), rest, a, true);
    if PlainCommand(t) {
      var behind := EntriesSyntax(b) + ([TCmd(">>")] + rest);
      Behind(a, [TName(key)] + ([t] + behind));
      ValueRefused(key, t, behind, a, true);
      EntriesTaken(b, a, false, [TCmd(">>")] + rest);
      DictCloses(a + b, false, rest);
    }
  }

  lemma NoEnd(a: seq<Entry>)
    ensures GetDict([], a, true) == (Failed, [])
  {
  }

  lemma Behind(a: seq<Entry>, rest: seq<Token>)
    requires ConsistentEntries(a) && NoRefAhead(rest)
    ensures GetObj([TCmd("<<")] + EntriesSyntax(a) + rest) == GetDict(rest, a, true)
  {
    hide GetObj, GetDict, EntriesSyntax, ConsistentEntries;
    EntriesTaken(a, [], true, rest);
    assert [] + a == a;
    DictOpens(EntriesSyntax(a) + rest);
    Regrouped([TCmd("<<")], EntriesSyntax(a), rest);
  }
}
