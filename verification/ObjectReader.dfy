/** PDF objects from tokens: the parser behind the content stream reader, with its lookahead of two tokens. */
module ObjectReader {
  import opened PdfObjects
  import opened Lexer
  import opened StreamGrammar

  /** An object, a command, something that is no operand (raises the object exception when used as one), or
      a broken array or dictionary (raises the document exception). */
  datatype Read = Good(o: Obj) | Cmd(c: string) | Bad | Failed

  /** Parser::getObj, on a non-empty token list. */
  function GetObj(toks: seq<Token>): (r: (Read, seq<Token>))
    requires toks != []
    ensures |r.1| < |toks|
    decreases |toks|, 0
  {
    match toks[0]
    case TCmd(c) =>
      if c == "[" then GetArray(toks[1..], [], true)
      else if c == "<<" then GetDict(toks[1..], [], true)
      else (Cmd(c), toks[1..])
    case TInt(i) =>
      if |toks| >= 3 && toks[1].TInt? && toks[2] == TCmd("R") then (Good(Ref(i, toks[1].i)), toks[3..])
      else (Good(Int(i)), toks[1..])
    case TReal(r) => (Good(Real(r)), toks[1..])
    case TStr(s) => (Good(Str(s)), toks[1..])
    case TName(n) => (Good(Name(n)), toks[1..])
    case TBool(b) => (Good(Bool(b)), toks[1..])
    case TNull => (Good(Null), toks[1..])
    case _ => (Bad, toks[1..])
  }

  /** The elements of an array up to its bracket; ok as long as all of them are objects. */
  function GetArray(toks: seq<Token>, items: seq<Obj>, ok: bool): (r: (Read, seq<Token>))
    ensures |r.1| <= |toks|
    decreases |toks|, 1
  {
    if toks == [] then (Failed, [])
    else if toks[0] == TCmd("]") then (if ok then Good(Array(items)) else Bad, toks[1..])
    else
      var (r, rest) := GetObj(toks);
      if r.Failed? then (Failed, rest)
      else if r.Good? then GetArray(rest, items + [r.o], ok)
      else GetArray(rest, items, false)
  }

  /** A dictionary; one with a repeated name is refused. */
  function MadeDict(entries: seq<Entry>, ok: bool): Read {
    if ok && UniqueKeys(entries) then Good(Dict(entries)) else Bad
  }

  /** The entries of a dictionary. An illegal token in the place of a value ends it early. */
  function GetDict(toks: seq<Token>, entries: seq<Entry>, ok: bool): (r: (Read, seq<Token>))
    ensures |r.1| <= |toks|
    decreases |toks|, 1
  {
    if toks == [] then (Failed, [])
    else if toks[0] == TCmd(">>") then (MadeDict(entries, ok), toks[1..])
    else if !toks[0].TName? || |toks| == 1 then (Failed, [])
    else if toks[1] == TError then (MadeDict(entries, ok), toks[2..])
    else
      var (r, rest) := GetObj(toks[1..]);
      if r.Failed? then (Failed, rest)
      else if r.Good? then GetDict(rest, entries + [Entry(toks[0].n, r.o)], ok)
      else GetDict(rest, entries, false)
  }

  /** getInlineImage, behind BI: names and values up to ID, and the data. What is no name is passed over. */
  function GetImage(toks: seq<Token>, entries: seq<Entry>, ok: bool): (r: (Item, seq<Token>))
    ensures |r.1| <= |toks|
    decreases |toks|
  {
    if toks == [] then (BadObject, [])
    else
      var (r, rest) := GetObj(toks);
      if r.Failed? then (BrokenImage, [])
      else if r == Cmd("ID") then
        if ok && UniqueKeys(entries) && rest != [] && rest[0].TData? then (Image(entries, rest[0].bytes), rest[1..])
        else (BadObject, rest)
      else if !(r.Good? && r.o.Name?) then GetImage(rest, entries, ok)
      else if rest == [] then (BadObject, [])
      else
        var (v, behind) := GetObj(rest);
        if v.Failed? then (BrokenImage, [])
        else if v.Good? then GetImage(behind, entries + [Entry(r.o.n, v.o)], ok)
        else GetImage(behind, entries, false)
  }

  /** What the content stream parser is given. Nothing is read behind a broken object. */
  function ReadItems(toks: seq<Token>): seq<Item>
    decreases |toks|
  {
    if toks == [] then []
    else
      var (r, rest) := GetObj(toks);
      match r
      case Good(o) => [Operand(o)] + ReadItems(rest)
      case Cmd(c) =>
        if c != "BI" then [Command(c)] + ReadItems(rest)
        else var (image, behind) := GetImage(rest, [], true); [image] + ReadItems(behind)
      case Bad => [BadObject] + ReadItems(rest)
      case Failed => [Malformed]
  }

  /** The items of a list of streams. */
  function StreamItems(streams: seq<string>): seq<Item> {
    if streams == [] then [] else ReadItems(Tokens(Input(streams[0], Context(streams[1..], false))))
  }
}
