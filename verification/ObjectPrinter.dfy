/** The printer of PDF objects as loops over strings, buffers and containers. */
module ObjectPrinter {
  import opened PdfObjects
  import opened PdfOperators
  import opened ObjectText
  import opened StringEscape
  import opened TokenText

  // ------------------------------------------------------------------------------------------
  // Reals
  // ------------------------------------------------------------------------------------------

  const NUL: char := 0 as char

  /** The buffer holds the text as a C string. */
  predicate Holds(buf: array<char>, text: string)
    reads buf
  {
    && |text| < buf.Length && buf[|text|] == NUL
    && forall i :: 0 <= i < |text| ==> buf[i] == text[i] && text[i] != NUL
  }

  /** strlen. */
  method StrLen(buf: array<char>, ghost text: string) returns (n: nat)
    requires Holds(buf, text)
    ensures n == |text|
  {
    n := 0;
    while buf[n] != NUL
      invariant n <= |text|
      decreases |text| - n
    {
      n := n + 1;
    }
  }

  /** strchr for the decimal point. */
  method FindPoint(buf: array<char>, ghost text: string) returns (d: nat)
    requires Holds(buf, text)
    ensures d == IndexOf(text, '.')
  {
    d := 0;
    while buf[d] != NUL && buf[d] != '.'
      invariant d <= |text| && '.' !in text[..d]
      decreases |text| - d
    {
      TakeOneMore(text, d);
      d := d + 1;
    }
    FirstIndex(text, d);
  }

  lemma TrimOne(text: string, d: nat, p: nat)
    requires d < p < |text| && text[p] == '0'
    ensures TrimZeros(text[d + 1..p + 1]) == TrimZeros(text[d + 1..p])
  {
    var t := text[d + 1..p + 1];
    assert t[..|t| - 1] == text[d + 1..p];
  }

  lemma TrimDone(text: string, d: nat, p: nat)
    requires d <= p < |text| && text[d] == '.' && (p == d || text[p] != '0')
    ensures Trimmed(text[..d], text[d + 1..p + 1]) == if p == d then text[..d] else text[..p + 1]
  {
    var t := text[d + 1..p + 1];
    assert p > d ==> t[|t| - 1] == text[p] && text[..p + 1] == text[..d] + "." + t;
  }

  /** trim_trailing_zero: cuts the number in buf off behind its last decimal that is not zero. */
  method TrimTrailingZero(buf: array<char>, ghost text: string)
    requires Holds(buf, text)
    modifies buf
    ensures Holds(buf, TrimText(text))
  {
    hide IndexOf, TrimZeros, Trimmed;
    var decimal := FindPoint(buf, text);
    if buf[decimal] == NUL {
      return;
    }
    var p := StrLen(buf, text);
    p := p - 1;
    assert text[decimal + 1..] == text[decimal + 1..p + 1];
    while decimal < p && buf[p] == '0'
      invariant decimal <= p < |text| && Holds(buf, text[..p + 1])
      invariant TrimZeros(text[decimal + 1..]) == TrimZeros(text[decimal + 1..p + 1])
    {
      TrimOne(text, decimal, p);
      buf[p] := NUL;
      p := p - 1;
    }
    SameTrim(text[..decimal], text[decimal + 1..], text[decimal + 1..p + 1]);
    TrimDone(text, decimal, p);
    if p == decimal {
      buf[p] := NUL;
    }
  }

  lemma SameTrim(whole: string, d: string, e: string)
    requires TrimZeros(d) == TrimZeros(e)
    ensures Trimmed(whole, d) == Trimmed(whole, e)
  {
  }

  lemma FixedHasNoNul(r: real)
    ensures forall i :: 0 <= i < |FixedText(r)| ==> FixedText(r)[i] != NUL
  {
    hide NatText;
    NatHasNoPoint(Hundredthousandths(r) / 100000);
  }

  /** snprintf with "%.5f": at most one character less than its limit, and a NUL. */
  method PrintFixed(buf: array<char>, r: real, limit: nat) returns (ghost text: string)
    requires 0 < limit <= buf.Length
    modifies buf
    ensures text == if |FixedText(r)| < limit then FixedText(r) else FixedText(r)[..limit - 1]
    ensures Holds(buf, text)
  {
    FixedHasNoNul(r);
    hide FixedText, TrimText, RealText;
    var out := FixedText(r);
    var n := if |out| < limit then |out| else limit - 1;
    for i := 0 to n
      invariant forall j :: 0 <= j < i ==> buf[j] == out[j]
    {
      buf[i] := out[i];
    }
    buf[n] := NUL;
    text := out[..n];
  }

  /** The text of the string in a buffer. */
  method FromBuffer(buf: array<char>, ghost text: string) returns (str: string)
    requires Holds(buf, text)
    ensures str == text
  {
    str := "";
    var i := 0;
    while buf[i] != NUL
      invariant i <= |text| && str == text[..i]
      decreases |text| - i
    {
      TakeOneMore(text, i);
      str := str + [buf[i]];
      i := i + 1;
    }
  }

  /** simpleValueToString of a real. */
  method RealToString(r: real) returns (str: string)
    ensures str == RealText(r)
  {
    var buf := new char[BUFFER_SIZE];
    ghost var text := PrintFixed(buf, r, BUFFER_SIZE - 1);
    TrimTrailingZero(buf, text);
    str := FromBuffer(buf, TrimText(text));
  }

  // ------------------------------------------------------------------------------------------
  // Strings and names
  // ------------------------------------------------------------------------------------------

  method IsBinaryString(val: string) returns (r: bool)
    ensures r <==> IsBinary(val)
  {
    for i := 0 to |val|
      invariant forall j :: 0 <= j < i ==> IsPrint(val[j])
    {
      if !IsPrint(val[i]) {
        return true;
      }
    }
    return false;
  }

  lemma Append2(a: string, b: string, c: string)
    ensures a + (b + c) == a + b + c
  {
  }

  /** makeHexString; it looks at the first character, so there has to be one. */
  method MakeHexString(val: string) returns (tmp: string)
    requires val != ""
    ensures tmp == HexString(val)
  {
    tmp := "";
    var it := 0;
    if val[0] == '\\' {
      it := 1;
    }
    HexStart(val);
    hide *;
    while it < |val|
      invariant 0 <= it <= |val| && HexString(val) == tmp + HexBytes(val[it..])
    {
      HexFrom(val, it);
      Append2(tmp, HexText(val[it]), HexBytes(val[it + 1..]));
      tmp := tmp + HexText(val[it]);
      it := it + 1;
    }
  }

  lemma HexStart(val: string)
    requires val != ""
    ensures HexString(val) == "" + HexBytes(val[if val[0] == '\\' then 1 else 0..])
    ensures forall tmp: string :: tmp + HexBytes(val[|val|..]) == tmp
  {
    hide HexText;
    assert val[0..] == val;
    assert forall tmp: string :: tmp + "" == tmp;
  }

  lemma HexFrom(val: string, i: nat)
    requires i < |val|
    ensures HexBytes(val[i..]) == HexText(val[i]) + HexBytes(val[i + 1..])
  {
    hide HexText;
    assert val[i..][1..] == val[i + 1..];
  }

  lemma NameFrom(name: string, i: nat)
    requires i < |name|
    ensures NameText(name[i..]) == NameChar(name[i]) + NameText(name[i + 1..])
  {
    assert name[i..][1..] == name[i + 1..];
  }

  lemma NameEnd(name: string)
    ensures NameText(name[|name|..]) == "" && name[0..] == name
  {
  }

  method MakeNamePdfValid(name: string) returns (tmp: string)
    ensures tmp == NameText(name)
  {
    hide NameText, HexText;
    NameEnd(name);
    tmp := "";
    for it := 0 to |name|
      invariant NameText(name) == tmp + NameText(name[it..])
    {
      NameFrom(name, it);
      Append2(tmp, NameChar(name[it]), NameText(name[it + 1..]));
      if name[it] < '!' || '~' < name[it] {
        tmp := tmp + ("#" + HexText(name[it]));
      } else {
        tmp := tmp + [name[it]];
      }
    }
  }

  method StringToString(val: string) returns (str: string)
    ensures str == StrText(val)
  {
    hide Escaped, HexString;
    var validateStr := MakeStringPdfValid(val);
    var binary := IsBinaryString(val);
    if !binary {
      str := "(" + validateStr + ")";
    } else {
      var hex := MakeHexString(val);
      str := "<" + hex + ">";
    }
  }

  // ------------------------------------------------------------------------------------------
  // Objects
  // ------------------------------------------------------------------------------------------

  method ObjectToString(o: Obj) returns (str: string)
    ensures str == ObjText(o)
    decreases o, 1
  {
    match o
    case Null => str := "null";
    case Bool(b) => str := if b then "true" else "false";
    case Int(i) => str := IntText(i);
    case Real(r) => str := RealToString(r);
    case Str(s) => str := StringToString(s);
    case Name(n) => str := MakeNamePdfValid(n); str := "/" + str;
    case Ref(num, gen) => str := IntText(num) + " " + IntText(gen) + " R";
    case Array(items) => str := ArrayToString(o);
    case Dict(entries) => str := DictToString(o);
  }

  /** complexValueToString of an array. */
  method ArrayToString(o: Obj) returns (str: string)
    requires o.Array?
    ensures str == ObjText(o)
    decreases o, 0
  {
    var val := o.items;
    str := "[";
    for it := 0 to |val|
      invariant "[" + ItemsText(val) == str + ItemsText(val[it..])
    {
      ItemsFrom(val, it);
      var tmp := ObjectToString(val[it]);
      Append3(str, " ", tmp, ItemsText(val[it + 1..]));
      str := str + " " + tmp;
    }
    str := str + " ]";
  }

  lemma ItemsFrom(items: seq<Obj>, i: nat)
    requires i < |items|
    ensures ItemsText(items[i..]) == " " + ObjText(items[i]) + ItemsText(items[i + 1..])
  {
    hide ObjText;
    assert items[i..][1..] == items[i + 1..];
  }

  lemma Append3(a: string, b: string, c: string, d: string)
    ensures a + (b + c + d) == a + b + c + d
  {
  }

  /** complexValueToString of a dictionary. */
  method DictToString(o: Obj) returns (str: string)
    requires o.Dict?
    ensures str == ObjText(o)
    decreases o, 0
  {
    hide NameText;
    var val := o.entries;
    str := "<<";
    for it := 0 to |val|
      invariant "<<" + EntriesText(val) == str + EntriesText(val[it..])
    {
      EntriesFrom(val, it);
      var key := MakeNamePdfValid(val[it].key);
      var front := "\n/" + key + " ";
      var tmp := ObjectToString(val[it].value);
      Append3(str, front, tmp, EntriesText(val[it + 1..]));
      str := str + front + tmp;
    }
    str := str + "\n>>";
  }

  lemma EntriesFrom(entries: seq<Entry>, i: nat)
    requires i < |entries|
    ensures EntriesText(entries[i..])
         == "\n/" + NameText(entries[i].key) + " " + ObjText(entries[i].value) + EntriesText(entries[i + 1..])
  {
    hide ObjText, NameText;
    assert entries[i..][1..] == entries[i + 1..];
  }
}
