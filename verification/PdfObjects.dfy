/** PDF object values, as operands of content stream operators and as entries of arrays and dictionaries. */
module PdfObjects {

  datatype Obj =
    | Null
    | Bool(b: bool)
    | Int(i: int)
    | Real(r: real)
    | Str(s: string)
    | Name(n: string)
    | Ref(num: int, gen: int)
    | Array(items: seq<Obj>)
    | Dict(entries: seq<Entry>)

  datatype Entry = Entry(key: string, value: Obj)

  /** No name stands for two entries. */
  predicate UniqueKeys(entries: seq<Entry>) {
    forall i, j :: 0 <= i < j < |entries| ==> entries[i].key != entries[j].key
  }
}
