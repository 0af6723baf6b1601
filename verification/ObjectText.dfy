/** The text form of PDF objects and of content stream operators, as the editor writes it. */
module ObjectText {
  import opened Forests
  import opened PdfObjects
  import opened PdfOperators

  // ------------------------------------------------------------------------------------------
  // Numbers
  // ------------------------------------------------------------------------------------------

  function Digit(d: nat): char
    requires d < 10
  {
    ('0' as int + d) as char
  }

  function NatText(n: nat): string {
    if n < 10 then [Digit(n)] else NatText(n / 10) + [Digit(n % 10)]
  }

  function IntText(i: int): string {
    if i < 0 then "-" + NatText(-i) else NatText(i)
  }

  /** |r| in hundred-thousandths, rounded to the nearest, ties to even. */
  function Hundredthousandths(r: real): nat {
    var scaled := (if r < 0.0 then -r else r) * 100000.0;
    var down := scaled.Floor;
    var left := scaled - down as real;
    if left < 0.5 || (left == 0.5 && down % 2 == 0) then down else down + 1
  }

  /** The five digits behind the decimal point. */
  function Decimals(u: nat): (t: string)
    ensures |t| == 5
  {
    [Digit(u / 10000 % 10), Digit(u / 1000 % 10), Digit(u / 100 % 10), Digit(u / 10 % 10), Digit(u % 10)]
  }

  /** printf's "%.5f". */
  function FixedText(r: real): string {
    var u := Hundredthousandths(r);
    (if r < 0.0 then "-" else "") + NatText(u / 100000) + "." + Decimals(u)
  }

  function TrimZeros(s: string): string {
    if s != "" && s[|s| - 1] == '0' then TrimZeros(s[..|s| - 1]) else s
  }

  /** Drops trailing zeros behind the decimal point, and the point itself when nothing is left behind it. */
  function Trimmed(whole: string, decimals: string): string {
    var d := TrimZeros(decimals);
    if d == "" then whole else whole + "." + d
  }

  /** A number without the zeros behind its last other decimal. */
  function TrimText(text: string): string {
    var d := IndexOf(text, '.');
    if d == |text| then text else Trimmed(text[..d], text[d + 1..])
  }

  const BUFFER_SIZE: nat := 64

  /** What the printer's buffer takes of a real: the characters that do not fit are lost. */
  function BufferedText(r: real): string {
    if |FixedText(r)| < BUFFER_SIZE - 1 then FixedText(r) else FixedText(r)[..BUFFER_SIZE - 2]
  }

  function RealText(r: real): string {
    TrimText(BufferedText(r))
  }

  // ------------------------------------------------------------------------------------------
  // Strings and names
  // ------------------------------------------------------------------------------------------

  predicate IsParen(c: char) {
    c == '(' || c == ')'
  }

  /** State of the right-to-left scan over a string: the text kept so far, and whether its first
      character still needs a backslash in front of it. */
  datatype Scan = Scan(out: string, needEscape: bool)

  function ScanChar(c: char, s: Scan): Scan {
    var out := if c != '\\' && s.needEscape then "\\" + s.out else s.out;
    var need := c == '\\' && !s.needEscape;
    Scan([c] + out, need || IsParen(c))
  }

  function ScanString(s: string): Scan {
    if s == "" then Scan("", false) else ScanChar(s[0], ScanString(s[1..]))
  }

  function Closed(s: Scan): string {
    if s.needEscape then "\\" + s.out else s.out
  }

  /** makeStringPdfValid. */
  function Escaped(s: string): string {
    Closed(ScanString(s))
  }

  predicate IsPrint(c: char) {
    ' ' <= c <= '~'
  }

  predicate IsBinary(s: string) {
    exists i :: 0 <= i < |s| && !IsPrint(s[i])
  }

  function HexDigit(d: nat): char
    requires d < 16
  {
    if d < 10 then Digit(d) else ('a' as int + (d - 10)) as char
  }

  /** Two hexadecimal digits for the low byte of c. */
  function HexText(c: char): string {
    [HexDigit(c as int / 16 % 16), HexDigit(c as int % 16)]
  }

  function HexBytes(s: string): string {
    if s == "" then "" else HexText(s[0]) + HexBytes(s[1..])
  }

  /** makeHexString: one leading backslash is skipped. */
  function HexString(s: string): string {
    if s != "" && s[0] == '\\' then HexBytes(s[1..]) else HexBytes(s)
  }

  function StrText(s: string): string {
    if IsBinary(s) then "<" + HexString(s) + ">" else "(" + Escaped(s) + ")"
  }

  function NameChar(c: char): string {
    if c < '!' || '~' < c then "#" + HexText(c) else [c]
  }

  /** makeNamePdfValid. */
  function NameText(n: string): string {
    if n == "" then "" else NameChar(n[0]) + NameText(n[1..])
  }

  // ------------------------------------------------------------------------------------------
  // Objects and operators
  // ------------------------------------------------------------------------------------------

  function ObjText(o: Obj): string {
    match o
    case Null => "null"
    case Bool(b) => if b then "true" else "false"
    case Int(i) => IntText(i)
    case Real(r) => RealText(r)
    case Str(s) => StrText(s)
    case Name(n) => "/" + NameText(n)
    case Ref(num, gen) => IntText(num) + " " + IntText(gen) + " R"
    case Array(items) => "[" + ItemsText(items) + " ]"
    case Dict(entries) => "<<" + EntriesText(entries) + "\n>>"
  }

  function ItemsText(items: seq<Obj>): string {
    if items == [] then "" else " " + ObjText(items[0]) + ItemsText(items[1..])
  }

  function EntriesText(entries: seq<Entry>): string {
    if entries == [] then ""
    else "\n/" + NameText(entries[0].key) + " " + ObjText(entries[0].value) + EntriesText(entries[1..])
  }

  function OperandsText(operands: seq<Obj>): string {
    if operands == [] then "" else ObjText(operands[0]) + " " + OperandsText(operands[1..])
  }

  /** The entries of an inline image: names as they are. */
  function ImageEntriesText(entries: seq<Entry>): string {
    if entries == [] then ""
    else "/" + entries[0].key + " " + ObjText(entries[0].value) + "\n" + ImageEntriesText(entries[1..])
  }

  const NUL: char := 0 as char

  /** CInlineImage::getStringRepresentation, with a NUL between ID and the data. */
  function ImageText(entries: seq<Entry>, bytes: string): string {
    ImageEntriesText(entries) + "ID" + [NUL] + bytes
  }

  /** An operator without its children: operands and name, or the opening name of a composite. */
  function LabelText(l: Label): string {
    match l
    case Simple(name, operands) => OperandsText(operands) + name
    case Composite(begin, _) => begin + " "
    case InlineImage(entries, bytes) => "BI\n" + ImageText(entries, bytes) + "EI\n"
  }

  function ForestText(f: Forest<Label>): string {
    match f
    case Empty => ""
    case Tree(r, k, s) => LabelText(r) + ForestText(k) + " " + ForestText(s)
  }
}
