/** Which objects and which streams come back from saving and reloading exactly as they were. */
module Stability {
  import opened Options
  import opened Forests
  import opened PdfObjects
  import opened PdfOperators
  import opened OperatorTable
  import opened ObjectText
  import opened StringEscape
  import opened TokenText
  import opened StreamGrammar
  import opened ObjectReader
  import opened ObjectRoundTrip
  import opened InlineImages
  import opened StreamRoundTrip
  import opened ContentStream

  // ------------------------------------------------------------------------------------------
  // Reals
  // ------------------------------------------------------------------------------------------

  predicate FiveDecimals(r: real) {
    (r * 100000.0).Floor as real == r * 100000.0
  }

  predicate Integral(r: real) {
    r.Floor as real == r
  }

  function NumberValue(o: Obj): real
    requires o.Int? || o.Real?
  {
    if o.Int? then o.i as real else o.r
  }

  lemma WholeFloor(r: real, n: int)
    requires r == n as real
    ensures r.Floor == n
  {
  }

  lemma NegatedIntegral(r: real)
    ensures Integral(r) ==> Integral(-r)
  {
    if Integral(r) {
      WholeFloor(-r, -r.Floor);
    }
  }

  /** The real comes back rounded to the nearest hundred-thousandth, unchanged exactly when it has five
      decimals, and as an integer exactly when it rounds to one. */
  lemma RoundedReal(r: real)
    ensures RereadReal(r).Int? || RereadReal(r).Real?
    ensures var v := NumberValue(RereadReal(r));
      && v == SignedValue(r < 0.0, Hundredthousandths(r)) as real / 100000.0
      && -0.000005 <= v - r <= 0.000005
      && (v == r <==> FiveDecimals(r))
      && (RereadReal(r).Int? <==> Integral(v))
  {
    var u := Hundredthousandths(r);
    var v := SignedValue(r < 0.0, u) as real / 100000.0;
    RoundingError(r);
    ExactRounding(r);
    if u % 100000 == 0 {
      assert u == u / 100000 * 100000;
      WholeFloor(v, SignedValue(r < 0.0, u / 100000));
    } else if Integral(v) {
      assert SignedValue(r < 0.0, u) == v.Floor * 100000;
    }
  }

  /** What is printed is the nearest number of hundred-thousandths, and of two as near the even one. */
  lemma NearestEven(r: real, n: nat)
    ensures var scaled := (if r < 0.0 then -r else r) * 100000.0;
      n == Hundredthousandths(r) <==>
        -0.5 <= n as real - scaled <= 0.5 && (n as real - scaled in {-0.5, 0.5} ==> n % 2 == 0)
  {
    var scaled := (if r < 0.0 then -r else r) * 100000.0;
    var down := scaled.Floor;
    assert down as real <= scaled < (down + 1) as real;
    if -0.5 <= n as real - scaled <= 0.5 {
      assert n == down || n == down + 1;
    }
  }

  lemma RoundingError(r: real)
    ensures -0.000005 <= SignedValue(r < 0.0, Hundredthousandths(r)) as real / 100000.0 - r <= 0.000005
  {
    var scaled := (if r < 0.0 then -r else r) * 100000.0;
    assert -0.5 <= Hundredthousandths(r) as real - scaled <= 0.5;
  }

  lemma ExactRounding(r: real)
    ensures SignedValue(r < 0.0, Hundredthousandths(r)) as real / 100000.0 == r <==> FiveDecimals(r)
  {
    var u := Hundredthousandths(r);
    if FiveDecimals(r) {
      NegatedIntegral(r * 100000.0);
      assert -r * 100000.0 == -(r * 100000.0);
    } else if SignedValue(r < 0.0, u) as real / 100000.0 == r {
      WholeFloor(r * 100000.0, SignedValue(r < 0.0, u));
    }
  }

  // ------------------------------------------------------------------------------------------
  // Objects
  // ------------------------------------------------------------------------------------------

  /** Comes back unchanged: at most five decimals, not integral; no escapes in strings. */
  predicate Stable(o: Obj) {
    match o
    case Real(r) => FiveDecimals(r) && !Integral(r)
    case Str(s) => StableStr(s)
    case Array(items) => StableItems(items)
    case Dict(entries) => StableEntries(entries)
    case _ => true
  }

  predicate StableStr(s: string) {
    if IsBinary(s) then s[0] != '\\' else NoEscapes(s)
  }

  predicate StableItems(items: seq<Obj>) {
    items == [] || (Stable(items[0]) && StableItems(items[1..]))
  }

  predicate StableEntries(entries: seq<Entry>) {
    entries == [] || (Stable(entries[0].value) && StableEntries(entries[1..]))
  }

  lemma StableReal(r: real)
    ensures RereadReal(r) == Real(r) <==> FiveDecimals(r) && !Integral(r)
    ensures FiveDecimals(r) && Integral(r) ==> RereadReal(r) == Int(r.Floor)
  {
    hide RereadReal, FiveDecimals;
    RoundedReal(r);
    if FiveDecimals(r) && Integral(r) {
      WholeFloor(r, RereadReal(r).i);
    }
  }

  /** An object is its own normal form exactly when it is stable. */
  lemma {:induction false} StableIsNormal(o: Obj)
    ensures Normal(o) == o <==> Stable(o)
    decreases o
  {
    hide RereadReal, RereadStr, FiveDecimals, Integral, StableStr, NormalItems, NormalEntries, StableItems,
         StableEntries;
    match o
    case Real(r) => StableReal(r);
    case Str(s) => StrIsNormal(s);
    case Array(items) => StableItemsAreNormal(items);
    case Dict(entries) => StableEntriesAreNormal(entries);
    case _ =>
  }

  lemma StrIsNormal(s: string)
    ensures RereadStr(s) == s <==> StableStr(s)
  {
    RereadStrIsIdentity(s);
  }

  lemma {:induction false} StableItemsAreNormal(items: seq<Obj>)
    ensures NormalItems(items) == items <==> StableItems(items)
    decreases items
  {
    hide Normal, Stable;
    if items != [] {
      StableIsNormal(items[0]);
      StableItemsAreNormal(items[1..]);
      assert NormalItems(items)[1..] == NormalItems(items[1..]);
      assert items == [items[0]] + items[1..];
    }
  }

  lemma {:induction false} StableEntriesAreNormal(entries: seq<Entry>)
    ensures NormalEntries(entries) == entries <==> StableEntries(entries)
    decreases entries
  {
    hide Normal, Stable;
    if entries != [] {
      StableIsNormal(entries[0].value);
      StableEntriesAreNormal(entries[1..]);
      assert NormalEntries(entries)[1..] == NormalEntries(entries[1..]);
      assert entries == [entries[0]] + entries[1..];
    }
  }

  // ------------------------------------------------------------------------------------------
  // Operators and streams
  // ------------------------------------------------------------------------------------------

  /** Operands that a known operator gets back unchanged: a real it takes may be integral. */
  predicate StableOperand(o: Obj) {
    if o.Real? then FiveDecimals(o.r) else Stable(o)
  }

  predicate StableOperands(operands: seq<Obj>) {
    operands == [] || (StableOperand(operands[0]) && StableOperands(operands[1..]))
  }

  predicate StableLabel(l: Label) {
    match l
    case Simple(name, operands) => if FindOp(name).Some? then StableOperands(operands) else StableItems(operands)
    case Composite(_, _) => true
    case InlineImage(entries, _) => StableEntries(entries)
  }

  predicate StableForest(f: Forest<Label>) {
    match f
    case Empty => true
    case Tree(l, k, s) => StableLabel(l) && StableForest(k) && StableForest(s)
  }

  lemma OperandComesBack(allowed: set<Kind>, o: Obj)
    requires FixOperand(allowed, o) == Some(o) && (KReal in allowed ==> KInt in allowed)
    ensures FixOperand(allowed, Normal(o)).Some?
    ensures FixOperand(allowed, Normal(o)) == Some(o) <==> StableOperand(o)
  {
    KindIsKept(allowed, o);
    if o.Real? {
      StableReal(o.r);
      RoundedReal(o.r);
    } else {
      NormalKind(o);
      StableIsNormal(o);
    }
    hide RereadReal, RereadStr, NormalItems, NormalEntries, Stable, FiveDecimals;
  }

  lemma {:induction false} OperandsComeBack(spec: OpSpec, pos: nat, operands: seq<Obj>)
    requires FixOperands(spec, pos, operands) == Some(operands)
    requires forall i: nat :: KReal in spec.Allows(i) ==> KInt in spec.Allows(i)
    ensures FixOperands(spec, pos, NormalItems(operands)) == Some(operands) <==> StableOperands(operands)
    decreases operands
  {
    hide Normal, StableOperand;
    if operands != [] {
      var fixed := FixOperands(spec, pos + 1, operands[1..]).value;
      assert operands[1..] == fixed && operands == [operands[0]] + fixed;
      OperandComesBack(spec.Allows(pos), operands[0]);
      OperandsComeBack(spec, pos + 1, operands[1..]);
      NormalFixes(spec, pos + 1, operands[1..]);
      assert NormalItems(operands)[1..] == NormalItems(operands[1..]);
    }
  }

  lemma LabelComesBack(l: Label)
    requires Canonical(l) && Makes(l)
    ensures Makes(NormalLabel(l))
    ensures MadeLabel(NormalLabel(l)) == l <==> StableLabel(l)
  {
    hide FindOp, NormalItems, FixOperands, StableItems, StableOperands;
    NormalMakes(l);
    if l.Simple? {
      if FindOp(l.name).Some? {
        var spec := FindOp(l.name).value;
        forall i: nat ensures KReal in spec.Allows(i) ==> KInt in spec.Allows(i) {
          RealsMayBeInts(l.name, i);
        }
        NormalLength(l.operands);
        OperandsComeBack(spec, 0, l.operands);
        NormalFixes(spec, 0, l.operands);
      } else {
        StableItemsAreNormal(l.operands);
      }
    } else if l.InlineImage? {
      StableEntriesAreNormal(l.entries);
    }
  }

  /** Saving and reloading gives back the same forest exactly when all its operands are stable. */
  lemma {:induction false} SameAfterReload(f: Forest<Label>)
    requires WellNested(f)
    ensures Makeable(f) && (Reloaded(f) == f <==> StableForest(f))
  {
    hide Canonical, Makes, MadeLabel, NormalLabel, StableLabel;
    WellNestedIsMade(f);
    match f
    case Empty =>
    case Tree(l, k, s) =>
      LabelComesBack(l);
      SameAfterReload(k);
      SameAfterReload(s);
      NormalMakeable(f);
  }

  // ------------------------------------------------------------------------------------------
  // Reloading settles
  // ------------------------------------------------------------------------------------------

  /** All strings in an object are stable. */
  predicate StableStrings(o: Obj) {
    match o
    case Str(s) => StableStr(s)
    case Array(items) => StableStringItems(items)
    case Dict(entries) => StableStringEntries(entries)
    case _ => true
  }

  predicate StableStringItems(items: seq<Obj>) {
    items == [] || (StableStrings(items[0]) && StableStringItems(items[1..]))
  }

  predicate StableStringEntries(entries: seq<Entry>) {
    entries == [] || (StableStrings(entries[0].value) && StableStringEntries(entries[1..]))
  }

  predicate StableStringLabel(l: Label) {
    match l
    case Simple(_, operands) => StableStringItems(operands)
    case Composite(_, _) => true
    case InlineImage(entries, _) => StableStringEntries(entries)
  }

  predicate StableStringForest(f: Forest<Label>) {
    match f
    case Empty => true
    case Tree(l, k, s) =>
      StableStringLabel(l) && StableStringForest(k) && StableStringForest(s)
  }

  /** A rounded real is rounded to itself. */
  lemma RoundedTwice(r: real)
    ensures var v := NumberValue(RereadReal(r)); FiveDecimals(v) && Hundredthousandths(v) == Hundredthousandths(r)
  {
    var u := Hundredthousandths(r);
    RoundedReal(r);
    var v := NumberValue(RereadReal(r));
    WholeFloor(v * 100000.0, SignedValue(r < 0.0, u));
    WholeFloor(u as real, u);
    assert (if v < 0.0 then -v else v) * 100000.0 == u as real;
  }

  lemma WholeHasDecimals(i: int)
    ensures FiveDecimals(i as real)
  {
    WholeFloor(i as real * 100000.0, i * 100000);
  }

  lemma NormalRealSettles(r: real)
    requires Readable(Real(r))
    ensures Stable(Normal(Real(r))) && Readable(Normal(Real(r)))
    ensures ReadsAsInt(Normal(Real(r))) <==> ReadsAsInt(Real(r))
    ensures Normal(Real(r)).Int? || Normal(Real(r)).Real?
  {
    RoundedReal(r);
    RoundedTwice(r);
    var v := NumberValue(RereadReal(r));
    RoundedReal(v);
    hide FiveDecimals, Integral, Hundredthousandths;
  }

  /** The length of all strings in an object. */
  function StringsSize(o: Obj): nat {
    match o
    case Str(s) => |s|
    case Array(items) => ItemsSize(items)
    case Dict(entries) => EntriesSize(entries)
    case _ => 0
  }

  function ItemsSize(items: seq<Obj>): nat {
    if items == [] then 0 else StringsSize(items[0]) + ItemsSize(items[1..])
  }

  function EntriesSize(entries: seq<Entry>): nat {
    if entries == [] then 0 else StringsSize(entries[0].value) + EntriesSize(entries[1..])
  }

  function LabelSize(l: Label): nat {
    match l
    case Simple(_, operands) => ItemsSize(operands)
    case Composite(_, _) => 0
    case InlineImage(entries, _) => EntriesSize(entries)
  }

  function ForestSize(f: Forest<Label>): nat {
    match f
    case Empty => 0
    case Tree(l, k, s) => LabelSize(l) + ForestSize(k) + ForestSize(s)
  }

  lemma {:induction false} RereadKeepsBytes(s: string)
    requires Bytes(s)
    ensures Bytes(Reread(s))
  {
    if s != "" {
      RereadKeepsBytes(Unit(s).1);
    }
  }

  lemma StrShrinks(s: string)
    requires Bytes(s)
    ensures Bytes(RereadStr(s))
    ensures if StableStr(s) then RereadStr(s) == s else |RereadStr(s)| < |s|
  {
    hide Reread;
    RereadKeepsBytes(s);
    RereadStrIsIdentity(s);
  }

  /** What is read back is readable again; an object whose strings are stable settles, and one with another string
      gets shorter. */
  lemma {:induction false} NormalSettles(o: Obj)
    requires Readable(o)
    ensures Readable(Normal(o)) && (ReadsAsInt(Normal(o)) <==> ReadsAsInt(o))
    ensures if StableStrings(o) then Stable(Normal(o)) else StringsSize(Normal(o)) < StringsSize(o)
    ensures StringsSize(Normal(o)) <= StringsSize(o)
    decreases o
  {
    hide RereadReal, RereadStr, StableStr, NormalItems, NormalEntries, StableItems, StableEntries, ItemsSize,
         ReadableItems, ReadableEntries, StableStringItems, StableStringEntries, FiveDecimals, Integral, EntriesSize;
    match o
    case Real(r) => NormalRealSettles(r);
    case Str(s) => StrShrinks(s);
    case Array(items) => NormalItemsSettle(items);
    case Dict(entries) =>
      NormalEntriesSettle(entries);
      SameKeys(entries);
    case _ =>
  }

  lemma {:induction false} NormalItemsSettle(items: seq<Obj>)
    requires ReadableItems(items)
    ensures ReadableItems(NormalItems(items))
    ensures if StableStringItems(items) then StableItems(NormalItems(items))
            else ItemsSize(NormalItems(items)) < ItemsSize(items)
    ensures ItemsSize(NormalItems(items)) <= ItemsSize(items)
    decreases items
  {
    hide Normal, Stable, Readable, StableStrings, StringsSize;
    if items != [] {
      NormalSettles(items[0]);
      NormalItemsSettle(items[1..]);
      assert NormalItems(items)[1..] == NormalItems(items[1..]);
    }
  }

  lemma {:induction false} StillRaw(entries: seq<Entry>)
    requires RawKeys(entries)
    ensures RawKeys(NormalEntries(entries))
  {
    hide Normal, RawName;
    if entries != [] {
      StillRaw(entries[1..]);
      assert NormalEntries(entries)[1..] == NormalEntries(entries[1..]);
    }
  }

  lemma {:induction false} NormalEntriesSettle(entries: seq<Entry>)
    requires ReadableEntries(entries)
    ensures ReadableEntries(NormalEntries(entries))
    ensures if StableStringEntries(entries) then StableEntries(NormalEntries(entries))
            else EntriesSize(NormalEntries(entries)) < EntriesSize(entries)
    ensures EntriesSize(NormalEntries(entries)) <= EntriesSize(entries)
    decreases entries
  {
    hide Normal, Stable, Readable, StableStrings, StringsSize;
    if entries != [] {
      NormalSettles(entries[0].value);
      NormalEntriesSettle(entries[1..]);
      assert NormalEntries(entries)[1..] == NormalEntries(entries[1..]);
    }
  }

  /** Converting an operand to the type its operator takes leaves it readable, and stable if it was. */
  lemma FixSettles(allowed: set<Kind>, o: Obj)
    requires Readable(o) && FixOperand(allowed, o).Some?
    ensures var fixed := FixOperand(allowed, o).value;
      Readable(fixed) && StringsSize(fixed) == StringsSize(o) && (Stable(o) ==> StableOperand(fixed))
  {
    if o.Int? {
      WholeHasDecimals(o.i);
      WholeReadable(o.i);
    }
  }

  lemma WholeReadable(i: int)
    requires FitsInt(i)
    ensures Readable(Real(i as real))
  {
    var n := if i < 0 then -i else i;
    WholeFloor(n as real * 100000.0, n * 100000);
  }

  lemma {:induction false} FixedOperandsSettle(spec: OpSpec, pos: nat, operands: seq<Obj>)
    requires ReadableItems(operands) && FixOperands(spec, pos, operands).Some?
    ensures var fixed := FixOperands(spec, pos, operands).value;
      && ReadableItems(fixed) && ItemsSize(fixed) == ItemsSize(operands)
      && (StableItems(operands) ==> StableOperands(fixed))
    decreases operands
  {
    hide Readable, Stable, StableOperand, FixOperand, StringsSize;
    if operands != [] {
      FixSettles(spec.Allows(pos), operands[0]);
      FixedOperandsSettle(spec, pos + 1, operands[1..]);
      var fixed := FixOperands(spec, pos, operands).value;
      assert fixed[1..] == FixOperands(spec, pos + 1, operands[1..]).value;
    }
  }

  lemma {:induction false} NormalAt(operands: seq<Obj>, i: nat)
    requires i < |operands|
    ensures |NormalItems(operands)| == |operands| && NormalItems(operands)[i] == Normal(operands[i])
  {
    NormalLength(operands);
    if i > 0 {
      NormalAt(operands[1..], i - 1);
    }
  }

  lemma {:induction false} ReadableAt(operands: seq<Obj>, i: nat)
    requires ReadableItems(operands) && i < |operands|
    ensures Readable(operands[i])
  {
    if i > 0 {
      ReadableAt(operands[1..], i - 1);
    }
  }

  lemma StillNoRef(name: string, operands: seq<Obj>)
    requires ReadableItems(operands) && !HidesRef(name, operands)
    ensures !HidesRef(name, NormalItems(operands))
  {
    hide Normal, Readable, StableStrings, ReadsAsInt, NormalItems, ReadableItems, Stable, StringsSize;
    NormalLength(operands);
    if |operands| >= 2 {
      var i, j := |operands| - 2, |operands| - 1;
      NormalAt(operands, i);
      NormalAt(operands, j);
      ReadableAt(operands, i);
      ReadableAt(operands, j);
      NormalSettles(operands[i]);
      NormalSettles(operands[j]);
    }
  }

  lemma LabelSettles(l: Label)
    requires Makes(l) && PrintableLabel(l)
    ensures Makes(NormalLabel(l))
    ensures var m := MadeLabel(NormalLabel(l));
      && PrintableLabel(m) && LabelSize(m) <= LabelSize(l)
      && if StableStringLabel(l) then StableLabel(m) else LabelSize(m) < LabelSize(l)
  {
    hide NormalItems, FixOperands, StableItems, StableOperands, ReadableItems, StableStringItems, CommandWord,
         HidesRef, FindOp, ItemsSize;
    NormalMakes(l);
    if l.Simple? {
      var operands := NormalItems(l.operands);
      NormalItemsSettle(l.operands);
      StillNoRef(l.name, l.operands);
      OperandsUsedUp(l.name, operands);
      if FindOp(l.name).Some? {
        FixedOperandsSettle(FindOp(l.name).value, 0, operands);
        KnownHidesNoRef(l.name, MadeLabel(NormalLabel(l)).operands);
      }
    } else if l.InlineImage? {
      NormalEntriesSettle(l.entries);
      SameKeys(l.entries);
      StillRaw(l.entries);
    }
  }

  lemma KnownHidesNoRef(name: string, operands: seq<Obj>)
    requires FindOp(name).Some?
    ensures !HidesRef(name, operands)
  {
  }

  lemma {:induction false} ForestSettles(f: Forest<Label>)
    requires Makeable(f) && Printable(f)
    ensures Printable(Reloaded(f)) && ForestSize(Reloaded(f)) <= ForestSize(f)
    ensures if StableStringForest(f) then StableForest(Reloaded(f)) else ForestSize(Reloaded(f)) < ForestSize(f)
  {
    hide Makes, MadeLabel, NormalLabel, StableLabel, PrintableLabel, StableStringLabel, LabelSize;
    NormalMakeable(f);
    match f
    case Empty =>
    case Tree(l, k, s) =>
      LabelSettles(l);
      ForestSettles(k);
      ForestSettles(s);
  }

  /** Saving a forest to n streams and reading them again. */
  function Reload(f: Forest<Label>, n: nat): Forest<Label>
    requires n > 0
  {
    ParseAll(StreamItems(Saved(n, ForestText(f)))).0
  }

  function ReloadTimes(f: Forest<Label>, n: nat, k: nat): Forest<Label>
    requires n > 0
    decreases k
  {
    if k == 0 then f else ReloadTimes(Reload(f, n), n, k - 1)
  }

  /** Every printable, well-nested forest settles after a number of reloads bounded by the length of its strings:
      further ones change nothing any more. When no string changes, one is enough. */
  lemma {:induction false} ReloadSettles(f: Forest<Label>, n: nat) returns (k: nat)
    requires WellNested(f) && Printable(f) && n > 0
    ensures k <= ForestSize(f) + 1 && (StableStringForest(f) ==> k == 1)
    ensures StableForest(ReloadTimes(f, n, k)) && forall m :: m >= k ==> ReloadTimes(f, n, m) == ReloadTimes(f, n, k)
    decreases ForestSize(f)
  {
    WellNestedIsMade(f);
    ForestSettles(f);
    ReloadIs(f, n);
    hide *;
    var g := Reload(f, n);
    ReloadStep(f, n);
    if StableStringForest(f) {
      k := 1;
      SettledStays(g, n);
    } else {
      k := ReloadSettles(g, n);
      k := k + 1;
    }
  }

  lemma ReloadIs(f: Forest<Label>, n: nat)
    requires WellNested(f) && Printable(f) && n > 0
    ensures Makeable(f) && Reload(f, n) == Reloaded(f) && WellNested(Reload(f, n))
  {
    SaveThenReload(f, n);
  }

  lemma ReloadStep(f: Forest<Label>, n: nat)
    requires n > 0
    ensures ReloadTimes(f, n, 0) == f && ReloadTimes(f, n, 1) == Reload(f, n)
    ensures forall k :: k > 0 ==> ReloadTimes(f, n, k) == ReloadTimes(Reload(f, n), n, k - 1)
  {
    hide Reload;
  }

  lemma SettledStays(g: Forest<Label>, n: nat)
    requires WellNested(g) && Printable(g) && StableForest(g) && n > 0
    ensures forall m :: m >= 0 ==> ReloadTimes(g, n, m) == g
  {
    ReloadIs(g, n);
    SameAfterReload(g);
    hide *;
    forall m | m >= 0 ensures ReloadTimes(g, n, m) == g {
      SettledStaysFor(g, n, m);
    }
  }

  lemma {:induction false} SettledStaysFor(g: Forest<Label>, n: nat, m: nat)
    requires n > 0 && Reload(g, n) == g
    ensures ReloadTimes(g, n, m) == g
  {
    hide Reload;
    if m > 0 {
      SettledStaysFor(g, n, m - 1);
    }
  }
}
