/** The operators the editor knows, with their operands and end tags, and how an operator is made from a
    name and the operands read before it. */
module OperatorTable {
  import opened Options
  import opened PdfObjects
  import opened PdfOperators

  datatype Kind = KNull | KBool | KInt | KReal | KString | KName | KRef | KArray | KDict

  function KindOf(o: Obj): Kind {
    match o
    case Null => KNull
    case Bool(_) => KBool
    case Int(_) => KInt
    case Real(_) => KReal
    case Str(_) => KString
    case Name(_) => KName
    case Ref(_, _) => KRef
    case Array(_) => KArray
    case Dict(_) => KDict
  }

  /** argNum operands exactly, or at most -argNum when it is negative; types says what each may be. A
      non-empty end tag makes the operator a composite. */
  datatype OpSpec = OpSpec(argNum: int, types: seq<set<Kind>>, endTag: string)
  {
    function Allows(i: nat): set<Kind> {
      if i < |types| then types[i] else {}
    }
  }

  const NUMBER: set<Kind> := {KInt, KReal}

  function Numbers(n: nat): seq<set<Kind>> {
    if n == 0 then [] else [NUMBER] + Numbers(n - 1)
  }

  const NO_OPERANDS: set<string> :=
    {"B", "B*", "EMC", "ET", "EX", "F", "ID", "Q", "S", "T*", "W", "W*", "b", "b*", "f", "f*", "h", "n", "s"}

  const ONE_NUMBER: set<string> := {"G", "M", "TL", "Tc", "Ts", "Tw", "Tz", "g", "i", "w"}

  const ONE_NAME: set<string> := {"BMC", "CS", "Do", "MP", "cs", "gs", "ri", "sh"}

  /** StateUpdater::findOp. The table's first entry, a single backslash, sorts behind its neighbours, so the
      binary search never returns it. */
  function FindOp(name: string): Option<OpSpec> {
    if name in NO_OPERANDS then Some(OpSpec(0, [], ""))
    else if name == "q" then Some(OpSpec(0, [], "Q"))
    else if name == "BT" then Some(OpSpec(0, [], "ET"))
    else if name == "BX" then Some(OpSpec(0, [], "EX"))
    else if name == "BI" then Some(OpSpec(-1, [], "EI"))
    else if name == "EI" then Some(OpSpec(-10, [], ""))
    else if name in ONE_NUMBER then Some(OpSpec(1, Numbers(1), ""))
    else if name in ONE_NAME then Some(OpSpec(1, [{KName}], ""))
    else if name in {"J", "Tr", "j"} then Some(OpSpec(1, [{KInt}], ""))
    else if name in {"Tj", "'"} then Some(OpSpec(1, [{KString}], ""))
    else if name == "TJ" then Some(OpSpec(1, [{KArray}], ""))
    else if name in {"TD", "Td", "d0", "l", "m"} then Some(OpSpec(2, Numbers(2), ""))
    else if name in {"BDC", "DP"} then Some(OpSpec(2, [{KName}, {KDict, KName}], ""))
    else if name == "Tf" then Some(OpSpec(2, [{KName}, NUMBER], ""))
    else if name == "d" then Some(OpSpec(2, [{KArray}, NUMBER], ""))
    else if name in {"RG", "rg"} then Some(OpSpec(3, Numbers(3), ""))
    else if name in {"K", "k", "re", "v", "y"} then Some(OpSpec(4, Numbers(4), ""))
    else if name in {"SC", "sc"} then Some(OpSpec(-4, Numbers(4), ""))
    else if name in {"SCN", "scn"} then Some(OpSpec(-5, seq(5, _ => NUMBER + {KName}), ""))
    else if name in {"Tm", "c", "cm", "d1"} then Some(OpSpec(6, Numbers(6), ""))
    else None
  }

  /** An operand of an allowed kind; an integer where a real may stand becomes one. */
  function FixOperand(allowed: set<Kind>, o: Obj): Option<Obj> {
    if KindOf(o) !in allowed then None
    else if o.Int? && KReal in allowed then Some(Real(o.i as real))
    else Some(o)
  }

  function FixOperands(spec: OpSpec, pos: nat, operands: seq<Obj>): Option<seq<Obj>>
    decreases operands
  {
    if operands == [] then Some([])
    else match (FixOperand(spec.Allows(pos), operands[0]), FixOperands(spec, pos + 1, operands[1..]))
    case (Some(o), Some(os)) => Some([o] + os)
    case _ => None
  }

  /** checkAndFixOperator; None when the count or a kind is wrong. */
  function CheckAndFix(spec: OpSpec, operands: seq<Obj>): Option<seq<Obj>> {
    if (if spec.argNum >= 0 then |operands| != spec.argNum else |operands| > -spec.argNum) then None
    else FixOperands(spec, 0, operands)
  }

  /** createOperator; None stands for the exception thrown on operands of the wrong number or kind. An
      operator outside the table takes whatever operands there are. "BI" is not made here. */
  function CreateOperator(name: string, operands: seq<Obj>): Option<Label> {
    match FindOp(name)
    case None => Some(Simple(name, operands))
    case Some(spec) =>
      if name == "BI" then None
      else match CheckAndFix(spec, operands)
      case None => None
      case Some(fixed) => if spec.endTag == "" then Some(Simple(name, fixed)) else Some(Composite(name, spec.endTag))
  }

  // ------------------------------------------------------------------------------------------

  /** Every operator uses up all the operands read before it: no operand is left over for the next one. */
  lemma OperandsUsedUp(name: string, operands: seq<Obj>)
    requires CreateOperator(name, operands).Some?
    ensures var l := CreateOperator(name, operands).value;
      && l.OperatorName() == name && !l.InlineImage?
      && (l.Simple? ==> |l.operands| == |operands|)
      && (l.Composite? ==> operands == [] && l.endTag != "")
  {
    if FindOp(name).Some? {
      FixKeepsValues(FindOp(name).value, 0, operands);
    }
  }

  /** The only change made to an operand is from an integer to the equal real. */
  predicate SameNumber(a: Obj, b: Obj) {
    a == b || (a.Int? && b.Real? && b.r == a.i as real)
  }

  lemma {:induction false} FixKeepsValues(spec: OpSpec, pos: nat, operands: seq<Obj>)
    requires FixOperands(spec, pos, operands).Some?
    ensures var fixed := FixOperands(spec, pos, operands).value;
      |fixed| == |operands| && forall i :: 0 <= i < |fixed| ==> SameNumber(operands[i], fixed[i])
    decreases operands
  {
    if operands != [] {
      FixKeepsValues(spec, pos + 1, operands[1..]);
      assert forall i :: 1 <= i < |operands| ==> operands[i] == operands[1..][i - 1];
    }
  }

  /** Whether an operator with this table entry takes so many operands. */
  predicate TakesCount(spec: OpSpec, n: nat) {
    if spec.argNum >= 0 then n == spec.argNum else n <= -spec.argNum
  }

  /** An operator is made exactly from operands that its table entry allows, each in its own place, or from any
      operands when it is not in the table; an integer where a real may stand becomes the equal real, and nothing
      else changes. */
  lemma MadeExactly(name: string, operands: seq<Obj>)
    ensures FindOp(name) == None ==> CreateOperator(name, operands) == Some(Simple(name, operands))
    ensures FindOp(name).Some? ==>
              var spec := FindOp(name).value;
              CreateOperator(name, operands).Some? <==>
                && name != "BI" && TakesCount(spec, |operands|)
                && forall i :: 0 <= i < |operands| ==> KindOf(operands[i]) in spec.Allows(i)
    ensures FindOp(name).Some? && CreateOperator(name, operands).Some? ==>
              var spec, l := FindOp(name).value, CreateOperator(name, operands).value;
              if spec.endTag != "" then l == Composite(name, spec.endTag)
              else
                && l.Simple? && l.name == name && |l.operands| == |operands|
                && forall i :: 0 <= i < |operands| ==>
                     l.operands[i] == if operands[i].Int? && KReal in spec.Allows(i) then Real(operands[i].i as real)
                                      else operands[i]
  {
    if FindOp(name).Some? {
      FixedExactly(FindOp(name).value, 0, operands);
    }
    hide FindOp;
  }

  lemma {:induction false} FixedExactly(spec: OpSpec, pos: nat, operands: seq<Obj>)
    ensures FixOperands(spec, pos, operands).Some? <==>
            forall i :: 0 <= i < |operands| ==> KindOf(operands[i]) in spec.Allows(pos + i)
    ensures FixOperands(spec, pos, operands).Some? ==>
              var fixed := FixOperands(spec, pos, operands).value;
              && |fixed| == |operands|
              && forall i :: 0 <= i < |operands| ==>
                   fixed[i] == if operands[i].Int? && KReal in spec.Allows(pos + i) then Real(operands[i].i as real)
                               else operands[i]
    decreases operands
  {
    if operands != [] {
      var rest := operands[1..];
      FixedExactly(spec, pos + 1, rest);
      assert forall i :: 0 <= i < |rest| ==> rest[i] == operands[i + 1] && pos + 1 + i == pos + (i + 1);
      if forall i :: 0 <= i < |operands| ==> KindOf(operands[i]) in spec.Allows(pos + i) {
        assert KindOf(operands[0]) in spec.Allows(pos + 0);
        forall i | 0 <= i < |rest| ensures KindOf(rest[i]) in spec.Allows(pos + 1 + i) {
          assert KindOf(operands[i + 1]) in spec.Allows(pos + (i + 1));
        }
      }
      if FixOperands(spec, pos, operands).Some? {
        forall i | 0 <= i < |operands| ensures KindOf(operands[i]) in spec.Allows(pos + i) {
          assert i > 0 ==> KindOf(rest[i - 1]) in spec.Allows(pos + 1 + (i - 1));
        }
      }
    }
  }

  lemma {:induction false} FixTwice(spec: OpSpec, pos: nat, operands: seq<Obj>)
    requires FixOperands(spec, pos, operands).Some?
    ensures FixOperands(spec, pos, FixOperands(spec, pos, operands).value) == FixOperands(spec, pos, operands)
    decreases operands
  {
    if operands != [] {
      FixTwice(spec, pos + 1, operands[1..]);
      var fixed := FixOperands(spec, pos, operands).value;
      assert fixed[1..] == FixOperands(spec, pos + 1, operands[1..]).value;
    }
  }

  /** Making an operator again from its own name and operands gives the same operator. */
  lemma CreateTwice(name: string, operands: seq<Obj>)
    requires CreateOperator(name, operands).Some?
    ensures var l := CreateOperator(name, operands).value;
      CreateOperator(l.OperatorName(), if l.Simple? then l.operands else []) == Some(l)
  {
    OperandsUsedUp(name, operands);
    hide FindOp;
    if FindOp(name).Some? {
      FixTwice(FindOp(name).value, 0, operands);
      FixKeepsValues(FindOp(name).value, 0, operands);
    }
  }

  // ------------------------------------------------------------------------------------------
  // The standard's operators
  // ------------------------------------------------------------------------------------------

  /** Made as it stands, with no operand changed. */
  predicate Keeps(name: string, operands: seq<Obj>) {
    CreateOperator(name, operands) == Some(Simple(name, operands))
  }

  /** Every operand has a kind its place allows, and is not an integer where a real may stand. */
  predicate Fitting(types: seq<set<Kind>>, operands: seq<Obj>) {
    |operands| <= |types| &&
    forall i :: 0 <= i < |operands| ==>
      KindOf(operands[i]) in types[i] && !(operands[i].Int? && KReal in types[i])
  }

  lemma KeepsFitting(name: string, argNum: int, types: seq<set<Kind>>, operands: seq<Obj>)
    requires FindOp(name) == Some(OpSpec(argNum, types, "")) && name != "BI" && Fitting(types, operands)
    requires TakesCount(OpSpec(argNum, types, ""), |operands|)
    ensures Keeps(name, operands)
  {
    hide FindOp, CreateOperator;
    MadeExactly(name, operands);
    assert CreateOperator(name, operands).value.operands == operands;
  }

  lemma {:induction false} NumbersAre(n: nat)
    ensures |Numbers(n)| == n && forall i :: 0 <= i < n ==> Numbers(n)[i] == NUMBER
  {
    if n > 0 {
      NumbersAre(n - 1);
    }
  }

  predicate IsNumber(o: Obj) {
    o.Int? || o.Real?
  }

  function Reals(x: seq<real>): (os: seq<Obj>)
    ensures |os| == |x| && forall i :: 0 <= i < |x| ==> os[i] == Real(x[i])
  {
    seq(|x|, i requires 0 <= i < |x| => Real(x[i]))
  }

  predicate Accepts(name: string, operands: seq<Obj>) {
    CreateOperator(name, operands).Some?
  }

  /** Every operand has a kind its place allows. */
  predicate KindsFit(types: seq<set<Kind>>, operands: seq<Obj>) {
    |operands| <= |types| && forall i :: 0 <= i < |operands| ==> KindOf(operands[i]) in types[i]
  }

  predicate KindsAllowed(spec: OpSpec, operands: seq<Obj>) {
    forall i :: 0 <= i < |operands| ==> KindOf(operands[i]) in spec.Allows(i)
  }

  lemma KindsAreAllowed(spec: OpSpec, operands: seq<Obj>)
    ensures KindsFit(spec.types, operands) <==> KindsAllowed(spec, operands)
  {
    if KindsAllowed(spec, operands) {
      forall i | 0 <= i < |operands| ensures i < |spec.types| && KindOf(operands[i]) in spec.types[i] {
        assert KindOf(operands[i]) in spec.Allows(i);
        Allowed(spec, i, KindOf(operands[i]));
      }
      if operands != [] {
        var last := |operands| - 1;
        assert KindOf(operands[last]) in spec.Allows(last);
        Allowed(spec, last, KindOf(operands[last]));
      }
    }
    if KindsFit(spec.types, operands) {
      forall i | 0 <= i < |operands| ensures KindOf(operands[i]) in spec.Allows(i) {
        Allowed(spec, i, KindOf(operands[i]));
      }
    }
  }

  lemma AcceptsFitting(name: string, argNum: int, types: seq<set<Kind>>, operands: seq<Obj>)
    requires FindOp(name) == Some(OpSpec(argNum, types, "")) && name != "BI"
    ensures Accepts(name, operands) <==> TakesCount(OpSpec(argNum, types, ""), |operands|) && KindsFit(types, operands)
  {
    hide FindOp, CreateOperator;
    var spec := OpSpec(argNum, types, "");
    MadeExactly(name, operands);
    assert CreateOperator(name, operands).Some? <==> TakesCount(spec, |operands|) && KindsAllowed(spec, operands);
    hide KindsFit, KindsAllowed;
    KindsAreAllowed(spec, operands);
  }

  lemma Allowed(spec: OpSpec, i: nat, k: Kind)
    ensures k in spec.Allows(i) <==> i < |spec.types| && k in spec.types[i]
  {
  }

  /** Operators with n numbers. */
  lemma WithReals(name: string, n: nat, x: seq<real>, os: seq<Obj>)
    requires FindOp(name) == Some(OpSpec(n, Numbers(n), "")) && name != "BI"
    ensures |x| == n ==> Keeps(name, Reals(x))
    ensures Accepts(name, os) <==> |os| == n && forall i :: 0 <= i < n ==> IsNumber(os[i])
  {
    hide FindOp, CreateOperator, Reals, Numbers;
    NumbersAre(n);
    if |x| == n {
      KeepsFitting(name, n, Numbers(n), Reals(x));
    }
    AcceptsFitting(name, n, Numbers(n), os);
    assert forall o :: KindOf(o) in NUMBER <==> IsNumber(o);
  }

  /** The operators of Annex A of ISO 32000-1, but for the quotation mark, are made from exactly the operands given
      there, and with these as they stand. */
  lemma WithoutOperands(name: string, os: seq<Obj>)
    requires name in {"b", "B", "b*", "B*", "EMC", "ET", "EX", "f", "F", "f*", "h", "ID", "n", "Q", "s", "S", "T*",
                      "W", "W*"}
    ensures Keeps(name, [])
    ensures Accepts(name, os) <==> os == []
  {
    hide CreateOperator;
    KeepsFitting(name, 0, [], []);
    AcceptsFitting(name, 0, [], os);
  }

  lemma Composites(name: string, os: seq<Obj>)
    ensures CreateOperator("q", []) == Some(Composite("q", "Q"))
    ensures CreateOperator("BT", []) == Some(Composite("BT", "ET"))
    ensures CreateOperator("BX", []) == Some(Composite("BX", "EX"))
    ensures name in {"q", "BT", "BX"} ==> (Accepts(name, os) <==> os == [])
    ensures !Accepts("BI", os)
  {
  }

  lemma WithOneNumber(name: string, x: seq<real>, os: seq<Obj>)
    requires name in {"G", "g", "i", "M", "Tc", "TL", "Ts", "Tw", "Tz", "w"} && |x| == 1
    ensures Keeps(name, Reals(x))
    ensures Accepts(name, os) <==> |os| == 1 && IsNumber(os[0])
  {
    assert FindOp(name) == Some(OpSpec(1, Numbers(1), "")) by { hide Numbers; }
    hide *;
    WithReals(name, 1, x, os);
  }

  lemma WithTwoNumbers(name: string, x: seq<real>, os: seq<Obj>)
    requires name in {"d0", "l", "m", "Td", "TD"} && |x| == 2
    ensures Keeps(name, Reals(x))
    ensures Accepts(name, os) <==> |os| == 2 && forall i :: 0 <= i < 2 ==> IsNumber(os[i])
  {
    assert FindOp(name) == Some(OpSpec(2, Numbers(2), "")) by { hide Numbers; }
    hide *;
    WithReals(name, 2, x, os);
  }

  lemma WithThreeNumbers(name: string, x: seq<real>, os: seq<Obj>)
    requires name in {"RG", "rg"} && |x| == 3
    ensures Keeps(name, Reals(x))
    ensures Accepts(name, os) <==> |os| == 3 && forall i :: 0 <= i < 3 ==> IsNumber(os[i])
  {
    assert FindOp(name) == Some(OpSpec(3, Numbers(3), "")) by { hide Numbers; }
    hide *;
    WithReals(name, 3, x, os);
  }

  lemma WithFourNumbers(name: string, x: seq<real>, os: seq<Obj>)
    requires name in {"K", "k", "re", "v", "y"} && |x| == 4
    ensures Keeps(name, Reals(x))
    ensures Accepts(name, os) <==> |os| == 4 && forall i :: 0 <= i < 4 ==> IsNumber(os[i])
  {
    assert FindOp(name) == Some(OpSpec(4, Numbers(4), "")) by { hide Numbers; }
    hide *;
    WithReals(name, 4, x, os);
  }

  lemma WithSixNumbers(name: string, x: seq<real>, os: seq<Obj>)
    requires name in {"c", "cm", "Tm", "d1"} && |x| == 6
    ensures Keeps(name, Reals(x))
    ensures Accepts(name, os) <==> |os| == 6 && forall i :: 0 <= i < 6 ==> IsNumber(os[i])
  {
    assert FindOp(name) == Some(OpSpec(6, Numbers(6), "")) by { hide Numbers; }
    hide *;
    WithReals(name, 6, x, os);
  }

  /** A colour has up to four components; in other colour spaces a pattern's name may follow or stand alone. */
  lemma Colours(name: string, x: seq<real>, os: seq<Obj>)
    requires name in {"SC", "sc"} && |x| <= 4
    ensures Keeps(name, Reals(x))
    ensures Accepts(name, os) <==> |os| <= 4 && forall i :: 0 <= i < |os| ==> IsNumber(os[i])
  {
    assert FindOp(name) == Some(OpSpec(-4, Numbers(4), "")) by { hide Numbers; }
    hide FindOp, CreateOperator, Reals, Numbers;
    NumbersAre(4);
    KeepsFitting(name, -4, Numbers(4), Reals(x));
    AcceptsFitting(name, -4, Numbers(4), os);
    assert forall o :: KindOf(o) in NUMBER <==> IsNumber(o);
  }

  lemma Patterns(name: string, x: seq<real>, n: string, os: seq<Obj>)
    requires name in {"SCN", "scn"} && |x| <= 4
    ensures Keeps(name, Reals(x)) && Keeps(name, Reals(x) + [Name(n)])
    ensures Accepts(name, os) <==> |os| <= 5 && forall i :: 0 <= i < |os| ==> IsNumber(os[i]) || os[i].Name?
  {
    var types := seq(5, _ => NUMBER + {KName});
    assert FindOp(name) == Some(OpSpec(-5, types, "")) by { hide Numbers; }
    hide FindOp, CreateOperator, Reals, Numbers;
    KeepsFitting(name, -5, types, Reals(x));
    KeepsFitting(name, -5, types, Reals(x) + [Name(n)]);
    AcceptsFitting(name, -5, types, os);
    assert forall o :: KindOf(o) in NUMBER + {KName} <==> IsNumber(o) || o.Name?;
  }

  lemma WithInteger(name: string, i: int, os: seq<Obj>)
    requires name in {"J", "j", "Tr"}
    ensures Keeps(name, [Int(i)])
    ensures Accepts(name, os) <==> |os| == 1 && os[0].Int?
  {
    assert FindOp(name) == Some(OpSpec(1, [{KInt}], "")) by { hide Numbers; }
    hide FindOp, CreateOperator;
    KeepsFitting(name, 1, [{KInt}], [Int(i)]);
    AcceptsFitting(name, 1, [{KInt}], os);
  }

  lemma TakesName(name: string)
    requires name in {"BMC", "CS", "cs", "Do", "gs", "MP", "ri", "sh"}
    ensures FindOp(name) == Some(OpSpec(1, [{KName}], ""))
  {
    hide Numbers;
    assert name != "q" && name != "BT" && name != "BX" && name != "BI" && name != "EI";
    assert name !in NO_OPERANDS && name !in ONE_NUMBER && name in ONE_NAME;
  }

  lemma WithName(name: string, n: string, os: seq<Obj>)
    requires name in {"BMC", "CS", "cs", "Do", "gs", "MP", "ri", "sh"}
    ensures Keeps(name, [Name(n)])
    ensures Accepts(name, os) <==> |os| == 1 && os[0].Name?
  {
    TakesName(name);
    hide FindOp, CreateOperator;
    KeepsFitting(name, 1, [{KName}], [Name(n)]);
    AcceptsFitting(name, 1, [{KName}], os);
  }

  lemma WithText(name: string, s: string, items: seq<Obj>, os: seq<Obj>)
    requires name in {"Tj", "'", "TJ"}
    ensures Keeps(name, [if name == "TJ" then Array(items) else Str(s)])
    ensures Accepts(name, os) <==> |os| == 1 && if name == "TJ" then os[0].Array? else os[0].Str?
  {
    var types := if name == "TJ" then [{KArray}] else [{KString}];
    assert FindOp(name) == Some(OpSpec(1, types, "")) by { hide Numbers; }
    hide FindOp, CreateOperator;
    KeepsFitting(name, 1, types, [if name == "TJ" then Array(items) else Str(s)]);
    AcceptsFitting(name, 1, types, os);
  }

  lemma WithMark(name: string, n: string, m: string, entries: seq<Entry>, os: seq<Obj>)
    requires name in {"BDC", "DP"}
    ensures Keeps(name, [Name(n), Name(m)]) && Keeps(name, [Name(n), Dict(entries)])
    ensures Accepts(name, os) <==> |os| == 2 && os[0].Name? && (os[1].Name? || os[1].Dict?)
  {
    var types := [{KName}, {KDict, KName}];
    assert FindOp(name) == Some(OpSpec(2, types, "")) by { hide Numbers; }
    hide FindOp, CreateOperator;
    KeepsFitting(name, 2, types, [Name(n), Name(m)]);
    KeepsFitting(name, 2, types, [Name(n), Dict(entries)]);
    AcceptsFitting(name, 2, types, os);
  }

  lemma WithFontOrDash(name: string, x: real, n: string, items: seq<Obj>, os: seq<Obj>)
    requires name in {"Tf", "d"}
    ensures Keeps(name, [if name == "Tf" then Name(n) else Array(items), Real(x)])
    ensures Accepts(name, os) <==> |os| == 2 && (if name == "Tf" then os[0].Name? else os[0].Array?) && IsNumber(os[1])
  {
    var types := if name == "Tf" then [{KName}, NUMBER] else [{KArray}, NUMBER];
    assert FindOp(name) == Some(OpSpec(2, types, "")) by { hide Numbers; }
    hide FindOp, CreateOperator;
    KeepsFitting(name, 2, types, [if name == "Tf" then Name(n) else Array(items), Real(x)]);
    AcceptsFitting(name, 2, types, os);
  }

  /** EI without BI takes nothing, and an operator outside the table takes whatever operands there are. */
  lemma OtherOperators(name: string, os: seq<Obj>)
    requires name !in {"b", "B", "b*", "B*", "EMC", "ET", "EX", "f", "F", "f*", "h", "ID", "n", "Q", "s", "S", "T*",
                       "W", "W*", "q", "BT", "BX", "BI", "G", "g", "i", "M", "Tc", "TL", "Ts", "Tw", "Tz", "w", "d0",
                       "l", "m", "Td", "TD", "RG", "rg", "K", "k", "re", "v", "y", "c", "cm", "Tm", "d1", "SC", "sc",
                       "SCN", "scn", "J", "j", "Tr", "BMC", "CS", "cs", "Do", "gs", "MP", "ri", "sh", "Tj", "'", "TJ",
                       "BDC", "DP", "Tf", "d"}
    ensures if name == "EI" then Accepts(name, os) <==> os == [] else CreateOperator(name, os) == Some(Simple(name, os))
  {
    if name == "EI" {
      AcceptsFitting(name, -10, [], os);
    }
  }
}
