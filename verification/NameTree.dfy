/** Looking a named destination up in a name tree: a stack of nodes to visit, with subtrees left out whose
    limits exclude the name (section 7.9.6 of ISO 32000-1). */
module NameTree {
  import opened Options

  /** A node with kids, and limits if it has any, or a node with pairs of names and values. The references
      between nodes are taken as followed. */
  datatype Node =
    | Inner(limits: Option<Limits>, kids: seq<Node>)
    | Leaf(names: seq<Pair>)

  datatype Limits = Limits(least: string, greatest: string)

  datatype Pair = Pair(name: string, value: nat)

  /** Whether a comes before b in the order of strings. */
  predicate Precedes(a: string, b: string) {
    if b == "" then false
    else if a == "" then true
    else a[0] < b[0] || (a[0] == b[0] && Precedes(a[1..], b[1..]))
  }

  /** The first difference decides; a proper prefix comes first. */
  lemma {:induction false} FirstDifferenceDecides(a: string, b: string)
    ensures Precedes(a, b) <==>
            exists i :: 0 <= i <= |a| && i < |b| && a[..i] == b[..i] && (i == |a| || a[i] < b[i])
  {
    if a != "" && b != "" && a[0] == b[0] {
      var s, t := a[1..], b[1..];
      FirstDifferenceDecides(s, t);
      assert forall i :: 1 <= i <= |a| ==> a[..i] == [a[0]] + s[..i - 1];
      assert forall i :: 1 <= i <= |b| ==> b[..i] == [b[0]] + t[..i - 1];
      if j :| 0 <= j <= |s| && j < |t| && s[..j] == t[..j] && (j == |s| || s[j] < t[j]) {
        var i := j + 1;
        assert a[..i] == b[..i] && (i == |a| || a[i] < b[i]);
      }
      if i :| 0 <= i <= |a| && i < |b| && a[..i] == b[..i] && (i == |a| || a[i] < b[i]) {
        assert i > 0;
        var j := i - 1;
        assert a[..i][1..] == s[..j] && b[..i][1..] == t[..j];
        assert s[..j] == t[..j] && (j == |s| || s[j] < t[j]);
      }
    } else if b != "" {
      var i := 0;
      assert a[..i] == b[..i];
      if a != "" {
        forall j | 0 < j <= |a| && j < |b| ensures a[..j] != b[..j] {
          assert a[..j][0] == a[0] && b[..j][0] == b[0];
        }
      }
    }
  }

  /** Any two different strings are in order, in one way only. */
  lemma {:induction false} OneComesFirst(a: string, b: string)
    ensures Precedes(a, b) || a == b || Precedes(b, a)
    ensures !(Precedes(a, b) && Precedes(b, a)) && !Precedes(a, a)
    decreases |a|
  {
    if a != "" {
      OneComesFirst(a[1..], a[1..]);
      if b != "" {
        OneComesFirst(a[1..], b[1..]);
        assert a == [a[0]] + a[1..] && b == [b[0]] + b[1..];
      }
    }
  }

  lemma {:induction false} OrderGoesOn(a: string, b: string, c: string)
    requires Precedes(a, b) && Precedes(b, c)
    ensures Precedes(a, c)
    decreases |a|
  {
    if a != "" && a[0] == b[0] == c[0] {
      OrderGoesOn(a[1..], b[1..], c[1..]);
    }
  }

  predicate Excludes(limits: Option<Limits>, name: string) {
    limits.Some? && (Precedes(name, limits.value.least) || Precedes(limits.value.greatest, name))
  }

  /** All pairs below a node, from left to right. */
  function Pairs(n: Node): seq<Pair> {
    match n
    case Leaf(names) => names
    case Inner(_, kids) => PairsOf(kids)
  }

  function PairsOf(ns: seq<Node>): seq<Pair> {
    if ns == [] then [] else Pairs(ns[0]) + PairsOf(ns[1..])
  }

  /** The pairs the search looks at. */
  function Visited(n: Node, name: string): seq<Pair> {
    match n
    case Leaf(names) => names
    case Inner(limits, kids) => if Excludes(limits, name) then [] else VisitedOf(kids, name)
  }

  function VisitedOf(ns: seq<Node>, name: string): seq<Pair> {
    if ns == [] then [] else Visited(ns[0], name) + VisitedOf(ns[1..], name)
  }

  /** The value of the first pair with the name. */
  function First(pairs: seq<Pair>, name: string): Option<nat> {
    if pairs == [] then None else if pairs[0].name == name then Some(pairs[0].value) else First(pairs[1..], name)
  }

  /** The value stands with the name at the least position that has it. */
  lemma {:induction false} FirstIsLeast(pairs: seq<Pair>, name: string, value: nat)
    ensures First(pairs, name) == Some(value) <==>
            exists i :: 0 <= i < |pairs| && pairs[i] == Pair(name, value) &&
                        forall j :: 0 <= j < i ==> pairs[j].name != name
    ensures First(pairs, name) == None <==> forall i :: 0 <= i < |pairs| ==> pairs[i].name != name
  {
    if pairs != [] {
      var rest := pairs[1..];
      FirstIsLeast(rest, name, value);
      assert forall i :: 0 <= i < |rest| ==> rest[i] == pairs[i + 1];
      assert forall i :: 0 < i < |pairs| ==> pairs[i] == rest[i - 1];
      if pairs[0].name == name {
        assert pairs[0] == Pair(name, pairs[0].value);
      } else {
        if i :| 0 <= i < |rest| && rest[i] == Pair(name, value) && forall j :: 0 <= j < i ==> rest[j].name != name {
          var k := i + 1;
          assert pairs[k] == Pair(name, value) && forall j :: 0 <= j < k ==> pairs[j].name != name;
        }
        if k :| 0 <= k < |pairs| && pairs[k] == Pair(name, value) && forall j :: 0 <= j < k ==> pairs[j].name != name {
          var i := k - 1;
          assert rest[i] == Pair(name, value) && forall j :: 0 <= j < i ==> rest[j].name != name;
        }
      }
    }
  }

  lemma {:induction false} FirstOfConcat(a: seq<Pair>, b: seq<Pair>, name: string)
    ensures First(a + b, name) == if First(a, name).Some? then First(a, name) else First(b, name)
  {
    if a == [] {
      assert a + b == b;
    } else {
      assert (a + b)[1..] == a[1..] + b;
      FirstOfConcat(a[1..], b, name);
    }
  }

  // ------------------------------------------------------------------------------------------
  // The search
  // ------------------------------------------------------------------------------------------

  /** What the nodes on a stack, its top at the end, still have to show. */
  function Todo(refs: seq<Node>, name: string): seq<Pair> {
    if refs == [] then [] else Visited(refs[|refs| - 1], name) + Todo(refs[..|refs| - 1], name)
  }

  /** The number of nodes. */
  function Size(n: Node): nat {
    match n
    case Leaf(_) => 1
    case Inner(_, kids) => 1 + SizeOf(kids)
  }

  function SizeOf(ns: seq<Node>): nat {
    if ns == [] then 0 else Size(ns[0]) + SizeOf(ns[1..])
  }

  function StackSize(refs: seq<Node>): nat {
    if refs == [] then 0 else Size(refs[|refs| - 1]) + StackSize(refs[..|refs| - 1])
  }

  lemma Pushed(refs: seq<Node>, n: Node, name: string)
    ensures Todo(refs + [n], name) == Visited(n, name) + Todo(refs, name)
    ensures StackSize(refs + [n]) == Size(n) + StackSize(refs)
  {
    assert (refs + [n])[..|refs|] == refs;
  }

  lemma ListFront(ns: seq<Node>, i: nat, name: string)
    requires i < |ns|
    ensures VisitedOf(ns[i..], name) == Visited(ns[i], name) + VisitedOf(ns[i + 1..], name)
    ensures SizeOf(ns[i..]) == Size(ns[i]) + SizeOf(ns[i + 1..])
  {
    hide Visited, Size;
    assert ns[i..][1..] == ns[i + 1..];
  }

  /** Pushes kids so that the first one is on top. */
  method PushKids(refs: seq<Node>, kids: seq<Node>, ghost name: string) returns (r: seq<Node>)
    ensures Todo(r, name) == VisitedOf(kids, name) + Todo(refs, name)
    ensures StackSize(r) == SizeOf(kids) + StackSize(refs)
  {
    hide Visited, VisitedOf, Todo, Size, SizeOf, StackSize;
    r := refs;
    var i := |kids|;
    NothingVisited(kids, name);
    while i > 0
      invariant 0 <= i <= |kids|
      invariant Todo(r, name) == VisitedOf(kids[i..], name) + Todo(refs, name)
      invariant StackSize(r) == SizeOf(kids[i..]) + StackSize(refs)
    {
      i := i - 1;
      ListFront(kids, i, name);
      Pushed(r, kids[i], name);
      r := r + [kids[i]];
    }
    assert kids[0..] == kids;
  }

  lemma NothingVisited(kids: seq<Node>, name: string)
    ensures VisitedOf(kids[|kids|..], name) == [] && SizeOf(kids[|kids|..]) == 0
    ensures Todo([], name) == [] && First([], name) == None
  {
  }

  /** The first pair of a leaf with the name. */
  method FindInLeaf(names: seq<Pair>, name: string) returns (r: Option<nat>)
    ensures r == First(names, name)
  {
    var keyId := 0;
    while keyId < |names|
      invariant 0 <= keyId <= |names| && First(names, name) == First(names[keyId..], name)
    {
      assert names[keyId..][1..] == names[keyId + 1..];
      if names[keyId].name == name {
        return Some(names[keyId].value);
      }
      keyId := keyId + 1;
    }
    return None;
  }

  /** getDest: the value of the first pair with the name, in the order of the tree, among those not left out. */
  method GetDest(root: Node, name: string) returns (r: Option<nat>)
    ensures r == First(Visited(root, name), name)
  {
    hide Todo, StackSize, Visited, First, Excludes;
    var refs := [root];
    Pushed([], root, name);
    NothingVisited([], name);
    assert [] + [root] == refs && Visited(root, name) + [] == Visited(root, name);
    while refs != []
      invariant First(Visited(root, name), name) == First(Todo(refs, name), name)
      decreases StackSize(refs)
    {
      var n := refs[|refs| - 1];
      assert refs == refs[..|refs| - 1] + [n];
      refs := refs[..|refs| - 1];
      TopVisited(refs, n, name);
      match n
      case Inner(limits, kids) =>
        if !Excludes(limits, name) {
          refs := PushKids(refs, kids, name);
        }
      case Leaf(names) =>
        r := FindInLeaf(names, name);
        if r.Some? {
          return;
        }
    }
    return None;
  }

  /** One node taken from the stack. */
  lemma TopVisited(refs: seq<Node>, n: Node, name: string)
    ensures StackSize(refs + [n]) == Size(n) + StackSize(refs) > StackSize(refs)
    ensures n.Inner? ==> Size(n) == 1 + SizeOf(n.kids)
    ensures First(Todo(refs + [n], name), name) ==
      if n.Leaf? then if First(n.names, name).Some? then First(n.names, name) else First(Todo(refs, name), name)
      else if Excludes(n.limits, name) then First(Todo(refs, name), name)
      else First(VisitedOf(n.kids, name) + Todo(refs, name), name)
  {
    Pushed(refs, n, name);
    FirstOfConcat(Visited(n, name), Todo(refs, name), name);
  }

  // ------------------------------------------------------------------------------------------
  // Limits
  // ------------------------------------------------------------------------------------------

  /** From the least to the greatest name. */
  predicate Within(limits: Limits, name: string) {
    && (limits.least == name || Precedes(limits.least, name))
    && (name == limits.greatest || Precedes(name, limits.greatest))
  }

  /** A node is passed over exactly when it has limits and the name is not within them. */
  lemma ExcludedIffOutside(limits: Option<Limits>, name: string)
    ensures Excludes(limits, name) <==> limits.Some? && !Within(limits.value, name)
  {
    hide Precedes;
    if limits.Some? {
      OneComesFirst(limits.value.least, name);
      OneComesFirst(name, limits.value.greatest);
    }
  }

  /** The limits of every node bound the names below it. */
  predicate Bounded(n: Node) {
    match n
    case Leaf(_) => true
    case Inner(limits, kids) =>
      && (limits.Some? ==> forall i :: 0 <= i < |PairsOf(kids)| ==> Within(limits.value, PairsOf(kids)[i].name))
      && BoundedAll(kids)
  }

  predicate BoundedAll(ns: seq<Node>) {
    ns == [] || (Bounded(ns[0]) && BoundedAll(ns[1..]))
  }

  lemma {:induction false} AbsentName(pairs: seq<Pair>, name: string)
    requires forall i :: 0 <= i < |pairs| ==> pairs[i].name != name
    ensures First(pairs, name) == None
  {
    if pairs != [] {
      AbsentName(pairs[1..], name);
    }
  }

  /** Where the limits bound the names, leaving subtrees out changes nothing. */
  lemma {:induction false} PruningIsHarmless(n: Node, name: string)
    requires Bounded(n)
    ensures First(Visited(n, name), name) == First(Pairs(n), name)
    decreases n
  {
    hide Excludes, Within;
    match n
    case Leaf(_) =>
    case Inner(limits, kids) =>
      ExcludedIffOutside(limits, name);
      if Excludes(limits, name) {
        AbsentName(PairsOf(kids), name);
      } else {
        PruningKidsIsHarmless(kids, name);
      }
  }

  lemma {:induction false} PruningKidsIsHarmless(ns: seq<Node>, name: string)
    requires BoundedAll(ns)
    ensures First(VisitedOf(ns, name), name) == First(PairsOf(ns), name)
    decreases ns
  {
    hide Visited, Pairs, Bounded;
    if ns != [] {
      PruningIsHarmless(ns[0], name);
      PruningKidsIsHarmless(ns[1..], name);
      FirstOfConcat(Visited(ns[0], name), VisitedOf(ns[1..], name), name);
      FirstOfConcat(Pairs(ns[0]), PairsOf(ns[1..]), name);
    }
  }

  /** No name stands twice. */
  predicate DifferentNames(pairs: seq<Pair>) {
    forall i, j :: 0 <= i < j < |pairs| ==> pairs[i].name != pairs[j].name
  }

  predicate Lists(pairs: seq<Pair>, name: string) {
    exists i :: 0 <= i < |pairs| && pairs[i].name == name
  }

  lemma ListsConcat(a: seq<Pair>, b: seq<Pair>, name: string)
    ensures Lists(a + b, name) <==> Lists(a, name) || Lists(b, name)
  {
    var c := a + b;
    if i :| 0 <= i < |a| && a[i].name == name {
      assert c[i].name == name;
    }
    if j :| 0 <= j < |b| && b[j].name == name {
      assert c[|a| + j].name == name;
    }
  }

  lemma DifferentConcat(a: seq<Pair>, b: seq<Pair>, name: string)
    requires DifferentNames(a + b)
    ensures DifferentNames(a) && DifferentNames(b) && !(Lists(a, name) && Lists(b, name))
  {
    var c := a + b;
    assert forall i :: 0 <= i < |a| ==> c[i] == a[i];
    assert forall j :: 0 <= j < |b| ==> c[|a| + j] == b[j];
  }

  lemma {:induction false} FirstIffListed(pairs: seq<Pair>, name: string)
    ensures First(pairs, name).Some? <==> Lists(pairs, name)
  {
    if pairs != [] {
      FirstIffListed(pairs[1..], name);
      ListsConcat([pairs[0]], pairs[1..], name);
      assert [pairs[0]] + pairs[1..] == pairs;
    }
  }

  /** The search looks at pairs of the tree only. */
  lemma {:induction false} VisitedListed(n: Node, name: string)
    requires Lists(Visited(n, name), name)
    ensures Lists(Pairs(n), name)
    decreases n
  {
    match n
    case Leaf(_) =>
    case Inner(_, kids) => VisitedKidsListed(kids, name);
  }

  lemma {:induction false} VisitedKidsListed(ns: seq<Node>, name: string)
    requires Lists(VisitedOf(ns, name), name)
    ensures Lists(PairsOf(ns), name)
    decreases ns
  {
    hide Visited, Pairs, Lists;
    if ns == [] {
      ListsConcat([], [], name);
      FirstIffListed([], name);
    } else {
      ListsConcat(Visited(ns[0], name), VisitedOf(ns[1..], name), name);
      ListsConcat(Pairs(ns[0]), PairsOf(ns[1..]), name);
      if Lists(Visited(ns[0], name), name) {
        VisitedListed(ns[0], name);
      } else {
        VisitedKidsListed(ns[1..], name);
      }
    }
  }

  /** If some subtree, at any depth, does not keep to its limits, a name of the tree is not found. */
  lemma {:induction false} Hidden(n: Node) returns (name: string)
    requires !Bounded(n) && DifferentNames(Pairs(n))
    ensures Lists(Pairs(n), name) && !Lists(Visited(n, name), name)
    decreases n
  {
    var Inner(limits, kids) := n;
    hide Excludes, Within;
    if limits.Some? && !(forall i :: 0 <= i < |PairsOf(kids)| ==> Within(limits.value, PairsOf(kids)[i].name)) {
      var i :| 0 <= i < |PairsOf(kids)| && !Within(limits.value, PairsOf(kids)[i].name);
      name := PairsOf(kids)[i].name;
      ExcludedIffOutside(limits, name);
    } else {
      name := HiddenInKids(kids);
    }
  }

  lemma {:induction false} HiddenInKids(ns: seq<Node>) returns (name: string)
    requires !BoundedAll(ns) && DifferentNames(PairsOf(ns))
    ensures Lists(PairsOf(ns), name) && !Lists(VisitedOf(ns, name), name)
    decreases ns
  {
    hide Visited, Pairs, Bounded, Lists, DifferentNames;
    var a, b := Pairs(ns[0]), PairsOf(ns[1..]);
    DifferentConcat(a, b, "");
    if Bounded(ns[0]) {
      name := HiddenInKids(ns[1..]);
    } else {
      name := Hidden(ns[0]);
    }
    DifferentConcat(a, b, name);
    ListsConcat(a, b, name);
    ListsConcat(Visited(ns[0], name), VisitedOf(ns[1..], name), name);
    if Lists(Visited(ns[0], name), name) {
      VisitedListed(ns[0], name);
    } else if Lists(VisitedOf(ns[1..], name), name) {
      VisitedKidsListed(ns[1..], name);
    }
  }

  /** In a tree whose names are all different, every name is found as in a scan of all leaves exactly when the
      limits of every node, at any depth, bound the names below it. */
  lemma ScanIffBounded(n: Node)
    requires DifferentNames(Pairs(n))
    ensures Bounded(n) <==> forall name :: First(Visited(n, name), name) == First(Pairs(n), name)
  {
    if Bounded(n) {
      forall name ensures First(Visited(n, name), name) == First(Pairs(n), name) {
        PruningIsHarmless(n, name);
      }
    } else {
      var name := Hidden(n);
      FirstIffListed(Visited(n, name), name);
      FirstIffListed(Pairs(n), name);
    }
  }

  // ------------------------------------------------------------------------------------------
  // Trees as the standard has them
  // ------------------------------------------------------------------------------------------

  predicate Ascending(pairs: seq<Pair>) {
    forall i, j :: 0 <= i < j < |pairs| ==> Precedes(pairs[i].name, pairs[j].name)
  }

  /** Limits, where there are any, are the first and the last name below (section 7.9.6 of ISO 32000-1). */
  predicate Standard(n: Node) {
    match n
    case Leaf(_) => true
    case Inner(limits, kids) =>
      && (limits.Some? && PairsOf(kids) != [] ==>
            && limits.value.least == PairsOf(kids)[0].name
            && limits.value.greatest == PairsOf(kids)[|PairsOf(kids)| - 1].name)
      && StandardAll(kids)
  }

  predicate StandardAll(ns: seq<Node>) {
    ns == [] || (Standard(ns[0]) && StandardAll(ns[1..]))
  }

  lemma AscendingParts(a: seq<Pair>, b: seq<Pair>)
    requires Ascending(a + b)
    ensures Ascending(a) && Ascending(b)
  {
    var c := a + b;
    assert forall i :: 0 <= i < |a| ==> c[i] == a[i];
    assert forall j :: 0 <= j < |b| ==> c[|a| + j] == b[j];
  }

  lemma AscendingDiffer(pairs: seq<Pair>)
    requires Ascending(pairs)
    ensures DifferentNames(pairs)
  {
    forall i, j | 0 <= i < j < |pairs| ensures pairs[i].name != pairs[j].name {
      OneComesFirst(pairs[i].name, pairs[j].name);
    }
  }

  lemma WithinLimits(limits: Option<Limits>, pairs: seq<Pair>, i: nat)
    requires Ascending(pairs) && i < |pairs|
    requires limits.Some? ==>
               limits.value.least == pairs[0].name && limits.value.greatest == pairs[|pairs| - 1].name
    ensures limits.Some? ==> Within(limits.value, pairs[i].name)
  {
    hide Precedes;
    OneComesFirst(pairs[0].name, pairs[i].name);
    OneComesFirst(pairs[i].name, pairs[|pairs| - 1].name);
    assert i > 0 ==> Precedes(pairs[0].name, pairs[i].name);
    assert i < |pairs| - 1 ==> Precedes(pairs[i].name, pairs[|pairs| - 1].name);
  }

  lemma {:induction false} StandardIsBounded(n: Node)
    requires Standard(n) && Ascending(Pairs(n))
    ensures Bounded(n)
    decreases n
  {
    match n
    case Leaf(_) =>
    case Inner(limits, kids) =>
      var pairs := PairsOf(kids);
      hide Pairs, PairsOf, Within;
      forall i | 0 <= i < |pairs| && limits.Some? ensures Within(limits.value, pairs[i].name) {
        WithinLimits(limits, pairs, i);
      }
      StandardKidsAreBounded(kids);
  }

  lemma {:induction false} StandardKidsAreBounded(ns: seq<Node>)
    requires StandardAll(ns) && Ascending(PairsOf(ns))
    ensures BoundedAll(ns)
    decreases ns
  {
    hide Standard, Bounded, Pairs, Ascending;
    if ns != [] {
      AscendingParts(Pairs(ns[0]), PairsOf(ns[1..]));
      StandardIsBounded(ns[0]);
      StandardKidsAreBounded(ns[1..]);
    }
  }

  /** In a tree as the standard has it the search finds exactly the pairs of the tree. */
  lemma FindsExactly(n: Node, name: string, value: nat)
    requires Standard(n) && Ascending(Pairs(n))
    ensures First(Visited(n, name), name) == Some(value) <==> Pair(name, value) in Pairs(n)
  {
    hide Standard, Visited, Ascending;
    StandardIsBounded(n);
    PruningIsHarmless(n, name);
    AscendingDiffer(Pairs(n));
    FirstIsLeast(Pairs(n), name, value);
  }
}
