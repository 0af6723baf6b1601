/** Listing the objects of a document in batches, each going on where the last one stopped. */
module Delinearizators {

  datatype Kind = Free | Plain | Compressed

  datatype XRefEntry = XRefEntry(kind: Kind, gen: nat)

  datatype Ref = Ref(num: nat, gen: nat)

  /** What one entry contributes: nothing when it is free or the linearization dictionary. The generation of
      a compressed object is always zero. */
  function Listed(entries: seq<XRefEntry>, linearized: Ref, num: nat): seq<Ref>
    requires num < |entries|
  {
    var e := entries[num];
    var ref := Ref(num, if e.kind == Compressed then 0 else e.gen);
    if e.kind == Free || ref == linearized then [] else [ref]
  }

  /** All objects with numbers from lo up to hi. */
  function Objects(entries: seq<XRefEntry>, linearized: Ref, lo: nat, hi: nat): seq<Ref>
    requires lo <= hi <= |entries|
  {
    if lo == hi then [] else Objects(entries, linearized, lo, hi - 1) + Listed(entries, linearized, hi - 1)
  }

  lemma {:induction false} ObjectsInParts(entries: seq<XRefEntry>, linearized: Ref, lo: nat, mid: nat, hi: nat)
    requires lo <= mid <= hi <= |entries|
    ensures Objects(entries, linearized, lo, hi)
         == Objects(entries, linearized, lo, mid) + Objects(entries, linearized, mid, hi)
  {
    if mid < hi {
      ObjectsInParts(entries, linearized, lo, mid, hi - 1);
    }
  }

  /** Every object is listed once, in the order of the numbers, and nothing else is. */
  lemma {:induction false} ObjectsAreAll(entries: seq<XRefEntry>, linearized: Ref, hi: nat)
    requires hi <= |entries|
    ensures var all := Objects(entries, linearized, 0, hi);
      && (forall i, j :: 0 <= i < j < |all| ==> all[i].num < all[j].num)
      && (forall i :: 0 <= i < |all| ==> all[i].num < hi && all[i] != linearized)
      && (forall num: nat :: num < hi && Listed(entries, linearized, num) != [] ==>
            exists i :: 0 <= i < |all| && [all[i]] == Listed(entries, linearized, num))
  {
    if hi > 0 {
      ObjectsAreAll(entries, linearized, hi - 1);
      var before, last := Objects(entries, linearized, 0, hi - 1), Listed(entries, linearized, hi - 1);
      var all := before + last;
      assert Objects(entries, linearized, 0, hi) == all;
      assert forall i :: 0 <= i < |last| ==> last[i].num == hi - 1 && last[i] != linearized;
      assert |last| <= 1;
      hide Objects, Listed;
      assert forall i :: 0 <= i < |all| ==> all[i] == if i < |before| then before[i] else last[0];
      forall num: nat | num < hi && Listed(entries, linearized, num) != []
        ensures exists i :: 0 <= i < |all| && [all[i]] == Listed(entries, linearized, num)
      {
        if num < hi - 1 {
          StillIn(before, last, Listed(entries, linearized, num));
        } else {
          assert [all[|before|]] == last;
        }
      }
    }
  }

  lemma StillIn(s: seq<Ref>, t: seq<Ref>, one: seq<Ref>)
    requires exists i :: 0 <= i < |s| && [s[i]] == one
    ensures exists i :: 0 <= i < |s + t| && [(s + t)[i]] == one
  {
    var i :| 0 <= i < |s| && [s[i]] == one;
    assert (s + t)[i] == s[i];
  }

  /** An object is listed exactly when its entry is not free, it is not the linearization dictionary, and its generation
      is that of its entry, or zero when it is in an object stream. */
  lemma {:induction false} ListedExactly(entries: seq<XRefEntry>, linearized: Ref, lo: nat, hi: nat, ref: Ref)
    requires lo <= hi <= |entries|
    ensures ref in Objects(entries, linearized, lo, hi) <==>
            && lo <= ref.num < hi && entries[ref.num].kind != Free && ref != linearized
            && ref.gen == if entries[ref.num].kind == Compressed then 0 else entries[ref.num].gen
  {
    if lo < hi {
      ListedExactly(entries, linearized, lo, hi - 1, ref);
      var before, last := Objects(entries, linearized, lo, hi - 1), Listed(entries, linearized, hi - 1);
      assert ref in before + last <==> ref in before || ref in last;
    }
  }

  class Delinearizator {
    const entries: seq<XRefEntry>
    const linearized: Ref
    /** Numbers whose object cannot be fetched. */
    const broken: set<nat>
    var lastObj: nat

    constructor (entries: seq<XRefEntry>, linearized: Ref, broken: set<nat>)
      ensures this.entries == entries && this.linearized == linearized && this.broken == broken && lastObj == 0
    {
      this.entries, this.linearized, this.broken := entries, linearized, broken;
      lastObj := 0;
    }

    /** All objects with numbers from lo up to hi can be fetched. */
    ghost predicate Fetched(lo: nat, hi: nat)
      requires hi <= |entries|
    {
      forall num: nat :: lo <= num < hi && Listed(entries, linearized, num) != [] ==> num !in broken
    }

    /** fillObjectList: the next batch; a positive maximum bounds it. Fails on an object that cannot be fetched. */
    method FillObjectList(maxObjectCount: int) returns (ok: bool, objectList: seq<Ref>)
      requires lastObj <= |entries|
      modifies this
      ensures old(lastObj) <= lastObj <= |entries|
      ensures ok ==> objectList == Objects(entries, linearized, old(lastObj), lastObj)
      ensures ok ==> Fetched(old(lastObj), lastObj)
      ensures ok && maxObjectCount > 0 ==> |objectList| <= maxObjectCount
      ensures ok && !(maxObjectCount > 0 && |objectList| == maxObjectCount) ==> lastObj == |entries|
      ensures !ok ==> old(lastObj) < lastObj && !Fetched(lastObj - 1, lastObj)
      ensures !ok ==> objectList == Objects(entries, linearized, old(lastObj), lastObj - 1)
    {
      objectList := [];
      while lastObj < |entries|
        invariant old(lastObj) <= lastObj <= |entries|
        invariant objectList == Objects(entries, linearized, old(lastObj), lastObj) && Fetched(old(lastObj), lastObj)
        invariant maxObjectCount > 0 ==> |objectList| <= maxObjectCount
      {
        if maxObjectCount > 0 && |objectList| >= maxObjectCount {
          break;
        }
        var num := lastObj;
        lastObj := lastObj + 1;
        var entry := entries[num];
        if entry.kind == Free {
          continue;
        }
        var gen := entry.gen;
        if entry.kind == Compressed {
          gen := 0;
        }
        if num == linearized.num && gen == linearized.gen {
          continue;
        }
        if num in broken {
          return false, objectList;
        }
        objectList := objectList + [Ref(num, gen)];
      }
      return true, objectList;
    }

    /** The loop that writes batch after batch until one is empty: however the limits are chosen, all objects are
        written, in order and once each, exactly when all of them can be fetched; else what is written are whole
        batches from the first object on, and the batch with the first one missing is not. */
    method WriteAll(limits: seq<int>) returns (ok: bool, written: seq<Ref>, ghost upTo: nat)
      requires lastObj == 0 && |limits| > |entries|
      modifies this
      ensures upTo <= |entries| && written == Objects(entries, linearized, 0, upTo) && Fetched(0, upTo)
      ensures ok <==> Fetched(0, |entries|)
      ensures ok ==> upTo == |entries|
    {
      written, upTo := [], 0;
      var i := 0;
      var objectList;
      ok, objectList := FillObjectList(limits[0]);
      while ok && objectList != []
        invariant 0 <= i < |limits| && upTo <= lastObj <= |entries|
        invariant written == Objects(entries, linearized, 0, upTo) && Fetched(0, upTo)
        invariant ok ==> objectList == [] || i < lastObj
        invariant ok ==> written + objectList == Objects(entries, linearized, 0, lastObj) && Fetched(0, lastObj)
        invariant !ok ==> 0 < lastObj && !Fetched(lastObj - 1, lastObj)
        invariant ok && objectList == [] ==> lastObj == |entries|
        decreases |limits| - i, if ok && objectList != [] then 1 else 0
      {
        written := written + objectList;
        upTo := lastObj;
        i := i + 1;
        ghost var from := lastObj;
        ok, objectList := FillObjectList(limits[i]);
        ObjectsInParts(entries, linearized, 0, from, lastObj);
      }
      if ok {
        upTo := lastObj;
      }
    }
  }
}
