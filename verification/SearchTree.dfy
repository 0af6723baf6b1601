/** The search over tokens of text as linked states: building them from a pattern, and feeding text. */
module SearchTree {
  import opened Options
  import opened SearchAutomaton

  class Accept {
    const ch: char
    var next: Accept?
    var prev: Accept?

    constructor (ch: char, prev: Accept?)
      ensures this.ch == ch && next == null && this.prev == prev
    {
      this.ch := ch;
      next := null;
      this.prev := prev;
    }

    /** The next state, or the one to fall back to. */
    function Take(c: char): Accept?
      reads this
    {
      if c != ch then prev else next
    }

    predicate Accepts(c: char)
      reads this
    {
      Take(c) == next
    }
  }

  datatype TreeTokens = Next | Found

  /** The linked states are those of the automaton with the given characters and links. */
  ghost predicate Spells(states: seq<Accept>, chars: string, prevs: seq<nat>)
    reads states
  {
    && |states| == |prevs| <= |chars| && Ordered(prevs)
    && (forall i, j :: 0 <= i < j < |states| ==> states[i] != states[j])
    && (forall k :: 0 <= k < |states| ==> states[k].ch == chars[k] && states[k].prev == states[prevs[k]])
    && (forall k :: 0 <= k < |states| - 1 ==> states[k].next == states[k + 1])
    && (states != [] ==> states[|states| - 1].next == null)
  }

  lemma TakesNext(states: seq<Accept>, chars: string, prevs: seq<nat>, k: nat, c: char)
    requires Spells(states, chars, prevs) && k < |states|
    ensures states[k].Accepts(c) <==> chars[k] == c
    ensures states[k].Take(c) ==
            if chars[k] != c then states[prevs[k]] else if k + 1 < |states| then states[k + 1] else null
    ensures prevs[k] <= k && (k > 0 ==> states[k] != states[0])
  {
    var next := k + 1;
    assert next < |states| ==> states[k].next == states[next] && states[prevs[k]] != states[next];
  }

  lemma FallStep(a: Automaton, t: nat, c: char)
    requires Formed(a) && t < |a.chars| && Fall(a, t, c).Some?
    ensures a.prevs[t] <= t && (a.chars[t] != c && t > 0 ==> a.prevs[t] < t)
    ensures Fall(a, t, c) == if a.chars[t] == c then Some(t + 1) else if t == 0 then Some(0)
                             else Fall(a, a.prevs[t], c)
  {
  }

  /** States of which the last one has not got its fall-back link yet. */
  ghost predicate Growing(states: seq<Accept>, chars: string, prevs: seq<nat>)
    reads states
  {
    && |states| == |prevs| + 1 <= |chars| && Ordered(prevs)
    && (forall i, j :: 0 <= i < j < |states| ==> states[i] != states[j])
    && (forall k :: 0 <= k < |prevs| ==>
          states[k].ch == chars[k] && states[k].prev == states[prevs[k]] && states[k].next == states[k + 1])
    && states[|prevs|].ch == chars[|prevs|] && states[|prevs|].next == null
  }

  /** The inner loop of setPattern: from start along the fall-back links until c is accepted. */
  method FallTo(start: Accept, root: Accept, c: char, ghost s: nat,
                ghost states: seq<Accept>, ghost chars: string, ghost prevs: seq<nat>)
    returns (back: Accept, ghost u: nat)
    requires Growing(states, chars, prevs) && s < |prevs| && start == states[s] && root == states[0]
    requires Fall(Automaton(chars, prevs), s, c).Some?
    ensures Some(u) == Fall(Automaton(chars, prevs), s, c) && u < |states| && back == states[u]
  {
    ghost var a := Automaton(chars, prevs);
    ghost var t: nat := s;
    back := start;
    while true
      invariant t < |prevs| && back == states[t] && Fall(a, t, c) == Fall(a, s, c)
      decreases t
    {
      assert t != 0 ==> states[t] != states[0];
      assert prevs[t] <= t && states[prevs[t]] != states[t + 1];
      if back.Accepts(c) {
        u := t + 1;
        back := back.next;
        break;
      }
      if back == root {
        u := 0;
        break;
      }
      t := prevs[t];
      back := back.prev;
    }
  }

  /** The states of a pattern so far: root is the first one, prev the last one, and the end of the table the state
      that prev falls back to. */
  ghost predicate Building(states: seq<Accept>, p: string, prevs: seq<nat>, root: Accept?, prev: Accept,
                           table: seq<Accept>)
    reads states
  {
    && Spells(states, p, prevs) && 0 < |prevs| == |states| == |table| && |prevs| <= |p|
    && Links(p, |prevs|) == Some(prevs) && prevs[|prevs| - 1] < |prevs|
    && root == states[0] && prev == states[|states| - 1] && table[|table| - 1] == states[prevs[|prevs| - 1]]
  }

  lemma LinkFalls(p: string, prevs: seq<nat>)
    requires 0 < |prevs| < |p| && Links(p, |prevs|) == Some(prevs)
    ensures Ordered(prevs) && prevs[|prevs| - 1] < |prevs|
    ensures var r := Fall(Automaton(p, prevs), prevs[|prevs| - 1], p[|prevs|]);
      && (Links(p, |prevs| + 1).Some? <==> r.Some?)
      && (r.Some? ==> Links(p, |prevs| + 1) == Some(prevs + [r.value]))
  {
    hide Fall;
  }

  /** What is known before a state is added. */
  lemma BuildingParts(states: seq<Accept>, p: string, prevs: seq<nat>, root: Accept?, prev: Accept,
                      table: seq<Accept>)
    requires Building(states, p, prevs, root, prev, table) && |prevs| < |p| && Links(p, |prevs| + 1).Some?
    ensures Spells(states, p, prevs) && 0 < |prevs| == |states| == |table| && prevs[|prevs| - 1] < |prevs|
    ensures root == states[0] && prev == states[|states| - 1] && table[|table| - 1] == states[prevs[|prevs| - 1]]
    ensures Ordered(prevs)
    ensures var r := Fall(Automaton(p, prevs), prevs[|prevs| - 1], p[|prevs|]);
      r.Some? && Links(p, |prevs| + 1) == Some(prevs + [r.value])
  {
    hide Spells, Links, Fall, Ordered;
    LinkFalls(p, prevs);
  }

  lemma MoreBuilt(states: seq<Accept>, p: string, prevs: seq<nat>, u: nat, table: seq<Accept>, back: Accept)
    requires Spells(states, p, prevs + [u]) && |table| == |prevs| < |p| && u <= |prevs|
    requires |states| == |prevs| + 1 && back == states[u] && Links(p, |prevs| + 1) == Some(prevs + [u])
    ensures Building(states, p, prevs + [u], states[0], states[|prevs|], table + [back])
  {
    hide Spells, Links, Ordered;
  }

  lemma SpellsLength(states: seq<Accept>, p: string, prevs: seq<nat>)
    requires Spells(states, p, prevs)
    ensures |states| == |prevs| && Ordered(prevs)
  {
  }

  /** A new last state. */
  method Append(prev: Accept, c: char, root: Accept?, ghost states: seq<Accept>, ghost p: string,
                ghost prevs: seq<nat>)
    returns (state: Accept)
    requires Spells(states, p, prevs) && 0 < |prevs| < |p| && c == p[|prevs|] && prev == states[|states| - 1]
    modifies prev`next
    ensures fresh(state) && Growing(states + [state], p, prevs)
  {
    hide Growing;
    assert forall k :: 0 <= k < |states| - 1 ==> states[k] != prev;
    state := new Accept(c, root);
    prev.next := state;
    StatesGrow(states, state, p, prevs);
  }

  lemma StatesGrow(states: seq<Accept>, state: Accept, p: string, prevs: seq<nat>)
    requires 0 < |states| == |prevs| < |p| && Ordered(prevs) && state !in states
    requires forall i, j :: 0 <= i < j < |states| ==> states[i] != states[j]
    requires forall k :: 0 <= k < |states| ==> states[k].ch == p[k] && states[k].prev == states[prevs[k]]
    requires forall k :: 0 <= k < |states| - 1 ==> states[k].next == states[k + 1]
    requires states[|states| - 1].next == state && state.ch == p[|prevs|] && state.next == null
    ensures Growing(states + [state], p, prevs)
  {
    var all := states + [state];
    assert forall k :: 0 <= k < |states| ==> all[k] == states[k];
    assert forall k :: 0 <= k < |prevs| ==> all[prevs[k]] == states[prevs[k]];
    assert forall k :: 0 <= k < |prevs| ==> all[k].next == all[k + 1];
  }

  method SetPrev(state: Accept, back: Accept, ghost states: seq<Accept>, ghost chars: string, ghost prevs: seq<nat>,
                 ghost u: nat)
    requires Growing(states, chars, prevs) && u < |states| && state == states[|prevs|] && back == states[u]
    modifies state`prev
    ensures Spells(states, chars, prevs + [u])
  {
    state.prev := back;
  }

  /** What is left of a pattern: blanks behind the first character are dropped, and hyphens when asked for. */
  function Effective(pattern: string, concate: bool): (p: string)
    requires pattern != ""
    ensures p != ""
  {
    [pattern[0]] + Packed(pattern[1..], concate)
  }

  predicate Skipped(c: char, concate: bool) {
    c == ' ' || (concate && c == '-')
  }

  function Packed(s: string, concate: bool): string {
    if s == "" then "" else (if Skipped(s[0], concate) then "" else [s[0]]) + Packed(s[1..], concate)
  }

  /** The text that is compared: hyphens are passed over when asked for. */
  function Kept(text: string, concate: bool): string {
    if text == "" then ""
    else
      var front, c := Kept(text[..|text| - 1], concate), text[|text| - 1];
      if concate && c == '-' then front else front + [c]
  }

  class Tree {
    var root: Accept?
    var actual: Accept?
    var search: string
    var position: int
    var concateHyphen: bool
    var end: int
    ghost var states: seq<Accept>
    ghost var auto: Automaton
    ghost var at: nat

    /** The states are those of the automaton. */
    ghost predicate Linked()
      reads this`root, this`states, this`auto, states
    {
      && Formed(auto) && Spells(states, auto.chars, auto.prevs) && |states| == |auto.chars|
      && root == states[0]
    }

    ghost predicate Valid()
      reads this, states
    {
      Linked() && at < |states| && actual == states[at] && -1 <= position
    }

    /** Adds the state for the next character of the pattern behind prev. */
    method AddState(c: char, prev: Accept, table: seq<Accept>, ghost p: string, ghost prevs: seq<nat>)
      returns (state: Accept, table': seq<Accept>, ghost prevs': seq<nat>)
      requires Building(states, p, prevs, root, prev, table) && |prevs| < |p| && c == p[|prevs|]
      requires Links(p, |prevs| + 1).Some?
      modifies this`actual, this`states, prev`next
      ensures Building(states, p, prevs', root, state, table') && |prevs'| == |prevs| + 1
      ensures states == old(states) + [state] && fresh(state) && actual == state
    {
      hide *;
      BuildingParts(states, p, prevs, root, prev, table);
      ghost var before := states;
      state := Append(prev, c, root, states, p, prevs);
      actual := state;
      states := states + [state];
      ghost var u;
      var back;
      back, u := FallTo(table[|table| - 1], root, c, prevs[|prevs| - 1], states, p, prevs);
      table' := table + [back];
      SetPrev(state, back, states, p, prevs, u);
      prevs' := prevs + [u];
      MoreBuilt(states, p, prevs, u, table, back);
    }

    /** The building of setPattern for a plain, trimmed pattern whose table can be built. */
    method SetPattern(pattern: string)
      requires pattern != "" && Build(Effective(pattern, concateHyphen)).Some? && -1 <= position
      modifies this`root, this`actual, this`states, this`auto, this`at
      ensures Valid() && fresh(states)
      ensures Some(auto) == Build(Effective(pattern, concateHyphen)) && actual == root
    {
      hide *;
      EffectiveFront(pattern, concateHyphen);
      ghost var p := Effective(pattern, concateHyphen);
      var prev := new Accept(pattern[0], null);
      prev.prev := prev;
      root, actual := prev, prev;
      states := [prev];
      ghost var prevs: seq<nat> := [0];
      var i := 1;
      var table: seq<Accept> := [prev];
      FirstState(states, p);
      while i < |pattern|
        invariant 1 <= i <= |pattern| && Taken(p, |prevs|, pattern, i, concateHyphen)
        invariant Building(states, p, prevs, root, prev, table) && fresh(states) && prev in states
      {
        TakenStep(p, |prevs|, pattern, i, concateHyphen);
        if !Skipped(pattern[i], concateHyphen) {
          LinksSoFar(p, |prevs| + 1);
          prev, table, prevs := AddState(pattern[i], prev, table, p, prevs);
        }
        i := i + 1;
      }
      AllTaken(p, |prevs|, pattern, concateHyphen);
      Built(states, p, prevs, root, prev, table);
      BackToRoot(Automaton(p, prevs));
    }

    /** The states are complete. */
    method BackToRoot(ghost a: Automaton)
      requires Formed(a) && Spells(states, a.chars, a.prevs) && |states| == |a.chars|
      requires root == states[0] && -1 <= position
      modifies this`actual, this`auto, this`at
      ensures Valid() && auto == a && actual == root
    {
      actual := root;
      auto, at := a, 0;
    }

    /** The token to be searched next; case and direction are not modelled. */
    method SetText(text: string)
      requires Valid()
      modifies this`search
      ensures Valid() && search == text
    {
      search := text;
    }

    /** The characters this search still has to look at. */
    function Rest(): string
      reads this
      requires -1 <= position
    {
      if position + 1 <= |search| then search[position + 1..] else ""
    }

    /** One character: falls back until it is accepted, or not accepted by the first state. */
    method Advance(c: char)
      requires Valid() && Fall(auto, at, c).Some?
      modifies this`actual, this`at
      ensures Linked()
      ensures var u := Fall(auto, old(at), c).value;
        if u == |states| then actual == null && at == 0 else u < |states| && actual == states[u] && at == u
    {
      hide Fall, Spells, Ordered;
      var done := false;
      ghost var s := at;
      while !done
        invariant Linked() && Fall(auto, s, c).Some?
        invariant !done ==> at < |states| && actual == states[at] && Fall(auto, at, c) == Fall(auto, s, c)
        invariant done ==> var u := Fall(auto, s, c).value;
                    if u == |states| then actual == null && at == 0 else u < |states| && actual == states[u] && at == u
        decreases if done then 0 else at + 1
      {
        TakesNext(states, auto.chars, auto.prevs, at, c);
        FallStep(auto, at, c);
        if actual == root || actual.Accepts(c) {
          done := true;
        }
        actual := actual.Take(c);
        at := if auto.chars[at] != c then auto.prevs[at] else if at + 1 < |states| then at + 1 else 0;
      }
    }

    /** One round of the loop of search: whether a match ends with the n-th character of the text. */
    method Look(ghost k: nat, ghost rest: string, ghost n: nat) returns (found: bool)
      requires Linked() && at < |states| && actual == states[at] && 0 <= position < |search|
      requires k < |auto.chars| && n < |rest| && search[position] == rest[n]
      requires Scanned(auto, k, rest, n, concateHyphen, at) && After(auto, k, Kept(rest, concateHyphen)).Some?
      modifies this`actual, this`at, this`end
      ensures Linked() && at < |states| && actual == states[at]
      ensures found ==> HitAt(auto, k, rest, n + 1, concateHyphen) && end == position && actual == root
      ensures !found ==> Scanned(auto, k, rest, n + 1, concateHyphen, at)
    {
      hide Fall, HitAt, After, Kept, Scanned, Spells, Formed;
      var c := search[position];
      KeptStep(auto, k, at, rest, n, concateHyphen);
      found := false;
      if !(concateHyphen && c == '-') {
        Advance(c);
        if actual == null {
          actual := root;
          end := position;
          found := true;
        }
      }
    }

    /** search: goes on behind the last match, to the next one or to the end of the token. */
    method Search() returns (r: TreeTokens)
      requires Valid() && After(auto, at, Kept(Rest(), concateHyphen)).Some?
      modifies this`actual, this`at, this`position, this`end
      ensures Valid()
      ensures r == Found ==>
                && old(position) < position < |search| && end == position && actual == root
                && HitAt(auto, old(at), old(Rest()), position - old(position), concateHyphen)
                && NoHitUpTo(auto, old(at), old(Rest()), position - old(position) - 1, concateHyphen)
      ensures r == Next ==>
                && position == -1
                && Some(at) == After(auto, old(at), Kept(old(Rest()), concateHyphen))
                && NoHitUpTo(auto, old(at), old(Rest()), |old(Rest())|, concateHyphen)
    {
      hide Fall, HitAt, After, Kept, NoHitUpTo, Scanned, Spells, Formed;
      ghost var rest, k, n := Rest(), at, 0;
      position := position + 1;
      NothingScanned(auto, k, rest, concateHyphen);
      while position < |search|
        invariant Valid() && old(position) + 1 <= position && n == position - old(position) - 1
        invariant unchanged(`search) && unchanged(`states) && unchanged(`auto) && unchanged(`concateHyphen)
        invariant n <= |rest| && (n == |rest| <==> position >= |search|)
        invariant Scanned(auto, k, rest, n, concateHyphen, at)
      {
        NoHits(auto, k, rest, n, concateHyphen, at);
        var found := Look(k, rest, n);
        if found {
          return Found;
        }
        position, n := position + 1, n + 1;
      }
      NoHits(auto, k, rest, n, concateHyphen, at);
      position := -1;
      return Next;
    }
  }

  /** A match is reported on the i-th character of text. */
  predicate HitAt(a: Automaton, k: nat, text: string, i: nat, concate: bool)
    requires Formed(a) && k < |a.chars|
  {
    && 0 < i <= |text| && !(concate && text[i - 1] == '-')
    && Hits(a, k, Kept(text[..i], concate))
  }

  ghost predicate NoHitUpTo(a: Automaton, k: nat, text: string, n: nat, concate: bool)
    requires Formed(a) && k < |a.chars|
  {
    forall i :: 0 <= i <= n ==> !HitAt(a, k, text, i, concate)
  }

  /** The state after the first n characters of a text without a match in them. */
  ghost predicate Scanned(a: Automaton, k: nat, rest: string, n: nat, concate: bool, t: nat)
    requires Formed(a) && k < |a.chars| && n <= |rest|
  {
    After(a, k, Kept(rest[..n], concate)) == Some(t) && NoHitUpTo(a, k, rest, n, concate)
  }

  lemma NothingScanned(a: Automaton, k: nat, rest: string, concate: bool)
    requires Formed(a) && k < |a.chars|
    ensures Scanned(a, k, rest, 0, concate, k)
  {
    assert rest[..0] == "";
  }

  /** One more character of the text. */
  lemma KeptStep(a: Automaton, k: nat, t: nat, rest: string, n: nat, concate: bool)
    requires Formed(a) && k < |a.chars| && n < |rest| && t < |a.chars|
    requires Scanned(a, k, rest, n, concate, t) && After(a, k, Kept(rest, concate)).Some?
    ensures var c := rest[n];
      if concate && c == '-' then Scanned(a, k, rest, n + 1, concate, t)
      else
        && Fall(a, t, c).Some?
        && var u := Fall(a, t, c).value;
           if u == |a.chars| then HitAt(a, k, rest, n + 1, concate) else Scanned(a, k, rest, n + 1, concate, u)
  {
    var c := rest[n];
    KeptMore(rest, n, concate);
    hide Fall, Kept, After, Hits, HitAt, NoHitUpTo;
    HitsMore(a, k, rest, n, concate);
    if !(concate && c == '-') {
      KeptPrefix(rest, n + 1, concate);
      NoHangBefore(a, k, Kept(rest[..n + 1], concate), Kept(rest, concate));
      AfterStep(a, k, Kept(rest[..n], concate), c);
    }
  }

  lemma KeptMore(rest: string, n: nat, concate: bool)
    requires n < |rest|
    ensures Kept(rest[..n + 1], concate)
         == if concate && rest[n] == '-' then Kept(rest[..n], concate) else Kept(rest[..n], concate) + [rest[n]]
  {
    assert rest[..n + 1][..n] == rest[..n];
  }

  lemma AfterStep(a: Automaton, k: nat, text: string, c: char)
    requires Formed(a) && k < |a.chars| && After(a, k, text).Some?
    ensures var u := Fall(a, After(a, k, text).value, c);
      && After(a, k, text + [c]) == (if u == Some(|a.chars|) then Some(0) else u)
      && (Hits(a, k, text + [c]) <==> u == Some(|a.chars|))
  {
    hide Fall;
    assert (text + [c])[..|text|] == text;
  }

  lemma HitsMore(a: Automaton, k: nat, rest: string, n: nat, concate: bool)
    requires Formed(a) && k < |a.chars| && n < |rest| && NoHitUpTo(a, k, rest, n, concate)
    ensures HitAt(a, k, rest, n + 1, concate) <==>
            !(concate && rest[n] == '-') && Hits(a, k, Kept(rest[..n + 1], concate))
    ensures !HitAt(a, k, rest, n + 1, concate) ==> NoHitUpTo(a, k, rest, n + 1, concate)
  {
    hide Hits, Kept;
  }

  lemma NoHits(a: Automaton, k: nat, rest: string, n: nat, concate: bool, t: nat)
    requires Formed(a) && k < |a.chars| && n <= |rest|
    ensures Scanned(a, k, rest, n, concate, t) ==>
              NoHitUpTo(a, k, rest, n, concate) && After(a, k, Kept(rest[..n], concate)) == Some(t)
    ensures n == |rest| ==> rest[..n] == rest
  {
    hide After, Kept, NoHitUpTo;
  }

  lemma {:induction false} KeptPrefix(text: string, n: nat, concate: bool)
    requires n <= |text|
    ensures Kept(text[..n], concate) <= Kept(text, concate)
    decreases |text|
  {
    if n == |text| {
      assert text[..n] == text;
    } else {
      KeptPrefix(text[..|text| - 1], n, concate);
      assert text[..|text| - 1][..n] == text[..n];
    }
  }

  lemma {:induction false} NoHangBefore(a: Automaton, k: nat, text: string, more: string)
    requires Formed(a) && k < |a.chars| && text <= more && After(a, k, more).Some?
    ensures After(a, k, text).Some?
    decreases |more|
  {
    if |text| < |more| {
      NoHangBefore(a, k, text, more[..|more| - 1]);
    } else {
      assert text == more;
    }
  }

  lemma FirstState(states: seq<Accept>, p: string)
    requires p != "" && |states| == 1 && states[0].ch == p[0] && states[0].prev == states[0] && states[0].next == null
    ensures Building(states, p, [0], states[0], states[0], states)
  {
  }

  /** The first n characters of p have been taken from the first i ones of the pattern. */
  predicate Taken(p: string, n: nat, pattern: string, i: nat, concate: bool)
    requires i <= |pattern|
  {
    0 < n <= |p| && p == p[..n] + Packed(pattern[i..], concate)
  }

  lemma EffectiveFront(pattern: string, concate: bool)
    requires pattern != ""
    ensures var p := Effective(pattern, concate);
      && p != "" && p[0] == pattern[0] && Taken(p, 1, pattern, 1, concate)
      && (Build(p).Some? ==> Links(p, |p|).Some?)
  {
    hide Packed, Links;
  }

  lemma Built(states: seq<Accept>, p: string, prevs: seq<nat>, root: Accept?, prev: Accept, table: seq<Accept>)
    requires Building(states, p, prevs, root, prev, table) && |prevs| == |p|
    ensures Build(p) == Some(Automaton(p, prevs)) && Formed(Automaton(p, prevs))
    ensures Spells(states, p, prevs) && |states| == |p| && root == states[0]
  {
    hide Links, Spells;
    SpellsLength(states, p, prevs);
  }

  lemma TakenStep(p: string, n: nat, pattern: string, i: nat, concate: bool)
    requires i < |pattern| && Taken(p, n, pattern, i, concate)
    ensures Skipped(pattern[i], concate) ==> Taken(p, n, pattern, i + 1, concate)
    ensures !Skipped(pattern[i], concate) ==>
              n < |p| && p[n] == pattern[i] && Taken(p, n + 1, pattern, i + 1, concate)
  {
    hide Skipped;
    var rest := Packed(pattern[i + 1..], concate);
    assert pattern[i..][1..] == pattern[i + 1..];
    if !Skipped(pattern[i], concate) {
      assert Packed(pattern[i..], concate) == [pattern[i]] + rest;
      assert p[n] == (p[..n] + ([pattern[i]] + rest))[n];
      assert p[..n + 1] == p[..n] + [pattern[i]];
    }
  }

  lemma AllTaken(p: string, n: nat, pattern: string, concate: bool)
    requires Taken(p, n, pattern, |pattern|, concate)
    ensures n == |p|
  {
  }

  lemma {:induction false} LinksSoFar(p: string, n: nat)
    requires 0 < n <= |p| && Links(p, |p|).Some?
    ensures Links(p, n).Some?
    decreases |p| - n
  {
    if n < |p| {
      LinksSoFar(p, n + 1);
    }
  }

  lemma {:induction false} KeptConcat(s: string, t: string, concate: bool)
    ensures Kept(s + t, concate) == Kept(s, concate) + Kept(t, concate)
    decreases |t|
  {
    if t == "" {
      assert s + t == s;
    } else {
      assert (s + t)[..|s + t| - 1] == s + t[..|t| - 1];
      KeptConcat(s, t[..|t| - 1], concate);
    }
  }

  /** The characters of a pattern that none of the states is made for: blanks, and hyphens when they are passed over. */
  lemma {:induction false} PackedIsAll(s: string, concate: bool)
    ensures |Packed(s, concate)| <= |s|
    ensures Packed(s, concate) == s <==> forall i :: 0 <= i < |s| ==> s[i] != ' ' && !(concate && s[i] == '-')
  {
    if s != "" {
      var t, c := s[1..], s[0];
      PackedIsAll(t, concate);
      assert s == [c] + t;
      if c == ' ' || (concate && c == '-') {
        assert Packed(s, concate) == Packed(t, concate);
      } else {
        assert Packed(s, concate) == [c] + Packed(t, concate);
        hide Packed;
        assert ([c] + Packed(t, concate))[1..] == Packed(t, concate);
        assert forall i :: 0 <= i < |t| ==> t[i] == s[i + 1];
        assert forall i :: 0 < i < |s| ==> s[i] == t[i - 1];
      }
    }
  }

  /** A pattern is searched as it stands exactly when it has no blanks behind its first character, nor hyphens when
      these are passed over. */
  lemma EffectiveIsPattern(pattern: string, concate: bool)
    requires pattern != ""
    ensures Effective(pattern, concate) == pattern <==>
            forall i :: 0 < i < |pattern| ==> pattern[i] != ' ' && !(concate && pattern[i] == '-')
  {
    var s := pattern[1..];
    PackedIsAll(s, concate);
    assert pattern == [pattern[0]] + s;
    assert Effective(pattern, concate) == [pattern[0]] + Packed(s, concate);
    assert Effective(pattern, concate)[1..] == Packed(s, concate);
    hide Packed;
    assert forall i :: 0 < i < |pattern| ==> pattern[i] == s[i - 1];
    assert forall i :: 0 <= i < |s| ==> s[i] == pattern[i + 1];
  }

  /** Pattern and text are treated alike: without blanks, what is searched for is what is kept of it. */
  lemma EffectiveIsKept(pattern: string, concate: bool)
    requires pattern != "" && ' ' !in pattern && pattern[0] != '-'
    ensures Effective(pattern, concate) == Kept(pattern, concate)
  {
    var s := pattern[1..];
    assert pattern == [pattern[0]] + s;
    KeptConcat([pattern[0]], s, concate);
    assert [pattern[0]][..0] == "" && Kept([pattern[0]], concate) == [pattern[0]];
    PackedIsKept(s, concate);
  }

  lemma {:induction false} PackedIsKept(s: string, concate: bool)
    requires ' ' !in s
    ensures Packed(s, concate) == Kept(s, concate)
  {
    if s != "" {
      PackedIsKept(s[1..], concate);
      KeptConcat([s[0]], s[1..], concate);
      assert s == [s[0]] + s[1..] && [s[0]][..0] == "";
    }
  }

  /** A pattern without blanks (and hyphens, when they are passed over) whose first character does not come again,
      over any tokens: with the text before already searched, a match is reported on the i-th character of the next
      token exactly when one of the leftmost, non-overlapping occurrences in all of the text ends there. */
  lemma TokensAreOneText(pattern: string, concate: bool, before: string, token: string, i: nat)
    requires pattern != "" && FirstIsUnique(pattern)
    requires forall i :: 0 < i < |pattern| ==> pattern[i] != ' ' && !(concate && pattern[i] == '-')
    requires 0 < i <= |token| && !(concate && token[i - 1] == '-')
    ensures Effective(pattern, concate) == pattern && Build(pattern).Some?
    ensures var a := Build(pattern).value;
      && After(a, 0, Kept(before, concate)).Some?
      && (HitAt(a, After(a, 0, Kept(before, concate)).value, token, i, concate)
          <==> Occurs(pattern, Kept(before + token[..i], concate)))
  {
    EffectiveIsPattern(pattern, concate);
    hide Hits, After, Occurs, Fall, Effective;
    RightIffFirstIsUnique(pattern);
    var a := Build(pattern).value;
    KeptConcat(before, token[..i], concate);
    KeptLast(token[..i], concate);
    HitsInParts(a, 0, Kept(before, concate), Kept(token[..i], concate));
  }

  lemma KeptLast(text: string, concate: bool)
    ensures text != "" && !(concate && text[|text| - 1] == '-') ==> Kept(text, concate) != ""
  {
  }
}
