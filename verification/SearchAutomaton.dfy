/** The text search automaton: the fall-back table as the editor builds it, what it finds, and for which
    patterns that is right. */
module SearchAutomaton {
  import opened Options

  /** States 0 to |chars| - 1; state k waits for chars[k] and falls back to prevs[k]. */
  datatype Automaton = Automaton(chars: string, prevs: seq<nat>)

  /** Fall-back links never lead forwards. */
  predicate Ordered(prevs: seq<nat>) {
    forall k :: 0 <= k < |prevs| ==> prevs[k] <= k
  }

  predicate Formed(a: Automaton) {
    a.chars != "" && |a.prevs| == |a.chars| && Ordered(a.prevs)
  }

  /** Where character c leads from state t: the fall-back loop of the search, and of the table building. None
      when a state falls back to itself, so that the loop does not end. */
  function Fall(a: Automaton, t: nat, c: char): (r: Option<nat>)
    requires Ordered(a.prevs) && t < |a.prevs| && t < |a.chars| && |a.prevs| <= |a.chars|
    ensures r.Some? ==> r.value <= t + 1
    decreases t
  {
    if a.chars[t] == c then Some(t + 1)
    else if t == 0 then Some(0)
    else if a.prevs[t] == t then None
    else Fall(a, a.prevs[t], c)
  }

  /** The fall-back links of the first n states. The link of a state is found by falling from the link of the
      state before on the state's own character. */
  function Links(p: string, n: nat): (r: Option<seq<nat>>)
    requires 0 < n <= |p|
    ensures r.Some? ==> |r.value| == n && Ordered(r.value)
  {
    if n == 1 then Some([0])
    else match Links(p, n - 1)
    case None => None
    case Some(prevs) =>
      match Fall(Automaton(p, prevs), prevs[n - 2], p[n - 1])
      case None => None
      case Some(t) => Some(prevs + [t])
  }

  /** setPattern on a plain pattern; None when it does not end. */
  function Build(p: string): (r: Option<Automaton>)
    requires p != ""
    ensures r.Some? ==> Formed(r.value) && r.value.chars == p
  {
    match Links(p, |p|)
    case None => None
    case Some(prevs) => Some(Automaton(p, prevs))
  }

  // ------------------------------------------------------------------------------------------
  // Searching
  // ------------------------------------------------------------------------------------------

  /** The state after text, starting in state k, where a completed match starts over; None when it hangs. */
  function After(a: Automaton, k: nat, text: string): (r: Option<nat>)
    requires Formed(a) && k < |a.chars|
    ensures r.Some? ==> r.value < |a.chars|
    decreases |text|
  {
    if text == "" then Some(k)
    else match After(a, k, text[..|text| - 1])
    case None => None
    case Some(t) =>
      match Fall(a, t, text[|text| - 1])
      case None => None
      case Some(u) => if u == |a.chars| then Some(0) else Some(u)
  }

  /** A match is reported on the last character of text. */
  predicate Hits(a: Automaton, k: nat, text: string)
    requires Formed(a) && k < |a.chars|
  {
    && text != ""
    && After(a, k, text[..|text| - 1]).Some?
    && Fall(a, After(a, k, text[..|text| - 1]).value, text[|text| - 1]) == Some(|a.chars|)
  }

  lemma {:induction false} AfterInParts(a: Automaton, k: nat, text: string, more: string)
    requires Formed(a) && k < |a.chars| && After(a, k, text).Some?
    ensures After(a, k, text + more) == After(a, After(a, k, text).value, more)
    decreases |more|
  {
    if more == "" {
      assert text + more == text;
    } else {
      var front := more[..|more| - 1];
      assert (text + more)[..|text + more| - 1] == text + front;
      AfterInParts(a, k, text, front);
    }
  }

  /** Feeding text in pieces reports the same matches. */
  lemma HitsInParts(a: Automaton, k: nat, text: string, more: string)
    requires Formed(a) && k < |a.chars| && After(a, k, text).Some? && more != ""
    ensures Hits(a, k, text + more) <==> Hits(a, After(a, k, text).value, more)
  {
    var front := more[..|more| - 1];
    assert (text + more)[..|text + more| - 1] == text + front;
    AfterInParts(a, k, text, front);
    assert (text + more)[|text + more| - 1] == more[|more| - 1];
    hide After, Fall;
  }

  // ------------------------------------------------------------------------------------------
  // What should be found
  // ------------------------------------------------------------------------------------------

  predicate EndsWith(text: string, p: string) {
    |p| <= |text| && text[|text| - |p|..] == p
  }

  /** The end of the last of the leftmost, non-overlapping occurrences of p in text. */
  function Cut(p: string, text: string): (n: nat)
    ensures n <= |text|
    decreases |text|
  {
    if text == "" then 0 else if Occurs(p, text) then |text| else Cut(p, text[..|text| - 1])
  }

  /** One of the leftmost, non-overlapping occurrences of p ends with text. */
  predicate Occurs(p: string, text: string)
    decreases |text|, 0
  {
    text != "" && EndsWith(text, p) && |text| - |p| >= Cut(p, text[..|text| - 1])
  }

  // ------------------------------------------------------------------------------------------
  // Patterns whose first character does not come again
  // ------------------------------------------------------------------------------------------

  predicate FirstIsUnique(p: string) {
    p != "" && forall i :: 0 < i < |p| ==> p[i] != p[0]
  }

  lemma {:induction false} LinksToRoot(p: string, n: nat)
    requires FirstIsUnique(p) && 0 < n <= |p|
    ensures Links(p, n).Some? && forall k :: 0 <= k < n ==> Links(p, n).value[k] == 0
  {
    if n > 1 {
      LinksToRoot(p, n - 1);
      assert p[n - 1] != p[0];
    }
  }

  /** All states fall back to the first one. */
  predicate Plain(a: Automaton) {
    Formed(a) && forall k :: 0 <= k < |a.prevs| ==> a.prevs[k] == 0
  }

  lemma PlainFall(a: Automaton, t: nat, c: char)
    requires Plain(a) && t < |a.chars|
    ensures Fall(a, t, c) == Some(if a.chars[t] == c then t + 1 else if a.chars[0] == c then 1 else 0)
  {
  }

  /** j characters of p end the text, all of them behind the cut. */
  predicate MatchedAt(p: string, text: string, cut: nat, j: nat)
    requires j <= |p|
  {
    EndsWith(text, p[..j]) && |text| - j >= cut
  }

  /** k characters of p have been matched behind the cut, and no other number of them. */
  predicate Matched(p: string, text: string, k: nat)
    requires k < |p|
  {
    forall j :: 0 < j < |p| ==> (MatchedAt(p, text, Cut(p, text), j) <==> j == k)
  }

  lemma PrefixGrows(p: string, text: string, j: nat)
    requires text != "" && 0 < j <= |p|
    ensures EndsWith(text, p[..j]) <==>
            text[|text| - 1] == p[j - 1] && EndsWith(text[..|text| - 1], p[..j - 1])
  {
    var front, n := text[..|text| - 1], |text|;
    if |text| >= j {
      assert text[n - j..] == front[n - j..] + [text[n - 1]];
      assert p[..j] == p[..j - 1] + [p[j - 1]];
      assert |front| - (j - 1) == n - j;
    }
  }

  lemma OccursStep(p: string, text: string, k: nat)
    requires FirstIsUnique(p) && text != "" && k < |p| && Matched(p, text[..|text| - 1], k)
    ensures Occurs(p, text) <==> text[|text| - 1] == p[k] && k + 1 == |p|
  {
    hide Cut;
    PrefixGrows(p, text, |p|);
    assert p[..|p|] == p;
    if |p| == 1 {
      assert p[..0] == "" && EndsWith(text[..|text| - 1], "");
    } else {
      var j := |p| - 1;
      assert MatchedAt(p, text[..|text| - 1], Cut(p, text[..|text| - 1]), j) <==> j == k;
    }
  }

  lemma MatchedAtStep(p: string, text: string, cut: nat, j: nat)
    requires text != "" && 0 < j <= |p| && cut < |text|
    ensures MatchedAt(p, text, cut, j) <==>
            text[|text| - 1] == p[j - 1] && (j == 1 || MatchedAt(p, text[..|text| - 1], cut, j - 1))
  {
    PrefixGrows(p, text, j);
    assert p[..0] == "" && EndsWith(text[..|text| - 1], "");
  }

  lemma CutStays(p: string, text: string)
    requires text != "" && !Occurs(p, text)
    ensures Cut(p, text) == Cut(p, text[..|text| - 1]) < |text|
  {
  }

  /** The state behind one more character c, from state k, when the first character is unique. */
  function StateBehind(p: string, k: nat, c: char): nat
    requires k < |p|
  {
    if p[k] == c then k + 1 else if p[0] == c then 1 else 0
  }

  lemma MatchedAtBehind(p: string, k: nat, c: char, j: nat)
    requires FirstIsUnique(p) && k < |p| && 0 < j < |p|
    ensures c == p[j - 1] && (j == 1 || j - 1 == k) <==> j == StateBehind(p, k, c)
  {
    assert k != 0 ==> p[k] != p[0];
    assert j != 1 ==> p[j - 1] != p[0];
  }

  lemma MatchedStep(p: string, text: string, k: nat)
    requires FirstIsUnique(p) && text != "" && k < |p| && Matched(p, text[..|text| - 1], k) && !Occurs(p, text)
    ensures var u := StateBehind(p, k, text[|text| - 1]);
      u < |p| && Matched(p, text, u)
  {
    var front, c := text[..|text| - 1], text[|text| - 1];
    var u := StateBehind(p, k, c);
    OccursStep(p, text, k);
    CutStays(p, text);
    hide Cut, Occurs, EndsWith, MatchedAt, FirstIsUnique;
    forall j | 0 < j < |p|
      ensures MatchedAt(p, text, Cut(p, text), j) <==> j == u
    {
      MatchedAtStep(p, text, Cut(p, text), j);
      MatchedAtBehind(p, k, c, j);
    }
  }

  /** When the first character does not come again, the table is built, no search hangs, and after any text
      the state is the length of the one prefix of the pattern matched so far; matches are reported at
      exactly the leftmost, non-overlapping occurrences. */
  lemma {:induction false} UniqueFirstIsRight(a: Automaton, text: string)
    requires FirstIsUnique(a.chars) && Plain(a)
    ensures After(a, 0, text).Some? && Matched(a.chars, text, After(a, 0, text).value)
    ensures Hits(a, 0, text) <==> Occurs(a.chars, text)
    decreases |text|
  {
    var p := a.chars;
    if text != "" {
      var front, c := text[..|text| - 1], text[|text| - 1];
      UniqueFirstIsRight(a, front);
      var k := After(a, 0, front).value;
      PlainFall(a, k, c);
      hide Fall, Matched, Occurs;
      OccursStep(p, text, k);
      if Occurs(p, text) {
        NothingBehindCut(p, text);
      } else {
        MatchedStep(p, text, k);
      }
    } else {
      NothingBehindCut(p, text);
    }
  }

  lemma NothingBehindCut(p: string, text: string)
    requires p != "" && (text == "" || Occurs(p, text))
    ensures Matched(p, text, 0)
  {
  }

  // ------------------------------------------------------------------------------------------
  // Patterns whose first character comes again
  // ------------------------------------------------------------------------------------------

  /** Where the first character comes again for the first time. */
  predicate FirstRepeat(p: string, i: nat) {
    0 < i < |p| && p[i] == p[0] && forall j :: 0 < j < i ==> p[j] != p[0]
  }

  lemma {:induction false} RepeatLinks(p: string, n: nat, i: nat)
    requires FirstRepeat(p, i) && i < n <= |p| && Links(p, n).Some?
    ensures Links(p, n).value[i] == 1
    decreases n
  {
    if n == i + 1 {
      if i == 1 {
        assert Links(p, 1) == Some([0]);
      } else {
        EarlyLinks(p, i);
      }
    } else {
      RepeatLinks(p, n - 1, i);
    }
  }

  lemma {:induction false} EarlyLinks(p: string, n: nat)
    requires 0 < n <= |p| && forall j :: 0 < j < n ==> p[j] != p[0]
    ensures Links(p, n).Some? && forall k :: 0 <= k < n ==> Links(p, n).value[k] == 0
  {
    if n > 1 {
      EarlyLinks(p, n - 1);
    }
  }

  lemma {:induction false} StraightOn(a: Automaton, k: nat, from: nat, n: nat)
    requires Formed(a) && k < |a.chars| && from <= n < |a.chars|
    requires k == from
    ensures After(a, k, a.chars[from..n]) == Some(n)
    decreases n
  {
    var p := a.chars;
    if n == from {
      assert p[from..n] == "";
    } else {
      StraightOn(a, k, from, n - 1);
      assert p[from..n][..n - 1 - from] == p[from..n - 1];
    }
  }

  lemma FallsToOne(a: Automaton, i: nat)
    requires FirstRepeat(a.chars, i) && i > 1 && Build(a.chars) == Some(a)
    ensures Formed(a) && Fall(a, i, a.chars[1]) == Some(2) && |a.chars| > 2
  {
    RepeatLinks(a.chars, |a.chars|, i);
    hide Links;
    assert Fall(a, i, a.chars[1]) == Fall(a, 1, a.chars[1]);
  }

  /** From the repeat on, all of the pattern but its first character completes a match. */
  lemma LateMatch(a: Automaton, i: nat)
    requires FirstRepeat(a.chars, i) && i > 1 && Build(a.chars) == Some(a)
    ensures Formed(a) && Hits(a, i, a.chars[1..])
  {
    var p := a.chars;
    var m := |p|;
    FallsToOne(a, i);
    hide Fall, After, Build, Links;
    OneCharacter(a, i, p[1]);
    assert p[1..2] == [p[1]];
    FromTwo(a, i, m - 1);
    FallsOn(a, m - 1);
    assert p[1..][..m - 2] == p[1..m - 1] && p[1..][m - 2] == p[m - 1];
  }

  lemma FallsOn(a: Automaton, k: nat)
    requires Formed(a) && k < |a.chars|
    ensures Fall(a, k, a.chars[k]) == Some(k + 1)
  {
  }

  lemma NoOccurrence(p: string, i: nat)
    requires FirstRepeat(p, i) && i > 1
    ensures !Occurs(p, p[..i] + p[1..])
  {
    hide Cut;
    var text := p[..i] + p[1..];
    assert |text| - |p| == i - 1 && text[i - 1] == p[i - 1];
    assert text[i - 1..][0] == text[i - 1];
  }

  /** A false match: the pattern up to the repeat, and the whole of it but for its first character. */
  lemma FalseMatch(a: Automaton, i: nat)
    requires FirstRepeat(a.chars, i) && i > 1 && Build(a.chars) == Some(a)
    ensures var text := a.chars[..i] + a.chars[1..];
      Hits(a, 0, text) && !Occurs(a.chars, text)
  {
    hide *;
    StraightFromRoot(a, i);
    LateMatch(a, i);
    NoOccurrence(a.chars, i);
    IsFormed(a);
    LongerThan(a.chars, i);
    HitsInParts(a, 0, a.chars[..i], a.chars[1..]);
  }

  lemma IsFormed(a: Automaton)
    requires a.chars != "" && Build(a.chars) == Some(a)
    ensures Formed(a)
  {
  }

  lemma LongerThan(p: string, i: nat)
    requires FirstRepeat(p, i)
    ensures i < |p|
  {
  }

  lemma StraightFromRoot(a: Automaton, i: nat)
    requires FirstRepeat(a.chars, i) && Build(a.chars) == Some(a)
    ensures After(a, 0, a.chars[..i]) == Some(i)
  {
    StraightOn(a, 0, 0, i);
    assert a.chars[0..i] == a.chars[..i];
  }

  lemma OneCharacter(a: Automaton, k: nat, c: char)
    requires Formed(a) && k < |a.chars| && Fall(a, k, c).Some?
    ensures After(a, k, [c]) == Some(if Fall(a, k, c).value == |a.chars| then 0 else Fall(a, k, c).value)
  {
    assert [c][..0] == "";
    assert After(a, k, "") == Some(k);
  }

  lemma {:induction false} FromTwo(a: Automaton, k: nat, n: nat)
    requires Formed(a) && k < |a.chars| && 2 <= n < |a.chars| && After(a, k, a.chars[1..2]) == Some(2)
    ensures After(a, k, a.chars[1..n]) == Some(n)
    decreases n
  {
    var p := a.chars;
    if n > 2 {
      FromTwo(a, k, n - 1);
      assert p[1..n][..n - 2] == p[1..n - 1];
    }
  }

  /** A search that does not end: the first character once, and then another one. */
  lemma Hang(a: Automaton, x: char)
    requires FirstRepeat(a.chars, 1) && Build(a.chars) == Some(a) && x != a.chars[0]
    ensures After(a, 0, [a.chars[0], x]) == None
  {
    var p := a.chars;
    RepeatLinks(p, |p|, 1);
    OneCharacter(a, 0, p[0]);
    assert [p[0], x][..1] == [p[0]];
  }

  /** The table gets built, no search hangs, and matches are reported where they should. */
  ghost predicate SearchesRight(p: string)
    requires p != ""
  {
    Build(p).Some? && forall text ::
      After(Build(p).value, 0, text).Some? && (Hits(Build(p).value, 0, text) <==> Occurs(p, text))
  }

  lemma LeastRepeat(p: string) returns (i: nat)
    requires p != "" && !FirstIsUnique(p)
    ensures FirstRepeat(p, i)
  {
    i := 1;
    while p[i] != p[0]
      invariant 0 < i < |p| && forall j :: 0 < j < i ==> p[j] != p[0]
      decreases |p| - i
    {
      i := i + 1;
      assert i < |p|;
    }
  }

  /** The search is right for exactly the patterns whose first character does not come again. */
  lemma RightIffFirstIsUnique(p: string)
    requires p != ""
    ensures SearchesRight(p) <==> FirstIsUnique(p)
  {
    if FirstIsUnique(p) {
      LinksToRoot(p, |p|);
      var a := Build(p).value;
      forall text ensures After(a, 0, text).Some? && (Hits(a, 0, text) <==> Occurs(p, text)) {
        UniqueFirstIsRight(a, text);
      }
    } else if Build(p).Some? {
      var a := Build(p).value;
      var i := LeastRepeat(p);
      if i == 1 {
        var x := if p[0] == 'x' then 'y' else 'x';
        Hang(a, x);
        assert After(a, 0, [p[0], x]) == None;
      } else {
        FalseMatch(a, i);
      }
    }
  }
}
