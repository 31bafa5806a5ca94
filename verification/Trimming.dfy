/** How trimming goes together with repair, with surrounding space and with letter case;
    and from that, exactly how long sanitised text is. */
module Trimming {
  import opened Text
  import opened Utf8

  // ---- the length of repaired text ----

  /** The number of bad bytes. */
  function Bad(s: Bytes): nat
    decreases |s|
  {
    if s == [] then 0
    else if RuneLen(s) == 0 then 1 + Bad(s[1..])
    else Bad(s[RuneLen(s)..])
  }

  /** The number of maximal runs of bad bytes; `inRun` says that the byte before `s` was
      bad, so that a run under way is not counted again. */
  function Runs(s: Bytes, inRun: bool := false): nat
    decreases |s|
  {
    if s == [] then 0
    else if RuneLen(s) == 0 then (if inRun then 0 else 1) + Runs(s[1..], true)
    else Runs(s[RuneLen(s)..], false)
  }

  /** Each run gains three bytes and loses its own. */
  lemma {:induction false} RepairLength(s: Bytes, inRun: bool)
    ensures |Repair(s, inRun)| == |s| + 3 * Runs(s, inRun) - Bad(s)
    decreases |s|
  {
    if s != [] {
      var n := RuneLen(s);
      if n == 0 {
        RepairLength(s[1..], true);
      } else {
        RepairLength(s[n..], false);
      }
    }
  }

  // ---- trimming and repair ----

  /** A space at the head is one whole rune. */
  lemma SpaceIsRune(s: Bytes)
    requires SpaceHead(s) > 0
    ensures RuneLen(s) == SpaceHead(s)
  {
  }

  lemma HeadOfRepair(s: Bytes)
    ensures SpaceHead(Repair(s)) == SpaceHead(s)
  {
    if s != [] {
      var n, r := RuneLen(s), Repair(s);
      if n == 0 {
        assert r[..3] == REPLACEMENT && r[0] == 0xEF;
      } else {
        assert r == s[..n] + Repair(s[n..], false);
        assert forall i :: 0 <= i < n ==> r[i] == s[i];
        RuneLenAppend(s, Repair(s[n..], false));
      }
    }
  }

  lemma {:induction false} TrimLeftRepair(s: Bytes)
    ensures TrimLeft(Repair(s)) == Repair(TrimLeft(s))
    decreases |s|
  {
    HeadOfRepair(s);
    var n := SpaceHead(s);
    if n != 0 {
      SpaceIsRune(s);
      assert Repair(s)[n..] == Repair(s[n..]);
      TrimLeftRepair(s[n..]);
    }
  }

  /** A rune at the end of any bytes is left as it is. */
  lemma {:induction false} RepairBeforeRune(s: Bytes, rune: Bytes, inRun: bool)
    requires rune != [] && RuneLen(rune) == |rune|
    ensures Repair(s + rune, inRun) == Repair(s, inRun) + rune
    decreases |s|
  {
    if s == [] {
      assert s + rune == rune && rune[|rune|..] == [] && rune[..|rune|] == rune;
    } else if RuneLen(s) > 0 {
      var n := RuneLen(s);
      RuneLenAppend(s, rune);
      assert (s + rune)[n..] == s[n..] + rune && (s + rune)[..n] == s[..n];
      RepairBeforeRune(s[n..], rune, false);
    } else {
      StaysBad(s, rune);
      assert (s + rune)[1..] == s[1..] + rune;
      RepairBeforeRune(s[1..], rune, true);
    }
  }

  /** A rune stays as it is wherever it stands, and repair goes on afresh behind it. */
  lemma {:induction false} RepairAroundRune(a: Bytes, rune: Bytes, b: Bytes, inRun: bool)
    requires rune != [] && RuneLen(rune) == |rune|
    ensures Repair(a + rune + b, inRun) == Repair(a, inRun) + rune + Repair(b)
    decreases |a|
  {
    hide RuneLen, Repair;
    var more := rune + b;
    WholeRune(rune, b, inRun);
    assert a + rune + b == a + more;
    if a == [] {
      assert a + more == more && Repair(a, inRun) + rune == rune by { NothingRepaired(inRun); }
    } else {
      var k := if RuneLen(a) == 0 then 1 else RuneLen(a);
      assert a[k..] + rune + b == a[k..] + more;
      RepairFirst(a, more, inRun);
      RepairAroundRune(a[k..], rune, b, RuneLen(a) == 0);
      Regrouped(FirstRepaired(a, inRun), Repair(a[k..], RuneLen(a) == 0), rune, Repair(b));
    }
  }

  lemma NothingRepaired(inRun: bool)
    ensures Repair([], inRun) == []
  {
  }

  lemma Regrouped(a: Bytes, b: Bytes, c: Bytes, d: Bytes)
    ensures a + (b + c + d) == a + b + c + d
  {
  }

  lemma WholeRune(rune: Bytes, b: Bytes, inRun: bool)
    requires rune != [] && RuneLen(rune) == |rune|
    ensures RuneLen(rune + b) > 0 && Repair(rune + b, inRun) == rune + Repair(b)
  {
    hide RuneLen;
    RuneLenAppend(rune, b);
    assert (rune + b)[|rune|..] == b && (rune + b)[..|rune|] == rune;
  }

  /** What becomes of the first rune or bad byte. */
  function FirstRepaired(a: Bytes, inRun: bool): Bytes
    requires a != []
  {
    if RuneLen(a) > 0 then a[..RuneLen(a)] else if inRun then [] else REPLACEMENT
  }

  /** A rune that follows changes nothing of that. */
  lemma RepairFirst(a: Bytes, more: Bytes, inRun: bool)
    requires a != [] && RuneLen(more) > 0
    ensures var k := if RuneLen(a) == 0 then 1 else RuneLen(a);
            && Repair(a, inRun) == FirstRepaired(a, inRun) + Repair(a[k..], RuneLen(a) == 0)
            && Repair(a + more, inRun) == FirstRepaired(a, inRun) + Repair(a[k..] + more, RuneLen(a) == 0)
  {
    hide RuneLen;
    var k := if RuneLen(a) == 0 then 1 else RuneLen(a);
    if RuneLen(a) > 0 {
      RuneLenAppend(a, more);
    } else {
      StaysBad(a, more);
    }
    assert (a + more)[k..] == a[k..] + more && (a + more)[..k] == a[..k];
  }

  /** A run of bytes in which no rune begins becomes one U+FFFD. */
  lemma {:induction false} RepairOfRun(s: Bytes, inRun: bool)
    requires s != [] && forall i :: 0 <= i < |s| ==> RuneLen(s[i..]) == 0
    ensures Repair(s, inRun) == if inRun then [] else REPLACEMENT
    decreases |s|
  {
    hide RuneLen;
    assert s[0..] == s;
    if |s| > 1 {
      assert forall i :: 0 <= i < |s| - 1 ==> s[1..][i..] == s[i + 1..];
      RepairOfRun(s[1..], true);
    } else {
      assert s[1..] == [];
    }
  }

  /** A rune that follows completes nothing. */
  lemma StaysBad(s: Bytes, rune: Bytes)
    requires s != [] && RuneLen(s) == 0 && RuneLen(rune) > 0
    ensures RuneLen(s + rune) == 0
  {
    var all := s + rune;
    assert all[|s|] == rune[0] && !Continuation(rune[0]);
    assert forall i :: 0 <= i < |s| ==> all[i] == s[i];
  }

  /** The end of valid text that does not end in a space is not made one by what is put
      before it. */
  lemma TailStays(front: Bytes, s: Bytes)
    requires s != [] && Valid(s) && SpaceTail(s) == 0
    ensures SpaceTail(front + s) == 0
  {
    var all := front + s;
    assert !Continuation(s[0]);
    assert all[|front|] == s[0];
    assert forall i :: 0 <= i < |s| ==> all[|front| + i] == s[i];
  }

  lemma TailOfSuffix(front: Bytes, s: Bytes)
    requires SpaceTail(front + s) == 0
    ensures SpaceTail(s) == 0
  {
    var all := front + s;
    assert forall i :: 0 <= i < |s| ==> all[|front| + i] == s[i];
  }

  /** Repair makes no space at the end. */
  lemma {:induction false} TailOfRepair(s: Bytes, inRun: bool)
    requires SpaceTail(s) == 0
    ensures SpaceTail(Repair(s, inRun)) == 0
    decreases |s|
  {
    if s != [] {
      var n := RuneLen(s);
      var k := if n == 0 then 1 else n;
      var front := if n == 0 then (if inRun then [] else REPLACEMENT) else s[..n];
      var rest := Repair(s[k..], n == 0);
      assert s == s[..k] + s[k..];
      TailOfSuffix(s[..k], s[k..]);
      TailOfRepair(s[k..], n == 0);
      RepairValid(s[k..], n == 0);
      if rest != [] {
        TailStays(front, rest);
      } else {
        assert front + rest == front;
        assert n > 0 ==> s[k..] == [] && front == s;
      }
    }
  }

  /** A space at the end is one whole rune. */
  lemma TailIsRune(s: Bytes)
    requires SpaceTail(s) > 0
    ensures RuneLen(s[|s| - SpaceTail(s)..]) == SpaceTail(s)
  {
  }

  lemma TailOfAppended(s: Bytes, space: Bytes)
    requires SpaceTail(space) == |space| > 0
    ensures SpaceTail(s + space) == |space| && (s + space)[..|s|] == s
  {
    var all := s + space;
    assert forall i :: 0 <= i < |space| ==> all[|s| + i] == space[i];
  }

  lemma {:induction false} TrimRightRepair(s: Bytes)
    ensures TrimRight(Repair(s)) == Repair(TrimRight(s))
    decreases |s|
  {
    var n := SpaceTail(s);
    if n == 0 {
      TailOfRepair(s, false);
    } else {
      var front, space := s[..|s| - n], s[|s| - n..];
      assert s == front + space;
      TailIsRune(s);
      assert SpaceTail(space) == n;
      RepairBeforeRune(front, space, false);
      TailOfAppended(Repair(front), space);
      TrimRightRepair(front);
    }
  }

  /** It does not matter which of the two is done first. */
  lemma TrimRepair(s: Bytes)
    ensures TrimSpace(Repair(s)) == Repair(TrimSpace(s))
  {
    TrimLeftRepair(s);
    TrimRightRepair(TrimLeft(s));
  }

  /** The exact length of sanitised text. */
  lemma SanitisedLength(s: Bytes)
    ensures var t := TrimSpace(s);
            |Sanitise(s)| == |t| + 3 * Runs(t) - Bad(t)
  {
    TrimRepair(s);
    RepairLength(TrimSpace(s), false);
  }

  // ---- trimming and surrounding space ----

  /** Nothing but space. */
  predicate Blank(s: Bytes)
    decreases |s|
  {
    s == [] || (SpaceHead(s) > 0 && Blank(s[SpaceHead(s)..]))
  }

  lemma HeadOfPrefix(s: Bytes, rest: Bytes)
    requires SpaceHead(s) > 0
    ensures SpaceHead(s + rest) == SpaceHead(s)
  {
    var all := s + rest;
    assert forall i :: 0 <= i < |s| ==> all[i] == s[i];
  }

  lemma {:induction false} TrimLeftBlank(before: Bytes, s: Bytes)
    requires Blank(before)
    ensures TrimLeft(before + s) == TrimLeft(s)
    decreases |before|
  {
    if before == [] {
      assert before + s == s;
    } else {
      var n := SpaceHead(before);
      HeadOfPrefix(before, s);
      assert (before + s)[n..] == before[n..] + s;
      TrimLeftBlank(before[n..], s);
    }
  }

  /** Blank text begins with no continuation byte, so it makes no space of what stands
      before it. */
  lemma HeadBeforeBlank(s: Bytes, after: Bytes)
    requires s != [] && Blank(after) && SpaceHead(s) == 0
    ensures SpaceHead(s + after) == 0
  {
    var all := s + after;
    assert forall i :: 0 <= i < |s| ==> all[i] == s[i];
    if after != [] {
      assert all[|s|] == after[0] && !Continuation(after[0]);
    }
  }

  lemma {:induction false} TrimLeftBefore(s: Bytes, after: Bytes)
    requires Blank(after)
    ensures TrimLeft(s + after) == if TrimLeft(s) == [] then [] else TrimLeft(s) + after
    decreases |s|
  {
    if s == [] {
      assert s + after == after + [];
      TrimLeftBlank(after, []);
    } else if SpaceHead(s) == 0 {
      HeadBeforeBlank(s, after);
    } else {
      var n := SpaceHead(s);
      HeadOfPrefix(s, after);
      assert (s + after)[n..] == s[n..] + after;
      TrimLeftBefore(s[n..], after);
    }
  }

  /** Blank text ends in a space, and what is left without it is blank. */
  lemma {:induction false} BlankTail(after: Bytes)
    requires Blank(after) && after != []
    ensures EndsBlank(after)
    decreases |after|
  {
    hide EndsBlank;
    var n := SpaceHead(after);
    if after[n..] == [] {
      OneSpace(after);
    } else {
      BlankTail(after[n..]);
      EndsBlankStep(after, n);
    }
  }

  /** The last space of `after` can be split off. */
  predicate EndsBlank(after: Bytes) {
    var m := SpaceTail(after);
    0 < m <= |after| && Blank(after[..|after| - m]) && SpaceTail(after[|after| - m..]) == m
  }

  lemma OneSpace(after: Bytes)
    requires after != [] && SpaceHead(after) == |after|
    ensures EndsBlank(after)
  {
    assert after[..0] == [] && after[0..] == after;
  }

  lemma EndsBlankStep(after: Bytes, n: nat)
    requires 0 < n == SpaceHead(after) && EndsBlank(after[n..])
    ensures EndsBlank(after)
  {
    hide SpaceHead, SpaceTail, Blank;
    var rest := after[n..];
    var m := SpaceTail(rest);
    var front, space := after[..|after| - m], rest[|rest| - m..];
    assert after == front + space && after[|after| - m..] == space;
    TailOfAppended(front, space);
    assert front[n..] == rest[..|rest| - m];
    HeadOfFront(after, |after| - m);
    BlankAfter(front);
  }

  lemma BlankAfter(s: Bytes)
    requires SpaceHead(s) > 0 && Blank(s[SpaceHead(s)..])
    ensures Blank(s)
  {
  }

  lemma HeadOfFront(s: Bytes, k: nat)
    requires 0 < SpaceHead(s) <= k <= |s|
    ensures SpaceHead(s[..k]) == SpaceHead(s)
  {
  }

  lemma {:induction false} TrimRightBlank(s: Bytes, after: Bytes)
    requires Blank(after)
    ensures TrimRight(s + after) == TrimRight(s)
    decreases |after|
  {
    hide SpaceTail, TrimRight, Blank;
    if after == [] {
      assert s + after == s;
    } else {
      BlankTail(after);
      var k := |after| - SpaceTail(after);
      TrimRightSpace(s + after[..k], after[k..]);
      assert s + after == (s + after[..k]) + after[k..];
      TrimRightBlank(s, after[..k]);
    }
  }

  lemma TrimRightSpace(s: Bytes, space: Bytes)
    requires SpaceTail(space) == |space| > 0
    ensures TrimRight(s + space) == TrimRight(s)
  {
    hide SpaceTail;
    TailOfAppended(s, space);
  }

  /** Space around a text is trimmed away, whatever the text. */
  lemma TrimAround(before: Bytes, s: Bytes, after: Bytes)
    requires Blank(before) && Blank(after)
    ensures TrimSpace(before + s + after) == TrimSpace(s)
  {
    assert before + s + after == before + (s + after);
    TrimLeftBlank(before, s + after);
    TrimLeftBefore(s, after);
    if TrimLeft(s) != [] {
      TrimRightBlank(TrimLeft(s), after);
    }
  }

  // ---- what trimming answers ----

  /** Begins and ends with no space. */
  predicate Trimmed(s: Bytes) { SpaceHead(s) == 0 && SpaceTail(s) == 0 }

  /** `t` is what is left of `s` without the blank text around it. */
  ghost predicate Within(s: Bytes, t: Bytes) {
    exists before, after :: Blank(before) && Blank(after) && s == before + t + after
  }

  lemma {:induction false} BlankJoined(a: Bytes, b: Bytes)
    requires Blank(a) && Blank(b)
    ensures Blank(a + b)
    decreases |a|
  {
    if a == [] {
      assert a + b == b;
    } else {
      var n := SpaceHead(a);
      HeadOfPrefix(a, b);
      assert (a + b)[n..] == a[n..] + b;
      BlankJoined(a[n..], b);
    }
  }

  lemma SpaceBlank(s: Bytes, n: nat)
    requires 0 < n <= |s| && SpaceHead(s) == n
    ensures Blank(s[..n])
  {
    HeadOfFront(s, n);
    assert s[..n][n..] == [];
  }

  lemma TailBlank(s: Bytes, n: nat)
    requires SpaceTail(s) == n > 0
    ensures Blank(s[|s| - n..])
  {
    var tail := s[|s| - n..];
    assert SpaceHead(tail) == n && tail[n..] == [];
  }

  lemma NothingBlank()
    ensures Blank([])
  {
  }

  lemma {:induction false} TrimLeftSplits(s: Bytes) returns (before: Bytes)
    ensures Blank(before) && s == before + TrimLeft(s)
    decreases |s|
  {
    hide SpaceHead, Blank;
    var n := SpaceHead(s);
    before := [];
    if n == 0 {
      NothingBlank();
    } else {
      var rest := TrimLeftSplits(s[n..]);
      SpaceBlank(s, n);
      BlankJoined(s[..n], rest);
      before := s[..n] + rest;
      Rejoined(s, n, rest, TrimLeft(s));
    }
  }

  lemma Rejoined(s: Bytes, n: nat, front: Bytes, back: Bytes)
    requires n <= |s|
    ensures s[n..] == front + back ==> s == s[..n] + front + back
    ensures s[..n] == front + back ==> s == front + (back + s[n..])
  {
    assert s == s[..n] + s[n..];
  }

  lemma {:induction false} TrimRightSplits(s: Bytes) returns (after: Bytes)
    ensures Blank(after) && s == TrimRight(s) + after
    decreases |s|
  {
    hide SpaceTail, Blank;
    var n := SpaceTail(s);
    after := [];
    if n == 0 {
      NothingBlank();
    } else {
      var k := |s| - n;
      var rest := TrimRightSplits(s[..k]);
      TailBlank(s, n);
      BlankJoined(rest, s[k..]);
      after := rest + s[k..];
      Rejoined(s, k, TrimRight(s), rest);
    }
  }

  lemma TrimSpaceSplits(s: Bytes)
    ensures Trimmed(TrimSpace(s)) && Within(s, TrimSpace(s))
  {
    hide SpaceHead, SpaceTail, Blank, TrimLeft, TrimRight;
    var before := TrimLeftSplits(s);
    var after := TrimRightSplits(TrimLeft(s));
    TrimSpaceTrimmed(s);
    assert s == before + TrimSpace(s) + after;
  }

  lemma TrimmedStays(t: Bytes)
    requires Trimmed(t)
    ensures TrimSpace(t) == t
  {
    hide SpaceHead, SpaceTail;
  }

  /** `TrimSpace` takes away exactly the blank text at both ends. */
  lemma TrimSpaceIff(s: Bytes, t: Bytes)
    ensures TrimSpace(s) == t <==> Trimmed(t) && Within(s, t)
  {
    hide Trimmed, Blank, TrimSpace;
    TrimSpaceSplits(s);
    if Trimmed(t) && Within(s, t) {
      var before, after :| Blank(before) && Blank(after) && s == before + t + after;
      TrimAround(before, t, after);
      TrimmedStays(t);
    }
  }

  // ---- trimming and letter case ----

  lemma CaseKeepsSpace(s: Bytes)
    ensures SpaceHead(ToLower(s)) == SpaceHead(s) && SpaceTail(ToLower(s)) == SpaceTail(s)
  {
  }

  lemma {:induction false} TrimLeftLower(s: Bytes)
    ensures TrimLeft(ToLower(s)) == ToLower(TrimLeft(s))
    decreases |s|
  {
    CaseKeepsSpace(s);
    if SpaceHead(s) != 0 {
      assert ToLower(s)[SpaceHead(s)..] == ToLower(s[SpaceHead(s)..]);
      TrimLeftLower(s[SpaceHead(s)..]);
    }
  }

  lemma {:induction false} TrimRightLower(s: Bytes)
    ensures TrimRight(ToLower(s)) == ToLower(TrimRight(s))
    decreases |s|
  {
    CaseKeepsSpace(s);
    var k := |s| - SpaceTail(s);
    if SpaceTail(s) != 0 {
      assert ToLower(s)[..k] == ToLower(s[..k]);
      TrimRightLower(s[..k]);
    }
  }

  lemma TrimLower(s: Bytes)
    ensures TrimSpace(ToLower(s)) == ToLower(TrimSpace(s))
  {
    TrimLeftLower(s);
    TrimRightLower(TrimLeft(s));
  }
}
