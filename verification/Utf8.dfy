/** UTF-8 text (section 4 of RFC 3629): rune boundaries, `strings.ToValidUTF8` and
    `strings.TrimSpace`, and the sanitising that both bounded captures apply. */
module Utf8 {
  import opened Text

  const REPLACEMENT: Bytes := [0xEF, 0xBF, 0xBD]

  predicate Continuation(b: Byte) { 0x80 <= b <= 0xBF }

  /** The second bytes that may follow lead byte `lead` (the table of section 4). */
  predicate SecondByte(lead: Byte, b: Byte) {
    if lead == 0xE0 then 0xA0 <= b <= 0xBF
    else if lead == 0xED then 0x80 <= b <= 0x9F
    else if lead == 0xF0 then 0x90 <= b <= 0xBF
    else if lead == 0xF4 then 0x80 <= b <= 0x8F
    else Continuation(b)
  }

  /** How many bytes the sequence led by `lead` has; 0 when `lead` leads nothing. */
  function LeadLen(lead: Byte): (n: nat)
    ensures n <= 4
  {
    if lead < 0x80 then 1
    else if 0xC2 <= lead <= 0xDF then 2
    else if 0xE0 <= lead <= 0xEF then 3
    else if 0xF0 <= lead <= 0xF4 then 4
    else 0
  }

  /** Bytes of the rune at the head of `s`, or 0 when the head is not a rune
      (where `utf8.DecodeRune` answers RuneError with width 1). */
  function RuneLen(s: Bytes): (n: nat)
    ensures n <= |s| && n <= 4
    ensures n > 0 ==> n == LeadLen(s[0])
    ensures n > 0 ==> forall i :: 1 <= i < n ==> Continuation(s[i])
  {
    if s == [] then 0
    else
      var n := LeadLen(s[0]);
      if n <= |s|
         && (n >= 2 ==> SecondByte(s[0], s[1]))
         && (n >= 3 ==> Continuation(s[2]))
         && (n >= 4 ==> Continuation(s[3]))
      then n else 0
  }

  /** A rune at the head stays one whatever follows it. */
  lemma RuneLenAppend(s: Bytes, rest: Bytes)
    requires RuneLen(s) > 0
    ensures RuneLen(s + rest) == RuneLen(s)
    ensures RuneLen(s[..RuneLen(s)] + rest) == RuneLen(s)
  {
    var n := RuneLen(s);
    assert forall i :: 0 <= i < n ==> (s + rest)[i] == s[i] && (s[..n] + rest)[i] == s[i];
  }

  predicate Valid(s: Bytes) {
    s == [] || (RuneLen(s) > 0 && Valid(s[RuneLen(s)..]))
  }

  lemma {:induction false} ValidAppend(a: Bytes, b: Bytes)
    requires Valid(a) && Valid(b)
    ensures Valid(a + b)
  {
    if a == [] {
      assert a + b == b;
    } else {
      var n := RuneLen(a);
      RuneLenAppend(a, b);
      ValidAppend(a[n..], b);
      assert (a + b)[n..] == a[n..] + b;
    }
  }

  lemma ReplacementValid()
    ensures RuneLen(REPLACEMENT) == 3 && Valid(REPLACEMENT)
  {
    assert REPLACEMENT[3..] == [];
  }

  lemma {:induction false} AsciiValid(s: Bytes)
    requires forall i :: 0 <= i < |s| ==> s[i] < 0x80
    ensures Valid(s)
  {
    if s != [] {
      AsciiValid(s[1..]);
    }
  }

  /** `strings.ToValidUTF8` with U+FFFD: each maximal run of bad bytes becomes one
      replacement. `inRun` says that the byte before `s` was bad. */
  function Repair(s: Bytes, inRun: bool := false): (r: Bytes)
    ensures |r| <= |s| + 2 * ((|s| + if inRun then 0 else 1) / 2)
    decreases |s|
  {
    if s == [] then []
    else
      var n := RuneLen(s);
      if n == 0 then (if inRun then [] else REPLACEMENT) + Repair(s[1..], true)
      else s[..n] + Repair(s[n..], false)
  }

  /** Repair yields valid text, whatever it was given. */
  lemma {:induction false} RepairValid(s: Bytes, inRun: bool)
    ensures Valid(Repair(s, inRun))
    decreases |s|
  {
    if s != [] {
      var n := RuneLen(s);
      if n == 0 {
        RepairValid(s[1..], true);
        ReplacementValid();
        ValidAppend(if inRun then [] else REPLACEMENT, Repair(s[1..], true));
      } else {
        RepairValid(s[n..], false);
        RuneLenAppend(s, Repair(s[n..], false));
        assert Repair(s, inRun)[n..] == Repair(s[n..], false);
      }
    }
  }

  /** Valid text is left alone, and only valid text is. */
  lemma {:induction false} RepairFixpoint(s: Bytes, inRun: bool)
    requires Valid(s)
    ensures Repair(s, inRun) == s
    decreases |s|
  {
    if s != [] {
      var n := RuneLen(s);
      RepairFixpoint(s[n..], false);
      assert s == s[..n] + s[n..];
    }
  }

  lemma RepairIdentityIff(s: Bytes)
    ensures Repair(s) == s <==> Valid(s)
  {
    RepairValid(s, false);
    if Valid(s) {
      RepairFixpoint(s, false);
    }
  }

  /** The bound is met for every length: lone bad bytes between ASCII letters cost 2n
      bytes if n is even and 2n+1 if it is odd. */
  lemma {:induction false} RepairBoundTight(n: nat)
    ensures var s := seq(n, i => if i % 2 == 0 then 0xFF else 0x61);
            |Repair(s)| == 2 * n + n % 2
  {
    var s: Bytes := seq(n, i => if i % 2 == 0 then 0xFF else 0x61);
    if n > 0 {
      var t := s[1..];
      assert RuneLen(s) == 0;
      if n > 1 {
        var u: Bytes := seq(n - 2, i => if i % 2 == 0 then 0xFF else 0x61);
        assert RuneLen(t) == 1 && t[1..] == u;
        RepairBoundTight(n - 2);
        assert Repair(t, true) == t[..1] + Repair(u, false);
      }
    }
  }

  /** Where the last whole rune of the first `k` bytes of `s` ends. */
  function WholeRunes(s: Bytes, k: nat): (e: nat)
    requires Valid(s) && k <= |s|
    ensures e <= k
    ensures Valid(s[..e])
    decreases |s|
  {
    if s == [] || RuneLen(s) > k then 0
    else
      var n := RuneLen(s);
      var e := WholeRunes(s[n..], k - n);
      RuneLenAppend(s, s[n..][..e]);
      assert s[..n + e] == s[..n] + s[n..][..e];
      assert s[..n + e][n..] == s[n..][..e];
      n + e
  }

  /** A strict prefix of one rune holds no rune at all: its bytes are one bad run. */
  lemma {:induction false} RepairPartialRune(s: Bytes, lo: nat, hi: nat, inRun: bool)
    requires RuneLen(s) > 0 && lo < hi < RuneLen(s)
    requires inRun <==> lo > 0
    ensures Repair(s[lo..hi], inRun) == (if inRun then [] else REPLACEMENT)
    decreases hi - lo
  {
    var t := s[lo..hi];
    assert lo > 0 ==> Continuation(t[0]);
    assert RuneLen(t) == 0;
    if lo + 1 < hi {
      RepairPartialRune(s, lo + 1, hi, true);
    }
    assert t[1..] == s[lo + 1..hi];
  }

  lemma WholeRunesStep(s: Bytes, k: nat)
    requires Valid(s) && s != [] && k <= |s|
    ensures var n := RuneLen(s);
            && 0 < n <= |s| && Valid(s[n..])
            && WholeRunes(s, k) == if n > k then 0 else n + WholeRunes(s[n..], k - n)
  {
  }

  lemma RepairTorn(s: Bytes, k: nat)
    requires 0 < k < RuneLen(s)
    ensures Repair(s[..k]) == REPLACEMENT
  {
    RepairPartialRune(s, 0, k, false);
    assert s[0..k] == s[..k];
  }

  lemma NothingWhole(s: Bytes)
    requires Valid(s)
    ensures WholeRunes(s, 0) == 0 && Repair(s[..0]) == []
  {
  }

  /** Cutting valid text anywhere and repairing it gives its whole runes, followed
      by one U+FFFD exactly when the cut fell inside a rune. */
  lemma {:induction false} RepairOfPrefix(s: Bytes, k: nat)
    requires Valid(s) && k <= |s|
    ensures var e := WholeRunes(s, k);
            Repair(s[..k]) == s[..e] + (if e == k then [] else REPLACEMENT)
    decreases |s|
  {
    hide WholeRunes, Valid, RuneLen, Repair;
    if k == 0 {
      NothingWhole(s);
    } else {
      WholeRunesStep(s, k);
      var n := RuneLen(s);
      if n > k {
        RepairTorn(s, k);
      } else {
        var e := WholeRunes(s[n..], k - n);
        RepairCons(s, k);
        RepairOfPrefix(s[n..], k - n);
        Regroup(s, n, e, if e == k - n then [] else REPLACEMENT);
      }
    }
  }

  lemma Regroup(s: Bytes, n: nat, e: nat, tear: Bytes)
    requires n + e <= |s|
    ensures s[..n] + (s[n..][..e] + tear) == s[..n + e] + tear
  {
  }

  lemma RepairCons(s: Bytes, k: nat)
    requires 0 < RuneLen(s) <= k <= |s|
    ensures var n := RuneLen(s);
            Repair(s[..k]) == s[..n] + Repair(s[n..][..k - n])
  {
    var n := RuneLen(s);
    var tail := s[n..][..k - n];
    assert s[..k] == s[..n] + tail;
    RuneLenAppend(s, tail);
    assert s[..k][n..] == tail && s[..k][..n] == s[..n];
  }

  // ---- strings.TrimSpace ----

  predicate AsciiSpace(b: Byte) { 9 <= b <= 13 || b == SPACE }

  /** U+0085 and U+00A0. */
  predicate Space2(a: Byte, b: Byte) { a == 0xC2 && (b == 0x85 || b == 0xA0) }

  /** U+1680, U+2000..U+200A, U+2028, U+2029, U+202F, U+205F and U+3000. */
  predicate Space3(a: Byte, b: Byte, c: Byte) {
    (a == 0xE1 && b == 0x9A && c == 0x80)
    || (a == 0xE2 && b == 0x80 && (0x80 <= c <= 0x8A || c == 0xA8 || c == 0xA9 || c == 0xAF))
    || (a == 0xE2 && b == 0x81 && c == 0x9F)
    || (a == 0xE3 && b == 0x80 && c == 0x80)
  }

  /** Bytes of the space rune that `s` begins with, or 0. */
  function SpaceHead(s: Bytes): (n: nat)
    ensures n <= |s|
  {
    if |s| >= 1 && AsciiSpace(s[0]) then 1
    else if |s| >= 2 && Space2(s[0], s[1]) then 2
    else if |s| >= 3 && Space3(s[0], s[1], s[2]) then 3
    else 0
  }

  /** Bytes of the space rune that `s` ends with, or 0. */
  function SpaceTail(s: Bytes): (n: nat)
    ensures n <= |s|
  {
    var k := |s|;
    if k >= 1 && AsciiSpace(s[k - 1]) then 1
    else if k >= 2 && Space2(s[k - 2], s[k - 1]) then 2
    else if k >= 3 && Space3(s[k - 3], s[k - 2], s[k - 1]) then 3
    else 0
  }

  function TrimLeft(s: Bytes): Bytes {
    if SpaceHead(s) == 0 then s else TrimLeft(s[SpaceHead(s)..])
  }

  function TrimRight(s: Bytes): Bytes {
    if SpaceTail(s) == 0 then s else TrimRight(s[..|s| - SpaceTail(s)])
  }

  function TrimSpace(s: Bytes): Bytes {
    TrimRight(TrimLeft(s))
  }

  /** Trimming on the left keeps a suffix that begins with no space. */
  lemma {:induction false} TrimLeftKeeps(s: Bytes)
    ensures var r := TrimLeft(s);
            SpaceHead(r) == 0 && |r| <= |s| && r == s[|s| - |r|..]
  {
    if SpaceHead(s) != 0 {
      TrimLeftKeeps(s[SpaceHead(s)..]);
    }
  }

  /** Trimming on the right keeps a prefix that ends with no space. */
  lemma {:induction false} TrimRightKeeps(s: Bytes)
    ensures var r := TrimRight(s);
            SpaceTail(r) == 0 && r <= s
  {
    if SpaceTail(s) != 0 {
      TrimRightKeeps(s[..|s| - SpaceTail(s)]);
    }
  }

  /** Trimmed text begins and ends with no space, so trimming again changes nothing. */
  lemma TrimSpaceTrimmed(s: Bytes)
    ensures var r := TrimSpace(s);
            SpaceHead(r) == 0 && SpaceTail(r) == 0 && TrimSpace(r) == r && |r| <= |s|
  {
    var t := TrimLeft(s);
    var r := TrimRight(t);
    TrimLeftKeeps(s);
    TrimRightKeeps(t);
    assert forall i :: 0 <= i < |r| ==> r[i] == t[i];
  }

  /** Dropping a whole rune at the end of valid text leaves valid text. */
  lemma {:induction false} ValidWithoutLastRune(s: Bytes, k: nat)
    requires Valid(s) && k < |s| && !Continuation(s[k])
    ensures Valid(s[..k])
    decreases |s|
  {
    if k > 0 {
      var n := RuneLen(s);
      assert n <= k;
      ValidWithoutLastRune(s[n..], k - n);
      RuneLenAppend(s, s[n..][..k - n]);
      assert s[..k] == s[..n] + s[n..][..k - n];
      assert s[..k][n..] == s[n..][..k - n];
    }
  }

  lemma {:induction false} TrimLeftValid(s: Bytes)
    requires Valid(s)
    ensures Valid(TrimLeft(s))
  {
    if SpaceHead(s) != 0 {
      assert RuneLen(s) == SpaceHead(s);
      TrimLeftValid(s[SpaceHead(s)..]);
    }
  }

  lemma {:induction false} TrimRightValid(s: Bytes)
    requires Valid(s)
    ensures Valid(TrimRight(s))
  {
    if SpaceTail(s) != 0 {
      ValidWithoutLastRune(s, |s| - SpaceTail(s));
      TrimRightValid(s[..|s| - SpaceTail(s)]);
    }
  }

  /** What both captures report: repaired, then trimmed. */
  function Sanitise(s: Bytes): (r: Bytes)
    ensures |r| <= 2 * |s| + |s| % 2
  {
    TrimSpaceTrimmed(Repair(s));
    TrimSpace(Repair(s))
  }

  /** Sanitised text is valid, bounded, and unchanged by a second pass. */
  lemma SanitiseStable(s: Bytes)
    ensures Valid(Sanitise(s))
    ensures Sanitise(Sanitise(s)) == Sanitise(s)
    ensures SpaceHead(Sanitise(s)) == 0 && SpaceTail(Sanitise(s)) == 0
  {
    RepairValid(s, false);
    TrimLeftValid(Repair(s));
    TrimRightValid(TrimLeft(Repair(s)));
    RepairFixpoint(Sanitise(s), false);
    TrimSpaceTrimmed(Repair(s));
  }
}
