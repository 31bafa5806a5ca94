/** Go strings and byte slices: finite sequences of bytes, with the few library
    operations the agent relies on (`strings.Split`, `strings.Cut`). */
module Text {

  datatype Option<+T> = None | Some(value: T)

  datatype Result<+T, +E> = Ok(value: T) | Err(error: E)

  type Byte = b: int | 0 <= b < 256

  type Bytes = seq<Byte>

  const SPACE: Byte := 0x20
  const QUOTE: Byte := 0x22
  const HASH: Byte := 0x23
  const PERCENT: Byte := 0x25
  const APOSTROPHE: Byte := 0x27
  const HYPHEN: Byte := 0x2d
  const DOT: Byte := 0x2e
  const SLASH: Byte := 0x2f
  const COLON: Byte := 0x3a
  const EQUALS: Byte := 0x3d
  const QUESTION: Byte := 0x3f
  const BACKSLASH: Byte := 0x5c
  const UNDERSCORE: Byte := 0x5f
  const NEWLINE: Byte := 0x0a

  /** The bytes of a source-code literal; every literal used here is ASCII. */
  function Ascii(s: string): (b: Bytes)
    ensures |b| == |s|
    ensures forall i :: 0 <= i < |s| && s[i] as int < 128 ==> b[i] == s[i] as int
  {
    seq(|s|, i requires 0 <= i < |s| => if s[i] as int < 128 then s[i] as int else QUESTION)
  }

  predicate IsDigit(b: Byte) { '0' as int <= b <= '9' as int }

  predicate IsLower(b: Byte) { 'a' as int <= b <= 'z' as int }

  predicate IsUpper(b: Byte) { 'A' as int <= b <= 'Z' as int }

  predicate IsAlnum(b: Byte) { IsDigit(b) || IsLower(b) || IsUpper(b) }

  predicate IsHex(b: Byte) {
    IsDigit(b) || 'a' as int <= b <= 'f' as int || 'A' as int <= b <= 'F' as int
  }

  function Unhex(b: Byte): (v: nat)
    requires IsHex(b)
    ensures v < 16
  {
    if IsDigit(b) then b - '0' as int
    else if IsLower(b) then b - 'a' as int + 10
    else b - 'A' as int + 10
  }

  function HexLower(v: nat): (b: Byte)
    requires v < 16
    ensures IsHex(b) && Unhex(b) == v
  {
    if v < 10 then '0' as int + v else 'a' as int + v - 10
  }

  function HexUpper(v: nat): (b: Byte)
    requires v < 16
    ensures IsHex(b) && Unhex(b) == v
  {
    if v < 10 then '0' as int + v else 'A' as int + v - 10
  }

  function Lower(b: Byte): Byte { if IsUpper(b) then b + 32 else b }

  function Upper(b: Byte): Byte { if IsLower(b) then b - 32 else b }

  /** `strings.ToLower` on ASCII text. */
  function ToLower(s: Bytes): (r: Bytes)
    ensures |r| == |s|
    ensures forall i :: 0 <= i < |s| ==> r[i] == Lower(s[i])
  {
    seq(|s|, i requires 0 <= i < |s| => Lower(s[i]))
  }

  /** `strings.Cut` at the first `sep`: what stands before it and after it. */
  function Cut(s: Bytes, sep: Byte): Option<(Bytes, Bytes)> {
    if s == [] then None
    else if s[0] == sep then Some(([], s[1..]))
    else match Cut(s[1..], sep)
      case None => None
      case Some((before, after)) => Some(([s[0]] + before, after))
  }

  lemma {:induction false} CutAt(before: Bytes, sep: Byte, after: Bytes)
    requires sep !in before
    ensures Cut(before + [sep] + after, sep) == Some((before, after))
  {
    var s := before + [sep] + after;
    if before != [] {
      CutAt(before[1..], sep, after);
      assert s[1..] == before[1..] + [sep] + after;
      assert before == [before[0]] + before[1..];
    } else {
      assert s[1..] == after;
    }
  }

  /** `Cut` cuts at the first separator, if there is one. */
  lemma {:induction false} CutIff(s: Bytes, sep: Byte)
    ensures Cut(s, sep).None? <==> sep !in s
    ensures Cut(s, sep).Some? ==>
              var (before, after) := Cut(s, sep).value;
              s == before + [sep] + after && sep !in before
  {
    if s != [] && s[0] != sep {
      CutIff(s[1..], sep);
      assert s == [s[0]] + s[1..];
    } else if s != [] {
      assert s == [] + [sep] + s[1..];
    }
  }

  /** Puts `b` at the front of the first part. */
  function ConsHead(b: Byte, parts: seq<Bytes>): (r: seq<Bytes>)
    requires |parts| >= 1
    ensures |r| == |parts|
  {
    [[b] + parts[0]] + parts[1..]
  }

  lemma ConsHeadAppend(b: Byte, front: seq<Bytes>, back: seq<Bytes>)
    requires |front| >= 1
    ensures ConsHead(b, front + back) == ConsHead(b, front) + back
  {
    assert (front + back)[1..] == front[1..] + back;
  }

  /** `strings.Split` on a one-byte separator. */
  function Split(s: Bytes, sep: Byte): (parts: seq<Bytes>)
    ensures |parts| >= 1
  {
    if s == [] then [[]]
    else if s[0] == sep then [[]] + Split(s[1..], sep)
    else ConsHead(s[0], Split(s[1..], sep))
  }

  lemma {:induction false} SplitPart(s: Bytes, sep: Byte)
    requires sep !in s
    ensures Split(s, sep) == [s]
  {
    if s != [] {
      SplitPart(s[1..], sep);
      assert [s[0]] + s[1..] == s;
    }
  }

  /** No part of a split holds the separator. */
  lemma {:induction false} SplitParts(s: Bytes, sep: Byte)
    ensures forall p :: p in Split(s, sep) ==> sep !in p
  {
    if s != [] {
      SplitParts(s[1..], sep);
      var rest := Split(s[1..], sep);
      assert rest[0] in rest && forall p :: p in rest[1..] ==> p in rest;
    }
  }

  /** Splitting distributes over a separator. */
  lemma {:induction false} SplitAppend(a: Bytes, sep: Byte, b: Bytes)
    ensures Split(a + [sep] + b, sep) == Split(a, sep) + Split(b, sep)
  {
    if a == [] {
      assert ([] + [sep] + b)[1..] == b;
    } else {
      var rest := a[1..] + [sep] + b;
      assert a + [sep] + b == [a[0]] + rest;
      var front, back := Split(a[1..], sep), Split(b, sep);
      SplitAppend(a[1..], sep, b);
      assert Split(rest, sep) == front + back;
      if a[0] == sep {
        assert [[]] + (front + back) == [[]] + front + back;
      } else {
        ConsHeadAppend(a[0], front, back);
      }
    }
  }

  /** The parts of a split, joined again. */
  function Join(parts: seq<Bytes>, sep: Byte): Bytes
  {
    if parts == [] then []
    else if |parts| == 1 then parts[0]
    else parts[0] + [sep] + Join(parts[1..], sep)
  }

  lemma {:induction false} JoinSplit(s: Bytes, sep: Byte)
    ensures Join(Split(s, sep), sep) == s
  {
    if s != [] {
      JoinSplit(s[1..], sep);
      var rest := Split(s[1..], sep);
      if s[0] != sep && |rest| > 1 {
        assert Split(s, sep)[1..] == rest[1..];
        assert [s[0]] + rest[0] + [sep] + Join(rest[1..], sep) == [s[0]] + (rest[0] + [sep] + Join(rest[1..], sep));
      }
    }
  }
}
