/** UTF-8 as a table between code points and bytes (section 3 of RFC 3629), and what the
    byte tests of `Utf8` say about code points. */
module CodePoints {
  import opened Text
  import opened Utf8

  /** The code points that can be encoded: all but the surrogates. */
  predicate Scalar(c: nat) { c < 0xD800 || 0xE000 <= c < 0x11_0000 }

  function Utf8Of(c: nat): (r: Bytes)
    requires c < 0x11_0000
    ensures 1 <= |r| <= 4
  {
    if c < 0x80 then [c]
    else if c < 0x800 then [0xC0 + c / 64, 0x80 + c % 64]
    else if c < 0x1_0000 then [0xE0 + c / 4096, 0x80 + c / 64 % 64, 0x80 + c % 64]
    else [0xF0 + c / 0x4_0000, 0x80 + c / 4096 % 64, 0x80 + c / 64 % 64, 0x80 + c % 64]
  }

  /** The bits of an encoding put together: those of the lead byte and six of each other. */
  function Bits(r: Bytes): int
    requires 1 <= |r| <= 4
  {
    if |r| == 1 then Low(r[0], 0)
    else if |r| == 2 then Low(r[0], 0xC0) * 64 + Low(r[1], 0x80)
    else if |r| == 3 then Low(r[0], 0xE0) * 4096 + Low(r[1], 0x80) * 64 + Low(r[2], 0x80)
    else Low(r[0], 0xF0) * 0x4_0000 + Low(r[1], 0x80) * 4096 + Low(r[2], 0x80) * 64 + Low(r[3], 0x80)
  }

  function Low(b: int, marker: int): int { b - marker }

  /** Every code point is encoded in the bits of its bytes. */
  lemma BitsOf(c: nat)
    requires c < 0x11_0000
    ensures Bits(Utf8Of(c)) == c
  {
    assert c / 4096 == c / 64 / 64 && c / 0x4_0000 == c / 4096 / 64;
  }

  /** Numbers written in base 64. */
  lemma Sextets(a: nat, b: nat, c: nat, d: nat)
    requires b < 64 && c < 64 && d < 64
    ensures var n := a * 0x4_0000 + b * 4096 + c * 64 + d;
            n / 0x4_0000 == a && n / 4096 % 64 == b && n / 64 % 64 == c && n % 64 == d
  {
    var n := a * 0x4_0000 + b * 4096 + c * 64 + d;
    assert n / 64 == a * 4096 + b * 64 + c;
    assert n / 4096 == a * 64 + b;
  }

  /** What begins with the encoding of a scalar value begins with a rune of that length. */
  lemma EncodingIsRune(c: nat, s: Bytes)
    requires Scalar(c) && Utf8Of(c) <= s
    ensures RuneLen(s) == |Utf8Of(c)|
  {
    var r := Utf8Of(c);
    assert forall i :: 0 <= i < |r| ==> s[i] == r[i];
  }

  /** And a rune is the encoding of the scalar value in its bits. */
  lemma RuneIsEncoding(s: Bytes)
    requires RuneLen(s) > 0
    ensures var c := Bits(s[..RuneLen(s)]);
            c >= 0 && Scalar(c) && Utf8Of(c) == s[..RuneLen(s)]
  {
    var n := RuneLen(s);
    var r := s[..n];
    assert forall i :: 0 <= i < n ==> r[i] == s[i];
    if n == 2 {
      assert r == [r[0], r[1]];
    } else if n == 3 {
      Three(r[0], r[1], r[2]);
      assert r == [r[0], r[1], r[2]];
    } else if n == 4 {
      Four(r[0], r[1], r[2], r[3]);
      assert r == [r[0], r[1], r[2], r[3]];
    }
  }

  lemma Three(a: Byte, b: Byte, c: Byte)
    requires LeadLen(a) == 3 && SecondByte(a, b) && Continuation(b) && Continuation(c)
    ensures Bits([a, b, c]) >= 0 && Scalar(Bits([a, b, c])) && Utf8Of(Bits([a, b, c])) == [a, b, c]
  {
    Sextets(0, a - 0xE0, b - 0x80, c - 0x80);
  }

  lemma Four(a: Byte, b: Byte, c: Byte, d: Byte)
    requires LeadLen(a) == 4 && SecondByte(a, b) && Continuation(b) && Continuation(c) && Continuation(d)
    ensures Bits([a, b, c, d]) >= 0 && Scalar(Bits([a, b, c, d])) && Utf8Of(Bits([a, b, c, d])) == [a, b, c, d]
  {
    Sextets(a - 0xF0, b - 0x80, c - 0x80, d - 0x80);
  }

  /** The head of `s` is a rune exactly if `s` begins with the encoding of a scalar value. */
  lemma RuneIff(s: Bytes)
    ensures RuneLen(s) > 0 <==> exists c: nat :: Scalar(c) && Utf8Of(c) <= s
  {
    hide RuneLen, Bits;
    if RuneLen(s) > 0 {
      RuneIsEncoding(s);
    }
    if c: nat :| Scalar(c) && Utf8Of(c) <= s {
      EncodingIsRune(c, s);
    }
  }

  /** Valid text is the encoding of scalar values one after another. */
  function Encoded(codes: seq<nat>): Bytes
    requires Scalars(codes)
  {
    if codes == [] then [] else Utf8Of(codes[0]) + Encoded(codes[1..])
  }

  predicate Scalars(codes: seq<nat>) { forall i :: 0 <= i < |codes| ==> Scalar(codes[i]) }

  lemma {:induction false} EncodedValid(codes: seq<nat>)
    requires Scalars(codes)
    ensures Valid(Encoded(codes))
  {
    if codes != [] {
      hide RuneLen, Utf8Of;
      var r := Utf8Of(codes[0]);
      var s := r + Encoded(codes[1..]);
      EncodingIsRune(codes[0], s);
      EncodedValid(codes[1..]);
      assert s[|r|..] == Encoded(codes[1..]);
    }
  }

  lemma {:induction false} ValidDecodes(s: Bytes) returns (codes: seq<nat>)
    requires Valid(s)
    ensures Scalars(codes) && Encoded(codes) == s
    decreases |s|
  {
    codes := [];
    if s != [] {
      hide RuneLen, Utf8Of, Bits, Encoded, Scalar;
      var n := RuneLen(s);
      var rest := ValidDecodes(s[n..]);
      RuneIsEncoding(s);
      EncodedCons(Bits(s[..n]), rest);
      codes := [Bits(s[..n]) as nat] + rest;
      assert s == s[..n] + s[n..];
    } else {
      NothingEncoded();
    }
  }

  lemma NothingEncoded()
    ensures Encoded([]) == []
  {
  }

  lemma EncodedCons(c: nat, rest: seq<nat>)
    requires Scalar(c) && Scalars(rest)
    ensures Scalars([c] + rest) && Encoded([c] + rest) == Utf8Of(c) + Encoded(rest)
  {
    hide Utf8Of, Scalar;
    assert ([c] + rest)[1..] == rest;
  }

  lemma ValidIff(s: Bytes)
    ensures Valid(s) <==> exists codes: seq<nat> :: Scalars(codes) && Encoded(codes) == s
  {
    if Valid(s) {
      var codes := ValidDecodes(s);
    }
    if codes: seq<nat> :| Scalars(codes) && Encoded(codes) == s {
      EncodedValid(codes);
    }
  }

  /** U+FFFD */
  lemma ReplacementIs()
    ensures REPLACEMENT == Utf8Of(0xFFFD)
  {
  }

  // ---- space ----

  /** `unicode.IsSpace` */
  predicate IsSpace(c: nat) {
    || 0x9 <= c <= 0xD || c == 0x20 || c == 0x85 || c == 0xA0 || c == 0x1680 || 0x2000 <= c <= 0x200A
    || c == 0x2028 || c == 0x2029 || c == 0x202F || c == 0x205F || c == 0x3000
  }

  predicate EndsWith(s: Bytes, end: Bytes) {
    |end| <= |s| && s[|s| - |end|..] == end
  }

  lemma SpaceBytes(r: Bytes)
    requires SpaceHead(r) == |r| > 0
    ensures var c := Bits(r);
            c >= 0 && IsSpace(c) && Utf8Of(c) == r
  {
    if |r| == 1 {
      assert r == [r[0]];
    } else if |r| == 2 {
      assert r == [r[0], r[1]];
    } else {
      assert r == [r[0], r[1], r[2]];
    }
  }

  lemma FirstRune(s: Bytes)
    requires SpaceHead(s) > 0
    ensures SpaceHead(s[..SpaceHead(s)]) == SpaceHead(s)
  {
  }

  lemma LastRune(s: Bytes)
    requires SpaceTail(s) > 0
    ensures SpaceHead(s[|s| - SpaceTail(s)..]) == SpaceTail(s)
  {
  }

  lemma SpaceEncoding(c: nat)
    requires IsSpace(c)
    ensures SpaceHead(Utf8Of(c)) == |Utf8Of(c)| == SpaceTail(Utf8Of(c))
  {
    if c >= 0x800 {
      assert c / 4096 == c / 64 / 64;
    }
  }

  /** A text begins with a space exactly if it begins with the encoding of one. */
  lemma SpaceHeadIff(s: Bytes)
    ensures SpaceHead(s) > 0 <==> exists c: nat :: IsSpace(c) && Utf8Of(c) <= s
  {
    hide SpaceHead, SpaceTail, Utf8Of, Bits;
    if SpaceHead(s) > 0 {
      FirstRune(s);
      SpaceBytes(s[..SpaceHead(s)]);
    }
    if c: nat :| IsSpace(c) && Utf8Of(c) <= s {
      SpaceEncoding(c);
      SpaceStarts(Utf8Of(c), s);
    }
  }

  lemma SpaceStarts(r: Bytes, s: Bytes)
    requires SpaceHead(r) == |r| > 0 && r <= s
    ensures SpaceHead(s) == |r|
  {
    assert forall i :: 0 <= i < |r| ==> s[i] == r[i];
  }

  lemma SpaceTailIff(s: Bytes)
    ensures SpaceTail(s) > 0 <==> exists c: nat :: IsSpace(c) && EndsWith(s, Utf8Of(c))
  {
    hide SpaceHead, SpaceTail, Utf8Of, Bits;
    if SpaceTail(s) > 0 {
      LastRune(s);
      SpaceBytes(s[|s| - SpaceTail(s)..]);
    }
    if c: nat :| IsSpace(c) && EndsWith(s, Utf8Of(c)) {
      SpaceEncoding(c);
      SpaceEnds(Utf8Of(c), s);
    }
  }

  lemma SpaceEnds(r: Bytes, s: Bytes)
    requires SpaceTail(r) == |r| > 0 && EndsWith(s, r)
    ensures SpaceTail(s) == |r|
  {
    assert forall i :: 0 <= i < |r| ==> s[|s| - |r| + i] == r[i];
  }
}
