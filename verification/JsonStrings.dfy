/** JSON string literals (section 7 of RFC 8259): what they look like, what they stand
    for, and that `ReadString` reads exactly these. */
module JsonStrings {
  import opened Text
  import opened Utf8
  import opened CodePoints
  import opened StateCodec
  import Trimming

  /** \n and its kind, or a code unit \uXXXX. */
  datatype Escaped = Short(letter: Byte) | Unit(digits: Bytes)

  /** An escape and the bytes behind it, up to the next one. */
  datatype Chunk = Chunk(escape: Escaped, raw: Bytes)

  datatype Literal = Literal(raw: Bytes, chunks: seq<Chunk>)

  // ---- what literals look like ----

  /** Bytes that stand in a literal as they are; they need not be valid UTF-8. */
  predicate PlainRaw(raw: Bytes) {
    forall i :: 0 <= i < |raw| ==> raw[i] >= 0x20 && raw[i] != QUOTE && raw[i] != BACKSLASH
  }

  predicate EscapeOk(e: Escaped) {
    match e
    case Short(letter) => letter in Ascii("\"\\/bfnrt")
    case Unit(digits) => |digits| == 4 && forall i :: 0 <= i < 4 ==> IsHex(digits[i])
  }

  predicate ChunkOk(c: Chunk) { EscapeOk(c.escape) && PlainRaw(c.raw) }

  predicate ChunksOk(chunks: seq<Chunk>) { forall i :: 0 <= i < |chunks| ==> ChunkOk(chunks[i]) }

  predicate LiteralOk(l: Literal) { PlainRaw(l.raw) && ChunksOk(l.chunks) }

  function EscapeText(e: Escaped): Bytes {
    match e
    case Short(letter) => [BACKSLASH, letter]
    case Unit(digits) => [BACKSLASH, 'u' as int] + digits
  }

  function ChunksText(chunks: seq<Chunk>): Bytes {
    if chunks == [] then [] else EscapeText(chunks[0].escape) + chunks[0].raw + ChunksText(chunks[1..])
  }

  /** All but the opening quote. */
  function Inner(l: Literal): Bytes { l.raw + ChunksText(l.chunks) + [QUOTE] }

  function LiteralText(l: Literal): Bytes { [QUOTE] + Inner(l) }

  // ---- what they stand for ----

  function ShortValue(letter: Byte): Byte {
    if letter == 'b' as int then 0x08
    else if letter == 'f' as int then 0x0c
    else if letter == 'n' as int then 0x0a
    else if letter == 'r' as int then 0x0d
    else if letter == 't' as int then 0x09
    else letter
  }

  function UnitOf(e: Escaped): (u: nat)
    requires e.Unit? && EscapeOk(e)
    ensures u < 0x1_0000
  {
    ((Unhex(e.digits[0]) * 16 + Unhex(e.digits[1])) * 16 + Unhex(e.digits[2])) * 16 + Unhex(e.digits[3])
  }

  predicate High(e: Escaped) { e.Unit? && EscapeOk(e) && 0xD800 <= UnitOf(e) < 0xDC00 }

  predicate Low(e: Escaped) { e.Unit? && EscapeOk(e) && 0xDC00 <= UnitOf(e) < 0xE000 }

  /** An escape by itself; half of a surrogate pair is worth U+FFFD. */
  function Single(e: Escaped): Bytes
    requires EscapeOk(e)
  {
    match e
    case Short(letter) => [ShortValue(letter)]
    case Unit(_) => if High(e) || Low(e) then Utf8Of(0xFFFD) else Utf8Of(UnitOf(e))
  }

  /** A surrogate pair is one code point (section 7 of RFC 8259). */
  function Pair(hi: Escaped, lo: Escaped): Bytes
    requires High(hi) && Low(lo)
  {
    Utf8Of(0x1_0000 + (UnitOf(hi) - 0xD800) * 0x400 + (UnitOf(lo) - 0xDC00))
  }

  predicate BeginsPair(chunks: seq<Chunk>) {
    |chunks| >= 2 && High(chunks[0].escape) && chunks[0].raw == [] && Low(chunks[1].escape)
  }

  function ChunksValue(chunks: seq<Chunk>): Bytes
    requires ChunksOk(chunks)
  {
    if chunks == [] then []
    else if BeginsPair(chunks) then
      Pair(chunks[0].escape, chunks[1].escape) + Scrub(chunks[1].raw) + ChunksValue(chunks[2..])
    else Single(chunks[0].escape) + Scrub(chunks[0].raw) + ChunksValue(chunks[1..])
  }

  function LiteralValue(l: Literal): Bytes
    requires LiteralOk(l)
  {
    Scrub(l.raw) + ChunksValue(l.chunks)
  }

  /** A rune that follows changes nothing of the first piece. */
  lemma PieceStays(a: Bytes, more: Bytes)
    requires a != [] && RuneLen(more) > 0
    ensures PieceLen(a + more) == PieceLen(a) && PieceValue(a + more) == PieceValue(a)
  {
    hide RuneLen;
    if RuneLen(a) > 0 {
      RuneLenAppend(a, more);
      assert (a + more)[..RuneLen(a)] == a[..RuneLen(a)];
    } else {
      Trimming.StaysBad(a, more);
    }
  }

  lemma ScrubCons(a: Bytes, more: Bytes)
    requires a != [] && RuneLen(more) > 0
    ensures Scrub(a + more) == PieceValue(a) + Scrub(a[PieceLen(a)..] + more)
    ensures Scrub(a) == PieceValue(a) + Scrub(a[PieceLen(a)..])
  {
    hide RuneLen, PieceValue;
    PieceStays(a, more);
    assert (a + more)[PieceLen(a)..] == a[PieceLen(a)..] + more;
  }

  lemma Regrouped(a: Bytes, b: Bytes, c: Bytes)
    ensures a + (b + c) == a + b + c
  {
  }

  /** A rune among raw bytes stands for itself wherever it is. */
  lemma {:induction false} ScrubAroundRune(a: Bytes, rune: Bytes, b: Bytes)
    requires rune != [] && RuneLen(rune) == |rune|
    ensures Scrub(a + (rune + b)) == Scrub(a) + (rune + Scrub(b))
    decreases |a|
  {
    hide RuneLen, PieceValue, Scrub;
    var more := rune + b;
    WholeRune(rune, b);
    if a == [] {
      assert a + more == more;
      assert Scrub(a) == [] by { NothingScrubbed(); }
      assert [] + Scrub(more) == Scrub(more);
    } else {
      ScrubCons(a, more);
      ScrubAroundRune(a[PieceLen(a)..], rune, b);
      Regrouped(PieceValue(a), Scrub(a[PieceLen(a)..]), rune + Scrub(b));
    }
  }

  lemma NothingScrubbed()
    ensures Scrub([]) == []
  {
  }

  lemma WholeRune(rune: Bytes, b: Bytes)
    requires rune != [] && RuneLen(rune) == |rune|
    ensures RuneLen(rune + b) > 0 && PieceLen(rune + b) == |rune|
    ensures Scrub(rune + b) == rune + Scrub(b)
  {
    hide RuneLen;
    RuneLenAppend(rune, b);
    assert (rune + b)[|rune|..] == b && (rune + b)[..|rune|] == rune;
  }

  /** Of bytes in which no rune begins, each stands for U+FFFD. */
  lemma {:induction false} ScrubOfRun(s: Bytes)
    requires s != [] && forall i :: 0 <= i < |s| ==> RuneLen(s[i..]) == 0
    ensures Scrub(s) == Utf8Of(0xFFFD) + Scrub(s[1..])
    ensures forall i :: 0 <= i < |s[1..]| ==> RuneLen(s[1..][i..]) == 0
  {
    hide RuneLen;
    ReplacementIs();
    assert s[0..] == s;
    assert forall i :: 0 <= i < |s| - 1 ==> s[1..][i..] == s[i + 1..];
  }

  // ---- reading what is written ----

  lemma PrependTwice(a: Bytes, b: Bytes, r: Option<(Bytes, Bytes)>)
    ensures Prepend(a, Prepend(b, r)) == Prepend(a + b, r)
    ensures Prepend([], r) == r
  {
    if r.Some? {
      assert a + (b + r.value.0) == a + b + r.value.0 && [] + r.value.0 == r.value.0;
    }
  }

  predicate Closes(tail: Bytes) { tail != [] && (tail[0] == QUOTE || tail[0] == BACKSLASH) }

  /** Raw bytes up to a quote or an escape, bad ones one by one. */
  lemma {:induction false} RawReads(raw: Bytes, tail: Bytes)
    requires PlainRaw(raw) && Closes(tail)
    ensures ReadString(raw + tail) == Prepend(Scrub(raw), ReadString(tail))
    decreases |raw|
  {
    hide ReadEscape, Prepend, RuneLen;
    if raw == [] {
      assert raw + tail == tail;
      PrependTwice([], [], ReadString(tail));
    } else {
      var d := raw + tail;
      var n := PieceLen(raw);
      if RuneLen(raw) > 0 {
        RuneLenAppend(raw, tail);
      } else {
        AsciiRune(tail);
        Trimming.StaysBad(raw, tail);
      }
      assert d[n..] == raw[n..] + tail && d[..n] == raw[..n];
      RawReads(raw[n..], tail);
      PrependTwice(PieceValue(raw), Scrub(raw[n..]), ReadString(tail));
    }
  }

  lemma AsciiRune(s: Bytes)
    requires s != [] && s[0] < 0x80
    ensures RuneLen(s) == 1
  {
  }

  lemma UnitReads(e: Escaped, tail: Bytes)
    requires e.Unit? && EscapeOk(e)
    ensures CodeUnit(EscapeText(e) + tail) == Some(UnitOf(e))
    ensures (EscapeText(e) + tail)[6..] == tail
  {
    var d := EscapeText(e) + tail;
    assert d[2] == e.digits[0] && d[3] == e.digits[1] && d[4] == e.digits[2] && d[5] == e.digits[3];
  }

  lemma ShortReads(e: Escaped, tail: Bytes)
    requires e.Short? && EscapeOk(e)
    ensures ReadString(EscapeText(e) + tail) == Prepend(Single(e), ReadString(tail))
    ensures CodeUnit(EscapeText(e) + tail).None?
  {
    hide ReadString, Prepend;
    Letters(e.letter);
    var d := EscapeText(e) + tail;
    assert d == [BACKSLASH, e.letter] + tail && d[1] == e.letter;
    ShortEscapeReads(e.letter, ShortValue(e.letter), tail);
  }

  lemma Letters(letter: Byte)
    ensures letter in Ascii("\"\\/bfnrt") <==>
              letter in {QUOTE, BACKSLASH, SLASH, 'b' as int, 'f' as int, 'n' as int, 'r' as int, 't' as int}
  {
    var s := Ascii("\"\\/bfnrt");
    assert s == [s[0], s[1], s[2], s[3], s[4], s[5], s[6], s[7]];
  }

  /** No low surrogate comes next. */
  predicate NoLow(tail: Bytes) {
    CodeUnit(tail).None? || !(0xDC00 <= CodeUnit(tail).value < 0xE000)
  }

  lemma SingleReads(e: Escaped, tail: Bytes)
    requires EscapeOk(e) && (High(e) ==> NoLow(tail))
    ensures ReadString(EscapeText(e) + tail) == Prepend(Single(e), ReadString(tail))
  {
    hide Prepend, CodeUnit, Utf8Of;
    if e.Short? {
      ShortReads(e, tail);
    } else {
      UnitReads(e, tail);
      ReplacementIs();
      assert (EscapeText(e) + tail)[1] == 'u' as int;
    }
  }

  lemma PairReads(hi: Escaped, lo: Escaped, tail: Bytes)
    requires High(hi) && Low(lo)
    ensures ReadString(EscapeText(hi) + (EscapeText(lo) + tail)) == Prepend(Pair(hi, lo), ReadString(tail))
  {
    hide Prepend, CodeUnit, Utf8Of;
    var rest := EscapeText(lo) + tail;
    var d := EscapeText(hi) + rest;
    UnitReads(hi, rest);
    UnitReads(lo, tail);
    assert d[1] == 'u' as int;
    assert d[12..] == d[6..][6..] == tail;
  }

  lemma TailCloses(chunks: seq<Chunk>, rest: Bytes)
    ensures Closes(ChunksText(chunks) + [QUOTE] + rest)
  {
    if chunks != [] {
      assert ChunksText(chunks)[0] == BACKSLASH;
    }
  }

  lemma NotLow(e: Escaped, behind: Bytes)
    requires EscapeOk(e) && !Low(e)
    ensures NoLow(EscapeText(e) + behind)
  {
    hide EscapeText, EscapeOk, ReadString, CodeUnit, Single;
    if e.Short? {
      ShortReads(e, behind);
    } else {
      UnitReads(e, behind);
    }
  }

  lemma NotEscaped(tail: Bytes)
    requires tail != [] && tail[0] != BACKSLASH
    ensures NoLow(tail)
  {
  }

  /** Behind a high surrogate that begins no pair there is no low one. */
  lemma NoPair(chunks: seq<Chunk>, rest: Bytes)
    requires chunks != [] && ChunksOk(chunks) && High(chunks[0].escape) && !BeginsPair(chunks)
    ensures NoLow(chunks[0].raw + (ChunksText(chunks[1..]) + [QUOTE] + rest))
  {
    hide EscapeText, EscapeOk, NoLow, High, Low;
    var raw, more := chunks[0].raw, chunks[1..];
    var tail := ChunksText(more) + [QUOTE] + rest;
    assert ChunkOk(chunks[0]);
    if raw != [] {
      assert (raw + tail)[0] == raw[0] != BACKSLASH;
      NotEscaped(raw + tail);
    } else if more == [] {
      assert (raw + tail)[0] == QUOTE;
      NotEscaped(raw + tail);
    } else {
      assert ChunkOk(chunks[1]) && more[0] == chunks[1];
      var behind := more[0].raw + ChunksText(more[1..]) + [QUOTE] + rest;
      NotLow(more[0].escape, behind);
      assert raw + tail == EscapeText(more[0].escape) + behind;
    }
  }

  lemma OneChunkReads(c: Chunk, tail: Bytes)
    requires ChunkOk(c) && Closes(tail) && (High(c.escape) ==> NoLow(c.raw + tail))
    ensures ReadString(EscapeText(c.escape) + c.raw + tail) ==
            Prepend(Single(c.escape) + Scrub(c.raw), ReadString(tail))
  {
    hide ReadString, EscapeText, Single, Prepend, High;
    assert EscapeText(c.escape) + c.raw + tail == EscapeText(c.escape) + (c.raw + tail);
    SingleReads(c.escape, c.raw + tail);
    RawReads(c.raw, tail);
    PrependTwice(Single(c.escape), Scrub(c.raw), ReadString(tail));
  }

  lemma TwoChunksRead(c: Chunk, d: Chunk, tail: Bytes)
    requires ChunkOk(c) && ChunkOk(d) && Closes(tail) && High(c.escape) && c.raw == [] && Low(d.escape)
    ensures ReadString(EscapeText(c.escape) + c.raw + (EscapeText(d.escape) + d.raw + tail)) ==
            Prepend(Pair(c.escape, d.escape) + Scrub(d.raw), ReadString(tail))
  {
    hide ReadString, EscapeText, Pair, Prepend, High, Low;
    assert EscapeText(d.escape) + d.raw + tail == EscapeText(d.escape) + (d.raw + tail);
    assert EscapeText(c.escape) + c.raw == EscapeText(c.escape);
    PairReads(c.escape, d.escape, d.raw + tail);
    RawReads(d.raw, tail);
    PrependTwice(Pair(c.escape, d.escape), Scrub(d.raw), ReadString(tail));
  }

  lemma {:induction false} ChunksRead(chunks: seq<Chunk>, rest: Bytes)
    requires ChunksOk(chunks)
    ensures ReadString(ChunksText(chunks) + [QUOTE] + rest) == Some((ChunksValue(chunks), rest))
  {
    hide ReadString, EscapeText, Single, Pair, High, Low, Scrub, EscapeOk, PlainRaw, NoLow;
    if chunks == [] {
      Ends(rest);
      assert ChunksText(chunks) + [QUOTE] + rest == [QUOTE] + rest;
    } else {
      assert ChunkOk(chunks[0]);
      if BeginsPair(chunks) {
        var c, d, more := chunks[0], chunks[1], chunks[2..];
        var tail := ChunksText(more) + [QUOTE] + rest;
        assert ChunkOk(d) && chunks[1..][0] == d && chunks[1..][1..] == more;
        TailCloses(more, rest);
        ChunksRead(more, rest);
        TwoChunksRead(c, d, tail);
        assert ChunksText(chunks) + [QUOTE] + rest ==
               EscapeText(c.escape) + c.raw + (EscapeText(d.escape) + d.raw + tail);
      } else {
        var c, more := chunks[0], chunks[1..];
        var tail := ChunksText(more) + [QUOTE] + rest;
        TailCloses(more, rest);
        ChunksRead(more, rest);
        if High(c.escape) {
          NoPair(chunks, rest);
        }
        OneChunkReads(c, tail);
        assert ChunksText(chunks) + [QUOTE] + rest == EscapeText(c.escape) + c.raw + tail;
      }
    }
  }

  lemma Ends(rest: Bytes)
    ensures ReadString([QUOTE] + rest) == Some(([], rest))
  {
    assert ([QUOTE] + rest)[1..] == rest;
  }

  /** A literal is read as what it stands for, and no further. */
  lemma LiteralReads(l: Literal, rest: Bytes)
    requires LiteralOk(l)
    ensures ReadString(Inner(l) + rest) == Some((LiteralValue(l), rest))
  {
    hide ReadString, PlainRaw, ChunksOk, ChunksText, Scrub, Closes;
    var tail := ChunksText(l.chunks) + [QUOTE] + rest;
    TailCloses(l.chunks, rest);
    ChunksRead(l.chunks, rest);
    RawReads(l.raw, tail);
    assert Inner(l) + rest == l.raw + tail;
  }

  // ---- nothing else is read ----

  lemma {:induction false} ReadIsLiteral(d: Bytes) returns (l: Literal)
    requires ReadString(d).Some?
    ensures LiteralOk(l) && d == Inner(l) + ReadString(d).value.1
    decreases |d|
  {
    hide RuneLen, ReadEscape, PieceLen, LiteralOk, Inner;
    if d[0] == QUOTE {
      l := EmptyLiteral(d);
    } else if d[0] == BACKSLASH {
      var n := ReadEscape(d).value.1;
      var rest := ReadIsLiteral(d[n..]);
      l := EscapeIsChunk(d, rest, ReadString(d).value.1);
    } else {
      PieceRead(d);
      var n := PieceLen(d);
      var rest := ReadIsLiteral(d[n..]);
      l := RawIsLiteral(d, n, rest, ReadString(d).value.1);
    }
  }

  lemma EmptyLiteral(d: Bytes) returns (l: Literal)
    requires d != [] && d[0] == QUOTE
    ensures LiteralOk(l) && d == Inner(l) + d[1..]
  {
    l := Literal([], []);
  }

  lemma PieceRead(d: Bytes)
    requires ReadString(d).Some? && d[0] != QUOTE && d[0] != BACKSLASH
    ensures d[0] >= 0x20
    ensures ReadString(d[PieceLen(d)..]).Some?
    ensures ReadString(d).value.1 == ReadString(d[PieceLen(d)..]).value.1
  {
    hide RuneLen;
  }

  lemma RawIsLiteral(d: Bytes, n: nat, rest: Literal, behind: Bytes) returns (l: Literal)
    requires d != [] && n == PieceLen(d) && d[0] >= 0x20 && d[0] != QUOTE && d[0] != BACKSLASH
    requires LiteralOk(rest) && d[n..] == Inner(rest) + behind
    ensures LiteralOk(l) && d == Inner(l) + behind
  {
    hide PieceLen, ChunkOk, PlainRaw, ChunksText;
    RawBytes(d, n);
    PlainJoined(d[..n], rest.raw);
    l := Literal(d[..n] + rest.raw, rest.chunks);
    Joined(d, n, rest.raw, ChunksText(rest.chunks), [QUOTE], behind);
  }

  lemma PlainJoined(a: Bytes, b: Bytes)
    requires PlainRaw(a) && PlainRaw(b)
    ensures PlainRaw(a + b)
  {
  }

  lemma Joined(d: Bytes, n: nat, a: Bytes, b: Bytes, c: Bytes, e: Bytes)
    requires n <= |d| && d[n..] == a + b + c + e
    ensures d == d[..n] + a + b + c + e
  {
    assert d == d[..n] + d[n..];
    Regrouped(d[..n], a + b + c, e);
    Regrouped(d[..n], a + b, c);
    Regrouped(d[..n], a, b);
  }

  /** No byte of a rune is special but a first one. */
  lemma RawBytes(d: Bytes, n: nat)
    requires d != [] && n == PieceLen(d) && d[0] >= 0x20 && d[0] != QUOTE && d[0] != BACKSLASH
    ensures PlainRaw(d[..n])
  {
  }

  /** An escape in front of a literal. */
  function Prefixed(e: Escaped, l: Literal): Literal { Literal([], [Chunk(e, l.raw)] + l.chunks) }

  lemma PrefixedText(e: Escaped, l: Literal, behind: Bytes)
    requires EscapeOk(e) && LiteralOk(l)
    ensures LiteralOk(Prefixed(e, l))
    ensures EscapeText(e) + (Inner(l) + behind) == Inner(Prefixed(e, l)) + behind
  {
    hide EscapeOk, PlainRaw, EscapeText;
    var chunks := Prefixed(e, l).chunks;
    assert chunks[1..] == l.chunks;
    assert ChunksText(chunks) == EscapeText(e) + l.raw + ChunksText(l.chunks);
    assert PlainRaw([]) by { NothingSpecial(); }
  }

  lemma NothingSpecial()
    ensures PlainRaw([])
  {
  }

  /** The shape of what `ReadEscape` takes. */
  lemma EscapeShape(d: Bytes)
    requires d != [] && d[0] == BACKSLASH && ReadEscape(d).Some?
    ensures var n := ReadEscape(d).value.1;
            if n == 2 then EscapeOk(Short(d[1])) && d == EscapeText(Short(d[1])) + d[2..]
            else (n == 6 || n == 12) && UnitShape(d) && (n == 12 ==> UnitShape(d[6..]))
  {
    hide Unhex, Utf8Of;
    Letters(d[1]);
    if ReadEscape(d).value.1 == 2 {
      assert d == [BACKSLASH, d[1]] + d[2..];
    }
  }

  predicate UnitShape(d: Bytes) {
    |d| >= 6 && d[0] == BACKSLASH && d[1] == 'u' as int && forall i :: 2 <= i < 6 ==> IsHex(d[i])
  }

  lemma UnitText(d: Bytes)
    requires UnitShape(d)
    ensures EscapeOk(Unit(d[2..6])) && d == EscapeText(Unit(d[2..6])) + d[6..]
  {
  }

  lemma EscapeIsChunk(d: Bytes, rest: Literal, behind: Bytes) returns (l: Literal)
    requires d != [] && d[0] == BACKSLASH && ReadEscape(d).Some?
    requires LiteralOk(rest) && d[ReadEscape(d).value.1..] == Inner(rest) + behind
    ensures LiteralOk(l) && d == Inner(l) + behind
  {
    hide ReadEscape, EscapeOk, EscapeText, LiteralOk, Prefixed, Inner, UnitShape;
    EscapeShape(d);
    var n := ReadEscape(d).value.1;
    if n == 2 {
      PrefixedText(Short(d[1]), rest, behind);
      l := Prefixed(Short(d[1]), rest);
    } else {
      UnitText(d);
      l := rest;
      if n == 12 {
        UnitText(d[6..]);
        assert d[6..][6..] == d[12..];
        PrefixedText(Unit(d[6..][2..6]), l, behind);
        l := Prefixed(Unit(d[6..][2..6]), l);
      }
      PrefixedText(Unit(d[2..6]), l, behind);
      l := Prefixed(Unit(d[2..6]), l);
    }
  }
}
