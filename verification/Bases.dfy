/** The base path as it is configured against what resolution makes of it: when it is kept
    as written, and when every endpoint stays below it. */
module Bases {
  import opened Text
  import opened CoreClient
  import opened Endpoints

  /** A configured base path: that of an absolute URL, which is empty or begins with a slash. */
  predicate Configured(p: Bytes) {
    SetPath(p).Some? && (p == [] || p[0] == SLASH)
  }

  /** The base path as written, with the slash that is to end it. */
  function Written(p: Bytes): Bytes {
    if EndsInSlash(p) then p else p + [SLASH]
  }

  // ---- decoding piece by piece ----

  /** One step of decoding leaves the rest to be decoded. */
  lemma UnescapeStep(a: Bytes, b: Bytes)
    requires a != [] && Unescape(a).Some?
    ensures var k := if a[0] == PERCENT then 3 else 1;
            && k <= |a| && Unescape(a[k..]).Some? && Unescape(a).value != []
            && Unescape(a).value == [Unescape(a).value[0]] + Unescape(a[k..]).value
            && Unescape(a + b) == Cons(Unescape(a).value[0], Unescape(a[k..] + b))
  {
    var k := if a[0] == PERCENT then 3 else 1;
    assert (a + b)[k..] == a[k..] + b;
  }

  lemma {:induction false} UnescapeAppend(a: Bytes, b: Bytes)
    requires Unescape(a).Some?
    ensures Unescape(a + b) ==
            match Unescape(b) case None => None case Some(rest) => Some(Unescape(a).value + rest)
    decreases |a|
  {
    hide Unescape;
    if a == [] {
      UnescapeNothing();
      assert a + b == b;
      assert Unescape(b).Some? ==> [] + Unescape(b).value == Unescape(b).value;
    } else {
      UnescapeStep(a, b);
      var k := if a[0] == PERCENT then 3 else 1;
      UnescapeAppend(a[k..], b);
      if Unescape(b).Some? {
        var byte, rest := Unescape(a).value[0], Unescape(a[k..]).value;
        assert [byte] + (rest + Unescape(b).value) == [byte] + rest + Unescape(b).value;
      }
    }
  }

  /** No escape reaches over a slash. */
  lemma {:induction false} UnescapeAround(a: Bytes, b: Bytes)
    requires Unescape(a + [SLASH] + b).Some?
    ensures Unescape(a).Some? && Unescape(b).Some?
    ensures Unescape(a + [SLASH] + b).value == Unescape(a).value + [SLASH] + Unescape(b).value
    decreases |a|
  {
    var all := a + [SLASH] + b;
    if a == [] {
      assert all == [SLASH] + b && all[1..] == b;
    } else {
      var k := if a[0] == PERCENT then 3 else 1;
      assert all[0] == a[0];
      if k == 3 {
        assert IsHex(all[1]) && IsHex(all[2]);
        assert all[|a|] == SLASH && |a| != 1 && |a| != 2;
        assert all[1] == a[1] && all[2] == a[2];
      }
      assert all[k..] == a[k..] + [SLASH] + b;
      UnescapeAround(a[k..], b);
      var byte := Unescape(all).value[0];
      assert [byte] + (Unescape(a[k..]).value + [SLASH] + Unescape(b).value)
          == [byte] + Unescape(a[k..]).value + [SLASH] + Unescape(b).value;
    }
  }

  // ---- what is in a path besides slashes ----

  function NonSlashes(s: Bytes): nat {
    if s == [] then 0 else (if s[0] == SLASH then 0 else 1) + NonSlashes(s[1..])
  }

  lemma {:induction false} NonSlashesAppend(a: Bytes, b: Bytes)
    ensures NonSlashes(a + b) == NonSlashes(a) + NonSlashes(b)
  {
    if a == [] {
      assert a + b == b;
    } else {
      assert (a + b)[1..] == a[1..] + b;
      NonSlashesAppend(a[1..], b);
    }
  }

  predicate Decodes(s: Bytes) { Unescape(s).Some? }

  /** How many bytes other than slashes an encoded path stands for. */
  function Content(s: Bytes): nat
    requires Decodes(s)
  {
    NonSlashes(Unescape(s).value)
  }

  lemma ContentAppend(a: Bytes, b: Bytes)
    requires Decodes(a) && Decodes(b)
    ensures Decodes(a + b) && Content(a + b) == Content(a) + Content(b)
  {
    UnescapeAppend(a, b);
    NonSlashesAppend(Unescape(a).value, Unescape(b).value);
  }

  lemma OneSlash()
    ensures NonSlashes([SLASH]) == 0
  {
    assert [SLASH][1..] == [];
  }

  lemma SlashDecodes()
    ensures Unescape([SLASH]) == Some([SLASH])
  {
    UnescapeNothing();
    UnescapeSteps(SLASH, 0x32, 0x46, []);
    assert [SLASH] + [] == [SLASH];
  }

  lemma ContentSlash()
    ensures Decodes([SLASH]) && Content([SLASH]) == 0
  {
    hide Unescape;
    SlashDecodes();
    OneSlash();
  }

  lemma ContentAround(a: Bytes, b: Bytes)
    requires Decodes(a + [SLASH] + b)
    ensures Decodes(a) && Decodes(b) && Content(a + [SLASH] + b) == Content(a) + Content(b)
  {
    UnescapeAround(a, b);
    NonSlashesAppend(Unescape(a).value + [SLASH], Unescape(b).value);
    NonSlashesAppend(Unescape(a).value, [SLASH]);
  }

  lemma DotContent()
    ensures Decodes(HERE) && Content(HERE) > 0 && Decodes(UP) && Content(UP) > 0
  {
    assert UP[1..] == HERE && HERE[1..] == [];
    UnescapeNothing();
  }

  // ---- what dot removal does to it ----

  predicate AllDecode(segments: seq<Bytes>) {
    forall i :: 0 <= i < |segments| ==> Decodes(segments[i])
  }

  function Total(segments: seq<Bytes>): nat
    requires AllDecode(segments)
  {
    if segments == [] then 0 else Content(segments[0]) + Total(segments[1..])
  }

  lemma {:induction false} TotalAppend(a: seq<Bytes>, b: seq<Bytes>)
    requires AllDecode(a) && AllDecode(b)
    ensures AllDecode(a + b) && Total(a + b) == Total(a) + Total(b)
    decreases |a|
  {
    if a == [] {
      assert a + b == b;
    } else {
      assert (a + b)[1..] == a[1..] + b;
      TotalAppend(a[1..], b);
    }
  }

  /** The segments hold what the path holds. */
  lemma {:induction false} SplitContent(s: Bytes)
    requires Decodes(s)
    ensures AllDecode(Split(s, SLASH)) && Total(Split(s, SLASH)) == Content(s)
    decreases |s|
  {
    hide Unescape, Content, Split;
    if SLASH in s {
      LastSlashPrefix(s);
      var i := LastSlash(s);
      var front, last := s[..i], s[i + 1..];
      ContentAround(front, last);
      SplitContent(front);
      SplitAppend(front, SLASH, last);
      SplitPart(last, SLASH);
      TotalAppend(Split(front, SLASH), [last]);
      OneTotal(last);
    } else {
      SplitPart(s, SLASH);
      OneTotal(s);
    }
  }

  lemma OneTotal(s: Bytes)
    requires Decodes(s)
    ensures AllDecode([s]) && Total([s]) == Content(s)
  {
    assert [s][1..] == [];
  }

  predicate HasDot(segments: seq<Bytes>) { UP in segments || HERE in segments }

  /** A segment adds what it holds, unless it is a dot segment: that adds nothing. */
  lemma SegmentContent(b: Buffer, segment: Bytes)
    requires b.text != [] && b.text[0] == SLASH && Decodes(b.text) && Decodes(segment)
    ensures var next := PutSegment(b, segment).text;
            && Decodes(next) && Content(next) <= Content(b.text) + Content(segment)
            && (segment == UP || segment == HERE ==> Content(next) < Content(b.text) + Content(segment))
  {
    hide Unescape, Content, Decodes;
    DotContent();
    if segment == UP {
      UpContent(b);
    } else if segment != HERE {
      ContentSlash();
      ContentAppend(b.text, [SLASH]);
      ContentAppend(Opened(b), segment);
    }
  }

  lemma UpContent(b: Buffer)
    requires b.text != [] && b.text[0] == SLASH && Decodes(b.text)
    ensures var next := PutSegment(b, UP).text; Decodes(next) && Content(next) <= Content(b.text)
  {
    hide Unescape, Content, Decodes, LastSlash;
    ContentSlash();
    var kept := b.text[1..];
    var i := LastSlash(kept);
    if i >= 0 {
      var front := [SLASH] + kept[..i];
      assert b.text == front + [SLASH] + kept[i + 1..];
      ContentAround(front, kept[i + 1..]);
    }
  }

  lemma SegmentBegins(b: Buffer, segment: Bytes)
    requires b.text != [] && b.text[0] == SLASH
    ensures PutSegment(b, segment).text != [] && PutSegment(b, segment).text[0] == SLASH
  {
  }

  lemma {:induction false} SegmentsContent(b: Buffer, segments: seq<Bytes>)
    requires b.text != [] && b.text[0] == SLASH && Decodes(b.text) && AllDecode(segments)
    ensures var r := PutSegments(b, segments).text;
            && Decodes(r) && Content(r) <= Content(b.text) + Total(segments)
            && (HasDot(segments) ==> Content(r) < Content(b.text) + Total(segments))
    decreases |segments|
  {
    hide Decodes, Content, PutSegment;
    if segments != [] {
      SegmentContent(b, segments[0]);
      SegmentBegins(b, segments[0]);
      SegmentsContent(PutSegment(b, segments[0]), segments[1..]);
    }
  }

  /** Dot removal adds nothing but slashes, and loses something if there is a dot segment. */
  lemma DotsContent(s: Bytes)
    requires s != [] && Decodes(s)
    ensures Decodes(RemoveDots(s)) && Content(RemoveDots(s)) <= Content(s)
    ensures HasDot(Split(s, SLASH)) ==> Content(RemoveDots(s)) < Content(s)
  {
    hide Unescape, Content, Decodes, PutSegments, Split, HasDot;
    ContentSlash();
    SplitContent(s);
    SegmentsContent(EMPTY_BUFFER, Split(s, SLASH));
    var text := PutSegments(EMPTY_BUFFER, Split(s, SLASH)).text;
    ContentAppend(text, [SLASH]);
    assert text + [] == text;
    UndoubledContent(Finish(EMPTY_BUFFER, Split(s, SLASH)));
  }

  lemma UndoubledContent(s: Bytes)
    requires s != [] && s[0] == SLASH && Decodes(s)
    ensures Decodes(DropDouble(s)) && Content(DropDouble(s)) == Content(s)
  {
    hide Unescape, Content, Decodes;
    assert s == [] + [SLASH] + s[1..];
    ContentAround([], s[1..]);
    NothingContent();
  }

  lemma NothingContent()
    ensures Decodes([]) && Content([]) == 0
  {
  }

  /** A path without dot segments is left as it is. */
  lemma NoDotsKept(s: Bytes)
    requires s != [] && s[0] == SLASH && !HasDot(Split(s, SLASH))
    ensures RemoveDots(s) == s
  {
    hide Split, PutSegments;
    OrdinarySegments(EMPTY_BUFFER, Split(s, SLASH));
    JoinSplit(s, SLASH);
    assert ([SLASH] + s)[1..] == s;
  }

  // ---- when the base path is kept as written ----

  /** `parseBaseURL` keeps the spelling: of a path that ends in a slash if it may be sent as
      it is; of any other only if it is spelled just as `EscapedPath` would spell it. */
  predicate KeepsSpelling(p: Bytes)
    requires SetPath(p).Some?
  {
    if EndsInSlash(p) then ValidEncoded(p) else EscapePath(SetPath(p).value.path) == p
  }

  lemma KeptAsWrittenIff(p: Bytes)
    requires SetPath(p).Some?
    ensures BasePath(p) == Written(p) <==> KeepsSpelling(p)
  {
    hide EscapePath, Unescape, EscapedPath, ValidEncoded;
    var f := SetPath(p).value;
    if EndsInSlash(p) {
      FinalSlashDecodes(p);
      SlashedSpelling(p);
    } else if EndsInSlash(f.path) {
      UnslashedSpelling(p);
    } else {
      EscapedPathExtended(p, f);
      EscapeTail(f.path);
    }
  }

  lemma FinalSlashDecodes(p: Bytes)
    requires SetPath(p).Some? && EndsInSlash(p)
    ensures EndsInSlash(SetPath(p).value.path)
  {
    hide Unescape, EscapePath;
    assert p == p[..|p| - 1] + [SLASH] + [];
    UnescapeAround(p[..|p| - 1], []);
    UnescapeNothing();
  }

  lemma SlashedSpelling(p: Bytes)
    requires SetPath(p).Some? && EndsInSlash(p) && EndsInSlash(SetPath(p).value.path)
    ensures BasePath(p) == p <==> ValidEncoded(p)
  {
    hide EscapePath, Unescape, EscapedPath, ValidEncoded;
    var f := SetPath(p).value;
    EscapedPathOfParsed(p);
    EscapeValid(f.path);
  }

  lemma UnslashedSpelling(p: Bytes)
    requires SetPath(p).Some? && !EndsInSlash(p) && EndsInSlash(SetPath(p).value.path)
    ensures BasePath(p) != p + [SLASH] && EscapePath(SetPath(p).value.path) != p
  {
    hide EscapePath, Unescape, EscapedPath;
    var f := SetPath(p).value;
    EscapedPathOfParsed(p);
    EscapeValid(f.path);
    var front := f.path[..|f.path| - 1];
    assert f.path == front + [SLASH];
    EscapeTail(front);
    if !ValidEncoded(p) {
      InvalidExtended(p);
    }
  }

  lemma InvalidExtended(p: Bytes)
    requires !ValidEncoded(p)
    ensures !ValidEncoded(p + [SLASH])
  {
    var i :| 0 <= i < |p| && MustEscape(p[i]) && p[i] !in {PERCENT, 0x21, 0x27, 0x28, 0x29, 0x2a, 0x5b, 0x5d};
    assert (p + [SLASH])[i] == p[i];
  }

  // ---- containment below the path as written ----

  /** The endpoint that an accepted reference leads to lies below the configured path. */
  predicate StaysBelow(p: Bytes, raw: Bytes)
    requires SetPath(p).Some? && Accepted(raw)
  {
    RemoveDots(Written(p)) <= ResolvePath(BasePath(p), EscapedPath(ParseReference(raw).value.form))
  }

  /** All references that are not re-encoded to the root stay below the configured path. */
  ghost predicate Contains(p: Bytes)
    requires SetPath(p).Some?
  {
    forall raw :: Accepted(raw) && !ReencodedToRoot(raw) ==> StaysBelow(p, raw)
  }

  /** A reference that is only a query has an empty path. */
  lemma QueryReference()
    ensures var raw: Bytes := [QUESTION];
            Accepted(raw) && !ReencodedToRoot(raw) && EscapedPath(ParseReference(raw).value.form) == []
  {
    var raw: Bytes := [QUESTION];
    CutNowhere(raw, HASH);
    assert raw == [] + [QUESTION] + [];
    CutAt([], QUESTION, []);
    UnescapeNothing();
    assert Split([], SLASH) == [[]];
  }

  /** A path with an ordinary last segment, and the same path with a slash behind it. */
  lemma LastSegmentSlashed(stem: Bytes, last: Bytes)
    requires SLASH !in last && last != HERE && last != UP
    ensures RemoveDots(stem + [SLASH] + last + [SLASH]) ==
            DropDouble(Opened(PutSegments(EMPTY_BUFFER, Split(stem, SLASH))) + last + [SLASH])
  {
    hide RemoveDots, Split, PutSegments, DropDouble;
    var p := stem + [SLASH] + last;
    var b := PutSegments(EMPTY_BUFFER, Split(stem, SLASH));
    SplitAppend(stem, SLASH, last);
    SplitPart(last, SLASH);
    PutSegmentsAppend(EMPTY_BUFFER, Split(stem, SLASH), [last]);
    OneSegmentPut(b, last);
    RemoveDotsAfter(p, []);
    FinishEmpty(PutSegments(EMPTY_BUFFER, Split(p, SLASH)));
    assert p + [SLASH] + [] == p + [SLASH];
  }

  lemma OneSegmentPut(b: Buffer, segment: Bytes)
    requires b.text != [] && b.text[0] == SLASH && segment != HERE && segment != UP
    ensures PutSegments(b, [segment]) == Buffer(Opened(b) + segment, false)
  {
    assert PutSegments(b, [segment]) == PutSegment(b, segment);
  }

  lemma UndoubledLength(s: Bytes)
    requires |s| > 1
    ensures |DropDouble(s + [SLASH])| == |DropDouble(s)| + 1
  {
    assert (s + [SLASH])[1] == s[1];
  }

  lemma SlashLengthens(p: Bytes)
    requires |p| >= 3 && p[0] == SLASH && SLASH !in p[|p| - 3..]
    ensures |RemoveDots(p + [SLASH])| == |RemoveDots(p)| + 1
  {
    hide RemoveDots, Split, PutSegments, LastSlash, DropDouble;
    LastSlashPrefix(p);
    var i := LastSlash(p);
    var stem, last := p[..i], p[i + 1..];
    LongLastSegment(p, i);
    LastSegmentRemoveDots(stem, last);
    LastSegmentSlashed(stem, last);
    UndoubledLength(Opened(PutSegments(EMPTY_BUFFER, Split(stem, SLASH))) + last);
  }

  /** What an unslashed base is replaced by is shorter than the path as written. */
  lemma UnslashedShorter(p: Bytes)
    requires Configured(p) && !EndsInSlash(BasePath(p))
    ensures !(RemoveDots(Written(p)) <= RemoveDots(BasePath(p)))
  {
    hide RemoveDots, BasePath;
    UnslashedBase(p);
    SlashLengthens(p);
    LastByte(p);
  }

  lemma LastByte(p: Bytes)
    requires |p| >= 3 && SLASH !in p[|p| - 3..]
    ensures !EndsInSlash(p)
  {
    assert p[|p| - 3..][2] == p[|p| - 1];
  }

  /** An accepted reference that is not re-encoded to the root stays below whatever the
      empty reference stays below. */
  lemma EmptyReferenceDecides(p: Bytes, raw: Bytes)
    requires Configured(p) && Accepted(raw) && !ReencodedToRoot(raw)
    requires RemoveDots(Written(p)) <= RemoveDots(BasePath(p))
    ensures StaysBelow(p, raw)
  {
    hide RemoveDots, BasePath, ResolvePath, Accepted, ReencodedToRoot, Written, EscapedPath, ParseReference;
    if EndsInSlash(BasePath(p)) {
      SlashedBaseContains(BasePath(p));
      assert ContainedIn(BasePath(p), raw);
    } else {
      UnslashedShorter(p);
    }
  }

  /** Containment below a configured base path, for every one: all references that are not
      re-encoded to the root stay below it exactly when what resolution starts from does. */
  lemma ContainmentOfConfigured(p: Bytes)
    requires Configured(p)
    ensures Contains(p) <==> RemoveDots(Written(p)) <= RemoveDots(BasePath(p))
  {
    hide RemoveDots, BasePath, Accepted, ReencodedToRoot, Written, StaysBelow;
    if Contains(p) {
      QueryReference();
      EmptyReference(p);
    } else if RemoveDots(Written(p)) <= RemoveDots(BasePath(p)) {
      forall raw | Accepted(raw) && !ReencodedToRoot(raw) ensures StaysBelow(p, raw) {
        EmptyReferenceDecides(p, raw);
      }
    }
  }

  lemma EmptyReference(p: Bytes)
    requires Configured(p)
    ensures Accepted([QUESTION]) && (StaysBelow(p, [QUESTION]) <==> RemoveDots(Written(p)) <= RemoveDots(BasePath(p)))
  {
    hide RemoveDots, BasePath, Accepted, ReencodedToRoot, Written, EscapedPath, ParseReference;
    QueryReference();
  }

  /** What a base decodes to is what the path as written decodes to, but for the slash. */
  lemma BaseDecodes(p: Bytes)
    requires SetPath(p).Some?
    ensures Unescape(BasePath(p)) == Some(BaseForm(SetPath(p).value).path)
  {
    hide EscapePath, ValidEncoded;
    var f := BaseForm(SetPath(p).value);
    UnescapeEscape(f.path);
    assert f.path != [0x2a] by { assert f.path[|f.path| - 1] == SLASH; }
  }

  lemma WrittenDecodes(p: Bytes)
    requires SetPath(p).Some?
    ensures Decodes(Written(p)) && Decodes(BasePath(p)) && Content(Written(p)) == Content(BasePath(p))
    ensures |Unescape(Written(p)).value| >= |Unescape(BasePath(p)).value|
  {
    hide Unescape, BasePath, NonSlashes;
    var f := SetPath(p).value;
    BaseDecodes(p);
    UnescapeNothing();
    NonSlashesAppend(f.path, [SLASH]);
    OneSlash();
    if EndsInSlash(p) {
      FinalSlashDecodes(p);
    } else {
      SlashDecodes();
      UnescapeAppend(p, [SLASH]);
    }
  }

  /** No dot segment is written in the path. One may still appear when it is decoded. */
  predicate DotFree(p: Bytes) { !HasDot(Split(p, SLASH)) }

  lemma WrittenDotFree(p: Bytes)
    requires Configured(p) && DotFree(p)
    ensures RemoveDots(Written(p)) == Written(p)
  {
    hide Split, RemoveDots;
    if !EndsInSlash(p) {
      assert p + [SLASH] == p + [SLASH] + [];
      SplitAppend(p, SLASH, []);
      SplitPart([], SLASH);
      NoDotAppended(Split(p, SLASH));
    }
    NoDotsKept(Written(p));
  }

  lemma NoDotAppended(segments: seq<Bytes>)
    requires !HasDot(segments)
    ensures !HasDot(segments + [[]])
  {
  }

  /** A base that still lies below a path written without dot segments is that path. */
  lemma BelowIsSame(p: Bytes)
    requires Configured(p) && DotFree(p) && RemoveDots(Written(p)) <= RemoveDots(BasePath(p))
    ensures BasePath(p) == Written(p)
  {
    hide RemoveDots, Split, Unescape, Content, BasePath, Decodes, Written, HasDot;
    var w, b := Written(p), BasePath(p);
    WrittenDotFree(p);
    WrittenDecodes(p);
    BaseBegins(p);
    DotsContent(b);
    var r := RemoveDots(b);
    PrefixContent(w, r);
    NoDotsKept(b);
    PrefixSame(w, b);
  }

  lemma BaseBegins(p: Bytes)
    requires Configured(p)
    ensures BasePath(p) != [] && BasePath(p)[0] == SLASH
  {
    hide EscapePath, Unescape, ValidEncoded;
    var f := BaseForm(SetPath(p).value);
    if p == [] {
      UnescapeNothing();
    } else {
      UnescapeHead(p);
    }
    EscapeHead(f.path);
  }

  lemma UnescapeHead(p: Bytes)
    requires Unescape(p).Some? && p != [] && p[0] == SLASH
    ensures [SLASH] <= Unescape(p).value
  {
  }

  lemma PrefixContent(w: Bytes, r: Bytes)
    requires w <= r && Decodes(w) && Decodes(r)
    ensures Content(w) <= Content(r)
  {
    hide Unescape;
    assert r == w + r[|w|..];
    UnescapeAppend(w, r[|w|..]);
    NonSlashesAppend(Unescape(w).value, Unescape(r[|w|..]).value);
  }

  lemma PrefixSame(w: Bytes, b: Bytes)
    requires w <= b && Decodes(w) && Decodes(b) && |Unescape(w).value| >= |Unescape(b).value|
    ensures w == b
  {
    hide Unescape;
    var rest := b[|w|..];
    assert b == w + rest;
    UnescapeAppend(w, rest);
    if rest != [] {
      UnescapeNonempty(rest);
    }
  }

  /** For a path written without dot segments that comes to: `parseBaseURL` keeps it as it
      is written, which its spelling decides. */
  lemma ContainmentOfDotFree(p: Bytes)
    requires Configured(p) && DotFree(p)
    ensures Contains(p) <==> KeepsSpelling(p)
  {
    hide RemoveDots, BasePath, Written, KeepsSpelling, DotFree, Contains;
    ContainmentOfConfigured(p);
    KeptAsWrittenIff(p);
    if RemoveDots(Written(p)) <= RemoveDots(BasePath(p)) {
      BelowIsSame(p);
    }
  }

  /** A path that is kept as written contains its endpoints whatever its segments. */
  lemma KeptContains(p: Bytes)
    requires Configured(p) && KeepsSpelling(p)
    ensures Contains(p)
  {
    hide RemoveDots, BasePath, Written, KeepsSpelling, Contains;
    ContainmentOfConfigured(p);
    KeptAsWrittenIff(p);
  }

  // ---- instances ----

  /** An escaped slash inside the base path: `/a%2Fb` becomes `/a/b/`. */
  lemma EscapedSlashInside()
    ensures var p: Bytes := [SLASH, 0x61, PERCENT, 0x32, 0x46, 0x62];
            && Configured(p) && BasePath(p) == [SLASH, 0x61, SLASH, 0x62, SLASH]
            && Accepted([0x78]) && !StaysBelow(p, [0x78]) && !KeepsSpelling(p)
  {
    hide Unescape, EscapePath, ValidEncoded, RemoveDots, ResolvePath, Split, Folder, ParseReference, HasDot;
    var p: Bytes := [SLASH, 0x61, PERCENT, 0x32, 0x46, 0x62];
    var path: Bytes := [SLASH, 0x61, SLASH, 0x62];
    InsideDecodes();
    assert path + [SLASH] == [SLASH, 0x61, SLASH, 0x62, SLASH];
    PlainCoding(path);
    PlainCoding(path + [SLASH]);
    EscapedPathExtended(p, SetPath(p).value);
    InsideSegments();
    WrittenDotFree(p);
    NoDotsKept(path + [SLASH]);
    LetterReference();
    SplitPart([0x78], SLASH);
    PlainResolution(path + [SLASH], [0x78]);
    assert Written(p)[2] == PERCENT && (path + [SLASH] + [0x78])[2] == SLASH;
  }

  lemma InsideDecodes()
    ensures Unescape([SLASH, 0x61, PERCENT, 0x32, 0x46, 0x62]) == Some([SLASH, 0x61, SLASH, 0x62])
  {
    hide Unescape;
    UnescapeNothing();
    UnescapeSteps(0x62, 0x32, 0x46, []);
    UnescapeSteps(SLASH, 0x32, 0x46, [0x62]);
    UnescapeSteps(0x61, 0x32, 0x46, [PERCENT, 0x32, 0x46, 0x62]);
    UnescapeSteps(SLASH, 0x32, 0x46, [0x61, PERCENT, 0x32, 0x46, 0x62]);
    assert [0x62] + [] == [0x62] && [PERCENT, 0x32, 0x46] + [0x62] == [PERCENT, 0x32, 0x46, 0x62];
    assert [0x61] + [PERCENT, 0x32, 0x46, 0x62] == [0x61, PERCENT, 0x32, 0x46, 0x62];
    assert [SLASH] + [0x61, PERCENT, 0x32, 0x46, 0x62] == [SLASH, 0x61, PERCENT, 0x32, 0x46, 0x62];
    assert [SLASH] + ([0x61] + ([SLASH] + ([0x62] + []))) == [SLASH, 0x61, SLASH, 0x62];
  }

  lemma InsideSegments()
    ensures !HasDot(Split([SLASH, 0x61, PERCENT, 0x32, 0x46, 0x62], SLASH))
    ensures !HasDot(Split([SLASH, 0x61, SLASH, 0x62, SLASH], SLASH))
  {
    hide Split;
    var tail: Bytes := [0x61, PERCENT, 0x32, 0x46, 0x62];
    assert [SLASH, 0x61, PERCENT, 0x32, 0x46, 0x62] == [] + [SLASH] + tail;
    SplitAppend([], SLASH, tail);
    SplitPart([], SLASH);
    SplitPart(tail, SLASH);
    assert [SLASH, 0x61, SLASH, 0x62, SLASH] == [] + [SLASH] + [0x61, SLASH, 0x62, SLASH];
    assert [0x61, SLASH, 0x62, SLASH] == [0x61] + [SLASH] + [0x62, SLASH];
    assert [0x62, SLASH] == [0x62] + [SLASH] + [];
    SplitAppend([], SLASH, [0x61, SLASH, 0x62, SLASH]);
    SplitAppend([0x61], SLASH, [0x62, SLASH]);
    SplitAppend([0x62], SLASH, []);
    SplitPart([0x61], SLASH);
    SplitPart([0x62], SLASH);
  }

  /** An escaped dot segment: `/a/%2e%2e` becomes `/a/../`, and endpoints start at the root. */
  lemma EscapedDotsClimb()
    ensures var p: Bytes := [SLASH, 0x61, SLASH, PERCENT, 0x32, 0x65, PERCENT, 0x32, 0x65];
            && Configured(p) && BasePath(p) == [SLASH, 0x61, SLASH] + UP + [SLASH]
            && RemoveDots(BasePath(p)) == [SLASH] && !Contains(p)
  {
    hide Unescape, EscapePath, ValidEncoded, RemoveDots, ResolvePath, Split, HasDot, Contains;
    var p: Bytes := [SLASH, 0x61, SLASH, PERCENT, 0x32, 0x65, PERCENT, 0x32, 0x65];
    var path := [SLASH, 0x61, SLASH] + UP;
    DotsDecode();
    PlainCoding(path);
    PlainCoding(path + [SLASH]);
    EscapedPathExtended(p, SetPath(p).value);
    Climbs();
    ContainmentOfConfigured(p);
    DotsSegments();
    WrittenDotFree(p);
  }

  lemma DotsDecode()
    ensures Unescape([SLASH, 0x61, SLASH, PERCENT, 0x32, 0x65, PERCENT, 0x32, 0x65]) == Some([SLASH, 0x61, SLASH] + UP)
  {
    hide Unescape;
    var dots: Bytes := [PERCENT, 0x32, 0x65, PERCENT, 0x32, 0x65];
    UnescapeNothing();
    UnescapeSteps(SLASH, 0x32, 0x65, []);
    UnescapeSteps(SLASH, 0x32, 0x65, [PERCENT, 0x32, 0x65]);
    UnescapeSteps(SLASH, 0x32, 0x65, dots);
    UnescapeSteps(0x61, 0x32, 0x65, [SLASH] + dots);
    UnescapeSteps(SLASH, 0x32, 0x65, [0x61] + ([SLASH] + dots));
    assert [PERCENT, 0x32, 0x65] + [] == [PERCENT, 0x32, 0x65];
    assert [PERCENT, 0x32, 0x65] + [PERCENT, 0x32, 0x65] == dots;
    assert [SLASH] + ([0x61] + ([SLASH] + dots)) == [SLASH, 0x61, SLASH, PERCENT, 0x32, 0x65, PERCENT, 0x32, 0x65];
    assert [SLASH] + ([0x61] + ([SLASH] + ([DOT] + ([DOT] + [])))) == [SLASH, 0x61, SLASH] + UP;
  }

  lemma DotsSegments()
    ensures !HasDot(Split([SLASH, 0x61, SLASH, PERCENT, 0x32, 0x65, PERCENT, 0x32, 0x65], SLASH))
  {
    hide Split;
    var dots: Bytes := [PERCENT, 0x32, 0x65, PERCENT, 0x32, 0x65];
    assert [SLASH, 0x61, SLASH, PERCENT, 0x32, 0x65, PERCENT, 0x32, 0x65] == [] + [SLASH] + ([0x61] + [SLASH] + dots);
    SplitAppend([], SLASH, [0x61] + [SLASH] + dots);
    SplitAppend([0x61], SLASH, dots);
    SplitPart([], SLASH);
    SplitPart([0x61], SLASH);
    SplitPart(dots, SLASH);
  }

  /** `/a/../` comes to `/`. */
  lemma Climbs()
    ensures RemoveDots([SLASH, 0x61, SLASH] + UP + [SLASH]) == [SLASH]
  {
    hide RemoveDots, Split, PutSegment;
    var front := [SLASH, 0x61, SLASH] + UP;
    assert front == [] + [SLASH] + ([0x61] + [SLASH] + UP);
    SplitAppend([], SLASH, [0x61] + [SLASH] + UP);
    SplitAppend([0x61], SLASH, UP);
    SplitPart([], SLASH);
    SplitPart([0x61], SLASH);
    SplitPart(UP, SLASH);
    assert Split(front, SLASH) == [[], [0x61], UP];
    ClimbsBack();
    RemoveDotsAfter(front, []);
    assert front + [SLASH] + [] == front + [SLASH];
    FinishEmpty(Buffer([SLASH], false));
  }

  lemma ClimbsBack()
    ensures PutSegments(EMPTY_BUFFER, [[], [0x61], UP]) == Buffer([SLASH], false)
  {
    var b := Buffer([SLASH, SLASH, 0x61], false);
    assert PutSegment(EMPTY_BUFFER, []) == Buffer([SLASH], false);
    assert PutSegment(Buffer([SLASH], false), [0x61]) == b;
    assert b.text[1..] == [SLASH, 0x61] && LastSlash([SLASH, 0x61]) == 0;
    assert PutSegment(b, UP) == Buffer([SLASH], false);
    assert [[], [0x61], UP][1..] == [[0x61], UP] && [[0x61], UP][1..] == [UP] && [UP][1..] == [];
    assert PutSegments(Buffer([SLASH], false), []) == Buffer([SLASH], false);
    assert PutSegments(b, [UP]) == Buffer([SLASH], false);
    assert PutSegments(Buffer([SLASH], false), [[0x61], UP]) == PutSegments(b, [UP]);
  }
}
