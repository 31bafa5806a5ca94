/** Where an accepted endpoint can lead: containment below what resolution starts from,
    exactly when it holds, and the endpoints the agent builds for a node. */
module Endpoints {
  import opened Text
  import opened CoreClient

  // ---- dot segments ----

  lemma {:induction false} PutSegmentsAppend(b: Buffer, front: seq<Bytes>, back: seq<Bytes>)
    requires b.text != [] && b.text[0] == SLASH
    ensures PutSegments(b, front + back) == PutSegments(PutSegments(b, front), back)
    decreases |front|
  {
    if front == [] {
      assert [] + back == back;
    } else {
      assert (front + back)[1..] == front[1..] + back && (front + back)[0] == front[0];
      PutSegmentsAppend(PutSegment(b, front[0]), front[1..], back);
    }
  }

  /** Once `..` is excluded the buffer only grows. */
  lemma {:induction false} BufferGrows(b: Buffer, segments: seq<Bytes>)
    requires b.text != [] && b.text[0] == SLASH && UP !in segments
    ensures b.text <= PutSegments(b, segments).text
    decreases |segments|
  {
    if segments != [] {
      BufferGrows(PutSegment(b, segments[0]), segments[1..]);
    }
  }

  lemma {:induction false} FinishExtends(b: Buffer, segments: seq<Bytes>)
    requires b.text != [] && b.text[0] == SLASH && UP !in segments && segments != []
    ensures Opened(b) <= Finish(b, segments)
    decreases |segments|
  {
    var next := PutSegment(b, segments[0]);
    if segments[0] == HERE {
      if |segments| > 1 {
        FinishExtends(next, segments[1..]);
      }
    } else {
      BufferGrows(next, segments[1..]);
    }
  }

  /** The buffer just before the last segment of `base`, a path that ends in a slash. */
  function BaseBuffer(base: Bytes): (b: Buffer)
    requires EndsInSlash(base)
    ensures b.text != [] && b.text[0] == SLASH
  {
    PutSegments(EMPTY_BUFFER, Split(base[..|base| - 1], SLASH))
  }

  lemma LastSlashOf(base: Bytes)
    requires EndsInSlash(base)
    ensures base[..LastSlash(base) + 1] == base == base[..|base| - 1] + [SLASH]
  {
  }

  /** Dot removal after a slash goes on from the buffer that the part before it left. */
  lemma RemoveDotsAfter(stem: Bytes, tail: Bytes)
    ensures RemoveDots(stem + [SLASH] + tail) ==
            DropDouble(Finish(PutSegments(EMPTY_BUFFER, Split(stem, SLASH)), Split(tail, SLASH)))
  {
    hide DropDouble, Split, PutSegments, Finish;
    SplitAppend(stem, SLASH, tail);
    FinishAppend(EMPTY_BUFFER, Split(stem, SLASH), Split(tail, SLASH));
    assert stem + [SLASH] + tail != [];
  }

  lemma FinishAppend(b: Buffer, front: seq<Bytes>, back: seq<Bytes>)
    requires b.text != [] && b.text[0] == SLASH && back != []
    ensures Finish(b, front + back) == Finish(PutSegments(b, front), back)
  {
    hide PutSegments;
    PutSegmentsAppend(b, front, back);
    assert (front + back)[|front + back| - 1] == back[|back| - 1];
  }

  lemma FinishEmpty(b: Buffer)
    requires b.text != [] && b.text[0] == SLASH
    ensures Finish(b, Split([], SLASH)) == Opened(b)
  {
    assert Split([], SLASH) == [[]];
    assert PutSegments(b, [[]]) == PutSegment(b, []);
  }

  /** Resolution below a base that ends in a slash goes on where the base left off. */
  lemma RelativeResolution(base: Bytes, ref: Bytes)
    requires EndsInSlash(base) && ref != [] && ref[0] != SLASH
    ensures ResolvePath(base, ref) == DropDouble(Finish(BaseBuffer(base), Split(ref, SLASH)))
    ensures RemoveDots(base) == DropDouble(Opened(BaseBuffer(base)))
  {
    hide DropDouble, Split, PutSegments, Finish, RemoveDots, LastSlash, Opened;
    var stem := base[..|base| - 1];
    LastSlashOf(base);
    RemoveDotsAfter(stem, ref);
    RemoveDotsAfter(stem, []);
    FinishEmpty(BaseBuffer(base));
    assert stem + [SLASH] + [] == base;
  }

  lemma DropDoublePrefix(a: Bytes, b: Bytes)
    requires a != [] && a[0] == SLASH && a <= b
    ensures DropDouble(a) <= DropDouble(b)
  {
    assert forall i :: 0 <= i < |a| ==> b[i] == a[i];
  }

  /** Containment: a reference that neither starts at the root nor goes up stays below
      the dot-removed base, whatever the base and the reference contain. */
  lemma ResolvedBelowBase(base: Bytes, ref: Bytes)
    requires EndsInSlash(base)
    requires ref == [] || ref[0] != SLASH
    requires UP !in Split(ref, SLASH)
    ensures RemoveDots(base) <= ResolvePath(base, ref)
  {
    if ref != [] {
      RelativeResolution(base, ref);
      FinishExtends(BaseBuffer(base), Split(ref, SLASH));
      DropDoublePrefix(Opened(BaseBuffer(base)), Finish(BaseBuffer(base), Split(ref, SLASH)));
    }
  }

  // ---- `..` before and after decoding ----

  /** Whether some segment of `s` is `..`, when the segment under way has `dots` dots so
      far and nothing else (3: it can no longer become `..`). */
  predicate GoesUp(s: Bytes, dots: nat) {
    if s == [] then dots == 2
    else if s[0] == SLASH then dots == 2 || GoesUp(s[1..], 0)
    else GoesUp(s[1..], if s[0] == DOT && dots < 2 then dots + 1 else 3)
  }

  function Dots(n: nat): Bytes
    requires n <= 2
  {
    if n == 0 then [] else if n == 1 then [DOT] else [DOT, DOT]
  }

  lemma {:induction false} GoesUpSplit(s: Bytes, dots: nat)
    requires dots <= 3
    ensures GoesUp(s, dots) <==>
              || (dots <= 2 && Dots(dots) + Split(s, SLASH)[0] == UP)
              || UP in Split(s, SLASH)[1..]
  {
    var parts := Split(s, SLASH);
    if s == [] {
      assert parts[1..] == [] && (dots <= 2 ==> Dots(dots) + [] == Dots(dots));
    } else {
      var rest := Split(s[1..], SLASH);
      if s[0] == SLASH {
        GoesUpSplit(s[1..], 0);
        assert parts[1..] == rest && parts[0] == [];
        assert dots <= 2 ==> Dots(dots) + [] == Dots(dots);
        assert [] + rest[0] == rest[0];
        assert rest == [rest[0]] + rest[1..];
      } else {
        var dots' := if s[0] == DOT && dots < 2 then dots + 1 else 3;
        GoesUpSplit(s[1..], dots');
        assert parts[1..] == rest[1..] && parts[0] == [s[0]] + rest[0];
        if dots <= 2 {
          assert |Dots(dots) + parts[0]| == dots + 1 + |rest[0]|;
          assert (Dots(dots) + parts[0])[dots] == s[0];
          if dots' <= 2 {
            assert Dots(dots) + parts[0] == Dots(dots') + rest[0];
          }
        }
      }
    }
  }

  /** A segment that is spoilt sees fewest `..`. */
  lemma {:induction false} GoesUpWeaker(s: Bytes, dots: nat)
    requires GoesUp(s, 3)
    ensures GoesUp(s, dots)
  {
    if s != [] && s[0] != SLASH {
      GoesUpWeaker(s[1..], if s[0] == DOT && dots < 2 then dots + 1 else 3);
    }
  }

  /** Decoding hides no `..`: one that is there before it is there after it. */
  lemma {:induction false} GoesUpDecoded(p: Bytes, dots: nat)
    requires Unescape(p).Some? && GoesUp(p, dots)
    ensures GoesUp(Unescape(p).value, dots)
  {
    if p != [] {
      var d := Unescape(p).value;
      if p[0] == PERCENT {
        var u := Unescape(p[3..]).value;
        assert d == [Unhex(p[1]) * 16 + Unhex(p[2])] + u && d[1..] == u;
        assert p[1] != SLASH && p[2] != SLASH && p[1] != DOT && p[2] != DOT;
        assert GoesUp(p[1..], 3);
        assert p[1..][0] == p[1] && p[1..][1..] == p[2..] && GoesUp(p[2..], 3);
        assert p[2..][0] == p[2] && p[2..][1..] == p[3..] && GoesUp(p[3..], 3);
        GoesUpDecoded(p[3..], 3);
        GoesUpWeaker(u, 0);
        GoesUpWeaker(u, dots + 1);
      } else {
        var u := Unescape(p[1..]).value;
        assert d == [p[0]] + u && d[1..] == u;
        if p[0] == SLASH {
          if dots != 2 { GoesUpDecoded(p[1..], 0); }
        } else {
          GoesUpDecoded(p[1..], if p[0] == DOT && dots < 2 then dots + 1 else 3);
        }
      }
    }
  }

  lemma UpIffGoesUp(s: Bytes)
    ensures UP in Split(s, SLASH) <==> GoesUp(s, 0)
  {
    GoesUpSplit(s, 0);
    var parts := Split(s, SLASH);
    assert parts == [parts[0]] + parts[1..];
    assert Dots(0) + parts[0] == parts[0];
  }

  /** The check is made on the decoded path; it covers the path that is sent. */
  lemma NoUpInEscapedPath(p: Bytes)
    requires SetPath(p).Some? && UP !in Split(SetPath(p).value.path, SLASH)
    ensures UP !in Split(EscapedPath(SetPath(p).value), SLASH)
  {
    var f := SetPath(p).value;
    var e := EscapedPath(f);
    EscapedPathOfParsed(p);
    UnescapeEscape(f.path);
    UpIffGoesUp(e);
    UpIffGoesUp(f.path);
    if GoesUp(e, 0) && e != [0x2a] {
      GoesUpDecoded(e, 0);
    }
  }

  // ---- containment of references ----

  /** The path of an accepted reference as it was written. */
  function RawPath(raw: Bytes): Bytes { Before(Before(raw, HASH), QUESTION) }

  predicate Accepted(raw: Bytes) {
    && raw != [] && raw[0] != SLASH
    && ParseReference(raw).Some?
    && ParseReference(raw).value.fragment == []
    && UP !in Split(ParseReference(raw).value.form.path, SLASH)
  }

  /** A reference whose path decodes to one that begins with a slash and, having bytes
      that may not be sent as they are, is re-encoded: it begins with a slash then. */
  predicate ReencodedToRoot(raw: Bytes)
    requires Accepted(raw)
  {
    && !ValidEncoded(RawPath(raw))
    && [SLASH] <= ParseReference(raw).value.form.path
  }

  lemma AcceptedIff(base: Base, raw: Bytes)
    ensures Resolve(base, raw).Ok? <==> Accepted(raw)
    ensures Accepted(raw) ==>
              Resolve(base, raw).value.path ==
              ResolvePath(EscapedPath(base.form), EscapedPath(ParseReference(raw).value.form))
  {
  }

  lemma BeforeHead(s: Bytes, sep: Byte)
    requires Before(s, sep) != []
    ensures s != [] && Before(s, sep)[0] == s[0]
  {
  }

  lemma RootedIff(raw: Bytes)
    requires Accepted(raw)
    ensures var e := EscapedPath(ParseReference(raw).value.form);
            && ([SLASH] <= e <==> ReencodedToRoot(raw))
            && UP !in Split(e, SLASH)
  {
    var p := RawPath(raw);
    var f := ParseReference(raw).value.form;
    NoUpInEscapedPath(p);
    EscapedPathOfParsed(p);
    if p != [] {
      BeforeHead(Before(raw, HASH), QUESTION);
      BeforeHead(raw, HASH);
      assert p[0] != SLASH;
    }
    if EscapePath(f.path) == p {
      EscapeHead(f.path);
      EscapeValid(f.path);
    } else {
      EscapeHead(f.path);
    }
  }

  lemma EscapeHead(path: Bytes)
    ensures [SLASH] <= EscapePath(path) <==> [SLASH] <= path
  {
  }

  lemma {:induction false} EscapeValid(path: Bytes)
    ensures ValidEncoded(EscapePath(path))
  {
    if path != [] {
      EscapeValid(path[1..]);
      var head := if MustEscape(path[0]) then PercentEncode(path[0]) else [path[0]];
      assert EscapePath(path) == head + EscapePath(path[1..]);
      assert ValidEncoded(head);
    }
  }

  predicate ContainedIn(base: Bytes, raw: Bytes)
    requires Accepted(raw)
  {
    RemoveDots(base) <= ResolvePath(base, EscapedPath(ParseReference(raw).value.form))
  }

  /** A base path of one segment of `n` letters. */
  function LongBase(n: nat): (b: Bytes)
    ensures |b| == n + 2
  {
    [SLASH] + seq(n, i => 0x61) + [SLASH]
  }

  /** A path of one ordinary segment is left as it is, with or without a final slash. */
  lemma OneSegmentKept(word: Bytes)
    requires word != [] && SLASH !in word && word != UP && word != HERE
    ensures RemoveDots([SLASH] + word) == [SLASH] + word
    ensures RemoveDots([SLASH] + word + [SLASH]) == [SLASH] + word + [SLASH]
  {
    hide RemoveDots, DropDouble, PutSegments, Split;
    var stem := [SLASH] + word;
    OneSegment(word);
    assert [] + [SLASH] + word == stem && stem + [SLASH] + [] == stem + [SLASH];
    LastSegmentRemoveDots([], word);
    LastSegmentRemoveDots(stem, []);
    assert [SLASH] + [SLASH] + word == [SLASH] + stem;
    assert [SLASH] + stem + [SLASH] + [] == [SLASH] + (stem + [SLASH]);
    DropsDouble(stem);
    DropsDouble(stem + [SLASH]);
  }

  lemma DropsDouble(s: Bytes)
    requires s != [] && s[0] == SLASH
    ensures DropDouble([SLASH] + s) == s
  {
    assert ([SLASH] + s)[1..] == s;
  }

  lemma OneSegment(word: Bytes)
    requires word != [] && SLASH !in word && word != UP && word != HERE
    ensures PutSegments(EMPTY_BUFFER, Split([SLASH] + word, SLASH)) == Buffer([SLASH] + ([SLASH] + word), false)
    ensures PutSegments(EMPTY_BUFFER, Split([], SLASH)) == Buffer([SLASH], false)
  {
    var stem := [SLASH] + word;
    assert stem == [] + [SLASH] + word;
    SplitAppend([], SLASH, word);
    SplitPart(word, SLASH);
    assert Split(stem, SLASH) == [[], word];
    NoDotSegments([[], word]);
    OrdinarySegments(EMPTY_BUFFER, [[], word]);
    JoinSplit(stem, SLASH);
    assert PutSegments(EMPTY_BUFFER, [[]]) == PutSegment(EMPTY_BUFFER, []);
  }

  lemma LongBaseKept(n: nat)
    requires n > 0
    ensures EndsInSlash(LongBase(n)) && RemoveDots(LongBase(n)) == LongBase(n)
  {
    var word: Bytes := seq(n, i => 0x61);
    assert word[0] == 0x61;
    OneSegmentKept(word);
  }

  /** For an accepted reference: it stays below every base path that ends in a slash
      exactly when it is not re-encoded to begin at the root. */
  lemma ContainmentOfReference(raw: Bytes)
    requires Accepted(raw)
    ensures (forall base :: EndsInSlash(base) ==> ContainedIn(base, raw)) <==> !ReencodedToRoot(raw)
  {
    var e := EscapedPath(ParseReference(raw).value.form);
    RootedIff(raw);
    if !ReencodedToRoot(raw) {
      forall base | EndsInSlash(base) ensures ContainedIn(base, raw) {
        ResolvedBelowBase(base, e);
      }
    } else {
      var n := |RemoveDots(e)| + 1;
      LongBaseKept(n);
      assert ResolvePath(LongBase(n), e) == RemoveDots(e);
      assert !ContainedIn(LongBase(n), raw);
    }
  }

  /** For a base path as written in the configuration: what resolution starts from ends
      in a slash unless the path was accepted as written and its final slash is an
      escaped one. */
  lemma BaseEndsInSlashIff(p: Bytes)
    requires SetPath(p).Some?
    ensures EndsInSlash(EscapedPath(BaseForm(SetPath(p).value))) <==>
            !(ValidEncoded(p) && EndsInSlash(SetPath(p).value.path) && !EndsInSlash(p))
  {
    hide EscapePath, Unescape, EscapedPath, ValidEncoded;
    var f := SetPath(p).value;
    if EndsInSlash(f.path) {
      EscapedPathOfParsed(p);
      EscapeTail(f.path[..|f.path| - 1]);
      assert f.path == f.path[..|f.path| - 1] + [SLASH];
    } else {
      EscapedPathExtended(p, f);
      EscapeTail(f.path);
    }
  }

  /** Once a slash is added the raw form no longer decodes to the path. */
  lemma EscapedPathExtended(p: Bytes, f: PathForm)
    requires SetPath(p) == Some(f)
    ensures EscapedPath(f.(path := f.path + [SLASH])) == EscapePath(f.path + [SLASH])
  {
    hide EscapePath, Unescape, ValidEncoded;
    assert |f.path + [SLASH]| == |f.path| + 1;
    assert (f.path + [SLASH])[|f.path|] == SLASH;
  }

  lemma {:induction false} EscapeTail(front: Bytes)
    ensures EscapePath(front + [SLASH]) == EscapePath(front) + [SLASH]
  {
    if front == [] {
      assert ([] + [SLASH])[1..] == [];
    } else {
      assert (front + [SLASH])[1..] == front[1..] + [SLASH];
      EscapeTail(front[1..]);
    }
  }

  lemma {:induction false} LastSlashPrefix(s: Bytes)
    requires SLASH in s
    ensures var i := LastSlash(s);
            i >= 0 && SLASH !in s[i + 1..] && s == s[..i] + [SLASH] + s[i + 1..]
  {
    if s[|s| - 1] != SLASH {
      var t := s[..|s| - 1];
      assert s == t + [s[|s| - 1]];
      LastSlashPrefix(t);
    }
  }

  /** A path and the same path with another last segment. */
  lemma LastSegmentRemoveDots(stem: Bytes, last: Bytes)
    requires SLASH !in last && last != HERE && last != UP
    ensures RemoveDots(stem + [SLASH] + last) ==
            DropDouble(Opened(PutSegments(EMPTY_BUFFER, Split(stem, SLASH))) + last)
  {
    hide RemoveDots, Split, PutSegments, DropDouble;
    RemoveDotsAfter(stem, last);
    SplitPart(last, SLASH);
    FinishSegment(PutSegments(EMPTY_BUFFER, Split(stem, SLASH)), last);
  }

  lemma FinishSegment(b: Buffer, last: Bytes)
    requires b.text != [] && b.text[0] == SLASH && last != HERE && last != UP
    ensures Finish(b, [last]) == Opened(b) + last
  {
    assert PutSegments(b, [last]) == PutSegment(b, last);
    assert Opened(b) + last + [] == Opened(b) + last;
  }

  lemma LastSegmentReplaced(base: Bytes)
    requires base != [] && base[0] == SLASH
    requires |base| >= 3 && SLASH !in base[|base| - 3..]
    ensures |ResolvePath(base, [0x78])| < |RemoveDots(base)|
  {
    hide RemoveDots, LastSlash, Split, PutSegments;
    LastSlashPrefix(base);
    var i := LastSlash(base);
    var stem, last := base[..i], base[i + 1..];
    LongLastSegment(base, i);
    assert base[..i + 1] + [0x78] == stem + [SLASH] + [0x78];
    LastSegmentRemoveDots(stem, last);
    LastSegmentRemoveDots(stem, [0x78]);
  }

  lemma LongLastSegment(base: Bytes, i: nat)
    requires |base| >= 3 && i < |base| && base[i] == SLASH && SLASH !in base[|base| - 3..]
    ensures |base[i + 1..]| >= 3
  {
    var tail := base[|base| - 3..];
    assert forall k :: |base| - 3 <= k < |base| ==> base[k] == tail[k - (|base| - 3)];
  }

  lemma {:induction false} EscapedFinalSlash(p: Bytes)
    requires Unescape(p).Some? && EndsInSlash(Unescape(p).value) && !EndsInSlash(p)
    ensures |p| >= 3 && p[|p| - 3] == PERCENT && IsHex(p[|p| - 2]) && IsHex(p[|p| - 1])
  {
    var k := if p[0] == PERCENT then 3 else 1;
    var rest := p[k..];
    assert Unescape(p).value == [Unescape(p).value[0]] + Unescape(rest).value;
    if rest != [] {
      assert Unescape(rest).value != [] by { UnescapeNonempty(rest); }
      EscapedFinalSlash(rest);
    }
  }

  lemma UnescapeNonempty(p: Bytes)
    requires p != [] && Unescape(p).Some?
    ensures Unescape(p).value != []
  {
  }

  /** What resolution starts from, for a base path as written in the configuration. */
  function BasePath(p: Bytes): Bytes
    requires SetPath(p).Some?
  {
    EscapedPath(BaseForm(SetPath(p).value))
  }

  /** The references that are not re-encoded to the root all stay below what resolution
      starts from exactly when the final slash of the configured path is not an escaped
      one. An escaped final slash keeps `parseBaseURL` from adding a real one, and the last
      segment of such a base is replaced, as section 5.2.3 of RFC 3986 has it. */
  lemma ContainmentOfStart(p: Bytes)
    requires SetPath(p).Some? && (p == [] || p[0] == SLASH)
    ensures (forall raw :: Accepted(raw) && !ReencodedToRoot(raw) ==> ContainedIn(BasePath(p), raw)) <==>
            !(ValidEncoded(p) && EndsInSlash(SetPath(p).value.path) && !EndsInSlash(p))
  {
    var base := BasePath(p);
    BaseEndsInSlashIff(p);
    if EndsInSlash(base) {
      SlashedBaseContains(base);
    } else {
      UnslashedBase(p);
      LetterReplaces(p);
    }
  }

  lemma SlashedBaseContains(base: Bytes)
    requires EndsInSlash(base)
    ensures forall raw :: Accepted(raw) && !ReencodedToRoot(raw) ==> ContainedIn(base, raw)
  {
    hide ContainedIn, ReencodedToRoot, Accepted;
    forall raw | Accepted(raw) && !ReencodedToRoot(raw) ensures ContainedIn(base, raw) {
      ContainmentOfReference(raw);
    }
  }

  lemma UnslashedBase(p: Bytes)
    requires SetPath(p).Some? && !EndsInSlash(BasePath(p))
    ensures BasePath(p) == p && |p| >= 3 && SLASH !in p[|p| - 3..]
  {
    BaseEndsInSlashIff(p);
    EscapedPathOfParsed(p);
    EscapedFinalSlash(p);
    var tail := p[|p| - 3..];
    assert tail == [PERCENT, p[|p| - 2], p[|p| - 1]];
  }

  lemma LetterReplaces(base: Bytes)
    requires base != [] && base[0] == SLASH
    requires |base| >= 3 && SLASH !in base[|base| - 3..]
    ensures Accepted([0x78]) && !ReencodedToRoot([0x78]) && !ContainedIn(base, [0x78])
  {
    hide ResolvePath, RemoveDots, EscapedPath, Accepted, ReencodedToRoot;
    LetterReference();
    LastSegmentReplaced(base);
  }

  lemma LetterReference()
    ensures Accepted([0x78]) && !ReencodedToRoot([0x78])
    ensures EscapedPath(ParseReference([0x78]).value.form) == [0x78]
  {
    SplitPart([0x78], SLASH);
    PlainReference([0x78]);
  }

  /** An instance of the first exception: the reference `%2F` and a space leaves the base
      `/a/` for `/%20`. */
  lemma ReencodedReferenceEscapes()
    ensures var raw: Bytes := [PERCENT, 0x32, 0x46, SPACE];
            Accepted(raw) && ReencodedToRoot(raw) && !ContainedIn([SLASH, 0x61, SLASH], raw)
  {
    hide RemoveDots, Split, HasScheme, Unescape, EscapePath;
    var raw: Bytes := [PERCENT, 0x32, 0x46, SPACE];
    var path: Bytes := [SLASH, SPACE];
    var space: Bytes := [PERCENT, 0x32, 0x30];
    SpacedPath();
    Unmarked(raw);
    assert SetPath(raw) == Some(PathForm(path, raw));
    assert !ValidEncoded(raw) by { assert MustEscape(raw[3]); }
    assert path == [] + [SLASH] + [SPACE];
    SplitAppend([], SLASH, [SPACE]);
    SplitPart([], SLASH);
    SplitPart([SPACE], SLASH);
    NoDotSegments([[], [SPACE]]);
    assert EscapedPath(PathForm(path, raw)) == [SLASH] + space;
    OneSegmentKept(space);
    OneSegmentKept([0x61]);
    var base: Bytes := [SLASH, 0x61, SLASH];
    assert [SLASH] + [0x61] + [SLASH] == base;
    assert ResolvePath(base, [SLASH] + space) == [SLASH] + space;
    assert base[1] != ([SLASH] + space)[1];
  }

  lemma SpacedPath()
    ensures Unescape([PERCENT, 0x32, 0x46, SPACE]) == Some([SLASH, SPACE])
    ensures EscapePath([SLASH, SPACE]) == [SLASH] + [PERCENT, 0x32, 0x30]
  {
    UnescapeSteps(SPACE, 0x32, 0x46, []);
    UnescapeSteps(0x61, 0x32, 0x46, [SPACE]);
    assert [SPACE] + [] == [SPACE] && [PERCENT, 0x32, 0x46] + [SPACE] == [PERCENT, 0x32, 0x46, SPACE];
    assert Unescape([PERCENT, 0x32, 0x46, SPACE]) == Some([SLASH] + ([SPACE] + []));
    assert [SLASH] + ([SPACE] + []) == [SLASH, SPACE];
    var space, path: Bytes := [SPACE], [SLASH, SPACE];
    assert space[1..] == [] && path[1..] == space;
    assert EscapePath(space) == PercentEncode(SPACE) + [];
    assert PercentEncode(SPACE) == [PERCENT, 0x32, 0x30];
    assert EscapePath(space) == [PERCENT, 0x32, 0x30];
    assert EscapePath(path) == [SLASH] + EscapePath(space);
  }

  /** How decoding goes on after an ordinary byte and after an escape. */
  lemma UnescapeSteps(b: Byte, hi: Byte, lo: Byte, rest: Bytes)
    requires b != PERCENT && IsHex(hi) && IsHex(lo)
    ensures Unescape([b] + rest) == Cons(b, Unescape(rest))
    ensures Unescape([PERCENT, hi, lo] + rest) == Cons(Unhex(hi) * 16 + Unhex(lo), Unescape(rest))
  {
    assert ([b] + rest)[1..] == rest && ([PERCENT, hi, lo] + rest)[3..] == rest;
  }

  /** A text that begins with a percent sign and holds no other mark is all path. */
  lemma Unmarked(raw: Bytes)
    requires raw != [] && raw[0] == PERCENT
    requires forall i :: 0 <= i < |raw| ==> raw[i] != HASH && raw[i] != QUESTION && raw[i] != COLON && !Control(raw[i])
    ensures RawPath(raw) == raw
    ensures ParseReference(raw) ==
            match SetPath(raw) case None => None case Some(form) => Some(Reference(form, [], []))
  {
    CutNowhere(raw, HASH);
    CutNowhere(raw, QUESTION);
    if Cut(raw, SLASH).Some? {
      BeforeWithin(raw, SLASH, COLON);
    }
    assert COLON !in Before(raw, SLASH);
  }

  lemma {:induction false} CutNowhere(s: Bytes, sep: Byte)
    requires sep !in s
    ensures Cut(s, sep) == None
  {
    if s != [] {
      CutNowhere(s[1..], sep);
    }
  }

  /** An instance of the second: under the base `/a%2F` an ordinary reference replaces the
      whole of it. */
  lemma EscapedSlashBaseReplaced()
    ensures var p: Bytes := [SLASH, 0x61, PERCENT, 0x32, 0x46];
            SetPath(p).Some? && BasePath(p) == p && Accepted([0x78]) && !ContainedIn(BasePath(p), [0x78])
  {
    hide Unescape, EscapePath, RemoveDots, ResolvePath, Split, ParseReference, EscapedPath;
    var p: Bytes := [SLASH, 0x61, PERCENT, 0x32, 0x46];
    EscapedSlashDecodes();
    BaseEndsInSlashIff(p);
    UnslashedBase(p);
    LetterReplaces(p);
  }

  lemma EscapedSlashDecodes()
    ensures Unescape([SLASH, 0x61, PERCENT, 0x32, 0x46]) == Some([SLASH, 0x61, SLASH])
  {
    hide Unescape;
    UnescapeSteps(SLASH, 0x32, 0x46, []);
    UnescapeSteps(0x61, 0x32, 0x46, [PERCENT, 0x32, 0x46]);
    UnescapeSteps(SLASH, 0x32, 0x46, [0x61, PERCENT, 0x32, 0x46]);
    UnescapeNothing();
    assert [PERCENT, 0x32, 0x46] + [] == [PERCENT, 0x32, 0x46];
    assert [0x61] + [PERCENT, 0x32, 0x46] == [0x61, PERCENT, 0x32, 0x46];
    assert [SLASH] + [0x61, PERCENT, 0x32, 0x46] == [SLASH, 0x61, PERCENT, 0x32, 0x46];
    assert [SLASH] + ([0x61] + ([SLASH] + [])) == [SLASH, 0x61, SLASH];
  }

  lemma UnescapeNothing()
    ensures Unescape([]) == Some([])
  {
  }

  // ---- the agent's own endpoints ----

  /** Bytes that no step of resolution treats specially. */
  predicate PlainByte(b: Byte) { NodeIdByte(b) || b == SLASH }

  predicate AllPlain(s: Bytes) { forall i :: 0 <= i < |s| ==> PlainByte(s[i]) }

  predicate Plain(raw: Bytes) {
    && raw != [] && (IsLower(raw[0]) || IsUpper(raw[0]))
    && AllPlain(raw)
    && UP !in Split(raw, SLASH) && HERE !in Split(raw, SLASH)
  }

  lemma {:induction false} PlainCoding(s: Bytes)
    requires AllPlain(s)
    ensures Unescape(s) == Some(s) && EscapePath(s) == s && ValidEncoded(s)
  {
    if s != [] {
      PlainCoding(s[1..]);
      assert s == [s[0]] + s[1..];
    }
  }

  lemma {:induction false} PlainUncut(s: Bytes)
    requires AllPlain(s)
    ensures Cut(s, HASH) == None && Cut(s, QUESTION) == None && COLON !in s
    ensures !HasScheme(s, true) && !HasScheme(s, false)
  {
    if s != [] {
      PlainUncut(s[1..]);
      assert s == [s[0]] + s[1..];
    }
  }

  lemma {:induction false} BeforeWithin(s: Bytes, sep: Byte, x: Byte)
    requires x !in s
    ensures x !in Before(s, sep)
  {
    if s != [] && s[0] != sep {
      BeforeWithin(s[1..], sep, x);
    }
  }

  lemma PlainParsed(raw: Bytes)
    requires Plain(raw)
    ensures ParseReference(raw) == Some(Reference(PathForm(raw, []), [], []))
    ensures RawPath(raw) == raw && ValidEncoded(raw)
  {
    PlainCoding(raw);
    PlainUncut(raw);
    BeforeWithin(raw, SLASH, COLON);
    assert Before(raw, HASH) == raw && Before(raw, QUESTION) == raw;
    assert Behind(raw, HASH) == [] && Behind(raw, QUESTION) == [];
    assert forall i :: 0 <= i < |raw| ==> !Control(raw[i]);
    assert SetPath(raw) == Some(PathForm(raw, []));
  }

  /** A plain reference is accepted and sent as it is. */
  lemma PlainReference(raw: Bytes)
    requires Plain(raw)
    ensures Accepted(raw) && !ReencodedToRoot(raw)
    ensures ParseReference(raw) == Some(Reference(PathForm(raw, []), [], []))
    ensures EscapedPath(PathForm(raw, [])) == raw
  {
    PlainParsed(raw);
    PlainCoding(raw);
    assert raw[0] != 0x2a && raw[0] != SLASH;
  }

  /** Ordinary segments are appended one by one. */
  lemma {:induction false} OrdinarySegments(b: Buffer, segments: seq<Bytes>)
    requires b.text != [] && b.text[0] == SLASH && segments != []
    requires UP !in segments && HERE !in segments
    ensures PutSegments(b, segments) == Buffer(Opened(b) + Join(segments, SLASH), false)
    ensures Finish(b, segments) == Opened(b) + Join(segments, SLASH)
    decreases |segments|
  {
    hide PutSegment;
    var next := PutSegment(b, segments[0]);
    OrdinarySegment(b, segments[0]);
    if |segments| == 1 {
      assert segments[1..] == [];
    } else {
      OrdinarySegments(next, segments[1..]);
      assert Opened(next) + Join(segments[1..], SLASH) == Opened(b) + Join(segments, SLASH);
    }
    assert segments[|segments| - 1] in segments;
    assert Opened(b) + Join(segments, SLASH) + [] == Opened(b) + Join(segments, SLASH);
  }

  lemma OrdinarySegment(b: Buffer, segment: Bytes)
    requires b.text != [] && b.text[0] == SLASH && segment != UP && segment != HERE
    ensures PutSegment(b, segment) == Buffer(Opened(b) + segment, false)
  {
  }

  /** What a base path comes to once its dots are removed: all of it if it ends in a slash,
      otherwise without its last segment (section 5.2.3 of RFC 3986). */
  function Folder(base: Bytes): (folder: Bytes)
    ensures EndsInSlash(base) ==> folder == RemoveDots(base)
  {
    if EndsInSlash(base) then RemoveDots(base)
    else if SLASH in base then RemoveDots(base[..LastSlash(base) + 1])
    else [SLASH]
  }

  /** A plain reference resolves to the folder of the base followed by exactly itself. */
  lemma PlainResolution(base: Bytes, raw: Bytes)
    requires Plain(raw)
    ensures ResolvePath(base, raw) == Folder(base) + raw
  {
    hide RemoveDots, Split, LastSlash, AllPlain;
    if EndsInSlash(base) {
      PlainBelow(base, raw);
    } else if SLASH in base {
      FolderDecides(base, raw);
      PlainBelow(base[..LastSlash(base) + 1], raw);
    } else {
      assert base[..LastSlash(base) + 1] + raw == raw;
      PlainAlone(raw);
    }
  }

  /** Resolution looks at a base path up to its last slash only. */
  lemma FolderDecides(base: Bytes, ref: Bytes)
    requires SLASH in base && ref != [] && ref[0] != SLASH
    ensures var folder := base[..LastSlash(base) + 1];
            EndsInSlash(folder) && ResolvePath(folder, ref) == ResolvePath(base, ref)
  {
    hide RemoveDots, LastSlash;
    var folder := base[..LastSlash(base) + 1];
    SlashFound(base);
    LastSlashOf(folder);
  }

  lemma SlashFound(s: Bytes)
    requires SLASH in s
    ensures LastSlash(s) >= 0
  {
    hide LastSlash;
  }

  lemma PlainBelow(base: Bytes, raw: Bytes)
    requires EndsInSlash(base) && Plain(raw)
    ensures ResolvePath(base, raw) == RemoveDots(base) + raw
  {
    RelativeResolution(base, raw);
    OrdinarySegments(BaseBuffer(base), Split(raw, SLASH));
    JoinSplit(raw, SLASH);
    DropDoubleAppend(Opened(BaseBuffer(base)), raw);
  }

  lemma PlainAlone(raw: Bytes)
    requires Plain(raw)
    ensures RemoveDots(raw) == [SLASH] + raw
  {
    hide Split, PutSegments;
    OrdinarySegments(EMPTY_BUFFER, Split(raw, SLASH));
    JoinSplit(raw, SLASH);
    assert ([SLASH] + raw)[1] == raw[0];
  }

  lemma DropDoubleAppend(lead: Bytes, raw: Bytes)
    requires lead != [] && raw != [] && raw[0] != SLASH
    ensures DropDouble(lead + raw) == DropDouble(lead) + raw
  {
    assert |lead| == 1 ==> (lead + raw)[1] == raw[0];
    assert |lead| > 1 ==> (lead + raw)[1..] == lead[1..] + raw && (lead + raw)[1] == lead[1];
  }

  const V1: Bytes := Ascii("v1")
  const NODES: Bytes := Ascii("nodes")
  const REGISTER: Bytes := Ascii("register")
  const HEARTBEAT: Bytes := Ascii("heartbeat")
  const DESIRED_STATE: Bytes := Ascii("desired-state")

  /** v1/nodes */
  const PREFIX: Bytes := V1 + [SLASH] + NODES

  /** v1/nodes/register */
  const REGISTRATION: Bytes := PREFIX + [SLASH] + REGISTER

  /** The endpoints, spelled out. */
  lemma EndpointTexts(id: Bytes)
    ensures REGISTRATION == Ascii("v1/nodes/register")
    ensures PREFIX + [SLASH] + id + [SLASH] + HEARTBEAT == Ascii("v1/nodes/") + id + Ascii("/heartbeat")
    ensures PREFIX + [SLASH] + id + [SLASH] + DESIRED_STATE == Ascii("v1/nodes/") + id + Ascii("/desired-state")
  {
    assert PREFIX + [SLASH] == Ascii("v1/nodes/");
    assert [SLASH] + HEARTBEAT == Ascii("/heartbeat");
    assert [SLASH] + DESIRED_STATE == Ascii("/desired-state");
    Regrouped(PREFIX + [SLASH] + id, [SLASH], HEARTBEAT);
    Regrouped(PREFIX + [SLASH] + id, [SLASH], DESIRED_STATE);
  }

  lemma Regrouped(a: Bytes, b: Bytes, c: Bytes)
    ensures a + b + c == a + (b + c)
  {
  }

  function NodeEndpoint(id: Bytes, suffix: Bytes): Bytes {
    PREFIX + [SLASH] + PathEscape(id) + [SLASH] + suffix
  }

  lemma {:induction false} NodeIdUnescaped(id: Bytes)
    requires forall i :: 0 <= i < |id| ==> NodeIdByte(id[i])
    ensures PathEscape(id) == id
  {
    if id != [] {
      NodeIdUnescaped(id[1..]);
      assert id == [id[0]] + id[1..];
    }
  }

  /** The words of the endpoints are plain segments. */
  lemma WordPlain(word: string)
    requires |word| > 2 || word == "v1"
    requires forall i :: 0 <= i < |word| ==> 'a' <= word[i] <= 'z' || '0' <= word[i] <= '9' || word[i] == '-'
    ensures var w := Ascii(word);
            SLASH !in w && w != UP && w != HERE && AllPlain(w)
  {
    var w := Ascii(word);
    assert w[0] == word[0] as int;
    forall i | 0 <= i < |w| ensures PlainByte(w[i]) && w[i] != SLASH {
      assert w[i] == word[i] as int;
    }
  }

  lemma WordsPlain()
    ensures forall w :: w in [V1, NODES, REGISTER, HEARTBEAT, DESIRED_STATE] ==>
              SLASH !in w && w != UP && w != HERE && AllPlain(w)
  {
    WordPlain("v1");
    WordPlain("nodes");
    WordPlain("register");
    WordPlain("heartbeat");
    WordPlain("desired-state");
  }

  lemma PrefixSegments(last: Bytes)
    requires SLASH !in last
    ensures Split(PREFIX, SLASH) == [V1, NODES]
    ensures Split(PREFIX + [SLASH] + last, SLASH) == [V1, NODES, last]
  {
    hide Split, AllPlain;
    WordsPlain();
    SplitPart(V1, SLASH);
    SplitPart(NODES, SLASH);
    SplitPart(last, SLASH);
    SplitAppend(V1, SLASH, NODES);
    SplitAppend(PREFIX, SLASH, last);
  }

  /** The segments of a node endpoint. */
  lemma NodeSegments(id: Bytes, suffix: Bytes)
    requires ValidNodeId(id) && SLASH !in suffix
    ensures Split(NodeEndpoint(id, suffix), SLASH) == [V1, NODES, id, suffix]
  {
    NodeIdUnescaped(id);
    PrefixSegments(id);
    SplitPart(suffix, SLASH);
    SplitAppend(PREFIX + [SLASH] + id, SLASH, suffix);
  }

  lemma PrefixPlain()
    ensures IsLower(PREFIX[0]) && AllPlain(PREFIX)
  {
    WordsPlain();
    assert PREFIX[0] == V1[0] == 'v' as int;
  }

  lemma NodeEndpointPlain(id: Bytes, suffix: Bytes)
    requires ValidNodeId(id) && suffix in {HEARTBEAT, DESIRED_STATE}
    ensures Plain(NodeEndpoint(id, suffix))
  {
    hide Split, PathEscape;
    WordsPlain();
    PrefixPlain();
    NodeIdUnescaped(id);
    NodeSegments(id, suffix);
    var tail := [SLASH] + id + [SLASH] + suffix;
    assert NodeEndpoint(id, suffix) == PREFIX + tail;
    assert AllPlain(id) && AllPlain(suffix) && AllPlain(tail);
    assert id[0] != DOT && id != UP && id != HERE;
    NoDotSegments([V1, NODES, id, suffix]);
  }

  lemma NoDotSegments(segments: seq<Bytes>)
    requires forall i :: 0 <= i < |segments| ==> segments[i] != UP && segments[i] != HERE
    ensures UP !in segments && HERE !in segments
  {
  }

  /** For every node ID that registration or the state file can supply, both node
      endpoints are accepted below any base path and lead to the dot-removed base plus
      v1/nodes/ID/suffix; a base that does not end in a slash loses its last segment. */
  lemma NodeEndpointResolves(base: Base, id: Bytes, suffix: Bytes)
    requires ValidNodeId(id) && suffix in {HEARTBEAT, DESIRED_STATE}
    ensures Resolve(base, NodeEndpoint(id, suffix)) ==
            Ok(Resolved(HTTPS, base.host,
                        Folder(EscapedPath(base.form)) + (PREFIX + [SLASH] + id + [SLASH] + suffix), []))
  {
    var raw := NodeEndpoint(id, suffix);
    NodeEndpointPlain(id, suffix);
    NodeIdUnescaped(id);
    PlainReference(raw);
    AcceptedIff(base, raw);
    PlainResolution(EscapedPath(base.form), raw);
  }

  lemma RegistrationResolves(base: Base)
    ensures Resolve(base, REGISTRATION) ==
            Ok(Resolved(HTTPS, base.host, Folder(EscapedPath(base.form)) + REGISTRATION, []))
  {
    hide Split, RemoveDots, Folder, ResolvePath;
    WordsPlain();
    PrefixPlain();
    PrefixSegments(REGISTER);
    var tail := [SLASH] + REGISTER;
    assert REGISTRATION == PREFIX + tail;
    assert AllPlain(tail);
    NoDotSegments([V1, NODES, REGISTER]);
    PlainReference(REGISTRATION);
    AcceptedIff(base, REGISTRATION);
    PlainResolution(EscapedPath(base.form), REGISTRATION);
  }

  /** No two nodes, and no two purposes, share an endpoint. */
  lemma EndpointsDistinct(id: Bytes, suffix: Bytes, id': Bytes, suffix': Bytes)
    requires ValidNodeId(id) && ValidNodeId(id')
    requires suffix in {HEARTBEAT, DESIRED_STATE} && suffix' in {HEARTBEAT, DESIRED_STATE}
    ensures NodeEndpoint(id, suffix) == NodeEndpoint(id', suffix') <==> id == id' && suffix == suffix'
    ensures NodeEndpoint(id, suffix) != REGISTRATION
    ensures HEARTBEAT != DESIRED_STATE
  {
    WordsPlain();
    NodeSegments(id, suffix);
    NodeSegments(id', suffix');
    PrefixSegments(REGISTER);
    var parts, parts' := [V1, NODES, id, suffix], [V1, NODES, id', suffix'];
    assert parts[2] == id && parts'[2] == id' && parts[3] == suffix && parts'[3] == suffix';
    assert |parts| == 4 && |[V1, NODES, REGISTER]| == 3;
    assert |HEARTBEAT| != |DESIRED_STATE|;
  }
}
