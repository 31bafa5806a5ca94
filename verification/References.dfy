/** What becomes of an endpoint reference, over its bytes: which ones are refused and why,
    and what is kept of those that are not. */
module References {
  import opened Text
  import opened CoreClient
  import opened Endpoints

  /** path, path?query, path#fragment or path?query#fragment */
  datatype Parts = Parts(path: Bytes, query: Option<Bytes>, fragment: Option<Bytes>)

  function Optional(mark: Byte, part: Option<Bytes>): Bytes {
    match part
    case None => []
    case Some(text) => [mark] + text
  }

  predicate Made(raw: Bytes, x: Parts) {
    && raw == x.path + Optional(QUESTION, x.query) + Optional(HASH, x.fragment)
    && HASH !in x.path && QUESTION !in x.path
    && (x.query.Some? ==> HASH !in x.query.value)
  }

  // ---- what makes a reference unreadable ----

  /** Some `%` is not followed by two hexadecimal digits. */
  predicate BadEscape(s: Bytes) {
    exists i :: 0 <= i < |s| && BadEscapeAt(s, i)
  }

  predicate BadEscapeAt(s: Bytes, i: nat)
    requires i < |s|
  {
    s[i] == PERCENT && (i + 2 >= |s| || !IsHex(s[i + 1]) || !IsHex(s[i + 2]))
  }

  predicate HoldsControl(s: Bytes) {
    exists i :: 0 <= i < |s| && Control(s[i])
  }

  /** The first segment holds a colon, as a scheme would. */
  predicate ColonFirst(path: Bytes) {
    exists i :: 0 <= i < |path| && path[i] == COLON && SLASH !in path[..i]
  }

  predicate Unreadable(x: Parts) {
    || HoldsControl(x.path) || (x.query.Some? && HoldsControl(x.query.value))
    || ColonFirst(x.path) || BadEscape(x.path)
    || (x.fragment.Some? && BadEscape(x.fragment.value))
  }

  lemma {:induction false} UnescapesIff(s: Bytes)
    ensures Unescape(s).None? <==> BadEscape(s)
  {
    if s != [] {
      var k := if s[0] == PERCENT then 3 else 1;
      if s[0] == PERCENT && (|s| < 3 || !IsHex(s[1]) || !IsHex(s[2])) {
        assert BadEscapeAt(s, 0);
      } else {
        UnescapesIff(s[k..]);
        EscapesBehind(s, k);
      }
    }
  }

  /** Behind something well escaped, what is badly escaped stays so. */
  lemma EscapesBehind(s: Bytes, k: nat)
    requires k <= |s| && forall i :: 0 <= i < k ==> !BadEscapeAt(s, i)
    ensures BadEscape(s) <==> BadEscape(s[k..])
  {
    if i :| 0 <= i < |s| && BadEscapeAt(s, i) {
      assert BadEscapeAt(s[k..], i - k);
    }
    if i :| 0 <= i < |s[k..]| && BadEscapeAt(s[k..], i) {
      assert BadEscapeAt(s, i + k);
    }
  }

  lemma ColonFirstIff(path: Bytes)
    ensures COLON in Before(path, SLASH) <==> ColonFirst(path)
  {
    CutIff(path, SLASH);
    var first := Before(path, SLASH);
    assert first <= path && SLASH !in first;
    if COLON in first {
      var i :| 0 <= i < |first| && first[i] == COLON;
      assert path[i] == COLON && path[..i] == first[..i];
    }
    if i :| 0 <= i < |path| && path[i] == COLON && SLASH !in path[..i] {
      SlashBehind(path, first, i);
      assert first[i] == COLON;
    }
  }

  lemma SlashBehind(path: Bytes, first: Bytes, i: nat)
    requires first <= path && (first == path || (|first| < |path| && path[|first|] == SLASH))
    requires i < |path| && path[i] == COLON && SLASH !in path[..i]
    ensures i < |first|
  {
    assert forall j :: 0 <= j < i ==> path[j] == path[..i][j] != SLASH;
  }

  /** Where a scheme could stand, a colon stands in the first segment. */
  lemma {:induction false} SchemeColon(path: Bytes, rest: Bytes, start: bool)
    requires HasScheme(path + rest, start)
    requires rest == [] || rest[0] == QUESTION
    ensures COLON in Before(path, SLASH)
  {
    var u := path + rest;
    assert path == [] ==> u == rest;
    if path != [] {
      assert u[0] == path[0] && u[1..] == path[1..] + rest;
      if path[0] != COLON {
        SchemeColon(path[1..], rest, false);
      }
    }
  }

  // ---- reading a reference ----

  lemma CutParts(raw: Bytes, x: Parts)
    requires Made(raw, x)
    ensures Before(raw, HASH) == x.path + Optional(QUESTION, x.query)
    ensures Behind(raw, HASH) == if x.fragment.Some? then x.fragment.value else []
    ensures Before(x.path + Optional(QUESTION, x.query), QUESTION) == x.path
    ensures Behind(x.path + Optional(QUESTION, x.query), QUESTION) == if x.query.Some? then x.query.value else []
  {
    var u := x.path + Optional(QUESTION, x.query);
    assert HASH !in u;
    if x.fragment.Some? {
      CutAt(u, HASH, x.fragment.value);
      assert raw == u + [HASH] + x.fragment.value;
    } else {
      assert raw == u;
      CutNowhere(raw, HASH);
    }
    if x.query.Some? {
      CutAt(x.path, QUESTION, x.query.value);
      assert u == x.path + [QUESTION] + x.query.value;
    } else {
      assert u == x.path;
      CutNowhere(u, QUESTION);
    }
  }

  lemma ControlsOf(path: Bytes, query: Option<Bytes>)
    ensures var u := path + Optional(QUESTION, query);
            HoldsControl(u) <==> HoldsControl(path) || (query.Some? && HoldsControl(query.value))
  {
    var u := path + Optional(QUESTION, query);
    if i :| 0 <= i < |u| && Control(u[i]) {
      if i < |path| {
        assert Control(path[i]);
      } else {
        assert query.Some? && Control(query.value[i - |path| - 1]);
      }
    }
    if i :| 0 <= i < |path| && Control(path[i]) {
      assert Control(u[i]);
    }
    if query.Some? {
      if i :| 0 <= i < |query.value| && Control(query.value[i]) {
        assert Control(u[|path| + 1 + i]);
      }
    }
  }

  /** What `url.Parse` makes of a reference. */
  lemma ParsedParts(raw: Bytes, x: Parts)
    requires Made(raw, x)
    ensures ParseReference(raw).None? <==> Unreadable(x)
    ensures ParseReference(raw).Some? ==>
              && SetPath(x.path).Some?
              && ParseReference(raw).value ==
                   Reference(SetPath(x.path).value,
                             if x.query.Some? then x.query.value else [],
                             if x.fragment.Some? then x.fragment.value else [])
  {
    hide BadEscape, ColonFirst, Before, Behind, Unescape;
    CutParts(raw, x);
    UnescapesIff(x.path);
    UnescapesIff(if x.fragment.Some? then x.fragment.value else []);
    NothingBad();
    ControlsOf(x.path, x.query);
    ColonFirstIff(x.path);
    if HasScheme(x.path + Optional(QUESTION, x.query), true) {
      SchemeColon(x.path, Optional(QUESTION, x.query), true);
    }
  }

  lemma NothingBad()
    ensures !BadEscape([])
  {
  }

  lemma {:induction false} CutWithin(s: Bytes, sep: Byte, x: Byte)
    requires x !in s
    ensures x !in Before(s, sep) && x !in Behind(s, sep)
  {
    CutIff(s, sep);
    if Cut(s, sep).Some? {
      var (before, after) := Cut(s, sep).value;
      assert forall i :: 0 <= i < |before| ==> s[i] == before[i];
      assert forall i :: 0 <= i < |after| ==> s[|before| + 1 + i] == after[i];
    }
  }

  /** Every text has such parts. */
  lemma PartsOf(raw: Bytes) returns (x: Parts)
    ensures Made(raw, x)
  {
    hide Before, Behind, Optional, Cut;
    var u, fragment := CutOff(raw, HASH);
    var path, query := CutOff(u, QUESTION);
    CutWithin(u, QUESTION, HASH);
    x := Parts(path, query, fragment);
  }

  lemma CutOff(s: Bytes, mark: Byte) returns (front: Bytes, part: Option<Bytes>)
    ensures s == front + Optional(mark, part) && mark !in front
    ensures front == Before(s, mark) && (part.Some? ==> part.value == Behind(s, mark))
  {
    CutIff(s, mark);
    front := Before(s, mark);
    part := if Cut(s, mark).Some? then Some(Behind(s, mark)) else None;
    assert part.Some? ==> s == front + [mark] + part.value == front + ([mark] + part.value);
  }

  // ---- what resolution answers ----

  predicate Relative(raw: Bytes) { raw != [] && raw[0] != SLASH }

  predicate Unmarked(x: Parts) { x.fragment.None? || x.fragment.value == [] }

  /** The decoded path has a segment `..`. */
  predicate Climbs(x: Parts) {
    Unescape(x.path).Some? && UP in Split(Unescape(x.path).value, SLASH)
  }

  /** Every error is reported exactly when its check is the first to fail; and otherwise the
      scheme and the host are those of the base, the path is resolved from the path alone,
      and the query is the one that was given. */
  lemma ResolveMeans(base: Base, raw: Bytes, x: Parts)
    requires Made(raw, x)
    ensures var r := Resolve(base, raw);
            && (r == Err(EmptyEndpoint) <==> raw == [])
            && (r == Err(BeginsWithSlash) <==> raw != [] && raw[0] == SLASH)
            && (r == Err(NotAReference) <==> Relative(raw) && Unreadable(x))
            && (r == Err(EndpointFragment) <==> Relative(raw) && !Unreadable(x) && !Unmarked(x))
            && (r == Err(Traversal) <==> Relative(raw) && !Unreadable(x) && Unmarked(x) && Climbs(x))
            && (r.Ok? <==> Relative(raw) && !Unreadable(x) && Unmarked(x) && !Climbs(x))
            && (r.Ok? ==>
                  && SetPath(x.path).Some?
                  && r.value.scheme == Ascii("https") && r.value.host == base.host
                  && r.value.rawQuery == (if x.query.Some? then x.query.value else [])
                  && r.value.path == ResolvePath(EscapedPath(base.form), EscapedPath(SetPath(x.path).value)))
  {
    hide ParseReference, Unreadable, ResolvePath, EscapedPath, EscapePath;
    ParsedParts(raw, x);
  }

  /** The query does not matter to the path, and comes through as it is. */
  lemma QueryKept(base: Base, path: Bytes, query: Bytes)
    requires path != [] && HASH !in path && QUESTION !in path && HASH !in query && !HoldsControl(query)
    ensures Resolve(base, path + [QUESTION] + query) ==
            match Resolve(base, path)
            case Ok(r) => Ok(r.(rawQuery := query))
            case Err(e) => Err(e)
  {
    hide Resolve, ResolvePath, EscapedPath, SetPath, HoldsControl, ColonFirst, BadEscape, Climbs;
    var raw := path + [QUESTION] + query;
    var x, y := Parts(path, Some(query), None), Parts(path, None, None);
    assert Made(raw, x) && Made(path, y);
    assert Unreadable(x) <==> Unreadable(y);
    assert Climbs(x) <==> Climbs(y) by { ClimbsAlike(x, y); }
    assert raw[0] == path[0];
    ResolveMeans(base, raw, x);
    ResolveMeans(base, path, y);
  }

  lemma ClimbsAlike(x: Parts, y: Parts)
    requires x.path == y.path
    ensures Climbs(x) <==> Climbs(y)
  {
  }

  /** A plain path with a query goes to the folder of the base followed by that path, with
      that query. */
  lemma PlainWithQuery(base: Base, path: Bytes, query: Bytes)
    requires Plain(path) && HASH !in query && !HoldsControl(query)
    ensures Resolve(base, path + [QUESTION] + query) ==
            Ok(Resolved(HTTPS, base.host, Folder(EscapedPath(base.form)) + path, query))
  {
    hide HoldsControl, EscapedPath;
    PlainBytes(path);
    PlainResolves(base, path);
    QueryKept(base, path, query);
  }

  lemma PlainBytes(path: Bytes)
    requires Plain(path)
    ensures HASH !in path && QUESTION !in path
  {
  }

  lemma PlainResolves(base: Base, path: Bytes)
    requires Plain(path)
    ensures Resolve(base, path) == Ok(Resolved(HTTPS, base.host, Folder(EscapedPath(base.form)) + path, []))
  {
    hide AllPlain, Folder;
    PlainReference(path);
    PlainResolution(EscapedPath(base.form), path);
  }

  /** With a fragment it is refused, unless the fragment is empty. */
  lemma PlainWithFragment(base: Base, path: Bytes, fragment: Bytes)
    requires Plain(path)
    ensures Resolve(base, path + [HASH] + fragment) ==
            if fragment == [] then Ok(Resolved(HTTPS, base.host, Folder(EscapedPath(base.form)) + path, []))
            else if BadEscape(fragment) then Err(NotAReference)
            else Err(EndpointFragment)
  {
    hide Resolve, ResolvePath, EscapedPath, SetPath, HoldsControl, ColonFirst, BadEscape, Climbs, Folder, Plain;
    var raw := path + [HASH] + fragment;
    var x, y := Parts(path, None, Some(fragment)), Parts(path, None, None);
    PlainBytes(path);
    assert Made(raw, x) && Made(path, y);
    NothingBad();
    PlainResolves(base, path);
    assert Climbs(x) <==> Climbs(y) by { ClimbsAlike(x, y); }
    assert path != [] by { PlainStarts(path); }
    assert raw[0] == path[0];
    ResolveMeans(base, raw, x);
    ResolveMeans(base, path, y);
  }

  lemma PlainStarts(path: Bytes)
    requires Plain(path)
    ensures path != []
  {
  }
}
