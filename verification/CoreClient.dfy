/** The parts of the Core client that decide what is sent where: bearer validation, the
    base URL, and endpoint resolution (RFC 3986, as `net/url` implements it). */
module CoreClient {
  import opened Text

  // ---- bearer tokens ----

  const MAX_BEARER_BYTES: nat := 8 * 1024

  datatype BearerError = EmptyBearer | BearerTooLong | BearerCharacters

  predicate ValidBearer(token: Bytes) {
    0 < |token| <= MAX_BEARER_BYTES && forall i :: 0 <= i < |token| ==> 0x21 <= token[i] <= 0x7e
  }

  method ValidateBearer(token: Bytes) returns (r: Option<BearerError>)
    ensures r.None? <==> ValidBearer(token)
    ensures r.None? <==> 1 <= |token| <= 8192 && forall i :: 0 <= i < |token| ==> '!' as int <= token[i] <= '~' as int
    ensures r == Some(EmptyBearer) <==> token == []
    ensures r == Some(BearerTooLong) <==> |token| > 8192
  {
    if token == [] {
      return Some(EmptyBearer);
    }
    if |token| > MAX_BEARER_BYTES {
      return Some(BearerTooLong);
    }
    for i := 0 to |token|
      invariant forall j :: 0 <= j < i ==> 0x21 <= token[j] <= 0x7e
    {
      if token[i] < 0x21 || token[i] > 0x7e {
        return Some(BearerCharacters);
      }
    }
    return None;
  }

  // ---- node IDs ----

  predicate NodeIdByte(b: Byte) { IsAlnum(b) || b == DOT || b == UNDERSCORE || b == HYPHEN }

  /** `^[A-Za-z0-9][A-Za-z0-9._-]{0,127}$` */
  predicate ValidNodeId(id: Bytes) {
    && 1 <= |id| <= 128
    && IsAlnum(id[0])
    && forall i :: 0 <= i < |id| ==> NodeIdByte(id[i])
  }

  // ---- percent-encoding ----

  /** `shouldEscape` for a whole path. */
  predicate MustEscape(b: Byte) {
    !(IsAlnum(b) || b in {HYPHEN, UNDERSCORE, DOT, 0x7e, 0x24, 0x26, 0x2b, 0x2c, SLASH, COLON, 0x3b, EQUALS, 0x40})
  }

  /** `shouldEscape` for one path segment. */
  predicate MustEscapeInSegment(b: Byte) {
    MustEscape(b) || b in {SLASH, 0x3b, 0x2c}
  }

  function PercentEncode(b: Byte): Bytes {
    [PERCENT, HexUpper(b / 16), HexUpper(b % 16)]
  }

  function EscapePath(path: Bytes): Bytes {
    if path == [] then []
    else (if MustEscape(path[0]) then PercentEncode(path[0]) else [path[0]]) + EscapePath(path[1..])
  }

  /** `url.PathEscape` */
  function PathEscape(segment: Bytes): Bytes {
    if segment == [] then []
    else
      (if MustEscapeInSegment(segment[0]) then PercentEncode(segment[0]) else [segment[0]])
      + PathEscape(segment[1..])
  }

  function Unescape(p: Bytes): Option<Bytes> {
    if p == [] then Some([])
    else if p[0] == PERCENT then
      if |p| < 3 || !IsHex(p[1]) || !IsHex(p[2]) then None
      else Cons(Unhex(p[1]) * 16 + Unhex(p[2]), Unescape(p[3..]))
    else Cons(p[0], Unescape(p[1..]))
  }

  function Cons(b: Byte, rest: Option<Bytes>): Option<Bytes> {
    match rest
    case None => None
    case Some(r) => Some([b] + r)
  }

  /** `validEncoded`: escapes, what needs none, and a few more bytes left as they are. */
  predicate ValidEncoded(p: Bytes) {
    forall i :: 0 <= i < |p| ==> !MustEscape(p[i]) || p[i] in {PERCENT, 0x21, 0x27, 0x28, 0x29, 0x2a, 0x5b, 0x5d}
  }

  /** `URL.Path` and `URL.RawPath`. */
  datatype PathForm = PathForm(path: Bytes, rawPath: Bytes)

  /** `setPath` */
  function SetPath(p: Bytes): Option<PathForm> {
    match Unescape(p)
    case None => None
    case Some(path) => Some(PathForm(path, if EscapePath(path) == p then [] else p))
  }

  /** `EscapedPath` */
  function EscapedPath(f: PathForm): Bytes {
    if f.rawPath != [] && ValidEncoded(f.rawPath) && Unescape(f.rawPath) == Some(f.path) then f.rawPath
    else if f.path == [0x2a] then [0x2a]
    else EscapePath(f.path)
  }

  lemma {:induction false} UnescapeEscape(path: Bytes)
    ensures Unescape(EscapePath(path)) == Some(path)
  {
    if path != [] {
      UnescapeEscape(path[1..]);
      var e := EscapePath(path);
      if MustEscape(path[0]) {
        assert e[3..] == EscapePath(path[1..]);
      } else {
        assert e[1..] == EscapePath(path[1..]);
      }
      assert path == [path[0]] + path[1..];
    }
  }

  /** A path that was parsed is sent as it was written, or re-encoded from what it
      decodes to. */
  lemma EscapedPathOfParsed(p: Bytes)
    requires SetPath(p).Some?
    ensures var f := SetPath(p).value;
            EscapedPath(f) == if ValidEncoded(p) && EscapePath(f.path) != p then p
                              else if f.path == [0x2a] then [0x2a]
                              else EscapePath(f.path)
  {
    if p == [] {
      assert EscapePath(SetPath(p).value.path) == [];
    }
  }

  // ---- resolution ----

  const UP: Bytes := [DOT, DOT]
  const HERE: Bytes := [DOT]

  function LastSlash(s: Bytes): (i: int)
    ensures -1 <= i < |s|
    ensures i >= 0 ==> s[i] == SLASH
    ensures forall j :: i < j < |s| ==> s[j] != SLASH
  {
    if s == [] then -1
    else if s[|s| - 1] == SLASH then |s| - 1
    else LastSlash(s[..|s| - 1])
  }

  /** The output buffer of `resolvePath` and its `first` flag. */
  datatype Buffer = Buffer(text: Bytes, first: bool)

  const EMPTY_BUFFER := Buffer([SLASH], true)

  function PutSegment(b: Buffer, segment: Bytes): Buffer
    requires b.text != []
  {
    if segment == HERE then b.(first := false)
    else if segment == UP then
      var kept := b.text[1..];
      if LastSlash(kept) == -1 then Buffer([SLASH], true)
      else b.(text := [SLASH] + kept[..LastSlash(kept)])
    else Buffer(Opened(b) + segment, false)
  }

  /** The buffer with the slash that goes before the next segment. */
  function Opened(b: Buffer): Bytes {
    if b.first then b.text else b.text + [SLASH]
  }

  function PutSegments(b: Buffer, segments: seq<Bytes>): (r: Buffer)
    requires b.text != [] && b.text[0] == SLASH
    ensures r.text != [] && r.text[0] == SLASH
    decreases |segments|
  {
    if segments == [] then b else PutSegments(PutSegment(b, segments[0]), segments[1..])
  }

  /** The buffer after the last segment, with the slash a final dot segment leaves. */
  function Finish(b: Buffer, segments: seq<Bytes>): (r: Bytes)
    requires b.text != [] && b.text[0] == SLASH && segments != []
    ensures r != [] && r[0] == SLASH
  {
    var last := segments[|segments| - 1];
    PutSegments(b, segments).text + (if last == HERE || last == UP then [SLASH] else [])
  }

  /** The buffer began with a slash of its own; two are one too many. */
  function DropDouble(s: Bytes): Bytes {
    if |s| > 1 && s[1] == SLASH then s[1..] else s
  }

  function RemoveDots(full: Bytes): Bytes {
    if full == [] then [] else DropDouble(Finish(EMPTY_BUFFER, Split(full, SLASH)))
  }

  /** `resolvePath` */
  function ResolvePath(base: Bytes, ref: Bytes): Bytes {
    RemoveDots(
      if ref == [] then base
      else if ref[0] == SLASH then ref
      else base[..LastSlash(base) + 1] + ref)
  }

  // ---- the base URL ----

  datatype BaseError = Unparsable | NotHttps | NoHost | HasCredentials | HasQuery | HasFragment

  /** An absolute URL, its path still as written. */
  datatype ParsedUrl = ParsedUrl(scheme: Bytes, host: Bytes, user: bool, path: Bytes, rawQuery: Bytes, fragment: Bytes)

  datatype Base = Base(host: Bytes, form: PathForm)

  const HTTPS: Bytes := Ascii("https")

  method ParseBaseUrl(parsed: ParsedUrl) returns (r: Result<Base, BaseError>)
    ensures r.Ok? <==> && parsed.scheme == HTTPS && parsed.host != [] && !parsed.user
                       && parsed.rawQuery == [] && parsed.fragment == [] && SetPath(parsed.path).Some?
    ensures r.Ok? ==> r.value.host == parsed.host && r.value.form == BaseForm(SetPath(parsed.path).value)
    ensures r == Err(Unparsable) <==> SetPath(parsed.path).None?
    ensures r == Err(NotHttps) <==> SetPath(parsed.path).Some? && parsed.scheme != HTTPS
    ensures r == Err(NoHost) <==> SetPath(parsed.path).Some? && parsed.scheme == HTTPS && parsed.host == []
    ensures r == Err(HasCredentials) <==>
              SetPath(parsed.path).Some? && parsed.scheme == HTTPS && parsed.host != [] && parsed.user
    ensures r == Err(HasQuery) <==>
              && SetPath(parsed.path).Some? && parsed.scheme == HTTPS && parsed.host != [] && !parsed.user
              && parsed.rawQuery != []
    ensures r == Err(HasFragment) <==>
              && SetPath(parsed.path).Some? && parsed.scheme == HTTPS && parsed.host != [] && !parsed.user
              && parsed.rawQuery == [] && parsed.fragment != []
  {
    var form := SetPath(parsed.path);
    if form.None? {
      return Err(Unparsable);
    }
    if parsed.scheme != HTTPS {
      return Err(NotHttps);
    }
    if parsed.host == [] {
      return Err(NoHost);
    }
    if parsed.user {
      return Err(HasCredentials);
    }
    if parsed.rawQuery != [] {
      return Err(HasQuery);
    }
    if parsed.fragment != [] {
      return Err(HasFragment);
    }
    var f := form.value;
    if f.path == [] || f.path[|f.path| - 1] != SLASH {
      f := f.(path := f.path + [SLASH]);
    }
    return Ok(Base(parsed.host, f));
  }

  function BaseForm(f: PathForm): PathForm {
    if f.path == [] || f.path[|f.path| - 1] != SLASH then f.(path := f.path + [SLASH]) else f
  }

  predicate EndsInSlash(s: Bytes) { s != [] && s[|s| - 1] == SLASH }

  // ---- references ----

  datatype EndpointError = EmptyEndpoint | BeginsWithSlash | NotAReference | EndpointFragment | Traversal

  datatype Reference = Reference(form: PathForm, rawQuery: Bytes, fragment: Bytes)

  datatype Resolved = Resolved(scheme: Bytes, host: Bytes, path: Bytes, rawQuery: Bytes)

  /** Whether a scheme, or a colon that stands where one should, begins `s`. */
  predicate HasScheme(s: Bytes, start: bool) {
    if s == [] then false
    else if IsLower(s[0]) || IsUpper(s[0]) then HasScheme(s[1..], false)
    else if IsDigit(s[0]) || s[0] in {0x2b, HYPHEN, DOT} then !start && HasScheme(s[1..], false)
    else s[0] == COLON
  }

  function Before(s: Bytes, sep: Byte): Bytes {
    match Cut(s, sep)
    case None => s
    case Some((before, _)) => before
  }

  function Behind(s: Bytes, sep: Byte): Bytes {
    match Cut(s, sep)
    case None => []
    case Some((_, after)) => after
  }

  predicate Control(b: Byte) { b < 0x20 || b == 0x7f }

  /** `url.Parse` of a text that does not begin with a slash, when the result has no
      scheme. None stands for a parse error or an absolute URL; both are rejected. */
  function ParseReference(raw: Bytes): Option<Reference> {
    var u := Before(raw, HASH);
    var p := Before(u, QUESTION);
    if (exists i :: 0 <= i < |u| && Control(u[i])) || HasScheme(u, true) || COLON in Before(p, SLASH) then None
    else if Unescape(Behind(raw, HASH)).None? then None
    else match SetPath(p)
      case None => None
      case Some(form) => Some(Reference(form, Behind(u, QUESTION), Behind(raw, HASH)))
  }

  /** What `resolveEndpoint` answers. */
  function Resolve(base: Base, raw: Bytes): Result<Resolved, EndpointError> {
    if raw == [] then Err(EmptyEndpoint)
    else if raw[0] == SLASH then Err(BeginsWithSlash)
    else match ParseReference(raw)
      case None => Err(NotAReference)
      case Some(ref) =>
        if ref.fragment != [] then Err(EndpointFragment)
        else if UP in Split(ref.form.path, SLASH) then Err(Traversal)
        else Ok(Resolved(HTTPS, base.host, ResolvePath(EscapedPath(base.form), EscapedPath(ref.form)), ref.rawQuery))
  }

  method ResolveEndpoint(base: Base, raw: Bytes) returns (r: Result<Resolved, EndpointError>)
    ensures r == Resolve(base, raw)
    ensures r.Ok? ==> r.value.scheme == HTTPS && r.value.host == base.host
  {
    if raw == [] {
      return Err(EmptyEndpoint);
    }
    if raw[0] == SLASH {
      return Err(BeginsWithSlash);
    }
    var reference := ParseReference(raw);
    if reference.None? {
      return Err(NotAReference);
    }
    var ref := reference.value;
    if ref.fragment != [] {
      return Err(EndpointFragment);
    }
    var segments := Split(ref.form.path, SLASH);
    for i := 0 to |segments|
      invariant UP !in segments[..i]
    {
      if segments[i] == UP {
        return Err(Traversal);
      }
    }
    assert segments[..|segments|] == segments;
    return Ok(Resolved(HTTPS, base.host, ResolvePath(EscapedPath(base.form), EscapedPath(ref.form)), ref.rawQuery));
  }
}
