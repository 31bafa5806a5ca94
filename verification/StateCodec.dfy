/** The state document on disk: the bytes `json.Encoder` writes for it and what
    `decodeStrict` reads back (JSON, RFC 8259). The decoder is a complete one for a flat
    object with these three fields: white space, any field order, repeated fields,
    escapes, case-folded names and null are all handled as `encoding/json` does. */
module StateCodec {
  import opened Text
  import opened Utf8
  import opened CodePoints

  datatype StateDocument = StateDocument(schemaVersion: int, nodeId: Bytes, agentToken: Bytes)

  const MIN_INT: int := -0x8000_0000_0000_0000
  const MAX_INT: int := 0x7fff_ffff_ffff_ffff

  const SCHEMA_KEY: Bytes := Ascii("schema_version")
  const NODE_KEY: Bytes := Ascii("node_id")
  const TOKEN_KEY: Bytes := Ascii("agent_token")

  const COMMA: Byte := 0x2c
  const OPEN: Byte := 0x7b
  const CLOSE: Byte := 0x7d

  // ---- strings, written ----

  function UnicodeEscape(hi: Byte, lo: Byte): Bytes {
    [BACKSLASH, 'u' as int,
     HexLower(hi / 16), HexLower(hi % 16), HexLower(lo / 16), HexLower(lo % 16)]
  }

  /** The escaped form of one ASCII byte, HTML escaping switched off. */
  function EscapeByte(b: Byte): Bytes {
    if b == QUOTE || b == BACKSLASH then [BACKSLASH, b]
    else if b == 8 then [BACKSLASH, 'b' as int]
    else if b == 12 then [BACKSLASH, 'f' as int]
    else if b == 10 then [BACKSLASH, 'n' as int]
    else if b == 13 then [BACKSLASH, 'r' as int]
    else if b == 9 then [BACKSLASH, 't' as int]
    else if b < 0x20 then UnicodeEscape(0, b)
    else [b]
  }

  /** U+2028 and U+2029, which are always escaped. */
  predicate LineSeparator(s: Bytes) {
    |s| >= 3 && s[0] == 0xE2 && s[1] == 0x80 && (s[2] == 0xA8 || s[2] == 0xA9)
  }

  /** The first piece of `s` that is escaped as one unit. */
  function PieceLen(s: Bytes): (n: nat)
    requires s != []
    ensures 0 < n <= |s|
  {
    if RuneLen(s) == 0 then 1 else RuneLen(s)
  }

  function EscapePiece(s: Bytes): Bytes
    requires s != []
  {
    if RuneLen(s) == 0 then UnicodeEscape(0xff, 0xfd)
    else if s[0] < 0x80 then EscapeByte(s[0])
    else if LineSeparator(s) then UnicodeEscape(0x20, 0x28 + s[2] - 0xA8)
    else s[..RuneLen(s)]
  }

  function Escape(s: Bytes): Bytes
    decreases |s|
  {
    if s == [] then [] else EscapePiece(s) + Escape(s[PieceLen(s)..])
  }

  function Quote(s: Bytes): Bytes {
    [QUOTE] + Escape(s) + [QUOTE]
  }

  /** What survives of a byte string: every bad byte is read back as U+FFFD. */
  function Scrub(s: Bytes): Bytes
    decreases |s|
  {
    if s == [] then []
    else PieceValue(s) + Scrub(s[PieceLen(s)..])
  }

  lemma {:induction false} ScrubValid(s: Bytes)
    requires Valid(s)
    ensures Scrub(s) == s
    decreases |s|
  {
    if s != [] {
      ScrubValid(s[RuneLen(s)..]);
      assert s == s[..RuneLen(s)] + s[RuneLen(s)..];
    }
  }

  // ---- strings, read ----

  /** The code unit of a `\uXXXX` at the head of `d`. */
  function CodeUnit(d: Bytes): (u: Option<nat>)
    ensures u.Some? ==> u.value < 0x1_0000
  {
    if |d| >= 6 && d[0] == BACKSLASH && d[1] == 'u' as int && (forall i :: 2 <= i < 6 ==> IsHex(d[i])) then
      Some(((Unhex(d[2]) * 16 + Unhex(d[3])) * 16 + Unhex(d[4])) * 16 + Unhex(d[5]))
    else None
  }

  /** One escape sequence: the bytes it stands for and its length. A surrogate that is
      not half of a pair stands for U+FFFD. */
  function ReadEscape(d: Bytes): (r: Option<(Bytes, nat)>)
    requires d != [] && d[0] == BACKSLASH
    ensures r.Some? ==> 2 <= r.value.1 <= |d|
  {
    if |d| < 2 then None
    else if d[1] == QUOTE || d[1] == BACKSLASH || d[1] == SLASH then Some(([d[1]], 2))
    else if d[1] == 'b' as int then Some(([8], 2))
    else if d[1] == 'f' as int then Some(([12], 2))
    else if d[1] == 'n' as int then Some(([10], 2))
    else if d[1] == 'r' as int then Some(([13], 2))
    else if d[1] == 't' as int then Some(([9], 2))
    else match CodeUnit(d)
      case None => None
      case Some(u) =>
        if !(0xD800 <= u < 0xE000) then Some((Utf8Of(u), 6))
        else match CodeUnit(d[6..])
          case None => Some((REPLACEMENT, 6))
          case Some(v) =>
            if u < 0xDC00 && 0xDC00 <= v < 0xE000
            then Some((Utf8Of(0x1_0000 + (u - 0xD800) * 0x400 + (v - 0xDC00)), 12))
            else Some((REPLACEMENT, 6))
  }

  /** The rest of a string literal whose opening quote has been read: its value, and
      what follows the closing quote. */
  function ReadString(d: Bytes): (r: Option<(Bytes, Bytes)>)
    ensures r.Some? ==> |r.value.1| < |d|
    decreases |d|
  {
    if d == [] then None
    else if d[0] == QUOTE then Some(([], d[1..]))
    else if d[0] == BACKSLASH then
      match ReadEscape(d)
      case None => None
      case Some((text, n)) => Prepend(text, ReadString(d[n..]))
    else if d[0] < 0x20 then None
    else if RuneLen(d) == 0 then Prepend(REPLACEMENT, ReadString(d[1..]))
    else Prepend(d[..RuneLen(d)], ReadString(d[RuneLen(d)..]))
  }

  function Prepend(text: Bytes, r: Option<(Bytes, Bytes)>): Option<(Bytes, Bytes)> {
    match r
    case None => None
    case Some((value, rest)) => Some((text + value, rest))
  }

  lemma ShortEscapeReads(letter: Byte, b: Byte, rest: Bytes)
    requires ReadEscape([BACKSLASH, letter] + rest) == Some(([b], 2))
    ensures ReadString([BACKSLASH, letter] + rest) == Prepend([b], ReadString(rest))
  {
    hide ReadEscape, Prepend;
    assert ([BACKSLASH, letter] + rest)[2..] == rest;
  }

  lemma OwnByteReads(b: Byte, rest: Bytes)
    requires 0x20 <= b < 0x80 && b != QUOTE && b != BACKSLASH
    ensures ReadString([b] + rest) == Prepend([b], ReadString(rest))
  {
    hide ReadEscape, Prepend;
    var d := [b] + rest;
    assert d[1..] == rest && d[..1] == [b];
  }

  lemma EscapedByteReads(b: Byte, rest: Bytes)
    requires b < 0x80
    ensures ReadString(EscapeByte(b) + rest) == Prepend([b], ReadString(rest))
  {
    hide ReadString, Prepend, UnicodeEscape, CodeUnit, Utf8Of;
    if b == QUOTE || b == BACKSLASH {
      ShortEscapeReads(b, b, rest);
    } else if b == 8 {
      ShortEscapeReads('b' as int, b, rest);
    } else if b == 12 {
      ShortEscapeReads('f' as int, b, rest);
    } else if b == 10 {
      ShortEscapeReads('n' as int, b, rest);
    } else if b == 13 {
      ShortEscapeReads('r' as int, b, rest);
    } else if b == 9 {
      ShortEscapeReads('t' as int, b, rest);
    } else if b < 0x20 {
      UnicodeEscapeReads(0, b, rest);
      BasicAscii(b);
    } else {
      OwnByteReads(b, rest);
    }
  }

  lemma BasicAscii(b: Byte)
    requires b < 0x80
    ensures Utf8Of(0 * 256 + b) == [b]
  {
  }

  lemma UnicodeEscapeReads(hi: Byte, lo: Byte, rest: Bytes)
    requires !(0xD8 <= hi < 0xE0)
    ensures ReadString(UnicodeEscape(hi, lo) + rest) == Prepend(Utf8Of(hi * 256 + lo), ReadString(rest))
  {
    var d := UnicodeEscape(hi, lo) + rest;
    assert d[6..] == rest;
    assert CodeUnit(d) == Some(hi * 256 + lo);
  }

  lemma SeparatorEncoding(third: Byte)
    requires third == 0xA8 || third == 0xA9
    ensures Utf8Of(0x20 * 256 + (0x28 + third - 0xA8)) == [0xE2, 0x80, third]
  {
  }

  lemma RuneReads(s: Bytes, rest: Bytes)
    requires RuneLen(s) > 0 && s[0] >= 0x80
    ensures ReadString(s[..RuneLen(s)] + rest) == Prepend(s[..RuneLen(s)], ReadString(rest))
  {
    var n := RuneLen(s);
    RuneLenAppend(s, rest);
    assert (s[..n] + rest)[n..] == rest && (s[..n] + rest)[..n] == s[..n];
  }

  function PieceValue(s: Bytes): Bytes
    requires s != []
  {
    if RuneLen(s) == 0 then REPLACEMENT else s[..RuneLen(s)]
  }

  /** Whatever one piece is written as, it reads back as that piece, or as U+FFFD if
      it was a bad byte. */
  lemma PieceReads(s: Bytes, rest: Bytes)
    requires s != []
    ensures ReadString(EscapePiece(s) + rest) == Prepend(PieceValue(s), ReadString(rest))
  {
    if RuneLen(s) == 0 {
      UnicodeEscapeReads(0xff, 0xfd, rest);
    } else if s[0] < 0x80 {
      assert s[..1] == [s[0]];
      EscapedByteReads(s[0], rest);
    } else if LineSeparator(s) {
      assert s[..3] == [0xE2, 0x80, s[2]];
      UnicodeEscapeReads(0x20, 0x28 + s[2] - 0xA8, rest);
      SeparatorEncoding(s[2]);
    } else {
      RuneReads(s, rest);
    }
  }

  lemma StringRoundTripStep(s: Bytes, rest: Bytes, escaped: Bytes)
    requires s != []
    ensures var tail := escaped + [QUOTE] + rest;
            ReadString(EscapePiece(s) + escaped + [QUOTE] + rest) == Prepend(PieceValue(s), ReadString(tail))
  {
    hide ReadString, EscapePiece, PieceValue;
    var tail := escaped + [QUOTE] + rest;
    PieceReads(s, tail);
    assert EscapePiece(s) + escaped + [QUOTE] + rest == EscapePiece(s) + tail;
  }

  /** Every byte string that is written as a JSON string reads back as itself, with its
      bad bytes turned into U+FFFD. */
  lemma {:induction false} StringRoundTrip(s: Bytes, rest: Bytes)
    ensures ReadString(Escape(s) + [QUOTE] + rest) == Some((Scrub(s), rest))
    decreases |s|
  {
    if s == [] {
      assert ([] + [QUOTE] + rest)[1..] == rest;
    } else {
      StringRoundTripStep(s, rest, Escape(s[PieceLen(s)..]));
      StringRoundTrip(s[PieceLen(s)..], rest);
    }
  }

  // ---- integers ----

  function Digits(n: nat): (d: Bytes)
    ensures d != [] && forall i :: 0 <= i < |d| ==> IsDigit(d[i])
    ensures n > 0 ==> d[0] != '0' as int
  {
    if n < 10 then ['0' as int + n] else Digits(n / 10) + ['0' as int + n % 10]
  }

  function Itoa(n: int): Bytes {
    if n < 0 then [HYPHEN] + Digits(-n) else Digits(n)
  }

  function DigitCount(d: Bytes): (k: nat)
    ensures k <= |d|
    ensures forall i :: 0 <= i < k ==> IsDigit(d[i])
    ensures k < |d| ==> !IsDigit(d[k])
  {
    if d == [] || !IsDigit(d[0]) then 0 else 1 + DigitCount(d[1..])
  }

  function DigitValue(d: Bytes): nat
    requires forall i :: 0 <= i < |d| ==> IsDigit(d[i])
  {
    if d == [] then 0
    else
      assert IsDigit(d[|d| - 1]);
      var digit: int := d[|d| - 1] - '0' as int;
      DigitValue(d[..|d| - 1]) * 10 + digit
  }

  /** A JSON integer without leading zeros, in the range of a 64-bit int. */
  function ReadInt(d: Bytes): (r: Option<(int, Bytes)>)
    ensures r.Some? ==> |r.value.1| < |d|
  {
    var negative := d != [] && d[0] == HYPHEN;
    var body := if negative then d[1..] else d;
    var k := DigitCount(body);
    if k == 0 || (k > 1 && body[0] == '0' as int) then None
    else
      var magnitude: int := DigitValue(body[..k]);
      var n := if negative then -magnitude else magnitude;
      if MIN_INT <= n <= MAX_INT then Some((n, body[k..])) else None
  }

  lemma {:induction false} DigitsValue(n: nat)
    ensures DigitValue(Digits(n)) == n
  {
    if n >= 10 {
      DigitsValue(n / 10);
      assert Digits(n)[..|Digits(n)| - 1] == Digits(n / 10);
    }
  }

  lemma {:induction false} DigitsLeadingZero(n: nat)
    ensures Digits(n)[0] == '0' as int ==> |Digits(n)| == 1
  {
  }

  lemma {:induction false} DigitCountAppend(d: Bytes, rest: Bytes)
    requires forall i :: 0 <= i < |d| ==> IsDigit(d[i])
    requires rest == [] || !IsDigit(rest[0])
    ensures DigitCount(d + rest) == |d|
  {
    if d == [] {
      assert [] + rest == rest;
    } else {
      assert (d + rest)[1..] == d[1..] + rest;
      DigitCountAppend(d[1..], rest);
    }
  }

  /** A digit string of its own: where it stops, what it is worth. */
  lemma DigitsRead(m: nat, rest: Bytes)
    requires rest == [] || !IsDigit(rest[0])
    ensures var body := Digits(m) + rest;
            var k := DigitCount(body);
            && k == |Digits(m)| && body[..k] == Digits(m) && body[k..] == rest
            && DigitValue(body[..k]) == m
            && !(k > 1 && body[0] == '0' as int)
  {
    DigitsValue(m);
    DigitsLeadingZero(m);
    DigitCountAppend(Digits(m), rest);
    var body := Digits(m) + rest;
    assert body[..|Digits(m)|] == Digits(m) && body[|Digits(m)|..] == rest;
  }

  lemma IntRoundTrip(n: int, rest: Bytes)
    requires MIN_INT <= n <= MAX_INT
    requires rest == [] || !IsDigit(rest[0])
    ensures ReadInt(Itoa(n) + rest) == Some((n, rest))
  {
    hide DigitCount, DigitValue, Digits;
    var m := if n < 0 then -n else n;
    var body := Digits(m) + rest;
    DigitsRead(m, rest);
    assert IsDigit(body[0]);
    if n < 0 {
      assert Itoa(n) + rest == [HYPHEN] + body;
      assert ([HYPHEN] + body)[1..] == body;
    } else {
      assert Itoa(n) + rest == body;
    }
  }

  // ---- the object ----

  predicate JsonSpace(b: Byte) { b == SPACE || b == 9 || b == 10 || b == 13 }

  function SkipSpace(d: Bytes): (r: Bytes)
    ensures |r| <= |d|
    ensures r != [] ==> !JsonSpace(r[0])
  {
    if d != [] && JsonSpace(d[0]) then SkipSpace(d[1..]) else d
  }

  datatype Json = JsonNull | JsonInt(n: int) | JsonString(s: Bytes)

  /** A value a field of this document can take. Anything else, nested values included,
      ends in an error whichever field it is given to. */
  function ReadValue(d: Bytes): (r: Option<(Json, Bytes)>)
    ensures r.Some? ==> |r.value.1| < |d|
  {
    if d == [] then None
    else if d[0] == QUOTE then
      match ReadString(d[1..])
      case None => None
      case Some((s, rest)) => Some((JsonString(s), rest))
    else if Ascii("null") <= d then Some((JsonNull, d[4..]))
    else match ReadInt(d)
      case None => None
      case Some((n, rest)) => Some((JsonInt(n), rest))
  }

  /** Whether a key names a field: `encoding/json` folds case, and under that folding
      U+017F is an S and U+212A is a K. */
  predicate FoldsTo(key: Bytes, name: Bytes) {
    if name == [] then key == []
    else
      || (key != [] && Upper(key[0]) == Upper(name[0]) && FoldsTo(key[1..], name[1..]))
      || ([0xC5, 0xBF] <= key && Upper(name[0]) == 'S' as int && FoldsTo(key[2..], name[1..]))
      || ([0xE2, 0x84, 0xAA] <= key && Upper(name[0]) == 'K' as int && FoldsTo(key[3..], name[1..]))
  }

  lemma {:induction false} FoldsToItself(name: Bytes)
    ensures FoldsTo(name, name)
  {
    if name != [] {
      FoldsToItself(name[1..]);
    }
  }

  /** One field; an unknown field or a value of the wrong type is an error. */
  function Assign(doc: StateDocument, key: Bytes, value: Json): Option<StateDocument> {
    if FoldsTo(key, SCHEMA_KEY) then
      match value
      case JsonNull => Some(doc)
      case JsonInt(n) => Some(doc.(schemaVersion := n))
      case JsonString(_) => None
    else if FoldsTo(key, NODE_KEY) then
      match value
      case JsonNull => Some(doc)
      case JsonInt(_) => None
      case JsonString(s) => Some(doc.(nodeId := s))
    else if FoldsTo(key, TOKEN_KEY) then
      match value
      case JsonNull => Some(doc)
      case JsonInt(_) => None
      case JsonString(s) => Some(doc.(agentToken := s))
    else None
  }

  /** One member: its key, its value, and what follows. */
  function ReadMember(d: Bytes): (r: Option<(Bytes, Json, Bytes)>)
    ensures r.Some? ==> |r.value.2| < |d|
  {
    if d == [] || d[0] != QUOTE then None
    else match ReadString(d[1..])
      case None => None
      case Some((key, afterKey)) =>
        var colon := SkipSpace(afterKey);
        if colon == [] || colon[0] != COLON then None
        else match ReadValue(SkipSpace(colon[1..]))
          case None => None
          case Some((value, rest)) => Some((key, value, rest))
  }

  /** The members of an object from a key on, and then the end of the input. */
  function ReadMembers(d: Bytes, doc: StateDocument): Option<StateDocument>
    decreases |d|
  {
    match ReadMember(d)
    case None => None
    case Some((key, value, rest)) =>
      match Assign(doc, key, value)
      case None => None
      case Some(next) =>
        var end := SkipSpace(rest);
        if end == [] then None
        else if end[0] == COMMA then ReadMembers(SkipSpace(end[1..]), next)
        else if end[0] == CLOSE && SkipSpace(end[1..]) == [] then Some(next)
        else None
  }

  const ZERO_DOCUMENT := StateDocument(0, [], [])

  /** `decodeStrict` into an empty state document. */
  function Decode(data: Bytes): Option<StateDocument> {
    var d := SkipSpace(data);
    if Ascii("null") <= d && SkipSpace(d[4..]) == [] then Some(ZERO_DOCUMENT)
    else if d == [] || d[0] != OPEN then None
    else
      var first := SkipSpace(d[1..]);
      if first != [] && first[0] == CLOSE then
        if SkipSpace(first[1..]) == [] then Some(ZERO_DOCUMENT) else None
      else ReadMembers(first, ZERO_DOCUMENT)
  }

  // ---- the document, written ----

  function Member(key: Bytes, value: Bytes): Bytes {
    Quote(key) + ([COLON] + value)
  }

  function TokenPart(doc: StateDocument): Bytes {
    Member(TOKEN_KEY, Quote(doc.agentToken)) + [CLOSE, NEWLINE]
  }

  function NodePart(doc: StateDocument): Bytes {
    Member(NODE_KEY, Quote(doc.nodeId)) + ([COMMA] + TokenPart(doc))
  }

  function SchemaPart(doc: StateDocument): Bytes {
    Member(SCHEMA_KEY, Itoa(doc.schemaVersion)) + ([COMMA] + NodePart(doc))
  }

  /** What `Encode` writes, newline included. */
  function Encode(doc: StateDocument): Bytes {
    [OPEN] + SchemaPart(doc)
  }

  lemma AfterQuote(body: Bytes, rest: Bytes)
    ensures ([QUOTE] + body + [QUOTE] + rest)[1..] == body + [QUOTE] + rest
  {
  }

  lemma QuoteReads(s: Bytes, rest: Bytes)
    requires Valid(s)
    ensures (Quote(s) + rest)[0] == QUOTE
    ensures ReadString((Quote(s) + rest)[1..]) == Some((s, rest))
  {
    StringRoundTrip(s, rest);
    ScrubValid(s);
    AfterQuote(Escape(s), rest);
  }

  lemma ReadMemberSteps(d: Bytes, key: Bytes, afterKey: Bytes, json: Json, rest: Bytes)
    requires d != [] && d[0] == QUOTE && ReadString(d[1..]) == Some((key, afterKey))
    requires afterKey != [] && afterKey[0] == COLON
    requires afterKey[1..] != [] && !JsonSpace(afterKey[1])
    requires ReadValue(afterKey[1..]) == Some((json, rest))
    ensures ReadMember(d) == Some((key, json, rest))
  {
    assert SkipSpace(afterKey) == afterKey;
    assert afterKey[1..][0] == afterKey[1];
    assert SkipSpace(afterKey[1..]) == afterKey[1..];
  }

  /** One member: its key, then its value, then whatever follows. */
  lemma MemberReads(key: Bytes, value: Bytes, rest: Bytes, json: Json)
    requires Valid(key)
    requires value != [] && !JsonSpace(value[0])
    requires ReadValue(value + rest) == Some((json, rest))
    ensures (Member(key, value) + rest)[0] == QUOTE
    ensures ReadMember(Member(key, value) + rest) == Some((key, json, rest))
  {
    var tail := value + rest;
    var afterKey := [COLON] + tail;
    var quoted := Quote(key);
    assert Member(key, value) + rest == quoted + afterKey;
    QuoteReads(key, afterKey);
    assert afterKey[1..] == tail && tail[0] == value[0] && afterKey[1] == tail[0];
    ReadMemberSteps(quoted + afterKey, key, afterKey, json, rest);
  }

  lemma StringValueReads(s: Bytes, rest: Bytes)
    requires Valid(s)
    ensures ReadValue(Quote(s) + rest) == Some((JsonString(s), rest))
    ensures Quote(s) != [] && !JsonSpace(Quote(s)[0])
  {
    QuoteReads(s, rest);
  }

  lemma IntValueReads(n: int, rest: Bytes)
    requires MIN_INT <= n <= MAX_INT
    requires rest == [] || !IsDigit(rest[0])
    ensures ReadValue(Itoa(n) + rest) == Some((JsonInt(n), rest))
    ensures Itoa(n) != [] && !JsonSpace(Itoa(n)[0])
  {
    IntRoundTrip(n, rest);
    assert (Itoa(n) + rest)[0] == Itoa(n)[0];
    assert IsDigit(Itoa(n)[0]) || Itoa(n)[0] == HYPHEN;
  }

  lemma KeysDiffer(key: Bytes, name: Bytes)
    requires key != [] && name != []
    requires IsLower(key[0]) && IsLower(name[0]) && key[0] != name[0]
    ensures !FoldsTo(key, name)
  {
  }

  lemma KeyValid(s: string)
    requires forall i :: 0 <= i < |s| ==> s[i] as int < 128
    ensures Valid(Ascii(s))
  {
    AsciiValid(Ascii(s));
  }

  lemma AssignSchema(doc: StateDocument, n: int)
    ensures Assign(doc, SCHEMA_KEY, JsonInt(n)) == Some(doc.(schemaVersion := n))
  {
    FoldsToItself(SCHEMA_KEY);
  }

  lemma AssignNode(doc: StateDocument, s: Bytes)
    ensures Assign(doc, NODE_KEY, JsonString(s)) == Some(doc.(nodeId := s))
  {
    KeysDiffer(NODE_KEY, SCHEMA_KEY);
    FoldsToItself(NODE_KEY);
  }

  lemma AssignToken(doc: StateDocument, s: Bytes)
    ensures Assign(doc, TOKEN_KEY, JsonString(s)) == Some(doc.(agentToken := s))
  {
    KeysDiffer(TOKEN_KEY, SCHEMA_KEY);
    KeysDiffer(TOKEN_KEY, NODE_KEY);
    FoldsToItself(TOKEN_KEY);
  }

  /** A member that is followed by another one. */
  lemma InnerMemberReads(key: Bytes, value: Bytes, json: Json, more: Bytes, doc: StateDocument, next: StateDocument)
    requires Valid(key) && value != [] && !JsonSpace(value[0])
    requires ReadValue(value + ([COMMA] + more)) == Some((json, [COMMA] + more))
    requires Assign(doc, key, json) == Some(next)
    requires more != [] && more[0] == QUOTE
    ensures var d := Member(key, value) + ([COMMA] + more);
            d[0] == QUOTE && ReadMembers(d, doc) == ReadMembers(more, next)
  {
    hide ReadMember, ReadValue, Member, Assign, Valid;
    var rest := [COMMA] + more;
    MemberReads(key, value, rest, json);
    assert rest[1..] == more && SkipSpace(rest) == rest && SkipSpace(more) == more;
  }

  /** The last member. */
  lemma LastMemberReads(key: Bytes, value: Bytes, json: Json, doc: StateDocument, next: StateDocument)
    requires Valid(key) && value != [] && !JsonSpace(value[0])
    requires ReadValue(value + [CLOSE, NEWLINE]) == Some((json, [CLOSE, NEWLINE]))
    requires Assign(doc, key, json) == Some(next)
    ensures var d := Member(key, value) + [CLOSE, NEWLINE];
            d[0] == QUOTE && ReadMembers(d, doc) == Some(next)
  {
    hide ReadMember, ReadValue, Member, Assign, Valid;
    var rest := [CLOSE, NEWLINE];
    MemberReads(key, value, rest, json);
    assert rest[1..] == [NEWLINE] && SkipSpace(rest) == rest && SkipSpace([NEWLINE]) == [];
  }

  lemma TokenPartReads(doc: StateDocument)
    requires Valid(doc.agentToken)
    ensures TokenPart(doc)[0] == QUOTE
    ensures ReadMembers(TokenPart(doc), doc.(agentToken := [])) == Some(doc)
  {
    hide ReadMembers, ReadValue, Quote, Assign, Member, Valid, Ascii;
    var before := doc.(agentToken := []);
    KeyValid("agent_token");
    StringValueReads(doc.agentToken, [CLOSE, NEWLINE]);
    AssignToken(before, doc.agentToken);
    LastMemberReads(TOKEN_KEY, Quote(doc.agentToken), JsonString(doc.agentToken), before, doc);
  }

  lemma NodePartReads(doc: StateDocument)
    requires Valid(doc.nodeId) && Valid(doc.agentToken)
    ensures NodePart(doc)[0] == QUOTE
    ensures ReadMembers(NodePart(doc), doc.(nodeId := [], agentToken := [])) == Some(doc)
  {
    hide ReadMembers, ReadValue, Quote, Assign, Member, Valid, Ascii;
    var before, next := doc.(nodeId := [], agentToken := []), doc.(agentToken := []);
    KeyValid("node_id");
    TokenPartReads(doc);
    StringValueReads(doc.nodeId, [COMMA] + TokenPart(doc));
    AssignNode(before, doc.nodeId);
    InnerMemberReads(NODE_KEY, Quote(doc.nodeId), JsonString(doc.nodeId), TokenPart(doc), before, next);
  }

  lemma SchemaPartReads(doc: StateDocument)
    requires MIN_INT <= doc.schemaVersion <= MAX_INT && Valid(doc.nodeId) && Valid(doc.agentToken)
    ensures SchemaPart(doc)[0] == QUOTE
    ensures ReadMembers(SchemaPart(doc), ZERO_DOCUMENT) == Some(doc)
  {
    hide ReadMembers, ReadValue, Itoa, Assign, Member, Valid, Ascii;
    var next := doc.(nodeId := [], agentToken := []);
    KeyValid("schema_version");
    NodePartReads(doc);
    IntValueReads(doc.schemaVersion, [COMMA] + NodePart(doc));
    AssignSchema(ZERO_DOCUMENT, doc.schemaVersion);
    InnerMemberReads(SCHEMA_KEY, Itoa(doc.schemaVersion), JsonInt(doc.schemaVersion), NodePart(doc),
                     ZERO_DOCUMENT, next);
  }

  lemma ObjectReads(members: Bytes)
    requires members != [] && members[0] == QUOTE
    ensures Decode([OPEN] + members) == ReadMembers(members, ZERO_DOCUMENT)
  {
    var d := [OPEN] + members;
    assert d[1..] == members && SkipSpace(members) == members && SkipSpace(d) == d;
    assert Ascii("null")[0] != OPEN;
  }

  /** Strict decoding undoes encoding, for every 64-bit schema version and every pair of
      valid UTF-8 strings, quotes, backslashes and control characters included. */
  lemma DocumentRoundTrip(doc: StateDocument)
    requires MIN_INT <= doc.schemaVersion <= MAX_INT && Valid(doc.nodeId) && Valid(doc.agentToken)
    ensures Decode(Encode(doc)) == Some(doc)
  {
    SchemaPartReads(doc);
    ObjectReads(SchemaPart(doc));
  }
}
