/** Strict decoding accepts exactly the texts of `JsonText` and answers what they mean: what
    follows for unknown fields, wrong types and trailing text, and what the encoder writes. */
module StateTexts {
  import opened Text
  import opened StateCodec
  import opened JsonStrings
  import opened JsonText
  import Utf8
  import CoreClient

  // ---- nothing else is accepted ----

  /** The digits that `ReadInt` takes. */
  lemma ReadIntShape(d: Bytes, negative: bool, body: Bytes)
    requires ReadInt(d).Some?
    requires negative == (d != [] && d[0] == HYPHEN) && body == (if negative then d[1..] else d)
    ensures ValueOk(Number(negative, body[..DigitCount(body)]))
    ensures d != [] && body == body[..DigitCount(body)] + ReadInt(d).value.1
  {
    hide DigitValue, DigitCount;
  }

  lemma ReadIntIs(d: Bytes) returns (v: Value)
    requires ReadInt(d).Some?
    ensures v.Number? && ValueOk(v) && d == ValueText(v) + ReadInt(d).value.1
  {
    hide DigitCount, ReadInt, ValueOk, ValueText;
    var negative := d != [] && d[0] == HYPHEN;
    var body := if negative then d[1..] else d;
    ReadIntShape(d, negative, body);
    v := Number(negative, body[..DigitCount(body)]);
    NumberWritten(d, v, ReadInt(d).value.1);
  }

  lemma NumberWritten(d: Bytes, v: Value, rest: Bytes)
    requires v.Number?
    requires d != [] && (if v.negative then d[0] == HYPHEN && d[1..] == v.digits + rest else d == v.digits + rest)
    ensures d == ValueText(v) + rest
  {
    assert d == [d[0]] + d[1..];
  }

  lemma ReadValueIs(d: Bytes) returns (v: Value)
    requires ReadValue(d).Some?
    ensures ValueOk(v) && d == ValueText(v) + ReadValue(d).value.1
  {
    hide ReadInt, ReadString, Inner, LiteralOk;
    if d[0] == QUOTE {
      var l := ReadIsLiteral(d[1..]);
      v := Chars(l);
      assert d == [QUOTE] + d[1..];
    } else if Ascii("null") <= d {
      v := Null;
    } else {
      v := ReadIntIs(d);
    }
  }

  lemma ReadMemberIs(d: Bytes) returns (e: Entry)
    requires ReadMember(d).Some?
    ensures EntryOk(e) && e.lead == [] && e.trail == []
    ensures d == CoreText(e) + ReadMember(d).value.2
  {
    hide ReadString, ReadValue, Inner, LiteralOk, ValueOk, ValueText;
    var key := ReadIsLiteral(d[1..]);
    var afterKey := ReadString(d[1..]).value.1;
    var before := GapOf(afterKey);
    var colon := SkipSpace(afterKey);
    var after := GapOf(colon[1..]);
    var value := ReadValueIs(SkipSpace(colon[1..]));
    var rest := ReadMember(d).value.2;
    e := Entry([], key, before, after, value, []);
    MemberJoined(d, e, colon, rest);
  }

  lemma MemberJoined(d: Bytes, e: Entry, colon: Bytes, rest: Bytes)
    requires d != [] && d[0] == QUOTE && d[1..] == Inner(e.key) + (e.before + colon)
    requires colon != [] && colon[0] == COLON && colon[1..] == e.after + (ValueText(e.value) + rest)
    ensures d == CoreText(e) + rest
  {
    hide Inner, ValueText;
    assert colon == [COLON] + (e.after + (ValueText(e.value) + rest));
    assert d == [QUOTE] + (Inner(e.key) + (e.before + colon));
  }

  /** The gap in front of the first member. */
  function Led(entries: seq<Entry>, gap: Bytes): seq<Entry>
    requires entries != []
  {
    [entries[0].(lead := gap)] + entries[1..]
  }

  lemma LedText(entries: seq<Entry>, gap: Bytes)
    requires entries != [] && entries[0].lead == [] && EntriesOk(entries) && Gap(gap)
    ensures EntriesText(Led(entries, gap)) == gap + EntriesText(entries) && EntriesOk(Led(entries, gap))
  {
    hide CoreText, LiteralOk, ValueOk, Gap;
    var led := Led(entries, gap);
    assert led[1..] == entries[1..];
    assert CoreText(led[0]) == CoreText(entries[0]) by { CoreUnled(entries[0], gap); }
    assert EntryText(entries[0]) == CoreText(entries[0]) + entries[0].trail;
    assert EntryText(led[0]) == gap + EntryText(entries[0]);
  }

  /** The part of a list of members from here to the closing brace, and what is behind it. */
  predicate Reached(d: Bytes, entries: seq<Entry>, tail: Bytes) {
    && entries != [] && EntriesOk(entries) && entries[0].lead == []
    && d == EntriesText(entries) + ([CLOSE] + tail)
  }

  lemma OneReached(d: Bytes, e: Entry, trail: Bytes, end: Bytes)
    requires EntryOk(e) && e.lead == [] && e.trail == [] && Gap(trail)
    requires d == CoreText(e) + (trail + end) && end != [] && end[0] == CLOSE
    ensures Reached(d, [e.(trail := trail)], end[1..])
  {
    hide CoreText, LiteralOk, ValueOk, Gap;
    var e' := e.(trail := trail);
    assert CoreText(e') == CoreText(e) by { CoreUntrailed(e, trail); }
    assert EntriesText([e']) == CoreText(e) + trail;
    assert end == [CLOSE] + end[1..];
  }

  lemma MoreReached(d: Bytes, e: Entry, trail: Bytes, end: Bytes, gap: Bytes, entries: seq<Entry>, tail: Bytes)
    requires EntryOk(e) && e.lead == [] && e.trail == [] && Gap(trail) && Gap(gap)
    requires d == CoreText(e) + (trail + end) && end != [] && end[0] == COMMA
    requires entries != [] && EntriesOk(entries) && entries[0].lead == []
    requires end[1..] == gap + (EntriesText(entries) + ([CLOSE] + tail))
    ensures Reached(d, [e.(trail := trail)] + Led(entries, gap), tail)
  {
    hide CoreText, LiteralOk, ValueOk, Gap, EntriesText;
    var e' := e.(trail := trail);
    LedText(entries, gap);
    assert CoreText(e') == CoreText(e) by { CoreUntrailed(e, trail); }
    assert EntryText(e') == CoreText(e) + trail;
    FirstOf(e', Led(entries, gap));
    assert end == [COMMA] + end[1..];
    Assembled(CoreText(e), trail, gap, EntriesText(entries), [CLOSE] + tail);
  }

  lemma Assembled(core: Bytes, trail: Bytes, gap: Bytes, text: Bytes, tail: Bytes)
    ensures core + (trail + ([COMMA] + (gap + (text + tail)))) == core + trail + ([COMMA] + (gap + text)) + tail
  {
    Regrouped(gap, text, tail);
    Regrouped(core, trail, [COMMA] + (gap + (text + tail)));
    assert [COMMA] + (gap + text + tail) == [COMMA] + (gap + text) + tail;
    Regrouped(core + trail, [COMMA] + (gap + text), tail);
  }

  lemma FirstOf(e: Entry, entries: seq<Entry>)
    requires entries != []
    ensures EntriesText([e] + entries) == EntryText(e) + ([COMMA] + EntriesText(entries))
  {
    assert ([e] + entries)[1..] == entries;
  }

  lemma CoreUnled(e: Entry, gap: Bytes)
    ensures CoreText(e.(lead := gap)) == CoreText(e)
  {
  }

  lemma CoreUntrailed(e: Entry, trail: Bytes)
    ensures CoreText(e.(trail := trail)) == CoreText(e)
  {
  }

  lemma {:induction false} ReadMembersIs(d: Bytes, doc: StateDocument) returns (entries: seq<Entry>, tail: Bytes)
    requires ReadMembers(d, doc).Some?
    ensures Reached(d, entries, tail) && Gap(tail)
    decreases |d|
  {
    hide ReadMember, Assign, CoreText, EntryOk, Reached, Gap, EntriesText;
    var e := ReadMemberIs(d);
    var (key, value, rest) := ReadMember(d).value;
    var next := Assign(doc, key, value).value;
    var trail := GapOf(rest);
    var end := SkipSpace(rest);
    if end[0] == COMMA {
      var gap := GapOf(end[1..]);
      entries, tail := ReadMembersIs(SkipSpace(end[1..]), next);
      ReachedIs(SkipSpace(end[1..]), entries, tail);
      MoreReached(d, e, trail, end, gap, entries, tail);
      entries := [e.(trail := trail)] + Led(entries, gap);
    } else {
      GapIff(end[1..]);
      OneReached(d, e, trail, end);
      entries, tail := [e.(trail := trail)], end[1..];
    }
  }

  lemma ReachedIs(d: Bytes, entries: seq<Entry>, tail: Bytes)
    requires Reached(d, entries, tail)
    ensures entries != [] && EntriesOk(entries) && entries[0].lead == []
    ensures d == EntriesText(entries) + ([CLOSE] + tail)
  {
  }

  /** An empty object, or one with members. */
  lemma ObjectIs(lead: Bytes, gap: Bytes, first: Bytes) returns (s: Source, tail: Bytes)
    requires Gap(lead) && Gap(gap)
    requires if first != [] && first[0] == CLOSE then SkipSpace(first[1..]) == []
             else ReadMembers(first, ZERO_DOCUMENT).Some?
    ensures SourceOk(s) && Gap(tail) && lead + ([OPEN] + (gap + first)) == SourceText(s) + tail
  {
    hide ReadMembers, EntriesOk, EntriesText, Reached, Gap;
    if first != [] && first[0] == CLOSE {
      GapIff(first[1..]);
      s, tail := Object(lead, gap, []), first[1..];
      assert EntriesOk([]) by { NoEntries(); }
      assert first == [CLOSE] + tail;
      SourceSplits(lead, gap, tail);
    } else {
      var entries, behind := ReadMembersIs(first, ZERO_DOCUMENT);
      ReachedIs(first, entries, behind);
      LedText(entries, gap);
      s, tail := Object(lead, [], Led(entries, gap)), behind;
      assert Gap([]) by { NoGap(); }
      SourceSplits(lead, EntriesText(Led(entries, gap)), tail);
      Regrouped(gap, EntriesText(entries), [CLOSE] + tail);
    }
  }

  lemma NoGap()
    ensures Gap([])
  {
  }

  lemma DecodeIs(data: Bytes) returns (s: Source, tail: Bytes)
    requires Decode(data).Some?
    ensures SourceOk(s) && Gap(tail) && data == SourceText(s) + tail
  {
    hide ReadMembers, EntriesOk, EntriesText, Ascii, Gap;
    var lead := GapOf(data);
    var d := SkipSpace(data);
    NullText();
    if Ascii("null") <= d && SkipSpace(d[4..]) == [] {
      GapIff(d[4..]);
      s, tail := Nothing(lead), d[4..];
      assert d == Ascii("null") + d[4..];
      Regrouped(lead, Ascii("null"), tail);
    } else {
      hide SourceOk, SourceText;
      var gap := GapOf(d[1..]);
      s, tail := ObjectIs(lead, gap, SkipSpace(d[1..]));
      assert d == [OPEN] + (gap + SkipSpace(d[1..]));
    }
  }

  lemma NoEntries()
    ensures EntriesOk([])
  {
  }

  // ---- the decoder, exactly ----

  /** `data` is a source all of whose members fit, with white space behind it, and it means
      `doc`. */
  ghost predicate Denotes(data: Bytes, doc: StateDocument) {
    exists s, tail :: SourceIs(data, s, tail) && AllFit(Entries(s)) && Gap(tail) && Means(Entries(s), doc)
  }

  predicate SourceIs(data: Bytes, s: Source, tail: Bytes) {
    SourceOk(s) && EntriesOk(Entries(s)) && data == SourceText(s) + tail
  }

  /** Strict decoding answers exactly what the text means, for every text: members in any
      order and repeated, keys in any case, escapes, null; and it refuses every other text. */
  lemma DecodeIff(data: Bytes, doc: StateDocument)
    ensures Decode(data) == Some(doc) <==> Denotes(data, doc)
  {
    hide Decode, SourceOk, EntriesOk, AllFit, Gap, Means, SourceText, Entries;
    if Decode(data) == Some(doc) {
      var s, tail := DecodeIs(data);
      SourceReads(s, tail);
      assert SourceIs(data, s, tail);
    }
    if Denotes(data, doc) {
      var s, tail :| SourceIs(data, s, tail) && AllFit(Entries(s)) && Gap(tail) && Means(Entries(s), doc);
      SourceReads(s, tail);
      MeansOnce(Entries(s), Decode(data).value, doc);
    }
  }

  predicate Known(e: Entry)
    requires EntryOk(e)
  {
    Names(e, "schema_version") || Names(e, "node_id") || Names(e, "agent_token")
  }

  /** One member with an unknown name, or with a value of the wrong type, wherever it stands
      and whatever stands around it, is enough to refuse the document. */
  lemma MisfitRefused(s: Source, tail: Bytes, i: nat)
    requires SourceOk(s) && s.Object? && i < |s.entries|
    requires var e := s.entries[i];
             || !Known(e)
             || (Names(e, "schema_version") && e.value.Chars?)
             || ((Names(e, "node_id") || Names(e, "agent_token")) && e.value.Number?)
    ensures Decode(SourceText(s) + tail) == None
  {
    hide EntryOk, Decode, SourceText, Means, Gap, Folded, LiteralValue;
    SourceReads(s, tail);
    KeysAre();
    assert !Fits(s.entries[i]);
  }

  /** Only white space may follow what is accepted. */
  lemma TrailingText(data: Bytes, tail: Bytes)
    requires Decode(data).Some?
    ensures Decode(data + tail) == if Gap(tail) then Decode(data) else None
  {
    hide Decode, SourceOk, EntriesOk, AllFit, Means, SourceText, Entries, Gap;
    var s, behind := DecodeIs(data);
    assert data + tail == SourceText(s) + (behind + tail);
    SourceReads(s, behind);
    SourceReads(s, behind + tail);
    GapJoined(behind, tail);
    if Gap(tail) {
      MeansOnce(Entries(s), Decode(data).value, Decode(data + tail).value);
    }
  }

  lemma GapJoined(a: Bytes, b: Bytes)
    requires Gap(a)
    ensures Gap(a + b) <==> Gap(b)
  {
    if Gap(a + b) {
      assert forall i :: 0 <= i < |b| ==> (a + b)[|a| + i] == b[i];
    }
  }

  /** The file written for a document, with anything behind it. */
  lemma EncodedWithTail(doc: StateDocument, tail: Bytes)
    requires MIN_INT <= doc.schemaVersion <= MAX_INT && Utf8.Valid(doc.nodeId) && Utf8.Valid(doc.agentToken)
    ensures Decode(Encode(doc) + tail) == if Gap(tail) then Some(doc) else None
  {
    hide Decode, Encode, Gap;
    DocumentRoundTrip(doc);
    TrailingText(Encode(doc), tail);
  }

  // ---- the encoder, exactly ----

  /** A backslash goes in front of each quote and each backslash. */
  function Backslashed(s: Bytes): Bytes {
    if s == [] then []
    else (if s[0] == QUOTE || s[0] == BACKSLASH then [BACKSLASH, s[0]] else [s[0]]) + Backslashed(s[1..])
  }

  lemma {:induction false} EscapeVisible(s: Bytes)
    requires forall i :: 0 <= i < |s| ==> 0x21 <= s[i] <= 0x7e
    ensures Escape(s) == Backslashed(s)
    ensures QUOTE !in s && BACKSLASH !in s ==> Escape(s) == s
  {
    hide UnicodeEscape;
    if s != [] {
      assert PieceLen(s) == 1 && s == [s[0]] + s[1..];
      EscapeVisible(s[1..]);
    }
  }

  function InQuotes(s: Bytes): Bytes { [QUOTE] + s + [QUOTE] }

  function Field(name: string, value: Bytes): Bytes { InQuotes(Ascii(name)) + ([COLON] + value) }

  lemma FieldIs(key: Bytes, name: string, value: Bytes)
    requires FieldName(key) && key == Ascii(name)
    ensures Member(key, value) == Field(name, value)
  {
    EscapeVisible(key);
  }

  /** What is written for a document of schema 1 with a node ID and a bearer. */
  lemma EncodedText(doc: StateDocument)
    requires doc.schemaVersion == 1
    requires CoreClient.ValidNodeId(doc.nodeId) && CoreClient.ValidBearer(doc.agentToken)
    ensures Encode(doc) ==
            [OPEN] + (Field("schema_version", ['1' as int])
            + ([COMMA] + (Field("node_id", InQuotes(doc.nodeId))
            + ([COMMA] + (Field("agent_token", InQuotes(Backslashed(doc.agentToken)))
            + [CLOSE, NEWLINE])))))
  {
    hide Ascii, Escape, Member, Field;
    KeysAre();
    EscapeVisible(doc.nodeId);
    EscapeVisible(doc.agentToken);
    assert Itoa(1) == ['1' as int];
    FieldIs(SCHEMA_KEY, "schema_version", ['1' as int]);
    FieldIs(NODE_KEY, "node_id", InQuotes(doc.nodeId));
    FieldIs(TOKEN_KEY, "agent_token", InQuotes(Backslashed(doc.agentToken)));
  }
}
