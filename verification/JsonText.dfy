/** State documents as text: which texts strict decoding accepts, and what they mean. The
    grammar (RFC 8259) and the meaning are said without the decoder; the main theorem is
    that the decoder accepts exactly these texts and answers exactly their meaning. */
module JsonText {
  import opened Text
  import opened StateCodec
  import opened JsonStrings

  // ---- the grammar ----

  datatype Value = Null | Number(negative: bool, digits: Bytes) | Chars(literal: Literal)

  /** A member and the gaps in front of it, around its colon and behind it. */
  datatype Entry = Entry(lead: Bytes, key: Literal, before: Bytes, after: Bytes, value: Value, trail: Bytes)

  /** `null`, or an object; `gap` stands in an empty one. */
  datatype Source = Nothing(lead: Bytes) | Object(lead: Bytes, gap: Bytes, entries: seq<Entry>)

  /** White space. */
  predicate Gap(s: Bytes) {
    forall i :: 0 <= i < |s| ==> s[i] in {0x20, 0x09, 0x0a, 0x0d}
  }

  function Amount(v: Value): int
    requires v.Number? && forall i :: 0 <= i < |v.digits| ==> IsDigit(v.digits[i])
  {
    var magnitude: int := DigitValue(v.digits);
    if v.negative then -magnitude else magnitude
  }

  /** Numbers have no leading zero and fit a 64-bit integer. */
  predicate ValueOk(v: Value) {
    match v
    case Null => true
    case Number(_, digits) =>
      && digits != [] && (forall i :: 0 <= i < |digits| ==> IsDigit(digits[i]))
      && (|digits| > 1 ==> digits[0] != '0' as int)
      && -0x8000_0000_0000_0000 <= Amount(v) < 0x8000_0000_0000_0000
    case Chars(literal) => LiteralOk(literal)
  }

  predicate EntryOk(e: Entry) {
    && Gap(e.lead) && LiteralOk(e.key) && Gap(e.before) && Gap(e.after) && ValueOk(e.value) && Gap(e.trail)
  }

  predicate EntriesOk(entries: seq<Entry>) { forall i :: 0 <= i < |entries| ==> EntryOk(entries[i]) }

  predicate SourceOk(s: Source) {
    Gap(s.lead) && (s.Object? ==> Gap(s.gap) && EntriesOk(s.entries))
  }

  function ValueText(v: Value): Bytes {
    match v
    case Null => Ascii("null")
    case Number(negative, digits) => (if negative then [HYPHEN] else []) + digits
    case Chars(literal) => LiteralText(literal)
  }

  /** From the key to the value. */
  function CoreText(e: Entry): Bytes {
    LiteralText(e.key) + (e.before + ([COLON] + (e.after + ValueText(e.value))))
  }

  function EntryText(e: Entry): Bytes { e.lead + (CoreText(e) + e.trail) }

  function EntriesText(entries: seq<Entry>): Bytes
    requires entries != []
  {
    if |entries| == 1 then EntryText(entries[0])
    else EntryText(entries[0]) + ([COMMA] + EntriesText(entries[1..]))
  }

  function SourceText(s: Source): Bytes {
    match s
    case Nothing(lead) => lead + Ascii("null")
    case Object(lead, gap, entries) =>
      lead + ([OPEN] + ((if entries == [] then gap else EntriesText(entries)) + [CLOSE]))
  }

  // ---- the meaning ----

  /** The key in small letters; U+017F counts as an s and U+212A as a k. */
  function Folded(key: Bytes): Bytes {
    if key == [] then []
    else if [0xC5, 0xBF] <= key then ['s' as int] + Folded(key[2..])
    else if [0xE2, 0x84, 0xAA] <= key then ['k' as int] + Folded(key[3..])
    else [if 0x41 <= key[0] <= 0x5a then key[0] + 0x20 else key[0]] + Folded(key[1..])
  }

  predicate Names(e: Entry, name: string)
    requires EntryOk(e)
  {
    Folded(LiteralValue(e.key)) == Ascii(name)
  }

  /** The member names a field, and has a value of its type or null. */
  predicate Fits(e: Entry)
    requires EntryOk(e)
  {
    || (Names(e, "schema_version") && !e.value.Chars?)
    || ((Names(e, "node_id") || Names(e, "agent_token")) && !e.value.Number?)
  }

  predicate AllFit(entries: seq<Entry>)
    requires EntriesOk(entries)
  {
    forall i :: 0 <= i < |entries| ==> Fits(entries[i])
  }

  predicate Sets(e: Entry, name: string)
    requires EntryOk(e)
  {
    Names(e, name) && !e.value.Null?
  }

  /** Member `i` is the last one that gives the field a value. */
  predicate Settles(entries: seq<Entry>, name: string, i: nat)
    requires EntriesOk(entries)
  {
    && i < |entries| && Sets(entries[i], name)
    && forall j :: i < j < |entries| ==> !Sets(entries[j], name)
  }

  predicate Unset(entries: seq<Entry>, name: string)
    requires EntriesOk(entries)
  {
    forall i :: 0 <= i < |entries| ==> !Sets(entries[i], name)
  }

  /** The field has the last value it was given, or its zero value if it was given none. */
  ghost predicate NumberField(entries: seq<Entry>, name: string, n: int)
    requires EntriesOk(entries)
  {
    if Unset(entries, name) then n == 0
    else exists i: nat :: Settles(entries, name, i) && entries[i].value.Number? && n == Amount(entries[i].value)
  }

  ghost predicate CharsField(entries: seq<Entry>, name: string, text: Bytes)
    requires EntriesOk(entries)
  {
    if Unset(entries, name) then text == []
    else
      exists i: nat :: Settles(entries, name, i) && entries[i].value.Chars?
                       && text == LiteralValue(entries[i].value.literal)
  }

  ghost predicate Means(entries: seq<Entry>, doc: StateDocument)
    requires EntriesOk(entries)
  {
    && NumberField(entries, "schema_version", doc.schemaVersion)
    && CharsField(entries, "node_id", doc.nodeId)
    && CharsField(entries, "agent_token", doc.agentToken)
  }

  function Entries(s: Source): seq<Entry> { if s.Nothing? then [] else s.entries }

  lemma SettlesOnce(entries: seq<Entry>, name: string, i: nat, j: nat)
    requires EntriesOk(entries) && Settles(entries, name, i) && Settles(entries, name, j)
    ensures i == j
  {
    hide Sets;
  }

  /** There is one meaning. */
  lemma MeansOnce(entries: seq<Entry>, doc: StateDocument, doc': StateDocument)
    requires EntriesOk(entries) && Means(entries, doc) && Means(entries, doc')
    ensures doc == doc'
  {
    hide Settles, Unset, LiteralValue, Amount, EntryOk;
    forall name, i: nat, j: nat | Settles(entries, name, i) && Settles(entries, name, j) ensures i == j {
      SettlesOnce(entries, name, i, j);
    }
  }

  // ---- keys ----

  predicate FieldName(name: Bytes) {
    forall i :: 0 <= i < |name| ==> IsLower(name[i]) || name[i] == UNDERSCORE
  }

  /** The decoder's comparison of keys is equality in small letters. */
  lemma {:induction false} FoldsToIff(key: Bytes, name: Bytes)
    requires FieldName(name)
    ensures FoldsTo(key, name) <==> Folded(key) == name
    decreases |name|
  {
    if name != [] && key != [] {
      var more := name[1..];
      assert name == [name[0]] + more;
      if [0xC5, 0xBF] <= key {
        FoldsToIff(key[2..], more);
      } else if [0xE2, 0x84, 0xAA] <= key {
        FoldsToIff(key[3..], more);
      } else {
        FoldsToIff(key[1..], more);
      }
    }
  }

  lemma KeysAre()
    ensures FieldName(SCHEMA_KEY) && FieldName(NODE_KEY) && FieldName(TOKEN_KEY)
    ensures SCHEMA_KEY == Ascii("schema_version") && NODE_KEY == Ascii("node_id") && TOKEN_KEY == Ascii("agent_token")
    ensures SCHEMA_KEY[0] != NODE_KEY[0] && SCHEMA_KEY[0] != TOKEN_KEY[0] && NODE_KEY[0] != TOKEN_KEY[0]
  {
  }

  function JsonOf(v: Value): Json
    requires ValueOk(v)
  {
    match v
    case Null => JsonNull
    case Number(_, _) => JsonInt(Amount(v))
    case Chars(literal) => JsonString(LiteralValue(literal))
  }

  function Step(doc: StateDocument, e: Entry): Option<StateDocument>
    requires EntryOk(e)
  {
    Assign(doc, LiteralValue(e.key), JsonOf(e.value))
  }

  /** What one member does: it must fit, and gives its field its value. */
  lemma AssignIs(doc: StateDocument, e: Entry)
    requires EntryOk(e)
    ensures var r := Step(doc, e);
            && (r.Some? <==> Fits(e))
            && (r.Some? ==>
                  && r.value.schemaVersion ==
                       (if Sets(e, "schema_version") && e.value.Number? then Amount(e.value) else doc.schemaVersion)
                  && r.value.nodeId ==
                       (if Sets(e, "node_id") && e.value.Chars? then LiteralValue(e.value.literal) else doc.nodeId)
                  && r.value.agentToken ==
                       (if Sets(e, "agent_token") && e.value.Chars? then LiteralValue(e.value.literal)
                        else doc.agentToken))
  {
    hide LiteralValue, Amount, FoldsTo, Folded, FieldName, Ascii;
    var key := LiteralValue(e.key);
    KeysAre();
    FoldsToIff(key, SCHEMA_KEY);
    FoldsToIff(key, NODE_KEY);
    FoldsToIff(key, TOKEN_KEY);
  }

  lemma NumberSnoc(done: seq<Entry>, e: Entry, name: string, n: int)
    requires EntriesOk(done) && EntryOk(e) && NumberField(done, name, n)
    requires Sets(e, name) ==> e.value.Number?
    ensures EntriesOk(done + [e])
    ensures NumberField(done + [e], name, if Sets(e, name) then Amount(e.value) else n)
  {
    hide Names, Amount, LiteralOk;
    var all := done + [e];
    assert forall i :: 0 <= i < |done| ==> all[i] == done[i];
    if Sets(e, name) {
      assert Settles(all, name, |done|) && !Unset(all, name);
    } else if !Unset(done, name) {
      var i: nat :| Settles(done, name, i) && done[i].value.Number? && n == Amount(done[i].value);
      assert Settles(all, name, i) && !Unset(all, name);
    }
  }

  lemma CharsSnoc(done: seq<Entry>, e: Entry, name: string, text: Bytes)
    requires EntriesOk(done) && EntryOk(e) && CharsField(done, name, text)
    requires Sets(e, name) ==> e.value.Chars?
    ensures EntriesOk(done + [e])
    ensures CharsField(done + [e], name, if Sets(e, name) then LiteralValue(e.value.literal) else text)
  {
    hide Names, LiteralValue, LiteralOk;
    var all := done + [e];
    assert forall i :: 0 <= i < |done| ==> all[i] == done[i];
    if Sets(e, name) {
      assert Settles(all, name, |done|) && !Unset(all, name);
    } else if !Unset(done, name) {
      var i: nat :| Settles(done, name, i) && done[i].value.Chars? && text == LiteralValue(done[i].value.literal);
      assert Settles(all, name, i) && !Unset(all, name);
    }
  }

  lemma FitsTypes(e: Entry)
    requires EntryOk(e) && Fits(e)
    ensures Sets(e, "schema_version") ==> e.value.Number?
    ensures Sets(e, "node_id") || Sets(e, "agent_token") ==> e.value.Chars?
  {
    hide EntryOk, Folded;
    KeysAre();
  }

  lemma MeansSnoc(done: seq<Entry>, e: Entry, doc: StateDocument)
    requires EntriesOk(done) && EntryOk(e) && Means(done, doc) && Fits(e)
    ensures EntriesOk(done + [e])
    ensures var r := Step(doc, e);
            r.Some? && Means(done + [e], r.value)
  {
    hide EntryOk, Fits, Sets, LiteralValue, Amount, Step, NumberField, CharsField;
    AssignIs(doc, e);
    FitsTypes(e);
    NumberSnoc(done, e, "schema_version", doc.schemaVersion);
    CharsSnoc(done, e, "node_id", doc.nodeId);
    CharsSnoc(done, e, "agent_token", doc.agentToken);
  }

  // ---- gaps ----

  lemma {:induction false} GapReads(gap: Bytes, tail: Bytes)
    requires Gap(gap) && (tail == [] || !JsonSpace(tail[0]))
    ensures SkipSpace(gap + tail) == tail
  {
    if gap == [] {
      assert gap + tail == tail;
    } else {
      assert (gap + tail)[1..] == gap[1..] + tail;
      GapReads(gap[1..], tail);
    }
  }

  lemma {:induction false} GapOf(d: Bytes) returns (gap: Bytes)
    ensures Gap(gap) && d == gap + SkipSpace(d)
  {
    gap := [];
    if d != [] && JsonSpace(d[0]) {
      var rest := GapOf(d[1..]);
      gap := [d[0]] + rest;
      assert d == [d[0]] + d[1..];
    }
  }

  lemma GapIff(d: Bytes)
    ensures Gap(d) <==> SkipSpace(d) == []
  {
    if Gap(d) {
      GapReads(d, []);
      assert d + [] == d;
    } else {
      var gap := GapOf(d);
    }
  }

  // ---- reading what is written ----

  predicate NoDigit(tail: Bytes) { tail == [] || !IsDigit(tail[0]) }

  lemma DigitsStop(digits: Bytes, tail: Bytes)
    requires digits != [] && (forall i :: 0 <= i < |digits| ==> IsDigit(digits[i])) && NoDigit(tail)
    ensures var (body, k) := (digits + tail, DigitCount(digits + tail));
            k == |digits| && body[..k] == digits && body[k..] == tail && body[0] == digits[0]
  {
    DigitCountAppend(digits, tail);
  }

  lemma NumberReads(v: Value, tail: Bytes)
    requires v.Number? && ValueOk(v) && NoDigit(tail)
    ensures ReadInt(ValueText(v) + tail) == Some((Amount(v), tail))
  {
    hide DigitCount, DigitValue;
    var body := v.digits + tail;
    DigitsStop(v.digits, tail);
    assert IsDigit(body[0]);
    if v.negative {
      assert ValueText(v) + tail == [HYPHEN] + body;
      assert ([HYPHEN] + body)[1..] == body;
    } else {
      assert ValueText(v) + tail == body;
    }
  }

  lemma NullText()
    ensures Ascii("null") == ['n' as int, 'u' as int, 'l' as int, 'l' as int]
  {
  }

  lemma ValueReads(v: Value, tail: Bytes)
    requires ValueOk(v) && NoDigit(tail)
    ensures ReadValue(ValueText(v) + tail) == Some((JsonOf(v), tail))
    ensures ValueText(v) != [] && !JsonSpace(ValueText(v)[0])
  {
    hide ReadInt, ReadString, Ascii, Inner, LiteralOk;
    var d := ValueText(v) + tail;
    NullText();
    assert d[0] == ValueText(v)[0];
    match v
    case Null => assert d[4..] == tail;
    case Number(_, _) => NumberReads(v, tail);
    case Chars(literal) =>
      LiteralReads(literal, tail);
      assert d[1..] == Inner(literal) + tail;
  }

  lemma CoreReads(e: Entry, tail: Bytes)
    requires EntryOk(e) && NoDigit(tail)
    ensures CoreText(e) != [] && CoreText(e)[0] == QUOTE
    ensures ReadMember(CoreText(e) + tail) == Some((LiteralValue(e.key), JsonOf(e.value), tail))
  {
    hide ReadString, ReadValue, Inner, LiteralOk, LiteralValue, ValueOk, ValueText, Gap;
    var d := CoreText(e) + tail;
    var worth := ValueText(e.value) + tail;
    var colon := [COLON] + (e.after + worth);
    CoreSplits(e, tail);
    LiteralReads(e.key, e.before + colon);
    GapReads(e.before, colon);
    assert colon[1..] == e.after + worth;
    ValueReads(e.value, tail);
    assert worth[0] == ValueText(e.value)[0];
    GapReads(e.after, worth);
  }

  lemma CoreSplits(e: Entry, tail: Bytes)
    ensures var d := CoreText(e) + tail;
            && d[0] == QUOTE
            && d[1..] == Inner(e.key) + (e.before + ([COLON] + (e.after + (ValueText(e.value) + tail))))
  {
    hide Inner, ValueText;
  }

  /** A member, and what comes behind it. */
  lemma EntryReads(e: Entry, rest: Bytes, doc: StateDocument)
    requires EntryOk(e) && rest != [] && (rest[0] == COMMA || rest[0] == CLOSE)
    ensures ReadMembers(SkipSpace(EntryText(e) + rest), doc) ==
            match Step(doc, e)
            case None => None
            case Some(next) =>
              if rest[0] == COMMA then ReadMembers(SkipSpace(rest[1..]), next)
              else if Gap(rest[1..]) then Some(next) else None
  {
    hide CoreText, ReadMember, Gap, LiteralOk, LiteralValue, ValueOk, Assign;
    var tail := e.trail + rest;
    assert EntryText(e) + rest == e.lead + (CoreText(e) + tail);
    assert NoDigit(tail) by { TrailNoDigit(e.trail, rest); }
    CoreReads(e, tail);
    assert (CoreText(e) + tail)[0] == QUOTE;
    GapReads(e.lead, CoreText(e) + tail);
    GapReads(e.trail, rest);
    GapIff(rest[1..]);
  }

  lemma TrailNoDigit(trail: Bytes, rest: Bytes)
    requires Gap(trail) && rest != [] && (rest[0] == COMMA || rest[0] == CLOSE)
    ensures NoDigit(trail + rest)
  {
  }

  lemma {:induction false} EntriesRead(done: seq<Entry>, entries: seq<Entry>, tail: Bytes, doc: StateDocument)
    requires EntriesOk(done) && Means(done, doc)
    requires EntriesOk(entries) && entries != []
    ensures EntriesOk(done + entries)
    ensures var r := ReadMembers(SkipSpace(EntriesText(entries) + ([CLOSE] + tail)), doc);
            && (r.Some? <==> AllFit(entries) && Gap(tail))
            && (r.Some? ==> Means(done + entries, r.value))
    decreases |entries|
  {
    hide EntryOk, Fits, EntryText, Gap, Means, LiteralValue, ReadMembers, Step, JsonOf;
    var e, more := entries[0], entries[1..];
    var rest := (if more == [] then [] else [COMMA] + EntriesText(more)) + ([CLOSE] + tail);
    assert EntriesText(entries) + ([CLOSE] + tail) == EntryText(e) + rest;
    assert entries == [e] + more && EntriesOk(more);
    EntryReads(e, rest, doc);
    AssignFits(doc, e);
    if Fits(e) {
      MeansSnoc(done, e, doc);
      assert done + [e] + more == done + entries;
      var next := Step(doc, e).value;
      if more == [] {
        assert rest[1..] == tail && done + [e] == done + entries;
      } else {
        assert rest[1..] == EntriesText(more) + ([CLOSE] + tail);
        EntriesRead(done + [e], more, tail, next);
      }
    }
    assert AllFit(entries) <==> Fits(e) && AllFit(more);
  }

  lemma AssignFits(doc: StateDocument, e: Entry)
    requires EntryOk(e)
    ensures Step(doc, e).Some? <==> Fits(e)
  {
    hide Step, LiteralValue, Fits, Sets, EntryOk;
    AssignIs(doc, e);
  }

  lemma NothingMeans()
    ensures Means([], ZERO_DOCUMENT)
  {
  }

  /** Whatever stands behind a written source: it is decoded exactly if all its members fit
      and nothing but white space follows; and then to what it means. */
  lemma SourceReads(s: Source, tail: Bytes)
    requires SourceOk(s)
    ensures EntriesOk(Entries(s))
    ensures var r := Decode(SourceText(s) + tail);
            && (r.Some? <==> AllFit(Entries(s)) && Gap(tail))
            && (r.Some? ==> Means(Entries(s), r.value))
  {
    hide Decode, Ascii, Gap, EntryOk, EntriesText, Means, ReadMembers;
    NothingMeans();
    GapIff(tail);
    assert EntriesOk(Entries(s));
    if s.Nothing? {
      NullReads(s.lead, tail);
    } else if s.entries == [] {
      EmptyReads(s.lead, s.gap, tail);
      SourceSplits(s.lead, s.gap, tail);
    } else {
      var text := EntriesText(s.entries) + ([CLOSE] + tail);
      ObjectStarts(s.lead, s.entries, [CLOSE] + tail);
      EntriesRead([], s.entries, tail, ZERO_DOCUMENT);
      assert [] + s.entries == s.entries;
      SourceSplits(s.lead, EntriesText(s.entries), tail);
    }
  }

  lemma SourceSplits(lead: Bytes, inner: Bytes, tail: Bytes)
    ensures lead + ([OPEN] + (inner + [CLOSE])) + tail == lead + ([OPEN] + (inner + ([CLOSE] + tail)))
  {
    assert inner + [CLOSE] + tail == inner + ([CLOSE] + tail);
  }

  lemma NullReads(lead: Bytes, tail: Bytes)
    requires Gap(lead)
    ensures Decode(lead + Ascii("null") + tail) == if SkipSpace(tail) == [] then Some(ZERO_DOCUMENT) else None
  {
    hide Ascii;
    NullText();
    var d := Ascii("null") + tail;
    assert lead + Ascii("null") + tail == lead + d;
    GapReads(lead, d);
    assert d[4..] == tail && d[0] == 'n' as int;
  }

  lemma EmptyReads(lead: Bytes, gap: Bytes, tail: Bytes)
    requires Gap(lead) && Gap(gap)
    ensures Decode(lead + ([OPEN] + (gap + ([CLOSE] + tail)))) ==
            if SkipSpace(tail) == [] then Some(ZERO_DOCUMENT) else None
  {
    hide Ascii, ReadMembers;
    NullText();
    var close := [CLOSE] + tail;
    var d := [OPEN] + (gap + close);
    GapReads(lead, d);
    GapReads(gap, close);
    assert d[0] == OPEN && d[1..] == gap + close && close[1..] == tail;
  }

  lemma ObjectStarts(lead: Bytes, entries: seq<Entry>, tail: Bytes)
    requires Gap(lead) && EntriesOk(entries) && entries != []
    ensures var text := EntriesText(entries) + tail;
            Decode(lead + ([OPEN] + text)) == ReadMembers(SkipSpace(text), ZERO_DOCUMENT)
  {
    hide Ascii, ReadMembers, EntriesText;
    NullText();
    var text := EntriesText(entries) + tail;
    var d := [OPEN] + text;
    GapReads(lead, d);
    assert d[0] == OPEN && d[1..] == text;
    EntriesQuoted(entries, tail);
  }

  lemma EntriesQuoted(entries: seq<Entry>, tail: Bytes)
    requires EntriesOk(entries) && entries != []
    ensures var first := SkipSpace(EntriesText(entries) + tail);
            first != [] && first[0] == QUOTE
  {
    hide CoreText, LiteralOk, ValueOk;
    var e, more := entries[0], entries[1..];
    var next := if more == [] then [] else [COMMA] + EntriesText(more);
    var rest := CoreText(e) + (e.trail + (next + tail));
    CoreQuoted(e);
    assert rest[0] == QUOTE && EntryOk(e);
    assert EntriesText(entries) == e.lead + (CoreText(e) + e.trail) + next;
    assert EntriesText(entries) + tail == e.lead + rest;
    GapReads(e.lead, rest);
  }

  lemma CoreQuoted(e: Entry)
    ensures CoreText(e) != [] && CoreText(e)[0] == QUOTE
  {
  }
}
