/** Role and capability identifiers: the grammar, and the strict and lenient
    normalisers that rest on it. */
module Identifiers {
  import opened Text
  import opened Inventory

  // ---- grammar ----

  predicate WordByte(b: Byte) { IsDigit(b) || IsLower(b) }

  predicate Word(w: Bytes) { w != [] && forall i :: 0 <= i < |w| ==> WordByte(w[i]) }

  /** The language of `^[a-z0-9]+(?:-[a-z0-9]+)*$`: words joined by single hyphens. */
  predicate Valid(value: Bytes) {
    forall i :: 0 <= i < |Split(value, HYPHEN)| ==> Word(Split(value, HYPHEN)[i])
  }

  /** The same language as the documentation words it: lowercase letters, digits and
      internal hyphens, with no leading, trailing or repeated hyphen. */
  predicate Documented(value: Bytes) {
    && value != []
    && (forall i :: 0 <= i < |value| ==> WordByte(value[i]) || value[i] == HYPHEN)
    && value[0] != HYPHEN
    && value[|value| - 1] != HYPHEN
    && forall i :: 0 < i < |value| ==> !(value[i - 1] == HYPHEN && value[i] == HYPHEN)
  }

  /** The rest of a documented identifier; `started` says that a word is under way. */
  predicate DocumentedRest(value: Bytes, started: bool) {
    && (value == [] ==> started)
    && (forall i :: 0 <= i < |value| ==> WordByte(value[i]) || value[i] == HYPHEN)
    && (value != [] && value[0] == HYPHEN ==> started)
    && (value != [] ==> value[|value| - 1] != HYPHEN)
    && forall i :: 0 < i < |value| ==> !(value[i - 1] == HYPHEN && value[i] == HYPHEN)
  }

  lemma DocumentedStep(value: Bytes, started: bool)
    requires value != []
    ensures DocumentedRest(value, started) <==>
              && (WordByte(value[0]) || value[0] == HYPHEN)
              && (value[0] == HYPHEN ==> started)
              && DocumentedRest(value[1..], value[0] != HYPHEN)
  {
    var rest := value[1..];
    assert forall i :: 0 < i < |value| ==> value[i] == rest[i - 1];
    assert forall i :: 0 <= i < |rest| ==> rest[i] == value[i + 1];
  }

  /** The automaton that reads an identifier from left to right. */
  predicate Continues(value: Bytes, started: bool) {
    if value == [] then started
    else if value[0] == HYPHEN then started && Continues(value[1..], false)
    else WordByte(value[0]) && Continues(value[1..], true)
  }

  predicate WordsAfter(parts: seq<Bytes>, started: bool)
    requires |parts| >= 1
  {
    (forall i :: 0 <= i < |parts[0]| ==> WordByte(parts[0][i]))
    && (started || parts[0] != [])
    && forall i :: 1 <= i < |parts| ==> Word(parts[i])
  }

  lemma {:induction false} WordsContinue(value: Bytes, started: bool)
    ensures WordsAfter(Split(value, HYPHEN), started) <==> Continues(value, started)
  {
    hide WordByte;
    if value != [] {
      var rest := Split(value[1..], HYPHEN);
      var parts := Split(value, HYPHEN);
      if value[0] == HYPHEN {
        WordsContinue(value[1..], false);
        assert parts == [[]] + rest;
        assert forall i :: 1 <= i < |parts| ==> parts[i] == rest[i - 1];
        assert WordsAfter(rest, false) <==> forall i :: 0 <= i < |rest| ==> Word(rest[i]);
        if forall i :: 1 <= i < |parts| ==> Word(parts[i]) {
          forall i | 0 <= i < |rest| ensures Word(rest[i]) { assert rest[i] == parts[i + 1]; }
        }
      } else {
        WordsContinue(value[1..], true);
        assert parts[0] == [value[0]] + rest[0];
        assert forall i :: 1 <= i < |parts| ==> parts[i] == rest[i];
        assert forall i :: 0 <= i < |rest[0]| ==> parts[0][i + 1] == rest[0][i];
        if forall i :: 0 <= i < |parts[0]| ==> WordByte(parts[0][i]) {
          assert WordByte(parts[0][0]);
          forall i | 0 <= i < |rest[0]| ensures WordByte(rest[0][i]) { assert rest[0][i] == parts[0][i + 1]; }
        }
      }
    }
  }

  lemma {:induction false} DocumentedContinues(value: Bytes, started: bool)
    ensures Continues(value, started) <==> DocumentedRest(value, started)
  {
    if value != [] {
      DocumentedContinues(value[1..], value[0] != HYPHEN);
      DocumentedStep(value, started);
    }
  }

  /** The regular expression accepts exactly the documented identifiers. */
  lemma ValidIffDocumented(value: Bytes)
    ensures Valid(value) <==> Documented(value)
  {
    WordsContinue(value, false);
    DocumentedContinues(value, false);
    assert Valid(value) <==> WordsAfter(Split(value, HYPHEN), false);
  }

  // ---- byte order ----

  /** The order of `sort.Strings`: bytewise, a prefix before its extensions. */
  predicate Less(a: Bytes, b: Bytes) {
    b != [] && (a == [] || a[0] < b[0] || (a[0] == b[0] && Less(a[1..], b[1..])))
  }

  lemma {:induction false} LessTotal(a: Bytes, b: Bytes)
    ensures Less(a, b) || Less(b, a) <==> a != b
    ensures !(Less(a, b) && Less(b, a))
  {
    if a != [] && b != [] {
      LessTotal(a[1..], b[1..]);
      assert a == [a[0]] + a[1..] && b == [b[0]] + b[1..];
    }
  }

  lemma {:induction false} LessTransitive(a: Bytes, b: Bytes, c: Bytes)
    requires Less(a, b) && Less(b, c)
    ensures Less(a, c)
  {
    if a != [] && a[0] == b[0] == c[0] {
      LessTransitive(a[1..], b[1..], c[1..]);
    }
  }

  /** They differ first at `i`, where `a` has the smaller byte. */
  predicate DifferAt(a: Bytes, b: Bytes, i: nat) {
    i < |a| && i < |b| && a[..i] == b[..i] && a[i] < b[i]
  }

  /** A text comes before its extensions, and otherwise the first difference decides. */
  lemma {:induction false} LessIff(a: Bytes, b: Bytes)
    ensures Less(a, b) <==> (a <= b && a != b) || exists i: nat :: DifferAt(a, b, i)
  {
    if a != [] && b != [] {
      LessIff(a[1..], b[1..]);
      assert a == [a[0]] + a[1..] && b == [b[0]] + b[1..];
      if a[0] < b[0] {
        assert DifferAt(a, b, 0);
      } else if a[0] == b[0] {
        if i: nat :| DifferAt(a[1..], b[1..], i) {
          assert a[..i + 1] == [a[0]] + a[1..][..i] && b[..i + 1] == [b[0]] + b[1..][..i];
          assert DifferAt(a, b, i + 1);
        }
        if i: nat :| DifferAt(a, b, i) {
          assert a[1..][..i - 1] == a[..i][1..] && b[1..][..i - 1] == b[..i][1..];
          assert DifferAt(a[1..], b[1..], i - 1);
        }
      } else {
        forall i: nat | DifferAt(a, b, i) ensures i == 0 || a[0] == b[0] {
          SameHead(a, b, i);
        }
      }
    }
  }

  lemma SameHead(a: Bytes, b: Bytes, i: nat)
    requires DifferAt(a, b, i)
    ensures i == 0 || a[0] == b[0]
  {
    if i > 0 {
      assert a[..i][0] == a[0] && b[..i][0] == b[0];
    }
  }

  predicate Ascending(s: seq<Bytes>) {
    forall i, j :: 0 <= i < j < |s| ==> Less(s[i], s[j])
  }

  function Elements(s: seq<Bytes>): set<Bytes> {
    set x | x in s
  }

  /** One strictly ascending list per set. */
  lemma {:induction false} AscendingUnique(a: seq<Bytes>, b: seq<Bytes>)
    requires Ascending(a) && Ascending(b) && Elements(a) == Elements(b)
    ensures a == b
  {
    if a == [] {
      if b != [] {
        HeadElement(b);
      }
    } else {
      assert a[0] in Elements(b);
      assert b != [] && b[0] in Elements(a);
      var i :| 0 <= i < |b| && b[i] == a[0];
      var j :| 0 <= j < |a| && a[j] == b[0];
      LessTotal(a[0], b[0]);
      assert a[0] == b[0];
      TailElements(a);
      TailElements(b);
      AscendingUnique(a[1..], b[1..]);
      assert a == [a[0]] + a[1..] && b == [b[0]] + b[1..];
    }
  }

  lemma HeadElement(s: seq<Bytes>)
    requires s != []
    ensures s[0] in Elements(s) && Elements(s) != {}
  {
  }

  lemma TailElements(a: seq<Bytes>)
    requires Ascending(a) && a != []
    ensures Ascending(a[1..]) && Elements(a[1..]) == Elements(a) - {a[0]}
  {
    LessTotal(a[0], a[0]);
    forall x | x in Elements(a) - {a[0]} ensures x in a[1..] {
      var i :| 0 <= i < |a| && a[i] == x;
      assert a[1..][i - 1] == x;
    }
  }

  // ---- canonical form ----

  /** Insertion into a strictly ascending list; a value already there changes nothing. */
  function Insert(x: Bytes, s: seq<Bytes>): (r: seq<Bytes>) {
    if s == [] then [x]
    else if Less(x, s[0]) then [x] + s
    else if x == s[0] then s
    else [s[0]] + Insert(x, s[1..])
  }

  lemma {:induction false} InsertElements(x: Bytes, s: seq<Bytes>)
    ensures Elements(Insert(x, s)) == Elements(s) + {x}
  {
    if s != [] && !Less(x, s[0]) && x != s[0] {
      InsertElements(x, s[1..]);
      ConsElements(s[0], Insert(x, s[1..]));
      ConsElements(s[0], s[1..]);
      assert s == [s[0]] + s[1..];
    } else if s != [] && x == s[0] {
      HeadElement(s);
    } else {
      ConsElements(x, s);
    }
  }

  lemma ConsElements(x: Bytes, s: seq<Bytes>)
    ensures Elements([x] + s) == {x} + Elements(s)
  {
  }

  lemma {:induction false} InsertAscending(x: Bytes, s: seq<Bytes>)
    requires Ascending(s)
    ensures Ascending(Insert(x, s))
  {
    if s != [] {
      LessTotal(x, s[0]);
      if Less(x, s[0]) {
        forall k | 0 <= k < |s| ensures Less(x, s[k]) {
          if k > 0 { LessTransitive(x, s[0], s[k]); }
        }
      } else if x != s[0] {
        TailElements(s);
        InsertAscending(x, s[1..]);
        InsertElements(x, s[1..]);
        AboveHead(s[0], s[1..], x, Insert(x, s[1..]));
      }
    }
  }

  lemma AboveHead(head: Bytes, tail: seq<Bytes>, x: Bytes, r: seq<Bytes>)
    requires Ascending([head] + tail) && Less(head, x)
    requires Ascending(r) && Elements(r) == Elements(tail) + {x}
    ensures Ascending([head] + r)
  {
    forall k | 0 <= k < |r| ensures Less(head, r[k]) {
      assert r[k] in Elements(r);
      if r[k] != x {
        var i :| 0 <= i < |tail| && tail[i] == r[k];
        var all := [head] + tail;
        assert all[0] == head && all[i + 1] == r[k] && Less(all[0], all[i + 1]);
      }
    }
  }

  /** The sorted, duplicate-free form of a list. */
  function Canonical(values: seq<Bytes>): seq<Bytes> {
    if values == [] then [] else Insert(values[0], Canonical(values[1..]))
  }

  lemma {:induction false} CanonicalSorted(values: seq<Bytes>)
    ensures Ascending(Canonical(values)) && Elements(Canonical(values)) == Elements(values)
  {
    if values != [] {
      CanonicalSorted(values[1..]);
      InsertAscending(values[0], Canonical(values[1..]));
      InsertElements(values[0], Canonical(values[1..]));
      assert Elements(values) == {values[0]} + Elements(values[1..]);
    }
  }

  /** The canonical form is strictly ascending, has exactly the values given, is the
      only list that does, and does not depend on their order or repetition. */
  lemma CanonicalForm(values: seq<Bytes>, other: seq<Bytes>)
    ensures Ascending(Canonical(values)) && Elements(Canonical(values)) == Elements(values)
    ensures Elements(other) == Elements(values) <==> Canonical(other) == Canonical(values)
    ensures Ascending(other) && Elements(other) == Elements(values) ==> other == Canonical(values)
    ensures Canonical(Canonical(values)) == Canonical(values)
  {
    CanonicalSorted(values);
    CanonicalSorted(other);
    CanonicalSorted(Canonical(values));
    AscendingUnique(Canonical(Canonical(values)), Canonical(values));
    if Elements(other) == Elements(values) {
      AscendingUnique(Canonical(other), Canonical(values));
      if Ascending(other) {
        AscendingUnique(other, Canonical(values));
      }
    }
  }

  // ---- the two normalisers ----

  predicate AllValid(values: seq<Bytes>) {
    forall i :: 0 <= i < |values| ==> Valid(values[i])
  }

  function ValidOnly(values: seq<Bytes>): (r: seq<Bytes>)
    ensures AllValid(r)
  {
    if values == [] then []
    else if Valid(values[0]) then [values[0]] + ValidOnly(values[1..])
    else ValidOnly(values[1..])
  }

  function InvalidOnly(values: seq<Bytes>): (r: seq<Bytes>)
    ensures forall i :: 0 <= i < |r| ==> !Valid(r[i])
  {
    if values == [] then []
    else if Valid(values[0]) then InvalidOnly(values[1..])
    else [values[0]] + InvalidOnly(values[1..])
  }

  lemma {:induction false} ValidOnlySnoc(values: seq<Bytes>, last: Bytes)
    ensures ValidOnly(values + [last]) == ValidOnly(values) + (if Valid(last) then [last] else [])
    ensures InvalidOnly(values + [last]) == InvalidOnly(values) + (if Valid(last) then [] else [last])
  {
    if values == [] {
      assert ([] + [last])[1..] == [];
    } else {
      assert (values + [last])[1..] == values[1..] + [last];
      ValidOnlySnoc(values[1..], last);
    }
  }

  /** Sorting out goes value by value, in the order given. */
  lemma {:induction false} ValidOnlyAppend(front: seq<Bytes>, value: Bytes, back: seq<Bytes>)
    ensures var kept: seq<Bytes> := if Valid(value) then [value] else [];
            ValidOnly(front + [value] + back) == ValidOnly(front) + kept + ValidOnly(back)
    ensures var dropped: seq<Bytes> := if Valid(value) then [] else [value];
            InvalidOnly(front + [value] + back) == InvalidOnly(front) + dropped + InvalidOnly(back)
  {
    hide Valid;
    var all := front + [value] + back;
    if front == [] {
      assert all == [value] + back && all[1..] == back;
    } else {
      assert all[1..] == front[1..] + [value] + back && all[0] == front[0];
      ValidOnlyAppend(front[1..], value, back);
    }
  }

  lemma {:induction false} ValidOnlyAll(values: seq<Bytes>)
    ensures AllValid(values) <==> InvalidOnly(values) == []
    ensures AllValid(values) ==> ValidOnly(values) == values
    ensures |ValidOnly(values)| + |InvalidOnly(values)| == |values|
  {
    if values != [] {
      ValidOnlyAll(values[1..]);
      assert values == [values[0]] + values[1..];
      assert AllValid(values) <==> Valid(values[0]) && AllValid(values[1..]);
    }
  }

  /** A field of the wire document as `encoding/json` delivers it. */
  datatype RawIdentifiers = Absent | Null | NotStrings | Strings(values: seq<Bytes>)

  datatype IdentifierError = NotAnArray(name: string) | NotAnArrayOfStrings(name: string) | BadIdentifier(name: string)

  /** What `decodeIdentifiers` answers. */
  function Strict(name: string, raw: RawIdentifiers): Result<seq<Bytes>, IdentifierError> {
    match raw
    case Absent | Null => Err(NotAnArray(name))
    case NotStrings => Err(NotAnArrayOfStrings(name))
    case Strings(values) => if AllValid(values) then Ok(Canonical(values)) else Err(BadIdentifier(name))
  }

  function InvalidWarnings(source: string, values: seq<Bytes>): (r: seq<Warning>)
    ensures |r| == |values|
    ensures forall i :: 0 <= i < |values| ==> r[i] == Warning(source, InvalidIdentifier(values[i]))
  {
    seq(|values|, i requires 0 <= i < |values| => Warning(source, InvalidIdentifier(values[i])))
  }

  /** What `validateIdentifiers` answers. */
  function Lenient(source: string, values: seq<Bytes>): (seq<Bytes>, seq<Warning>) {
    (Canonical(ValidOnly(values)), InvalidWarnings(source, InvalidOnly(values)))
  }

  /** One more input adds one warning or one key. */
  lemma LenientSnoc(source: string, values: seq<Bytes>, last: Bytes)
    ensures var (more, front) := (values + [last], values);
            Elements(ValidOnly(more)) == Elements(ValidOnly(front)) + (if Valid(last) then {last} else {})
            && InvalidWarnings(source, InvalidOnly(more))
               == InvalidWarnings(source, InvalidOnly(front))
                  + (if Valid(last) then [] else [Warning(source, InvalidIdentifier(last))])
  {
    ValidOnlySnoc(values, last);
    if !Valid(last) {
      assert ValidOnly(values) + [] == ValidOnly(values);
    } else {
      assert InvalidOnly(values) + [] == InvalidOnly(values);
    }
  }

  /** `sort.Strings` over the keys of a map, which the map yields in any order. */
  method SortedKeys(unique: set<Bytes>) returns (result: seq<Bytes>)
    ensures Ascending(result) && Elements(result) == unique
  {
    result := [];
    var rest := unique;
    while rest != {}
      invariant Elements(result) + rest == unique
      decreases rest
    {
      var value :| value in rest;
      rest := rest - {value};
      result := result + [value];
    }
    CanonicalSorted(result);
    result := Canonical(result);
  }

  method DecodeIdentifiers(name: string, raw: RawIdentifiers)
    returns (r: Result<seq<Bytes>, IdentifierError>)
    ensures r == Strict(name, raw)
    ensures r == Err(NotAnArray(name)) <==> raw.Absent? || raw.Null?
    ensures r == Err(NotAnArrayOfStrings(name)) <==> raw.NotStrings?
    ensures r == Err(BadIdentifier(name)) <==>
              raw.Strings? && exists i :: 0 <= i < |raw.values| && !Valid(raw.values[i])
    ensures r.Ok? ==> raw.Strings? && Ascending(r.value) && Elements(r.value) == Elements(raw.values)
  {
    if raw.Absent? || raw.Null? {
      return Err(NotAnArray(name));
    }
    if raw.NotStrings? {
      return Err(NotAnArrayOfStrings(name));
    }
    var values := raw.values;
    var unique: set<Bytes> := {};
    for i := 0 to |values|
      invariant AllValid(values[..i]) && unique == Elements(values[..i])
    {
      if !Valid(values[i]) {
        return Err(BadIdentifier(name));
      }
      unique := unique + {values[i]};
      assert values[..i + 1] == values[..i] + [values[i]];
    }
    assert values[..|values|] == values;
    var result := SortedKeys(unique);
    CanonicalForm(values, result);
    return Ok(result);
  }

  method ValidateIdentifiers(source: string, values: seq<Bytes>)
    returns (result: seq<Bytes>, warnings: seq<Warning>)
    ensures (result, warnings) == Lenient(source, values)
  {
    var unique: set<Bytes> := {};
    warnings := [];
    for i := 0 to |values|
      invariant unique == Elements(ValidOnly(values[..i]))
      invariant warnings == InvalidWarnings(source, InvalidOnly(values[..i]))
    {
      assert values[..i + 1] == values[..i] + [values[i]];
      LenientSnoc(source, values[..i], values[i]);
      if !Valid(values[i]) {
        warnings := warnings + [Warning(source, InvalidIdentifier(values[i]))];
      } else {
        unique := unique + {values[i]};
      }
    }
    assert values[..|values|] == values;
    result := SortedKeys(unique);
    CanonicalForm(ValidOnly(values), result);
  }

  /** The twins agree. The strict one accepts exactly the lists on which the lenient one
      stays silent, and then they return the same list. On every list the lenient result
      is what the strict one makes of the valid values alone, with one warning for each
      invalid occurrence, in input order. */
  lemma StrictLenientAgree(name: string, source: string, values: seq<Bytes>)
    ensures Strict(name, Strings(values)).Ok? <==> Lenient(source, values).1 == []
    ensures Strict(name, Strings(values)).Ok? ==> Strict(name, Strings(values)).value == Lenient(source, values).0
    ensures Strict(name, Strings(ValidOnly(values))) == Ok(Lenient(source, values).0)
    ensures Lenient(source, values).1 == InvalidWarnings(source, InvalidOnly(values))
    ensures |ValidOnly(values)| + |Lenient(source, values).1| == |values|
    ensures Strict(name, Strings(Lenient(source, values).0)) == Ok(Lenient(source, values).0)
  {
    ValidOnlyAll(values);
    var kept := Lenient(source, values).0;
    CanonicalForm(ValidOnly(values), kept);
    forall i | 0 <= i < |kept| ensures Valid(kept[i]) {
      assert kept[i] in Elements(kept);
    }
  }

  // ---- the desired-state document ----

  const SUPPORTED_SCHEMA_VERSION := 1

  /** `^[A-Za-z0-9][A-Za-z0-9._:-]{0,127}$` */
  predicate ValidRevision(r: Bytes) {
    && 1 <= |r| <= 128
    && IsAlnum(r[0])
    && forall i :: 1 <= i < |r| ==> IsAlnum(r[i]) || r[i] in {DOT, UNDERSCORE, COLON, HYPHEN}
  }

  datatype WireDocument = WireDocument(
    schemaVersion: Option<int>,
    revision: Option<Bytes>,
    roles: RawIdentifiers,
    capabilities: RawIdentifiers)

  datatype Document = Document(schemaVersion: int, revision: Bytes, roles: seq<Bytes>, capabilities: seq<Bytes>)

  datatype ParseError =
    | SchemaRequired
    | SchemaUnsupported(version: int)
    | RevisionRequired
    | RevisionInvalid
    | Identifiers(error: IdentifierError)

  /** The checks of `Parse`, in the order in which they are made. */
  method Parse(wire: WireDocument) returns (r: Result<Document, ParseError>)
    ensures r.Ok? <==>
              && wire.schemaVersion == Some(1)
              && wire.revision.Some? && ValidRevision(wire.revision.value)
              && wire.roles.Strings? && AllValid(wire.roles.values)
              && wire.capabilities.Strings? && AllValid(wire.capabilities.values)
    ensures r.Ok? ==>
              r.value == Document(1, wire.revision.value,
                                  Canonical(wire.roles.values), Canonical(wire.capabilities.values))
    ensures r == Err(SchemaRequired) <==> wire.schemaVersion.None?
    ensures forall v :: r == Err(SchemaUnsupported(v)) <==>
              wire.schemaVersion == Some(v) && v != 1
    ensures r == Err(RevisionRequired) <==>
              wire.schemaVersion == Some(1) && wire.revision.None?
    ensures r == Err(RevisionInvalid) <==>
              && wire.schemaVersion == Some(1)
              && wire.revision.Some? && !ValidRevision(wire.revision.value)
    ensures forall e :: r == Err(Identifiers(e)) <==>
              && wire.schemaVersion == Some(1)
              && wire.revision.Some? && ValidRevision(wire.revision.value)
              && (Strict("roles", wire.roles) == Err(e)
                  || (Strict("roles", wire.roles).Ok? && Strict("capabilities", wire.capabilities) == Err(e)))
  {
    if wire.schemaVersion.None? {
      return Err(SchemaRequired);
    }
    if wire.schemaVersion.value != SUPPORTED_SCHEMA_VERSION {
      return Err(SchemaUnsupported(wire.schemaVersion.value));
    }
    if wire.revision.None? {
      return Err(RevisionRequired);
    }
    if !ValidRevision(wire.revision.value) {
      return Err(RevisionInvalid);
    }
    var roles := DecodeIdentifiers("roles", wire.roles);
    if roles.Err? {
      return Err(Identifiers(roles.error));
    }
    var capabilities := DecodeIdentifiers("capabilities", wire.capabilities);
    if capabilities.Err? {
      return Err(Identifiers(capabilities.error));
    }
    return Ok(Document(wire.schemaVersion.value, wire.revision.value, roles.value, capabilities.value));
  }

  /** `Document.Inventory`. */
  function Reported(d: Document): DesiredState {
    DesiredState(true, d.schemaVersion, d.revision, d.roles, d.capabilities)
  }
}
