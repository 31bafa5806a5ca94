/** The KEY=VALUE files: `parseRelease` for /etc/lbi-release and its twin
    `parseAssignments` for /etc/os-release. `strconv.Unquote` is a parameter. */
module ReleaseFile {
  import opened Text
  import opened Utf8

  type Unquote = Bytes -> Result<Bytes, string>

  datatype ValueError = UnterminatedSingleQuote | InvalidDoubleQuote(detail: string)

  datatype LineWarning =
    | ExpectedKeyValue(line: nat)
    | BadValue(line: nat, key: Bytes, error: ValueError)

  datatype Outcome = Ignored | Warned(warning: LineWarning) | Assigned(key: Bytes, value: Bytes)

  datatype Parsed = Parsed(values: map<Bytes, Bytes>, warnings: seq<LineWarning>)

  /** `parseValue` and `parseAssignmentValue`, whose bodies are the same. */
  function ParseValue(unquote: Unquote, value: Bytes): Result<Bytes, ValueError> {
    if value == [] then Ok([])
    else if value[0] == APOSTROPHE then
      if |value| < 2 || value[|value| - 1] != APOSTROPHE then Err(UnterminatedSingleQuote)
      else Ok(value[1..|value| - 1])
    else if value[0] == QUOTE then
      match unquote(value)
      case Ok(v) => Ok(v)
      case Err(detail) => Err(InvalidDoubleQuote(detail))
    else Ok(value)
  }

  /** What line number `number` contributes. */
  function ReadLine(unquote: Unquote, number: nat, raw: Bytes): Outcome {
    var line := TrimSpace(raw);
    if line == [] || line[0] == HASH then Ignored
    else match Cut(line, EQUALS)
      case None => Warned(ExpectedKeyValue(number))
      case Some((before, after)) =>
        var key := TrimSpace(before);
        if key == [] then Warned(ExpectedKeyValue(number))
        else match ParseValue(unquote, TrimSpace(after))
          case Ok(value) => Assigned(key, value)
          case Err(error) => Warned(BadValue(number, key, error))
  }

  /** The outcomes of lines 1, 2, ..., in order. */
  function Outcomes(unquote: Unquote, lines: seq<Bytes>): (r: seq<Outcome>)
    ensures |r| == |lines|
    ensures forall i :: 0 <= i < |lines| ==> r[i] == ReadLine(unquote, i + 1, lines[i])
  {
    seq(|lines|, i requires 0 <= i < |lines| => ReadLine(unquote, i + 1, lines[i]))
  }

  function Apply(p: Parsed, outcome: Outcome): Parsed {
    match outcome
    case Ignored => p
    case Warned(w) => p.(warnings := p.warnings + [w])
    case Assigned(k, v) => p.(values := p.values[k := v])
  }

  /** Everything the outcomes leave behind; a later assignment replaces an earlier one. */
  function Collect(outcomes: seq<Outcome>): Parsed
    decreases |outcomes|
  {
    if outcomes == [] then Parsed(map[], [])
    else Apply(Collect(outcomes[..|outcomes| - 1]), outcomes[|outcomes| - 1])
  }

  lemma CollectSnoc(outcomes: seq<Outcome>, last: Outcome)
    ensures Collect(outcomes + [last]) == Apply(Collect(outcomes), last)
  {
    assert (outcomes + [last])[..|outcomes|] == outcomes;
  }

  /** What the first `i` lines leave behind. */
  function After(unquote: Unquote, lines: seq<Bytes>, i: nat): Parsed
    requires i <= |lines|
  {
    Collect(Outcomes(unquote, lines[..i]))
  }

  function ParseText(unquote: Unquote, data: Bytes): Parsed {
    var lines := Split(data, NEWLINE);
    After(unquote, lines, |lines|)
  }

  lemma AfterNext(unquote: Unquote, lines: seq<Bytes>, i: nat)
    requires i < |lines|
    ensures After(unquote, lines, i + 1) == Apply(After(unquote, lines, i), ReadLine(unquote, i + 1, lines[i]))
  {
    assert Outcomes(unquote, lines[..i + 1]) == Outcomes(unquote, lines[..i]) + [ReadLine(unquote, i + 1, lines[i])];
    CollectSnoc(Outcomes(unquote, lines[..i]), ReadLine(unquote, i + 1, lines[i]));
  }

  method ParseRelease(unquote: Unquote, data: Bytes)
    returns (values: map<Bytes, Bytes>, warnings: seq<LineWarning>)
    ensures Parsed(values, warnings) == ParseText(unquote, data)
  {
    values, warnings := map[], [];
    var lines := Split(data, NEWLINE);
    for index := 0 to |lines|
      invariant Parsed(values, warnings) == After(unquote, lines, index)
    {
      AfterNext(unquote, lines, index);
      var line := TrimSpace(lines[index]);
      if line == [] || line[0] == HASH {
        continue;
      }
      var cut := Cut(line, EQUALS);
      var key := TrimSpace(if cut.Some? then cut.value.0 else line);
      if cut.None? || key == [] {
        warnings := warnings + [ExpectedKeyValue(index + 1)];
        continue;
      }
      var value := ParseValue(unquote, TrimSpace(cut.value.1));
      if value.Err? {
        warnings := warnings + [BadValue(index + 1, key, value.error)];
        continue;
      }
      values := values[key := value.value];
    }
  }

  method ParseAssignments(unquote: Unquote, data: Bytes)
    returns (values: map<Bytes, Bytes>, warnings: seq<LineWarning>)
    ensures Parsed(values, warnings) == ParseText(unquote, data)
  {
    values, warnings := map[], [];
    var lines := Split(data, NEWLINE);
    for index := 0 to |lines|
      invariant Parsed(values, warnings) == After(unquote, lines, index)
    {
      AfterNext(unquote, lines, index);
      var line := TrimSpace(lines[index]);
      if line != [] && line[0] != HASH {
        var cut := Cut(line, EQUALS);
        if cut.None? || TrimSpace(cut.value.0) == [] {
          warnings := warnings + [ExpectedKeyValue(index + 1)];
        } else {
          var value := ParseValue(unquote, TrimSpace(cut.value.1));
          if value.Err? {
            warnings := warnings + [BadValue(index + 1, TrimSpace(cut.value.0), value.error)];
          } else {
            values := values[TrimSpace(cut.value.0) := value.value];
          }
        }
      }
    }
  }

  /** Both parsers, on any bytes and with any unquoting. */
  method ParsersAgree(unquote: Unquote, data: Bytes) returns (same: bool)
    ensures same
  {
    var values, warnings := ParseRelease(unquote, data);
    var values', warnings' := ParseAssignments(unquote, data);
    same := values == values' && warnings == warnings';
  }

  // ---- accounting ----

  predicate IsLastAssignment(outcomes: seq<Outcome>, i: nat, key: Bytes) {
    && i < |outcomes| && outcomes[i].Assigned? && outcomes[i].key == key
    && forall j :: i < j < |outcomes| ==> !(outcomes[j].Assigned? && outcomes[j].key == key)
  }

  function IgnoredCount(outcomes: seq<Outcome>): nat {
    if outcomes == [] then 0
    else IgnoredCount(outcomes[..|outcomes| - 1]) + (if outcomes[|outcomes| - 1].Ignored? then 1 else 0)
  }

  function AssignedCount(outcomes: seq<Outcome>): nat {
    if outcomes == [] then 0
    else AssignedCount(outcomes[..|outcomes| - 1]) + (if outcomes[|outcomes| - 1].Assigned? then 1 else 0)
  }

  /** Every line is counted once: ignored, warned about, or assigned. Every key holds
      its last accepted value and no key appears that no line assigned. */
  lemma {:induction false} CollectAccounts(outcomes: seq<Outcome>)
    ensures var p := Collect(outcomes);
            && IgnoredCount(outcomes) + |p.warnings| + AssignedCount(outcomes) == |outcomes|
            && (forall k :: k in p.values ==>
                  exists i: nat :: IsLastAssignment(outcomes, i, k) && p.values[k] == outcomes[i].value)
            && (forall i :: 0 <= i < |outcomes| && outcomes[i].Assigned? ==> outcomes[i].key in p.values)
    decreases |outcomes|
  {
    if outcomes != [] {
      var n := |outcomes| - 1;
      var front, last := outcomes[..n], outcomes[n];
      CollectAccounts(front);
      var p, q := Collect(outcomes), Collect(front);
      forall k | k in p.values
        ensures exists i: nat :: IsLastAssignment(outcomes, i, k) && p.values[k] == outcomes[i].value
      {
        if last.Assigned? && last.key == k {
          assert IsLastAssignment(outcomes, n, k);
        } else {
          var i: nat :| IsLastAssignment(front, i, k) && q.values[k] == front[i].value;
          assert IsLastAssignment(outcomes, i, k);
        }
      }
    }
  }

  /** Each warning is the one its line earns, and warnings keep line order. */
  lemma {:induction false} WarningsLocate(unquote: Unquote, lines: seq<Bytes>, i: nat)
    requires i <= |lines|
    ensures var ws := After(unquote, lines, i).warnings;
            && (forall k :: 0 <= k < |ws| ==>
                  1 <= ws[k].line <= i && ReadLine(unquote, ws[k].line, lines[ws[k].line - 1]) == Warned(ws[k]))
            && forall j, k :: 0 <= j < k < |ws| ==> ws[j].line < ws[k].line
  {
    hide ReadLine;
    if i > 0 {
      WarningsLocate(unquote, lines, i - 1);
      AfterNext(unquote, lines, i - 1);
      WarnedLine(unquote, i, lines[i - 1]);
    }
  }

  lemma WarnedLine(unquote: Unquote, number: nat, raw: Bytes)
    ensures ReadLine(unquote, number, raw).Warned? ==> ReadLine(unquote, number, raw).warning.line == number
  {
  }

  // ---- round trip ----

  predicate WellFormedKey(key: Bytes) {
    && key != [] && key[0] != HASH
    && EQUALS !in key && NEWLINE !in key
    && SpaceHead(key) == 0 && SpaceTail(key) == 0
  }

  function PrintLine(key: Bytes, value: Bytes): Bytes {
    key + [EQUALS] + ([APOSTROPHE] + value + [APOSTROPHE])
  }

  function Print(pairs: seq<(Bytes, Bytes)>): Bytes {
    if pairs == [] then []
    else PrintLine(pairs[0].0, pairs[0].1) + [NEWLINE] + Print(pairs[1..])
  }

  predicate Printable(pairs: seq<(Bytes, Bytes)>) {
    forall i :: 0 <= i < |pairs| ==> WellFormedKey(pairs[i].0) && NEWLINE !in pairs[i].1
  }

  lemma PrintedLineTrimmed(key: Bytes, value: Bytes)
    requires WellFormedKey(key)
    ensures TrimSpace(PrintLine(key, value)) == PrintLine(key, value)
  {
    var line := PrintLine(key, value);
    assert line[0] == key[0] && line[|key|] == EQUALS;
    assert |key| > 1 ==> line[1] == key[1];
    assert |key| > 2 ==> line[2] == key[2];
    assert SpaceHead(line) == 0;
    assert line[|line| - 1] == APOSTROPHE;
    assert SpaceTail(line) == 0;
  }

  lemma QuotedValue(unquote: Unquote, value: Bytes)
    ensures var quoted := [APOSTROPHE] + value + [APOSTROPHE];
            TrimSpace(quoted) == quoted && ParseValue(unquote, quoted) == Ok(value)
  {
    var quoted := [APOSTROPHE] + value + [APOSTROPHE];
    assert quoted[|quoted| - 1] == APOSTROPHE;
    assert SpaceTail(quoted) == 0 && SpaceHead(quoted) == 0;
    assert quoted[1..|quoted| - 1] == value;
  }

  lemma ReadPrintedLine(unquote: Unquote, number: nat, key: Bytes, value: Bytes)
    requires WellFormedKey(key)
    ensures ReadLine(unquote, number, PrintLine(key, value)) == Assigned(key, value)
  {
    var line := PrintLine(key, value);
    assert line[0] == key[0];
    PrintedLineTrimmed(key, value);
    CutAt(key, EQUALS, [APOSTROPHE] + value + [APOSTROPHE]);
    assert TrimSpace(key) == key;
    QuotedValue(unquote, value);
  }

  function PrintedLines(pairs: seq<(Bytes, Bytes)>): (r: seq<Bytes>)
    ensures |r| == |pairs|
    ensures forall i :: 0 <= i < |pairs| ==> r[i] == PrintLine(pairs[i].0, pairs[i].1)
  {
    seq(|pairs|, i requires 0 <= i < |pairs| => PrintLine(pairs[i].0, pairs[i].1))
  }

  lemma {:induction false} SplitPrinted(pairs: seq<(Bytes, Bytes)>)
    requires Printable(pairs)
    ensures Split(Print(pairs), NEWLINE) == PrintedLines(pairs) + [[]]
  {
    if pairs != [] {
      var line := PrintLine(pairs[0].0, pairs[0].1);
      assert NEWLINE !in line;
      SplitPart(line, NEWLINE);
      SplitAppend(line, NEWLINE, Print(pairs[1..]));
      SplitPrinted(pairs[1..]);
      assert PrintedLines(pairs) == [line] + PrintedLines(pairs[1..]);
    }
  }

  function MapOf(pairs: seq<(Bytes, Bytes)>): map<Bytes, Bytes> {
    if pairs == [] then map[] else MapOf(pairs[..|pairs| - 1])[pairs[|pairs| - 1].0 := pairs[|pairs| - 1].1]
  }

  lemma {:induction false} CollectPrinted(unquote: Unquote, pairs: seq<(Bytes, Bytes)>, i: nat)
    requires Printable(pairs) && i <= |pairs|
    ensures After(unquote, PrintedLines(pairs), i) == Parsed(MapOf(pairs[..i]), [])
  {
    if i > 0 {
      CollectPrinted(unquote, pairs, i - 1);
      AfterNext(unquote, PrintedLines(pairs), i - 1);
      ReadPrintedLine(unquote, i, pairs[i - 1].0, pairs[i - 1].1);
      assert pairs[..i][..i - 1] == pairs[..i - 1];
    }
  }

  /** Printing assignments as KEY='VALUE' lines and parsing them gives them back with no
      warning, for every well-formed key and every value without a newline, quotes and
      surrounding spaces included. */
  lemma ReleaseRoundTrip(unquote: Unquote, pairs: seq<(Bytes, Bytes)>)
    requires Printable(pairs)
    ensures ParseText(unquote, Print(pairs)) == Parsed(MapOf(pairs), [])
  {
    var lines := PrintedLines(pairs) + [[]];
    var n := |pairs|;
    SplitPrinted(pairs);
    CollectPrinted(unquote, pairs, n);
    assert lines[..n] == PrintedLines(pairs) && PrintedLines(pairs)[..n] == PrintedLines(pairs);
    assert pairs[..n] == pairs;
    AfterNext(unquote, lines, n);
    assert ReadLine(unquote, n + 1, []) == Ignored;
  }

  /** In particular for the entries of a map, listed in any order. */
  lemma ReleaseMapRoundTrip(unquote: Unquote, m: map<Bytes, Bytes>, pairs: seq<(Bytes, Bytes)>)
    requires Printable(pairs)
    requires forall i :: 0 <= i < |pairs| ==> pairs[i] in m.Items
    requires forall k :: k in m ==> (k, m[k]) in pairs
    ensures ParseText(unquote, Print(pairs)) == Parsed(m, [])
  {
    hide Printable, MapOf, ParseText, Print;
    ReleaseRoundTrip(unquote, pairs);
    MapOfAll(m, pairs);
  }

  lemma MapOfAll(m: map<Bytes, Bytes>, pairs: seq<(Bytes, Bytes)>)
    requires forall i :: 0 <= i < |pairs| ==> pairs[i] in m.Items
    requires forall k :: k in m ==> (k, m[k]) in pairs
    ensures MapOf(pairs) == m
  {
    hide MapOf;
    MapOfEntries(m, pairs);
    forall k | k in m ensures k in MapOf(pairs) {
      var i :| 0 <= i < |pairs| && pairs[i] == (k, m[k]);
      assert pairs[i].0 in MapOf(pairs);
    }
  }

  lemma {:induction false} MapOfEntries(m: map<Bytes, Bytes>, pairs: seq<(Bytes, Bytes)>)
    requires forall i :: 0 <= i < |pairs| ==> pairs[i] in m.Items
    ensures forall k :: k in MapOf(pairs) ==> k in m && MapOf(pairs)[k] == m[k]
    ensures forall i :: 0 <= i < |pairs| ==> pairs[i].0 in MapOf(pairs)
    decreases |pairs|
  {
    if pairs != [] {
      MapOfEntries(m, pairs[..|pairs| - 1]);
      assert pairs[|pairs| - 1] in m.Items;
    }
  }
}
