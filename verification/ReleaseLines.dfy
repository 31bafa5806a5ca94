/** What a KEY=VALUE file means, over its bytes: what each line contributes is a relation
    between the line and the outcome, and both parsers compute what the lines say. */
module ReleaseLines {
  import opened Text
  import opened Utf8
  import opened Trimming
  import opened ReleaseFile

  // ---- the meaning of a line ----

  /** The first byte that is not space is a `#`. */
  ghost predicate Commented(raw: Bytes) {
    exists before, rest :: Blank(before) && raw == before + [HASH] + rest
  }

  /** `text` is the trimmed text in `s`. */
  ghost predicate Holds(s: Bytes, text: Bytes) { Trimmed(text) && Within(s, text) }

  /** The line reads `key = value`, space around either being of no account. */
  ghost predicate Says(raw: Bytes, key: Bytes, value: Bytes) {
    exists k, v :: Parts(raw, k, v) && Holds(k, key) && Holds(v, value)
  }

  /** What stands before the first `=` and behind it. */
  predicate Parts(raw: Bytes, k: Bytes, v: Bytes) {
    raw == k + [EQUALS] + v && EQUALS !in k
  }

  /** What a trimmed value stands for: itself, what is between its apostrophes, or what
      `unquote` makes of it; and the two ways to be wrong. */
  predicate Means(unquote: Unquote, value: Bytes, r: Result<Bytes, ValueError>) {
    match r
    case Ok(x) =>
      || (x == value && (value == [] || (value[0] != APOSTROPHE && value[0] != QUOTE)))
      || value == [APOSTROPHE] + x + [APOSTROPHE]
      || (value != [] && value[0] == QUOTE && unquote(value) == Ok(x))
    case Err(UnterminatedSingleQuote) =>
      value != [] && value[0] == APOSTROPHE && (|value| == 1 || value[|value| - 1] != APOSTROPHE)
    case Err(InvalidDoubleQuote(detail)) =>
      value != [] && value[0] == QUOTE && unquote(value) == Err(detail)
  }

  ghost predicate Contributes(unquote: Unquote, number: nat, raw: Bytes, outcome: Outcome) {
    match outcome
    case Ignored => Blank(raw) || Commented(raw)
    case Warned(ExpectedKeyValue(line)) =>
      && line == number && !Blank(raw) && !Commented(raw)
      && (EQUALS !in raw || exists value :: Says(raw, [], value))
    case Warned(BadValue(line, key, error)) =>
      && line == number && !Commented(raw) && key != []
      && exists value :: Says(raw, key, value) && Means(unquote, value, Err(error))
    case Assigned(key, x) =>
      && !Commented(raw) && key != []
      && exists value :: Says(raw, key, value) && Means(unquote, value, Ok(x))
  }

  // ---- and its computation ----

  lemma PartsCut(raw: Bytes, k: Bytes, v: Bytes)
    ensures Parts(raw, k, v) <==> Cut(raw, EQUALS) == Some((k, v))
  {
    CutIff(raw, EQUALS);
    if Parts(raw, k, v) {
      CutAt(k, EQUALS, v);
    }
  }

  /** Space is no printable ASCII. */
  lemma {:induction false} BlankBytes(s: Bytes, b: Byte)
    requires Blank(s) && 0x21 <= b < 0x7f
    ensures b !in s
    decreases |s|
  {
    if s != [] {
      var n := SpaceHead(s);
      BlankBytes(s[n..], b);
      assert s == s[..n] + s[n..] && b !in s[..n];
    }
  }

  lemma BlankIff(raw: Bytes)
    ensures Blank(raw) <==> TrimSpace(raw) == []
  {
    hide Blank, TrimSpace;
    TrimSpaceIff(raw, []);
    NothingBlank();
    if Within(raw, []) {
      var before, after :| Blank(before) && Blank(after) && raw == before + [] + after;
      BlankJoined(before, after);
      assert before + [] == before;
    }
    if Blank(raw) {
      assert raw == raw + [] + [];
    }
  }

  lemma NotBlank(raw: Bytes, i: nat)
    requires i < |raw| && raw[i] == HASH
    ensures !Blank(raw)
  {
    if Blank(raw) {
      BlankBytes(raw, HASH);
    }
  }

  lemma MarkKept(raw: Bytes, before: Bytes, rest: Bytes)
    requires Blank(before) && raw == before + [HASH] + rest
    ensures TrimSpace(raw) != [] && TrimSpace(raw)[0] == HASH
  {
    hide Blank, SpaceTail, TrimRight;
    var marked := [HASH] + rest;
    assert raw == before + marked;
    TrimLeftBlank(before, marked);
    assert TrimLeft(marked) == marked;
    TrimRightKeeps(marked);
    assert raw[|before|] == HASH;
    NotBlank(raw, |before|);
    BlankIff(raw);
  }

  lemma CommentedIff(raw: Bytes)
    ensures Commented(raw) <==> TrimSpace(raw) != [] && TrimSpace(raw)[0] == HASH
  {
    hide Blank;
    var line := TrimSpace(raw);
    if Commented(raw) {
      var before, rest :| Blank(before) && raw == before + [HASH] + rest;
      MarkKept(raw, before, rest);
    }
    if line != [] && line[0] == HASH {
      hide TrimSpace;
      TrimSpaceIff(raw, line);
      var before, after :| Blank(before) && Blank(after) && raw == before + line + after;
      assert raw == before + [HASH] + (line[1..] + after);
    }
  }

  /** The space around a line is the space around its first or last part. */
  lemma CutOfTrimmed(raw: Bytes)
    ensures Cut(TrimSpace(raw), EQUALS).None? <==> EQUALS !in raw
    ensures Cut(TrimSpace(raw), EQUALS).Some? ==>
              var (k, v) := Cut(TrimSpace(raw), EQUALS).value;
              exists k', v' :: Parts(raw, k', v') && TrimSpace(k') == TrimSpace(k) && TrimSpace(v') == TrimSpace(v)
  {
    hide Blank, TrimSpace, Parts;
    var line := TrimSpace(raw);
    TrimSpaceIff(raw, line);
    var before, after :| Blank(before) && Blank(after) && raw == before + line + after;
    BlankBytes(before, EQUALS);
    BlankBytes(after, EQUALS);
    NothingBlank();
    CutIff(line, EQUALS);
    if Cut(line, EQUALS).Some? {
      var (k, v) := Cut(line, EQUALS).value;
      PartsWider(raw, before, k, v, after);
      TrimAround(before, k, []);
      TrimAround([], v, after);
      assert before + k + [] == before + k && [] + v + after == v + after;
    }
  }

  lemma PartsWider(raw: Bytes, before: Bytes, k: Bytes, v: Bytes, after: Bytes)
    requires raw == before + (k + [EQUALS] + v) + after && EQUALS !in before && EQUALS !in k
    ensures Parts(raw, before + k, v + after)
  {
  }

  lemma SaysIff(raw: Bytes, key: Bytes, value: Bytes)
    ensures var cut := Cut(TrimSpace(raw), EQUALS);
            Says(raw, key, value) <==>
              cut.Some? && TrimSpace(cut.value.0) == key && TrimSpace(cut.value.1) == value
  {
    hide Trimmed, Within, TrimSpace, Parts;
    var cut := Cut(TrimSpace(raw), EQUALS);
    CutOfTrimmed(raw);
    if Says(raw, key, value) {
      var k, v :| Parts(raw, k, v) && Holds(k, key) && Holds(v, value);
      PartsCut(raw, k, v);
      CutIff(raw, EQUALS);
      TrimSpaceIff(k, key);
      TrimSpaceIff(v, value);
      var k', v' :| Parts(raw, k', v') && TrimSpace(k') == TrimSpace(cut.value.0)
                    && TrimSpace(v') == TrimSpace(cut.value.1);
      PartsCut(raw, k', v');
    }
    if cut.Some? && TrimSpace(cut.value.0) == key && TrimSpace(cut.value.1) == value {
      var k', v' :| Parts(raw, k', v') && TrimSpace(k') == key && TrimSpace(v') == value;
      TrimSpaceIff(k', key);
      TrimSpaceIff(v', value);
    }
  }

  lemma ValueIff(unquote: Unquote, value: Bytes, r: Result<Bytes, ValueError>)
    ensures ParseValue(unquote, value) == r <==> Means(unquote, value, r)
  {
    if value != [] && value[0] == APOSTROPHE && |value| >= 2 && value[|value| - 1] == APOSTROPHE {
      assert value == [APOSTROPHE] + value[1..|value| - 1] + [APOSTROPHE];
    }
    if r.Ok? && value == [APOSTROPHE] + r.value + [APOSTROPHE] {
      assert value[0] == APOSTROPHE && value[|value| - 1] == APOSTROPHE;
      assert value[1..|value| - 1] == r.value;
    }
  }

  /** A line contributes exactly what it is read as: for every line, whatever its bytes. */
  lemma LineMeans(unquote: Unquote, number: nat, raw: Bytes, outcome: Outcome)
    ensures ReadLine(unquote, number, raw) == outcome <==> Contributes(unquote, number, raw, outcome)
  {
    hide Blank, Commented, TrimSpace, Says, Means, ParseValue;
    BlankIff(raw);
    CommentedIff(raw);
    var cut := Cut(TrimSpace(raw), EQUALS);
    forall key, value
      ensures Says(raw, key, value) <==>
                cut.Some? && TrimSpace(cut.value.0) == key && TrimSpace(cut.value.1) == value
    {
      SaysIff(raw, key, value);
    }
    forall value, r ensures ParseValue(unquote, value) == r <==> Means(unquote, value, r) {
      ValueIff(unquote, value, r);
    }
    CutOfTrimmed(raw);
    BlankWithout(raw);
    if cut.Some? {
      assert Says(raw, TrimSpace(cut.value.0), TrimSpace(cut.value.1));
    }
  }

  lemma BlankWithout(raw: Bytes)
    ensures Blank(raw) ==> EQUALS !in raw
  {
    if Blank(raw) {
      BlankBytes(raw, EQUALS);
    }
  }

  // ---- whole files ----

  predicate Maps(values: map<Bytes, Bytes>, key: Bytes, x: Bytes) { key in values && values[key] == x }

  /** Line `i` is the last one that assigns `key`, and it assigns `x`. */
  ghost predicate LastAssigns(unquote: Unquote, lines: seq<Bytes>, i: nat, key: Bytes, x: Bytes) {
    && i < |lines| && Contributes(unquote, i + 1, lines[i], Assigned(key, x))
    && forall j, y :: i < j < |lines| ==> !Contributes(unquote, j + 1, lines[j], Assigned(key, y))
  }

  ghost predicate Warns(unquote: Unquote, lines: seq<Bytes>, i: nat, w: LineWarning) {
    i < |lines| && Contributes(unquote, i + 1, lines[i], Warned(w))
  }

  lemma {:induction false} SplitJoin(lines: seq<Bytes>, sep: Byte)
    requires lines != [] && forall i :: 0 <= i < |lines| ==> sep !in lines[i]
    ensures Split(Join(lines, sep), sep) == lines
  {
    SplitPart(lines[0], sep);
    if |lines| > 1 {
      SplitAppend(lines[0], sep, Join(lines[1..], sep));
      SplitJoin(lines[1..], sep);
    } else {
      assert lines == [lines[0]];
    }
  }

  lemma LineMeansAll(unquote: Unquote, number: nat, raw: Bytes)
    ensures forall outcome ::
              ReadLine(unquote, number, raw) == outcome <==> Contributes(unquote, number, raw, outcome)
  {
    hide ReadLine, Contributes;
    forall outcome
      ensures ReadLine(unquote, number, raw) == outcome <==> Contributes(unquote, number, raw, outcome)
    {
      LineMeans(unquote, number, raw, outcome);
    }
  }

  lemma {:induction false} WarningsOf(unquote: Unquote, lines: seq<Bytes>, i: nat, w: LineWarning)
    requires i <= |lines|
    ensures w in After(unquote, lines, i).warnings <==> exists j: nat :: j < i && Warns(unquote, lines, j, w)
  {
    hide ReadLine, Contributes;
    if i > 0 {
      WarningsOf(unquote, lines, i - 1, w);
      AfterNext(unquote, lines, i - 1);
      LineMeansAll(unquote, i, lines[i - 1]);
      assert Warns(unquote, lines, i - 1, w) <==> ReadLine(unquote, i, lines[i - 1]) == Warned(w);
    }
  }

  lemma ValuesOf(unquote: Unquote, lines: seq<Bytes>, key: Bytes, x: Bytes)
    ensures Maps(After(unquote, lines, |lines|).values, key, x) <==>
              exists i: nat :: LastAssigns(unquote, lines, i, key, x)
  {
    hide ReadLine, Contributes, Collect;
    assert lines[..|lines|] == lines;
    var outcomes := Outcomes(unquote, lines);
    CollectAccounts(outcomes);
    forall i: nat | i < |lines|
      ensures forall y :: outcomes[i] == Assigned(key, y) <==> Contributes(unquote, i + 1, lines[i], Assigned(key, y))
    {
      LineMeansAll(unquote, i + 1, lines[i]);
    }
    var values := Collect(outcomes).values;
    if i: nat :| LastAssigns(unquote, lines, i, key, x) {
      assert outcomes[i] == Assigned(key, x);
      assert key in values;
    }
    if key in values {
      var j: nat :| IsLastAssignment(outcomes, j, key) && values[key] == outcomes[j].value;
      LastIs(unquote, lines, outcomes, j, key, values[key]);
      if i: nat :| LastAssigns(unquote, lines, i, key, x) {
        LastUnique(unquote, lines, i, j, key, x, values[key]);
      }
    }
  }

  lemma LastIs(unquote: Unquote, lines: seq<Bytes>, outcomes: seq<Outcome>, j: nat, key: Bytes, x: Bytes)
    requires |outcomes| == |lines| && IsLastAssignment(outcomes, j, key) && outcomes[j].value == x
    requires forall i: nat, y :: i < |lines| ==>
               (outcomes[i] == Assigned(key, y) <==> Contributes(unquote, i + 1, lines[i], Assigned(key, y)))
    ensures LastAssigns(unquote, lines, j, key, x)
  {
    hide Contributes;
    assert outcomes[j] == Assigned(key, x);
  }

  lemma LastUnique(unquote: Unquote, lines: seq<Bytes>, i: nat, j: nat, key: Bytes, x: Bytes, y: Bytes)
    requires LastAssigns(unquote, lines, i, key, x) && LastAssigns(unquote, lines, j, key, y)
    ensures i == j && x == y
  {
    hide Contributes, ReadLine;
    LineMeansAll(unquote, i + 1, lines[i]);
  }

  /** What a file means: each key holds what the last line that assigns it says, there is
      a warning exactly for each line that earns one, and warnings are in line order. Every
      file is such a list of lines (`Text.JoinSplit`). */
  lemma FileMeans(unquote: Unquote, lines: seq<Bytes>)
    requires lines != [] && forall i :: 0 <= i < |lines| ==> NEWLINE !in lines[i]
    ensures var p := ParseText(unquote, Join(lines, NEWLINE));
            && (forall key, x :: Maps(p.values, key, x) <==>
                  exists i: nat :: LastAssigns(unquote, lines, i, key, x))
            && (forall w :: w in p.warnings <==> exists i: nat :: Warns(unquote, lines, i, w))
            && forall j, k :: 0 <= j < k < |p.warnings| ==> p.warnings[j].line < p.warnings[k].line
  {
    hide After, LastAssigns, Contributes, ReadLine, Maps;
    SplitJoin(lines, NEWLINE);
    var p := ParseText(unquote, Join(lines, NEWLINE));
    WarningsLocate(unquote, lines, |lines|);
    forall key, x
      ensures Maps(p.values, key, x) <==> exists i: nat :: LastAssigns(unquote, lines, i, key, x)
    {
      ValuesOf(unquote, lines, key, x);
    }
    forall w ensures w in p.warnings <==> exists i: nat :: Warns(unquote, lines, i, w) {
      WarningsOf(unquote, lines, |lines|, w);
    }
  }

  // ---- round trip, however the lines are written ----

  /** A line that says `key = value` is a comment only if the key begins with `#`. */
  lemma SaysUncommented(raw: Bytes, key: Bytes, value: Bytes)
    requires Says(raw, key, value) && Commented(raw)
    ensures key != [] && key[0] == HASH
  {
    hide Blank, Trimmed, Within, TrimSpace;
    var k, v :| Parts(raw, k, v) && Holds(k, key) && Holds(v, value);
    var before, rest :| Blank(before) && raw == before + [HASH] + rest;
    BlankBytes(before, EQUALS);
    assert raw[|k|] == EQUALS && raw[|before|] == HASH;
    assert forall i :: 0 <= i < |before| ==> raw[i] == before[i] != EQUALS;
    assert |before| < |k|;
    assert k == raw[..|k|] && before == raw[..|before|];
    assert k == before + [HASH] + k[|before| + 1..];
    CommentedIff(k);
    TrimSpaceIff(k, key);
  }

  /** `key = value` without quotes, space around either: the value is what stands there. */
  lemma BareLine(unquote: Unquote, number: nat, k: Bytes, key: Bytes, v: Bytes, value: Bytes)
    requires Holds(k, key) && key != [] && key[0] != HASH && EQUALS !in k
    requires Holds(v, value) && (value == [] || (value[0] != APOSTROPHE && value[0] != QUOTE))
    ensures ReadLine(unquote, number, k + [EQUALS] + v) == Assigned(key, value)
  {
    hide Holds, Blank, Commented, ReadLine;
    var raw := k + [EQUALS] + v;
    assert Parts(raw, k, v);
    assert Says(raw, key, value);
    if Commented(raw) {
      SaysUncommented(raw, key, value);
    }
    assert Means(unquote, value, Ok(value));
    LineMeans(unquote, number, raw, Assigned(key, value));
  }

  /** The lines say the pairs, each in a way of its own. */
  ghost predicate Written(unquote: Unquote, lines: seq<Bytes>, pairs: seq<(Bytes, Bytes)>) {
    && |lines| == |pairs| > 0
    && forall i :: 0 <= i < |lines| ==>
         && NEWLINE !in lines[i]
         && Contributes(unquote, i + 1, lines[i], Assigned(pairs[i].0, pairs[i].1))
  }

  lemma {:induction false} CollectWritten(unquote: Unquote, lines: seq<Bytes>, pairs: seq<(Bytes, Bytes)>, i: nat)
    requires Written(unquote, lines, pairs) && i <= |lines|
    ensures After(unquote, lines, i) == Parsed(MapOf(pairs[..i]), [])
  {
    hide Contributes, ReadLine;
    if i > 0 {
      CollectWritten(unquote, lines, pairs, i - 1);
      AfterNext(unquote, lines, i - 1);
      LineMeans(unquote, i, lines[i - 1], Assigned(pairs[i - 1].0, pairs[i - 1].1));
      assert pairs[..i][..i - 1] == pairs[..i - 1];
    }
  }

  /** Assignments written bare, between apostrophes or in double quotes, line by line as
      one likes, parse back with the last one of a key winning and without a warning. */
  lemma AnyStyleRoundTrip(unquote: Unquote, lines: seq<Bytes>, pairs: seq<(Bytes, Bytes)>)
    requires Written(unquote, lines, pairs)
    ensures ParseText(unquote, Join(lines, NEWLINE)) == Parsed(MapOf(pairs), [])
  {
    hide Contributes, After;
    SplitJoin(lines, NEWLINE);
    CollectWritten(unquote, lines, pairs, |lines|);
    assert pairs[..|lines|] == pairs;
  }
}
