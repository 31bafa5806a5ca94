/** Regular expressions, matched against a whole text, and the three of the agent: what the
    predicates of `Identifiers` and `CoreClient` accept is exactly what they match. */
module Patterns {
  import opened Text
  import opened Identifiers
  import CoreClient

  /** A class is given by its ranges; `UpTo(r, n)` is `r{0,n}`. */
  datatype Regex = Class(ranges: seq<(char, char)>) | Then(a: Regex, b: Regex) | Star(r: Regex) | UpTo(r: Regex, n: nat)

  function Size(r: Regex): nat {
    match r
    case Class(_) => 0
    case Then(a, b) => Size(a) + Size(b) + 1
    case Star(x) => Size(x) + 1
    case UpTo(x, n) => Size(x) + n + 1
  }

  predicate InClass(ranges: seq<(char, char)>, b: Byte) {
    exists k :: 0 <= k < |ranges| && ranges[k].0 as int <= b <= ranges[k].1 as int
  }

  predicate Matches(r: Regex, s: Bytes)
    decreases Size(r), |s|
  {
    match r
    case Class(ranges) => |s| == 1 && InClass(ranges, s[0])
    case Then(a, b) => exists i :: 0 <= i <= |s| && Matches(a, s[..i]) && Matches(b, s[i..])
    case Star(x) => s == [] || exists i :: 0 < i <= |s| && Matches(x, s[..i]) && Matches(r, s[i..])
    case UpTo(x, n) =>
      s == [] || (n > 0 && exists i :: 0 <= i <= |s| && Matches(x, s[..i]) && Matches(UpTo(x, n - 1), s[i..]))
  }

  function Plus(r: Regex): Regex { Then(r, Star(r)) }

  const DIGIT := ('0', '9')
  const LOWER := ('a', 'z')
  const UPPER := ('A', 'Z')

  /** `^[A-Za-z0-9][A-Za-z0-9._-]{0,127}$` */
  const NODE_ID := Then(Class([UPPER, LOWER, DIGIT]),
                        UpTo(Class([UPPER, LOWER, DIGIT, ('.', '.'), ('_', '_'), ('-', '-')]), 127))

  /** `^[A-Za-z0-9][A-Za-z0-9._:-]{0,127}$` */
  const REVISION := Then(Class([UPPER, LOWER, DIGIT]),
                         UpTo(Class([UPPER, LOWER, DIGIT, ('.', '.'), ('_', '_'), (':', ':'), ('-', '-')]), 127))

  const WORD := Plus(Class([LOWER, DIGIT]))

  /** `(?:-[a-z0-9]+)*` */
  const MORE_WORDS := Star(Then(Class([('-', '-')]), WORD))

  /** `^[a-z0-9]+(?:-[a-z0-9]+)*$` */
  const IDENTIFIER := Then(WORD, MORE_WORDS)

  predicate AllInClass(ranges: seq<(char, char)>, s: Bytes) {
    forall i :: 0 <= i < |s| ==> InClass(ranges, s[i])
  }

  lemma AllInCons(ranges: seq<(char, char)>, s: Bytes)
    requires s != []
    ensures AllInClass(ranges, s) <==> InClass(ranges, s[0]) && AllInClass(ranges, s[1..])
  {
    hide InClass;
    assert s == [s[0]] + s[1..];
  }

  lemma OneMatches(ranges: seq<(char, char)>, s: Bytes, i: nat)
    requires i <= |s|
    ensures Matches(Class(ranges), s[..i]) <==> i == 1 && InClass(ranges, s[0])
  {
    hide InClass;
  }

  lemma {:induction false} UpToMatches(ranges: seq<(char, char)>, n: nat, s: Bytes)
    ensures Matches(UpTo(Class(ranges), n), s) <==> |s| <= n && AllInClass(ranges, s)
  {
    hide InClass;
    if n > 0 && s != [] {
      UpToMatches(ranges, n - 1, s[1..]);
      AllInCons(ranges, s);
      forall i: nat | i <= |s| ensures Matches(Class(ranges), s[..i]) <==> i == 1 && InClass(ranges, s[0]) {
        OneMatches(ranges, s, i);
      }
    }
  }

  lemma {:induction false} StarMatches(ranges: seq<(char, char)>, s: Bytes)
    ensures Matches(Star(Class(ranges)), s) <==> AllInClass(ranges, s)
    decreases |s|
  {
    hide InClass;
    if s != [] {
      StarMatches(ranges, s[1..]);
      AllInCons(ranges, s);
      forall i: nat | i <= |s| ensures Matches(Class(ranges), s[..i]) <==> i == 1 && InClass(ranges, s[0]) {
        OneMatches(ranges, s, i);
      }
    }
  }

  /** A first class and then another. */
  lemma FirstMatches(ranges: seq<(char, char)>, rest: Regex, s: Bytes)
    ensures Matches(Then(Class(ranges), rest), s) <==> s != [] && InClass(ranges, s[0]) && Matches(rest, s[1..])
  {
    hide InClass;
    forall i: nat | i <= |s| ensures Matches(Class(ranges), s[..i]) <==> i == 1 && s != [] && InClass(ranges, s[0]) {
      if s != [] {
        OneMatches(ranges, s, i);
      }
    }
  }

  lemma AlnumIs(b: Byte)
    ensures InClass([UPPER, LOWER, DIGIT], b) <==> IsAlnum(b)
    ensures InClass([UPPER, LOWER, DIGIT, ('.', '.'), ('_', '_'), ('-', '-')], b) <==> CoreClient.NodeIdByte(b)
    ensures InClass([UPPER, LOWER, DIGIT, ('.', '.'), ('_', '_'), (':', ':'), ('-', '-')], b) <==>
              IsAlnum(b) || b in {DOT, UNDERSCORE, COLON, HYPHEN}
  {
    var ranges := [UPPER, LOWER, DIGIT, ('.', '.'), ('_', '_'), (':', ':'), ('-', '-')];
    var node := [UPPER, LOWER, DIGIT, ('.', '.'), ('_', '_'), ('-', '-')];
    var alnum := [UPPER, LOWER, DIGIT];
    assert alnum[0] == UPPER && alnum[1] == LOWER && alnum[2] == DIGIT;
    assert node[0] == UPPER && node[1] == LOWER && node[2] == DIGIT;
    assert node[3] == ('.', '.') && node[4] == ('_', '_') && node[5] == ('-', '-');
    assert ranges[0] == UPPER && ranges[1] == LOWER && ranges[2] == DIGIT;
    assert ranges[3] == ('.', '.') && ranges[4] == ('_', '_') && ranges[5] == (':', ':') && ranges[6] == ('-', '-');
  }

  /** Node IDs are what their pattern matches. */
  lemma NodeIdMatches(id: Bytes)
    ensures CoreClient.ValidNodeId(id) <==> Matches(NODE_ID, id)
  {
    hide InClass, Matches;
    FirstMatches([UPPER, LOWER, DIGIT], NODE_ID.b, id);
    if id != [] {
      UpToMatches(NODE_ID.b.r.ranges, 127, id[1..]);
      AllInCons(NODE_ID.b.r.ranges, id);
      forall b ensures InClass([UPPER, LOWER, DIGIT], b) <==> IsAlnum(b)
        ensures InClass(NODE_ID.b.r.ranges, b) <==> CoreClient.NodeIdByte(b)
      {
        AlnumIs(b);
      }
    }
  }

  /** And so are revisions. */
  lemma RevisionMatches(r: Bytes)
    ensures ValidRevision(r) <==> Matches(REVISION, r)
  {
    hide InClass, Matches;
    FirstMatches([UPPER, LOWER, DIGIT], REVISION.b, r);
    if r != [] {
      UpToMatches(REVISION.b.r.ranges, 127, r[1..]);
      AllInCons(REVISION.b.r.ranges, r);
      forall b ensures InClass([UPPER, LOWER, DIGIT], b) <==> IsAlnum(b)
        ensures InClass(REVISION.b.r.ranges, b) <==> IsAlnum(b) || b in {DOT, UNDERSCORE, COLON, HYPHEN}
      {
        AlnumIs(b);
      }
    }
  }

  const UNRESERVED := [UPPER, LOWER, DIGIT, ('-', '.'), ('_', '_'), ('~', '~')]

  /** What `net/url` leaves as it is: in a segment the unreserved characters (section 2.3 of
      RFC 3986) and some marks, in a path also `/`, `;` and `,`, and in a path that is said to
      be encoded already more marks, brackets and the percent sign. */
  lemma PathBytes(b: Byte)
    ensures !CoreClient.MustEscapeInSegment(b) <==>
              InClass(UNRESERVED, b) || b in Ascii("$&+:=@")
    ensures !CoreClient.MustEscape(b) <==>
              InClass(UNRESERVED, b) || b in Ascii("$&+:=@/;,")
    ensures CoreClient.ValidEncoded([b]) <==>
              InClass(UNRESERVED, b) || b in Ascii("$&+:=@/;,!'()*[]%")
  {
    var u := UNRESERVED;
    assert u[0] == UPPER && u[1] == LOWER && u[2] == DIGIT;
    assert u[3] == ('-', '.') && u[4] == ('_', '_') && u[5] == ('~', '~');
    var segment, path, encoded := Ascii("$&+:=@"), Ascii("$&+:=@/;,"), Ascii("$&+:=@/;,!'()*[]%");
    assert segment == [0x24, 0x26, 0x2b, 0x3a, 0x3d, 0x40];
    assert path == segment + [0x2f, 0x3b, 0x2c];
    var one: Bytes := [b];
    assert one[0] == b && forall i :: 0 <= i < |one| ==> one[i] == b;
    assert encoded == path + [0x21, 0x27, 0x28, 0x29, 0x2a, 0x5b, 0x5d, 0x25];
  }

  // ---- identifiers ----

  lemma WordByteIs(b: Byte)
    ensures InClass([LOWER, DIGIT], b) <==> WordByte(b)
    ensures InClass([('-', '-')], b) <==> b == HYPHEN
  {
    var word, hyphen := [LOWER, DIGIT], [('-', '-')];
    assert word[0] == LOWER && word[1] == DIGIT && hyphen[0] == ('-', '-');
  }

  lemma WordMatches(w: Bytes)
    ensures Matches(WORD, w) <==> Word(w)
  {
    hide InClass, Matches;
    FirstMatches([LOWER, DIGIT], Star(Class([LOWER, DIGIT])), w);
    if w != [] {
      StarMatches([LOWER, DIGIT], w[1..]);
      AllInCons([LOWER, DIGIT], w);
      forall b ensures InClass([LOWER, DIGIT], b) <==> WordByte(b) {
        WordByteIs(b);
      }
    }
  }

  lemma HyphenMatches(s: Bytes)
    ensures Matches(Then(Class([('-', '-')]), WORD), s) <==> s != [] && s[0] == HYPHEN && Word(s[1..])
  {
    hide InClass, Matches, Word;
    FirstMatches([('-', '-')], WORD, s);
    if s != [] {
      WordByteIs(s[0]);
      WordMatches(s[1..]);
    }
  }

  /** Words behind a hyphen are an identifier behind it. */
  lemma MoreMatches(t: Bytes)
    ensures Matches(MORE_WORDS, t) <==> t == [] || (t[0] == HYPHEN && Matches(IDENTIFIER, t[1..]))
  {
    hide InClass, Word;
    var group := Then(Class([('-', '-')]), WORD);
    if t != [] {
      forall i: nat | i <= |t|
        ensures Matches(group, t[..i]) <==> i > 0 && t[0] == HYPHEN && Word(t[1..][..i - 1])
      {
        HyphenMatches(t[..i]);
        assert i > 0 ==> t[..i][1..] == t[1..][..i - 1];
      }
      ThenAt(t);
    }
  }

  /** An identifier is a word and more words. */
  lemma ThenAt(t: Bytes)
    requires t != []
    ensures Matches(IDENTIFIER, t[1..]) <==>
              exists i: nat :: 0 < i <= |t| && Word(t[1..][..i - 1]) && Matches(MORE_WORDS, t[i..])
  {
    hide InClass, Word;
    var s := t[1..];
    forall j: nat | j <= |s| ensures (Matches(WORD, s[..j]) <==> Word(s[..j])) && s[j..] == t[j + 1..] {
      WordMatches(s[..j]);
    }
    if Matches(IDENTIFIER, s) {
      var j :| 0 <= j <= |s| && Matches(WORD, s[..j]) && Matches(MORE_WORDS, s[j..]);
      var i: nat := j + 1;
      assert Word(t[1..][..i - 1]) && Matches(MORE_WORDS, t[i..]);
    }
    if i: nat :| 0 < i <= |t| && Word(t[1..][..i - 1]) && Matches(MORE_WORDS, t[i..]) {
      assert Matches(WORD, s[..i - 1]) && Matches(MORE_WORDS, s[i - 1..]);
    }
  }

  lemma ValidParts(w: Bytes, v: Bytes)
    requires HYPHEN !in w
    ensures Valid(w) <==> Word(w)
    ensures Valid(w + [HYPHEN] + v) <==> Word(w) && Valid(v)
  {
    hide Word;
    SplitPart(w, HYPHEN);
    SplitAppend(w, HYPHEN, v);
    var parts := Split(v, HYPHEN);
    assert forall i :: 0 <= i < |parts| ==> ([w] + parts)[i + 1] == parts[i];
    assert ([w] + parts)[0] == w;
  }

  lemma WordHyphen(w: Bytes)
    requires Word(w)
    ensures HYPHEN !in w
  {
  }

  lemma Taken(s: Bytes) returns (w: Bytes, t: Bytes)
    requires Matches(IDENTIFIER, s)
    ensures s == w + t && Word(w) && (t == [] || (t[0] == HYPHEN && Matches(IDENTIFIER, t[1..])))
  {
    hide InClass, Word;
    var i :| 0 <= i <= |s| && Matches(WORD, s[..i]) && Matches(MORE_WORDS, s[i..]);
    w, t := s[..i], s[i..];
    WordMatches(w);
    MoreMatches(t);
  }

  lemma {:induction false} MatchedIsValid(s: Bytes)
    requires Matches(IDENTIFIER, s)
    ensures Valid(s)
    decreases |s|
  {
    hide InClass, Word, Valid, Matches;
    var w, t := Taken(s);
    WordHyphen(w);
    if t == [] {
      ValidParts(w, []);
      assert s == w;
    } else {
      MatchedIsValid(t[1..]);
      ValidParts(w, t[1..]);
      assert t == [HYPHEN] + t[1..];
      assert s == w + [HYPHEN] + t[1..];
    }
  }

  lemma {:induction false} ValidIsMatched(s: Bytes)
    requires Valid(s)
    ensures Matches(IDENTIFIER, s)
    decreases |s|
  {
    hide InClass, Word, Valid, Matches;
    CutIff(s, HYPHEN);
    if Cut(s, HYPHEN).None? {
      ValidParts(s, []);
      assert s == s + [];
      Assembled(s, s, []);
    } else {
      var (w, v) := Cut(s, HYPHEN).value;
      ValidParts(w, v);
      ValidIsMatched(v);
      assert s == w + ([HYPHEN] + v);
      Assembled(s, w, [HYPHEN] + v);
    }
  }

  /** Identifiers are what their pattern matches. */
  lemma IdentifierMatches(s: Bytes)
    ensures Valid(s) <==> Matches(IDENTIFIER, s)
  {
    hide Valid, Matches;
    if Matches(IDENTIFIER, s) {
      MatchedIsValid(s);
    }
    if Valid(s) {
      ValidIsMatched(s);
    }
  }

  lemma Assembled(s: Bytes, w: Bytes, t: Bytes)
    requires s == w + t && Word(w) && (t == [] || (t[0] == HYPHEN && Matches(IDENTIFIER, t[1..])))
    ensures Matches(IDENTIFIER, s)
  {
    hide InClass, Word;
    WordMatches(w);
    MoreMatches(t);
    assert s[..|w|] == w && s[|w|..] == t;
  }
}
