/** Bounded capture of output nobody controls: the check runner's `limitedBuffer`,
    the Core client's `readBounded`, and the excerpt put in an HTTP error. */
module Capture {
  import opened Text
  import opened Utf8
  import Trimming

  function Flatten(chunks: seq<Bytes>): Bytes {
    if chunks == [] then [] else chunks[0] + Flatten(chunks[1..])
  }

  lemma {:induction false} FlattenSnoc(chunks: seq<Bytes>, last: Bytes)
    ensures Flatten(chunks + [last]) == Flatten(chunks) + last
  {
    if chunks == [] {
      assert Flatten([last]) == last + Flatten([]);
    } else {
      assert (chunks + [last])[1..] == chunks[1..] + [last];
      FlattenSnoc(chunks[1..], last);
    }
  }

  function Min(a: nat, b: nat): nat { if a < b then a else b }

  // ---- limitedBuffer ----

  datatype Captured = Captured(data: Bytes, truncated: bool)

  /** The reference: a prefix of everything written, and whether that is all of it. */
  function Reference(limit: nat, all: Bytes): Captured {
    Captured(all[..Min(limit, |all|)], |all| > limit)
  }

  /** What one `Write` does to the captured state. */
  function Append(limit: nat, c: Captured, chunk: Bytes): Captured {
    var remaining := limit - |c.data|;
    if remaining <= 0 then Captured(c.data, c.truncated || |chunk| > 0)
    else if |chunk| > remaining then Captured(c.data + chunk[..remaining], true)
    else c.(data := c.data + chunk)
  }

  lemma AppendToReference(limit: nat, all: Bytes, chunk: Bytes)
    ensures Append(limit, Reference(limit, all), chunk) == Reference(limit, all + chunk)
  {
    var c := Reference(limit, all);
    if |all| < limit {
      assert c.data == all;
      if |all + chunk| > limit {
        assert (all + chunk)[..limit] == all + chunk[..limit - |all|];
      } else {
        assert (all + chunk)[..|all + chunk|] == all + chunk;
      }
    } else {
      assert (all + chunk)[..limit] == all[..limit];
    }
  }

  /** The state after a whole series of writes, from a new buffer. */
  function Feed(limit: nat, writes: seq<Bytes>): Captured
    decreases |writes|
  {
    if writes == [] then Captured([], false)
    else Append(limit, Feed(limit, writes[..|writes| - 1]), writes[|writes| - 1])
  }

  /** After any series of writes the buffer holds exactly the first
      min(limit, total) bytes and is truncated exactly when there were more; so
      neither depends on how the bytes were cut into writes. */
  lemma {:induction false} FeedIsReference(limit: nat, writes: seq<Bytes>)
    ensures Feed(limit, writes) == Reference(limit, Flatten(writes))
    decreases |writes|
  {
    if writes != [] {
      var front, last := writes[..|writes| - 1], writes[|writes| - 1];
      FeedIsReference(limit, front);
      assert writes == front + [last];
      FlattenSnoc(front, last);
      AppendToReference(limit, Flatten(front), last);
    }
  }

  lemma FeedSnoc(limit: nat, writes: seq<Bytes>, chunk: Bytes)
    ensures Feed(limit, writes + [chunk]) == Append(limit, Feed(limit, writes), chunk)
    ensures Feed(limit, writes + [chunk]) == Reference(limit, Flatten(writes + [chunk]))
    ensures |Feed(limit, writes).data| <= limit
  {
    assert (writes + [chunk])[..|writes|] == writes;
    FeedIsReference(limit, writes);
    FeedIsReference(limit, writes + [chunk]);
  }

  /** `merged` is one order in which the mutex may admit the writes of two writers. */
  predicate Interleaves(a: seq<Bytes>, b: seq<Bytes>, merged: seq<Bytes>)
    decreases |merged|
  {
    if merged == [] then a == [] && b == []
    else
      (a != [] && a[0] == merged[0] && Interleaves(a[1..], b, merged[1..]))
      || (b != [] && b[0] == merged[0] && Interleaves(a, b[1..], merged[1..]))
  }

  lemma {:induction false} InterleavedLength(a: seq<Bytes>, b: seq<Bytes>, merged: seq<Bytes>)
    requires Interleaves(a, b, merged)
    ensures |Flatten(merged)| == |Flatten(a)| + |Flatten(b)|
    decreases |merged|
  {
    if merged != [] {
      if a != [] && a[0] == merged[0] && Interleaves(a[1..], b, merged[1..]) {
        InterleavedLength(a[1..], b, merged[1..]);
      } else {
        InterleavedLength(a, b[1..], merged[1..]);
      }
    }
  }

  /** Scheduling of stdout against stderr moves bytes, but changes neither how many
      are kept nor whether the output counts as truncated. */
  lemma ScheduleIndependent(limit: nat, a: seq<Bytes>, b: seq<Bytes>, one: seq<Bytes>, other: seq<Bytes>)
    requires Interleaves(a, b, one) && Interleaves(a, b, other)
    ensures Feed(limit, one).truncated == Feed(limit, other).truncated
    ensures |Feed(limit, one).data| == |Feed(limit, other).data|
    ensures Feed(limit, one).truncated <==> |Flatten(a)| + |Flatten(b)| > limit
  {
    FeedIsReference(limit, one);
    FeedIsReference(limit, other);
    InterleavedLength(a, b, one);
    InterleavedLength(a, b, other);
  }

  class LimitedBuffer {
    const limit: nat
    var data: Bytes
    var truncated: bool
    ghost var writes: seq<Bytes>

    /** The fields are the state that the writes admitted so far lead to. */
    ghost predicate Valid()
      reads this
    {
      Captured(data, truncated) == Feed(limit, writes)
    }

    constructor (limit: nat)
      ensures Valid() && this.limit == limit && writes == []
    {
      this.limit := limit;
      data, truncated, writes := [], false, [];
    }

    method Write(chunk: Bytes) returns (written: nat)
      requires Valid()
      modifies this
      ensures Valid() && writes == old(writes) + [chunk]
      ensures data == Flatten(writes)[..Min(limit, |Flatten(writes)|)]
      ensures truncated <==> |Flatten(writes)| > limit
      ensures written == |chunk|
    {
      ghost var before := Captured(data, truncated);
      FeedSnoc(limit, writes, chunk);
      written := |chunk|;
      var remaining := limit - |data|;
      if remaining <= 0 {
        if written > 0 {
          truncated := true;
        }
      } else if |chunk| > remaining {
        data := data + chunk[..remaining];
        truncated := true;
      } else {
        data := data + chunk;
      }
      assert Captured(data, truncated) == Append(limit, before, chunk);
      writes := writes + [chunk];
    }

    /** `String`: valid text, however the capture cut the stream. */
    method Text() returns (text: Bytes)
      requires Valid()
      ensures text == Sanitise(Flatten(writes)[..Min(limit, |Flatten(writes)|)])
      ensures Utf8.Valid(text) && |text| <= 2 * limit + 1 && Sanitise(text) == text
    {
      FeedIsReference(limit, writes);
      SanitiseStable(data);
      text := Sanitise(data);
    }
  }

  // ---- readBounded ----

  const MAX_RESPONSE_BYTES: nat := 1024 * 1024

  datatype ReadStatus = More | EndOfFile | Broken

  datatype ReadError = ResponseTooLarge | ReadFailed

  /** A response body: it arrives in pieces of any size, and then ends or breaks. */
  class BodyReader {
    var pending: seq<Bytes>
    const breaks: bool

    constructor (pending: seq<Bytes>, breaks: bool)
      ensures this.pending == pending && this.breaks == breaks
    {
      this.pending, this.breaks := pending, breaks;
    }

    /** At most `room` bytes. The end may be reported with the last of them. */
    method Read(room: nat) returns (chunk: Bytes, status: ReadStatus)
      requires room > 0
      modifies this`pending
      ensures |chunk| <= room
      ensures Flatten(old(pending)) == chunk + Flatten(pending)
      ensures |pending| <= |old(pending)|
      ensures status != More ==> Flatten(pending) == [] && (status.Broken? <==> breaks)
      ensures status == More ==> |pending| + |Flatten(pending)| < |old(pending)| + |Flatten(old(pending))|
    {
      if pending == [] {
        return [], if breaks then Broken else EndOfFile;
      }
      var first := pending[0];
      if |first| > room {
        chunk := first[..room];
        pending := [first[room..]] + pending[1..];
        return chunk, More;
      }
      chunk := first;
      pending := pending[1..];
      var together: bool := *;
      status := if pending == [] && together then if breaks then Broken else EndOfFile else More;
    }
  }

  /** `io.ReadAll` over a `LimitReader`, then the size check. For a body that does not
      break, the result depends on its bytes alone, and no more than 1 MiB + 1 byte
      of it is taken. */
  method ReadBounded(reader: BodyReader) returns (r: Result<Bytes, ReadError>)
    modifies reader`pending
    ensures var body := Flatten(old(reader.pending));
            !reader.breaks ==>
              && r == (if |body| <= 1_048_576 then Ok(body) else Err(ResponseTooLarge))
              && Flatten(reader.pending) == body[Min(|body|, 1_048_576 + 1)..]
    ensures var body := Flatten(old(reader.pending));
            reader.breaks ==> r.Err? && (|body| <= 1_048_576 ==> r.error == ReadFailed)
    ensures |Flatten(old(reader.pending))| - |Flatten(reader.pending)| <= 1_048_576 + 1
  {
    var data: Bytes := [];
    var status := More;
    while status == More && |data| < MAX_RESPONSE_BYTES + 1
      invariant |data| <= MAX_RESPONSE_BYTES + 1
      invariant Flatten(old(reader.pending)) == data + Flatten(reader.pending)
      invariant status != More ==> Flatten(reader.pending) == [] && (status.Broken? <==> reader.breaks)
      decreases status == More, |reader.pending| + |Flatten(reader.pending)|
    {
      var spare: int :| spare >= 0;
      var chunk: Bytes;
      chunk, status := reader.Read(Min(spare + 1, MAX_RESPONSE_BYTES + 1 - |data|));
      data := data + chunk;
    }
    assert |Flatten(old(reader.pending))| == |data| + |Flatten(reader.pending)|;
    if status == Broken {
      return Err(ReadFailed);
    }
    if |data| > MAX_RESPONSE_BYTES {
      return Err(ResponseTooLarge);
    }
    assert Flatten(old(reader.pending)) == data;
    return Ok(data);
  }

  // ---- errorExcerpt ----

  const MAX_ERROR_EXCERPT_BYTES: nat := 4 * 1024

  function ErrorExcerpt(data: Bytes): Bytes {
    Sanitise(data[..Min(|data|, MAX_ERROR_EXCERPT_BYTES)])
  }

  /** The bytes of the body that the excerpt shows: those before the cut, trimmed. */
  function Shown(data: Bytes): Bytes {
    TrimSpace(data[..Min(|data|, MAX_ERROR_EXCERPT_BYTES)])
  }

  /** The cut is made before the repair, so the limit is not kept in general. It is kept
      exactly when what the repair adds, three bytes for each run of bad bytes in place of
      the run, fits. */
  lemma ExcerptWithinLimitIff(data: Bytes)
    ensures var t := Shown(data);
            && |ErrorExcerpt(data)| == |t| + 3 * Trimming.Runs(t) - Trimming.Bad(t)
            && (|ErrorExcerpt(data)| <= MAX_ERROR_EXCERPT_BYTES <==>
                  |t| + 3 * Trimming.Runs(t) - Trimming.Bad(t) <= MAX_ERROR_EXCERPT_BYTES)
  {
    hide TrimSpace, Repair, Trimming.Runs, Trimming.Bad;
    Trimming.SanitisedLength(data[..Min(|data|, MAX_ERROR_EXCERPT_BYTES)]);
  }

  /** Bad bytes between letters. */
  function Alternating(n: nat): (s: Bytes)
    ensures |s| == n
  {
    seq(n, i => if i % 2 == 0 then 0xFF else 0x61)
  }

  lemma AlternatingLength(n: nat)
    requires n > 0 && n % 2 == 0
    ensures |Sanitise(Alternating(n))| == 2 * n
  {
    hide Repair, TrimLeft, TrimRight;
    var s := Alternating(n);
    assert s[0] == 0xFF && s[n - 1] == 0x61;
    Untrimmed(s);
    Trimming.TrimRepair(s);
    RepairBoundTight(n);
  }

  lemma Untrimmed(s: Bytes)
    requires s != [] && s[0] == 0xFF && s[|s| - 1] == 0x61
    ensures TrimLeft(s) == s && TrimRight(s) == s
  {
  }

  /** An instance that breaks the limit, by as much as any body can. */
  lemma ExcerptDoubles()
    ensures |ErrorExcerpt(Alternating(MAX_ERROR_EXCERPT_BYTES))| == 2 * MAX_ERROR_EXCERPT_BYTES
  {
    hide Alternating, Sanitise;
    WholeExcerpt(Alternating(MAX_ERROR_EXCERPT_BYTES));
    AlternatingLength(MAX_ERROR_EXCERPT_BYTES);
  }

  lemma WholeExcerpt(data: Bytes)
    requires |data| <= MAX_ERROR_EXCERPT_BYTES
    ensures ErrorExcerpt(data) == Sanitise(data)
  {
    hide Sanitise;
    assert data[..|data|] == data;
  }

  /** How much of a cut valid text is trimmed away in front. */
  function Lead(data: Bytes, k: nat): (n: nat)
    requires Valid(data) && k <= |data|
  {
    var front := data[..WholeRunes(data, k)];
    TrimLeftKeeps(front);
    |front| - |TrimLeft(front)|
  }

  /** What a cut at `k` makes of valid text. */
  lemma CutLength(data: Bytes, k: nat)
    requires Valid(data) && k <= |data|
    ensures var e := WholeRunes(data, k);
            && e <= k
            && (e == k ==> |Sanitise(data[..k])| <= k)
            && (e < k ==> |Sanitise(data[..k])| == e - Lead(data, k) + 3)
  {
    hide Repair, WholeRunes, Valid, TrimSpace;
    var e := WholeRunes(data, k);
    RepairOfPrefix(data, k);
    TrimLeftKeeps(data[..e]);
    if e == k {
      assert data[..e] + [] == data[..k];
      TrimSpaceTrimmed(data[..k]);
    } else {
      TrimTorn(data[..e]);
    }
  }

  /** Valid text that is too long to be shown whole breaks the limit exactly when the cut
      falls inside a rune and leaves too little room for the U+FFFD that is put there:
      less than three bytes, those of the torn rune and of the leading space together. */
  lemma ValidExcerptWithinLimitIff(data: Bytes)
    requires Valid(data) && |data| > MAX_ERROR_EXCERPT_BYTES
    ensures var k := MAX_ERROR_EXCERPT_BYTES;
            var torn := k - WholeRunes(data, k);
            && (|ErrorExcerpt(data)| <= k <==> torn == 0 || torn + Lead(data, k) >= 3)
            && (torn > 0 ==> |ErrorExcerpt(data)| == k - torn - Lead(data, k) + 3)
  {
    hide Repair, WholeRunes, Valid, Sanitise, Lead;
    CutLength(data, MAX_ERROR_EXCERPT_BYTES);
  }

  /** Of a text that ends in U+FFFD only the front is trimmed. */
  lemma TrimTorn(s: Bytes)
    ensures TrimSpace(s + REPLACEMENT) == TrimLeft(s) + REPLACEMENT
  {
    TrimLeftTorn(s);
    var r := TrimLeft(s) + REPLACEMENT;
    assert r[|r| - 1] == 0xBD && r[|r| - 2] == 0xBF && r[|r| - 3] == 0xEF;
    assert SpaceTail(r) == 0;
  }

  lemma {:induction false} TrimLeftTorn(s: Bytes)
    ensures TrimLeft(s + REPLACEMENT) == TrimLeft(s) + REPLACEMENT
    decreases |s|
  {
    var all := s + REPLACEMENT;
    var n := SpaceHead(s);
    assert forall i :: 0 <= i < |s| ==> all[i] == s[i];
    if n == 0 {
      assert all[|s|] == 0xEF && all[|s| + 1] == 0xBF;
      assert SpaceHead(all) == 0;
    } else {
      assert SpaceHead(all) == n;
      assert all[n..] == s[n..] + REPLACEMENT;
      TrimLeftTorn(s[n..]);
    }
  }

  lemma {:induction false} WholeRunesOf(front: Bytes, rune: Bytes, torn: nat)
    requires Valid(front) && rune != [] && RuneLen(rune) == |rune| && torn < |rune|
    requires Valid(front + rune)
    ensures WholeRunes(front + rune, |front| + torn) == |front|
    decreases |front|
  {
    hide WholeRunes, RuneLen, Valid;
    WholeRunesStep(front + rune, |front| + torn);
    if front == [] {
      assert front + rune == rune;
    } else {
      FirstRune(front, rune);
      WholeRunesOf(front[RuneLen(front)..], rune, torn);
    }
  }

  lemma FirstRune(front: Bytes, rune: Bytes)
    requires front != [] && Valid(front) && Valid(front + rune)
    ensures var n := RuneLen(front);
            && 0 < n <= |front| && n == RuneLen(front + rune) && Valid(front[n..])
            && (front + rune)[n..] == front[n..] + rune && Valid(front[n..] + rune)
  {
    hide RuneLen;
    RuneLenAppend(front, rune);
    assert (front + rune)[RuneLen(front)..] == front[RuneLen(front)..] + rune;
  }

  /** The instances among valid texts: a body whose 4096th byte is the first or second of a
      longer rune, and which does not begin with space, is shown with two bytes too many or
      one. */
  lemma TornBody(front: Bytes, rune: Bytes, torn: nat)
    requires Valid(front) && SpaceHead(front) == 0 && rune != [] && RuneLen(rune) == |rune|
    requires 0 < torn < |rune| && |front| + torn == MAX_ERROR_EXCERPT_BYTES
    ensures Valid(front + rune) && |ErrorExcerpt(front + rune)| == MAX_ERROR_EXCERPT_BYTES + 3 - torn
  {
    hide ErrorExcerpt;
    assert rune[|rune|..] == [];
    ValidAppend(front, rune);
    WholeRunesOf(front, rune, torn);
    assert (front + rune)[..|front|] == front;
    ValidExcerptWithinLimitIff(front + rune);
  }

  /** It is the repaired text of the first 4096 bytes of the body without the space around
      it, which changes no other byte. */
  lemma ExcerptMeans(data: Bytes)
    ensures var repaired := Repair(data[..Min(|data|, 4096)]);
            Trimming.Trimmed(ErrorExcerpt(data)) && Trimming.Within(repaired, ErrorExcerpt(data))
  {
    hide TrimSpace, Repair;
    var head := data[..Min(|data|, MAX_ERROR_EXCERPT_BYTES)];
    Trimming.TrimSpaceIff(Repair(head), Sanitise(head));
  }

  /** An excerpt is valid text of at most 8192 bytes whatever the server sent. When the
      body is valid text, the excerpt is the whole runes that fit, then one U+FFFD if
      the limit fell inside a rune, trimmed. */
  lemma ErrorExcerptBounded(data: Bytes)
    ensures Valid(ErrorExcerpt(data)) && |ErrorExcerpt(data)| <= 8192
    ensures Sanitise(ErrorExcerpt(data)) == ErrorExcerpt(data)
    ensures var k := Min(|data|, 4096);
            Valid(data) ==>
              var e := WholeRunes(data, k);
              ErrorExcerpt(data) == TrimSpace(data[..e] + (if e == k then [] else REPLACEMENT))
  {
    hide Valid, TrimSpace, Repair, WholeRunes;
    var k := Min(|data|, MAX_ERROR_EXCERPT_BYTES);
    SanitiseStable(data[..k]);
    if Valid(data) {
      RepairOfPrefix(data, k);
    }
  }
}
