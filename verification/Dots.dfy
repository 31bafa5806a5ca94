/** Removing dot segments (section 5.2.4 of RFC 3986) as it is done on a list of segments:
    the buffer of `resolvePath` is that list, written out. */
module Dots {
  import opened Text
  import opened CoreClient

  /** A segment is put on the list, `.` says nothing and `..` takes the last one off. On an
      empty list `.` leaves an empty segment. */
  function Put(list: seq<Bytes>, segment: Bytes): seq<Bytes> {
    if segment == [DOT] then (if list == [] then [[]] else list)
    else if segment == [DOT, DOT] then (if list == [] then [] else list[..|list| - 1])
    else list + [segment]
  }

  function Walk(list: seq<Bytes>, segments: seq<Bytes>): seq<Bytes>
    decreases |segments|
  {
    if segments == [] then list else Walk(Put(list, segments[0]), segments[1..])
  }

  predicate SlashFree(list: seq<Bytes>) { forall part :: part in list ==> SLASH !in part }

  /** The buffer is the list behind a slash. */
  predicate Shows(b: Buffer, list: seq<Bytes>) {
    b.text == [SLASH] + Join(list, SLASH) && (b.first <==> list == []) && SlashFree(list)
  }

  lemma {:induction false} JoinSnoc(list: seq<Bytes>, last: Bytes)
    ensures Join(list + [last], SLASH) == if list == [] then last else Join(list, SLASH) + [SLASH] + last
  {
    if |list| > 1 {
      JoinSnoc(list[1..], last);
      assert (list + [last])[1..] == list[1..] + [last];
      var front := list[0] + [SLASH];
      assert front + (Join(list[1..], SLASH) + [SLASH] + last) == front + Join(list[1..], SLASH) + [SLASH] + last;
    } else if |list| == 1 {
      assert (list + [last])[1..] == [last];
    } else {
      assert list + [last] == [last];
    }
  }

  /** The last slash of a text stands before its last segment. */
  lemma LastSlashSnoc(front: Bytes, last: Bytes)
    requires SLASH !in last
    ensures LastSlash(front + [SLASH] + last) == |front|
    ensures LastSlash(last) == -1
  {
    hide LastSlash;
    LastSlashIs(front + [SLASH] + last, |front|);
    LastSlashIs(last, -1);
  }

  /** The last slash is where none follows. */
  lemma LastSlashIs(s: Bytes, k: int)
    requires -1 <= k < |s| && (k >= 0 ==> s[k] == SLASH)
    requires forall j :: k < j < |s| ==> s[j] != SLASH
    ensures LastSlash(s) == k
  {
    hide LastSlash;
  }

  lemma UpShows(b: Buffer, list: seq<Bytes>)
    requires Shows(b, list)
    ensures Shows(PutSegment(b, [DOT, DOT]), Put(list, [DOT, DOT]))
  {
    hide LastSlash, Join;
    var kept := b.text[1..];
    assert kept == Join(list, SLASH);
    assert [DOT, DOT] != HERE;
    if list == [] {
      NothingJoined();
      LastSlashSnoc([], []);
    } else {
      var front, last := list[..|list| - 1], list[|list| - 1];
      assert list == front + [last];
      JoinSnoc(front, last);
      LastSlashSnoc(Join(front, SLASH), last);
      NothingJoined();
      assert (Join(front, SLASH) + [SLASH] + last)[..|Join(front, SLASH)|] == Join(front, SLASH);
      assert SlashFree(front);
    }
  }

  lemma NothingJoined()
    ensures Join([], SLASH) == []
  {
  }

  lemma PutShows(b: Buffer, list: seq<Bytes>, segment: Bytes)
    requires Shows(b, list) && SLASH !in segment
    ensures Shows(PutSegment(b, segment), Put(list, segment))
  {
    if segment == UP {
      UpShows(b, list);
    } else if segment != HERE {
      JoinSnoc(list, segment);
      assert b.text + [SLASH] + segment == [SLASH] + (Join(list, SLASH) + [SLASH] + segment);
    }
  }

  lemma {:induction false} WalkShows(b: Buffer, list: seq<Bytes>, segments: seq<Bytes>)
    requires Shows(b, list) && SlashFree(segments) && b.text != [] && b.text[0] == SLASH
    ensures Shows(PutSegments(b, segments), Walk(list, segments))
    decreases |segments|
  {
    hide Shows, PutSegment, Put;
    if segments != [] {
      PutShows(b, list, segments[0]);
      Slashed(PutSegment(b, segments[0]), Put(list, segments[0]));
      WalkShows(PutSegment(b, segments[0]), Put(list, segments[0]), segments[1..]);
    }
  }

  lemma Slashed(b: Buffer, list: seq<Bytes>)
    requires Shows(b, list)
    ensures b.text != [] && b.text[0] == SLASH
  {
  }

  /** A final dot segment leaves a slash. */
  function Ending(segments: seq<Bytes>): Bytes
    requires segments != []
  {
    if segments[|segments| - 1] in {[DOT], [DOT, DOT]} then [SLASH] else []
  }

  /** Dot removal writes the list out, of two slashes at the beginning only one. */
  lemma RemoveDotsWalks(full: Bytes)
    requires full != []
    ensures var segments := Split(full, SLASH);
            var text := [SLASH] + Join(Walk([], segments), SLASH) + Ending(segments);
            RemoveDots(full) == if |text| > 1 && text[1] == SLASH then text[1..] else text
  {
    hide PutSegments, Split;
    var segments := Split(full, SLASH);
    SplitParts(full, SLASH);
    WalkShows(EMPTY_BUFFER, [], segments);
  }
}
