// Event-channel identifiers: the one-pass scan of controller_qt/src/core/EventBus.cpp
// against the definition by splitting on dots.
module EventId {
  import opened Text

  const DOT := '.'

  const MIN_SEGMENTS: nat := 3

  predicate IdChar(c: char) {
    'a' <= c <= 'z' || '0' <= c <= '9' || c == '_'
  }

  predicate Segment(s: string) {
    s != [] && forall c :: c in s ==> IdChar(c)
  }

  predicate IsEventId(s: string) {
    |Split(s, DOT)| >= MIN_SEGMENTS && forall k :: 0 <= k < |Split(s, DOT)| ==> Segment(Split(s, DOT)[k])
  }

  /** Some segment is closed and empty, or holds a foreign character. */
  ghost predicate Broken(segments: seq<string>) {
    exists k :: 0 <= k < |segments| && BrokenAt(segments, k)
  }

  ghost predicate BrokenAt(segments: seq<string>, k: nat)
    requires k < |segments|
  {
    (segments[k] == [] && k + 1 < |segments|) || exists c :: c in segments[k] && !IdChar(c)
  }

  /** A broken prefix cannot be repaired by what follows. */
  lemma {:induction false} BrokenForever(s: string, i: nat)
    requires i <= |s| && Broken(Split(s[..i], DOT))
    ensures !IsEventId(s)
    decreases |s| - i
  {
    if i == |s| {
      assert s[..i] == s;
      var k :| 0 <= k < |Split(s, DOT)| && BrokenAt(Split(s, DOT), k);
      assert !Segment(Split(s, DOT)[k]);
    } else {
      SplitSnoc(s, i, DOT);
      var a, b := Split(s[..i], DOT), Split(s[..i + 1], DOT);
      var k :| 0 <= k < |a| && BrokenAt(a, k);
      assert a[k] <= b[k] && |b| >= |a|;
      assert BrokenAt(b, k) by {
        if c :| c in a[k] && !IdChar(c) { assert c in b[k]; }
      }
      BrokenForever(s, i + 1);
    }
  }

  /** What the loop knows after reading `read`: every closed segment is legal. */
  ghost predicate Scanned(read: string, segments: nat, segmentEmpty: bool) {
    var done := Split(read, DOT);
    && segments == |done|
    && segmentEmpty == (done[|done| - 1] == [])
    && (forall k :: 0 <= k < |done| - 1 ==> Segment(done[k]))
    && (forall c :: c in done[|done| - 1] ==> IdChar(c))
  }

  /** A dot closes a legal segment. */
  lemma ScanDot(s: string, i: nat, segments: nat)
    requires i < |s| && s[i] == '.' && Scanned(s[..i], segments, false)
    ensures Scanned(s[..i + 1], segments + 1, true)
  {
    SplitSnoc(s, i, DOT);
  }

  /** A legal character extends the open segment. */
  lemma ScanChar(s: string, i: nat, segments: nat, segmentEmpty: bool)
    requires i < |s| && IdChar(s[i]) && Scanned(s[..i], segments, segmentEmpty)
    ensures Scanned(s[..i + 1], segments, false)
  {
    SplitSnoc(s, i, DOT);
  }

  /** A dot after an empty segment, or a foreign character, settles the answer. */
  lemma ScanFails(s: string, i: nat, segments: nat, segmentEmpty: bool)
    requires i < |s| && Scanned(s[..i], segments, segmentEmpty)
    requires (s[i] == '.' && segmentEmpty) || (s[i] != '.' && !IdChar(s[i]))
    ensures !IsEventId(s)
  {
    SplitSnoc(s, i, DOT);
    var done, next := Split(s[..i], DOT), Split(s[..i + 1], DOT);
    if s[i] != '.' { assert s[i] in next[|done| - 1]; }
    assert BrokenAt(next, |done| - 1);
    BrokenForever(s, i + 1);
  }

  /** The scan: `segments` and `segmentEmpty` are the two variables the loop keeps. */
  method IsValidEventId(eventId: string) returns (ok: bool)
    ensures ok <==> IsEventId(eventId)
    ensures ok <==>
            && |Split(eventId, '.')| >= 3
            && forall k :: 0 <= k < |Split(eventId, '.')| ==>
                 && Split(eventId, '.')[k] != ""
                 && forall c :: c in Split(eventId, '.')[k] ==> 'a' <= c <= 'z' || '0' <= c <= '9' || c == '_'
  {
    if eventId == [] {
      return false;
    }
    var segments := 1;
    var segmentEmpty := true;
    for i := 0 to |eventId|
      invariant Scanned(eventId[..i], segments, segmentEmpty)
    {
      var u := eventId[i];
      if u == '.' {
        if segmentEmpty {
          ScanFails(eventId, i, segments, segmentEmpty);
          return false;
        }
        ScanDot(eventId, i, segments);
        segments := segments + 1;
        segmentEmpty := true;
      } else if IdChar(u) {
        ScanChar(eventId, i, segments, segmentEmpty);
        segmentEmpty := false;
      } else {
        ScanFails(eventId, i, segments, segmentEmpty);
        return false;
      }
    }
    assert eventId[..|eventId|] == eventId;
    if segmentEmpty {
      return false;
    }
    return segments >= MIN_SEGMENTS;
  }
}
