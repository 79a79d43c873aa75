// Splitting a string at a separator and joining the pieces again.
module Text {

  /** The pieces of `s` between separators; a string without one is one piece. */
  function Split(s: string, sep: char): (segments: seq<string>)
    ensures |segments| >= 1
  {
    if s == [] then [[]]
    else
      var n, c := |s| - 1, s[|s| - 1];
      var before := Split(s[..n], sep);
      if c == sep then before + [[]] else Grown(before, [c])
  }

  /** The pieces joined by separators. */
  function Join(segments: seq<string>, sep: char): string
    requires |segments| >= 1
  {
    var n := |segments| - 1;
    if n == 0 then segments[0] else Join(segments[..n], sep) + [sep] + segments[n]
  }

  lemma JoinSnoc(pieces: seq<string>, piece: string, sep: char)
    requires |pieces| >= 1
    ensures Join(pieces + [piece], sep) == Join(pieces, sep) + [sep] + piece
  {
    assert (pieces + [piece])[..|pieces|] == pieces;
  }

  /** One more character on the last piece. */
  lemma JoinGrow(pieces: seq<string>, c: char, sep: char)
    requires |pieces| >= 1
    ensures Join(Grown(pieces, [c]), sep) == Join(pieces, sep) + [c]
  {
    var m := |pieces| - 1;
    if m > 0 {
      JoinSnoc(pieces[..m], pieces[m], sep);
      JoinSnoc(pieces[..m], pieces[m] + [c], sep);
      assert pieces == pieces[..m] + [pieces[m]];
    }
  }

  function Grown(pieces: seq<string>, more: string): seq<string>
    requires |pieces| >= 1
  {
    pieces[..|pieces| - 1] + [pieces[|pieces| - 1] + more]
  }

  /** Split loses nothing. */
  lemma {:induction false} SplitJoins(s: string, sep: char)
    ensures Join(Split(s, sep), sep) == s
  {
    if s != [] {
      var n := |s| - 1;
      SplitJoins(s[..n], sep);
      JoinSnoc(Split(s[..n], sep), [], sep);
      JoinGrow(Split(s[..n], sep), s[n], sep);
      assert s == s[..n] + [s[n]];
    }
  }

  /** Split leaves no separator inside a piece. */
  lemma {:induction false} SplitSeparates(s: string, sep: char)
    ensures forall seg :: seg in Split(s, sep) ==> sep !in seg
  {
    if s != [] {
      var n := |s| - 1;
      SplitSeparates(s[..n], sep);
      var before := Split(s[..n], sep);
      assert before[|before| - 1] in before;
    }
  }

  lemma SplitIsExact(s: string, sep: char)
    ensures Join(Split(s, sep), sep) == s
    ensures forall seg :: seg in Split(s, sep) ==> sep !in seg
  {
    SplitJoins(s, sep);
    SplitSeparates(s, sep);
  }

  /** Every list of separator-free pieces is found again: Split inverts Join. */
  lemma {:induction false} SplitOfJoin(segments: seq<string>, sep: char)
    requires |segments| >= 1
    requires forall k :: 0 <= k < |segments| ==> sep !in segments[k]
    ensures Split(Join(segments, sep), sep) == segments
  {
    var n := |segments| - 1;
    if n == 0 {
      var empty: string := [];
      SplitAppend(empty, segments[0], sep);
      assert Split(empty, sep) == [empty];
      assert empty + segments[0] == segments[0];
    } else {
      SplitOfJoin(segments[..n], sep);
      AppendSegment(Join(segments[..n], sep), segments[n], sep);
      assert segments == segments[..n] + [segments[n]];
    }
  }

  lemma AppendSegment(front: string, segment: string, sep: char)
    requires sep !in segment
    ensures Split(front + [sep] + segment, sep) == Split(front, sep) + [segment]
  {
    assert (front + [sep])[..|front|] == front;
    assert Split(front + [sep], sep) == Split(front, sep) + [[]];
    SplitAppend(front + [sep], segment, sep);
    assert [] + segment == segment;
  }

  lemma JoinThree(a: string, b: string, c: string, sep: char)
    ensures Join([a, b, c], sep) == a + [sep] + b + [sep] + c
  {
    assert [a, b, c][..2] == [a, b] && [a, b][..1] == [a];
    assert Join([a, b], sep) == a + [sep] + b;
  }

  /** One more character. */
  lemma SplitEnd(t: string, c: char, sep: char)
    ensures Split(t + [c], sep) == if c == sep then Split(t, sep) + [[]] else Grown(Split(t, sep), [c])
  {
    assert (t + [c])[..|t|] == t;
  }

  /** Separator-free text extends the last piece. */
  lemma {:induction false} SplitAppend(s: string, w: string, sep: char)
    requires sep !in w
    ensures Split(s + w, sep) == Grown(Split(s, sep), w)
  {
    if w == [] {
      GrowNothing(Split(s, sep));
      assert s + w == s;
    } else {
      LastOut(s, w, sep);
      SplitAppend(s, w[..|w| - 1], sep);
      AppendStep(s + w, s + w[..|w| - 1], w[|w| - 1], Split(s, sep), w[..|w| - 1], w, sep);
    }
  }

  lemma LastOut(s: string, w: string, sep: char)
    requires w != [] && sep !in w
    ensures s + w == (s + w[..|w| - 1]) + [w[|w| - 1]]
    ensures sep !in w[..|w| - 1] && w[|w| - 1] != sep
  {
    assert w[|w| - 1] in w;
  }

  lemma AppendStep(u: string, t: string, c: char, pieces: seq<string>, front: string, w: string, sep: char)
    requires |pieces| >= 1 && c != sep && u == t + [c] && w == front + [c]
    requires Split(t, sep) == Grown(pieces, front)
    ensures Split(u, sep) == Grown(pieces, w)
  {
    SplitEnd(t, c, sep);
    GrowTwice(pieces, front, c, w);
  }

  lemma GrowNothing(pieces: seq<string>)
    requires |pieces| >= 1
    ensures Grown(pieces, []) == pieces
  {
    assert pieces[|pieces| - 1] + [] == pieces[|pieces| - 1];
  }

  lemma GrowTwice(pieces: seq<string>, front: string, c: char, w: string)
    requires |pieces| >= 1 && w == front + [c]
    ensures Grown(Grown(pieces, front), [c]) == Grown(pieces, w)
  {
    var last := pieces[|pieces| - 1];
    assert last + front + [c] == last + w;
  }

  lemma SplitSnoc(s: string, i: nat, sep: char)
    requires i < |s|
    ensures var a, b := Split(s[..i], sep), Split(s[..i + 1], sep);
            b == if s[i] == sep then a + [[]] else Grown(a, [s[i]])
  {
    assert s[..i + 1][..i] == s[..i];
  }
}
