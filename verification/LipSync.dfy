// Lip-sync from a cue file: the line parser against a fold over the lines, and the search with its
// interpolation. Times and values are reals.
module LipSync {
  import opened Options
  import opened Text

  datatype Point = Point(time: real, value: real)

  /** std::stof, an unknown function; None is an exception. */
  type Number = string -> Option<real>

  const NEWLINE := '\n'

  // ----- the cue file ---------------------------------------------------------------------

  function Find(s: string, c: char): (i: nat)
    ensures i <= |s| && (i < |s| ==> s[i] == c)
    ensures forall k :: 0 <= k < i ==> s[k] != c
  {
    if s == "" then 0 else if s[0] == c then 0 else 1 + Find(s[1..], c)
  }

  function Shape(letter: char): (v: real)
    ensures 0.0 <= v <= 1.0
  {
    match letter
    case 'A' => 1.0
    case 'B' => 0.8
    case 'C' => 0.6
    case 'D' => 0.45
    case 'E' => 0.3
    case 'F' => 0.2
    case 'G' => 0.1
    case 'H' => 0.05
    case _ => 0.0
  }

  function Stripped(line: string): string {
    if line != "" && line[|line| - 1] == '\r' then line[..|line| - 1] else line
  }

  /** The first tab, else the first space. */
  function Separator(line: string): nat {
    if Find(line, '\t') < |line| then Find(line, '\t') else Find(line, ' ')
  }

  /** A line gives a point when it has a separator and its time parses. */
  function ParseLine(raw: string, number: Number): Option<Point> {
    var line := Stripped(raw);
    var sep := Separator(line);
    if sep >= |line| || number(line[..sep]).None? then None
    else Some(Point(number(line[..sep]).value, Shape(if sep + 1 < |line| then line[sep + 1] else 'X')))
  }

  /** How far each letter opens the mouth; every other letter closes it. */
  const OPENINGS: map<char, real> :=
    map['A' := 1.0, 'B' := 0.8, 'C' := 0.6, 'D' := 0.45, 'E' := 0.3, 'F' := 0.2, 'G' := 0.1, 'H' := 0.05]

  /** A cue of a time, a separator and a letter, whatever follows the letter: the point at that time with
      the opening of that letter. A tab separates before any space does. */
  lemma CueLine(time: string, separator: char, letter: char, more: string, number: Number)
    requires separator == '\t' || (separator == ' ' && '\t' !in [letter] + more)
    requires '\t' !in time && (separator == ' ' ==> ' ' !in time)
    requires more == "" ==> letter != '\r'
    ensures var p := ParseLine(time + [separator, letter] + more, number);
            if number(time).None? then p.None?
            else p == Some(Point(number(time).value, if letter in OPENINGS then OPENINGS[letter] else 0.0))
  {
    var raw, n := time + [separator, letter] + more, |time|;
    var line := Stripped(raw);
    assert |line| > n + 1 && line[..n] == time && line[n] == separator && line[n + 1] == letter;
    assert forall k :: 0 <= k < n ==> line[k] == time[k];
    if separator == '\t' {
      assert Find(line, '\t') == n;
    } else {
      assert forall k :: n + 1 <= k < |line| ==> line[k] == ([letter] + more)[k - n - 1];
      assert Find(line, '\t') == |line|;
      assert Find(line, ' ') == n;
    }
  }

  function Points(lines: seq<string>, number: Number): seq<Point> {
    if lines == [] then []
    else Added(Points(lines[..|lines| - 1], number), ParseLine(lines[|lines| - 1], number))
  }

  function Added(before: seq<Point>, p: Option<Point>): seq<Point> {
    if p.Some? then before + [p.value] else before
  }

  lemma PointsSnoc(lines: seq<string>, line: string, number: Number)
    ensures Points(lines + [line], number) == Added(Points(lines, number), ParseLine(line, number))
  {
    assert (lines + [line])[..|lines|] == lines;
  }

  /** What each line gives, line by line. */
  function Parsed(lines: seq<string>, number: Number): seq<Option<Point>> {
    seq(|lines|, i requires 0 <= i < |lines| => ParseLine(lines[i], number))
  }

  /** The points among them, in order. */
  function Collected(ps: seq<Option<Point>>): seq<Point> {
    if ps == [] then [] else if ps[0].Some? then [ps[0].value] + Collected(ps[1..]) else Collected(ps[1..])
  }

  lemma {:induction false} CollectedSnoc(ps: seq<Option<Point>>, p: Option<Point>)
    ensures Collected(ps + [p]) == Added(Collected(ps), p)
  {
    if ps == [] {
      assert [p][1..] == [];
    } else {
      CollectedSnoc(ps[1..], p);
      assert (ps + [p])[1..] == ps[1..] + [p];
    }
  }

  /** The points of a file are those of its lines, in the order of the lines. */
  lemma {:induction false} PointsAreCollected(lines: seq<string>, number: Number)
    ensures Points(lines, number) == Collected(Parsed(lines, number))
    decreases |lines|
  {
    if lines != [] {
      var n := |lines| - 1;
      PointsAreCollected(lines[..n], number);
      ParsedSnoc(lines, number);
      CollectedSnoc(Parsed(lines[..n], number), ParseLine(lines[n], number));
    }
  }

  lemma ParsedSnoc(lines: seq<string>, number: Number)
    requires lines != []
    ensures var n := |lines| - 1; Parsed(lines, number) == Parsed(lines[..n], number) + [ParseLine(lines[n], number)]
  {
  }

  // ----- the value at a time --------------------------------------------------------------

  /** The first point after `t`, looking from `i` on. */
  function FirstAfter(data: seq<Point>, t: real, i: nat): (k: nat)
    requires i <= |data|
    ensures i <= k <= |data|
    ensures k < |data| ==> t < data[k].time
    ensures forall j :: i <= j < k ==> data[j].time <= t
    decreases |data| - i
  {
    if i == |data| || t < data[i].time then i else FirstAfter(data, t, i + 1)
  }

  function Blend(p: Point, q: Point, t: real): real {
    var alpha := if q.time - p.time > 0.0 then (t - p.time) / (q.time - p.time) else 0.0;
    p.value + (q.value - p.value) * alpha
  }

  function ValueAt(data: seq<Point>, t: real): real
    requires data != []
  {
    var last := data[|data| - 1];
    if t <= data[0].time then data[0].value
    else if t >= last.time then last.value
    else
      var i := FirstAfter(data, t, 1);
      if i < |data| then Blend(data[i - 1], data[i], t) else 0.0
  }

  predicate Between(v: real, a: real, b: real) { a <= v <= b || b <= v <= a }

  predicate Brackets(data: seq<Point>, t: real, i: nat) {
    0 < i < |data| && data[i - 1].time <= t < data[i].time
  }

  lemma BlendBetween(p: Point, q: Point, t: real)
    requires p.time <= t < q.time
    ensures Between(Blend(p, q, t), p.value, q.value)
  {
    var alpha := (t - p.time) / (q.time - p.time);
    Fraction(t - p.time, q.time - p.time);
    Scaled(q.value - p.value, alpha);
  }

  lemma Fraction(a: real, b: real)
    requires 0.0 <= a < b
    ensures 0.0 <= a / b < 1.0
  {
    assert (a / b) * b == a;
  }

  lemma Scaled(d: real, alpha: real)
    requires 0.0 <= alpha <= 1.0
    ensures d >= 0.0 ==> 0.0 <= d * alpha <= d
    ensures d <= 0.0 ==> d <= d * alpha <= 0.0
  {
    var size := if d >= 0.0 then d else -d;
    NotNegative(size, alpha);
    NotNegative(size, 1.0 - alpha);
    assert size * (1.0 - alpha) == size - size * alpha;
    assert d < 0.0 ==> size * alpha == -(d * alpha);
  }

  lemma NotNegative(a: real, b: real)
    requires a >= 0.0 && b >= 0.0
    ensures a * b >= 0.0
  {
  }

  /** Sorted or not, between the first and the last time the search finds a bracketing pair, and the
      value lies between its two neighbours. */
  lemma SearchBrackets(data: seq<Point>, t: real)
    requires data != [] && data[0].time < t < data[|data| - 1].time
    ensures exists i: nat :: Brackets(data, t, i) && ValueAt(data, t) == Blend(data[i - 1], data[i], t)
                        && Between(ValueAt(data, t), data[i - 1].value, data[i].value)
  {
    var i := FirstAfter(data, t, 1);
    assert i < |data|;
    assert Brackets(data, t, i);
    BlendBetween(data[i - 1], data[i], t);
  }

  /** Every value is one of the data or between two of them. */
  lemma ValueInRange(data: seq<Point>, t: real, low: real, high: real)
    requires data != [] && forall i :: 0 <= i < |data| ==> low <= data[i].value <= high
    ensures low <= ValueAt(data, t) <= high
  {
    if data[0].time < t < data[|data| - 1].time {
      SearchBrackets(data, t);
    }
  }

  lemma {:induction false} LoadedInRange(lines: seq<string>, number: Number)
    ensures forall i :: 0 <= i < |Points(lines, number)| ==> 0.0 <= Points(lines, number)[i].value <= 1.0
  {
    if lines != [] { LoadedInRange(lines[..|lines| - 1], number); }
  }

  /** Whatever the file says, the mouth opening is in [0, 1] at any time. */
  lemma LoadedValueInRange(content: string, number: Number, t: real)
    requires Points(Split(content, NEWLINE), number) != []
    ensures 0.0 <= ValueAt(Points(Split(content, NEWLINE), number), t) <= 1.0
  {
    LoadedInRange(Split(content, NEWLINE), number);
    ValueInRange(Points(Split(content, NEWLINE), number), t, 0.0, 1.0);
  }

  // ----- increasing times -----------------------------------------------------------------

  predicate Increasing(data: seq<Point>) {
    forall i, j :: 0 <= i < j < |data| ==> data[i].time < data[j].time
  }

  /** With strictly increasing times the value is the piecewise-linear interpolant: constant outside
      the data, and on every closed piece the line through its two end points. */
  lemma {:induction false} InterpolatesWhenIncreasing(data: seq<Point>, t: real, i: nat)
    requires data != [] && Increasing(data)
    ensures t <= data[0].time ==> ValueAt(data, t) == data[0].value
    ensures t >= data[|data| - 1].time ==> ValueAt(data, t) == data[|data| - 1].value
    ensures 0 < i < |data| && data[i - 1].time <= t <= data[i].time ==>
              (ValueAt(data, t) - data[i - 1].value) * (data[i].time - data[i - 1].time) ==
              (data[i].value - data[i - 1].value) * (t - data[i - 1].time)
  {
    if 0 < i < |data| && data[i - 1].time <= t <= data[i].time {
      OnPiece(data, t, i);
    }
  }

  /** A point after `t` with none of the points before it after `t` is the one the search finds. */
  lemma {:induction false} FirstAfterIs(data: seq<Point>, t: real, from: nat, k: nat)
    requires from <= k < |data| && t < data[k].time && forall j :: from <= j < k ==> data[j].time <= t
    ensures FirstAfter(data, t, from) == k
    decreases k - from
  {
    if from < k { FirstAfterIs(data, t, from + 1, k); }
  }

  lemma OnPiece(data: seq<Point>, t: real, i: nat)
    requires Increasing(data) && 0 < i < |data| && data[i - 1].time <= t <= data[i].time
    ensures OnLine(data[i - 1], data[i], t, ValueAt(data, t))
  {
    if t < data[i].time {
      if t == data[0].time {
        assert i == 1;
      } else {
        FirstAfterIs(data, t, 1, i);
        LineThrough(data[i - 1], data[i], t);
      }
    } else if i < |data| - 1 {
      FirstAfterIs(data, t, 1, i + 1);
      LineThrough(data[i], data[i + 1], t);
    }
  }

  predicate OnLine(p: Point, q: Point, t: real, v: real) {
    (v - p.value) * (q.time - p.time) == (q.value - p.value) * (t - p.time)
  }

  lemma LineThrough(p: Point, q: Point, t: real)
    requires p.time < q.time
    ensures OnLine(p, q, t, Blend(p, q, t))
    ensures t == p.time ==> Blend(p, q, t) == p.value
  {
    var width, alpha := q.time - p.time, (t - p.time) / (q.time - p.time);
    assert alpha * width == t - p.time;
    Reassociate(q.value - p.value, alpha, width);
  }

  lemma Reassociate(a: real, b: real, c: real)
    ensures (a * b) * c == a * (b * c)
  {
  }

  // ----- the player -----------------------------------------------------------------------

  /** std::string::find from a position; the length stands for "not found". */
  method FindFrom(s: string, c: char, from: nat) returns (at: nat)
    requires from <= |s|
    ensures from <= at <= |s| && c !in s[from..at]
    ensures at < |s| ==> s[at] == c
  {
    at := from;
    while at < |s| && s[at] != c
      invariant from <= at <= |s| && c !in s[from..at]
    {
      at := at + 1;
    }
  }

  /** One line of a cue file. */
  method ParsePoint(raw: string, number: Number) returns (point: Option<Point>)
    ensures point == ParseLine(raw, number)
  {
    var line := raw;
    if line != "" && line[|line| - 1] == '\r' {
      line := line[..|line| - 1];
    }
    if line == "" {
      return None;
    }
    var sep := Find(line, '\t');
    if sep == |line| {
      sep := Find(line, ' ');
      if sep == |line| {
        return None;
      }
    }
    var time := number(line[..sep]);
    if time.None? {
      return None;
    }
    var letter := if sep + 1 < |line| then line[sep + 1] else 'X';
    return Some(Point(time.value, Shape(letter)));
  }

  method TakeLine(content: string, pos: nat, ghost lines: seq<string>) returns (line: string, next: nat)
    requires pos < |content| && Consumed(content, pos, lines)
    ensures next > pos && Consumed(content, next, lines + [line])
  {
    var lineEnd := FindFrom(content, NEWLINE, pos);
    line, next := content[pos..lineEnd], lineEnd + 1;
    ConsumeLine(content, pos, lineEnd, lines);
  }

  /** The loop of StartLipSyncFromFile(): one line at a time, lines without a point are skipped. */
  method Parse(content: string, number: Number) returns (data: seq<Point>)
    ensures data == Points(Split(content, NEWLINE), number)
  {
    data := [];
    var pos := 0;
    ghost var lines: seq<string> := [];
    while pos < |content|
      invariant Consumed(content, pos, lines)
      invariant data == Points(lines, number)
      decreases |content| + 1 - pos
    {
      var line, next := TakeLine(content, pos, lines);
      PointsSnoc(lines, line, number);
      lines := lines + [line];
      pos := next;
      var point := ParsePoint(line, number);
      if point.Some? {
        data := data + [point.value];
      }
    }
    AllConsumed(content, pos, lines, number);
  }

  /** The lines before `pos`, which is just past a newline or past the end. */
  ghost predicate Consumed(content: string, pos: nat, lines: seq<string>) {
    && pos <= |content| + 1
    && if pos == 0 then lines == []
       else (pos == |content| + 1 || content[pos - 1] == NEWLINE) && lines == Split(content[..pos - 1], NEWLINE)
  }

  lemma ConsumeLine(content: string, pos: nat, lineEnd: nat, lines: seq<string>)
    requires pos <= lineEnd <= |content| && NEWLINE !in content[pos..lineEnd]
    requires lineEnd < |content| ==> content[lineEnd] == NEWLINE
    requires pos <= |content| && Consumed(content, pos, lines)
    ensures Consumed(content, lineEnd + 1, lines + [content[pos..lineEnd]])
  {
    var line := content[pos..lineEnd];
    if pos == 0 {
      SplitAppend("", line, NEWLINE);
      assert "" + line == line == content[..lineEnd];
    } else {
      var front := content[..pos - 1];
      assert content[..lineEnd] == front + [NEWLINE] + line;
      AppendSegment(front, line, NEWLINE);
    }
  }

  /** A trailing newline, or an empty file, adds only an empty line. */
  lemma AllConsumed(content: string, pos: nat, lines: seq<string>, number: Number)
    requires Consumed(content, pos, lines) && pos >= |content|
    ensures Points(Split(content, NEWLINE), number) == Points(lines, number)
  {
    if pos == |content| {
      ConsumeLine(content, pos, pos, lines);
      assert content[pos..pos] == "" && content[..pos] == content;
      PointsSnoc(lines, "", number);
      assert ParseLine("", number) == None;
    } else {
      assert content[..pos - 1] == content;
    }
  }

  /** The search loop of the lip-sync block. */
  method Interpolate(data: seq<Point>, t: real) returns (value: real)
    requires data != []
    ensures value == ValueAt(data, t)
  {
    value := 0.0;
    if t <= data[0].time {
      value := data[0].value;
    } else if t >= data[|data| - 1].time {
      value := data[|data| - 1].value;
    } else {
      for i := 1 to |data|
        invariant FirstAfter(data, t, 1) == FirstAfter(data, t, i)
        invariant value == 0.0
      {
        if t < data[i].time {
          var t0, t1 := data[i - 1].time, data[i].time;
          var alpha := if t1 - t0 > 0.0 then (t - t0) / (t1 - t0) else 0.0;
          value := data[i - 1].value + (data[i].value - data[i - 1].value) * alpha;
          return;
        }
      }
    }
  }

  class Player {
    var data: seq<Point>
    var elapsed: real
    var active: bool

    ghost predicate Valid()
      reads this
    {
      active == (data != [])
    }

    constructor ()
      ensures Valid() && data == [] && !active
    {
      data, elapsed, active := [], 0.0, false;
    }

    /** `content` is the file, None when it cannot be read. */
    method StartLipSyncFromFile(content: Option<string>, number: Number)
      modifies this
      ensures Valid() && elapsed == 0.0
      ensures data == if content.None? then [] else Points(Split(content.value, NEWLINE), number)
    {
      data, elapsed, active := [], 0.0, false;
      if content.None? || content.value == "" {
        EmptyFile(number);
        return;
      }
      data := Parse(content.value, number);
      active := |data| > 0;
    }

    static lemma EmptyFile(number: Number)
      ensures Points(Split("", NEWLINE), number) == []
    {
      assert ParseLine("", number) == None;
      PointsSnoc([], "", number);
      assert [] + [""] == [""];
    }

    method StopLipSyncData()
      modifies this
      ensures Valid() && data == [] && elapsed == 0.0
    {
      data, elapsed, active := [], 0.0, false;
    }

    /** The lip-sync block of Update(): None leaves the mouth to the sound level. */
    method Update(deltaTimeSeconds: real) returns (mouth: Option<real>)
      requires Valid()
      modifies this`elapsed
      ensures if old(data) == [] then mouth == None && elapsed == old(elapsed)
              else elapsed == old(elapsed) + deltaTimeSeconds && mouth == Some(ValueAt(data, elapsed))
    {
      if !active || |data| == 0 {
        return None;
      }
      elapsed := elapsed + deltaTimeSeconds;
      var value := Interpolate(data, elapsed);
      return Some(value);
    }
  }
}
