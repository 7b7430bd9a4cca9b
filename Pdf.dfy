/** The page layout of `save_story_pdf` in storybook.py: where each line of
    each history entry is drawn. The canvas is abstracted to the list of draw
    calls it receives; fonts, the title line and the file are not modelled. */
module Pdf {
  import opened Text

  /** Height of a US-letter page in points (reportlab's `letter` is 612 x 792). */
  const PageHeight: int := 792
  /** `y` of the first body line on the first page (`height - 100`). */
  const FirstLineY: int := PageHeight - 100
  /** `y` of the first line on every later page (`height - 80`). */
  const NewPageY: int := PageHeight - 80
  /** A line is never drawn with `y` below this: the page is changed first. */
  const BottomMargin: int := 80
  const LineStep: int := 18
  const SegmentGap: int := 10

  /** One `drawString(50, y, text)` call, on page `page` (the first is 1). */
  datatype Draw = Draw(page: nat, y: int, text: string)

  /** The canvas state the loop carries: current page, current `y`, and
      every line drawn so far. */
  datatype Cursor = Cursor(page: nat, y: int, draws: seq<Draw>)

  const Start: Cursor := Cursor(1, FirstLineY, [])

  /** Draw one line: change page first if `y` is below the margin. */
  function PlaceLine(c: Cursor, line: string): Cursor {
    var page := if c.y < BottomMargin then c.page + 1 else c.page;
    var y := if c.y < BottomMargin then NewPageY else c.y;
    Cursor(page, y - LineStep, c.draws + [Draw(page, y, Strip(line))])
  }

  function PlaceLines(c: Cursor, lines: seq<string>): Cursor
    decreases |lines|
  {
    if lines == [] then c else PlaceLine(PlaceLines(c, lines[..|lines| - 1]), lines[|lines| - 1])
  }

  /** Lay out every segment: each of its newline-separated lines, then the gap. */
  function PlaceSegments(c: Cursor, segments: seq<string>): Cursor
    decreases |segments|
  {
    if segments == [] then c
    else
      var d := PlaceLines(PlaceSegments(c, segments[..|segments| - 1]), Split(segments[|segments| - 1], '\n'));
      d.(y := d.y - SegmentGap)
  }

  /** Every draw call `save_story_pdf` makes for the body of the document. */
  function Layout(segments: seq<string>): seq<Draw> {
    PlaceSegments(Start, segments).draws
  }

  /** One pass of the inner loop: the page break when `y` is below the
      margin, the draw, and the line step, as `PlaceLine` of the lines so far. */
  lemma PlaceLinesStep(c: Cursor, lines: seq<string>, j: nat, page: nat, y: int, draws: seq<Draw>)
    requires j < |lines| && Cursor(page, y, draws) == PlaceLines(c, lines[..j])
    ensures var page' := if y < BottomMargin then page + 1 else page;
      var y' := if y < BottomMargin then NewPageY else y;
      PlaceLines(c, lines[..j + 1]) == Cursor(page', y' - LineStep, draws + [Draw(page', y', Strip(lines[j]))])
  {
    assert lines[..j + 1][..j] == lines[..j];
  }

  /** One pass of the outer loop: the lines of segment `i`, then the gap. */
  lemma PlaceSegmentsStep(segments: seq<string>, i: nat, d: Cursor)
    requires i < |segments| && d == PlaceLines(PlaceSegments(Start, segments[..i]), Split(segments[i], '\n'))
    ensures PlaceSegments(Start, segments[..i + 1]) == d.(y := d.y - SegmentGap)
  {
    assert segments[..i + 1][..i] == segments[..i];
  }

  /** The loop of `save_story_pdf`. */
  method SaveStoryLayout(segments: seq<string>) returns (draws: seq<Draw>)
    ensures draws == Layout(segments)
  {
    var page: nat, y: int := 1, FirstLineY;
    draws := [];
    var i := 0;
    while i < |segments|
      invariant 0 <= i <= |segments|
      invariant Cursor(page, y, draws) == PlaceSegments(Start, segments[..i])
    {
      var lines := Split(segments[i], '\n');
      ghost var before := Cursor(page, y, draws);
      var j := 0;
      while j < |lines|
        invariant 0 <= j <= |lines|
        invariant Cursor(page, y, draws) == PlaceLines(before, lines[..j])
      {
        PlaceLinesStep(before, lines, j, page, y, draws);
        if y < BottomMargin {
          page := page + 1;
          y := NewPageY;
        }
        draws := draws + [Draw(page, y, Strip(lines[j]))];
        y := y - LineStep;
        j := j + 1;
      }
      assert lines[..j] == lines;
      PlaceSegmentsStep(segments, i, Cursor(page, y, draws));
      y := y - SegmentGap;
      i := i + 1;
    }
    assert segments[..i] == segments;
  }

  // ---------------------------------------------------------------------------
  // What is drawn: every stripped line of every segment, in order
  // ---------------------------------------------------------------------------

  function Texts(draws: seq<Draw>): seq<string>
    decreases |draws|
  {
    if draws == [] then [] else Texts(draws[..|draws| - 1]) + [draws[|draws| - 1].text]
  }

  function StrippedAll(lines: seq<string>): seq<string>
    decreases |lines|
  {
    if lines == [] then [] else StrippedAll(lines[..|lines| - 1]) + [Strip(lines[|lines| - 1])]
  }

  /** The stripped pieces of every segment's `split("\n")`, segment after segment. */
  function DocumentLines(segments: seq<string>): seq<string>
    decreases |segments|
  {
    if segments == [] then []
    else DocumentLines(segments[..|segments| - 1]) + StrippedAll(Split(segments[|segments| - 1], '\n'))
  }

  lemma {:induction false} TextsAppend(a: seq<Draw>, b: seq<Draw>)
    ensures Texts(a + b) == Texts(a) + Texts(b)
    decreases |b|
  {
    if b != [] {
      TextsAppend(a, b[..|b| - 1]);
      assert (a + b)[..|a + b| - 1] == a + b[..|b| - 1];
    } else {
      assert a + b == a;
    }
  }

  lemma {:induction false} PlaceLinesTexts(c: Cursor, lines: seq<string>)
    ensures Texts(PlaceLines(c, lines).draws) == Texts(c.draws) + StrippedAll(lines)
    decreases |lines|
  {
    if lines != [] {
      var c' := PlaceLines(c, lines[..|lines| - 1]);
      PlaceLinesTexts(c, lines[..|lines| - 1]);
      TextsAppend(c'.draws, [PlaceLine(c', lines[|lines| - 1]).draws[|c'.draws|]]);
      assert PlaceLine(c', lines[|lines| - 1]).draws == c'.draws + [PlaceLine(c', lines[|lines| - 1]).draws[|c'.draws|]];
    }
  }

  lemma {:induction false} PlaceSegmentsTexts(c: Cursor, segments: seq<string>)
    ensures Texts(PlaceSegments(c, segments).draws) == Texts(c.draws) + DocumentLines(segments)
    decreases |segments|
  {
    if segments != [] {
      var front := segments[..|segments| - 1];
      PlaceSegmentsTexts(c, front);
      PlaceLinesTexts(PlaceSegments(c, front), Split(segments[|segments| - 1], '\n'));
    }
  }

  /** One draw call per newline-separated piece of each segment, in reading
      order, each with its surrounding whitespace stripped. */
  lemma LayoutTexts(segments: seq<string>)
    ensures Texts(Layout(segments)) == DocumentLines(segments)
  {
    PlaceSegmentsTexts(Start, segments);
  }

  lemma {:induction false} StrippedAllLength(lines: seq<string>)
    ensures |StrippedAll(lines)| == |lines|
    decreases |lines|
  {
    if lines != [] {
      StrippedAllLength(lines[..|lines| - 1]);
    }
  }

  /** A segment with N line breaks contributes N + 1 lines, so a non-empty
      history never gives an empty document body. */
  lemma {:induction false} DocumentLinesCount(segments: seq<string>)
    ensures |DocumentLines(segments)| >= |segments|
    ensures segments != [] ==>
      |DocumentLines(segments)| == |DocumentLines(segments[..|segments| - 1])| + Count(segments[|segments| - 1], '\n') + 1
    decreases |segments|
  {
    if segments != [] {
      DocumentLinesCount(segments[..|segments| - 1]);
      StrippedAllLength(Split(segments[|segments| - 1], '\n'));
      SplitCount(segments[|segments| - 1], '\n');
    }
  }

  // ---------------------------------------------------------------------------
  // Where it is drawn: the vertical geometry
  // ---------------------------------------------------------------------------

  /** How `b` follows `a` when the cursor dropped by `gap` after `a`: on the
      same page `gap` lower, or, exactly when that falls below the margin, at
      the top of the next page. */
  predicate FollowsWith(a: Draw, b: Draw, gap: int) {
    if a.y - gap < BottomMargin then b.page == a.page + 1 && b.y == NewPageY
    else b.page == a.page && b.y == a.y - gap
  }

  /** The drop before each drawn line: one line step inside a segment, and one
      line step plus the segment gap before the first line of every segment
      after the first. (The entry of the very first line is never used.) */
  function Gaps(segments: seq<string>): seq<int>
    decreases |segments|
  {
    if segments == [] then []
    else
      var front := segments[..|segments| - 1];
      Gaps(front) + [if front == [] then LineStep else LineStep + SegmentGap]
      + seq(|Split(segments[|segments| - 1], '\n')| - 1, _ => LineStep)
  }

  /** Every drawn line is within the margins, the first one opens page 1 at
      the first-line offset, and each later one follows its predecessor with
      the drop `gaps` gives for its position. */
  predicate Placed(draws: seq<Draw>, gaps: seq<int>) {
    |draws| == |gaps|
    && (forall k :: 0 <= k < |draws| ==> BottomMargin <= draws[k].y <= NewPageY && draws[k].page >= 1)
    && (draws != [] ==> draws[0].page == 1 && draws[0].y == FirstLineY)
    && (forall k :: 0 < k < |draws| ==> FollowsWith(draws[k - 1], draws[k], gaps[k]))
  }

  /** The cursor is on the page of the last line drawn, `gap` below it, or
      still at the start when nothing was drawn. */
  predicate Pending(c: Cursor, gap: int) {
    if c.draws == [] then c.page == 1 && c.y == FirstLineY
    else c.page == c.draws[|c.draws| - 1].page && c.y == c.draws[|c.draws| - 1].y - gap
  }

  /** Appending a line that is within the margins and follows the last one
      with drop `gap` keeps the draws placed. */
  lemma PlacedSnoc(draws: seq<Draw>, gaps: seq<int>, x: Draw, gap: int)
    requires Placed(draws, gaps) && BottomMargin <= x.y <= NewPageY && x.page >= 1
    requires draws == [] ==> x.page == 1 && x.y == FirstLineY
    requires draws != [] ==> FollowsWith(draws[|draws| - 1], x, gap)
    ensures Placed(draws + [x], gaps + [gap])
  {
    var n := |draws|;
    var e := draws + [x];
    assert forall k :: 0 <= k < n ==> e[k] == draws[k];
    assert e[n] == x;
  }

  /** One line, with its page break when `y < 80`, follows the last line with
      the pending drop. */
  lemma PlaceLinePlaced(c: Cursor, line: string, gaps: seq<int>, gap: int)
    requires Placed(c.draws, gaps) && Pending(c, gap) && gap >= 0
    ensures Placed(PlaceLine(c, line).draws, gaps + [gap])
    ensures Pending(PlaceLine(c, line), LineStep)
  {
    var page := if c.y < BottomMargin then c.page + 1 else c.page;
    var y := if c.y < BottomMargin then NewPageY else c.y;
    var x := Draw(page, y, Strip(line));
    assert PlaceLine(c, line) == Cursor(page, y - LineStep, c.draws + [x]);
    if c.draws != [] {
      assert FollowsWith(c.draws[|c.draws| - 1], x, gap);
    }
    PlacedSnoc(c.draws, gaps, x, gap);
  }

  /** The lines of one segment: the first after the pending drop, the others
      one line step apart. */
  lemma {:induction false} PlaceLinesPlaced(c: Cursor, lines: seq<string>, gaps: seq<int>, gap: int)
    requires Placed(c.draws, gaps) && Pending(c, gap) && gap >= 0 && lines != []
    ensures Placed(PlaceLines(c, lines).draws, gaps + [gap] + seq(|lines| - 1, _ => LineStep))
    ensures Pending(PlaceLines(c, lines), LineStep)
    decreases |lines|
  {
    var front := lines[..|lines| - 1];
    if front == [] {
      assert PlaceLines(c, lines) == PlaceLine(c, lines[0]);
      PlaceLinePlaced(c, lines[0], gaps, gap);
      assert gaps + [gap] + seq(|lines| - 1, _ => LineStep) == gaps + [gap];
    } else {
      PlaceLinesPlaced(c, front, gaps, gap);
      var before := gaps + [gap] + seq(|front| - 1, _ => LineStep);
      PlaceLinePlaced(PlaceLines(c, front), lines[|lines| - 1], before, LineStep);
      assert before + [LineStep] == gaps + [gap] + seq(|lines| - 1, _ => LineStep);
    }
  }

  /** After every segment the lines drawn so far follow each other with the
      drops of `Gaps`, and the cursor waits one line step plus the segment gap
      below the last line. */
  lemma {:induction false} PlaceSegmentsPlaced(segments: seq<string>)
    ensures Placed(PlaceSegments(Start, segments).draws, Gaps(segments))
    ensures Pending(PlaceSegments(Start, segments), if segments == [] then 0 else LineStep + SegmentGap)
    decreases |segments|
  {
    if segments != [] {
      var front := segments[..|segments| - 1];
      PlaceSegmentsPlaced(front);
      var c := PlaceSegments(Start, front);
      var gap := if front == [] then LineStep else LineStep + SegmentGap;
      var lines := Split(segments[|segments| - 1], '\n');
      assert Pending(c, gap);
      PlaceLinesPlaced(c, lines, Gaps(front), gap);
      var d := PlaceLines(c, lines);
      assert PlaceSegments(Start, segments) == d.(y := d.y - SegmentGap);
      assert Gaps(segments) == Gaps(front) + [gap] + seq(|lines| - 1, _ => LineStep);
    }
  }

  /** The page geometry of the document: every line is drawn at `y >= 80`
      and at most 712, the first at 692 on page 1, and each later one the drop
      of its position below its predecessor, or at 712 on the next page
      exactly when that would fall below 80. */
  lemma LayoutGeometry(segments: seq<string>)
    ensures Placed(Layout(segments), Gaps(segments))
  {
    PlaceSegmentsPlaced(segments);
  }

  /** `Gaps` has one entry per document line. */
  lemma {:induction false} GapsLength(segments: seq<string>)
    ensures |Gaps(segments)| == |DocumentLines(segments)|
    decreases |segments|
  {
    if segments != [] {
      GapsLength(segments[..|segments| - 1]);
      StrippedAllLength(Split(segments[|segments| - 1], '\n'));
    }
  }

  /** The gaps of the last segment: 28 before its first line unless it is
      the only segment, 18 before the others. */
  lemma GapsOfLast(segments: seq<string>, j: nat)
    requires segments != [] && j < |Split(segments[|segments| - 1], '\n')|
    ensures |Gaps(segments[..|segments| - 1])| + j < |Gaps(segments)|
    ensures Gaps(segments)[|Gaps(segments[..|segments| - 1])| + j]
      == if |segments| > 1 && j == 0 then LineStep + SegmentGap else LineStep
  {
    var front := segments[..|segments| - 1];
    var g := if front == [] then LineStep else LineStep + SegmentGap;
    var tail := seq(|Split(segments[|segments| - 1], '\n')| - 1, _ => LineStep);
    assert Gaps(segments) == Gaps(front) + [g] + tail;
    if j > 0 {
      assert Gaps(segments)[|Gaps(front)| + j] == tail[j - 1];
    }
  }

  /** The gaps of a prefix of the segments are a prefix of the gaps. */
  lemma {:induction false} GapsPrefix(segments: seq<string>, n: nat)
    requires n <= |segments|
    ensures |Gaps(segments[..n])| <= |Gaps(segments)|
    ensures Gaps(segments)[..|Gaps(segments[..n])|] == Gaps(segments[..n])
    decreases |segments|
  {
    if n == |segments| {
      assert segments[..n] == segments;
    } else {
      var front := segments[..|segments| - 1];
      GapsPrefix(front, n);
      assert front[..n] == segments[..n];
      assert Gaps(segments)[..|Gaps(front)|] == Gaps(front);
    }
  }

  /** The entry of line `j` of segment `i` is 28 when it opens a later
      segment and 18 otherwise. */
  lemma GapsAt(segments: seq<string>, i: nat, j: nat)
    requires i < |segments| && j < |Split(segments[i], '\n')|
    ensures |DocumentLines(segments[..i])| + j < |Gaps(segments)|
    ensures Gaps(segments)[|DocumentLines(segments[..i])| + j]
      == if i > 0 && j == 0 then LineStep + SegmentGap else LineStep
  {
    var upto := segments[..i + 1];
    assert upto[..|upto| - 1] == segments[..i];
    assert upto[|upto| - 1] == segments[i];
    GapsLength(segments[..i]);
    GapsOfLast(upto, j);
    GapsPrefix(segments, i + 1);
    var k := |DocumentLines(segments[..i])| + j;
    assert Gaps(upto)[k] == Gaps(segments)[k];
  }

  /** Line `j` of segment `i` is drawn 18 points below the line before it
      inside a segment and 28 across segments, on the same page, or, exactly
      when that would fall below 80, at 712 on the next page. */
  lemma LayoutSteps(segments: seq<string>, i: nat, j: nat)
    requires i < |segments| && j < |Split(segments[i], '\n')| && (i > 0 || j > 0)
    ensures var draws := Layout(segments); var k := |DocumentLines(segments[..i])| + j;
      0 < k < |draws|
      && FollowsWith(draws[k - 1], draws[k], if j == 0 then LineStep + SegmentGap else LineStep)
  {
    LayoutGeometry(segments);
    GapsLength(segments);
    GapsAt(segments, i, j);
    DocumentLinesCount(segments[..i]);
  }
}
