/** A page on which the histogram path writes glyphs twice: a line with a tall
    glyph, whose block reaches over the line below. */
module DoubledGlyphs {
  import opened Glyphs
  import opened Histogram
  import opened LineGrouping
  import opened Ordering
  import opened PageLayout
  import opened PageText
  import opened ReadingOrder
  import opened Text
  import opened TextLines
  import opened Wrappers

  const TALL := Glyph(0, 190.0, 60.0, 200.0, 150.0, "a")
  const BESIDE := Glyph(1, 210.0, 100.0, 220.0, 110.0, "b")
  const LOWER := Glyph(2, 190.0, 85.0, 200.0, 95.0, "c")
  const LAST := Glyph(3, 210.0, 85.0, 220.0, 95.0, "d")

  const UPPER_LINE := [TALL, BESIDE]
  const LOWER_LINE := [LOWER, LAST]
  const PAGE := UPPER_LINE + LOWER_LINE
  const WIDTH := 400.0

  // ----------------------------------------------------------- the two columns

  lemma FourGlyphs()
    ensures |PAGE| == 4 && PAGE[0] == TALL && PAGE[1] == BESIDE && PAGE[2] == LOWER && PAGE[3] == LAST
    ensures Distinct(PAGE) && LOWER in PAGE
  {
  }

  lemma {:induction false} CountsOfPair(a: Glyph, b: Glyph, rest: seq<Glyph>, bin: nat)
    requires a.x0 == 190.0 && a.x1 == 200.0 && b.x0 == 210.0 && b.x1 == 220.0
    ensures BinOf(XMid(a), 10.0) == Some(19) && BinOf(XMid(b), 10.0) == Some(21)
    ensures CountIn([a, b] + rest, 10.0, bin)
      == (if bin == 19 || bin == 21 then 1 else 0) + CountIn(rest, 10.0, bin)
  {
    assert XMid(a) / 10.0 == 19.5 && XMid(b) / 10.0 == 21.5;
    var page := [a, b] + rest;
    assert page[1..] == [b] + rest && ([b] + rest)[1..] == rest;
  }

  /** Two centres in bin 19, two in bin 21, none elsewhere. */
  ghost predicate TwoPeaks(h: seq<nat>) {
    |h| == BINS && forall i | 0 <= i < BINS :: h[i] == if i == 19 || i == 21 then 2 else 0
  }

  lemma PeaksOfPage()
    ensures PageHistogram(PAGE, 10.0).Some? && TwoPeaks(PageHistogram(PAGE, 10.0).value)
  {
    forall bin: nat | bin < BINS ensures CountIn(PAGE, 10.0, bin) == if bin == 19 || bin == 21 then 2 else 0 {
      CountsOfPair(TALL, BESIDE, LOWER_LINE, bin);
      CountsOfPair(LOWER, LAST, [], bin);
      assert LOWER_LINE + [] == LOWER_LINE;
    }
    CountsOfPair(TALL, BESIDE, [], 0);
    CountsOfPair(LOWER, LAST, [], 0);
  }

  lemma OneValley(h: seq<nat>, i: nat)
    requires TwoPeaks(h) && 2 <= i < BINS - 2
    ensures ValleyThreshold(h) == 1.0
    ensures IsValley(h, i, 1.0) <==> i == 20
    ensures IsDeepValley(h, i, 1.0) <==> i == 20
  {
    MedianBetween(AsReals(h), 0.0, 2.0);
  }

  lemma {:induction false} ValleysOfPeaks(h: seq<nat>, i: nat)
    requires TwoPeaks(h) && 2 <= i <= BINS - 2
    ensures DeepValleysFrom(h, i, 1.0, 10.0) == if i <= 20 then [205.0] else []
    ensures ValleysFrom(h, i, 1.0, 10.0) == if i <= 20 then [Valley(205.0, 0)] else []
    decreases BINS - i
  {
    if i < BINS - 2 {
      OneValley(h, i);
      ValleysOfPeaks(h, i + 1);
    }
  }

  lemma OneColumnMore(x: real, minGap: real)
    ensures ColumnsBetween([x], minGap) == 2
  {
    assert [x][1..] == [] && [] + [x] == [x];
    assert SpacedFrom([x], [], minGap) == [x];
    assert SpacedFrom([], [x], minGap) == [x];
  }

  lemma OneDeepValley(chars: seq<Glyph>, pageWidth: real, h: seq<nat>, x: real)
    requires chars != [] && pageWidth > 0.0 && |h| == BINS && PageHistogram(chars, pageWidth / BINS as real) == Some(h)
    requires DeepValleys(h, pageWidth / BINS as real) == [x]
    ensures ColumnCount(chars, pageWidth) == Some(2)
  {
    OneColumnMore(x, pageWidth * 0.04);
  }

  lemma OneBoundary(h: seq<nat>, pageWidth: real, valley: Valley)
    requires |h| == BINS && Valleys(h, pageWidth / BINS as real) == [valley]
    ensures BoundariesOf(h, pageWidth, 2) == [valley.x]
  {
    SortedStays([valley], ByCount);
    SortedStays([valley.x], Same);
    assert [valley][..1] == [valley] && Positions([valley]) == [valley.x];
  }

  lemma BinWidth()
    ensures WIDTH / BINS as real == 10.0
  {
  }

  lemma TwoColumns()
    ensures ColumnCount(PAGE, WIDTH) == Some(2) && ColumnBoundaries(PAGE, WIDTH, 2) == Some([205.0])
  {
    PeaksOfPage();
    var h := PageHistogram(PAGE, 10.0).value;
    OneValley(h, 2);
    ValleysOfPeaks(h, 2);
    FourGlyphs();
    BinWidth();
    OneDeepValley(PAGE, WIDTH, h, 205.0);
    OneBoundary(h, WIDTH, Valley(205.0, 0));
  }

  // --------------------------------------------------------------- the two blocks

  lemma LinesOfPage()
    ensures Heights(PAGE) != [] && Groups(PAGE) == [UPPER_LINE, LOWER_LINE]
  {
    ToleranceOfPage();
    assert PAGE == [TALL, BESIDE, LOWER, LAST];
    GroupsOfFour(TALL, BESIDE, LOWER, LAST, 5.0);
  }

  lemma GreedyOnTwoLines(a: Glyph, b: Glyph, c: Glyph, d: Glyph, tolerance: real)
    requires YMid(a) == YMid(b) && YMid(c) == YMid(d) && YMid(a) > YMid(c) + tolerance && tolerance >= 0.0
    ensures GreedyFrom([a], YMid(a), [b, c, d], tolerance) == [[a, b], [c, d]]
  {
    assert [b, c, d][1..] == [c, d] && [c, d][1..] == [d] && [d][1..] == [];
    assert [a] + [b] == [a, b] && [c] + [d] == [c, d];
    assert GreedyFrom([c, d], YMid(c), [], tolerance) == [[c, d]];
    assert GreedyFrom([c], YMid(c), [d], tolerance) == [[c, d]];
    assert GreedyFrom([a, b], YMid(a), [c, d], tolerance) == [[a, b]] + [[c, d]];
  }

  lemma GroupsOfFour(a: Glyph, b: Glyph, c: Glyph, d: Glyph, tolerance: real)
    requires YMid(a) == YMid(b) && YMid(c) == YMid(d) && YMid(a) > YMid(c) + tolerance && tolerance >= 0.0
    requires Tolerance([a, b, c, d]) == tolerance
    ensures Groups([a, b, c, d]) == [[a, b], [c, d]]
  {
    var chars := [a, b, c, d];
    FourFromTop(a, b, c, d);
    GroupsInOrder(chars, a, [b, c, d], tolerance);
    GreedyOnTwoLines(a, b, c, d, tolerance);
  }

  lemma FourFromTop(a: Glyph, b: Glyph, c: Glyph, d: Glyph)
    requires YMid(a) >= YMid(b) >= YMid(c) >= YMid(d)
    ensures SortBy([a, b, c, d], FromTop) == [a, b, c, d]
  {
    SortedStays([a, b, c, d], FromTop);
  }

  lemma GroupsInOrder(chars: seq<Glyph>, first: Glyph, rest: seq<Glyph>, tolerance: real)
    requires chars == [first] + rest && SortBy(chars, FromTop) == chars && Tolerance(chars) == tolerance
    ensures Groups(chars) == GreedyFrom([first], YMid(first), rest, tolerance)
  {
    assert chars[1..] == rest;
  }

  lemma ToleranceOfPage()
    ensures Heights(PAGE) != [] && Tolerance(PAGE) == 5.0
  {
    assert PAGE[1..] == [BESIDE, LOWER, LAST];
    assert [BESIDE, LOWER, LAST][1..] == LOWER_LINE && LOWER_LINE[1..] == [LAST] && [LAST][1..] == [];
    assert Heights([LAST]) == [10.0];
    assert Heights(LOWER_LINE) == [10.0, 10.0];
    assert Heights([BESIDE, LOWER, LAST]) == [10.0, 10.0, 10.0];
    assert Heights(PAGE) == [90.0, 10.0, 10.0, 10.0];
    MedianOfFour(10.0, 90.0);
  }

  lemma MedianOfFour(x: real, y: real)
    requires x < y
    ensures Median([y, x, x, x]) == x
  {
    var s, low := [y, x, x, x], [x, x, x];
    assert s[1..] == low;
    SortedStays(low, Same);
    InsertLast(y, low);
    MiddleOfFour(s, low + [y]);
  }

  lemma {:induction false} InsertLast(y: real, s: seq<real>)
    requires forall i | 0 <= i < |s| :: s[i] < y
    ensures InsertBy(y, s, Same) == s + [y]
  {
    if s != [] {
      InsertLast(y, s[1..]);
      InsertBehind(y, s[0], s[1..], Same);
      assert [s[0]] + s[1..] == s && [s[0]] + (s[1..] + [y]) == s + [y];
    }
  }

  lemma MiddleOfFour(s: seq<real>, sorted: seq<real>)
    requires |s| == 4 && SortBy(s, Same) == sorted && sorted[1] == sorted[2]
    ensures Median(s) == sorted[1]
  {
  }

  function UpperBox(kind: string): Box { Box(190.0, 60.0, 220.0, 150.0, kind) }

  function LowerBox(kind: string): Box { Box(190.0, 85.0, 220.0, 95.0, kind) }

  lemma EdgesOfPair(a: Glyph, b: Glyph)
    ensures LowestX([a, b]) == MinReal(a.x0, b.x0) && HighestX([a, b]) == MaxReal(a.x1, b.x1)
    ensures LowestY([a, b]) == MinReal(a.y0, b.y0) && HighestY([a, b]) == MaxReal(a.y1, b.y1)
  {
    assert [a, b][1..] == [b];
  }

  lemma LinesCross(classify: (string, real) -> string) returns (k: string, l: string)
    ensures CrossingLines([UPPER_LINE, LOWER_LINE], [205.0], classify) == [UpperBox(k), LowerBox(l)]
  {
    k := classify(RawText(SortBy(UPPER_LINE, LeftEdge)), 60.0);
    l := classify(RawText(SortBy(LOWER_LINE, LeftEdge)), 85.0);
    EdgesOfPair(TALL, BESIDE);
    EdgesOfPair(LOWER, LAST);
    var both, boundaries := [UPPER_LINE, LOWER_LINE], [205.0];
    assert both[1..] == [LOWER_LINE] && [LOWER_LINE][1..] == [];
    assert forall b | b in boundaries :: 190.0 < b < 220.0;
    assert CrossingLines([LOWER_LINE], boundaries, classify) == [LowerBox(l)] + [];
    assert CrossingLines(both, boundaries, classify) == [UpperBox(k)] + [LowerBox(l)];
  }

  lemma BlocksStay(upper: Box, lower: Box)
    requires upper.y1 >= lower.y1 && !Adjacent(upper, lower)
    ensures MergedBlocks([upper, lower]) == [upper, lower]
  {
    SortedStays([upper, lower], FromTopEdge);
    assert [upper, lower][1..] == [lower] && [lower][1..] == [];
    assert [upper] + [lower] == [upper, lower];
    assert MergeBlocksFrom([upper, lower], []) == [upper, lower];
    assert MergeBlocksFrom([upper], [lower]) == [upper, lower];
  }

  lemma BothHold(g: Glyph, upper: Box, lower: Box)
    requires InBox(g, upper) && InBox(g, lower)
    ensures BoxesHolding(g, [upper, lower]) == 2
  {
    assert [upper, lower][1..] == [lower] && [lower][1..] == [];
    assert BoxesHolding(g, [lower]) == 1 + BoxesHolding(g, []);
  }

  lemma TwoBlocks(classify: (string, real) -> string) returns (boxes: seq<Box>)
    ensures FullWidthBlocks(PAGE, WIDTH, 2, classify) == Some(boxes)
    ensures boxes != [] && BoxesHolding(LOWER, boxes) == 2
  {
    FourGlyphs();
    TwoColumns();
    LinesOfPage();
    var k, l := LinesCross(classify);
    BlocksStay(UpperBox(k), LowerBox(l));
    BothHold(LOWER, UpperBox(k), LowerBox(l));
    boxes := [UpperBox(k), LowerBox(l)];
  }

  // ------------------------------------------------------------------ the page

  lemma {:induction false} InkIsSome(order: seq<Glyph>, g: Glyph)
    requires g in order && Ink(g.ch) != []
    ensures GlyphInk(order) != []
  {
    if order[0] != g {
      InkIsSome(order[1..], g);
    }
  }

  lemma MarkedIsSome(levels: seq<nat>, pieces: seq<string>)
    requires |levels| == |pieces| && pieces != [] && pieces[0] != []
    ensures Marked(levels, pieces) != []
  {
  }

  /** Groups with any ink give a text. */
  lemma BlocksOfInk(groups: seq<seq<Glyph>>, detect: bool, g: Glyph)
    requires g in multiset(Flatten(groups)) && Ink(g.ch) != []
    ensures Blocks(groups, detect) != []
  {
    BlocksInk(groups, detect);
    PageOrderPermutes(groups);
    assert g in multiset(PageOrder(groups));
    InkIsSome(PageOrder(groups), g);
    MarkedIsSome(PageLevels(groups, detect), PagePieces(groups));
    assert Ink(Join(Blocks(groups, detect), "\n")) != [];
  }

  lemma GroupsOfBlocks(chars: seq<Glyph>, width: real, settings: Settings, boxes: seq<Box>, g: Glyph)
    returns (groups: seq<seq<Glyph>>)
    requires width > 0.0 && ColumnCount(chars, width) == Some(2) && ColumnBoundaries(chars, width, 2).Some?
    requires FullWidthBlocks(chars, width, 2, settings.classify) == Some(boxes) && boxes != []
    requires Distinct(chars) && g in chars && Ink(g.ch) != []
    ensures HistogramGroups(chars, width, settings) == Some(groups)
    ensures multiset(PageOrder(groups))[g] == if BoxesHolding(g, boxes) == 0 then 1 else BoxesHolding(g, boxes)
  {
    ReadingGroupsExist(chars, width, boxes);
    groups := ReadingGroups(chars, width, boxes).value;
    ReadingGroupsCount(chars, width, boxes, g);
    PageOrderPermutes(groups);
    assert g in multiset(Flatten(groups));
    BlocksOfInk(groups, settings.detect, g);
    HistogramApplies(chars, width, settings, boxes, groups);
  }

  lemma ReadingGroupsExist(chars: seq<Glyph>, width: real, boxes: seq<Box>)
    requires width > 0.0 && ColumnCount(chars, width) == Some(2) && ColumnBoundaries(chars, width, 2).Some?
    ensures ReadingGroups(chars, width, boxes).Some?
  {
  }

  lemma HistogramApplies(
    chars: seq<Glyph>, width: real, settings: Settings, boxes: seq<Box>, groups: seq<seq<Glyph>>)
    requires width > 0.0 && ColumnCount(chars, width) == Some(2) && boxes != []
    requires FullWidthBlocks(chars, width, 2, settings.classify) == Some(boxes)
    requires ReadingGroups(chars, width, boxes) == Some(groups) && Blocks(groups, settings.detect) != []
    ensures HistogramGroups(chars, width, settings) == Some(groups)
  {
  }

  /** The histogram path writes the first glyph of the lower line twice, whatever
      kinds the blocks are given: its centre lies in the blocks of both lines. */
  lemma WrittenTwice(settings: Settings)
    ensures HistogramGroups(PAGE, WIDTH, settings).Some?
    ensures multiset(PageOrder(HistogramGroups(PAGE, WIDTH, settings).value))[LOWER] == 2
  {
    FourGlyphs();
    TwoColumns();
    assert Ink("c") == "c" + Ink([]);
    var boxes := TwoBlocks(settings.classify);
    var groups := GroupsOfBlocks(PAGE, WIDTH, settings, boxes, LOWER);
  }
}
