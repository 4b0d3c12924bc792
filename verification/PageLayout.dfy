/** A page of glyphs turned into markdown: margin strips filtered, the two
    orderings of multi-column pages, and conservation of the ink. */
module PageLayout {
  import opened ColumnSplit
  import opened Glyphs
  import opened Histogram
  import opened Ordering
  import opened PageText
  import opened ReadingOrder
  import opened Text
  import opened TextLines
  import opened Wrappers

  /** What the page text depends on beside the page: the classifier of full-width
      rows, and whether headings are detected. */
  datatype Settings = Settings(classify: (string, real) -> string, detect: bool)

  const MARGIN_COL_WIDTH_RATIO := 0.12

  // ---------------------------------------------------------- margin strips

  /** The horizontal extent of a column. */
  function XSpan(chars: seq<Glyph>): real {
    if chars == [] then 0.0 else HighestX(chars) - LowestX(chars)
  }

  function CountShort(lines: seq<Line>): nat {
    if lines == [] then 0 else (if |lines[0].text| <= 2 then 1 else 0) + CountShort(lines[1..])
  }

  /** The share of lines with at most two characters. */
  function SingleLineFraction(lines: seq<Line>): real {
    if lines == [] then 0.0 else CountShort(lines) as real / |lines| as real
  }

  function LowestMid(chars: seq<Glyph>): real
    requires chars != []
  {
    if |chars| == 1 then YMid(chars[0]) else MinReal(YMid(chars[0]), LowestMid(chars[1..]))
  }

  function HighestMid(chars: seq<Glyph>): real
    requires chars != []
  {
    if |chars| == 1 then YMid(chars[0]) else MaxReal(YMid(chars[0]), HighestMid(chars[1..]))
  }

  /** A narrow column of short lines, or vertical text: a tall stack of them. */
  predicate IsArtifactShape(span: real, height: real, n: nat, single: real, width: real)
    requires width > 0.0
  {
    || span <= 0.0
    || (span / width < MARGIN_COL_WIDTH_RATIO && single >= 0.45)
    || (height > span * 3.5 && n >= 8 && single >= 0.35)
  }

  /** A column with the given text lines is a margin strip or vertical watermark. */
  predicate IsArtifact(chars: seq<Glyph>, lines: seq<Line>, width: real) {
    if chars == [] || width <= 0.0 then true
    else
      IsArtifactShape(XSpan(chars), HighestMid(chars) - LowestMid(chars), |chars|, SingleLineFraction(lines), width)
  }

  predicate IsArtifactColumn(chars: seq<Glyph>, width: real) { IsArtifact(chars, TextLinesOf(chars), width) }

  function Artifact(width: real): seq<Glyph> -> bool { (chars: seq<Glyph>) => IsArtifactColumn(chars, width) }

  /** The first of the widest columns. */
  function WidestColumn(cols: seq<seq<Glyph>>): (k: nat)
    requires cols != []
    ensures k < |cols|
    ensures forall i | 0 <= i < |cols| :: XSpan(cols[i]) <= XSpan(cols[k])
    ensures forall i | 0 <= i < k :: XSpan(cols[i]) < XSpan(cols[k])
  {
    if |cols| == 1 then 0
    else
      var k := WidestColumn(cols[1..]);
      if XSpan(cols[0]) >= XSpan(cols[k + 1]) then 0 else k + 1
  }

  /** The columns to read: artifacts dropped, unless all are artifacts. */
  function ReadingColumns(chars: seq<Glyph>, scale: real, width: real): seq<seq<Glyph>> {
    Chosen(SplitColumns(chars, scale, width, 0), Artifact(width))
  }

  function Chosen(cols: seq<seq<Glyph>>, drop: seq<Glyph> -> bool): seq<seq<Glyph>> {
    var kept := Without(cols, drop);
    if kept != [] then kept
    else if |cols| > 1 then [cols[WidestColumn(cols)]]
    else cols
  }

  lemma SomeChosen(cols: seq<seq<Glyph>>, drop: seq<Glyph> -> bool)
    requires cols != []
    ensures Chosen(cols, drop) != []
    ensures forall col | col in Chosen(cols, drop) :: col in cols
    ensures forall col | col in cols && !drop(col) :: col in Chosen(cols, drop)
  {
    assert cols[WidestColumn(cols)] in cols;
  }

  /** At least one column is always read, and every column read is a column of
      the page; a column that is no artifact is never dropped. */
  lemma ReadingColumnsKept(chars: seq<Glyph>, scale: real, width: real)
    ensures ReadingColumns(chars, scale, width) != []
    ensures forall col | col in ReadingColumns(chars, scale, width) :: col in SplitColumns(chars, scale, width, 0)
    ensures forall col | col in SplitColumns(chars, scale, width, 0) && !Artifact(width)(col) ::
      col in ReadingColumns(chars, scale, width)
  {
    var cols := SplitColumns(chars, scale, width, 0);
    SplitNotEmpty(chars, scale, width, 0);
    SomeChosen(cols, Artifact(width));
  }

  lemma {:induction false} SplitNotEmpty(chars: seq<Glyph>, scale: real, width: real, depth: nat)
    ensures SplitColumns(chars, scale, width, depth) != []
    decreases 11 - depth
  {
    var minGap := MinGutter(scale, width);
    if |chars| > 1 && depth <= 10 && BestCut(chars, minGap).Some? {
      var left := LeftOf(chars, BestCut(chars, minGap).value);
      if left != [] {
        SplitNotEmpty(left, scale, width, depth + 1);
      }
    }
  }

  // ------------------------------------------------------------- the whole page

  /** The texts that are not empty. */
  function NonEmpty(texts: seq<string>): seq<string> {
    if texts == [] then []
    else if texts[0] == [] then NonEmpty(texts[1..])
    else [texts[0]] + NonEmpty(texts[1..])
  }

  lemma {:induction false} NonEmptyNext(texts: seq<string>, text: string)
    ensures NonEmpty(texts + [text]) == NonEmpty(texts) + if text == [] then [] else [text]
  {
    if texts == [] {
      assert [] + [text] == [text] && [text][1..] == [];
    } else {
      NonEmptyNext(texts[1..], text);
      assert (texts + [text])[1..] == texts[1..] + [text];
    }
  }

  function GroupText(detect: bool): seq<Glyph> -> string { (group: seq<Glyph>) => GroupMarkdown(group, detect) }

  function Texts(groups: seq<seq<Glyph>>, detect: bool): (r: seq<string>)
    ensures |r| == |groups|
  {
    Each(GroupText(detect), groups)
  }

  /** The texts of the groups that have any. */
  function Blocks(groups: seq<seq<Glyph>>, detect: bool): seq<string> { NonEmpty(Texts(groups, detect)) }

  method RenderGroup(group: seq<Glyph>, detect: bool) returns (md: string)
    ensures md == GroupMarkdown(group, detect)
  {
    var lines := GroupLines(group);
    var merged := MergeOrphanPunctuationLines(lines);
    md := SegmentsToMarkdown(merged, detect);
  }

  /** A text is appended unless it is empty. */
  method AppendText(before: seq<string>, md: string, ghost texts: seq<string>) returns (blocks: seq<string>)
    requires before == NonEmpty(texts)
    ensures blocks == NonEmpty(texts + [md])
  {
    NonEmptyNext(texts, md);
    blocks := if md != [] then before + [md] else before;
  }

  lemma Prefixes<T>(s: seq<T>, i: nat)
    requires i < |s|
    ensures s[..i + 1] == s[..i] + [s[i]]
    ensures s[..|s|] == s
  {
  }

  method RenderNth(groups: seq<seq<Glyph>>, i: nat, detect: bool) returns (md: string)
    requires i < |groups|
    ensures md == Texts(groups, detect)[i]
  {
    md := RenderGroup(groups[i], detect);
  }

  method RenderBlocks(groups: seq<seq<Glyph>>, detect: bool) returns (blocks: seq<string>)
    ensures blocks == Blocks(groups, detect)
  {
    blocks := [];
    for i := 0 to |groups|
      invariant blocks == NonEmpty(Texts(groups, detect)[..i])
    {
      var md := RenderNth(groups, i, detect);
      blocks := AppendText(blocks, md, Texts(groups, detect)[..i]);
      Prefixes(Texts(groups, detect), i);
    }
    if groups != [] {
      Prefixes(Texts(groups, detect), 0);
    }
  }

  /** The full-width blocks of a page with several columns, if there are any; a
      raised error counts as none. */
  function FoundBoxes(chars: seq<Glyph>, width: real, settings: Settings): Option<seq<Box>> {
    match ColumnCount(chars, width)
    case None => None
    case Some(n) =>
      if n < 2 then None
      else
        var boxes := FullWidthBlocks(chars, width, n, settings.classify);
        if boxes == Some([]) then None else boxes
  }

  /** The reading groups around the blocks, if they give any text. */
  function GroupsAround(chars: seq<Glyph>, width: real, boxes: seq<Box>, detect: bool): Option<seq<seq<Glyph>>> {
    match ReadingGroups(chars, width, boxes)
    case None => None
    case Some(groups) => if Blocks(groups, detect) == [] then None else Some(groups)
  }

  /** The groups of the histogram ordering, if that path gives any text; a
      raised error falls through to the gutter split. */
  function HistogramGroups(chars: seq<Glyph>, width: real, settings: Settings): Option<seq<seq<Glyph>>> {
    match FoundBoxes(chars, width, settings)
    case None => None
    case Some(boxes) => GroupsAround(chars, width, boxes, settings.detect)
  }

  /** The groups a page is read in. */
  function PageGroups(chars: seq<Glyph>, scale: real, width: real, settings: Settings)
    : seq<seq<Glyph>>
  {
    match HistogramGroups(chars, width, settings)
    case Some(groups) => groups
    case None => ReadingColumns(chars, scale, width)
  }

  function PageMarkdown(chars: seq<Glyph>, scale: real, width: real, settings: Settings): string {
    Join(Blocks(PageGroups(chars, scale, width, settings), settings.detect), "\n")
  }

  /** The texts of the histogram ordering; none if it does not apply. */
  function HistogramBlocks(chars: seq<Glyph>, width: real, settings: Settings): seq<string> {
    match HistogramGroups(chars, width, settings)
    case None => []
    case Some(groups) => Blocks(groups, settings.detect)
  }

  method FindBoxes(chars: seq<Glyph>, width: real, settings: Settings) returns (boxes: Option<seq<Box>>)
    ensures boxes == FoundBoxes(chars, width, settings)
  {
    var n := DetectColumnCount(chars, width);
    if n.None? || n.value < 2 {
      return None;
    }
    boxes := DetectFullWidthBlocks(chars, width, n.value, settings.classify);
    if boxes == Some([]) {
      return None;
    }
  }

  method RenderAround(chars: seq<Glyph>, width: real, boxes: seq<Box>, detect: bool) returns (blocks: seq<string>)
    ensures blocks ==
      match GroupsAround(chars, width, boxes, detect)
      case None => []
      case Some(groups) => Blocks(groups, detect)
  {
    var groups := ReconstructReadingOrder(chars, width, boxes);
    if groups.None? {
      return [];
    }
    blocks := RenderBlocks(groups.value, detect);
  }

  method TryHistogram(chars: seq<Glyph>, width: real, settings: Settings) returns (blocks: seq<string>)
    ensures blocks == HistogramBlocks(chars, width, settings)
  {
    var boxes := FindBoxes(chars, width, settings);
    if boxes.None? {
      return [];
    }
    blocks := RenderAround(chars, width, boxes.value, settings.detect);
  }

  lemma HistogramFirst(chars: seq<Glyph>, scale: real, width: real, settings: Settings)
    ensures Blocks(PageGroups(chars, scale, width, settings), settings.detect) ==
      var blocks := HistogramBlocks(chars, width, settings);
      if blocks != [] then blocks else Blocks(ReadingColumns(chars, scale, width), settings.detect)
  {
  }

  /** The whole page: full-width blocks first if the histogram finds columns, the
      gutter split otherwise or when that path fails or gives no text. */
  method CharsToLayoutMarkdown(chars: seq<Glyph>, scale: real, width: real, settings: Settings)
    returns (md: string)
    ensures md == PageMarkdown(chars, scale, width, settings)
  {
    HistogramFirst(chars, scale, width, settings);
    var blocks := TryHistogram(chars, width, settings);
    if blocks == [] {
      blocks := RenderBlocks(ReadingColumns(chars, scale, width), settings.detect);
    }
    md := Join(blocks, "\n");
  }

  /** All glyphs in reading order: group by group, line by line, by x. */
  function PageOrder(groups: seq<seq<Glyph>>): seq<Glyph> {
    if groups == [] then [] else GroupOrder(groups[0]) + PageOrder(groups[1..])
  }

  lemma {:induction false} PageOrderPermutes(groups: seq<seq<Glyph>>)
    ensures multiset(PageOrder(groups)) == multiset(Flatten(groups))
  {
    if groups != [] {
      GroupOrderPermutes(groups[0]);
      PageOrderPermutes(groups[1..]);
    }
  }

  lemma JoinStepInk(block: string, rest: seq<string>)
    ensures Ink(Join([block] + rest, "\n")) == Ink(block) + Ink(Join(rest, "\n"))
  {
    assert ([block] + rest)[1..] == rest;
    if rest == [] {
      assert Ink(block) + [] == Ink(block);
    } else {
      InkGlue(block, "\n", Join(rest, "\n"));
    }
  }

  /** The texts of groups joined line by line: the marks and pieces of one group
      after the other. */
  lemma {:induction false} JoinedInk(texts: seq<string>, levels: seq<seq<nat>>, pieces: seq<seq<string>>)
    requires |texts| == |levels| == |pieces|
    requires forall i | 0 <= i < |texts| :: |levels[i]| == |pieces[i]| && Ink(texts[i]) == Marked(levels[i], pieces[i])
    ensures |Flatten(levels)| == |Flatten(pieces)|
    ensures Ink(Join(NonEmpty(texts), "\n")) == Marked(Flatten(levels), Flatten(pieces))
  {
    if texts != [] {
      JoinedInk(texts[1..], levels[1..], pieces[1..]);
      MarkedAppend(levels[0], pieces[0], Flatten(levels[1..]), Flatten(pieces[1..]));
      var rest := Ink(Join(NonEmpty(texts[1..]), "\n"));
      if texts[0] == [] {
        assert Ink(texts[0]) + rest == rest;
      } else {
        JoinStepInk(texts[0], NonEmpty(texts[1..]));
      }
    }
  }

  lemma {:induction false} FlattenConcat(pieces: seq<seq<string>>, bodies: seq<string>)
    requires |pieces| == |bodies| && forall i | 0 <= i < |pieces| :: Concat(pieces[i]) == bodies[i]
    ensures Concat(Flatten(pieces)) == Concat(bodies)
  {
    if pieces != [] {
      FlattenConcat(pieces[1..], bodies[1..]);
      ConcatAppend(pieces[0], Flatten(pieces[1..]));
    }
  }

  /** How many headings the groups may have together. */
  function HeadingLimits(pieces: seq<seq<string>>): int {
    if pieces == [] then 0 else HeadingLimit(|pieces[0]|) + HeadingLimits(pieces[1..])
  }

  lemma {:induction false} HeadingsAppend(a: seq<nat>, b: seq<nat>)
    ensures CountHeadings(a + b) == CountHeadings(a) + CountHeadings(b)
  {
    if a == [] {
      assert a + b == b;
    } else {
      HeadingsAppend(a[1..], b);
      assert (a + b)[1..] == a[1..] + b;
    }
  }

  lemma {:induction false} HeadingsWithinLimits(levels: seq<seq<nat>>, pieces: seq<seq<string>>)
    requires |levels| == |pieces|
    requires forall i | 0 <= i < |levels| :: CountHeadings(levels[i]) <= HeadingLimit(|pieces[i]|)
    ensures CountHeadings(Flatten(levels)) <= HeadingLimits(pieces)
  {
    if levels != [] {
      HeadingsWithinLimits(levels[1..], pieces[1..]);
      HeadingsAppend(levels[0], Flatten(levels[1..]));
    }
  }

  /** The ink of a group in reading order. */
  function Body(group: seq<Glyph>): string { GlyphInk(GroupOrder(group)) }

  lemma ConcatCons(body: string, bodies: seq<string>)
    ensures Concat([body] + bodies) == body + Concat(bodies)
  {
    assert ([body] + bodies)[1..] == bodies;
  }

  lemma {:induction false} BodiesInOrder(groups: seq<seq<Glyph>>)
    ensures Concat(Each(Body, groups)) == GlyphInk(PageOrder(groups))
  {
    if groups != [] {
      BodiesInOrder(groups[1..]);
      EachCons(Body, groups);
      ConcatCons(Body(groups[0]), Each(Body, groups[1..]));
      GlyphInkAppend(GroupOrder(groups[0]), PageOrder(groups[1..]));
    }
  }

  function LevelLists(groups: seq<seq<Glyph>>, detect: bool): (r: seq<seq<nat>>)
    ensures |r| == |groups|
  {
    seq(|groups|, i requires 0 <= i < |groups| => GroupLevels(groups[i], detect))
  }

  function PieceLists(groups: seq<seq<Glyph>>): (r: seq<seq<string>>)
    ensures |r| == |groups|
  {
    seq(|groups|, i requires 0 <= i < |groups| => GroupPieces(groups[i]))
  }

  /** The heading levels of all text lines of the page, group after group. */
  function PageLevels(groups: seq<seq<Glyph>>, detect: bool): seq<nat> { Flatten(LevelLists(groups, detect)) }

  /** The ink of all text lines of the page, group after group. */
  function PagePieces(groups: seq<seq<Glyph>>): seq<string> { Flatten(PieceLists(groups)) }

  /** The text carries the ink of all groups in reading order, one piece to a text
      line, and beside it only the marks of the lines' heading levels, each right
      before the ink of its line. */
  ghost predicate AddsOnlyHeadings(md: string, groups: seq<seq<Glyph>>, detect: bool) {
    var levels, pieces := PageLevels(groups, detect), PagePieces(groups);
    && |levels| == |pieces|
    && Ink(md) == Marked(levels, pieces)
    && Concat(pieces) == GlyphInk(PageOrder(groups))
    && (forall i | 0 <= i < |pieces| :: pieces[i] != [] && levels[i] <= 3)
    && CountHeadings(levels) <= HeadingLimits(PieceLists(groups))
  }

  lemma {:induction false} FlattenedLines(levels: seq<seq<nat>>, pieces: seq<seq<string>>)
    requires |levels| == |pieces|
    requires forall i | 0 <= i < |levels| :: GoodLines(levels[i], pieces[i])
    ensures GoodLines(Flatten(levels), Flatten(pieces))
  {
    if levels != [] {
      FlattenedLines(levels[1..], pieces[1..]);
      var l, p := Flatten(levels[1..]), Flatten(pieces[1..]);
      forall i | 0 <= i < |levels[0] + l| ensures (pieces[0] + p)[i] != [] && (levels[0] + l)[i] <= 3 {
        var n := |levels[0]|;
        assert i >= n ==> (pieces[0] + p)[i] == p[i - n] && (levels[0] + l)[i] == l[i - n];
      }
    }
  }

  ghost predicate GoodLines(levels: seq<nat>, pieces: seq<string>) {
    |levels| == |pieces| && forall i | 0 <= i < |pieces| :: pieces[i] != [] && levels[i] <= 3
  }

  ghost predicate GoodGroup(text: string, levels: seq<nat>, pieces: seq<string>, body: string) {
    && GoodLines(levels, pieces) && Ink(text) == Marked(levels, pieces)
    && Concat(pieces) == body && CountHeadings(levels) <= HeadingLimit(|pieces|)
  }

  lemma GroupIsGood(group: seq<Glyph>, detect: bool)
    ensures GoodGroup(GroupMarkdown(group, detect), GroupLevels(group, detect), GroupPieces(group), Body(group))
  {
    GroupInk(group, detect);
  }

  /** The blocks of a list of groups keep all ink of all groups, in reading order,
      and add nothing but the marks of their headings. */
  lemma BlocksInk(groups: seq<seq<Glyph>>, detect: bool)
    ensures AddsOnlyHeadings(Join(Blocks(groups, detect), "\n"), groups, detect)
  {
    var texts, levels, pieces := Texts(groups, detect), LevelLists(groups, detect), PieceLists(groups);
    forall i | 0 <= i < |groups| ensures GoodGroup(texts[i], levels[i], pieces[i], Body(groups[i])) {
      GroupIsGood(groups[i], detect);
    }
    JoinedInk(texts, levels, pieces);
    FlattenConcat(pieces, Each(Body, groups));
    BodiesInOrder(groups);
    FlattenedLines(levels, pieces);
    HeadingsWithinLimits(levels, pieces);
  }

  // ------------------------------------------------------ columns left to right

  /** Every glyph of an earlier column ends left of every glyph of a later one. */
  ghost predicate LeftToRightColumns(cols: seq<seq<Glyph>>) {
    forall i, j | 0 <= i < j < |cols| :: AllLeft(cols[i], cols[j])
  }

  ghost predicate AllLeft(first: seq<Glyph>, second: seq<Glyph>) {
    forall a, b | a in first && b in second :: a.x1 < b.x0
  }

  /** The columns of the recursive split lie from left to right. */
  lemma SplitLeftToRight(chars: seq<Glyph>, scale: real, width: real)
    requires WellFormed(chars)
    ensures LeftToRightColumns(SplitColumns(chars, scale, width, 0))
  {
    var minGap := MinGutter(scale, width);
    var gaps := Gaps(chars, minGap);
    var kept := KeptGaps(gaps, 11);
    SplitIsSweep(chars, scale, width, 0, gaps);
    GapsExact(chars, minGap);
    KeptAreOrdered(gaps, 11);
    KeptAreGaps(gaps, 11);
    var cols := SweepColumns(chars, kept);
    forall i, j | 0 <= i < j < |cols| ensures AllLeft(cols[i], cols[j]) {
      assert kept[i].left < kept[i].right;
      assert i < j - 1 ==> kept[i].right <= kept[j - 1].left < kept[j - 1].right;
      forall a: Glyph, b: Glyph | a in cols[i] && b in cols[j] ensures a.x1 < b.x0 {
        ColumnBetweenGaps(chars, minGap, kept, i, a);
        ColumnBetweenGaps(chars, minGap, kept, j, b);
      }
    }
  }

  ghost predicate LeftOfColumns(col: seq<Glyph>, cols: seq<seq<Glyph>>) {
    forall j | 0 <= j < |cols| :: AllLeft(col, cols[j])
  }

  lemma ColumnsCons(col: seq<Glyph>, rest: seq<seq<Glyph>>)
    ensures LeftToRightColumns([col] + rest) <==> LeftToRightColumns(rest) && LeftOfColumns(col, rest)
  {
    var cols := [col] + rest;
    assert forall j | 0 <= j < |rest| :: cols[j + 1] == rest[j];
    if LeftToRightColumns(cols) {
      forall i, j | 0 <= i < j < |rest| ensures AllLeft(rest[i], rest[j]) {
        assert AllLeft(cols[i + 1], cols[j + 1]);
      }
      forall j | 0 <= j < |rest| ensures AllLeft(col, rest[j]) {
        assert AllLeft(cols[0], cols[j + 1]);
      }
    }
    if LeftToRightColumns(rest) && LeftOfColumns(col, rest) {
      forall i, j | 0 <= i < j < |cols| ensures AllLeft(cols[i], cols[j]) {
        assert cols[j] == rest[j - 1];
        assert i > 0 ==> cols[i] == rest[i - 1];
      }
    }
  }

  lemma LeftOfSome(col: seq<Glyph>, cols: seq<seq<Glyph>>, kept: seq<seq<Glyph>>)
    requires LeftOfColumns(col, cols) && forall c | c in kept :: c in cols
    ensures LeftOfColumns(col, kept)
  {
    forall j | 0 <= j < |kept| ensures AllLeft(col, kept[j]) {
      assert kept[j] in kept;
      var k :| 0 <= k < |cols| && cols[k] == kept[j];
    }
  }

  lemma {:induction false} KeptLeftToRight(cols: seq<seq<Glyph>>, drop: seq<Glyph> -> bool)
    requires LeftToRightColumns(cols)
    ensures LeftToRightColumns(Without(cols, drop))
  {
    if cols != [] {
      var kept := Without(cols[1..], drop);
      assert cols == [cols[0]] + cols[1..];
      ColumnsCons(cols[0], cols[1..]);
      KeptLeftToRight(cols[1..], drop);
      LeftOfSome(cols[0], cols[1..], kept);
      ColumnsCons(cols[0], kept);
    }
  }

  lemma ChosenLeftToRight(cols: seq<seq<Glyph>>, drop: seq<Glyph> -> bool)
    requires LeftToRightColumns(cols)
    ensures LeftToRightColumns(Chosen(cols, drop))
  {
    KeptLeftToRight(cols, drop);
  }

  /** The columns that are read lie from left to right. */
  lemma ReadLeftToRight(chars: seq<Glyph>, scale: real, width: real)
    requires WellFormed(chars)
    ensures LeftToRightColumns(ReadingColumns(chars, scale, width))
  {
    SplitLeftToRight(chars, scale, width);
    ChosenLeftToRight(SplitColumns(chars, scale, width, 0), Artifact(width));
  }

  // --------------------------------------------------------------- conservation

  /** Conservation on the gutter path: the text is the ink of the kept columns,
      every glyph once, columns from left to right, lines from the top, glyphs
      by x, with nothing added but heading marks at line starts. */
  lemma GutterPathConserves(chars: seq<Glyph>, scale: real, width: real, settings: Settings)
    requires HistogramGroups(chars, width, settings).None?
    ensures var cols := ReadingColumns(chars, scale, width);
      && AddsOnlyHeadings(PageMarkdown(chars, scale, width, settings), cols, settings.detect)
      && multiset(PageOrder(cols)) == multiset(Flatten(cols))
      && (WellFormed(chars) ==> LeftToRightColumns(cols))
      && (cols == SplitColumns(chars, scale, width, 0) ==> multiset(PageOrder(cols)) == multiset(chars))
  {
    var cols := ReadingColumns(chars, scale, width);
    BlocksInk(cols, settings.detect);
    PageOrderPermutes(cols);
    if WellFormed(chars) {
      ReadLeftToRight(chars, scale, width);
    }
    SplitConserves(chars, scale, width, 0);
  }

  lemma HistogramIsReading(chars: seq<Glyph>, width: real, settings: Settings)
    requires HistogramGroups(chars, width, settings).Some?
    ensures ColumnCount(chars, width).Some? && ColumnCount(chars, width).value >= 2 && width > 0.0
    ensures var boxes := FullWidthBlocks(chars, width, ColumnCount(chars, width).value, settings.classify);
      boxes.Some? && HistogramGroups(chars, width, settings) == ReadingGroups(chars, width, boxes.value)
  {
  }

  lemma HistogramMarkdown(
    chars: seq<Glyph>, scale: real, width: real, settings: Settings, groups: seq<seq<Glyph>>)
    requires HistogramGroups(chars, width, settings) == Some(groups)
    ensures PageMarkdown(chars, scale, width, settings) == Join(Blocks(groups, settings.detect), "\n")
  {
  }

  lemma GroupsKeep(chars: seq<Glyph>, width: real, boxes: seq<Box>, groups: seq<seq<Glyph>>, g: Glyph)
    requires Distinct(chars) && g in chars && ReadingGroups(chars, width, boxes) == Some(groups)
    requires ColumnCount(chars, width).value >= 2
    ensures multiset(PageOrder(groups))[g] >= 1
    ensures multiset(PageOrder(groups))[g] == 1 <==> BoxesHolding(g, boxes) <= 1
  {
    PageOrderPermutes(groups);
    ReadingGroupsCount(chars, width, boxes, g);
  }

  /** Conservation on the histogram path: no glyph is lost, and one whose centre
      lies in at most one full-width block is written exactly once. */
  lemma HistogramPathConserves(chars: seq<Glyph>, scale: real, width: real, settings: Settings, g: Glyph)
    requires Distinct(chars) && g in chars && HistogramGroups(chars, width, settings).Some?
    ensures var groups := HistogramGroups(chars, width, settings).value;
      var boxes := FullWidthBlocks(chars, width, ColumnCount(chars, width).value, settings.classify).value;
      && AddsOnlyHeadings(PageMarkdown(chars, scale, width, settings), groups, settings.detect)
      && multiset(PageOrder(groups))[g] >= 1
      && (multiset(PageOrder(groups))[g] == 1 <==> BoxesHolding(g, boxes) <= 1)
  {
    var groups := HistogramGroups(chars, width, settings).value;
    var boxes := FullWidthBlocks(chars, width, ColumnCount(chars, width).value, settings.classify).value;
    HistogramIsReading(chars, width, settings);
    BlocksInk(groups, settings.detect);
    HistogramMarkdown(chars, scale, width, settings, groups);
    GroupsKeep(chars, width, boxes, groups, g);
  }
}
