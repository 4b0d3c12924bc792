/** Multi-column pages with full-width blocks: distributing glyphs over columns
    and rebuilding the reading order. */
module ReadingOrder {
  import opened Glyphs
  import opened Histogram
  import opened LineGrouping
  import opened Ordering
  import opened Text
  import opened TextLines
  import opened Wrappers

  // ------------------------------------------------------------ the columns

  /** The loop over the boundaries: stops at the first one right of the centre. */
  function ColumnOf(centre: real, boundaries: seq<real>): (k: nat)
    ensures k <= |boundaries|
    ensures forall i | 0 <= i < k :: boundaries[i] <= centre
    ensures k < |boundaries| ==> centre < boundaries[k]
  {
    if boundaries == [] || centre < boundaries[0] then 0 else 1 + ColumnOf(centre, boundaries[1..])
  }

  /** The glyphs of column k, in page order. */
  function InColumn(chars: seq<Glyph>, boundaries: seq<real>, k: nat): (col: seq<Glyph>)
    ensures forall g :: g in col <==> g in chars && ColumnOf(XMid(g), boundaries) == k
  {
    if chars == [] then []
    else
      var rest := InColumn(chars[1..], boundaries, k);
      if ColumnOf(XMid(chars[0]), boundaries) == k then [chars[0]] + rest else rest
  }

  function ColumnsAt(chars: seq<Glyph>, boundaries: seq<real>): (cols: seq<seq<Glyph>>)
    ensures |cols| == |boundaries| + 1
  {
    seq(|boundaries| + 1, k requires 0 <= k <= |boundaries| => InColumn(chars, boundaries, k))
  }

  /** Column k holds exactly the glyphs with k boundaries at or left of their
      centre and the others right of it. */
  lemma ColumnHolds(chars: seq<Glyph>, boundaries: seq<real>, k: nat, g: Glyph)
    requires Increasing(boundaries) && k <= |boundaries|
    ensures g in ColumnsAt(chars, boundaries)[k] <==>
      && g in chars
      && (forall i | 0 <= i < k :: boundaries[i] <= XMid(g))
      && (forall i | k <= i < |boundaries| :: XMid(g) < boundaries[i])
  {
    var c := ColumnOf(XMid(g), boundaries);
    if c < k {
      assert XMid(g) < boundaries[c];
    } else if k < c {
      assert boundaries[k] <= XMid(g);
    } else {
      assert forall i | k < i < |boundaries| :: boundaries[k] < boundaries[i];
    }
  }

  lemma {:induction false} InColumnNext(chars: seq<Glyph>, g: Glyph, boundaries: seq<real>, k: nat)
    ensures InColumn(chars + [g], boundaries, k)
      == InColumn(chars, boundaries, k) + if ColumnOf(XMid(g), boundaries) == k then [g] else []
  {
    if chars == [] {
      assert [] + [g] == [g] && [g][1..] == [];
    } else {
      InColumnNext(chars[1..], g, boundaries, k);
      assert (chars + [g])[1..] == chars[1..] + [g];
    }
  }

  /** The column of one glyph, found by the loop over the boundaries. */
  method FindColumn(centre: real, boundaries: seq<real>) returns (k: nat)
    ensures k == ColumnOf(centre, boundaries)
  {
    k := 0;
    for i := 0 to |boundaries|
      invariant k == i
      invariant i + ColumnOf(centre, boundaries[i..]) == ColumnOf(centre, boundaries)
    {
      assert boundaries[i..][1..] == boundaries[i + 1..];
      if centre >= boundaries[i] {
        k := i + 1;
      } else {
        break;
      }
    }
  }

  /** The number of columns to split into: the given one, or the detected one. */
  function ColumnNumber(chars: seq<Glyph>, pageWidth: real, n: Option<nat>): Option<nat> {
    if n.Some? then n else ColumnCount(chars, pageWidth)
  }

  /** Splits a page at the boundaries of n columns, detected if n is absent;
      None when the histogram raises. */
  function Columns(chars: seq<Glyph>, pageWidth: real, n: Option<nat>): Option<seq<seq<Glyph>>>
    requires n.Some? ==> pageWidth > 0.0
  {
    match ColumnNumber(chars, pageWidth, n)
    case None => None
    case Some(k) =>
      if k <= 1 then Some([chars])
      else
        match ColumnBoundaries(chars, pageWidth, k)
        case None => None
        case Some(boundaries) => Some(ColumnsAt(chars, boundaries))
  }

  method SplitIntoColumns(chars: seq<Glyph>, pageWidth: real, n: Option<nat>) returns (columns: Option<seq<seq<Glyph>>>)
    requires n.Some? ==> pageWidth > 0.0
    ensures columns == Columns(chars, pageWidth, n)
  {
    var number := n;
    if number.None? {
      number := DetectColumnCount(chars, pageWidth);
      if number.None? {
        return None;
      }
    }
    if number.value <= 1 {
      return Some([chars]);
    }
    var found := FindColumnBoundaries(chars, pageWidth, number.value);
    if found.None? {
      return None;
    }
    var cols := Distribute(chars, found.value);
    return Some(cols);
  }

  method Distribute(chars: seq<Glyph>, boundaries: seq<real>) returns (columns: seq<seq<Glyph>>)
    ensures columns == ColumnsAt(chars, boundaries)
  {
    columns := seq(|boundaries| + 1, _ => []);
    for i := 0 to |chars|
      invariant |columns| == |boundaries| + 1
      invariant forall k | 0 <= k <= |boundaries| :: columns[k] == InColumn(chars[..i], boundaries, k)
    {
      assert chars[..i + 1] == chars[..i] + [chars[i]];
      forall k | 0 <= k <= |boundaries|
        ensures InColumn(chars[..i + 1], boundaries, k)
          == InColumn(chars[..i], boundaries, k) + if ColumnOf(XMid(chars[i]), boundaries) == k then [chars[i]] else []
      {
        InColumnNext(chars[..i], chars[i], boundaries, k);
      }
      var k := FindColumn(XMid(chars[i]), boundaries);
      columns := columns[k := columns[k] + [chars[i]]];
    }
    assert chars[..|chars|] == chars;
  }

  // ------------------------------------------------------ full-width blocks

  datatype Box = Box(x0: real, y0: real, x1: real, y1: real, kind: string)

  function FromTopEdge(b: Box): real { -b.y1 }

  predicate InBox(g: Glyph, b: Box) {
    b.x0 <= XMid(g) <= b.x1 && b.y0 <= YMid(g) <= b.y1
  }

  /** The glyphs whose centre lies in the box. */
  function Inside(chars: seq<Glyph>, b: Box): (r: seq<Glyph>)
    ensures forall g :: g in r <==> g in chars && InBox(g, b)
  {
    if chars == [] then []
    else if InBox(chars[0], b) then [chars[0]] + Inside(chars[1..], b)
    else Inside(chars[1..], b)
  }

  function BoxGroups(chars: seq<Glyph>, boxes: seq<Box>): seq<seq<Glyph>> {
    if boxes == [] then []
    else if Inside(chars, boxes[0]) == [] then BoxGroups(chars, boxes[1..])
    else [Inside(chars, boxes[0])] + BoxGroups(chars, boxes[1..])
  }

  function Ids(groups: seq<seq<Glyph>>): set<nat> { set g | g in Flatten(groups) :: g.id }

  /** The glyphs that no block has taken. */
  function Remaining(col: seq<Glyph>, consumed: set<nat>): (r: seq<Glyph>)
    ensures forall g :: g in r <==> g in col && g.id !in consumed
  {
    if col == [] then []
    else if col[0].id !in consumed then [col[0]] + Remaining(col[1..], consumed)
    else Remaining(col[1..], consumed)
  }

  function ColumnGroups(columns: seq<seq<Glyph>>, consumed: set<nat>): seq<seq<Glyph>> {
    if columns == [] then []
    else if Remaining(columns[0], consumed) == [] then ColumnGroups(columns[1..], consumed)
    else [Remaining(columns[0], consumed)] + ColumnGroups(columns[1..], consumed)
  }

  /** Full-width blocks from the top, then what is left of each column; None
      when the histogram raises. */
  function ReadingGroups(chars: seq<Glyph>, pageWidth: real, boxes: seq<Box>): Option<seq<seq<Glyph>>> {
    match ColumnCount(chars, pageWidth)
    case None => None
    case Some(n) =>
      if n <= 1 then Some([chars])
      else
        match Columns(chars, pageWidth, Some(n))
        case None => None
        case Some(columns) =>
          var blocks := BoxGroups(chars, SortBy(boxes, FromTopEdge));
          Some(blocks + ColumnGroups(columns, Ids(blocks)))
  }

  method ReconstructReadingOrder(chars: seq<Glyph>, pageWidth: real, boxes: seq<Box>)
    returns (result: Option<seq<seq<Glyph>>>)
    ensures result == ReadingGroups(chars, pageWidth, boxes)
  {
    var count := DetectColumnCount(chars, pageWidth);
    if count.None? {
      return None;
    }
    if count.value <= 1 {
      return Some([chars]);
    }
    var columns := SplitIntoColumns(chars, pageWidth, count);
    if columns.None? {
      return None;
    }
    var sorted := SortBy(boxes, FromTopEdge);
    var groups := LiftBlocks(chars, sorted);
    var consumed := Consume(groups);
    var rest := KeepRemaining(columns.value, consumed);
    return Some(groups + rest);
  }

  method LiftBlocks(chars: seq<Glyph>, boxes: seq<Box>) returns (result: seq<seq<Glyph>>)
    ensures result == BoxGroups(chars, boxes)
  {
    result := [];
    for i := 0 to |boxes|
      invariant result + BoxGroups(chars, boxes[i..]) == BoxGroups(chars, boxes)
    {
      assert boxes[i..][0] == boxes[i] && boxes[i..][1..] == boxes[i + 1..];
      var inside := Inside(chars, boxes[i]);
      if inside != [] {
        result := result + [inside];
      }
    }
  }

  method Consume(groups: seq<seq<Glyph>>) returns (consumed: set<nat>)
    ensures consumed == Ids(groups)
  {
    consumed := {};
    for i := 0 to |groups|
      invariant consumed == Ids(groups[..i])
    {
      assert groups[..i + 1] == groups[..i] + [groups[i]];
      FlattenAppend(groups[..i], [groups[i]]);
      FlattenOne(groups[i]);
      consumed := consumed + set g | g in groups[i] :: g.id;
    }
    assert groups[..|groups|] == groups;
  }

  method KeepRemaining(columns: seq<seq<Glyph>>, consumed: set<nat>) returns (result: seq<seq<Glyph>>)
    ensures result == ColumnGroups(columns, consumed)
  {
    result := [];
    for i := 0 to |columns|
      invariant result + ColumnGroups(columns[i..], consumed) == ColumnGroups(columns, consumed)
    {
      assert columns[i..][0] == columns[i] && columns[i..][1..] == columns[i + 1..];
      var remaining := Remaining(columns[i], consumed);
      if remaining != [] {
        result := result + [remaining];
      }
    }
  }

  // ----------------------------------------------- detecting full-width blocks

  function LowestX(group: seq<Glyph>): real
    requires group != []
  {
    if |group| == 1 then group[0].x0 else MinReal(group[0].x0, LowestX(group[1..]))
  }

  function HighestX(group: seq<Glyph>): real
    requires group != []
  {
    if |group| == 1 then group[0].x1 else MaxReal(group[0].x1, HighestX(group[1..]))
  }

  function LowestY(group: seq<Glyph>): real
    requires group != []
  {
    if |group| == 1 then group[0].y0 else MinReal(group[0].y0, LowestY(group[1..]))
  }

  function HighestY(group: seq<Glyph>): real
    requires group != []
  {
    if |group| == 1 then group[0].y1 else MaxReal(group[0].y1, HighestY(group[1..]))
  }

  function RawText(line: seq<Glyph>): string {
    if line == [] then [] else line[0].ch + RawText(line[1..])
  }

  /** The blocks of the lines that cross every boundary; classify stands for the
      keyword heuristics that name a block. */
  function CrossingLines(groups: seq<seq<Glyph>>, boundaries: seq<real>, classify: (string, real) -> string): seq<Box> {
    if groups == [] then []
    else
      var rest := CrossingLines(groups[1..], boundaries, classify);
      if groups[0] == [] then rest
      else
        var x0, x1, y0 := LowestX(groups[0]), HighestX(groups[0]), LowestY(groups[0]);
        if forall b | b in boundaries :: x0 < b < x1 then
          [Box(x0, y0, x1, HighestY(groups[0]), classify(RawText(SortBy(groups[0], LeftEdge)), y0))] + rest
        else rest
  }

  /** Two blocks of one kind joined: the larger of the lower edges and the
      smaller of the upper edges. */
  function MergeBoxes(last: Box, block: Box): Box {
    Box(MinReal(last.x0, block.x0), MaxReal(last.y0, block.y0),
        MaxReal(last.x1, block.x1), MinReal(last.y1, block.y1), last.kind)
  }

  predicate Adjacent(last: Box, block: Box) {
    block.kind == last.kind && AbsReal(block.y1 - last.y0) < 20.0
  }

  function MergeBlocksFrom(merged: seq<Box>, rest: seq<Box>): seq<Box>
    requires merged != []
    decreases |rest|
  {
    if rest == [] then merged
    else
      var last := merged[|merged| - 1];
      if Adjacent(last, rest[0]) then MergeBlocksFrom(merged[|merged| - 1 := MergeBoxes(last, rest[0])], rest[1..])
      else MergeBlocksFrom(merged + [rest[0]], rest[1..])
  }

  function MergedBlocks(blocks: seq<Box>): seq<Box> {
    var sorted := SortBy(blocks, FromTopEdge);
    if sorted == [] then [] else MergeBlocksFrom([sorted[0]], sorted[1..])
  }

  method MergeAdjacentBlocks(blocks: seq<Box>) returns (merged: seq<Box>)
    ensures merged == MergedBlocks(blocks)
  {
    if blocks == [] {
      return [];
    }
    var sorted := SortBy(blocks, FromTopEdge);
    merged := [sorted[0]];
    for i := 1 to |sorted|
      invariant merged != []
      invariant MergeBlocksFrom(merged, sorted[i..]) == MergedBlocks(blocks)
    {
      assert sorted[i..][0] == sorted[i] && sorted[i..][1..] == sorted[i + 1..];
      var last := merged[|merged| - 1];
      if Adjacent(last, sorted[i]) {
        merged := merged[|merged| - 1 := MergeBoxes(last, sorted[i])];
      } else {
        merged := merged + [sorted[i]];
      }
    }
  }

  /** The blocks of a run joined one by one. */
  function Joined(run: seq<Box>): Box
    requires run != []
  {
    var last := |run| - 1;
    if last == 0 then run[0] else MergeBoxes(Joined(run[..last]), run[last])
  }

  /** The runs of blocks that merging joins, from the run under construction on. */
  function RunsFrom(run: seq<Box>, rest: seq<Box>): (runs: seq<seq<Box>>)
    requires run != []
    ensures forall i | 0 <= i < |runs| :: runs[i] != []
    decreases |rest|
  {
    if rest == [] then [run]
    else if Adjacent(Joined(run), rest[0]) then RunsFrom(run + [rest[0]], rest[1..])
    else [run] + RunsFrom([rest[0]], rest[1..])
  }

  function BlockRuns(blocks: seq<Box>): (runs: seq<seq<Box>>)
    ensures forall i | 0 <= i < |runs| :: runs[i] != []
  {
    var sorted := SortBy(blocks, FromTopEdge);
    if sorted == [] then [] else RunsFrom([sorted[0]], sorted[1..])
  }

  function JoinedRuns(runs: seq<seq<Box>>): (boxes: seq<Box>)
    requires forall i | 0 <= i < |runs| :: runs[i] != []
    ensures |boxes| == |runs|
  {
    seq(|runs|, i requires 0 <= i < |runs| => Joined(runs[i]))
  }

  lemma JoinedNext(run: seq<Box>, b: Box)
    requires run != []
    ensures Joined(run + [b]) == MergeBoxes(Joined(run), b)
  {
    assert (run + [b])[..|run|] == run;
  }

  lemma JoinedRunsCons(run: seq<Box>, later: seq<seq<Box>>)
    requires run != [] && forall i | 0 <= i < |later| :: later[i] != []
    ensures JoinedRuns([run] + later) == [Joined(run)] + JoinedRuns(later)
  {
  }

  lemma ReplaceLast(done: seq<Box>, last: Box, b: Box)
    ensures (done + [last])[|done| := b] == done + [b]
  {
  }

  lemma {:induction false} MergingRuns(done: seq<Box>, run: seq<Box>, rest: seq<Box>)
    requires run != []
    ensures MergeBlocksFrom(done + [Joined(run)], rest) == done + JoinedRuns(RunsFrom(run, rest))
    ensures Flatten(RunsFrom(run, rest)) == run + rest
    decreases |rest|
  {
    var merged := done + [Joined(run)];
    if rest == [] {
      FlattenOne(run);
      assert JoinedRuns([run]) == [Joined(run)];
    } else if Adjacent(Joined(run), rest[0]) {
      JoinedNext(run, rest[0]);
      MergingRuns(done, run + [rest[0]], rest[1..]);
      ReplaceLast(done, Joined(run), Joined(run + [rest[0]]));
      assert run + [rest[0]] + rest[1..] == run + rest;
    } else {
      var later := RunsFrom([rest[0]], rest[1..]);
      MergingRuns(merged, [rest[0]], rest[1..]);
      FlattenCons(run, later);
      assert [rest[0]] + rest[1..] == rest;
      JoinedRunsCons(run, later);
      Associate(done, [Joined(run)], JoinedRuns(later));
    }
  }

  /** Every part of the run holds the centre vertically, and the range between the
      left-most and the right-most edge holds it. */
  ghost predicate RunHolds(run: seq<Box>, g: Glyph) {
    && (forall b | b in run :: b.y0 <= YMid(g) <= b.y1)
    && (exists b | b in run :: b.x0 <= XMid(g))
    && (exists b | b in run :: XMid(g) <= b.x1)
  }

  lemma JoinedHolds(run: seq<Box>, g: Glyph)
    requires run != []
    ensures InBox(g, Joined(run)) <==> RunHolds(run, g)
  {
    JoinedEdges(run, g);
  }

  /** The edges of a joined box are those of its parts. */
  lemma {:induction false} JoinedEdges(run: seq<Box>, g: Glyph)
    requires run != []
    ensures Joined(run).x0 <= XMid(g) <==> exists b | b in run :: b.x0 <= XMid(g)
    ensures XMid(g) <= Joined(run).x1 <==> exists b | b in run :: XMid(g) <= b.x1
    ensures Joined(run).y0 <= YMid(g) <= Joined(run).y1 <==> forall b | b in run :: b.y0 <= YMid(g) <= b.y1
  {
    var last := |run| - 1;
    if last == 0 {
      assert run[0] in run;
    } else {
      JoinedEdges(run[..last], g);
      assert run == run[..last] + [run[last]];
      assert forall b :: b in run <==> b in run[..last] || b == run[last];
    }
  }

  /** Merging joins consecutive blocks in runs, and a merged box holds a centre
      exactly if every block of its run holds it vertically and their joint range
      holds it horizontally. If one block of a run lies above another, the merged
      box holds no glyph. */
  lemma MergedBoxIsIntersection(blocks: seq<Box>, k: nat, g: Glyph)
    requires k < |MergedBlocks(blocks)|
    ensures var runs := BlockRuns(blocks);
      && Flatten(runs) == SortBy(blocks, FromTopEdge) && |runs| == |MergedBlocks(blocks)|
      && (InBox(g, MergedBlocks(blocks)[k]) <==> RunHolds(runs[k], g))
      && forall a, b | a in runs[k] && b in runs[k] && b.y1 < a.y0 :: !InBox(g, MergedBlocks(blocks)[k])
  {
    var sorted, runs := SortBy(blocks, FromTopEdge), BlockRuns(blocks);
    var first := sorted[0];
    MergingRuns([], [first], sorted[1..]);
    assert [] + [Joined([first])] == [first] && [] + JoinedRuns(runs) == JoinedRuns(runs);
    assert [first] + sorted[1..] == sorted;
    JoinedHolds(runs[k], g);
  }

  /** Two lines of one block, five points apart: the merged box is turned over and
      holds no glyph at all. */
  lemma NeighboursVanish(g: Glyph)
    ensures var boxes := MergedBlocks([Box(0.0, 100.0, 90.0, 110.0, "text"), Box(0.0, 85.0, 90.0, 95.0, "text")]);
      boxes == [Box(0.0, 100.0, 90.0, 95.0, "text")] && !InBox(g, boxes[0])
  {
    var upper, lower := Box(0.0, 100.0, 90.0, 110.0, "text"), Box(0.0, 85.0, 90.0, 95.0, "text");
    assert [upper, lower][1..] == [lower] && [lower][1..] == [];
    assert SortBy([lower], FromTopEdge) == [lower];
    assert SortBy([upper, lower], FromTopEdge) == [upper, lower];
    assert Adjacent(upper, lower);
    var joined := MergeBoxes(upper, lower);
    assert MergeBlocksFrom([joined], []) == [joined];
    assert [upper][0 := joined] == [joined];
    assert MergeBlocksFrom([upper], [lower]) == MergeBlocksFrom([joined], [lower][1..]);
  }

  /** The full-width blocks of a page with n columns; None when the histogram
      raises. */
  function FullWidthBlocks(chars: seq<Glyph>, pageWidth: real, n: nat, classify: (string, real) -> string)
    : Option<seq<Box>>
    requires pageWidth > 0.0
  {
    if n <= 1 || chars == [] then Some([])
    else
      match ColumnBoundaries(chars, pageWidth, n)
      case None => None
      case Some(boundaries) =>
        if boundaries == [] || Heights(chars) == [] then Some([])
        else Some(MergedBlocks(CrossingLines(Groups(chars), boundaries, classify)))
  }

  /** The loop over the baseline groups. */
  method CollectCrossingLines(groups: seq<seq<Glyph>>, boundaries: seq<real>, classify: (string, real) -> string)
    returns (lines: seq<Box>)
    ensures lines == CrossingLines(groups, boundaries, classify)
  {
    lines := [];
    for i := 0 to |groups|
      invariant lines + CrossingLines(groups[i..], boundaries, classify) == CrossingLines(groups, boundaries, classify)
    {
      ghost var rest := groups[i..];
      assert rest[0] == groups[i] && rest[1..] == groups[i + 1..];
      if groups[i] == [] {
        continue;
      }
      var x0, x1, y0 := LowestX(groups[i]), HighestX(groups[i]), LowestY(groups[i]);
      if forall b | b in boundaries :: x0 < b < x1 {
        var box := Box(x0, y0, x1, HighestY(groups[i]), classify(RawText(SortBy(groups[i], LeftEdge)), y0));
        Associate(lines, [box], CrossingLines(groups[i + 1..], boundaries, classify));
        lines := lines + [box];
      }
    }
  }

  method DetectFullWidthBlocks(chars: seq<Glyph>, pageWidth: real, n: nat, classify: (string, real) -> string)
    returns (blocks: Option<seq<Box>>)
    requires pageWidth > 0.0
    ensures blocks == FullWidthBlocks(chars, pageWidth, n, classify)
  {
    if n <= 1 || chars == [] {
      return Some([]);
    }
    var found := FindColumnBoundaries(chars, pageWidth, n);
    if found.None? {
      return None;
    }
    if found.value == [] || Heights(chars) == [] {
      return Some([]);
    }
    var groups := GroupByBaseline(chars, Tolerance(chars));
    var lines := CollectCrossingLines(groups, found.value, classify);
    var merged := MergeAdjacentBlocks(lines);
    return Some(merged);
  }

  // ------------------------------------------------------ nothing is dropped

  function BoxesHolding(g: Glyph, boxes: seq<Box>): nat {
    if boxes == [] then 0 else (if InBox(g, boxes[0]) then 1 else 0) + BoxesHolding(g, boxes[1..])
  }

  lemma {:induction false} HoldingInsert(g: Glyph, b: Box, s: seq<Box>)
    ensures BoxesHolding(g, InsertBy(b, s, FromTopEdge)) == BoxesHolding(g, [b] + s)
  {
    assert ([b] + s)[1..] == s;
    if s == [] || FromTopEdge(b) <= FromTopEdge(s[0]) {
    } else {
      HoldingInsert(g, b, s[1..]);
      var r := InsertBy(b, s[1..], FromTopEdge);
      assert ([s[0]] + r)[1..] == r;
      assert ([b] + s[1..])[1..] == s[1..];
    }
  }

  /** Sorting the boxes does not change how many hold a glyph. */
  lemma {:induction false} HoldingSorted(g: Glyph, boxes: seq<Box>)
    ensures BoxesHolding(g, SortBy(boxes, FromTopEdge)) == BoxesHolding(g, boxes)
  {
    if boxes != [] {
      var rest := SortBy(boxes[1..], FromTopEdge);
      HoldingSorted(g, boxes[1..]);
      HoldingInsert(g, boxes[0], rest);
      assert ([boxes[0]] + rest)[1..] == rest;
    }
  }

  lemma {:induction false} InsideCount(chars: seq<Glyph>, b: Box, g: Glyph)
    ensures multiset(Inside(chars, b))[g] == if InBox(g, b) then multiset(chars)[g] else 0
  {
    if chars != [] {
      assert chars == [chars[0]] + chars[1..];
      InsideCount(chars[1..], b, g);
    }
  }

  lemma {:induction false} BoxGroupsCount(chars: seq<Glyph>, boxes: seq<Box>, g: Glyph)
    requires multiset(chars)[g] <= 1
    ensures multiset(Flatten(BoxGroups(chars, boxes)))[g] == if g in chars then BoxesHolding(g, boxes) else 0
  {
    assert g in chars <==> g in multiset(chars);
    if boxes != [] {
      BoxGroupsCount(chars, boxes[1..], g);
      InsideCount(chars, boxes[0], g);
      var inside, rest := Inside(chars, boxes[0]), BoxGroups(chars, boxes[1..]);
      if inside != [] {
        assert ([inside] + rest)[1..] == rest;
      }
    }
  }

  lemma {:induction false} RemainingCount(col: seq<Glyph>, consumed: set<nat>, g: Glyph)
    ensures multiset(Remaining(col, consumed))[g] == if g.id !in consumed then multiset(col)[g] else 0
  {
    if col != [] {
      assert col == [col[0]] + col[1..];
      RemainingCount(col[1..], consumed, g);
    }
  }

  lemma {:induction false} ColumnGroupsCount(columns: seq<seq<Glyph>>, consumed: set<nat>, g: Glyph)
    ensures multiset(Flatten(ColumnGroups(columns, consumed)))[g]
      == if g.id !in consumed then multiset(Flatten(columns))[g] else 0
  {
    if columns != [] {
      ColumnGroupsCount(columns[1..], consumed, g);
      RemainingCount(columns[0], consumed, g);
      var remaining, rest := Remaining(columns[0], consumed), ColumnGroups(columns[1..], consumed);
      if remaining != [] {
        assert ([remaining] + rest)[1..] == rest;
      }
    }
  }

  lemma {:induction false} InColumnCount(chars: seq<Glyph>, boundaries: seq<real>, k: nat, g: Glyph)
    ensures multiset(InColumn(chars, boundaries, k))[g]
      == if ColumnOf(XMid(g), boundaries) == k then multiset(chars)[g] else 0
  {
    if chars != [] {
      assert chars == [chars[0]] + chars[1..];
      InColumnCount(chars[1..], boundaries, k, g);
    }
  }

  lemma {:induction false} FirstColumnsCount(chars: seq<Glyph>, boundaries: seq<real>, k: nat, g: Glyph)
    requires k <= |boundaries| + 1
    ensures multiset(Flatten(ColumnsAt(chars, boundaries)[..k]))[g]
      == if ColumnOf(XMid(g), boundaries) < k then multiset(chars)[g] else 0
  {
    var cols := ColumnsAt(chars, boundaries);
    if k > 0 {
      FirstColumnsCount(chars, boundaries, k - 1, g);
      InColumnCount(chars, boundaries, k - 1, g);
      assert cols[..k] == cols[..k - 1] + [cols[k - 1]];
      FlattenAppend(cols[..k - 1], [cols[k - 1]]);
      FlattenOne(cols[k - 1]);
    }
  }

  /** The columns hold every glyph as often as the page does. */
  lemma ColumnsConserve(chars: seq<Glyph>, boundaries: seq<real>, g: Glyph)
    ensures multiset(Flatten(ColumnsAt(chars, boundaries)))[g] == multiset(chars)[g]
  {
    var cols := ColumnsAt(chars, boundaries);
    FirstColumnsCount(chars, boundaries, |cols|, g);
    assert cols[..|cols|] == cols;
  }

  lemma {:induction false} DistinctOnce(chars: seq<Glyph>, g: Glyph)
    requires Distinct(chars)
    ensures multiset(chars)[g] == if g in chars then 1 else 0
  {
    if chars != [] {
      assert chars == [chars[0]] + chars[1..];
      DistinctOnce(chars[1..], g);
      assert forall i | 1 <= i < |chars| :: chars[i] == chars[1..][i - 1] && chars[0].id != chars[i].id;
    }
  }

  /** A glyph is consumed exactly when some box holds it. */
  lemma ConsumedIffHeld(chars: seq<Glyph>, boxes: seq<Box>, g: Glyph)
    requires Distinct(chars) && g in chars
    ensures g.id in Ids(BoxGroups(chars, boxes)) <==> BoxesHolding(g, boxes) > 0
  {
    var groups := BoxGroups(chars, boxes);
    DistinctOnce(chars, g);
    BoxGroupsCount(chars, boxes, g);
    if g.id in Ids(groups) {
      var other: Glyph :| other in Flatten(groups) && other.id == g.id;
      DistinctOnce(chars, other);
      BoxGroupsCount(chars, boxes, other);
      assert other in multiset(Flatten(groups));
      assert other in multiset(chars);
      assert other == g;
    }
    if BoxesHolding(g, boxes) > 0 {
      assert g in multiset(Flatten(groups));
    }
  }

  /** Reading order loses no glyph: it lists a glyph once if no box holds its
      centre and otherwise once for every box that does. */
  lemma ReadingGroupsCount(chars: seq<Glyph>, pageWidth: real, boxes: seq<Box>, g: Glyph)
    requires Distinct(chars) && g in chars
    requires ReadingGroups(chars, pageWidth, boxes).Some?
    ensures multiset(Flatten(ReadingGroups(chars, pageWidth, boxes).value))[g]
      == if ColumnCount(chars, pageWidth).value <= 1 || BoxesHolding(g, boxes) == 0 then 1
         else BoxesHolding(g, boxes)
  {
    DistinctOnce(chars, g);
    var n := ColumnCount(chars, pageWidth).value;
    if n <= 1 {
      FlattenOne(chars);
    } else {
      var sorted := SortBy(boxes, FromTopEdge);
      var columns := Columns(chars, pageWidth, Some(n)).value;
      HoldingSorted(g, boxes);
      CountWithBlocks(chars, sorted, columns, ColumnBoundaries(chars, pageWidth, n).value, g);
    }
  }

  lemma CountWithBlocks(
    chars: seq<Glyph>, boxes: seq<Box>, columns: seq<seq<Glyph>>, boundaries: seq<real>, g: Glyph)
    requires Distinct(chars) && g in chars && columns == ColumnsAt(chars, boundaries)
    ensures var blocks := BoxGroups(chars, boxes);
      multiset(Flatten(blocks + ColumnGroups(columns, Ids(blocks))))[g]
      == if BoxesHolding(g, boxes) == 0 then 1 else BoxesHolding(g, boxes)
  {
    var blocks := BoxGroups(chars, boxes);
    FlattenAppend(blocks, ColumnGroups(columns, Ids(blocks)));
    DistinctOnce(chars, g);
    BoxGroupsCount(chars, boxes, g);
    ColumnGroupsCount(columns, Ids(blocks), g);
    ColumnsConserve(chars, boundaries, g);
    ConsumedIffHeld(chars, boxes, g);
  }
}
