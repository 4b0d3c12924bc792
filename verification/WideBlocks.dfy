/** Lines across all columns, the blocks they form and what the blocks hold, in
    coordinates. Source: docreader/parser/pdf_dual_column.py. */
module WideBlocks {
  import opened Glyphs
  import opened Ordering
  import opened Wrappers
  import opened Histogram
  import opened LineGrouping
  import opened ReadingOrder

  /** The line has a glyph that starts left of every boundary and one that ends
      right of every boundary. */
  ghost predicate Crosses(line: seq<Glyph>, boundaries: seq<real>) {
    && line != []
    && (exists g | g in line :: forall b | b in boundaries :: g.x0 < b)
    && (exists g | g in line :: forall b | b in boundaries :: b < g.x1)
  }

  /** The smallest box around the glyphs of a line. */
  ghost predicate IsAround(box: Box, line: seq<Glyph>) {
    && (forall g | g in line :: box.x0 <= g.x0 && g.x1 <= box.x1 && box.y0 <= g.y0 && g.y1 <= box.y1)
    && (exists g | g in line :: g.x0 == box.x0) && (exists g | g in line :: g.x1 == box.x1)
    && (exists g | g in line :: g.y0 == box.y0) && (exists g | g in line :: g.y1 == box.y1)
  }

  lemma {:induction false} EdgesAre(line: seq<Glyph>)
    requires line != []
    ensures forall g | g in line :: LowestX(line) <= g.x0 && g.x1 <= HighestX(line)
    ensures forall g | g in line :: LowestY(line) <= g.y0 && g.y1 <= HighestY(line)
    ensures exists g | g in line :: g.x0 == LowestX(line)
    ensures exists g | g in line :: g.x1 == HighestX(line)
    ensures exists g | g in line :: g.y0 == LowestY(line)
    ensures exists g | g in line :: g.y1 == HighestY(line)
  {
    if |line| > 1 {
      EdgesAre(line[1..]);
      assert forall g :: g in line <==> g == line[0] || g in line[1..];
    }
  }

  /** A line counts as crossing exactly if it does so in coordinates, and then
      gives the box around its glyphs. */
  lemma CrossingIs(line: seq<Glyph>, boundaries: seq<real>, classify: (string, real) -> string)
    ensures var boxes := CrossingLines([line], boundaries, classify);
      && |boxes| == (if Crosses(line, boundaries) then 1 else 0)
      && forall box | box in boxes :: IsAround(box, line)
  {
    if line != [] {
      EdgesAre(line);
      var left :| left in line && left.x0 == LowestX(line);
      var right :| right in line && right.x1 == HighestX(line);
    }
  }

  lemma {:induction false} CrossingAppend(
    a: seq<seq<Glyph>>, b: seq<seq<Glyph>>, boundaries: seq<real>, classify: (string, real) -> string)
    ensures CrossingLines(a + b, boundaries, classify)
      == CrossingLines(a, boundaries, classify) + CrossingLines(b, boundaries, classify)
  {
    if a == [] {
      assert a + b == b;
    } else {
      assert (a + b)[0] == a[0] && (a + b)[1..] == a[1..] + b;
      CrossingAppend(a[1..], b, boundaries, classify);
    }
  }

  lemma {:induction false} SomeCrossing(
    lines: seq<seq<Glyph>>, boundaries: seq<real>, classify: (string, real) -> string)
    ensures CrossingLines(lines, boundaries, classify) != [] <==>
      exists line | line in lines :: Crosses(line, boundaries)
  {
    if lines != [] {
      var rest := lines[1..];
      CrossingIs(lines[0], boundaries, classify);
      CrossingAppend([lines[0]], rest, boundaries, classify);
      assert [lines[0]] + rest == lines;
      SomeCrossing(rest, boundaries, classify);
      assert forall line :: line in lines <==> line == lines[0] || line in rest;
      assert lines[0] in lines;
    }
  }

  lemma {:induction false} MergingKeepsSome(merged: seq<Box>, rest: seq<Box>)
    requires merged != []
    ensures MergeBlocksFrom(merged, rest) != []
    decreases |rest|
  {
    if rest != [] {
      var last := merged[|merged| - 1];
      if Adjacent(last, rest[0]) {
        MergingKeepsSome(merged[|merged| - 1 := MergeBoxes(last, rest[0])], rest[1..]);
      } else {
        MergingKeepsSome(merged + [rest[0]], rest[1..]);
      }
    }
  }

  lemma SomeMerged(blocks: seq<Box>)
    ensures MergedBlocks(blocks) != [] <==> blocks != []
  {
    var sorted := SortBy(blocks, FromTopEdge);
    if sorted != [] {
      MergingKeepsSome([sorted[0]], sorted[1..]);
    }
  }

  lemma WideBlocksAre(chars: seq<Glyph>, pageWidth: real, n: nat, classify: (string, real) -> string,
                      boundaries: seq<real>, boxes: seq<Box>)
    requires pageWidth > 0.0 && n >= 2 && chars != []
    requires ColumnBoundaries(chars, pageWidth, n) == Some(boundaries)
    requires CrossingLines(Groups(chars), boundaries, classify) == boxes
    ensures FullWidthBlocks(chars, pageWidth, n, classify)
      == Some(if Heights(chars) == [] then [] else MergedBlocks(boxes))
  {
  }

  /** A page of several columns has full-width blocks exactly if it has glyphs
      with a height and one of its lines crosses all boundaries. */
  lemma WideBlocksExactly(chars: seq<Glyph>, pageWidth: real, n: nat, classify: (string, real) -> string,
                          boundaries: seq<real>)
    requires pageWidth > 0.0 && n >= 2 && chars != []
    requires ColumnBoundaries(chars, pageWidth, n) == Some(boundaries)
    ensures FullWidthBlocks(chars, pageWidth, n, classify).Some?
    ensures FullWidthBlocks(chars, pageWidth, n, classify).value != [] <==>
      (exists g | g in chars :: g.y0 < g.y1) && exists line | line in Groups(chars) :: Crosses(line, boundaries)
  {
    var boxes := CrossingLines(Groups(chars), boundaries, classify);
    WideBlocksAre(chars, pageWidth, n, classify, boundaries, boxes);
    SomeHeight(chars);
    SomeCrossing(Groups(chars), boundaries, classify);
    SomeMerged(boxes);
  }

  lemma {:induction false} SomeHeight(chars: seq<Glyph>)
    ensures Heights(chars) != [] <==> exists g | g in chars :: g.y0 < g.y1
  {
    if chars != [] {
      SomeHeight(chars[1..]);
      assert chars[0] in chars;
      assert forall g :: g in chars <==> g == chars[0] || g in chars[1..];
    }
  }

  /** The next box goes on with the run: it is of the same kind, and its upper
      edge is less than 20 away from the highest of the run's lower edges. */
  ghost predicate GoesOn(run: seq<Box>, b: Box)
    requires run != []
  {
    && b.kind == run[0].kind
    && exists a :: a in run && (forall c | c in run :: c.y0 <= a.y0) && a.y0 - 20.0 < b.y1 < a.y0 + 20.0
  }

  /** Every box of a run goes on with those before it, and the first box of the
      next run does not. */
  ghost predicate AreRuns(runs: seq<seq<Box>>) {
    && (forall i | 0 <= i < |runs| :: IsRun(runs[i]))
    && (forall i | 0 <= i < |runs| - 1 :: !GoesOn(runs[i], runs[i + 1][0]))
  }

  ghost predicate IsRun(run: seq<Box>) {
    run != [] && forall j | 1 <= j < |run| :: GoesOn(run[..j], run[j])
  }

  lemma {:induction false} JoinedIs(run: seq<Box>)
    requires run != []
    ensures Joined(run).kind == run[0].kind
    ensures exists a | a in run :: a.y0 == Joined(run).y0
    ensures forall c | c in run :: c.y0 <= Joined(run).y0
  {
    var last := |run| - 1;
    if last > 0 {
      JoinedIs(run[..last]);
      assert forall c :: c in run <==> c in run[..last] || c == run[last];
    }
  }

  lemma AdjacentIs(run: seq<Box>, b: Box)
    requires run != []
    ensures Adjacent(Joined(run), b) <==> GoesOn(run, b)
  {
    JoinedIs(run);
    var a :| a in run && a.y0 == Joined(run).y0;
  }

  ghost predicate Begins(runs: seq<seq<Box>>, run: seq<Box>) {
    AreRuns(runs) && runs != [] && run <= runs[0]
  }

  lemma {:induction false} RunsAre(run: seq<Box>, rest: seq<Box>)
    requires IsRun(run)
    ensures Begins(RunsFrom(run, rest), run)
    decreases |rest|
  {
    if rest == [] {
      LastRun(run);
    } else {
      AdjacentIs(run, rest[0]);
      if GoesOn(run, rest[0]) {
        RunGrows(run, rest[0]);
        RunsAre(run + [rest[0]], rest[1..]);
        BeginsEarlier(RunsFrom(run + [rest[0]], rest[1..]), run, rest[0]);
      } else {
        OneRun(rest[0]);
        RunsAre([rest[0]], rest[1..]);
        RunsCons(run, RunsFrom([rest[0]], rest[1..]), rest[0]);
      }
    }
  }

  lemma BeginsEarlier(runs: seq<seq<Box>>, run: seq<Box>, b: Box)
    requires Begins(runs, run + [b])
    ensures Begins(runs, run)
  {
  }

  lemma OneRun(b: Box)
    ensures IsRun([b])
  {
  }

  lemma LastRun(run: seq<Box>)
    requires IsRun(run)
    ensures AreRuns([run])
  {
  }

  lemma RunGrows(run: seq<Box>, b: Box)
    requires IsRun(run) && GoesOn(run, b)
    ensures IsRun(run + [b])
  {
    var longer := run + [b];
    forall j | 1 <= j < |longer| ensures GoesOn(longer[..j], longer[j]) {
      assert longer[..j] == if j < |run| then run[..j] else run;
    }
  }

  lemma RunsCons(run: seq<Box>, later: seq<seq<Box>>, b: Box)
    requires IsRun(run) && Begins(later, [b]) && !GoesOn(run, b)
    ensures Begins([run] + later, run)
  {
    var runs := [run] + later;
    assert later[0][0] == b;
    forall i | 0 <= i < |runs| ensures IsRun(runs[i]) {
      assert i > 0 ==> runs[i] == later[i - 1];
    }
    forall i | 0 <= i < |runs| - 1 ensures !GoesOn(runs[i], runs[i + 1][0]) {
      assert i > 0 ==> runs[i] == later[i - 1] && runs[i + 1] == later[i];
    }
  }

  /** The boxes are sorted by their upper edges and cut into runs, each of which
      goes on as long as it can. */
  lemma BlocksAreRuns(blocks: seq<Box>)
    ensures var runs := BlockRuns(blocks);
      && AreRuns(runs)
      && multiset(Flatten(runs)) == multiset(blocks)
      && forall i, j | 0 <= i < j < |Flatten(runs)| :: Flatten(runs)[i].y1 >= Flatten(runs)[j].y1
  {
    var sorted := SortBy(blocks, FromTopEdge);
    if sorted != [] {
      RunsAre([sorted[0]], sorted[1..]);
      MergingRuns([], [sorted[0]], sorted[1..]);
    }
    assert Flatten(BlockRuns(blocks)) == sorted;
    forall i, j | 0 <= i < j < |sorted| ensures sorted[i].y1 >= sorted[j].y1 {
      assert FromTopEdge(sorted[i]) <= FromTopEdge(sorted[j]);
    }
  }

  /** The centre of the glyph is in the box, edges included. */
  predicate IsIn(g: Glyph, b: Box) {
    2.0 * b.x0 <= g.x0 + g.x1 <= 2.0 * b.x1 && 2.0 * b.y0 <= g.y0 + g.y1 <= 2.0 * b.y1
  }

  predicate IsInSome(g: Glyph, boxes: seq<Box>) { exists b | b in boxes :: IsIn(g, b) }

  /** The glyphs of a box, in page order. */
  function Held(chars: seq<Glyph>, b: Box): seq<Glyph> { Without(chars, (g: Glyph) => !IsIn(g, b)) }

  predicate IsNothing(group: seq<Glyph>) { group == [] }

  lemma {:induction false} HeldIs(chars: seq<Glyph>, b: Box)
    ensures Inside(chars, b) == Held(chars, b)
  {
    if chars != [] {
      HeldIs(chars[1..], b);
    }
  }

  lemma {:induction false} BoxGroupsAre(chars: seq<Glyph>, boxes: seq<Box>)
    ensures BoxGroups(chars, boxes) == Without(Each((b: Box) => Held(chars, b), boxes), IsNothing)
  {
    var held := (b: Box) => Held(chars, b);
    if boxes != [] {
      EachCons(held, boxes);
      WithoutCons(held(boxes[0]), Each(held, boxes[1..]), IsNothing);
      HeldIs(chars, boxes[0]);
      BoxGroupsAre(chars, boxes[1..]);
    }
  }

  /** The glyphs of a column that no box holds. */
  function Loose(boxes: seq<Box>): seq<Glyph> -> seq<Glyph> {
    (col: seq<Glyph>) => Without(col, (g: Glyph) => IsInSome(g, boxes))
  }

  lemma {:induction false} HoldingIs(g: Glyph, boxes: seq<Box>)
    ensures BoxesHolding(g, boxes) > 0 <==> IsInSome(g, boxes)
  {
    if boxes != [] {
      HoldingIs(g, boxes[1..]);
      assert boxes[0] in boxes;
      assert forall b :: b in boxes <==> b == boxes[0] || b in boxes[1..];
    }
  }

  lemma {:induction false} LooseIs(col: seq<Glyph>, consumed: set<nat>, boxes: seq<Box>)
    requires forall g | g in col :: g.id in consumed <==> IsInSome(g, boxes)
    ensures Remaining(col, consumed) == Loose(boxes)(col)
  {
    if col != [] {
      LooseIs(col[1..], consumed, boxes);
    }
  }

  lemma {:induction false} ColumnGroupsAre(columns: seq<seq<Glyph>>, consumed: set<nat>, boxes: seq<Box>)
    requires forall g | g in Flatten(columns) :: g.id in consumed <==> IsInSome(g, boxes)
    ensures ColumnGroups(columns, consumed) == Without(Each(Loose(boxes), columns), IsNothing)
  {
    if columns != [] {
      var loose := Loose(boxes);
      EachCons(loose, columns);
      WithoutCons(loose(columns[0]), Each(loose, columns[1..]), IsNothing);
      LooseIs(columns[0], consumed, boxes);
      ColumnGroupsAre(columns[1..], consumed, boxes);
    }
  }

  ghost predicate FromTheTop(sorted: seq<Box>, boxes: seq<Box>) {
    multiset(sorted) == multiset(boxes) && forall i, j | 0 <= i < j < |sorted| :: sorted[i].y1 >= sorted[j].y1
  }

  /** What is written of a page with several columns: first the glyphs of each
      box, the boxes from the top, and then of each column what no box holds. */
  ghost predicate AreGroups(
    groups: seq<seq<Glyph>>, chars: seq<Glyph>, sorted: seq<Box>, columns: seq<seq<Glyph>>)
  {
    groups == Without(Each((b: Box) => Held(chars, b), sorted), IsNothing)
            + Without(Each(Loose(sorted), columns), IsNothing)
  }

  lemma SortedFromTop(boxes: seq<Box>)
    ensures FromTheTop(SortBy(boxes, FromTopEdge), boxes)
  {
    var sorted := SortBy(boxes, FromTopEdge);
    forall i, j | 0 <= i < j < |sorted| ensures sorted[i].y1 >= sorted[j].y1 {
      assert FromTopEdge(sorted[i]) <= FromTopEdge(sorted[j]);
    }
  }

  lemma GroupsAre(chars: seq<Glyph>, sorted: seq<Box>, columns: seq<seq<Glyph>>)
    requires Distinct(chars) && multiset(Flatten(columns)) == multiset(chars)
    ensures AreGroups(BoxGroups(chars, sorted) + ColumnGroups(columns, Ids(BoxGroups(chars, sorted))),
                      chars, sorted, columns)
  {
    BoxGroupsAre(chars, sorted);
    forall g | g in Flatten(columns) ensures g.id in Ids(BoxGroups(chars, sorted)) <==> IsInSome(g, sorted) {
      assert g in multiset(Flatten(columns));
      assert g in chars;
      ConsumedIffHeld(chars, sorted, g);
      HoldingIs(g, sorted);
    }
    ColumnGroupsAre(columns, Ids(BoxGroups(chars, sorted)), sorted);
  }

  lemma ColumnsHoldAll(chars: seq<Glyph>, boundaries: seq<real>)
    ensures multiset(Flatten(ColumnsAt(chars, boundaries))) == multiset(chars)
  {
    forall g ensures multiset(Flatten(ColumnsAt(chars, boundaries)))[g] == multiset(chars)[g] {
      ColumnsConserve(chars, boundaries, g);
    }
  }

  /** The page is written in these groups, its columns lying between the boundaries. */
  ghost predicate ReadsAs(chars: seq<Glyph>, boundaries: seq<real>, boxes: seq<Box>, groups: seq<seq<Glyph>>) {
    exists sorted :: FromTheTop(sorted, boxes) && AreGroups(groups, chars, sorted, ColumnsAt(chars, boundaries))
  }

  lemma SortedReadsAs(chars: seq<Glyph>, boundaries: seq<real>, boxes: seq<Box>)
    requires Distinct(chars)
    ensures var blocks := BoxGroups(chars, SortBy(boxes, FromTopEdge));
      ReadsAs(chars, boundaries, boxes, blocks + ColumnGroups(ColumnsAt(chars, boundaries), Ids(blocks)))
  {
    SortedFromTop(boxes);
    ColumnsHoldAll(chars, boundaries);
    GroupsAre(chars, SortBy(boxes, FromTopEdge), ColumnsAt(chars, boundaries));
  }

  lemma ReadingGroupsAre(chars: seq<Glyph>, pageWidth: real, boxes: seq<Box>, groups: seq<seq<Glyph>>)
    requires Distinct(chars) && ReadingGroups(chars, pageWidth, boxes) == Some(groups)
    ensures var n := ColumnCount(chars, pageWidth).value;
      if n <= 1 then groups == [chars]
      else
        pageWidth > 0.0 && ColumnBoundaries(chars, pageWidth, n).Some? &&
        ReadsAs(chars, ColumnBoundaries(chars, pageWidth, n).value, boxes, groups)
  {
    var n := ColumnCount(chars, pageWidth).value;
    if n > 1 {
      SortedReadsAs(chars, ColumnBoundaries(chars, pageWidth, n).value, boxes);
    }
  }
}
