/** Text of a column: orphan punctuation attached to the line above, large
    lines promoted to headings, and the account of what becomes of the ink. */
module PageText {
  import opened Glyphs
  import opened LineGrouping
  import opened Ordering
  import opened Text
  import opened TextLines

  // ----------------------------------------------------- orphan punctuation

  predicate IsMark(c: char) { c in ".,;:!?\U{2026}\U{b7}" || IsSpace(c) }

  /** A line of at most four characters, all punctuation or white space. */
  predicate IsOrphan(text: string) {
    var t := Trim(text, IsSpace);
    t != [] && |t| <= 4 && AllOf(t, IsMark)
  }

  /** The previous line with the orphan t attached. */
  function Attach(prev: string, t: string): string {
    var suffix := Ink(t);
    if suffix != [] && prev != [] && !EndsWith(prev, ' ') && !EndsWith(prev, '-') then prev + suffix
    else Trim(prev + " " + t, IsSpace)
  }

  function MergeFrom(merged: seq<Line>, rest: seq<Line>): seq<Line>
    decreases |rest|
  {
    if rest == [] then merged
    else MergeFrom(MergeOne(merged, rest[0]), rest[1..])
  }

  function MergeOne(merged: seq<Line>, line: Line): seq<Line> {
    var last := |merged| - 1;
    if merged != [] && IsOrphan(line.text) then
      merged[last := Line(merged[last].h, Attach(merged[last].text, Trim(line.text, IsSpace)))]
    else merged + [line]
  }

  method MergeOrphanPunctuationLines(lines: seq<Line>) returns (merged: seq<Line>)
    ensures merged == MergeFrom([], lines)
  {
    merged := [];
    for i := 0 to |lines|
      invariant MergeFrom(merged, lines[i..]) == MergeFrom([], lines)
    {
      assert lines[i..][0] == lines[i] && lines[i..][1..] == lines[i + 1..];
      var t := Trim(lines[i].text, IsSpace);
      if merged != [] && t != [] && |t| <= 4 && AllOf(t, IsMark) {
        var prev := merged[|merged| - 1];
        merged := merged[|merged| - 1 := Line(prev.h, Attach(prev.text, t))];
      } else {
        merged := merged + [lines[i]];
      }
    }
  }

  lemma AttachInk(prev: string, t: string)
    ensures Ink(Attach(prev, t)) == Ink(prev) + Ink(t)
  {
    InkConcat(prev, Ink(t));
    InkOfInk(Ink(t));
    InkOfTrim(prev + " " + t);
    InkGlue(prev, " ", t);
  }

  lemma MergeOneInk(merged: seq<Line>, line: Line)
    ensures LinesInk(MergeOne(merged, line)) == LinesInk(merged) + Ink(line.text)
  {
    if merged != [] && IsOrphan(line.text) {
      var last := |merged| - 1;
      var t := Trim(line.text, IsSpace);
      var joined := Line(merged[last].h, Attach(merged[last].text, t));
      AttachInk(merged[last].text, t);
      InkOfTrim(line.text);
      assert merged[last := joined] == merged[..last] + [joined];
      assert merged == merged[..last] + [merged[last]];
      LinesInkNext(merged[..last], joined);
      LinesInkNext(merged[..last], merged[last]);
      Associate(LinesInk(merged[..last]), Ink(merged[last].text), Ink(t));
    } else {
      LinesInkNext(merged, line);
    }
  }

  lemma LinesInkNext(lines: seq<Line>, line: Line)
    ensures LinesInk(lines + [line]) == LinesInk(lines) + Ink(line.text)
  {
    LinesInkAppend(lines, [line]);
    assert [line][1..] == [];
  }

  /** Attaching orphan punctuation keeps all ink in order. */
  lemma {:induction false} MergeInk(merged: seq<Line>, rest: seq<Line>)
    ensures LinesInk(MergeFrom(merged, rest)) == LinesInk(merged) + LinesInk(rest)
    decreases |rest|
  {
    if rest != [] {
      MergeOneInk(merged, rest[0]);
      MergeInk(MergeOne(merged, rest[0]), rest[1..]);
    }
  }

  // --------------------------------------------------------------- headings

  const MIN_HEADING_LINE_CHARS := 8

  function LineHeights(lines: seq<Line>): seq<real> {
    seq(|lines|, i requires 0 <= i < |lines| => lines[i].h)
  }

  predicate EndsSentence(text: string)
    requires text != []
  {
    text[|text| - 1] in ".\U{3002}!\U{ff01}?\U{ff1f},\U{ff0c};\U{ff1b}:\U{ff1a}"
  }

  /** The heading level of a line by its height relative to the body text; none if
      headings are switched off. */
  function Level(line: Line, body: real, detect: bool): (level: nat)
    ensures level <= 3
  {
    if !detect || body <= 0.0 || |line.text| > 80 || |line.text| < MIN_HEADING_LINE_CHARS then 0
    else if EndsSentence(line.text) then 0
    else
      var ratio := line.h / body;
      if ratio >= 2.0 then 1 else if ratio >= 1.6 then 2 else if ratio >= 1.35 then 3 else 0
  }

  function RawLevels(lines: seq<Line>, body: real, detect: bool): seq<nat> {
    seq(|lines|, i requires 0 <= i < |lines| => Level(lines[i], body, detect))
  }

  function CountHeadings(levels: seq<nat>): nat {
    if levels == [] then 0 else (if levels[0] > 0 then 1 else 0) + CountHeadings(levels[1..])
  }

  function HeadingLimit(n: nat): int {
    var share := (0.4 * n as real).Floor;
    if share >= 1 then share else 1
  }

  /** If too many lines qualify, no line is promoted. */
  function Levels(lines: seq<Line>, detect: bool): (levels: seq<nat>)
    requires lines != []
    ensures |levels| == |lines|
    ensures forall i | 0 <= i < |levels| :: levels[i] <= 3
  {
    var levels := RawLevels(lines, Median(LineHeights(lines)), detect);
    if CountHeadings(levels) > HeadingLimit(|lines|) then seq(|lines|, _ => 0) else levels
  }

  lemma {:induction false} NoHeadings(n: nat)
    ensures CountHeadings(seq(n, _ => 0)) == 0
    decreases n
  {
    if n > 0 {
      NoHeadings(n - 1);
      assert seq<nat>(n, _ => 0)[1..] == seq<nat>(n - 1, _ => 0);
    }
  }

  /** At most 40 percent of the lines, but always one, may become headings. */
  lemma HeadingsAreRare(lines: seq<Line>, detect: bool)
    requires lines != []
    ensures CountHeadings(Levels(lines, detect)) <= HeadingLimit(|lines|)
  {
    NoHeadings(|lines|);
  }

  function Hashes(level: nat): (r: string)
    ensures |r| == level && forall c | c in r :: c == '#'
  {
    seq(level, _ => '#')
  }

  function Rendered(line: Line, level: nat): string {
    if level > 0 then Hashes(level) + " " + line.text else line.text
  }

  function RenderedLines(lines: seq<Line>, levels: seq<nat>): seq<string>
    requires |lines| == |levels|
  {
    seq(|lines|, i requires 0 <= i < |lines| => Rendered(lines[i], levels[i]))
  }

  function Markdown(lines: seq<Line>, detect: bool): string {
    if lines == [] then [] else Join(RenderedLines(lines, Levels(lines, detect)), "\n")
  }

  method RenderLines(lines: seq<Line>, levels: seq<nat>) returns (out: seq<string>)
    requires |lines| == |levels|
    ensures out == RenderedLines(lines, levels)
  {
    out := [];
    for i := 0 to |lines|
      invariant out == RenderedLines(lines, levels)[..i]
    {
      out := out + [if levels[i] > 0 then Hashes(levels[i]) + " " + lines[i].text else lines[i].text];
    }
  }

  method SegmentsToMarkdown(lines: seq<Line>, detect: bool) returns (md: string)
    ensures md == Markdown(lines, detect)
  {
    if lines == [] {
      return [];
    }
    var out := RenderLines(lines, Levels(lines, detect));
    md := Join(out, "\n");
  }

  // -------------------------------------------------------- account of the ink

  /** The pieces with that many heading marks in front of each. */
  function Marked(levels: seq<nat>, pieces: seq<string>): string
    requires |levels| == |pieces|
  {
    if pieces == [] then [] else Hashes(levels[0]) + pieces[0] + Marked(levels[1..], pieces[1..])
  }

  lemma {:induction false} MarkedAppend(l1: seq<nat>, p1: seq<string>, l2: seq<nat>, p2: seq<string>)
    requires |l1| == |p1| && |l2| == |p2|
    ensures Marked(l1 + l2, p1 + p2) == Marked(l1, p1) + Marked(l2, p2)
  {
    if p1 == [] {
      assert p1 + p2 == p2 && l1 + l2 == l2;
    } else {
      MarkedAppend(l1[1..], p1[1..], l2, p2);
      assert (p1 + p2)[1..] == p1[1..] + p2 && (l1 + l2)[1..] == l1[1..] + l2;
      Associate(Hashes(l1[0]) + p1[0], Marked(l1[1..], p1[1..]), Marked(l2, p2));
    }
  }

  /** The ink of each line. */
  function Inks(lines: seq<Line>): (r: seq<string>)
    ensures |r| == |lines|
  {
    seq(|lines|, i requires 0 <= i < |lines| => Ink(lines[i].text))
  }

  lemma {:induction false} InksInOrder(lines: seq<Line>)
    ensures Concat(Inks(lines)) == LinesInk(lines)
  {
    if lines != [] {
      InksInOrder(lines[1..]);
      assert Inks(lines)[1..] == Inks(lines[1..]);
    }
  }

  lemma RenderedInk(line: Line, level: nat)
    ensures Ink(Rendered(line, level)) == Hashes(level) + Ink(line.text)
  {
    if level > 0 {
      InkGlue(Hashes(level), " ", line.text);
      InkOfInk(Hashes(level));
    }
  }

  /** The ink of rendered lines: the heading marks of each line, then its own ink. */
  lemma {:induction false} JoinInk(lines: seq<Line>, levels: seq<nat>)
    requires |lines| == |levels|
    ensures Ink(Join(RenderedLines(lines, levels), "\n")) == Marked(levels, Inks(lines))
    decreases |lines|
  {
    if lines != [] {
      var out := RenderedLines(lines, levels);
      RenderedInk(lines[0], levels[0]);
      JoinInk(lines[1..], levels[1..]);
      assert out[1..] == RenderedLines(lines[1..], levels[1..]);
      assert Inks(lines)[1..] == Inks(lines[1..]);
      var rest := Join(out[1..], "\n");
      if |lines| > 1 {
        InkGlue(out[0], "\n", rest);
      } else {
        assert Marked(levels[1..], Inks(lines)[1..]) == [];
        assert Ink(out[0]) + [] == Ink(out[0]);
      }
    }
  }

  /** The heading levels of the lines; none for no lines. */
  function LineLevels(lines: seq<Line>, detect: bool): (levels: seq<nat>)
    ensures |levels| == |lines| && forall i | 0 <= i < |levels| :: levels[i] <= 3
  {
    if lines == [] then [] else Levels(lines, detect)
  }

  /** Rendering keeps the ink of every line and puts exactly the marks of its
      level in front of it. */
  lemma MarkdownInk(lines: seq<Line>, detect: bool)
    ensures Ink(Markdown(lines, detect)) == Marked(LineLevels(lines, detect), Inks(lines))
  {
    if lines != [] {
      JoinInk(lines, Levels(lines, detect));
    }
  }

  // ---------------------------------------------------------------- one group

  /** The lines of a glyph group, orphan punctuation merged. */
  function MergedLines(chars: seq<Glyph>): seq<Line> { MergeFrom([], TextLinesOf(chars)) }

  /** The text of one glyph group. */
  function GroupMarkdown(chars: seq<Glyph>, detect: bool): string { Markdown(MergedLines(chars), detect) }

  /** A group's glyphs in reading order: lines from the top, glyphs by x. */
  function GroupOrder(chars: seq<Glyph>): seq<Glyph> { RowsInOrder(Groups(chars)) }

  function GroupLevels(chars: seq<Glyph>, detect: bool): (levels: seq<nat>)
    ensures forall i | 0 <= i < |levels| :: levels[i] <= 3
  {
    LineLevels(MergedLines(chars), detect)
  }

  /** The ink of the group's merged lines. */
  function GroupPieces(chars: seq<Glyph>): seq<string> { Inks(MergedLines(chars)) }

  lemma TextLinesInk(chars: seq<Glyph>)
    ensures LinesInk(TextLinesOf(chars)) == GlyphInk(GroupOrder(chars))
  {
    LinesOfInk(Groups(chars), MedianHeight(chars));
  }

  /** The merged lines carry the ink of the group's glyphs in reading order. */
  lemma PiecesInk(chars: seq<Glyph>)
    ensures Concat(GroupPieces(chars)) == GlyphInk(GroupOrder(chars))
  {
    InksInOrder(MergedLines(chars));
    MergeInk([], TextLinesOf(chars));
    TextLinesInk(chars);
    assert LinesInk([]) + LinesInk(TextLinesOf(chars)) == LinesInk(TextLinesOf(chars));
  }

  /** No line is without ink. */
  ghost predicate AllInked(lines: seq<Line>) {
    forall i | 0 <= i < |lines| :: Ink(lines[i].text) != []
  }

  lemma {:induction false} MergeKeepsInked(merged: seq<Line>, rest: seq<Line>)
    requires AllInked(merged) && AllInked(rest)
    ensures AllInked(MergeFrom(merged, rest))
    decreases |rest|
  {
    if rest != [] {
      if merged != [] && IsOrphan(rest[0].text) {
        AttachInk(merged[|merged| - 1].text, Trim(rest[0].text, IsSpace));
      }
      MergeKeepsInked(MergeOne(merged, rest[0]), rest[1..]);
    }
  }

  /** Every merged line has ink, so every mark stands right before some. */
  lemma PiecesNotEmpty(chars: seq<Glyph>, i: nat)
    requires i < |GroupPieces(chars)|
    ensures GroupPieces(chars)[i] != []
  {
    ColumnInked(chars);
    InkedPieces(TextLinesOf(chars), i);
  }

  lemma InkedPieces(lines: seq<Line>, i: nat)
    requires AllInked(lines) && i < |Inks(MergeFrom([], lines))|
    ensures Inks(MergeFrom([], lines))[i] != []
  {
    MergeKeepsInked([], lines);
  }

  lemma ColumnInked(chars: seq<Glyph>)
    ensures AllInked(TextLinesOf(chars))
  {
    TextLinesInked(Groups(chars), MedianHeight(chars));
  }

  lemma TextLinesInked(groups: seq<seq<Glyph>>, medianHeight: real)
    ensures AllInked(LinesOf(groups, medianHeight))
  {
    forall i | 0 <= i < |groups| ensures AllInked(Each(LineOfGroup(medianHeight), groups)[i]) {
      LineOfInked(RowOf(groups[i]), medianHeight);
    }
    FlattenInked(Each(LineOfGroup(medianHeight), groups));
  }

  lemma {:induction false} FlattenInked(lists: seq<seq<Line>>)
    requires forall i | 0 <= i < |lists| :: AllInked(lists[i])
    ensures AllInked(Flatten(lists))
  {
    if lists != [] {
      FlattenInked(lists[1..]);
    }
  }

  lemma LineOfInked(row: seq<Glyph>, medianHeight: real)
    ensures AllInked(LineOf(row, medianHeight))
  {
    var text := LineText(row);
    if text != [] {
      TrimmedHasInk(row);
    }
  }

  /** A line text is stripped, so it has ink unless it is empty. */
  lemma TrimmedHasInk(row: seq<Glyph>)
    requires LineText(row) != []
    ensures Ink(LineText(row)) != []
  {
    var text := LineText(row);
    assert !IsSpace(text[0]);
    assert Ink(text) == [text[0]] + Ink(text[1..]);
  }

  /** Rendering a group keeps the ink of every glyph, in reading order, line by
      line, and adds nothing but the marks of its few headings, at line starts. */
  lemma GroupInk(chars: seq<Glyph>, detect: bool)
    ensures |GroupLevels(chars, detect)| == |GroupPieces(chars)|
    ensures Ink(GroupMarkdown(chars, detect)) == Marked(GroupLevels(chars, detect), GroupPieces(chars))
    ensures Concat(GroupPieces(chars)) == GlyphInk(GroupOrder(chars))
    ensures forall i | 0 <= i < |GroupPieces(chars)| :: GroupPieces(chars)[i] != []
    ensures CountHeadings(GroupLevels(chars, detect)) <= HeadingLimit(|GroupPieces(chars)|)
    ensures !detect ==> CountHeadings(GroupLevels(chars, detect)) == 0
  {
    MarkdownInk(MergedLines(chars), detect);
    PiecesInk(chars);
    forall i | 0 <= i < |GroupPieces(chars)| ensures GroupPieces(chars)[i] != [] {
      PiecesNotEmpty(chars, i);
    }
    GroupHeadings(MergedLines(chars), detect);
  }

  lemma GroupHeadings(lines: seq<Line>, detect: bool)
    ensures CountHeadings(LineLevels(lines, detect)) <= HeadingLimit(|lines|)
    ensures !detect ==> CountHeadings(LineLevels(lines, detect)) == 0
  {
    if lines != [] {
      HeadingsAreRare(lines, detect);
      if !detect {
        NoHeadings(|lines|);
        assert Levels(lines, detect) == seq(|lines|, _ => 0);
      }
    }
  }

  /** Reading order rearranges the glyphs of a group. */
  lemma GroupOrderPermutes(chars: seq<Glyph>)
    ensures multiset(GroupOrder(chars)) == multiset(chars)
  {
    GroupsPartition(chars);
    RowsInOrderPermutes(Groups(chars));
  }
}
