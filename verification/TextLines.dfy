/** From glyph groups to text lines: joining glyphs with inferred word spaces. */
module TextLines {
  import opened Glyphs
  import opened LineGrouping
  import opened Ordering
  import opened Text

  /** A visual line: glyph height and text. */
  datatype Line = Line(h: real, text: string)

  const WORD_GAP_WIDTH_RATIO := 0.4

  predicate AllSpace(s: string) { s != [] && AllOf(s, IsSpace) }

  // ---------------------------------------------------------- joining glyphs

  function Widths(line: seq<Glyph>): seq<real> {
    if line == [] then []
    else if line[0].x1 > line[0].x0 then [line[0].x1 - line[0].x0] + Widths(line[1..])
    else Widths(line[1..])
  }

  /** Wider gaps than this separate words. */
  function GapThreshold(line: seq<Glyph>): real {
    (if Widths(line) == [] then 1.0 else Median(Widths(line))) * WORD_GAP_WIDTH_RATIO
  }

  predicate EndsWith(s: string, c: char) { s != [] && s[|s| - 1] == c }

  /** What glyph i adds to the parts joined so far. */
  function NextParts(line: seq<Glyph>, i: nat, parts: seq<string>, threshold: real): seq<string>
    requires i < |line|
  {
    var ch := line[i].ch;
    if i == 0 then [ch]
    else if AllSpace(ch) || AllSpace(line[i - 1].ch) then
      if !AllSpace(ch) || (parts != [] && !EndsWith(parts[|parts| - 1], ' ')) then [ch] else []
    else if line[i].x0 - line[i - 1].x1 > threshold then [" ", ch]
    else [ch]
  }

  function PartsFrom(line: seq<Glyph>, i: nat, parts: seq<string>, threshold: real): seq<string>
    requires i <= |line|
    decreases |line| - i
  {
    if i == |line| then parts
    else PartsFrom(line, i + 1, parts + NextParts(line, i, parts, threshold), threshold)
  }

  /** The text of a visual line whose glyphs are sorted from left to right. */
  function LineText(line: seq<Glyph>): string {
    if line == [] then [] else Trim(Concat(PartsFrom(line, 0, [], GapThreshold(line))), IsSpace)
  }

  /** The body of the loop: a glyph, and a blank before it if the gap is wide. */
  method AppendGlyph(line: seq<Glyph>, i: nat, before: seq<string>, threshold: real) returns (parts: seq<string>)
    requires i < |line|
    ensures parts == before + NextParts(line, i, before, threshold)
  {
    parts := before;
    var ch := line[i].ch;
    if i == 0 {
      parts := parts + [ch];
    } else if AllSpace(ch) || AllSpace(line[i - 1].ch) {
      if !AllSpace(ch) || (parts != [] && !EndsWith(parts[|parts| - 1], ' ')) {
        parts := parts + [ch];
      }
    } else {
      if line[i].x0 - line[i - 1].x1 > threshold {
        parts := parts + [" "];
      }
      parts := parts + [ch];
    }
  }

  method JoinLineGlyphs(line: seq<Glyph>) returns (text: string)
    ensures text == LineText(line)
  {
    if line == [] {
      return [];
    }
    var threshold := GapThreshold(line);
    var parts: seq<string> := [];
    for i := 0 to |line|
      invariant PartsFrom(line, i, parts, threshold) == PartsFrom(line, 0, [], threshold)
    {
      parts := AppendGlyph(line, i, parts, threshold);
    }
    text := Trim(Concat(parts), IsSpace);
  }

  /** The ink of a list of glyphs, in list order. */
  function GlyphInk(line: seq<Glyph>): string {
    if line == [] then [] else Ink(line[0].ch) + GlyphInk(line[1..])
  }

  lemma {:induction false} GlyphInkAppend(a: seq<Glyph>, b: seq<Glyph>)
    ensures GlyphInk(a + b) == GlyphInk(a) + GlyphInk(b)
  {
    if a == [] {
      assert a + b == b;
    } else {
      GlyphInkAppend(a[1..], b);
      Associate(Ink(a[0].ch), GlyphInk(a[1..]), GlyphInk(b));
      assert (a + b)[1..] == a[1..] + b;
    }
  }

  lemma NextPartsInk(line: seq<Glyph>, i: nat, parts: seq<string>, threshold: real)
    requires i < |line|
    ensures Ink(Concat(NextParts(line, i, parts, threshold))) == Ink(line[i].ch)
  {
    var next := NextParts(line, i, parts, threshold);
    var ch := line[i].ch;
    if next == [] {
      InkOfSpaces(ch);
    } else if next == [ch] {
      ConcatOne(ch);
    } else {
      assert next == [" ", ch];
      ConcatTwo(" ", ch);
      InkConcat(" ", ch);
      assert AllOf(" ", IsSpace);
      InkOfSpaces(" ");
    }
  }

  lemma {:induction false} PartsFromInk(line: seq<Glyph>, i: nat, parts: seq<string>, threshold: real)
    requires i <= |line|
    ensures Ink(Concat(PartsFrom(line, i, parts, threshold))) == Ink(Concat(parts)) + GlyphInk(line[i..])
    decreases |line| - i
  {
    if i < |line| {
      var next := NextParts(line, i, parts, threshold);
      PartsFromInk(line, i + 1, parts + next, threshold);
      ConcatAppend(parts, next);
      InkConcat(Concat(parts), Concat(next));
      NextPartsInk(line, i, parts, threshold);
      assert line[i..][1..] == line[i + 1..];
    }
  }

  /** Joining glyphs keeps their ink, in order. */
  lemma LineTextInk(line: seq<Glyph>)
    ensures Ink(LineText(line)) == GlyphInk(line)
  {
    if line != [] {
      var parts := PartsFrom(line, 0, [], GapThreshold(line));
      PartsFromInk(line, 0, [], GapThreshold(line));
      InkOfTrim(Concat(parts));
      assert line[0..] == line;
    }
  }

  // ------------------------------------------------------------ text of lines

  function RowOf(group: seq<Glyph>): seq<Glyph> { SortBy(group, LeftEdge) }

  /** The line of a group sorted by x, if it has any text. */
  function LineOf(row: seq<Glyph>, medianHeight: real): seq<Line> {
    if LineText(row) == [] then [] else [Line(HeightOf(row, medianHeight), LineText(row))]
  }

  function HeightOf(row: seq<Glyph>, medianHeight: real): real {
    var heights := Heights(row);
    if heights == [] then medianHeight else Median(heights)
  }

  function LineOfGroup(medianHeight: real): seq<Glyph> -> seq<Line> {
    (group: seq<Glyph>) => LineOf(RowOf(group), medianHeight)
  }

  /** The lines of all groups that have any text. */
  function LinesOf(groups: seq<seq<Glyph>>, medianHeight: real): seq<Line> {
    Flatten(Each(LineOfGroup(medianHeight), groups))
  }

  function TextLinesOf(chars: seq<Glyph>): seq<Line> { LinesOf(Groups(chars), MedianHeight(chars)) }

  /** The grouping loop. */
  method GroupByBaseline(chars: seq<Glyph>, tolerance: real) returns (lines: seq<seq<Glyph>>)
    requires chars != [] && tolerance == Tolerance(chars)
    ensures lines == Groups(chars)
  {
    var ordered := SortBy(chars, FromTop);
    var cur := [ordered[0]];
    var reference := YMid(ordered[0]);
    lines := [];
    for i := 1 to |ordered|
      invariant lines + GreedyFrom(cur, reference, ordered[i..], tolerance) == Groups(chars)
    {
      var c := ordered[i];
      assert ordered[i..][0] == c && ordered[i..][1..] == ordered[i + 1..];
      if AbsReal(YMid(c) - reference) <= tolerance {
        cur := cur + [c];
      } else {
        lines := lines + [cur];
        cur := [c];
        reference := YMid(c);
      }
    }
    lines := lines + [cur];
  }

  lemma LinesOfNext(groups: seq<seq<Glyph>>, i: nat, medianHeight: real)
    requires i < |groups|
    ensures LinesOf(groups[..i + 1], medianHeight)
      == LinesOf(groups[..i], medianHeight) + LineOf(RowOf(groups[i]), medianHeight)
  {
    var lineOf := LineOfGroup(medianHeight);
    EachSnoc(lineOf, groups, i);
    FlattenSnoc(Each(lineOf, groups[..i]), lineOf(groups[i]));
  }

  /** The text loop: groups without text are dropped. */
  method RenderGroups(groups: seq<seq<Glyph>>, medianHeight: real) returns (out: seq<Line>)
    ensures out == LinesOf(groups, medianHeight)
  {
    out := [];
    for i := 0 to |groups|
      invariant out == LinesOf(groups[..i], medianHeight)
    {
      LinesOfNext(groups, i, medianHeight);
      var row := RowOf(groups[i]);
      var text := JoinLineGlyphs(row);
      if text != [] {
        out := out + [Line(HeightOf(row, medianHeight), text)];
      }
    }
    assert groups[..|groups|] == groups;
  }

  method GroupLines(chars: seq<Glyph>) returns (out: seq<Line>)
    ensures out == TextLinesOf(chars)
  {
    if chars == [] {
      return [];
    }
    var medianHeight := MedianHeight(chars);
    var groups := GroupByBaseline(chars, 0.5 * medianHeight);
    out := RenderGroups(groups, medianHeight);
  }

  function LinesInk(lines: seq<Line>): string {
    if lines == [] then [] else Ink(lines[0].text) + LinesInk(lines[1..])
  }

  lemma {:induction false} LinesInkAppend(a: seq<Line>, b: seq<Line>)
    ensures LinesInk(a + b) == LinesInk(a) + LinesInk(b)
  {
    if a == [] {
      assert a + b == b;
    } else {
      LinesInkAppend(a[1..], b);
      Associate(Ink(a[0].text), LinesInk(a[1..]), LinesInk(b));
      assert (a + b)[1..] == a[1..] + b;
    }
  }

  /** Groups in order, the glyphs of each sorted from left to right. */
  function RowsInOrder(groups: seq<seq<Glyph>>): seq<Glyph> {
    if groups == [] then [] else RowOf(groups[0]) + RowsInOrder(groups[1..])
  }

  lemma {:induction false} RowsInOrderPermutes(groups: seq<seq<Glyph>>)
    ensures multiset(RowsInOrder(groups)) == multiset(Flatten(groups))
  {
    if groups != [] {
      RowsInOrderPermutes(groups[1..]);
    }
  }

  lemma LineOfInk(row: seq<Glyph>, medianHeight: real)
    ensures LinesInk(LineOf(row, medianHeight)) == GlyphInk(row)
  {
    LineTextInk(row);
    var lines := LineOf(row, medianHeight);
    if lines != [] {
      assert lines[1..] == [] && Ink(lines[0].text) + [] == Ink(lines[0].text);
    }
  }

  lemma {:induction false} LinesOfInk(groups: seq<seq<Glyph>>, medianHeight: real)
    ensures LinesInk(LinesOf(groups, medianHeight)) == GlyphInk(RowsInOrder(groups))
  {
    if groups != [] {
      LinesOfInk(groups[1..], medianHeight);
      var row := RowOf(groups[0]);
      LineOfInk(row, medianHeight);
      GlyphInkAppend(row, RowsInOrder(groups[1..]));
      LinesOfFirst(groups, medianHeight);
      LinesInkAppend(LineOf(row, medianHeight), LinesOf(groups[1..], medianHeight));
    }
  }

  lemma LinesOfFirst(groups: seq<seq<Glyph>>, medianHeight: real)
    requires groups != []
    ensures LinesOf(groups, medianHeight) == LineOf(RowOf(groups[0]), medianHeight) + LinesOf(groups[1..], medianHeight)
  {
    var lineOf := LineOfGroup(medianHeight);
    EachCons(lineOf, groups);
    FlattenCons(lineOf(groups[0]), Each(lineOf, groups[1..]));
  }
}
