/** Which columns of a page are read: margin strips and vertical watermarks in
    coordinates and line texts. */
module MarginStrips {
  import opened ColumnSplit
  import opened Glyphs
  import opened Numbers
  import opened Ordering
  import opened PageLayout
  import opened ReadingOrder
  import opened TextLines
  import opened WideBlocks

  // ----------------------------------------------------------- in coordinates

  /** From some left edge to some right edge it is at least this far. */
  ghost predicate IsAtLeastWide(col: seq<Glyph>, w: real) {
    exists a, b | a in col && b in col :: b.x1 - a.x0 >= w
  }

  ghost predicate HasWidth(col: seq<Glyph>) {
    exists a, b | a in col && b in col :: b.x1 - a.x0 > 0.0
  }

  /** Some two centres are further apart than three and a half widths. */
  ghost predicate IsTall(col: seq<Glyph>) {
    exists a, b | a in col && b in col :: HigherThanWide(col, YMid(a) - YMid(b))
  }

  ghost predicate HigherThanWide(col: seq<Glyph>, height: real) {
    forall c, d | c in col && d in col :: height > (d.x1 - c.x0) * 3.5
  }

  /** The numbers of the lines with at most two characters. */
  function ShortLines(lines: seq<Line>): set<nat> {
    set i: nat | i < |lines| && |lines[i].text| <= 2
  }

  /** At least so many of a hundred lines have at most two characters. */
  predicate MostlyShort(lines: seq<Line>, percent: nat) {
    lines != [] && 100 * |ShortLines(lines)| >= percent * |lines|
  }

  /** A narrow strip of short lines, a tall stack of them, or nothing to measure. */
  ghost predicate IsStrip(col: seq<Glyph>, lines: seq<Line>, width: real) {
    || width <= 0.0 || !HasWidth(col)
    || (!IsAtLeastWide(col, 0.12 * width) && MostlyShort(lines, 45))
    || (IsTall(col) && |col| >= 8 && MostlyShort(lines, 35))
  }

  // -------------------------------------------------------------- what is measured

  lemma {:induction false} MidsAttained(col: seq<Glyph>)
    requires col != []
    ensures exists a | a in col :: YMid(a) == LowestMid(col)
    ensures exists b | b in col :: YMid(b) == HighestMid(col)
    ensures forall g | g in col :: LowestMid(col) <= YMid(g) <= HighestMid(col)
  {
    if |col| == 1 {
      assert col[0] in col;
    } else {
      MidsAttained(col[1..]);
      assert col == [col[0]] + col[1..];
      assert forall g :: g in col <==> g == col[0] || g in col[1..];
    }
  }

  /** The span compared with a width. */
  lemma SpanIs(col: seq<Glyph>, w: real)
    requires col != []
    ensures XSpan(col) >= w <==> IsAtLeastWide(col, w)
    ensures XSpan(col) > 0.0 <==> HasWidth(col)
  {
    EdgesAre(col);
    var a :| a in col && a.x0 == LowestX(col);
    var b :| b in col && b.x1 == HighestX(col);
    assert XSpan(col) == b.x1 - a.x0;
  }

  lemma HeightIs(col: seq<Glyph>)
    requires col != []
    ensures HighestMid(col) - LowestMid(col) > XSpan(col) * 3.5 <==> IsTall(col)
  {
    EdgesAre(col);
    MidsAttained(col);
    var c :| c in col && c.x0 == LowestX(col);
    var d :| d in col && d.x1 == HighestX(col);
    var l :| l in col && YMid(l) == LowestMid(col);
    var h :| h in col && YMid(h) == HighestMid(col);
    assert XSpan(col) == d.x1 - c.x0;
    forall height ensures HigherThanWide(col, height) <==> height > XSpan(col) * 3.5 {
      HigherThanSpan(col, height, c, d);
    }
    assert HigherThanWide(col, YMid(h) - YMid(l)) ==> IsTall(col);
  }

  lemma HigherThanSpan(col: seq<Glyph>, height: real, c: Glyph, d: Glyph)
    requires c in col && d in col && forall g | g in col :: c.x0 <= g.x0 && g.x1 <= d.x1
    ensures HigherThanWide(col, height) <==> height > (d.x1 - c.x0) * 3.5
  {
  }

  lemma {:induction false} CountShortNext(lines: seq<Line>, line: Line)
    ensures CountShort(lines + [line]) == CountShort(lines) + if |line.text| <= 2 then 1 else 0
  {
    if lines == [] {
      assert [] + [line] == [line] && [line][1..] == [];
    } else {
      CountShortNext(lines[1..], line);
      assert (lines + [line])[1..] == lines[1..] + [line];
    }
  }

  lemma ShortLinesNext(lines: seq<Line>, line: Line)
    ensures |ShortLines(lines + [line])| == |ShortLines(lines)| + if |line.text| <= 2 then 1 else 0
  {
    var before, after := ShortLines(lines), ShortLines(lines + [line]);
    assert forall i: nat | i < |lines| :: (lines + [line])[i] == lines[i];
    if |line.text| <= 2 {
      assert after == before + {|lines|};
    } else {
      assert after == before;
    }
  }

  lemma {:induction false} CountShortIs(lines: seq<Line>)
    ensures CountShort(lines) == |ShortLines(lines)|
  {
    if lines == [] {
      assert ShortLines(lines) == {};
    } else {
      var last := |lines| - 1;
      assert lines == lines[..last] + [lines[last]];
      CountShortIs(lines[..last]);
      CountShortNext(lines[..last], lines[last]);
      ShortLinesNext(lines[..last], lines[last]);
    }
  }

  lemma FractionIs(lines: seq<Line>, percent: nat)
    requires percent > 0
    ensures SingleLineFraction(lines) >= percent as real / 100.0 <==> MostlyShort(lines, percent)
  {
    CountShortIs(lines);
    if lines != [] {
      var c, n := CountShort(lines), |lines|;
      RatioOrder(c as real, n as real, percent as real / 100.0);
      assert Times(percent as real / 100.0, n as real) * 100.0 == percent as real * n as real;
      assert (percent * n) as real == percent as real * n as real;
      assert (100 * c) as real == 100.0 * c as real;
    }
  }

  lemma NarrowIs(col: seq<Glyph>, width: real)
    requires col != [] && width > 0.0
    ensures XSpan(col) / width < MARGIN_COL_WIDTH_RATIO <==> !IsAtLeastWide(col, 0.12 * width)
  {
    RatioOrder(XSpan(col), width, 0.12);
    SpanIs(col, 0.12 * width);
  }

  lemma ShapeIs(col: seq<Glyph>, lines: seq<Line>, width: real)
    requires col != [] && width > 0.0
    ensures IsArtifactShape(XSpan(col), HighestMid(col) - LowestMid(col), |col|, SingleLineFraction(lines), width)
      <==> IsStrip(col, lines, width)
  {
    SpanIs(col, 0.0);
    NarrowIs(col, width);
    HeightIs(col);
    FractionIs(lines, 45);
    FractionIs(lines, 35);
  }

  lemma ArtifactIsStrip(col: seq<Glyph>, lines: seq<Line>, width: real)
    ensures IsArtifact(col, lines, width) == IsStrip(col, lines, width)
  {
    if col != [] && width > 0.0 {
      ShapeIs(col, lines, width);
    }
  }

  /** The code's test for strips, in coordinates. */
  lemma StripIs(col: seq<Glyph>, width: real)
    ensures Artifact(width)(col) == IsStrip(col, TextLinesOf(col), width)
  {
    ArtifactIsStrip(col, TextLinesOf(col), width);
  }

  // --------------------------------------------------------------- what is read

  lemma DroppedOrRead(cols: seq<seq<Glyph>>, drop: seq<Glyph> -> bool, kept: seq<Glyph>, col: seq<Glyph>)
    requires kept in cols && !drop(kept)
    ensures col in Chosen(cols, drop) <==> col in cols && !drop(col)
  {
    assert kept in Without(cols, drop);
  }

  lemma {:induction false} AllDropped(cols: seq<seq<Glyph>>, drop: seq<Glyph> -> bool)
    requires forall c | c in cols :: drop(c)
    ensures Without(cols, drop) == []
  {
    if cols != [] {
      assert cols[0] in cols;
      AllDropped(cols[1..], drop);
    }
  }

  lemma {:induction false} NoneDropped(cols: seq<seq<Glyph>>, drop: seq<Glyph> -> bool)
    requires forall c | c in cols :: !drop(c)
    ensures Without(cols, drop) == cols
  {
    if cols != [] {
      assert cols[0] in cols;
      NoneDropped(cols[1..], drop);
    }
  }

  ghost predicate IsFirstWidest(cols: seq<seq<Glyph>>, k: int) {
    && 0 <= k < |cols|
    && (forall i | 0 <= i < |cols| :: XSpan(cols[i]) <= XSpan(cols[k]))
    && (forall i | 0 <= i < k :: XSpan(cols[i]) < XSpan(cols[k]))
  }

  lemma WidestRead(cols: seq<seq<Glyph>>, drop: seq<Glyph> -> bool)
    requires cols != [] && forall c | c in cols :: drop(c)
    ensures exists k :: IsFirstWidest(cols, k) && Chosen(cols, drop) == [cols[k]]
  {
    AllDropped(cols, drop);
    var k := WidestColumn(cols);
    assert |cols| == 1 ==> cols == [cols[0]];
    assert IsFirstWidest(cols, k) && Chosen(cols, drop) == [cols[k]];
  }

  ghost predicate AllStrips(cols: seq<seq<Glyph>>, width: real) {
    forall c | c in cols :: IsStrip(c, TextLinesOf(c), width)
  }

  lemma StripsAreArtifacts(cols: seq<seq<Glyph>>, width: real)
    requires AllStrips(cols, width)
    ensures forall c | c in cols :: Artifact(width)(c)
  {
    forall c | c in cols ensures Artifact(width)(c) {
      StripIs(c, width);
    }
  }

  /** If every column is a strip, the first of the widest is read. */
  lemma ReadWidest(chars: seq<Glyph>, scale: real, width: real)
    requires AllStrips(SplitColumns(chars, scale, width, 0), width)
    ensures var cols := SplitColumns(chars, scale, width, 0);
      exists k :: IsFirstWidest(cols, k) && ReadingColumns(chars, scale, width) == [cols[k]]
  {
    SplitNotEmpty(chars, scale, width, 0);
    StripsAreArtifacts(SplitColumns(chars, scale, width, 0), width);
    WidestRead(SplitColumns(chars, scale, width, 0), Artifact(width));
  }

  /** A text column: at least 12 percent of the page wide, and its centres at most
      three and a half widths apart. */
  ghost predicate IsTextColumn(col: seq<Glyph>, width: real) {
    IsAtLeastWide(col, 0.12 * width) && !IsTall(col)
  }

  lemma TextColumnIsNoStrip(col: seq<Glyph>, lines: seq<Line>, width: real)
    requires width > 0.0 && IsTextColumn(col, width)
    ensures !IsStrip(col, lines, width)
  {
    var a, b :| a in col && b in col && b.x1 - a.x0 >= 0.12 * width;
    assert b.x1 - a.x0 > 0.0;
  }

  lemma TextColumnKept(col: seq<Glyph>, width: real)
    requires width > 0.0 && IsTextColumn(col, width)
    ensures !Artifact(width)(col)
  {
    StripIs(col, width);
    TextColumnIsNoStrip(col, TextLinesOf(col), width);
  }

  /** Every text column is read. */
  lemma TextColumnsRead(chars: seq<Glyph>, scale: real, width: real, col: seq<Glyph>)
    requires width > 0.0 && col in SplitColumns(chars, scale, width, 0) && IsTextColumn(col, width)
    ensures col in ReadingColumns(chars, scale, width)
  {
    TextColumnKept(col, width);
    ReadingColumnsKept(chars, scale, width);
  }

  lemma LongLinesKept(col: seq<Glyph>, width: real)
    requires width > 0.0 && HasWidth(col) && !MostlyShort(TextLinesOf(col), 35)
    ensures !Artifact(width)(col)
  {
    StripIs(col, width);
    LongLinesAreNoStrip(col, TextLinesOf(col), width);
  }

  lemma LongLinesAreNoStrip(col: seq<Glyph>, lines: seq<Line>, width: real)
    requires width > 0.0 && HasWidth(col) && !MostlyShort(lines, 35)
    ensures !IsStrip(col, lines, width)
  {
  }

  /** So is every column of positive width of which fewer than 35 percent of the text
      lines have at most two characters. */
  lemma LongLinesRead(chars: seq<Glyph>, scale: real, width: real, col: seq<Glyph>)
    requires width > 0.0 && col in SplitColumns(chars, scale, width, 0)
    requires HasWidth(col) && !MostlyShort(TextLinesOf(col), 35)
    ensures col in ReadingColumns(chars, scale, width)
  {
    LongLinesKept(col, width);
    ReadingColumnsKept(chars, scale, width);
  }

  /** Every column that is no strip is read. */
  lemma NoStripRead(chars: seq<Glyph>, scale: real, width: real, col: seq<Glyph>)
    requires col in SplitColumns(chars, scale, width, 0) && !IsStrip(col, TextLinesOf(col), width)
    ensures col in ReadingColumns(chars, scale, width)
  {
    StripIs(col, width);
    ReadingColumnsKept(chars, scale, width);
  }

  /** Beside a text column no strip is read. A strip is a column narrower than 12
      percent of the page of which 45 percent of the text lines have at most two
      characters, or vertical text: at least eight glyphs, more than three and a half
      times as tall as wide, with 35 percent such lines. */
  lemma StripDropped(chars: seq<Glyph>, scale: real, width: real, text: seq<Glyph>, strip: seq<Glyph>)
    requires width > 0.0 && text in SplitColumns(chars, scale, width, 0) && IsTextColumn(text, width)
    requires IsStrip(strip, TextLinesOf(strip), width)
    ensures strip !in ReadingColumns(chars, scale, width)
  {
    TextColumnKept(text, width);
    StripIs(strip, width);
    DroppedBeside(chars, scale, width, text, strip);
  }

  lemma DroppedBeside(chars: seq<Glyph>, scale: real, width: real, kept: seq<Glyph>, col: seq<Glyph>)
    requires kept in SplitColumns(chars, scale, width, 0) && !Artifact(width)(kept) && Artifact(width)(col)
    ensures col !in ReadingColumns(chars, scale, width)
  {
    DroppedOrRead(SplitColumns(chars, scale, width, 0), Artifact(width), kept, col);
  }

  /** If the page has only text columns, and the histogram path does not apply, its
      text carries every glyph of the page once, in reading order. */
  lemma AllColumnsRead(chars: seq<Glyph>, scale: real, width: real, settings: Settings)
    requires width > 0.0 && HistogramGroups(chars, width, settings).None?
    requires forall c | c in SplitColumns(chars, scale, width, 0) :: IsTextColumn(c, width)
    ensures var cols := SplitColumns(chars, scale, width, 0);
      && AddsOnlyHeadings(PageMarkdown(chars, scale, width, settings), cols, settings.detect)
      && multiset(PageOrder(cols)) == multiset(chars)
  {
    var cols := SplitColumns(chars, scale, width, 0);
    forall c | c in cols ensures !Artifact(width)(c) {
      TextColumnKept(c, width);
    }
    SplitNotEmpty(chars, scale, width, 0);
    NoneDropped(cols, Artifact(width));
    GutterPathConserves(chars, scale, width, settings);
  }
}
