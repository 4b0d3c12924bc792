/** The gutters of a page in coordinates, and which glyphs share a column.
    Source: docreader/parser/pdf_parser.py. */
module Gutters {
  import opened Glyphs
  import opened Ordering
  import opened ColumnSplit

  /** A strip between the right edge of a glyph and the left edge of another
      that no glyph enters, at least 2.5 scales and four percent of the page wide. */
  ghost predicate IsGutter(chars: seq<Glyph>, scale: real, width: real, gap: Gap) {
    && gap.right - gap.left >= 2.5 * scale && gap.right - gap.left >= width / 25.0 && gap.left < gap.right
    && (exists a, b | a in chars && b in chars :: a.x1 == gap.left && b.x0 == gap.right)
    && forall g | g in chars :: g.x1 <= gap.left || gap.right <= g.x0
  }

  /** The gap lies between the two glyphs. */
  predicate Between(a: Glyph, b: Glyph, gap: Gap) { a.x1 <= gap.left && gap.right <= b.x0 }

  ghost predicate Separates(chars: seq<Glyph>, scale: real, width: real, gap: Gap, a: Glyph, b: Glyph) {
    IsGutter(chars, scale, width, gap) && (Between(a, b, gap) || Between(b, a, gap))
  }

  /** The swept gaps are the gutters of the page. */
  lemma GuttersAre(chars: seq<Glyph>, scale: real, width: real, gap: Gap)
    requires WellFormed(chars)
    ensures gap in Gaps(chars, MinGutter(scale, width)) <==> IsGutter(chars, scale, width, gap)
  {
    GapsExact(chars, MinGutter(scale, width));
    assert gap in Gaps(chars, MinGutter(scale, width)) <==> CleanGap(chars, MinGutter(scale, width), gap);
  }

  /** Unless the page is cut too deep, two glyphs share a column exactly when
      no gutter lies between them. */
  lemma SameColumnExactly(chars: seq<Glyph>, scale: real, width: real, a: Glyph, b: Glyph)
    requires WellFormed(chars) && a in chars && b in chars
    requires CutDepth(Gaps(chars, MinGutter(scale, width))) <= 11
    ensures (exists col | col in SplitColumns(chars, scale, width, 0) :: a in col && b in col) <==>
      !exists gap :: Separates(chars, scale, width, gap, a, b)
  {
    var gaps := Gaps(chars, MinGutter(scale, width));
    var cols := SplitColumns(chars, scale, width, 0);
    SplitIsFullSweep(chars, scale, width);
    GapsExact(chars, MinGutter(scale, width));
    if col :| col in cols && a in col && b in col {
      var k :| 0 <= k < |cols| && cols[k] == col;
      ColumnBetweenGaps(chars, MinGutter(scale, width), gaps, k, a);
      ColumnBetweenGaps(chars, MinGutter(scale, width), gaps, k, b);
      forall gap | IsGutter(chars, scale, width, gap) ensures !Between(a, b, gap) && !Between(b, a, gap) {
        GuttersAre(chars, scale, width, gap);
        NotBetween(chars, gaps, k, a, b, gap);
        NotBetween(chars, gaps, k, b, a, gap);
      }
    } else {
      var k := OwnColumn(chars, scale, width, a);
      ColumnBetweenGaps(chars, MinGutter(scale, width), gaps, k, a);
      ColumnBetweenGaps(chars, MinGutter(scale, width), gaps, k, b);
      assert cols[k] in cols;
      var gap := if k > 0 && b.x0 < gaps[k - 1].right then gaps[k - 1] else gaps[k];
      GuttersAre(chars, scale, width, gap);
      assert Separates(chars, scale, width, gap, a, b);
    }
  }

  lemma OwnColumn(chars: seq<Glyph>, scale: real, width: real, g: Glyph) returns (k: nat)
    requires g in chars
    ensures k < |SplitColumns(chars, scale, width, 0)| && g in SplitColumns(chars, scale, width, 0)[k]
  {
    var cols := SplitColumns(chars, scale, width, 0);
    SplitConserves(chars, scale, width, 0);
    assert g in multiset(Flatten(cols));
    FlattenMembers(cols, g);
    k :| k < |cols| && g in cols[k];
  }

  /** No gap lies between two glyphs of column k. */
  lemma NotBetween(chars: seq<Glyph>, gaps: seq<Gap>, k: nat, a: Glyph, b: Glyph, gap: Gap)
    requires WellFormed(chars) && a in chars && b in chars && LeftToRight(gaps) && k <= |gaps| && gap in gaps
    requires k > 0 ==> gaps[k - 1].right <= a.x0
    requires k < |gaps| ==> b.x1 <= gaps[k].left
    ensures !Between(a, b, gap)
  {
    var j :| 0 <= j < |gaps| && gaps[j] == gap;
    if j < k {
      assert j < k - 1 ==> gaps[j].right <= gaps[k - 1].left;
    } else {
      assert k < j ==> gaps[k].right <= gaps[j].left;
    }
  }
}
