/** The valleys of the glyph histogram, bin by bin, and the number of columns that
    they make. */
module ColumnValleys {
  import opened Glyphs
  import opened Histogram
  import opened Ordering
  import opened Wrappers

  /** At most one glyph, or at most three tenths of the median count. */
  ghost predicate IsLow(h: seq<nat>, i: nat)
    requires i < |h|
  {
    h[i] <= 1 || 10.0 * h[i] as real <= 3.0 * Median(AsReals(h))
  }

  /** A low bin, lower than both neighbours; the two outermost bins on each side of the
      page do not count. */
  ghost predicate IsDip(h: seq<nat>, i: nat)
    requires |h| == BINS
  {
    2 <= i < 38 && IsLow(h, i) && h[i] < h[i - 1] && h[i] < h[i + 1]
  }

  /** One whose neighbours are not low. */
  ghost predicate IsDeepDip(h: seq<nat>, i: nat)
    requires |h| == BINS
  {
    IsDip(h, i) && !IsLow(h, i - 1) && !IsLow(h, i + 1)
  }

  lemma LowIs(h: seq<nat>, i: nat)
    requires i < |h|
    ensures h[i] as real <= ValleyThreshold(h) <==> IsLow(h, i)
  {
  }

  lemma DipIs(h: seq<nat>, i: nat)
    requires |h| == BINS && 2 <= i < 38
    ensures IsValley(h, i, ValleyThreshold(h)) <==> IsDip(h, i)
    ensures IsDeepValley(h, i, ValleyThreshold(h)) <==> IsDeepDip(h, i)
  {
    LowIs(h, i - 1);
    LowIs(h, i);
    LowIs(h, i + 1);
  }

  /** The middle of bin i. */
  ghost predicate IsMiddle(x: real, i: nat, binWidth: real) { x == (i as real + 0.5) * binWidth }

  lemma CentreIs(i: nat, binWidth: real)
    ensures IsMiddle(Centre(i, binWidth), i, binWidth)
  {
    assert (i as real + 0.5) * binWidth == i as real * binWidth + 0.5 * binWidth;
  }

  ghost predicate ValleyOf(h: seq<nat>, binWidth: real, v: Valley, i: nat)
    requires |h| == BINS
  {
    IsDip(h, i) && IsMiddle(v.x, i, binWidth) && v.count == h[i]
  }

  lemma {:induction false} ValleysFromAre(h: seq<nat>, i: nat, binWidth: real, v: Valley)
    requires |h| == BINS && 2 <= i <= 38
    ensures v in ValleysFrom(h, i, ValleyThreshold(h), binWidth) <==>
      exists k: nat :: i <= k && ValleyOf(h, binWidth, v, k)
    decreases BINS - i
  {
    if i < 38 {
      ValleysFromAre(h, i + 1, binWidth, v);
      DipIs(h, i);
      CentreIs(i, binWidth);
      var rest := ValleysFrom(h, i + 1, ValleyThreshold(h), binWidth);
      var here := Valley(Centre(i, binWidth), h[i]);
      if IsDip(h, i) {
        assert v in ValleysFrom(h, i, ValleyThreshold(h), binWidth) <==> v == here || v in rest;
        assert v == here <==> ValleyOf(h, binWidth, v, i);
      }
      if k: nat :| i <= k && ValleyOf(h, binWidth, v, k) {
        assert k == i || i + 1 <= k;
      }
    }
  }

  /** The valleys from which the boundaries are taken are the dips, at the middles of
      their bins. */
  lemma ValleysAre(h: seq<nat>, binWidth: real, v: Valley)
    requires |h| == BINS
    ensures v in Valleys(h, binWidth) <==> exists k: nat :: ValleyOf(h, binWidth, v, k)
  {
    ValleysFromAre(h, 2, binWidth, v);
  }

  ghost function DeepDips(h: seq<nat>, i: nat): set<nat>
    requires |h| == BINS
  {
    set k: nat | i <= k < BINS && IsDeepDip(h, k)
  }

  lemma {:induction false} DeepFromCount(h: seq<nat>, i: nat, binWidth: real)
    requires |h| == BINS && 2 <= i <= 38
    ensures |DeepValleysFrom(h, i, ValleyThreshold(h), binWidth)| == |DeepDips(h, i)|
    decreases BINS - i
  {
    if i == 38 {
      assert DeepDips(h, i) == {};
    } else {
      DeepFromCount(h, i + 1, binWidth);
      DipIs(h, i);
      DeepDipsNext(h, i);
    }
  }

  lemma DeepDipsNext(h: seq<nat>, i: nat)
    requires |h| == BINS && i < BINS
    ensures DeepDips(h, i) == (if IsDeepDip(h, i) then {i} else {}) + DeepDips(h, i + 1)
  {
  }

  lemma DeepCount(h: seq<nat>, binWidth: real)
    requires |h| == BINS
    ensures |DeepValleys(h, binWidth)| == |DeepDips(h, 0)|
  {
    DeepFromCount(h, 2, binWidth);
    assert DeepDips(h, 0) == DeepDips(h, 2);
  }

  lemma ColumnsOf(valleys: seq<real>, minGap: real)
    requires SpacedFrom([], valleys, minGap) == valleys
    ensures ColumnsBetween(valleys, minGap) == if |valleys| >= 2 then 3 else |valleys| + 1
  {
  }

  lemma CountFromHistogram(chars: seq<Glyph>, pageWidth: real, h: seq<nat>, binWidth: real)
    requires chars != [] && pageWidth > 0.0 && |h| == BINS && binWidth == pageWidth / BINS as real
    requires PageHistogram(chars, binWidth) == Some(h)
    ensures ColumnCount(chars, pageWidth) == Some(ColumnsBetween(DeepValleys(h, binWidth), pageWidth * 0.04))
  {
  }

  lemma NothingFiltered(h: seq<nat>, pageWidth: real, binWidth: real)
    requires |h| == BINS && pageWidth > 0.0 && binWidth == pageWidth / BINS as real
    ensures SpacedFrom([], DeepValleys(h, binWidth), pageWidth * 0.04) == DeepValleys(h, binWidth)
  {
    FilterRemovesNothing(h, pageWidth);
  }

  /** A page has one column more than its histogram has deep dips, at most three. */
  lemma ColumnCountIs(chars: seq<Glyph>, pageWidth: real, binWidth: real, h: seq<nat>)
    requires chars != [] && pageWidth > 0.0 && binWidth == pageWidth / 40.0 && |h| == BINS
    requires PageHistogram(chars, binWidth) == Some(h)
    ensures var n := |DeepDips(h, 0)|;
      ColumnCount(chars, pageWidth) == Some(if n >= 2 then 3 else n + 1)
  {
    CountFromHistogram(chars, pageWidth, h, binWidth);
    NothingFiltered(h, pageWidth, binWidth);
    DipsCounted(h, binWidth, pageWidth * 0.04);
  }

  lemma DipsCounted(h: seq<nat>, binWidth: real, minGap: real)
    requires |h| == BINS && SpacedFrom([], DeepValleys(h, binWidth), minGap) == DeepValleys(h, binWidth)
    ensures var n := |DeepDips(h, 0)|;
      ColumnsBetween(DeepValleys(h, binWidth), minGap) == if n >= 2 then 3 else n + 1
  {
    DeepCount(h, binWidth);
    ColumnsOf(DeepValleys(h, binWidth), minGap);
  }

  /** Counting columns raises exactly if some centre lies a whole page and one
      bin left of the page. */
  lemma CountRaises(chars: seq<Glyph>, pageWidth: real)
    requires pageWidth > 0.0
    ensures ColumnCount(chars, pageWidth).None? <==>
      exists g | g in chars :: 40.0 * (g.x0 + g.x1) <= -82.0 * pageWidth
  {
    var binWidth := pageWidth / BINS as real;
    forall g ensures BinOf(XMid(g), binWidth).None? <==> 40.0 * (g.x0 + g.x1) <= -82.0 * pageWidth {
      RaisesLeftOfPage(XMid(g), binWidth);
    }
  }
}
