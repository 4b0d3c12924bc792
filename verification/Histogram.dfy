/** Column detection by the histogram of glyph centres: the number of columns,
    the column boundaries, and why the two passes over the histogram agree. */
module Histogram {
  import opened Glyphs
  import opened Numbers
  import opened Ordering
  import opened Text
  import opened Wrappers

  const BINS := 40

  /** The bin of a centre. A negative list index counts from the end of the
      histogram, and one before its start raises IndexError: None. */
  function BinOf(centre: real, binWidth: real): (bin: Option<nat>)
    requires binWidth > 0.0
    ensures bin.Some? ==> bin.value < BINS
  {
    var t := Truncated(centre / binWidth);
    var index := if t < BINS - 1 then t else BINS - 1;
    if index >= 0 then Some(index) else if index >= -BINS then Some(BINS + index) else None
  }

  /** The strip of the page that belongs to a bin. */
  predicate InStrip(centre: real, binWidth: real, bin: nat) {
    bin as real * binWidth <= centre < (bin + 1) as real * binWidth
  }

  /** The histogram raises exactly for centres 41 bins or more left of the page. */
  lemma RaisesLeftOfPage(centre: real, binWidth: real)
    requires binWidth > 0.0
    ensures BinOf(centre, binWidth).None? <==> centre <= -41.0 * binWidth
  {
    RatioOrder(centre, binWidth, -41.0);
  }

  /** A centre is counted in the strip that holds it exactly when it lies on the
      page. */
  lemma BinIsStrip(centre: real, binWidth: real)
    requires binWidth > 0.0
    ensures (exists bin: nat :: BinOf(centre, binWidth) == Some(bin) && InStrip(centre, binWidth, bin)) <==>
      0.0 <= centre < 40.0 * binWidth
  {
    var ratio := centre / binWidth;
    RatioOrder(centre, binWidth, 0.0);
    RatioOrder(centre, binWidth, 40.0);
    forall bin: nat | BinOf(centre, binWidth) == Some(bin)
      ensures InStrip(centre, binWidth, bin) <==> bin as real <= ratio < bin as real + 1.0
    {
      RatioOrder(centre, binWidth, bin as real);
      RatioOrder(centre, binWidth, bin as real + 1.0);
    }
    if 0.0 <= ratio < 40.0 {
      assert BinOf(centre, binWidth) == Some(ratio.Floor as nat);
    }
  }

  /** Where the other centres are counted: right of the page in the last bin, less
      than a bin left of it in the first, and k bins left of it in the k-th bin
      from the right. */
  lemma BinsOffPage(centre: real, binWidth: real, k: nat)
    requires binWidth > 0.0 && 1 <= k <= BINS
    ensures centre >= 40.0 * binWidth ==> BinOf(centre, binWidth) == Some(BINS - 1)
    ensures -binWidth < centre < 0.0 ==> BinOf(centre, binWidth) == Some(0)
    ensures -((k + 1) as real) * binWidth < centre <= -(k as real) * binWidth ==>
      BinOf(centre, binWidth) == Some(BINS - k)
  {
    RatioOrder(centre, binWidth, 40.0);
    RatioOrder(centre, binWidth, 0.0);
    RatioOrder(centre, binWidth, -1.0);
    RatioOrder(centre, binWidth, -(k as real));
    RatioOrder(centre, binWidth, -(k as real) - 1.0);
  }

  function CountIn(chars: seq<Glyph>, binWidth: real, bin: nat): nat
    requires binWidth > 0.0
  {
    if chars == [] then 0
    else (if BinOf(XMid(chars[0]), binWidth) == Some(bin) then 1 else 0) + CountIn(chars[1..], binWidth, bin)
  }

  predicate AllBinned(chars: seq<Glyph>, binWidth: real)
    requires binWidth > 0.0
  {
    forall g | g in chars :: BinOf(XMid(g), binWidth).Some?
  }

  function Counts(chars: seq<Glyph>, binWidth: real): (h: seq<nat>)
    requires binWidth > 0.0
    ensures |h| == BINS
  {
    seq(BINS, bin requires 0 <= bin < BINS => CountIn(chars, binWidth, bin))
  }

  lemma {:induction false} CountInNext(chars: seq<Glyph>, g: Glyph, binWidth: real, bin: nat)
    requires binWidth > 0.0
    ensures CountIn(chars + [g], binWidth, bin)
      == CountIn(chars, binWidth, bin) + if BinOf(XMid(g), binWidth) == Some(bin) then 1 else 0
  {
    if chars == [] {
      assert [] + [g] == [g] && [g][1..] == [];
    } else {
      CountInNext(chars[1..], g, binWidth, bin);
      assert (chars + [g])[1..] == chars[1..] + [g];
    }
  }

  /** The histogram; None when a centre lies too far left of the page. */
  function PageHistogram(chars: seq<Glyph>, binWidth: real): (h: Option<seq<nat>>)
    requires binWidth > 0.0
    ensures h.Some? ==> |h.value| == BINS
  {
    if AllBinned(chars, binWidth) then Some(Counts(chars, binWidth)) else None
  }

  method FillHistogram(chars: seq<Glyph>, binWidth: real) returns (h: Option<seq<nat>>)
    requires binWidth > 0.0
    ensures h == PageHistogram(chars, binWidth)
  {
    var histogram := new nat[BINS](_ => 0);
    for i := 0 to |chars|
      invariant AllBinned(chars[..i], binWidth)
      invariant forall b | 0 <= b < BINS :: histogram[b] == CountIn(chars[..i], binWidth, b)
    {
      assert chars[..i + 1] == chars[..i] + [chars[i]];
      forall b | 0 <= b < BINS
        ensures CountIn(chars[..i + 1], binWidth, b)
          == CountIn(chars[..i], binWidth, b) + if BinOf(XMid(chars[i]), binWidth) == Some(b) then 1 else 0
      {
        CountInNext(chars[..i], chars[i], binWidth, b);
      }
      match BinOf(XMid(chars[i]), binWidth)
      case None =>
        assert chars[i] in chars;
        return None;
      case Some(bin) =>
        histogram[bin] := histogram[bin] + 1;
    }
    assert chars[..|chars|] == chars;
    assert histogram[..] == Counts(chars, binWidth);
    return Some(histogram[..]);
  }

  // ----------------------------------------------------------------- valleys

  function AsReals(h: seq<nat>): (r: seq<real>)
    ensures |r| == |h|
  {
    seq(|h|, i requires 0 <= i < |h| => h[i] as real)
  }

  function ValleyThreshold(h: seq<nat>): real
    requires h != []
  {
    MaxReal(1.0, Median(AsReals(h)) * 0.3)
  }

  /** A local minimum with a low count. */
  predicate IsValley(h: seq<nat>, i: nat, threshold: real)
    requires 0 < i < |h| - 1
  {
    h[i] as real <= threshold && h[i] < h[i - 1] && h[i] < h[i + 1]
  }

  /** A valley between two bins that are not low themselves. */
  predicate IsDeepValley(h: seq<nat>, i: nat, threshold: real)
    requires 0 < i < |h| - 1
  {
    IsValley(h, i, threshold) && h[i - 1] as real > threshold && h[i + 1] as real > threshold
  }

  /** The x coordinate of the middle of a bin. */
  function Centre(i: nat, binWidth: real): real { i as real * binWidth + binWidth / 2.0 }

  datatype Valley = Valley(x: real, count: nat)

  function DeepValleysFrom(h: seq<nat>, i: nat, threshold: real, binWidth: real): (xs: seq<real>)
    requires |h| == BINS && 2 <= i <= BINS - 2
    decreases BINS - i
  {
    if i == BINS - 2 then []
    else
      var rest := DeepValleysFrom(h, i + 1, threshold, binWidth);
      if IsDeepValley(h, i, threshold) then [Centre(i, binWidth)] + rest else rest
  }

  function ValleysFrom(h: seq<nat>, i: nat, threshold: real, binWidth: real): (vs: seq<Valley>)
    requires |h| == BINS && 2 <= i <= BINS - 2
    decreases BINS - i
  {
    if i == BINS - 2 then []
    else
      var rest := ValleysFrom(h, i + 1, threshold, binWidth);
      if IsValley(h, i, threshold) then [Valley(Centre(i, binWidth), h[i])] + rest else rest
  }

  function DeepValleys(h: seq<nat>, binWidth: real): seq<real>
    requires |h| == BINS
  {
    DeepValleysFrom(h, 2, ValleyThreshold(h), binWidth)
  }

  function Valleys(h: seq<nat>, binWidth: real): seq<Valley>
    requires |h| == BINS
  {
    ValleysFrom(h, 2, ValleyThreshold(h), binWidth)
  }

  /** Drops valleys closer than minGap to the last one kept. */
  function SpacedFrom(kept: seq<real>, valleys: seq<real>, minGap: real): seq<real>
    decreases |valleys|
  {
    if valleys == [] then kept
    else if kept == [] || valleys[0] - kept[|kept| - 1] >= minGap then
      SpacedFrom(kept + [valleys[0]], valleys[1..], minGap)
    else SpacedFrom(kept, valleys[1..], minGap)
  }

  // --------------------------------------------------------- number of columns

  /** One column more than there are deep valleys far enough apart, at most three. */
  function ColumnsBetween(valleys: seq<real>, minGap: real): (n: nat)
    ensures 1 <= n <= 3
  {
    if valleys == [] then 1
    else
      var n := |SpacedFrom([], valleys, minGap)| + 1;
      if n < 3 then n else 3
  }

  /** The number of columns of a page; None when the histogram raises. */
  function ColumnCount(chars: seq<Glyph>, pageWidth: real): (n: Option<nat>)
    ensures n.Some? ==> 1 <= n.value <= 3
  {
    if chars == [] || pageWidth <= 0.0 then Some(1)
    else
      var binWidth := pageWidth / BINS as real;
      match PageHistogram(chars, binWidth)
      case None => None
      case Some(h) => Some(ColumnsBetween(DeepValleys(h, binWidth), pageWidth * 0.04))
  }

  method DetectColumnCount(chars: seq<Glyph>, pageWidth: real) returns (n: Option<nat>)
    ensures n == ColumnCount(chars, pageWidth)
  {
    if chars == [] || pageWidth <= 0.0 {
      return Some(1);
    }
    var binWidth := pageWidth / BINS as real;
    var filled := FillHistogram(chars, binWidth);
    if filled.None? {
      return None;
    }
    var valleys := ListDeepValleys(filled.value, binWidth);
    var count := CountColumns(valleys, pageWidth * 0.04);
    return Some(count);
  }

  method CountColumns(valleys: seq<real>, minGap: real) returns (n: nat)
    ensures n == ColumnsBetween(valleys, minGap)
  {
    if valleys == [] {
      return 1;
    }
    var kept := SpaceOut(valleys, minGap);
    var count := |kept| + 1;
    return if count < 3 then count else 3;
  }

  method ListDeepValleys(h: seq<nat>, binWidth: real) returns (valleys: seq<real>)
    requires |h| == BINS
    ensures valleys == DeepValleys(h, binWidth)
  {
    var threshold := ValleyThreshold(h);
    valleys := [];
    for i := 2 to BINS - 2
      invariant valleys + DeepValleysFrom(h, i, threshold, binWidth) == DeepValleysFrom(h, 2, threshold, binWidth)
    {
      if IsDeepValley(h, i, threshold) {
        Associate(valleys, [Centre(i, binWidth)], DeepValleysFrom(h, i + 1, threshold, binWidth));
        valleys := valleys + [Centre(i, binWidth)];
      }
    }
  }

  method SpaceOut(valleys: seq<real>, minGap: real) returns (filtered: seq<real>)
    ensures filtered == SpacedFrom([], valleys, minGap)
  {
    filtered := [];
    for i := 0 to |valleys|
      invariant SpacedFrom(filtered, valleys[i..], minGap) == SpacedFrom([], valleys, minGap)
    {
      assert valleys[i..][0] == valleys[i] && valleys[i..][1..] == valleys[i + 1..];
      if filtered == [] || valleys[i] - filtered[|filtered| - 1] >= minGap {
        filtered := filtered + [valleys[i]];
      }
    }
  }

  /** Listed in steps of at least the given size. */
  ghost predicate StepsOf(xs: seq<real>, step: real) {
    forall i | 0 <= i < |xs| - 1 :: xs[i + 1] - xs[i] >= step
  }

  /** Deep valleys are two bins apart: a neighbour of one is too high. */
  lemma {:induction false} DeepValleysApart(h: seq<nat>, i: nat, threshold: real, binWidth: real)
    requires |h| == BINS && 2 <= i <= BINS - 2 && binWidth > 0.0
    ensures var xs := DeepValleysFrom(h, i, threshold, binWidth);
      && StepsOf(xs, 2.0 * binWidth)
      && (xs != [] ==> xs[0] >= Centre(i, binWidth))
      && (xs != [] && !IsDeepValley(h, i, threshold) ==> xs[0] >= Centre(i + 1, binWidth))
    decreases BINS - i
  {
    if i < BINS - 2 {
      DeepValleysApart(h, i + 1, threshold, binWidth);
      assert Centre(i + 1, binWidth) == Centre(i, binWidth) + binWidth;
      assert Centre(i + 2, binWidth) == Centre(i, binWidth) + 2.0 * binWidth;
      if IsDeepValley(h, i, threshold) {
        assert i + 1 < BINS - 2 ==> !IsDeepValley(h, i + 1, threshold);
      }
    }
  }

  lemma {:induction false} SpacedKeepsAll(kept: seq<real>, valleys: seq<real>, minGap: real)
    requires StepsOf(kept + valleys, minGap)
    ensures SpacedFrom(kept, valleys, minGap) == kept + valleys
    decreases |valleys|
  {
    if valleys != [] {
      var all := kept + valleys;
      assert kept != [] ==> all[|kept|] - all[|kept| - 1] >= minGap;
      assert kept + [valleys[0]] + valleys[1..] == all;
      SpacedKeepsAll(kept + [valleys[0]], valleys[1..], minGap);
    }
  }

  /** The 4 percent filter never removes a valley: valleys are at least two
      bins, 5 percent of the page, apart. */
  lemma FilterRemovesNothing(h: seq<nat>, pageWidth: real)
    requires |h| == BINS && pageWidth > 0.0
    ensures var valleys := DeepValleys(h, pageWidth / BINS as real);
      SpacedFrom([], valleys, pageWidth * 0.04) == valleys
  {
    var binWidth := pageWidth / BINS as real;
    DeepValleysApart(h, 2, ValleyThreshold(h), binWidth);
    ApartIsSpaced(DeepValleys(h, binWidth), binWidth, pageWidth * 0.04);
  }

  lemma ApartIsSpaced(valleys: seq<real>, binWidth: real, minGap: real)
    requires StepsOf(valleys, 2.0 * binWidth) && minGap <= 2.0 * binWidth
    ensures SpacedFrom([], valleys, minGap) == valleys
  {
    assert [] + valleys == valleys;
    SpacedKeepsAll([], valleys, minGap);
  }

  // -------------------------------------------------------------- boundaries

  function ByCount(v: Valley): real { v.count as real }

  function ByPosition(v: Valley): real { v.x }

  function Positions(vs: seq<Valley>): (xs: seq<real>)
    ensures |xs| == |vs|
  {
    seq(|vs|, i requires 0 <= i < |vs| => vs[i].x)
  }

  function EvenDivision(pageWidth: real, n: nat): seq<real>
    requires n >= 1
  {
    seq(n - 1, i requires 0 <= i < n - 1 => pageWidth * (i + 1) as real / n as real)
  }

  /** The n - 1 boundaries: the valleys with the lowest counts, or an even
      division of the page if there are too few valleys. */
  function BoundariesOf(h: seq<nat>, pageWidth: real, n: nat): (b: seq<real>)
    requires |h| == BINS && n >= 1
    ensures |b| == n - 1
  {
    var vs := SortBy(Valleys(h, pageWidth / BINS as real), ByCount);
    if |vs| < n - 1 then EvenDivision(pageWidth, n)
    else SortBy(Positions(vs[..n - 1]), Same)
  }

  method ListValleys(h: seq<nat>, binWidth: real) returns (valleys: seq<Valley>)
    requires |h| == BINS
    ensures valleys == Valleys(h, binWidth)
  {
    var threshold := ValleyThreshold(h);
    valleys := [];
    for i := 2 to BINS - 2
      invariant valleys + ValleysFrom(h, i, threshold, binWidth) == ValleysFrom(h, 2, threshold, binWidth)
    {
      if IsValley(h, i, threshold) {
        Associate(valleys, [Valley(Centre(i, binWidth), h[i])], ValleysFrom(h, i + 1, threshold, binWidth));
        valleys := valleys + [Valley(Centre(i, binWidth), h[i])];
      }
    }
  }

  /** The boundaries for n columns; None when the histogram raises. */
  function ColumnBoundaries(chars: seq<Glyph>, pageWidth: real, n: nat): (b: Option<seq<real>>)
    requires pageWidth > 0.0 && n >= 1
    ensures b.Some? ==> |b.value| == n - 1
  {
    match PageHistogram(chars, pageWidth / BINS as real)
    case None => None
    case Some(h) => Some(BoundariesOf(h, pageWidth, n))
  }

  method FindColumnBoundaries(chars: seq<Glyph>, pageWidth: real, n: nat) returns (b: Option<seq<real>>)
    requires pageWidth > 0.0 && n >= 1
    ensures b == ColumnBoundaries(chars, pageWidth, n)
  {
    var binWidth := pageWidth / BINS as real;
    var filled := FillHistogram(chars, binWidth);
    if filled.None? {
      return None;
    }
    var valleys := ListValleys(filled.value, binWidth);
    var sorted := SortBy(valleys, ByCount);
    var selected := SortBy(Positions(if |sorted| < n - 1 then sorted else sorted[..n - 1]), Same);
    if |selected| < n - 1 {
      selected := EvenDivision(pageWidth, n);
    }
    return Some(selected);
  }

  /** Every deep valley is a valley. */
  lemma {:induction false} MoreValleys(h: seq<nat>, i: nat, threshold: real, binWidth: real)
    requires |h| == BINS && 2 <= i <= BINS - 2
    ensures |DeepValleysFrom(h, i, threshold, binWidth)| <= |ValleysFrom(h, i, threshold, binWidth)|
    decreases BINS - i
  {
    if i < BINS - 2 {
      MoreValleys(h, i + 1, threshold, binWidth);
    }
  }

  ghost predicate Increasing(xs: seq<real>) {
    forall i, j | 0 <= i < j < |xs| :: xs[i] < xs[j]
  }

  /** Listed by increasing position, from x on. */
  ghost predicate IncreasingX(vs: seq<Valley>, x: real) {
    && (forall k | 0 <= k < |vs| :: x <= vs[k].x)
    && (forall k, l | 0 <= k < l < |vs| :: vs[k].x < vs[l].x)
  }

  lemma {:induction false} ValleysIncreasing(h: seq<nat>, i: nat, threshold: real, binWidth: real)
    requires |h| == BINS && 2 <= i <= BINS - 2 && binWidth > 0.0
    ensures IncreasingX(ValleysFrom(h, i, threshold, binWidth), Centre(i, binWidth))
    decreases BINS - i
  {
    if i < BINS - 2 {
      ValleysIncreasing(h, i + 1, threshold, binWidth);
      assert Centre(i + 1, binWidth) == Centre(i, binWidth) + binWidth;
    }
  }

  /** The two passes agree: for the column count detected on the same glyphs
      there are enough valleys, so the even division is never used, and the
      boundaries are strictly increasing valley positions. */
  lemma PassesAgree(chars: seq<Glyph>, pageWidth: real)
    requires pageWidth > 0.0 && ColumnCount(chars, pageWidth).Some?
    requires ColumnCount(chars, pageWidth).value >= 2
    ensures var n := ColumnCount(chars, pageWidth).value;
      var h := Counts(chars, pageWidth / BINS as real);
      && |Valleys(h, pageWidth / BINS as real)| >= n - 1
      && ColumnBoundaries(chars, pageWidth, n).Some?
      && Increasing(ColumnBoundaries(chars, pageWidth, n).value)
  {
    var n := ColumnCount(chars, pageWidth).value;
    var binWidth := pageWidth / BINS as real;
    var h := Counts(chars, binWidth);
    FilterRemovesNothing(h, pageWidth);
    MoreValleys(h, 2, ValleyThreshold(h), binWidth);
    SelectedIncrease(h, pageWidth, n);
  }

  lemma SelectedIncrease(h: seq<nat>, pageWidth: real, n: nat)
    requires |h| == BINS && pageWidth > 0.0 && n >= 1
    requires |Valleys(h, pageWidth / BINS as real)| >= n - 1
    ensures Increasing(BoundariesOf(h, pageWidth, n))
  {
    var binWidth := pageWidth / BINS as real;
    ValleysIncreasing(h, 2, ValleyThreshold(h), binWidth);
    var valleys := Valleys(h, binWidth);
    SortDistinct(valleys, ByCount, ByPosition);
    SortIncreasing(Positions(SortBy(valleys, ByCount)[..n - 1]), Same);
  }

  /** x is the position of a valley, and no valley whose position is not chosen
      has a lower count. */
  ghost predicate LowestChosen(valleys: seq<Valley>, chosen: seq<real>, x: real) {
    exists v :: v in valleys && v.x == x && NoneLower(valleys, chosen, v.count)
  }

  ghost predicate NoneLower(valleys: seq<Valley>, chosen: seq<real>, count: nat) {
    forall w | w in valleys && w.x !in chosen :: count <= w.count
  }

  lemma FirstAreLowest(vs: seq<Valley>, k: nat, i: nat)
    requires SortedBy(vs, ByCount) && i < k <= |vs|
    ensures NoneLower(vs, Positions(vs[..k]), vs[i].count)
  {
    assert forall j | 0 <= j < k :: Positions(vs[..k])[j] == vs[j].x;
    forall w | w in vs && w.x !in Positions(vs[..k]) ensures vs[i].count <= w.count {
      var j :| 0 <= j < |vs| && vs[j] == w;
      assert ByCount(vs[i]) <= ByCount(vs[j]);
    }
  }

  /** The boundaries are the positions of the lowest valleys. */
  lemma LowestValleysSelected(h: seq<nat>, pageWidth: real, n: nat, x: real)
    requires |h| == BINS && pageWidth > 0.0 && n >= 1
    requires |Valleys(h, pageWidth / BINS as real)| >= n - 1
    requires x in BoundariesOf(h, pageWidth, n)
    ensures LowestChosen(Valleys(h, pageWidth / BINS as real), BoundariesOf(h, pageWidth, n), x)
  {
    var valleys := Valleys(h, pageWidth / BINS as real);
    var vs := SortBy(valleys, ByCount);
    var chosen := Positions(vs[..n - 1]);
    SortMembers(valleys, ByCount);
    SortMembers(chosen, Same);
    var i :| 0 <= i < |chosen| && chosen[i] == x;
    FirstAreLowest(vs, n - 1, i);
    assert vs[i] in valleys && NoneLower(valleys, BoundariesOf(h, pageWidth, n), vs[i].count);
  }
}
