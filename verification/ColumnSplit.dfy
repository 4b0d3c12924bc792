/** Column detection by gutters: the recursive widest-gap split of a page into
    columns, and the single sweep it is equal to. */
module ColumnSplit {
  import opened Glyphs
  import opened Ordering
  import opened Wrappers

  // ------------------------------------------------------------ clean gaps

  datatype Gap = Gap(left: real, right: real) {
    function Width(): real { right - left }
    function Cut(): real { left + Width() / 2.0 }
  }

  /** A clean gap: a strip at least minGap wide between the right edge of one
      glyph and the left edge of another that no glyph enters. */
  ghost predicate CleanGap(chars: seq<Glyph>, minGap: real, gap: Gap) {
    && gap.Width() >= minGap
    && gap.left < gap.right
    && (exists g | g in chars :: g.x1 == gap.left)
    && (exists g | g in chars :: g.x0 == gap.right)
    && forall g | g in chars :: g.x1 <= gap.left || gap.right <= g.x0
  }

  /** Gaps listed from left to right. */
  ghost predicate LeftToRight(gaps: seq<Gap>) {
    && (forall i | 0 <= i < |gaps| :: gaps[i].left < gaps[i].right)
    && (forall i, j | 0 <= i < j < |gaps| :: gaps[i].right <= gaps[j].left)
  }

  /** One sweep over glyphs sorted by left edge; covered is the right-most edge
      seen so far. */
  function SweepGaps(sorted: seq<Glyph>, covered: real, minGap: real): seq<Gap> {
    if sorted == [] then []
    else
      var gap := Gap(covered, sorted[0].x0);
      var rest := SweepGaps(sorted[1..], MaxReal(covered, sorted[0].x1), minGap);
      if gap.Width() >= minGap && gap.Width() > 0.0 then [gap] + rest else rest
  }

  /** All clean gaps of a page, from left to right. */
  function Gaps(chars: seq<Glyph>, minGap: real): seq<Gap> {
    if chars == [] then []
    else
      var s := SortBy(chars, LeftEdge);
      SweepGaps(s[1..], s[0].x1, minGap)
  }

  lemma {:induction false} SweepOrdered(sorted: seq<Glyph>, covered: real, minGap: real)
    requires WellFormed(sorted) && SortedBy(sorted, LeftEdge)
    ensures LeftToRight(SweepGaps(sorted, covered, minGap))
    ensures forall gap | gap in SweepGaps(sorted, covered, minGap) :: covered <= gap.left
  {
    if sorted != [] {
      SweepOrdered(sorted[1..], MaxReal(covered, sorted[0].x1), minGap);
      assert sorted[0] in sorted;
    }
  }

  /** The sweep finds exactly the clean gaps right of the covered part. */
  lemma {:induction false} SweepExact(
    before: seq<Glyph>, sorted: seq<Glyph>, covered: real, minGap: real, gap: Gap)
    requires WellFormed(before) && WellFormed(sorted) && SortedBy(sorted, LeftEdge)
    requires exists g | g in before :: g.x1 == covered
    requires forall g | g in before :: g.x1 <= covered
    ensures gap in SweepGaps(sorted, covered, minGap)
      <==> CleanGap(before + sorted, minGap, gap) && covered <= gap.left
    decreases |sorted|
  {
    var all := before + sorted;
    if sorted == [] {
      assert all == before;
    } else {
      var next := sorted[0];
      var covered' := MaxReal(covered, next.x1);
      var before' := before + [next];
      assert before' + sorted[1..] == all;
      assert next in before' && next in sorted && next in all;
      var w :| w in before && w.x1 == covered;
      assert w in before' && w in all;
      forall g | g in sorted ensures next.x0 <= g.x0 <= g.x1 {
        var i :| 0 <= i < |sorted| && sorted[i] == g;
        assert LeftEdge(sorted[0]) <= LeftEdge(sorted[i]);
      }
      SweepExact(before', sorted[1..], covered', minGap, gap);
      var first := Gap(covered, next.x0);
      if gap == first && gap.Width() >= minGap && gap.Width() > 0.0 {
        assert forall g | g in all :: g in before || g in sorted;
        assert CleanGap(all, minGap, gap);
      }
      if CleanGap(all, minGap, gap) && covered <= gap.left && gap.left < covered' {
        GapAtNext(before, sorted, covered, minGap, gap);
      }
    }
  }

  /** A clean gap that starts before the next glyph ends where the glyph begins. */
  lemma GapAtNext(before: seq<Glyph>, sorted: seq<Glyph>, covered: real, minGap: real, gap: Gap)
    requires WellFormed(before) && sorted != [] && forall g | g in sorted :: sorted[0].x0 <= g.x0 <= g.x1
    requires forall g | g in before :: g.x1 <= covered
    requires CleanGap(before + sorted, minGap, gap) && covered <= gap.left < sorted[0].x1
    ensures gap == Gap(covered, sorted[0].x0)
  {
    var next, all := sorted[0], before + sorted;
    assert next in sorted && next in all;
    var r :| r in all && r.x0 == gap.right;
    var l :| l in all && l.x1 == gap.left;
    assert r in before || r in sorted;
    assert l in before || l in sorted;
  }

  /** Only the set of glyphs matters for a clean gap. */
  lemma CleanGapMembers(a: seq<Glyph>, b: seq<Glyph>, minGap: real, gap: Gap)
    requires forall g :: g in a <==> g in b
    requires CleanGap(a, minGap, gap)
    ensures CleanGap(b, minGap, gap)
  {
    var l :| l in a && l.x1 == gap.left;
    var r :| r in a && r.x0 == gap.right;
    assert l in b && r in b;
  }

  /** No clean gap starts left of the first glyph's right edge. */
  lemma GapAfterFirst(s: seq<Glyph>, minGap: real, gap: Gap)
    requires s != [] && WellFormed(s) && SortedBy(s, LeftEdge) && CleanGap(s, minGap, gap)
    ensures s[0].x1 <= gap.left
  {
    var l :| l in s && l.x1 == gap.left;
    var i :| 0 <= i < |s| && s[i] == l;
    assert LeftEdge(s[0]) <= LeftEdge(s[i]);
    assert s[0] in s;
  }

  lemma GapsOrdered(chars: seq<Glyph>, minGap: real)
    requires WellFormed(chars)
    ensures LeftToRight(Gaps(chars, minGap))
  {
    if chars != [] {
      var s := SortBy(chars, LeftEdge);
      SortMembers(chars, LeftEdge);
      SweepOrdered(s[1..], s[0].x1, minGap);
    }
  }

  /** Gaps lists exactly the clean gaps, left to right. */
  lemma GapsExact(chars: seq<Glyph>, minGap: real)
    requires WellFormed(chars)
    ensures LeftToRight(Gaps(chars, minGap))
    ensures forall gap :: gap in Gaps(chars, minGap) <==> CleanGap(chars, minGap, gap)
  {
    if chars != [] {
      var s := SortBy(chars, LeftEdge);
      SortMembers(chars, LeftEdge);
      SweepOrdered(s[1..], s[0].x1, minGap);
      forall gap ensures gap in Gaps(chars, minGap) <==> CleanGap(chars, minGap, gap) {
        assert [s[0]] + s[1..] == s;
        SweepExact([s[0]], s[1..], s[0].x1, minGap, gap);
        if CleanGap(s, minGap, gap) {
          GapAfterFirst(s, minGap, gap);
          CleanGapMembers(s, chars, minGap, gap);
        }
        if CleanGap(chars, minGap, gap) {
          CleanGapMembers(chars, s, minGap, gap);
          GapAfterFirst(s, minGap, gap);
        }
      }
    }
  }

  /** Two left-to-right lists with the same gaps are the same list. */
  lemma {:induction false} SameGaps(a: seq<Gap>, b: seq<Gap>)
    requires LeftToRight(a) && LeftToRight(b)
    requires forall gap :: gap in a <==> gap in b
    ensures a == b
  {
    if a != [] { assert a[0] in b; }
    if b != [] { assert b[0] in a; }
    if a != [] {
      assert a[0] == b[0];
      forall gap ensures gap in a[1..] <==> gap in b[1..] {
        if gap in a[1..] {
          assert gap in b && gap != b[0];
        }
        if gap in b[1..] {
          assert gap in a && gap != a[0];
        }
      }
      SameGaps(a[1..], b[1..]);
    }
  }

  // ------------------------------------------------------------ the best gap

  /** The position of the first of the widest gaps. */
  function Widest(gaps: seq<Gap>): (k: nat)
    requires gaps != []
    ensures k < |gaps|
    ensures forall i | 0 <= i < |gaps| :: gaps[i].Width() <= gaps[k].Width()
    ensures forall i | 0 <= i < k :: gaps[i].Width() < gaps[k].Width()
  {
    if |gaps| == 1 then 0
    else
      var k := Widest(gaps[1..]);
      if gaps[0].Width() >= gaps[k + 1].Width() then 0 else k + 1
  }

  /** The coordinate at which a page is cut, if it has a clean gap. */
  function BestCut(chars: seq<Glyph>, minGap: real): Option<real> {
    var gaps := Gaps(chars, minGap);
    if gaps == [] then None else Some(gaps[Widest(gaps)].Cut())
  }

  /** The rest of the scan of FindSplit from a given loop state. */
  ghost function Scan(sorted: seq<Glyph>, covered: real, minGap: real, bestGap: real, bestCut: Option<real>)
    : Option<real>
  {
    if sorted == [] then bestCut
    else
      var gap := sorted[0].x0 - covered;
      var covered' := if sorted[0].x1 > covered then sorted[0].x1 else covered;
      if gap >= minGap && gap > bestGap then Scan(sorted[1..], covered', minGap, gap, Some(covered + gap / 2.0))
      else Scan(sorted[1..], covered', minGap, bestGap, bestCut)
  }

  lemma WidestOfCons(gap: Gap, rest: seq<Gap>)
    ensures Widest([gap] + rest) ==
      if rest == [] || gap.Width() >= rest[Widest(rest)].Width() then 0 else Widest(rest) + 1
  {
    assert ([gap] + rest)[1..] == rest;
  }

  /** The scan keeps the first widest of the gaps still to come, if it beats
      the best one so far. */
  lemma {:induction false} ScanIsWidest(
    sorted: seq<Glyph>, covered: real, minGap: real, bestGap: real, bestCut: Option<real>)
    requires bestGap >= 0.0
    ensures var gaps := SweepGaps(sorted, covered, minGap);
      Scan(sorted, covered, minGap, bestGap, bestCut)
      == if gaps != [] && gaps[Widest(gaps)].Width() > bestGap then Some(gaps[Widest(gaps)].Cut()) else bestCut
  {
    if sorted != [] {
      var covered' := MaxReal(covered, sorted[0].x1);
      var gap := Gap(covered, sorted[0].x0);
      var rest := SweepGaps(sorted[1..], covered', minGap);
      if gap.Width() >= minGap && gap.Width() > bestGap {
        ScanIsWidest(sorted[1..], covered', minGap, gap.Width(), Some(gap.Cut()));
      } else {
        ScanIsWidest(sorted[1..], covered', minGap, bestGap, bestCut);
      }
      WidestOfCons(gap, rest);
    }
  }

  /** cut is the middle of the widest clean gap, the left-most of equally wide
      ones; it is absent when there is no clean gap. */
  ghost predicate IsWidestCut(items: seq<Glyph>, minGap: real, cut: Option<real>) {
    match cut
    case None => forall gap :: !CleanGap(items, minGap, gap)
    case Some(x) => exists gap :: CleanGap(items, minGap, gap) && gap.Cut() == x && Dominates(items, minGap, gap)
  }

  ghost predicate Dominates(items: seq<Glyph>, minGap: real, gap: Gap) {
    forall other | CleanGap(items, minGap, other) ::
      other.Width() < gap.Width() || (other.Width() == gap.Width() && gap.left <= other.left)
  }

  lemma BestCutIsWidest(items: seq<Glyph>, minGap: real)
    requires WellFormed(items)
    ensures IsWidestCut(items, minGap, BestCut(items, minGap))
  {
    GapsExact(items, minGap);
    var gaps := Gaps(items, minGap);
    if gaps == [] {
      assert forall gap :: gap !in gaps;
    } else {
      var k := Widest(gaps);
      assert gaps[k] in gaps;
      WidestDominates(items, minGap, gaps, k);
    }
  }

  lemma WidestDominates(items: seq<Glyph>, minGap: real, gaps: seq<Gap>, k: nat)
    requires LeftToRight(gaps) && k < |gaps|
    requires forall gap :: CleanGap(items, minGap, gap) ==> gap in gaps
    requires forall i | 0 <= i < |gaps| :: gaps[i].Width() <= gaps[k].Width()
    requires forall i | 0 <= i < k :: gaps[i].Width() < gaps[k].Width()
    ensures Dominates(items, minGap, gaps[k])
  {
    forall other | CleanGap(items, minGap, other)
      ensures other.Width() < gaps[k].Width() || (other.Width() == gaps[k].Width() && gaps[k].left <= other.left)
    {
      var i :| 0 <= i < |gaps| && gaps[i] == other;
    }
  }

  lemma ScanFromFirst(items: seq<Glyph>, minGap: real)
    requires items != []
    ensures var s := SortBy(items, LeftEdge);
      Scan(s[1..], s[0].x1, minGap, 0.0, None) == BestCut(items, minGap)
  {
    var s := SortBy(items, LeftEdge);
    ScanIsWidest(s[1..], s[0].x1, minGap, 0.0, None);
    SweepGapsPositive(s[1..], s[0].x1, minGap);
  }

  lemma {:induction false} SweepGapsPositive(sorted: seq<Glyph>, covered: real, minGap: real)
    ensures forall i | 0 <= i < |SweepGaps(sorted, covered, minGap)| ::
      SweepGaps(sorted, covered, minGap)[i].Width() > 0.0
  {
    if sorted != [] {
      SweepGapsPositive(sorted[1..], MaxReal(covered, sorted[0].x1), minGap);
    }
  }

  method FindSplit(items: seq<Glyph>, minGap: real) returns (cut: Option<real>)
    requires items != [] && WellFormed(items)
    ensures cut == BestCut(items, minGap)
    ensures IsWidestCut(items, minGap, cut)
  {
    var intervals := SortBy(items, LeftEdge);
    var curEnd := intervals[0].x1;
    var bestGap: real := 0.0;
    cut := None;
    for i := 1 to |intervals|
      invariant Scan(intervals[i..], curEnd, minGap, bestGap, cut)
        == Scan(intervals[1..], intervals[0].x1, minGap, 0.0, None)
    {
      assert intervals[i..][1..] == intervals[i + 1..];
      var gap := intervals[i].x0 - curEnd;
      if gap >= minGap && gap > bestGap {
        bestGap, cut := gap, Some(curEnd + gap / 2.0);
      }
      if intervals[i].x1 > curEnd {
        curEnd := intervals[i].x1;
      }
    }
    ScanFromFirst(items, minGap);
    BestCutIsWidest(items, minGap);
  }

  // -------------------------------------------------------------- the columns

  function LeftOf(chars: seq<Glyph>, cut: real): seq<Glyph> {
    if chars == [] then []
    else if XMid(chars[0]) < cut then [chars[0]] + LeftOf(chars[1..], cut)
    else LeftOf(chars[1..], cut)
  }

  function RightOf(chars: seq<Glyph>, cut: real): seq<Glyph> {
    if chars == [] then []
    else if XMid(chars[0]) >= cut then [chars[0]] + RightOf(chars[1..], cut)
    else RightOf(chars[1..], cut)
  }

  lemma {:induction false} SidesPartition(chars: seq<Glyph>, cut: real)
    ensures multiset(LeftOf(chars, cut)) + multiset(RightOf(chars, cut)) == multiset(chars)
    ensures forall g :: g in LeftOf(chars, cut) <==> g in chars && XMid(g) < cut
    ensures forall g :: g in RightOf(chars, cut) <==> g in chars && XMid(g) >= cut
  {
    if chars != [] {
      SidesPartition(chars[1..], cut);
      assert chars == [chars[0]] + chars[1..];
    }
  }

  /** Filters by two cuts commute. */
  lemma {:induction false} NestedSides(chars: seq<Glyph>, a: real, b: real)
    requires a < b
    ensures LeftOf(LeftOf(chars, b), a) == LeftOf(chars, a)
    ensures RightOf(LeftOf(chars, b), a) == LeftOf(RightOf(chars, a), b)
    ensures RightOf(RightOf(chars, a), b) == RightOf(chars, b)
  {
    if chars != [] {
      NestedSides(chars[1..], a, b);
      var c := chars[0];
      assert XMid(c) < b ==> ([c] + LeftOf(chars[1..], b))[1..] == LeftOf(chars[1..], b);
      assert XMid(c) >= a ==> ([c] + RightOf(chars[1..], a))[1..] == RightOf(chars[1..], a);
    }
  }

  /** No column may be narrower than this gutter. */
  function MinGutter(scale: real, width: real): real { MaxReal(scale * 2.5, width * 0.04) }

  /** The recursive split: cut at the widest gap, then split both halves. */
  function SplitColumns(chars: seq<Glyph>, scale: real, width: real, depth: nat): seq<seq<Glyph>>
    decreases 11 - depth
  {
    if |chars| <= 1 || depth > 10 then [chars]
    else
      match BestCut(chars, MinGutter(scale, width))
      case None => [chars]
      case Some(cut) =>
        var left := LeftOf(chars, cut);
        var right := RightOf(chars, cut);
        if left == [] || right == [] then [chars]
        else SplitColumns(left, scale, width, depth + 1) + SplitColumns(right, scale, width, depth + 1)
  }

  /** One pass from left to right that cuts at every listed gap. */
  function SweepColumns(chars: seq<Glyph>, gaps: seq<Gap>): (cols: seq<seq<Glyph>>)
    ensures |cols| == |gaps| + 1
    decreases |gaps|
  {
    if gaps == [] then [chars]
    else [LeftOf(chars, gaps[0].Cut())] + SweepColumns(RightOf(chars, gaps[0].Cut()), gaps[1..])
  }

  /** Sweeping over two lists of gaps, one left and one right of a gap, is
      cutting at that gap and sweeping over both halves. */
  lemma {:induction false} SweepAtGap(chars: seq<Glyph>, a: seq<Gap>, gap: Gap, b: seq<Gap>)
    requires LeftToRight(a + [gap] + b)
    ensures SweepColumns(chars, a + [gap] + b)
      == SweepColumns(LeftOf(chars, gap.Cut()), a) + SweepColumns(RightOf(chars, gap.Cut()), b)
    decreases |a|
  {
    var all := a + [gap] + b;
    var cut := gap.Cut();
    if a == [] {
      assert all[0] == gap && all[1..] == b;
    } else {
      var first := a[0].Cut();
      assert all[0] == a[0] && all[|a|] == gap;
      assert all[1..] == a[1..] + [gap] + b;
      assert LeftToRight(all[1..]);
      SweepAtGap(RightOf(chars, first), a[1..], gap, b);
      NestedSides(chars, first, cut);
    }
  }

  /** A clean gap separates the glyphs: whole glyphs on either side of the cut,
      and some glyph on each. */
  lemma CutSeparates(chars: seq<Glyph>, minGap: real, gap: Gap)
    requires WellFormed(chars) && CleanGap(chars, minGap, gap)
    ensures forall g | g in chars :: if XMid(g) < gap.Cut() then g.x1 <= gap.left else gap.right <= g.x0
    ensures exists g :: g in LeftOf(chars, gap.Cut())
    ensures exists g :: g in RightOf(chars, gap.Cut())
  {
    SidesPartition(chars, gap.Cut());
    var l :| l in chars && l.x1 == gap.left;
    var r :| r in chars && r.x0 == gap.right;
    assert l in LeftOf(chars, gap.Cut()) && r in RightOf(chars, gap.Cut());
  }

  /** Gaps left of a cut are the gaps of the left half. */
  lemma LeftGaps(chars: seq<Glyph>, minGap: real, gap: Gap, other: Gap)
    requires WellFormed(chars) && CleanGap(chars, minGap, gap)
    ensures CleanGap(LeftOf(chars, gap.Cut()), minGap, other)
      <==> CleanGap(chars, minGap, other) && other.right <= gap.left
  {
    var left := LeftOf(chars, gap.Cut());
    SidesPartition(chars, gap.Cut());
    CutSeparates(chars, minGap, gap);
    if CleanGap(left, minGap, other) {
      var l :| l in left && l.x1 == other.left;
      var r :| r in left && r.x0 == other.right;
      assert l in chars && r in chars;
    }
    if CleanGap(chars, minGap, other) && other.right <= gap.left {
      var l :| l in chars && l.x1 == other.left;
      var r :| r in chars && r.x0 == other.right;
      assert l in left;
      assert !(gap.right <= r.x0);
      assert r in left;
    }
  }

  /** Gaps right of a cut are the gaps of the right half. */
  lemma RightGaps(chars: seq<Glyph>, minGap: real, gap: Gap, other: Gap)
    requires WellFormed(chars) && CleanGap(chars, minGap, gap)
    ensures CleanGap(RightOf(chars, gap.Cut()), minGap, other)
      <==> CleanGap(chars, minGap, other) && gap.right <= other.left
  {
    var right := RightOf(chars, gap.Cut());
    SidesPartition(chars, gap.Cut());
    CutSeparates(chars, minGap, gap);
    if CleanGap(right, minGap, other) {
      var l :| l in right && l.x1 == other.left;
      var r :| r in right && r.x0 == other.right;
      assert l in chars && r in chars;
    }
    if CleanGap(chars, minGap, other) && gap.right <= other.left {
      var l :| l in chars && l.x1 == other.left;
      var r :| r in chars && r.x0 == other.right;
      assert !(l.x1 <= gap.left);
      assert l in right && r in right;
    }
  }

  /** Cutting at a gap leaves the earlier gaps to the left half. */
  lemma LeftHalfMember(chars: seq<Glyph>, minGap: real, k: nat, gap: Gap, other: Gap)
    requires WellFormed(chars) && k < |Gaps(chars, minGap)| && Gaps(chars, minGap)[k] == gap
    requires WellFormed(LeftOf(chars, gap.Cut()))
    ensures other in Gaps(LeftOf(chars, gap.Cut()), minGap) <==> other in Gaps(chars, minGap)[..k]
  {
    GapsExact(chars, minGap);
    GapsExact(LeftOf(chars, gap.Cut()), minGap);
    assert gap in Gaps(chars, minGap);
    LeftGaps(chars, minGap, gap, other);
    InPrefix(Gaps(chars, minGap), k, other);
  }

  lemma RightHalfMember(chars: seq<Glyph>, minGap: real, k: nat, gap: Gap, other: Gap)
    requires WellFormed(chars) && k < |Gaps(chars, minGap)| && Gaps(chars, minGap)[k] == gap
    requires WellFormed(RightOf(chars, gap.Cut()))
    ensures other in Gaps(RightOf(chars, gap.Cut()), minGap) <==> other in Gaps(chars, minGap)[k + 1..]
  {
    GapsExact(chars, minGap);
    GapsExact(RightOf(chars, gap.Cut()), minGap);
    assert gap in Gaps(chars, minGap);
    RightGaps(chars, minGap, gap, other);
    InPrefix(Gaps(chars, minGap), k, other);
  }

  lemma LeftHalfGaps(chars: seq<Glyph>, minGap: real, k: nat, gap: Gap)
    requires WellFormed(chars) && k < |Gaps(chars, minGap)| && Gaps(chars, minGap)[k] == gap
    ensures WellFormed(LeftOf(chars, gap.Cut()))
    ensures Gaps(LeftOf(chars, gap.Cut()), minGap) == Gaps(chars, minGap)[..k]
  {
    var gaps := Gaps(chars, minGap);
    var left := LeftOf(chars, gap.Cut());
    SidesPartition(chars, gap.Cut());
    GapsOrdered(chars, minGap);
    GapsOrdered(left, minGap);
    var leftGaps, prefix := Gaps(left, minGap), gaps[..k];
    forall other ensures other in leftGaps <==> other in prefix {
      LeftHalfMember(chars, minGap, k, gap, other);
    }
    SameGaps(leftGaps, prefix);
  }

  /** Cutting at a gap leaves the later gaps to the right half. */
  lemma RightHalfGaps(chars: seq<Glyph>, minGap: real, k: nat, gap: Gap)
    requires WellFormed(chars) && k < |Gaps(chars, minGap)| && Gaps(chars, minGap)[k] == gap
    ensures WellFormed(RightOf(chars, gap.Cut()))
    ensures Gaps(RightOf(chars, gap.Cut()), minGap) == Gaps(chars, minGap)[k + 1..]
  {
    var gaps := Gaps(chars, minGap);
    var right := RightOf(chars, gap.Cut());
    SidesPartition(chars, gap.Cut());
    GapsOrdered(chars, minGap);
    GapsOrdered(right, minGap);
    var rightGaps, suffix := Gaps(right, minGap), gaps[k + 1..];
    forall other ensures other in rightGaps <==> other in suffix {
      RightHalfMember(chars, minGap, k, gap, other);
    }
    SameGaps(rightGaps, suffix);
  }

  lemma InPrefix(gaps: seq<Gap>, k: nat, gap: Gap)
    requires LeftToRight(gaps) && k < |gaps|
    ensures gap in gaps[..k] <==> gap in gaps && gap.right <= gaps[k].left
    ensures gap in gaps[k + 1..] <==> gap in gaps && gaps[k].right <= gap.left
  {
    if gap in gaps {
      var i :| 0 <= i < |gaps| && gaps[i] == gap;
      if i < k { assert gaps[..k][i] == gap; }
      if k < i { assert gaps[k + 1..][i - k - 1] == gap; }
    }
  }

  /** The order in which the recursion cuts: the widest gap at the root, the
      gaps left and right of it below. */
  datatype CutTree = Uncut | CutAt(left: CutTree, gap: Gap, right: CutTree)

  function TreeOf(gaps: seq<Gap>): (tree: CutTree)
    decreases |gaps|
  {
    if gaps == [] then Uncut
    else
      var k := Widest(gaps);
      CutAt(TreeOf(gaps[..k]), gaps[k], TreeOf(gaps[k + 1..]))
  }

  function Height(tree: CutTree): nat {
    match tree
    case Uncut => 0
    case CutAt(l, _, r) => 1 + if Height(l) >= Height(r) then Height(l) else Height(r)
  }

  /** The gaps on the first so many levels, from left to right. */
  function Cuts(tree: CutTree, levels: nat): seq<Gap>
    decreases tree
  {
    if levels == 0 || tree.Uncut? then []
    else Cuts(tree.left, levels - 1) + [tree.gap] + Cuts(tree.right, levels - 1)
  }

  /** The gaps that the recursion cuts at with the given number of levels left. */
  function KeptGaps(gaps: seq<Gap>, levels: nat): seq<Gap> { Cuts(TreeOf(gaps), levels) }

  /** The number of levels the recursion needs to cut at every gap. */
  function CutDepth(gaps: seq<Gap>): nat { Height(TreeOf(gaps)) }

  function Size(tree: CutTree): nat {
    match tree
    case Uncut => 0
    case CutAt(l, _, r) => Size(l) + 1 + Size(r)
  }

  lemma {:induction false} CutsWithin(tree: CutTree, levels: nat)
    ensures |Cuts(tree, levels)| <= Size(tree)
    ensures Height(tree) > levels ==> |Cuts(tree, levels)| < Size(tree)
    decreases tree
  {
    if levels > 0 && tree.CutAt? {
      CutsWithin(tree.left, levels - 1);
      CutsWithin(tree.right, levels - 1);
    }
  }

  /** All gaps of a tree, from left to right. */
  function InOrder(tree: CutTree): seq<Gap> {
    match tree
    case Uncut => []
    case CutAt(l, gap, r) => InOrder(l) + [gap] + InOrder(r)
  }

  lemma {:induction false} DeepEnough(tree: CutTree, levels: nat)
    requires Height(tree) <= levels
    ensures Cuts(tree, levels) == InOrder(tree)
    decreases tree
  {
    if tree.CutAt? {
      DeepEnough(tree.left, levels - 1);
      DeepEnough(tree.right, levels - 1);
    }
  }

  lemma AroundElement<T>(s: seq<T>, k: nat)
    requires k < |s|
    ensures s == s[..k] + [s[k]] + s[k + 1..]
  {
  }

  lemma InOrderStep(gaps: seq<Gap>)
    requires gaps != []
    ensures var k := Widest(gaps);
      InOrder(TreeOf(gaps)) == InOrder(TreeOf(gaps[..k])) + [gaps[k]] + InOrder(TreeOf(gaps[k + 1..]))
  {
  }

  lemma {:induction false} TreeInOrder(gaps: seq<Gap>)
    ensures InOrder(TreeOf(gaps)) == gaps
    decreases |gaps|
  {
    if gaps != [] {
      var k := Widest(gaps);
      TreeInOrder(gaps[..k]);
      TreeInOrder(gaps[k + 1..]);
      InOrderStep(gaps);
      AroundElement(gaps, k);
    }
  }

  lemma {:induction false} CutsAreInOrder(tree: CutTree, levels: nat, gap: Gap)
    requires gap in Cuts(tree, levels)
    ensures gap in InOrder(tree)
    decreases tree
  {
    if gap in Cuts(tree.left, levels - 1) {
      CutsAreInOrder(tree.left, levels - 1, gap);
    } else if gap in Cuts(tree.right, levels - 1) {
      CutsAreInOrder(tree.right, levels - 1, gap);
    }
  }

  /** The recursion cuts only at clean gaps. */
  lemma KeptAreGaps(gaps: seq<Gap>, levels: nat)
    ensures forall gap | gap in KeptGaps(gaps, levels) :: gap in gaps
  {
    forall gap | gap in KeptGaps(gaps, levels) ensures gap in gaps {
      CutsAreInOrder(TreeOf(gaps), levels, gap);
      TreeInOrder(gaps);
    }
  }

  lemma CutsEverything(gaps: seq<Gap>, levels: nat)
    ensures CutDepth(gaps) <= levels ==> KeptGaps(gaps, levels) == gaps
  {
    if CutDepth(gaps) <= levels {
      DeepEnough(TreeOf(gaps), levels);
      TreeInOrder(gaps);
    }
  }

  lemma {:induction false} TreeSize(gaps: seq<Gap>)
    ensures Size(TreeOf(gaps)) == |gaps| && CutDepth(gaps) <= |gaps|
    decreases |gaps|
  {
    if gaps != [] {
      var k := Widest(gaps);
      TreeSize(gaps[..k]);
      TreeSize(gaps[k + 1..]);
    }
  }

  ghost predicate Within(gaps: seq<Gap>, lo: real, hi: real) {
    && LeftToRight(gaps)
    && forall i | 0 <= i < |gaps| :: lo <= gaps[i].left && gaps[i].right <= hi
  }

  /** A search tree by position: left subtrees lie left of their root. */
  ghost predicate TreeWithin(tree: CutTree, lo: real, hi: real) {
    match tree
    case Uncut => true
    case CutAt(l, gap, r) =>
      && lo <= gap.left < gap.right <= hi
      && TreeWithin(l, lo, gap.left)
      && TreeWithin(r, gap.right, hi)
  }

  lemma {:induction false} TreeOfWithin(gaps: seq<Gap>, lo: real, hi: real)
    requires Within(gaps, lo, hi)
    ensures TreeWithin(TreeOf(gaps), lo, hi)
    decreases |gaps|
  {
    if gaps != [] {
      var k := Widest(gaps);
      TreeOfWithin(gaps[..k], lo, gaps[k].left);
      TreeOfWithin(gaps[k + 1..], gaps[k].right, hi);
    }
  }

  lemma WithinAround(a: seq<Gap>, gap: Gap, b: seq<Gap>, lo: real, hi: real)
    requires lo <= gap.left < gap.right <= hi
    requires Within(a, lo, gap.left) && Within(b, gap.right, hi)
    ensures Within(a + [gap] + b, lo, hi)
  {
    var all := a + [gap] + b;
    assert forall i | 0 <= i < |all| ::
        all[i] == if i < |a| then a[i] else if i == |a| then gap else b[i - |a| - 1];
  }

  lemma {:induction false} CutsOrdered(tree: CutTree, levels: nat, lo: real, hi: real)
    requires TreeWithin(tree, lo, hi)
    ensures Within(Cuts(tree, levels), lo, hi)
    decreases tree
  {
    if levels > 0 && tree.CutAt? {
      CutsOrdered(tree.left, levels - 1, lo, tree.gap.left);
      CutsOrdered(tree.right, levels - 1, tree.gap.right, hi);
      WithinAround(Cuts(tree.left, levels - 1), tree.gap, Cuts(tree.right, levels - 1), lo, hi);
    }
  }

  lemma KeptAreOrdered(gaps: seq<Gap>, levels: nat)
    requires LeftToRight(gaps)
    ensures LeftToRight(KeptGaps(gaps, levels))
  {
    if gaps != [] {
      var lo, hi := gaps[0].left, gaps[|gaps| - 1].right;
      TreeOfWithin(gaps, lo, hi);
      CutsOrdered(TreeOf(gaps), levels, lo, hi);
    }
  }

  /** One step of the recursion, in terms of the gaps it keeps. */
  lemma KeptStep(gaps: seq<Gap>, levels: nat)
    requires gaps != [] && levels > 0
    ensures var k := Widest(gaps);
      KeptGaps(gaps, levels) == KeptGaps(gaps[..k], levels - 1) + [gaps[k]] + KeptGaps(gaps[k + 1..], levels - 1)
  {
  }

  /** The recursive split is a left-to-right sweep over the gaps it has levels
      for. */
  lemma {:induction false} SplitIsSweep(
    chars: seq<Glyph>, scale: real, width: real, depth: nat, gaps: seq<Gap>)
    requires WellFormed(chars) && depth <= 11 && gaps == Gaps(chars, MinGutter(scale, width))
    ensures SplitColumns(chars, scale, width, depth) == SweepColumns(chars, KeptGaps(gaps, 11 - depth))
    decreases 11 - depth, 1
  {
    if |chars| <= 1 || depth > 10 || gaps == [] {
      SplitNothing(chars, scale, width, depth, gaps);
    } else {
      SplitHalves(chars, scale, width, depth, gaps);
      SplitMany(chars, scale, width, depth, gaps);
    }
  }

  lemma SplitMany(chars: seq<Glyph>, scale: real, width: real, depth: nat, gaps: seq<Gap>)
    requires WellFormed(chars) && |chars| > 1 && depth <= 10
    requires gaps == Gaps(chars, MinGutter(scale, width)) && gaps != []
    requires var k := Widest(gaps);
      var left, right := LeftOf(chars, gaps[k].Cut()), RightOf(chars, gaps[k].Cut());
      && SplitColumns(left, scale, width, depth + 1) == SweepColumns(left, KeptGaps(gaps[..k], 10 - depth))
      && SplitColumns(right, scale, width, depth + 1) == SweepColumns(right, KeptGaps(gaps[k + 1..], 10 - depth))
    ensures SplitColumns(chars, scale, width, depth) == SweepColumns(chars, KeptGaps(gaps, 11 - depth))
  {
    SplitStep(chars, scale, width, depth);
    GapsOrdered(chars, MinGutter(scale, width));
    JoinHalves(chars, gaps, 11 - depth);
  }

  lemma SplitNothing(chars: seq<Glyph>, scale: real, width: real, depth: nat, gaps: seq<Gap>)
    requires depth <= 11 && gaps == Gaps(chars, MinGutter(scale, width))
    requires |chars| <= 1 || depth > 10 || gaps == []
    ensures SplitColumns(chars, scale, width, depth) == [chars]
    ensures SweepColumns(chars, KeptGaps(gaps, 11 - depth)) == [chars]
  {
    if |chars| <= 1 {
      FewGlyphsNoGaps(chars, MinGutter(scale, width));
    }
  }

  lemma {:induction false} SplitHalves(
    chars: seq<Glyph>, scale: real, width: real, depth: nat, gaps: seq<Gap>)
    requires WellFormed(chars) && depth <= 10 && gaps == Gaps(chars, MinGutter(scale, width)) && gaps != []
    ensures var k := Widest(gaps);
      var left, right := LeftOf(chars, gaps[k].Cut()), RightOf(chars, gaps[k].Cut());
      && SplitColumns(left, scale, width, depth + 1) == SweepColumns(left, KeptGaps(gaps[..k], 10 - depth))
      && SplitColumns(right, scale, width, depth + 1) == SweepColumns(right, KeptGaps(gaps[k + 1..], 10 - depth))
    decreases 11 - depth, 0
  {
    var minGap := MinGutter(scale, width);
    var k := Widest(gaps);
    LeftHalfGaps(chars, minGap, k, gaps[k]);
    RightHalfGaps(chars, minGap, k, gaps[k]);
    SplitIsSweep(LeftOf(chars, gaps[k].Cut()), scale, width, depth + 1, gaps[..k]);
    SplitIsSweep(RightOf(chars, gaps[k].Cut()), scale, width, depth + 1, gaps[k + 1..]);
  }

  /** One step of the recursion. */
  lemma SplitStep(chars: seq<Glyph>, scale: real, width: real, depth: nat)
    requires WellFormed(chars) && |chars| > 1 && depth <= 10
    requires Gaps(chars, MinGutter(scale, width)) != []
    ensures var gaps := Gaps(chars, MinGutter(scale, width));
      var cut := gaps[Widest(gaps)].Cut();
      SplitColumns(chars, scale, width, depth)
      == SplitColumns(LeftOf(chars, cut), scale, width, depth + 1)
       + SplitColumns(RightOf(chars, cut), scale, width, depth + 1)
  {
    GuardNeverTaken(chars, MinGutter(scale, width));
  }

  lemma JoinHalves(chars: seq<Glyph>, gaps: seq<Gap>, levels: nat)
    requires LeftToRight(gaps) && gaps != [] && levels > 0
    ensures var k := Widest(gaps);
      SweepColumns(chars, KeptGaps(gaps, levels))
      == SweepColumns(LeftOf(chars, gaps[k].Cut()), KeptGaps(gaps[..k], levels - 1))
       + SweepColumns(RightOf(chars, gaps[k].Cut()), KeptGaps(gaps[k + 1..], levels - 1))
  {
    var k := Widest(gaps);
    KeptStep(gaps, levels);
    KeptAreOrdered(gaps, levels);
    SweepAtGap(chars, KeptGaps(gaps[..k], levels - 1), gaps[k], KeptGaps(gaps[k + 1..], levels - 1));
  }

  lemma FewGlyphsNoGaps(chars: seq<Glyph>, minGap: real)
    requires |chars| <= 1
    ensures Gaps(chars, minGap) == []
  {
    if chars != [] {
      assert |SortBy(chars, LeftEdge)| == 1;
    }
  }

  /** The recursion from depth 0 equals the full sweep over all clean gaps
      exactly when eleven levels are enough; eleven gaps always are few enough. */
  lemma SplitIsFullSweep(chars: seq<Glyph>, scale: real, width: real)
    requires WellFormed(chars)
    ensures var gaps := Gaps(chars, MinGutter(scale, width));
      && (SplitColumns(chars, scale, width, 0) == SweepColumns(chars, gaps) <==> CutDepth(gaps) <= 11)
      && (|gaps| <= 11 ==> SplitColumns(chars, scale, width, 0) == SweepColumns(chars, gaps))
  {
    var gaps := Gaps(chars, MinGutter(scale, width));
    SplitIsSweep(chars, scale, width, 0, gaps);
    CutsWithin(TreeOf(gaps), 11);
    CutsEverything(gaps, 11);
    TreeSize(gaps);
  }

  /** The emptiness guard of the recursion is never taken. */
  lemma GuardNeverTaken(chars: seq<Glyph>, minGap: real)
    requires WellFormed(chars) && BestCut(chars, minGap).Some?
    ensures var cut := BestCut(chars, minGap).value;
      && 0 < |LeftOf(chars, cut)| < |chars| && 0 < |RightOf(chars, cut)| < |chars|
      && forall g | g in chars :: g.x1 < cut || cut < g.x0
  {
    GapsExact(chars, minGap);
    var gaps := Gaps(chars, minGap);
    var gap := gaps[Widest(gaps)];
    assert gap in gaps;
    CutSeparates(chars, minGap, gap);
    SidesPartition(chars, gap.Cut());
    assert |multiset(LeftOf(chars, gap.Cut()))| + |multiset(RightOf(chars, gap.Cut()))| == |multiset(chars)|;
  }

  /** A column of the sweep holds the glyphs between two neighbouring gaps. */
  lemma {:induction false} ColumnBetweenGaps(chars: seq<Glyph>, minGap: real, gaps: seq<Gap>, k: nat, g: Glyph)
    requires WellFormed(chars) && LeftToRight(gaps) && k <= |gaps|
    requires forall gap | gap in gaps :: CleanGap(chars, minGap, gap)
    ensures g in SweepColumns(chars, gaps)[k] <==>
      && g in chars
      && (k > 0 ==> gaps[k - 1].right <= g.x0)
      && (k < |gaps| ==> g.x1 <= gaps[k].left)
    decreases k
  {
    if gaps != [] {
      var cut := gaps[0].Cut();
      SidesPartition(chars, cut);
      CutSeparates(chars, minGap, gaps[0]);
      if k > 0 {
        var right := RightOf(chars, cut);
        forall gap | gap in gaps[1..] ensures CleanGap(right, minGap, gap) {
          RightGaps(chars, minGap, gaps[0], gap);
        }
        ColumnBetweenGaps(right, minGap, gaps[1..], k - 1, g);
      }
    }
  }

  /** Every glyph of the page is in exactly one column. */
  lemma {:induction false} SplitConserves(chars: seq<Glyph>, scale: real, width: real, depth: nat)
    ensures multiset(Flatten(SplitColumns(chars, scale, width, depth))) == multiset(chars)
    decreases 11 - depth
  {
    var minGap := MinGutter(scale, width);
    if |chars| > 1 && depth <= 10 && BestCut(chars, minGap).Some? {
      var cut := BestCut(chars, minGap).value;
      var left, right := LeftOf(chars, cut), RightOf(chars, cut);
      SidesPartition(chars, cut);
      if left != [] && right != [] {
        SplitConserves(left, scale, width, depth + 1);
        SplitConserves(right, scale, width, depth + 1);
        var a, b := SplitColumns(left, scale, width, depth + 1), SplitColumns(right, scale, width, depth + 1);
        FlattenAppend(a, b);
        assert SplitColumns(chars, scale, width, depth) == a + b;
      }
    }
    FlattenOne(chars);
  }

  // ------------------------------------------------------ a page that is too deep

  /** Left edges of glyphs ten wide, with gaps of 25, 26, 27 and so on between
      them. */
  function Stair(k: nat): real { 35.0 * k as real + (k * k - k) as real / 2.0 }

  function StairGlyph(k: nat): Glyph { Glyph(k, Stair(k), 0.0, Stair(k) + 10.0, 10.0, "x") }

  function StairPage(n: nat): (chars: seq<Glyph>)
    ensures |chars| == n
  {
    seq(n, k requires 0 <= k < n => StairGlyph(k))
  }

  function StairGap(k: nat): Gap { Gap(Stair(k) + 10.0, Stair(k + 1)) }

  function StairGaps(n: nat): (gaps: seq<Gap>)
    ensures |gaps| == n
  {
    seq(n, k requires 0 <= k < n => StairGap(k))
  }

  lemma StairStep(k: nat)
    ensures Stair(k + 1) == Stair(k) + 35.0 + k as real
    ensures StairGap(k).Width() == 25.0 + k as real
  {
    assert (k + 1) * (k + 1) - (k + 1) == k * k - k + 2 * k;
  }

  lemma {:induction false} StairOrder(j: nat, k: nat)
    requires j < k
    ensures Stair(j) + 35.0 <= Stair(k)
  {
    StairStep(k - 1);
    if j < k - 1 {
      StairOrder(j, k - 1);
    }
  }

  lemma StairGapIsClean(n: nat, k: nat)
    requires k + 1 < n
    ensures CleanGap(StairPage(n), 25.0, StairGap(k))
  {
    var chars := StairPage(n);
    StairStep(k);
    assert chars[k] in chars && chars[k + 1] in chars;
    forall g | g in chars ensures g.x1 <= StairGap(k).left || StairGap(k).right <= g.x0 {
      var i :| 0 <= i < n && chars[i] == g;
      if i < k {
        StairOrder(i, k);
      } else if i > k + 1 {
        StairOrder(k + 1, i);
      }
    }
  }

  /** A clean gap lies between two stairs. */
  lemma StairGapEnds(n: nat, gap: Gap) returns (k: nat, m: nat)
    requires CleanGap(StairPage(n), 25.0, gap)
    ensures k < n && m < n && gap == Gap(Stair(k) + 10.0, Stair(m))
  {
    var chars := StairPage(n);
    var l :| l in chars && l.x1 == gap.left;
    var r :| r in chars && r.x0 == gap.right;
    k :| 0 <= k < n && chars[k] == l;
    m :| 0 <= m < n && chars[m] == r;
  }

  lemma StairGapsOnly(n: nat, gap: Gap) returns (k: nat)
    requires CleanGap(StairPage(n), 25.0, gap)
    ensures k + 1 < n && gap == StairGap(k)
  {
    var m: nat;
    k, m := StairGapEnds(n, gap);
    if m < k {
      StairOrder(m, k);
    }
    StairStep(k);
    assert StairPage(n)[k + 1] in StairPage(n);
    if m > k + 1 {
      StairOrder(k + 1, m);
    }
  }

  lemma StairGapsOrdered(n: nat)
    ensures LeftToRight(StairGaps(n))
  {
    var gaps := StairGaps(n);
    forall i | 0 <= i < n ensures gaps[i].left < gaps[i].right {
      StairStep(i);
    }
    forall i, j | 0 <= i < j < n ensures gaps[i].right <= gaps[j].left {
      if i + 1 < j {
        StairOrder(i + 1, j);
      }
    }
  }

  lemma StairGapIff(n: nat, gap: Gap)
    ensures gap in StairGaps(n) <==> CleanGap(StairPage(n + 1), 25.0, gap)
  {
    if gap in StairGaps(n) {
      var k :| 0 <= k < n && StairGaps(n)[k] == gap;
      StairGapIsClean(n + 1, k);
    }
    if CleanGap(StairPage(n + 1), 25.0, gap) {
      var k := StairGapsOnly(n + 1, gap);
      assert StairGaps(n)[k] == gap;
    }
  }

  /** The clean gaps of the page are the gaps between neighbours. */
  lemma GapsOfStair(n: nat)
    ensures WellFormed(StairPage(n + 1)) && Gaps(StairPage(n + 1), 25.0) == StairGaps(n)
  {
    var chars, gaps := StairPage(n + 1), StairGaps(n);
    GapsExact(chars, 25.0);
    forall gap ensures gap in gaps <==> CleanGap(chars, 25.0, gap) {
      StairGapIff(n, gap);
    }
    StairGapsOrdered(n);
    SameGaps(Gaps(chars, 25.0), gaps);
  }

  lemma WidestOfStair(n: nat)
    requires n > 0
    ensures Widest(StairGaps(n)) == n - 1
  {
    var k := Widest(StairGaps(n));
    StairStep(n - 1);
    StairStep(k);
    assert StairGaps(n)[n - 1].Width() <= StairGaps(n)[k].Width();
  }

  /** Gaps that widen to the right are cut one level after the other. */
  lemma {:induction false} StairDepth(n: nat)
    ensures CutDepth(StairGaps(n)) == n
  {
    if n > 0 {
      var gaps := StairGaps(n);
      WidestOfStair(n);
      assert gaps[..n - 1] == StairGaps(n - 1) && gaps[n..] == [];
      StairDepth(n - 1);
      LastIsWidest(gaps);
    }
  }

  lemma LastIsWidest(gaps: seq<Gap>)
    requires gaps != [] && Widest(gaps) == |gaps| - 1
    ensures CutDepth(gaps) == CutDepth(gaps[..|gaps| - 1]) + 1
  {
    var k := |gaps| - 1;
    TreeAtWidest(gaps);
    DepthOfCut(TreeOf(gaps[..k]), gaps[k]);
  }

  lemma TreeAtWidest(gaps: seq<Gap>)
    requires gaps != [] && Widest(gaps) == |gaps| - 1
    ensures TreeOf(gaps) == CutAt(TreeOf(gaps[..|gaps| - 1]), gaps[|gaps| - 1], Uncut)
  {
    var k := |gaps| - 1;
    var after := gaps[k + 1..];
    assert after == [];
    assert TreeOf(after) == Uncut;
  }

  lemma DepthOfCut(left: CutTree, gap: Gap)
    ensures Height(CutAt(left, gap, Uncut)) == Height(left) + 1
  {
  }

  lemma KeptFewer(gaps: seq<Gap>)
    ensures CutDepth(gaps) > 11 ==> |KeptGaps(gaps, 11)| < |gaps|
  {
    CutsWithin(TreeOf(gaps), 11);
    TreeSize(gaps);
  }

  /** A page on which the recursion stops too early has fewer columns than its
      gaps allow. */
  lemma TooDeep(chars: seq<Glyph>, scale: real, width: real, gaps: seq<Gap>)
    requires WellFormed(chars) && gaps == Gaps(chars, MinGutter(scale, width)) && CutDepth(gaps) > 11
    ensures |SplitColumns(chars, scale, width, 0)| < |SweepColumns(chars, gaps)|
  {
    SplitIsSweep(chars, scale, width, 0, gaps);
    KeptFewer(gaps);
  }

  lemma TooDeepStair(n: nat)
    requires n > 11
    ensures var chars := StairPage(n + 1);
      var gaps := Gaps(chars, MinGutter(10.0, 600.0));
      && WellFormed(chars) && |gaps| == n && CutDepth(gaps) == n
      && |SplitColumns(chars, 10.0, 600.0, 0)| < |SweepColumns(chars, gaps)|
  {
    GapsOfStair(n);
    StairDepth(n);
    TooDeep(StairPage(n + 1), 10.0, 600.0, StairGaps(n));
  }

  lemma StairFits(n: nat, g: Glyph)
    requires n <= 14 && g in StairPage(n + 1)
    ensures 0.0 <= g.x0 && g.x1 <= 600.0
  {
    var i :| 0 <= i < n + 1 && StairPage(n + 1)[i] == g;
    StairOrder(i, 15);
    if i > 0 {
      StairOrder(0, i);
    }
  }

  /** Pages 600 wide, of thirteen to fifteen glyphs ten wide and ten high, on which
      the recursion stops before it has cut at every clean gap. */
  lemma TooDeepPage(n: nat)
    requires 12 <= n <= 14
    ensures var chars := StairPage(n + 1);
      var gaps := Gaps(chars, MinGutter(10.0, 600.0));
      && WellFormed(chars) && (forall g | g in chars :: 0.0 <= g.x0 && g.x1 <= 600.0)
      && |gaps| == n && CutDepth(gaps) == n
      && |SplitColumns(chars, 10.0, 600.0, 0)| < |SweepColumns(chars, gaps)|
  {
    TooDeepStair(n);
    forall g | g in StairPage(n + 1) ensures 0.0 <= g.x0 && g.x1 <= 600.0 {
      StairFits(n, g);
    }
  }
}
