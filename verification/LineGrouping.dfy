/** Lines of a column: greedy grouping of glyphs by baseline, and why no other
    grouping needs fewer lines. */
module LineGrouping {
  import opened Glyphs
  import opened Ordering

  function MedianHeight(chars: seq<Glyph>): (h: real)
    ensures h > 0.0
  {
    var heights := Heights(chars);
    if heights == [] then 1.0 else MedianPositive(heights); Median(heights)
  }

  lemma MedianPositive(heights: seq<real>)
    requires heights != [] && forall h | h in heights :: h > 0.0
    ensures Median(heights) > 0.0
  {
    var r := SortBy(heights, Same);
    SortMembers(heights, Same);
    assert r[|r| / 2] in heights;
    assert |r| % 2 == 0 ==> r[|r| / 2 - 1] in heights;
  }

  /** How far a glyph's centre may lie from that of its line's first glyph. */
  function Tolerance(chars: seq<Glyph>): real { 0.5 * MedianHeight(chars) }

  /** The groups of a list that is being scanned: cur is the group under
      construction and reference the height of its first glyph. */
  function GreedyFrom(cur: seq<Glyph>, reference: real, rest: seq<Glyph>, tolerance: real)
    : (groups: seq<seq<Glyph>>)
    ensures groups != [] && cur <= groups[0]
    decreases |rest|
  {
    if rest == [] then [cur]
    else if AbsReal(YMid(rest[0]) - reference) <= tolerance then
      GreedyFrom(cur + [rest[0]], reference, rest[1..], tolerance)
    else
      [cur] + GreedyFrom([rest[0]], YMid(rest[0]), rest[1..], tolerance)
  }

  /** Greedy grouping of a column, top to bottom. */
  function Groups(chars: seq<Glyph>): seq<seq<Glyph>> {
    if chars == [] then []
    else
      var ordered := SortBy(chars, FromTop);
      GreedyFrom([ordered[0]], YMid(ordered[0]), ordered[1..], Tolerance(chars))
  }

  /** All centres of a group lie within the tolerance of each other. */
  ghost predicate WithinSpan(group: seq<Glyph>, tolerance: real) {
    forall a, b | a in group && b in group :: AbsReal(YMid(a) - YMid(b)) <= tolerance
  }

  /** What greedy grouping guarantees: no empty group, each group hangs below
      its first glyph by at most the tolerance, and each first glyph lies below
      the earlier first glyphs by more than that. */
  ghost predicate GreedyShape(groups: seq<seq<Glyph>>, tolerance: real) {
    && (forall i | 0 <= i < |groups| :: groups[i] != [])
    && (forall i | 0 <= i < |groups| :: HangsBelow(groups[i], tolerance))
    && (forall i, j | 0 <= i < j < |groups| :: YMid(groups[j][0]) < YMid(groups[i][0]) - tolerance)
  }

  ghost predicate HangsBelow(group: seq<Glyph>, tolerance: real)
    requires group != []
  {
    forall g | g in group :: YMid(group[0]) - tolerance <= YMid(g) <= YMid(group[0])
  }

  lemma {:induction false} GreedyKeepsOrder(cur: seq<Glyph>, reference: real, rest: seq<Glyph>, tolerance: real)
    ensures Flatten(GreedyFrom(cur, reference, rest, tolerance)) == cur + rest
    decreases |rest|
  {
    if rest == [] {
      FlattenOne(cur);
    } else {
      assert cur + rest == (cur + [rest[0]]) + rest[1..];
      if AbsReal(YMid(rest[0]) - reference) <= tolerance {
        GreedyKeepsOrder(cur + [rest[0]], reference, rest[1..], tolerance);
      } else {
        GreedyKeepsOrder([rest[0]], YMid(rest[0]), rest[1..], tolerance);
        var later := GreedyFrom([rest[0]], YMid(rest[0]), rest[1..], tolerance);
        assert ([cur] + later)[1..] == later;
      }
    }
  }

  lemma {:induction false} GreedyHasShape(cur: seq<Glyph>, rest: seq<Glyph>, tolerance: real)
    requires cur != [] && HangsBelow(cur, tolerance) && tolerance >= 0.0
    requires SortedBy(rest, FromTop)
    requires forall g | g in rest :: YMid(g) <= YMid(cur[0])
    ensures GreedyShape(GreedyFrom(cur, YMid(cur[0]), rest, tolerance), tolerance)
    decreases |rest|
  {
    if rest != [] {
      var next := rest[0];
      assert next in rest;
      forall g | g in rest[1..] ensures YMid(g) <= YMid(next) {
        var i :| 1 <= i < |rest| && rest[i] == g;
        assert FromTop(rest[0]) <= FromTop(rest[i]);
      }
      if AbsReal(YMid(next) - YMid(cur[0])) <= tolerance {
        assert HangsBelow(cur + [next], tolerance);
        GreedyHasShape(cur + [next], rest[1..], tolerance);
      } else {
        assert HangsBelow([next], tolerance);
        GreedyHasShape([next], rest[1..], tolerance);
        ShapeCons(cur, GreedyFrom([next], YMid(next), rest[1..], tolerance), tolerance);
      }
    } else {
      assert [cur][0] == cur;
    }
  }

  lemma ShapeCons(group: seq<Glyph>, later: seq<seq<Glyph>>, tolerance: real)
    requires group != [] && HangsBelow(group, tolerance) && tolerance >= 0.0
    requires later != [] && GreedyShape(later, tolerance)
    requires YMid(later[0][0]) < YMid(group[0]) - tolerance
    ensures GreedyShape([group] + later, tolerance)
  {
    var groups := [group] + later;
    assert forall i | 0 < i < |groups| :: groups[i] == later[i - 1];
    forall j | 0 < j < |groups| ensures YMid(groups[j][0]) < YMid(group[0]) - tolerance {
      assert groups[j] == later[j - 1];
    }
  }

  /** The groups hold the column's glyphs, sorted from the top, cut into
      consecutive runs. */
  lemma GroupsPartition(chars: seq<Glyph>)
    ensures Flatten(Groups(chars)) == SortBy(chars, FromTop)
    ensures multiset(Flatten(Groups(chars))) == multiset(chars)
  {
    if chars != [] {
      var s := SortBy(chars, FromTop);
      GreedyKeepsOrder([s[0]], YMid(s[0]), s[1..], Tolerance(chars));
      assert [s[0]] + s[1..] == s;
    }
  }

  lemma GroupsShape(chars: seq<Glyph>)
    ensures GreedyShape(Groups(chars), Tolerance(chars))
  {
    if chars != [] {
      var s := SortBy(chars, FromTop);
      forall g | g in s[1..] ensures YMid(g) <= YMid(s[0]) {
        var i :| 1 <= i < |s| && s[i] == g;
        assert FromTop(s[0]) <= FromTop(s[i]);
      }
      assert HangsBelow([s[0]], Tolerance(chars));
      GreedyHasShape([s[0]], s[1..], Tolerance(chars));
    }
  }

  /** No group spans more than the tolerance. */
  lemma GroupsWithinSpan(chars: seq<Glyph>, i: nat)
    requires i < |Groups(chars)|
    ensures WithinSpan(Groups(chars)[i], Tolerance(chars))
  {
    GroupsShape(chars);
    HangingIsWithinSpan(Groups(chars)[i], Tolerance(chars));
  }

  lemma HangingIsWithinSpan(group: seq<Glyph>, tolerance: real)
    requires group != [] && HangsBelow(group, tolerance)
    ensures WithinSpan(group, tolerance)
  {
  }

  /** Every glyph of chars lies in one of the parts. */
  ghost predicate Covers(cover: seq<seq<Glyph>>, chars: seq<Glyph>) {
    forall g | g in chars :: exists j :: 0 <= j < |cover| && g in cover[j]
  }

  ghost function PartOf(cover: seq<seq<Glyph>>, g: Glyph): (j: nat)
    requires exists j :: 0 <= j < |cover| && g in cover[j]
    ensures j < |cover| && g in cover[j]
  {
    var j :| 0 <= j < |cover| && g in cover[j];
    j
  }

  /** Groups of greedy shape need as many parts as there are groups: their
      first glyphs lie too far apart to share a part. */
  lemma ShapeNeedsParts(groups: seq<seq<Glyph>>, cover: seq<seq<Glyph>>, tolerance: real)
    requires GreedyShape(groups, tolerance)
    requires forall i | 0 <= i < |groups| :: exists j :: 0 <= j < |cover| && groups[i][0] in cover[j]
    requires forall j | 0 <= j < |cover| :: WithinSpan(cover[j], tolerance)
    ensures |groups| <= |cover|
  {
    var f := seq(|groups|, i requires 0 <= i < |groups| => PartOf(cover, groups[i][0]));
    forall i, j | 0 <= i < j < |f| ensures f[i] != f[j] {
      assert groups[i][0] in cover[f[i]] && groups[j][0] in cover[f[j]];
      assert YMid(groups[j][0]) < YMid(groups[i][0]) - tolerance;
    }
    PigeonHole(f, |cover|);
  }

  /** Greedy grouping is optimal: no way to cover the column with groups of the
      same span bound has fewer groups. */
  lemma GroupsOptimal(chars: seq<Glyph>, cover: seq<seq<Glyph>>)
    requires Covers(cover, chars)
    requires forall j | 0 <= j < |cover| :: WithinSpan(cover[j], Tolerance(chars))
    ensures |Groups(chars)| <= |cover|
  {
    var groups := Groups(chars);
    GroupsPartition(chars);
    GroupsShape(chars);
    SortMembers(chars, FromTop);
    forall i | 0 <= i < |groups| ensures exists j :: 0 <= j < |cover| && groups[i][0] in cover[j] {
      FlattenMembers(groups, groups[i][0]);
      assert groups[i][0] in groups[i];
      assert groups[i][0] in chars;
    }
    ShapeNeedsParts(groups, cover, Tolerance(chars));
  }
}
