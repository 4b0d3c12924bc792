/** The order in which a group of glyphs is read, in coordinates.
    Source: docreader/parser/pdf_parser.py. */
module ReadingRows {
  import opened Glyphs
  import opened Ordering
  import opened LineGrouping
  import opened TextLines
  import opened PageText

  /** Glyphs from left to right whose centres differ by at most half of h. */
  ghost predicate IsRow(row: seq<Glyph>, h: real) {
    && row != []
    && (forall i, j | 0 <= i < j < |row| :: row[i].x0 <= row[j].x0)
    && (forall a, b | a in row && b in row :: AbsReal((a.y0 + a.y1) - (b.y0 + b.y1)) <= h)
  }

  /** The highest centre of the upper row is more than half of h above every
      centre of the lower one. */
  ghost predicate IsBelow(lower: seq<Glyph>, upper: seq<Glyph>, h: real) {
    exists top :: top in upper
      && (forall g | g in upper :: g.y0 + g.y1 <= top.y0 + top.y1)
      && (forall g | g in lower :: g.y0 + g.y1 < top.y0 + top.y1 - h)
  }

  ghost predicate AreRows(rows: seq<seq<Glyph>>, h: real) {
    && (forall i | 0 <= i < |rows| :: IsRow(rows[i], h))
    && (forall i, j | 0 <= i < j < |rows| :: IsBelow(rows[j], rows[i], h))
  }

  lemma RowMembers(group: seq<Glyph>)
    ensures |RowOf(group)| == |group| && forall g :: g in RowOf(group) <==> g in group
  {
    SortMembers(group, LeftEdge);
  }

  lemma RowReads(group: seq<Glyph>, h: real)
    requires group != [] && WithinSpan(group, 0.5 * h)
    ensures IsRow(RowOf(group), h)
  {
    var row := RowOf(group);
    RowMembers(group);
    forall i, j | 0 <= i < j < |row| ensures row[i].x0 <= row[j].x0 {
      assert LeftEdge(row[i]) <= LeftEdge(row[j]);
    }
    forall a, b | a in row && b in row ensures AbsReal((a.y0 + a.y1) - (b.y0 + b.y1)) <= h {
      assert AbsReal(YMid(a) - YMid(b)) <= 0.5 * h;
    }
  }

  lemma RowBelow(lower: seq<Glyph>, upper: seq<Glyph>, h: real)
    requires lower != [] && upper != [] && HangsBelow(lower, 0.5 * h) && HangsBelow(upper, 0.5 * h)
    requires YMid(lower[0]) < YMid(upper[0]) - 0.5 * h
    ensures IsBelow(RowOf(lower), RowOf(upper), h)
  {
    RowMembers(lower);
    RowMembers(upper);
    var top := upper[0];
    assert top in RowOf(upper);
    forall g | g in RowOf(lower) ensures g.y0 + g.y1 < top.y0 + top.y1 - h {
      assert YMid(g) <= YMid(lower[0]);
    }
    forall g | g in RowOf(upper) ensures g.y0 + g.y1 <= top.y0 + top.y1 {
      assert YMid(g) <= YMid(top);
    }
  }

  lemma {:induction false} RowsFlatten(groups: seq<seq<Glyph>>)
    ensures Flatten(Each(RowOf, groups)) == RowsInOrder(groups)
  {
    if groups != [] {
      EachCons(RowOf, groups);
      FlattenCons(RowOf(groups[0]), Each(RowOf, groups[1..]));
      RowsFlatten(groups[1..]);
    }
  }

  lemma ShapeReads(groups: seq<seq<Glyph>>, h: real)
    requires GreedyShape(groups, 0.5 * h)
    ensures AreRows(Each(RowOf, groups), h)
  {
    forall i | 0 <= i < |groups| ensures IsRow(Each(RowOf, groups)[i], h) {
      HangingIsWithinSpan(groups[i], 0.5 * h);
      RowReads(groups[i], h);
    }
    forall i, j | 0 <= i < j < |groups| ensures IsBelow(Each(RowOf, groups)[j], Each(RowOf, groups)[i], h) {
      RowBelow(groups[j], groups[i], h);
    }
  }

  /** A group is read row by row from the top, each row from left to right, with
      rows as thick as half the median of the positive heights, or half a unit. */
  lemma ReadInRows(chars: seq<Glyph>)
    ensures exists rows :: AreRows(rows, MedianHeight(chars)) && Flatten(rows) == GroupOrder(chars)
    ensures multiset(GroupOrder(chars)) == multiset(chars)
    ensures MedianHeight(chars) == if Heights(chars) == [] then 1.0 else Median(Heights(chars))
  {
    GroupsShape(chars);
    ShapeReads(Groups(chars), MedianHeight(chars));
    RowsFlatten(Groups(chars));
    GroupOrderPermutes(chars);
  }

  /** The heights that count are the positive ones, glyph by glyph. */
  lemma {:induction false} HeightsAre(chars: seq<Glyph>)
    ensures Heights(chars) == Without(Each((g: Glyph) => g.y1 - g.y0, chars), (h: real) => h <= 0.0)
  {
    var height := (g: Glyph) => g.y1 - g.y0;
    if chars != [] {
      EachCons(height, chars);
      HeightsAre(chars[1..]);
    }
  }

  /** Any two ways of laying the same glyphs out in rows have the same rows, up
      to the order of glyphs that start at the same place. */
  lemma {:induction false} RowsAreUnique(a: seq<seq<Glyph>>, b: seq<seq<Glyph>>, h: real)
    requires AreRows(a, h) && AreRows(b, h) && h > 0.0
    requires multiset(Flatten(a)) == multiset(Flatten(b))
    ensures |a| == |b| && forall i | 0 <= i < |a| :: multiset(a[i]) == multiset(b[i])
  {
    if a == [] {
      NoRows(b, h);
    } else if b == [] {
      NoRows(a, h);
    } else {
      FirstRow(a, b, h);
      Rest(a, h);
      Rest(b, h);
      RowsAreUnique(a[1..], b[1..], h);
      forall i | 0 < i < |a| ensures multiset(a[i]) == multiset(b[i]) {
        assert a[i] == a[1..][i - 1] && b[i] == b[1..][i - 1];
      }
    }
  }

  lemma NoRows(rows: seq<seq<Glyph>>, h: real)
    requires AreRows(rows, h)
    ensures multiset(Flatten(rows)) == multiset{} ==> rows == []
  {
    if rows != [] {
      assert IsRow(rows[0], h);
      assert rows[0][0] in multiset(Flatten(rows));
    }
  }

  lemma Rest(rows: seq<seq<Glyph>>, h: real)
    requires AreRows(rows, h) && rows != []
    ensures AreRows(rows[1..], h)
    ensures multiset(Flatten(rows[1..])) == multiset(Flatten(rows)) - multiset(rows[0])
  {
    var later := rows[1..];
    forall i | 0 <= i < |later| ensures IsRow(later[i], h) {
      assert later[i] == rows[i + 1];
    }
    forall i, j | 0 <= i < j < |later| ensures IsBelow(later[j], later[i], h) {
      assert later[i] == rows[i + 1] && later[j] == rows[j + 1];
    }
  }

  /** The height of the highest centre, doubled. */
  ghost predicate IsTop(rows: seq<seq<Glyph>>, top: Glyph) {
    top in Flatten(rows) && forall g | g in Flatten(rows) :: g.y0 + g.y1 <= top.y0 + top.y1
  }

  /** The first row holds what lies at most half of h below the highest centre. */
  lemma FirstRowIs(rows: seq<seq<Glyph>>, h: real) returns (top: Glyph)
    requires AreRows(rows, h) && rows != [] && h > 0.0
    ensures IsTop(rows, top)
    ensures forall g | g in Flatten(rows) ::
      multiset(rows[0])[g] == if g.y0 + g.y1 >= top.y0 + top.y1 - h then multiset(Flatten(rows))[g] else 0
  {
    top := Highest(rows[0]);
    Rest(rows, h);
    forall g | g in Flatten(rows[1..]) ensures g.y0 + g.y1 < top.y0 + top.y1 - h {
      FlattenMembers(rows[1..], g);
      var i :| 0 <= i < |rows[1..]| && g in rows[1..][i];
      assert rows[1..][i] == rows[i + 1] && IsBelow(rows[i + 1], rows[0], h);
    }
    forall g | g in rows[0] ensures g.y0 + g.y1 >= top.y0 + top.y1 - h {
      assert AbsReal((g.y0 + g.y1) - (top.y0 + top.y1)) <= h;
    }
    forall g | g in Flatten(rows)
      ensures multiset(rows[0])[g] == if g.y0 + g.y1 >= top.y0 + top.y1 - h then multiset(Flatten(rows))[g] else 0
    {
      assert multiset(Flatten(rows))[g] == multiset(rows[0])[g] + multiset(Flatten(rows[1..]))[g];
    }
  }

  lemma {:induction false} Highest(row: seq<Glyph>) returns (top: Glyph)
    requires row != []
    ensures top in row && forall g | g in row :: g.y0 + g.y1 <= top.y0 + top.y1
  {
    top := row[0];
    if |row| > 1 {
      var other := Highest(row[1..]);
      if other.y0 + other.y1 > top.y0 + top.y1 {
        top := other;
      }
    }
  }

  lemma FirstRow(a: seq<seq<Glyph>>, b: seq<seq<Glyph>>, h: real)
    requires AreRows(a, h) && AreRows(b, h) && a != [] && b != [] && h > 0.0
    requires multiset(Flatten(a)) == multiset(Flatten(b))
    ensures multiset(a[0]) == multiset(b[0])
  {
    var s := FirstRowIs(a, h);
    var t := FirstRowIs(b, h);
    forall g ensures g in Flatten(a) <==> g in Flatten(b) {
      assert g in multiset(Flatten(a)) <==> g in multiset(Flatten(b));
    }
    assert s.y0 + s.y1 == t.y0 + t.y1;
    forall g ensures multiset(a[0])[g] == multiset(b[0])[g] {
      FlattenMembers(a, g);
      FlattenMembers(b, g);
      if g !in Flatten(a) {
        assert g !in a[0] && g !in b[0];
      }
    }
  }
}
