/** Which pages are read around full-width blocks and which by their gutters.
    Source: docreader/parser/pdf_parser.py. */
module PagePaths {
  import opened Glyphs
  import opened Histogram
  import opened Ordering
  import opened PageLayout
  import opened PageText
  import opened ReadingOrder
  import opened Text
  import opened TextLines
  import opened WideBlocks
  import opened Wrappers

  predicate HasInk(g: Glyph) { Ink(g.ch) != [] }

  predicate SomeInk(chars: seq<Glyph>) { exists g | g in chars :: HasInk(g) }

  lemma {:induction false} InkOf(chars: seq<Glyph>)
    ensures GlyphInk(chars) != [] <==> SomeInk(chars)
  {
    if chars != [] {
      InkOf(chars[1..]);
      assert chars[0] in chars;
      assert forall g :: g in chars <==> g == chars[0] || g in chars[1..];
    }
  }

  lemma OrderMembers(group: seq<Glyph>)
    ensures SomeInk(GroupOrder(group)) <==> SomeInk(group)
  {
    GroupOrderPermutes(group);
    assert forall g :: g in group <==> g in multiset(group);
    assert forall g :: g in GroupOrder(group) <==> g in multiset(GroupOrder(group));
  }

  /** A group without ink is written as nothing. */
  lemma GroupWritten(group: seq<Glyph>, detect: bool)
    ensures GroupMarkdown(group, detect) != [] <==> SomeInk(group)
  {
    GroupInk(group, detect);
    InkOf(GroupOrder(group));
    OrderMembers(group);
    if GroupPieces(group) == [] {
      assert MergedLines(group) == [];
    } else {
      MarkedHolds(GroupLevels(group, detect), GroupPieces(group));
    }
  }

  lemma MarkedHolds(levels: seq<nat>, pieces: seq<string>)
    requires |levels| == |pieces| && pieces != [] && pieces[0] != []
    ensures Marked(levels, pieces) != [] && Concat(pieces) != []
  {
  }

  lemma {:induction false} NoneWritten(texts: seq<string>)
    ensures NonEmpty(texts) != [] <==> exists text | text in texts :: text != []
  {
    if texts != [] {
      NoneWritten(texts[1..]);
      assert texts[0] in texts;
      assert forall text :: text in texts <==> text == texts[0] || text in texts[1..];
    }
  }

  lemma SomeText(groups: seq<seq<Glyph>>, texts: seq<string>)
    requires |texts| == |groups| && forall i | 0 <= i < |groups| :: texts[i] != [] <==> SomeInk(groups[i])
    ensures (exists text | text in texts :: text != []) <==> SomeInk(Flatten(groups))
  {
    forall g ensures g in Flatten(groups) <==> exists i :: 0 <= i < |groups| && g in groups[i] {
      FlattenMembers(groups, g);
    }
    if text :| text in texts && text != [] {
      var i :| 0 <= i < |texts| && texts[i] == text;
      var g :| g in groups[i] && HasInk(g);
      assert g in Flatten(groups);
    }
    if g :| g in Flatten(groups) && HasInk(g) {
      var i :| 0 <= i < |groups| && g in groups[i];
      assert texts[i] in texts;
    }
  }

  lemma SomeWritten(groups: seq<seq<Glyph>>, detect: bool)
    ensures Blocks(groups, detect) != [] <==> SomeInk(Flatten(groups))
  {
    forall i | 0 <= i < |groups| ensures Texts(groups, detect)[i] != [] <==> SomeInk(groups[i]) {
      GroupWritten(groups[i], detect);
    }
    SomeText(groups, Texts(groups, detect));
    NoneWritten(Texts(groups, detect));
  }

  lemma GroupsWithin(groups: seq<seq<Glyph>>, chars: seq<Glyph>, sorted: seq<Box>, columns: seq<seq<Glyph>>, g: Glyph)
    requires AreGroups(groups, chars, sorted, columns) && g in Flatten(groups)
    ensures g in chars || g in Flatten(columns)
  {
    FlattenMembers(groups, g);
    var i :| 0 <= i < |groups| && g in groups[i];
    var held := Each((b: Box) => Held(chars, b), sorted);
    var loose := Each(Loose(sorted), columns);
    assert groups[i] in held || groups[i] in loose;
    if groups[i] in loose {
      var k :| 0 <= k < |columns| && loose[k] == groups[i];
      assert g in columns[k];
      FlattenMembers(columns, g);
    }
  }

  lemma SameMembers(chars: seq<Glyph>, width: real, boxes: seq<Box>, groups: seq<seq<Glyph>>)
    requires Distinct(chars) && ReadingGroups(chars, width, boxes) == Some(groups)
    requires ColumnCount(chars, width).value >= 2
    ensures SomeInk(Flatten(groups)) <==> SomeInk(chars)
  {
    forall g | g in Flatten(groups) ensures g in chars {
      OnlyGlyphs(chars, width, boxes, groups, g);
    }
    forall g | g in chars ensures g in Flatten(groups) {
      ReadingGroupsCount(chars, width, boxes, g);
      assert g in multiset(Flatten(groups));
    }
  }

  lemma OnlyGlyphs(chars: seq<Glyph>, width: real, boxes: seq<Box>, groups: seq<seq<Glyph>>, g: Glyph)
    requires Distinct(chars) && ReadingGroups(chars, width, boxes) == Some(groups)
    requires ColumnCount(chars, width).value >= 2 && g in Flatten(groups)
    ensures g in chars
  {
    ReadingGroupsAre(chars, width, boxes, groups);
    var boundaries := ColumnBoundaries(chars, width, ColumnCount(chars, width).value).value;
    var columns := ColumnsAt(chars, boundaries);
    var sorted :| FromTheTop(sorted, boxes) && AreGroups(groups, chars, sorted, columns);
    GroupsWithin(groups, chars, sorted, columns, g);
    ColumnsHoldAll(chars, boundaries);
    assert g in Flatten(columns) ==> g in multiset(Flatten(columns));
  }

  /** The page has n columns, two at least, and full-width blocks across them. */
  predicate HasWideBlocks(chars: seq<Glyph>, width: real, n: nat, settings: Settings) {
    && ColumnCount(chars, width) == Some(n) && n >= 2 && width > 0.0
    && FullWidthBlocks(chars, width, n, settings.classify).Some?
    && FullWidthBlocks(chars, width, n, settings.classify).value != []
  }

  lemma WithBoundaries(chars: seq<Glyph>, width: real, n: nat, settings: Settings)
    requires HasWideBlocks(chars, width, n, settings)
    ensures ColumnBoundaries(chars, width, n).Some?
  {
  }

  lemma GroupsFound(chars: seq<Glyph>, width: real, boxes: seq<Box>, n: nat)
    requires ColumnCount(chars, width) == Some(n) && n >= 2 && width > 0.0 && ColumnBoundaries(chars, width, n).Some?
    ensures ReadingGroups(chars, width, boxes).Some?
  {
  }

  lemma AroundExactly(chars: seq<Glyph>, width: real, boxes: seq<Box>, n: nat, detect: bool)
    requires Distinct(chars) && ReadingGroups(chars, width, boxes).Some?
    requires ColumnCount(chars, width) == Some(n) && n >= 2
    ensures GroupsAround(chars, width, boxes, detect).Some? <==> SomeInk(chars)
  {
    var groups := ReadingGroups(chars, width, boxes).value;
    SameMembers(chars, width, boxes, groups);
    SomeWritten(groups, detect);
  }

  lemma BoxesFound(chars: seq<Glyph>, width: real, settings: Settings)
    ensures FoundBoxes(chars, width, settings).Some? <==>
      exists n: nat :: HasWideBlocks(chars, width, n, settings)
  {
    if FoundBoxes(chars, width, settings).Some? {
      assert HasWideBlocks(chars, width, ColumnCount(chars, width).value, settings);
    }
  }

  /** A page is read around full-width blocks exactly if it has several columns,
      such blocks, and anything to write; otherwise it is read by its gutters. */
  lemma HistogramPathExactly(chars: seq<Glyph>, width: real, settings: Settings)
    requires Distinct(chars)
    ensures HistogramGroups(chars, width, settings).Some? <==>
      SomeInk(chars) && exists n: nat :: HasWideBlocks(chars, width, n, settings)
  {
    BoxesFound(chars, width, settings);
    if n: nat :| HasWideBlocks(chars, width, n, settings) {
      var boxes := FullWidthBlocks(chars, width, n, settings.classify).value;
      WithBoundaries(chars, width, n, settings);
      GroupsFound(chars, width, boxes, n);
      AroundExactly(chars, width, boxes, n, settings.detect);
      assert FoundBoxes(chars, width, settings) == Some(boxes);
    }
  }
}
