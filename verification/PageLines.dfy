/** The lines of a page's markdown: which text lines are joined, which become
    headings of which level, and how they follow each other. */
module PageLines {
  import opened Glyphs
  import opened LineGrouping
  import opened Numbers
  import opened Ordering
  import opened PageLayout
  import opened PageText
  import opened Text
  import opened TextLines

  // ------------------------------------------------------ punctuation on its own

  /** One to four characters, all of them punctuation or white space. */
  predicate IsPunctuation(text: string) {
    1 <= |text| <= 4 && forall i | 0 <= i < |text| :: text[i] in ".,;:!?\U{2026}\U{b7}" || IsSpace(text[i])
  }

  predicate IsTrimmedText(text: string) {
    text != [] && !IsSpace(text[0]) && !IsSpace(text[|text| - 1])
  }

  ghost predicate AllTrimmed(lines: seq<Line>) { forall i | 0 <= i < |lines| :: IsTrimmedText(lines[i].text) }

  /** The text of a line with the punctuation lines that follow it: their characters
      right behind it, or after a blank if it ends in a hyphen. */
  function AttachedText(run: seq<Line>): (text: string)
    requires run != []
  {
    var last := |run| - 1;
    if last == 0 then run[0].text
    else
      var before := AttachedText(run[..last]);
      if EndsWith(before, '-') then before + " " + run[last].text else before + Ink(run[last].text)
  }

  lemma InkEnds(t: string)
    requires IsTrimmedText(t)
    ensures Ink(t) != [] && !IsSpace(Ink(t)[|Ink(t)| - 1])
  {
    assert Ink(t) == [t[0]] + Ink(t[1..]);
  }

  lemma AttachIs(before: string, t: string)
    requires IsTrimmedText(before) && IsTrimmedText(t)
    ensures Attach(before, t) == if EndsWith(before, '-') then before + " " + t else before + Ink(t)
    ensures IsTrimmedText(Attach(before, t))
  {
    InkEnds(t);
    TrimNothing(before + " " + t, IsSpace);
    assert IsSpace(' ');
    var joined := before + Ink(t);
    assert joined[|joined| - 1] == Ink(t)[|Ink(t)| - 1];
  }

  lemma {:induction false} AttachedTrimmed(run: seq<Line>)
    requires run != [] && AllTrimmed(run)
    ensures IsTrimmedText(AttachedText(run))
  {
    var last := |run| - 1;
    if last > 0 {
      assert forall i | 0 <= i < last :: run[..last][i] == run[i];
      AttachedTrimmed(run[..last]);
      AttachIs(AttachedText(run[..last]), run[last].text);
    }
  }

  /** A line and the punctuation lines behind it. */
  ghost predicate IsRun(run: seq<Line>) {
    run != [] && AllTrimmed(run) && forall i | 0 < i < |run| :: IsPunctuation(run[i].text)
  }

  function JoinedLine(run: seq<Line>): Line
    requires run != []
  {
    Line(run[0].h, AttachedText(run))
  }

  /** Each line is a run joined, and only the first run may start with punctuation. */
  ghost predicate JoinsRuns(merged: seq<Line>, runs: seq<seq<Line>>) {
    && |merged| == |runs|
    && (forall k | 0 <= k < |runs| :: IsRun(runs[k]) && merged[k] == JoinedLine(runs[k]))
    && (forall k | 0 < k < |runs| :: !IsPunctuation(runs[k][0].text))
  }

  lemma OrphanIs(text: string)
    requires IsTrimmedText(text)
    ensures IsOrphan(text) <==> IsPunctuation(text)
  {
    TrimNothing(text, IsSpace);
  }

  lemma AttachOne(run: seq<Line>, line: Line)
    requires IsRun(run) && IsTrimmedText(line.text)
    ensures JoinedLine(run + [line]) == Line(run[0].h, Attach(AttachedText(run), Trim(line.text, IsSpace)))
  {
    TrimNothing(line.text, IsSpace);
    AttachedTrimmed(run);
    AttachIs(AttachedText(run), line.text);
    assert (run + [line])[..|run|] == run;
  }

  lemma RunGrows(run: seq<Line>, line: Line)
    requires IsRun(run) && IsTrimmedText(line.text) && IsPunctuation(line.text)
    ensures IsRun(run + [line])
  {
  }

  lemma NewRun(merged: seq<Line>, runs: seq<seq<Line>>, line: Line)
    requires JoinsRuns(merged, runs) && IsTrimmedText(line.text) && (runs == [] || !IsPunctuation(line.text))
    ensures JoinsRuns(merged + [line], runs + [[line]])
  {
    assert JoinedLine([line]) == line && IsRun([line]);
  }

  lemma LongerRun(merged: seq<Line>, runs: seq<seq<Line>>, run: seq<Line>)
    requires JoinsRuns(merged, runs) && runs != [] && IsRun(run) && run[0] == runs[|runs| - 1][0]
    ensures JoinsRuns(merged[|runs| - 1 := JoinedLine(run)], runs[|runs| - 1 := run])
  {
  }

  lemma LongerFlat(runs: seq<seq<Line>>, line: Line)
    requires runs != []
    ensures var last := |runs| - 1;
      Flatten(runs[last := runs[last] + [line]]) == Flatten(runs) + [line]
  {
    var last := |runs| - 1;
    var run := runs[last] + [line];
    assert runs == runs[..last] + [runs[last]] && runs[last := run] == runs[..last] + [run];
    FlattenSnoc(runs[..last], runs[last]);
    FlattenSnoc(runs[..last], run);
    Associate(Flatten(runs[..last]), runs[last], [line]);
  }

  lemma MergeOneRun(merged: seq<Line>, runs: seq<seq<Line>>, line: Line) returns (runs': seq<seq<Line>>)
    requires JoinsRuns(merged, runs) && IsTrimmedText(line.text)
    ensures JoinsRuns(MergeOne(merged, line), runs') && Flatten(runs') == Flatten(runs) + [line]
  {
    OrphanIs(line.text);
    var last := |runs| - 1;
    if runs != [] && IsPunctuation(line.text) {
      var run := runs[last] + [line];
      runs' := runs[last := run];
      RunGrows(runs[last], line);
      LongerRun(merged, runs, run);
      LongerFlat(runs, line);
      AttachOne(runs[last], line);
    } else {
      runs' := runs + [[line]];
      NewRun(merged, runs, line);
      FlattenSnoc(runs, [line]);
    }
  }

  lemma {:induction false} MergeRunsFrom(merged: seq<Line>, runs: seq<seq<Line>>, rest: seq<Line>)
    returns (all: seq<seq<Line>>)
    requires JoinsRuns(merged, runs) && AllTrimmed(rest)
    ensures JoinsRuns(MergeFrom(merged, rest), all) && Flatten(all) == Flatten(runs) + rest
    decreases |rest|
  {
    if rest == [] {
      all := runs;
    } else {
      var line, later := rest[0], rest[1..];
      assert AllTrimmed(later) by {
        assert forall i | 0 <= i < |later| :: later[i] == rest[i + 1];
      }
      var next := MergeOneRun(merged, runs, line);
      all := MergeRunsFrom(MergeOne(merged, line), next, later);
      Associate(Flatten(runs), [line], later);
      assert [line] + later == rest;
    }
  }

  /** Lines are joined in runs: each punctuation line with the line before it, and no
      other. */
  lemma MergedRuns(lines: seq<Line>) returns (runs: seq<seq<Line>>)
    requires AllTrimmed(lines)
    ensures JoinsRuns(MergeFrom([], lines), runs) && Flatten(runs) == lines
  {
    runs := MergeRunsFrom([], [], lines);
    assert [] + lines == lines;
  }

  // ------------------------------------------------------------------- headings

  /** Tall enough for a heading, of the right length, and no sentence. */
  ghost predicate Qualifies(line: Line, body: real) {
    && body > 0.0 && line.h >= 1.35 * body && 8 <= |line.text| <= 80
    && line.text[|line.text| - 1] !in ".,;:!?\U{3002}\U{ff01}\U{ff1f}\U{ff0c}\U{ff1b}\U{ff1a}"
  }

  function LevelByHeight(height: real, body: real): nat {
    if height >= 2.0 * body then 1 else if height >= 1.6 * body then 2 else 3
  }

  lemma LevelIs(line: Line, body: real, detect: bool)
    ensures Level(line, body, detect) ==
      if detect && Qualifies(line, body) then LevelByHeight(line.h, body) else 0
  {
    if body > 0.0 {
      RatioOrder(line.h, body, 2.0);
      RatioOrder(line.h, body, 1.6);
      RatioOrder(line.h, body, 1.35);
    }
  }

  /** The numbers of the lines that qualify, measured by the median height. */
  ghost function Promoted(lines: seq<Line>): set<nat>
    requires lines != []
  {
    set i: nat | i < |lines| && Qualifies(lines[i], Median(LineHeights(lines)))
  }

  function Positive(levels: seq<nat>): set<nat> { set i: nat | i < |levels| && levels[i] > 0 }

  lemma {:induction false} CountNext(levels: seq<nat>, level: nat)
    ensures CountHeadings(levels + [level]) == CountHeadings(levels) + if level > 0 then 1 else 0
  {
    if levels == [] {
      assert [] + [level] == [level] && [level][1..] == [];
    } else {
      CountNext(levels[1..], level);
      assert (levels + [level])[1..] == levels[1..] + [level];
    }
  }

  lemma PositiveNext(levels: seq<nat>, level: nat)
    ensures Positive(levels + [level]) == Positive(levels) + if level > 0 then {|levels|} else {}
  {
  }

  lemma {:induction false} CountIs(levels: seq<nat>)
    ensures CountHeadings(levels) == |Positive(levels)|
  {
    if levels == [] {
      assert Positive(levels) == {};
    } else {
      var last := |levels| - 1;
      assert levels == levels[..last] + [levels[last]];
      CountIs(levels[..last]);
      CountNext(levels[..last], levels[last]);
      PositiveNext(levels[..last], levels[last]);
    }
  }

  lemma LimitIs(n: nat, q: nat)
    ensures q <= HeadingLimit(n) <==> q <= 1 || 5 * q <= 2 * n
  {
    assert q as real <= 0.4 * n as real <==> 5 * q <= 2 * n;
  }

  lemma RawLevelsAre(lines: seq<Line>)
    requires lines != []
    ensures Positive(RawLevels(lines, Median(LineHeights(lines)), true)) == Promoted(lines)
  {
    RawLevelsBy(lines, Median(LineHeights(lines)));
  }

  lemma RawLevelsBy(lines: seq<Line>, body: real)
    ensures forall i: nat | i < |lines| :: RawLevels(lines, body, true)[i] > 0 <==> Qualifies(lines[i], body)
    ensures |RawLevels(lines, body, true)| == |lines|
  {
    forall i: nat | i < |lines| ensures RawLevels(lines, body, true)[i] > 0 <==> Qualifies(lines[i], body) {
      LevelIs(lines[i], body, true);
    }
  }

  /** A line that qualifies becomes a heading of the first level from twice the median
      height on, of the second from 1.6 times and of the third from 1.35 times, unless
      more than one line and more than 40 percent of the lines qualify; no other line
      becomes one. */
  lemma HeadingLevels(lines: seq<Line>, i: nat)
    requires i < |lines|
    ensures var q := |Promoted(lines)|;
      Levels(lines, true)[i] ==
        if i in Promoted(lines) && (q <= 1 || 5 * q <= 2 * |lines|)
        then LevelByHeight(lines[i].h, Median(LineHeights(lines))) else 0
  {
    var body := Median(LineHeights(lines));
    RawLevelsAre(lines);
    CountIs(RawLevels(lines, body, true));
    LimitIs(|lines|, |Promoted(lines)|);
    LevelIs(lines[i], body, true);
  }

  /** With headings switched off there are none. */
  lemma NoHeadingLevels(lines: seq<Line>, i: nat)
    requires i < |lines|
    ensures Levels(lines, false)[i] == 0
  {
  }

  // ---------------------------------------------------------- the lines of the text

  /** The line with the marks of its heading level and a blank in front. */
  function WithMarks(level: nat, text: string): string
    requires level <= 3
  {
    if level == 0 then text else if level == 1 then "# " + text else if level == 2 then "## " + text else "### " + text
  }

  lemma RenderedIs(line: Line, level: nat)
    requires level <= 3
    ensures Rendered(line, level) == WithMarks(level, line.text)
  {
    assert level == 1 ==> Hashes(level) == "#";
    assert level == 2 ==> Hashes(level) == "##";
    assert level == 3 ==> Hashes(level) == "###";
  }

  ghost predicate OneLineEach(lines: seq<Line>) { forall i | 0 <= i < |lines| :: '\n' !in lines[i].text }

  /** The merged lines of a group as they are written. */
  function WrittenLines(lines: seq<Line>, detect: bool): (r: seq<string>)
    ensures |r| == |lines|
  {
    seq(|lines|, i requires 0 <= i < |lines| => WithMarks(LineLevels(lines, detect)[i], lines[i].text))
  }

  lemma MarkdownIs(lines: seq<Line>, detect: bool)
    ensures Markdown(lines, detect) == Join(WrittenLines(lines, detect), "\n")
  {
    if lines != [] {
      var levels := Levels(lines, detect);
      forall i | 0 <= i < |lines| ensures RenderedLines(lines, levels)[i] == WrittenLines(lines, detect)[i] {
        RenderedIs(lines[i], levels[i]);
      }
      assert RenderedLines(lines, levels) == WrittenLines(lines, detect);
    }
  }

  /** The lines that a page writes, group after group. */
  function PageWritten(groups: seq<seq<Glyph>>, detect: bool): seq<string> {
    if groups == [] then [] else WrittenLines(MergedLines(groups[0]), detect) + PageWritten(groups[1..], detect)
  }

  lemma {:induction false} JoinLists(a: seq<string>, b: seq<string>)
    ensures Join(a + b, "\n") ==
      if a == [] then Join(b, "\n") else if b == [] then Join(a, "\n") else Join(a, "\n") + "\n" + Join(b, "\n")
  {
    if a == [] {
      assert a + b == b;
    } else if b == [] {
      assert a + b == a;
    } else {
      JoinLists(a[1..], b);
      assert (a + b)[0] == a[0] && (a + b)[1..] == a[1..] + b;
      if |a| > 1 {
        Associate(a[0] + "\n", Join(a[1..], "\n"), "\n" + Join(b, "\n"));
        Associate(Join(a[1..], "\n"), "\n", Join(b, "\n"));
        Associate(a[0] + "\n" + Join(a[1..], "\n"), "\n", Join(b, "\n"));
      }
    }
  }

  ghost predicate NoneEmpty(texts: seq<string>) { forall i | 0 <= i < |texts| :: texts[i] != [] }

  lemma WrittenNotEmpty(lines: seq<Line>, detect: bool)
    requires AllInked(lines)
    ensures NoneEmpty(WrittenLines(lines, detect))
  {
  }

  lemma JoinedNotEmpty(texts: seq<string>)
    requires NoneEmpty(texts)
    ensures Join(texts, "\n") == [] <==> texts == []
  {
  }

  lemma MergedInked(chars: seq<Glyph>)
    ensures AllInked(MergedLines(chars))
  {
    ColumnInked(chars);
    MergeKeepsInked([], TextLinesOf(chars));
  }

  lemma TextsStep(groups: seq<seq<Glyph>>, detect: bool)
    requires groups != []
    ensures Texts(groups, detect) == [GroupMarkdown(groups[0], detect)] + Texts(groups[1..], detect)
  {
    EachCons(GroupText(detect), groups);
  }

  lemma NonEmptyCons(text: string, texts: seq<string>)
    ensures NonEmpty([text] + texts) == if text == [] then NonEmpty(texts) else [text] + NonEmpty(texts)
  {
    assert ([text] + texts)[1..] == texts;
  }

  /** The texts of the groups joined: all their lines, joined. */
  lemma {:induction false} BlocksJoin(groups: seq<seq<Glyph>>, detect: bool)
    ensures Join(Blocks(groups, detect), "\n") == Join(PageWritten(groups, detect), "\n")
    ensures Blocks(groups, detect) == [] <==> PageWritten(groups, detect) == []
  {
    if groups != [] {
      var lines := MergedLines(groups[0]);
      var first, rest := WrittenLines(lines, detect), PageWritten(groups[1..], detect);
      BlocksJoin(groups[1..], detect);
      TextsStep(groups, detect);
      NonEmptyCons(GroupMarkdown(groups[0], detect), Texts(groups[1..], detect));
      MarkdownIs(lines, detect);
      MergedInked(groups[0]);
      WrittenNotEmpty(lines, detect);
      JoinedNotEmpty(first);
      JoinLists(first, rest);
      JoinLists([GroupMarkdown(groups[0], detect)], Blocks(groups[1..], detect));
    }
  }

  ghost predicate OneLineTexts(texts: seq<string>) { forall i | 0 <= i < |texts| :: '\n' !in texts[i] }

  /** The text of a page is its lines, group after group: the merged lines of each
      group with the marks of their levels, one to a line and nothing else. */
  lemma PageTextIs(chars: seq<Glyph>, scale: real, width: real, settings: Settings)
    ensures PageMarkdown(chars, scale, width, settings)
      == Join(PageWritten(PageGroups(chars, scale, width, settings), settings.detect), "\n")
  {
    BlocksJoin(PageGroups(chars, scale, width, settings), settings.detect);
  }

  // ------------------------------------------------------ no line feed in a line

  /** No glyph is a line feed; the page reader leaves them out. */
  ghost predicate PlainGlyphs(chars: seq<Glyph>) { forall g | g in chars :: '\n' !in g.ch }

  lemma {:induction false} PartsPlain(line: seq<Glyph>, i: nat, parts: seq<string>, threshold: real)
    requires PlainGlyphs(line) && i <= |line| && '\n' !in Concat(parts)
    ensures '\n' !in Concat(PartsFrom(line, i, parts, threshold))
    decreases |line| - i
  {
    if i < |line| {
      var next := NextParts(line, i, parts, threshold);
      assert line[i] in line;
      ConcatAppend(parts, next);
      ConcatOne(line[i].ch);
      ConcatTwo(" ", line[i].ch);
      PartsPlain(line, i + 1, parts + next, threshold);
    }
  }

  lemma LinePlain(line: seq<Glyph>)
    requires PlainGlyphs(line)
    ensures '\n' !in LineText(line)
  {
    if line != [] {
      var s := Concat(PartsFrom(line, 0, [], GapThreshold(line)));
      PartsPlain(line, 0, [], GapThreshold(line));
      var before, after := TrimParts(s, IsSpace);
    }
  }

  /** A text line as the grouping makes it. */
  ghost predicate IsTextLine(line: Line) { IsTrimmedText(line.text) && '\n' !in line.text }

  ghost predicate AreTextLines(lines: seq<Line>) { forall i | 0 <= i < |lines| :: IsTextLine(lines[i]) }

  lemma RowIsTextLine(group: seq<Glyph>, medianHeight: real)
    requires PlainGlyphs(group)
    ensures AreTextLines(LineOf(RowOf(group), medianHeight))
  {
    SortMembers(group, LeftEdge);
    LinePlain(RowOf(group));
  }

  lemma {:induction false} FlattenTextLines(lists: seq<seq<Line>>)
    requires forall i | 0 <= i < |lists| :: AreTextLines(lists[i])
    ensures AreTextLines(Flatten(lists))
  {
    if lists != [] {
      FlattenTextLines(lists[1..]);
      var rest := Flatten(lists[1..]);
      forall i | 0 <= i < |lists[0] + rest| ensures IsTextLine((lists[0] + rest)[i]) {
        assert i >= |lists[0]| ==> (lists[0] + rest)[i] == rest[i - |lists[0]|];
      }
    }
  }

  lemma GroupsPlain(chars: seq<Glyph>, i: nat)
    requires PlainGlyphs(chars) && i < |Groups(chars)|
    ensures PlainGlyphs(Groups(chars)[i])
  {
    GroupsPartition(chars);
    SortMembers(chars, FromTop);
    forall g | g in Groups(chars)[i] ensures g in chars {
      FlattenMembers(Groups(chars), g);
    }
  }

  /** The text lines of a column are stripped and hold no line feed. */
  lemma ColumnTextLines(chars: seq<Glyph>)
    requires PlainGlyphs(chars)
    ensures AreTextLines(TextLinesOf(chars))
  {
    var lists := Each(LineOfGroup(MedianHeight(chars)), Groups(chars));
    forall i | 0 <= i < |lists| ensures AreTextLines(lists[i]) {
      GroupsPlain(chars, i);
      RowIsTextLine(Groups(chars)[i], MedianHeight(chars));
    }
    FlattenTextLines(lists);
  }

  /** The lines of a group are its text lines, joined in runs. */
  lemma GroupRuns(chars: seq<Glyph>) returns (runs: seq<seq<Line>>)
    requires PlainGlyphs(chars)
    ensures JoinsRuns(MergedLines(chars), runs) && Flatten(runs) == TextLinesOf(chars)
  {
    ColumnTextLines(chars);
    TextLinesTrimmed(TextLinesOf(chars));
    runs := MergedRuns(TextLinesOf(chars));
  }

  lemma TextLinesTrimmed(lines: seq<Line>)
    requires AreTextLines(lines)
    ensures AllTrimmed(lines)
  {
    assert forall i | 0 <= i < |lines| :: IsTextLine(lines[i]);
  }

  lemma {:induction false} AttachedPlain(run: seq<Line>)
    requires run != [] && forall i | 0 <= i < |run| :: '\n' !in run[i].text
    ensures '\n' !in AttachedText(run)
  {
    var last := |run| - 1;
    if last > 0 {
      assert forall i | 0 <= i < last :: run[..last][i] == run[i];
      AttachedPlain(run[..last]);
      assert IsSpace('\n');
    }
  }

  lemma MergedPlain(chars: seq<Glyph>)
    requires PlainGlyphs(chars)
    ensures OneLineEach(MergedLines(chars))
  {
    var runs := GroupRuns(chars);
    ColumnTextLines(chars);
    forall k | 0 <= k < |runs| ensures '\n' !in AttachedText(runs[k]) {
      forall i | 0 <= i < |runs[k]| ensures '\n' !in runs[k][i].text {
        FlattenMembers(runs, runs[k][i]);
        assert runs[k][i] in TextLinesOf(chars);
      }
      AttachedPlain(runs[k]);
    }
  }

  lemma {:induction false} WrittenPlain(groups: seq<seq<Glyph>>, detect: bool)
    requires forall i | 0 <= i < |groups| :: PlainGlyphs(groups[i])
    ensures OneLineTexts(PageWritten(groups, detect))
  {
    if groups != [] {
      assert forall i | 0 <= i < |groups[1..]| :: groups[1..][i] == groups[i + 1];
      WrittenPlain(groups[1..], detect);
      MergedPlain(groups[0]);
      LinesPlain(MergedLines(groups[0]), detect);
      OneLineAppend(WrittenLines(MergedLines(groups[0]), detect), PageWritten(groups[1..], detect));
    }
  }

  lemma OneLineAppend(a: seq<string>, b: seq<string>)
    requires OneLineTexts(a) && OneLineTexts(b)
    ensures OneLineTexts(a + b)
  {
    forall i | 0 <= i < |a + b| ensures '\n' !in (a + b)[i] {
      assert i >= |a| ==> (a + b)[i] == b[i - |a|];
    }
  }

  lemma LinesPlain(lines: seq<Line>, detect: bool)
    requires OneLineEach(lines)
    ensures OneLineTexts(WrittenLines(lines, detect))
  {
  }

  /** Splitting the text of a page at its line feeds gives its lines back. */
  lemma PageLinesRead(chars: seq<Glyph>, scale: real, width: real, settings: Settings)
    requires var groups := PageGroups(chars, scale, width, settings);
      (forall i | 0 <= i < |groups| :: PlainGlyphs(groups[i])) && PageWritten(groups, settings.detect) != []
    ensures Split(PageMarkdown(chars, scale, width, settings), '\n')
      == PageWritten(PageGroups(chars, scale, width, settings), settings.detect)
  {
    var groups := PageGroups(chars, scale, width, settings);
    var written := PageWritten(groups, settings.detect);
    PageTextIs(chars, scale, width, settings);
    WrittenPlain(groups, settings.detect);
    assert forall line | line in written :: '\n' !in line;
    SplitJoin(written, '\n');
  }
}
