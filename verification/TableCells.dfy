/** Which rows of a markdown table count as empty or as delimiters, and which lines
    therefore survive the repair. */
module TableCells {
  import opened Ordering
  import opened TableRepair
  import opened TableRows
  import opened Text

  /** A table row is a line whose first visible character is a pipe that another one
      follows. */
  lemma TableRowIs(line: string)
    ensures IsTableRow(line) <==>
      exists i, j :: 0 <= i < j < |line| && AllOf(line[..i], IsSpace) && line[i] == '|' && line[j] == '|'
  {
    var before, after := TrimParts(line, IsSpace);
    var t := Trim(line, IsSpace);
    assert line == before + (t + after);
    if IsTableRow(line) {
      var k :| 0 <= k < |t[1..]| && t[1..][k] == '|';
      assert line[..|before|] == before && line[|before|] == t[0] && line[|before| + 1 + k] == t[1 + k];
    }
    if i, j :| 0 <= i < j < |line| && AllOf(line[..i], IsSpace) && line[i] == '|' && line[j] == '|' {
      PipeInside(line, before, t, after, i);
      PipeInside(line, before, t, after, j);
      assert i == |before| by {
        assert forall k | 0 <= k < i :: line[..i][k] == line[k];
        assert t[0] == line[|before|];
      }
      assert t[1..][j - |before| - 1] == '|';
    }
  }

  lemma PipeInside(line: string, before: string, t: string, after: string, i: nat)
    requires line == before + (t + after) && AllOf(before, IsSpace) && AllOf(after, IsSpace)
    requires i < |line| && line[i] == '|'
    ensures |before| <= i < |before| + |t| && t[i - |before|] == '|'
  {
    assert !IsSpace('|');
    assert forall k | 0 <= k < |before| :: line[k] == before[k];
    assert forall k | |before| + |t| <= k < |line| :: line[k] == after[k - |before| - |t|];
  }

  // ------------------------------------------------------------------ empty rows

  /** A row is empty exactly if all its cells are blank. */
  lemma EmptyRowIs(cells: seq<string>)
    requires cells != [] && NoPipes(cells)
    ensures IsEmptyRow(PipeRow(cells)) <==> forall i | 0 <= i < |cells| :: AllOf(cells[i], IsSpace)
  {
    PipeRowCells(cells);
    forall i | 0 <= i < |cells| ensures TrimAll(Padded(cells))[i] == [] <==> AllOf(cells[i], IsSpace) {
      TrimPadded(cells[i]);
      TrimEmptyIff(cells[i], IsSpace);
    }
  }

  // -------------------------------------------------------------- separator rows

  /** Three or more dashes with an optional colon at each end. */
  ghost predicate IsRule(cell: string, left: bool, n: nat, right: bool) {
    n >= 3 && cell == (if left then ":" else "") + Repeated('-', n) + (if right then ":" else "")
  }

  ghost predicate IsDelimiterCell(cell: string) { exists left, n, right :: IsRule(cell, left, n, right) }

  lemma RuleIsSeparator(cell: string, left: bool, n: nat, right: bool)
    requires IsRule(cell, left, n, right)
    ensures IsSeparatorCell(cell)
  {
    var dashes := Repeated('-', n);
    var ended := dashes + (if right then ":" else "");
    assert dashes[0] == '-' && dashes[n - 1] == '-';
    assert cell == (if left then ":" else "") + ended;
    assert AfterColon(cell) == ended;
    assert ended[..n] == dashes;
    assert BeforeColon(ended) == dashes;
  }

  lemma SeparatorIsRule(cell: string)
    requires IsSeparatorCell(cell)
    ensures IsDelimiterCell(cell)
  {
    var a := AfterColon(cell);
    var b := BeforeColon(a);
    var left, right := a != cell, b != a;
    assert b == Repeated('-', |b|);
    assert a == b + (if right then ":" else "");
    assert cell == (if left then ":" else "") + a;
    assert IsRule(cell, left, |b|, right);
  }

  lemma SeparatorCellIs(cell: string)
    ensures IsSeparatorCell(cell) <==> IsDelimiterCell(cell)
  {
    if left, n, right :| IsRule(cell, left, n, right) {
      RuleIsSeparator(cell, left, n, right);
    }
    if IsSeparatorCell(cell) {
      SeparatorIsRule(cell);
    }
  }

  /** A row is a separator exactly if every cell, stripped, is a delimiter cell. */
  lemma SeparatorRowIs(cells: seq<string>)
    requires cells != [] && NoPipes(cells)
    ensures IsSeparatorRow(PipeRow(cells)) <==>
      forall i | 0 <= i < |cells| :: IsDelimiterCell(Trim(cells[i], IsSpace))
  {
    PipeRowCells(cells);
    forall i | 0 <= i < |cells|
      ensures IsSeparatorCell(TrimAll(Padded(cells))[i]) <==> IsDelimiterCell(Trim(cells[i], IsSpace))
    {
      TrimPadded(cells[i]);
      SeparatorCellIs(Trim(cells[i], IsSpace));
    }
  }

  // -------------------------------------------------------------- lines that stay

  predicate IsFrame(c: char) { c == '|' || c == '-' || c == ':' || IsSpace(c) }

  /** Nothing but pipes, dashes, colons and white space. */
  predicate IsFrameLine(line: string) { AllOf(line, IsFrame) }

  lemma {:induction false} SplitFrames(s: string, sep: char)
    requires forall part | part in Split(s, sep) :: AllOf(part, IsFrame)
    requires IsFrame(sep)
    ensures AllOf(s, IsFrame)
  {
    if s != [] {
      var rest := Split(s[1..], sep);
      if s[0] == sep {
        assert forall part | part in rest :: part in [[]] + rest;
      } else {
        var first := [s[0]] + rest[0];
        assert first in Split(s, sep) && IsFrame(first[0]);
        forall part | part in rest ensures AllOf(part, IsFrame) {
          if part == rest[0] {
            assert forall i | 0 <= i < |part| :: part[i] == first[i + 1];
          } else {
            assert part in rest[1..];
          }
        }
      }
      SplitFrames(s[1..], sep);
      assert forall i | 0 < i < |s| :: s[i] == s[1..][i - 1];
    }
  }

  lemma FramesOfTrim(s: string)
    requires AllOf(Trim(s, IsSpace), IsFrame)
    ensures AllOf(s, IsFrame)
  {
    var before, after := TrimParts(s, IsSpace);
    var t := Trim(s, IsSpace);
    forall i | 0 <= i < |s| ensures IsFrame(s[i]) {
      assert i < |before| ==> s[i] == before[i];
      assert |before| <= i < |before| + |t| ==> s[i] == t[i - |before|];
      assert i >= |before| + |t| ==> s[i] == after[i - |before| - |t|];
    }
  }

  ghost predicate AllFrames(cells: seq<string>) { forall i | 0 <= i < |cells| :: AllOf(cells[i], IsFrame) }

  /** A part is inside the row or blank. */
  lemma InsideOrBlank(parts: seq<string>, k: nat)
    requires k < |parts|
    ensures parts[k] in WithoutLast(WithoutFirst(parts)) || TableRepair.IsBlank(parts[k])
  {
    var rest := WithoutFirst(parts);
    var j := if rest == parts then k else k - 1;
    assert 0 <= j < |rest| ==> rest[j] == parts[k];
    assert 0 <= j < |rest| - 1 ==> WithoutLast(rest)[j] == rest[j];
  }

  /** A row whose cells are frames is a frame. */
  lemma FrameCells(line: string)
    requires IsTableRow(line)
    requires AllFrames(RowCells(line))
    ensures IsFrameLine(line)
  {
    var inner := Trim(line, IsSpace);
    var parts := Split(inner, '|');
    var cells := WithoutLast(WithoutFirst(parts));
    assert RowCells(line) == TrimAll(cells);
    forall part | part in parts ensures AllOf(part, IsFrame) {
      var k :| 0 <= k < |parts| && parts[k] == part;
      InsideOrBlank(parts, k);
      FramePart(cells, part);
    }
    SplitFrames(inner, '|');
    FramesOfTrim(line);
  }

  lemma FramePart(cells: seq<string>, part: string)
    requires AllFrames(TrimAll(cells))
    requires part in cells || TableRepair.IsBlank(part)
    ensures AllOf(part, IsFrame)
  {
    if part in cells {
      var i :| 0 <= i < |cells| && cells[i] == part;
      assert TrimAll(cells)[i] == Trim(part, IsSpace);
    }
    FramesOfTrim(part);
  }

  lemma SeparatorCellFrames(cell: string)
    requires IsSeparatorCell(cell)
    ensures AllOf(cell, IsFrame)
  {
    SeparatorCellIs(cell);
    var left, n, right :| IsRule(cell, left, n, right);
    var l, dashes := if left then ":" else "", Repeated('-', n);
    forall i | 0 <= i < |cell| ensures IsFrame(cell[i]) {
      assert i < |l| ==> cell[i] == ':';
      assert |l| <= i < |l| + n ==> cell[i] == dashes[i - |l|];
      assert i >= |l| + n ==> cell[i] == ':';
    }
  }

  /** A line that says anything is content. */
  lemma SolidIsContent(line: string)
    requires !IsFrameLine(line)
    ensures IsContent(MARKDOWN, line)
  {
    if IsTableRow(line) && (IsEmptyRow(line) || IsSeparatorRow(line)) {
      forall i | 0 <= i < |RowCells(line)| ensures AllOf(RowCells(line)[i], IsFrame) {
        if IsSeparatorRow(line) {
          SeparatorCellFrames(RowCells(line)[i]);
        }
      }
      FrameCells(line);
    }
  }

  lemma {:induction false} SolidInContent(lines: seq<string>)
    ensures Without(Content(MARKDOWN, lines), IsFrameLine) == Without(lines, IsFrameLine)
    decreases |lines|
  {
    if lines != [] {
      SolidInContent(lines[1..]);
      if !IsFrameLine(lines[0]) {
        SolidIsContent(lines[0]);
      }
      if IsContent(MARKDOWN, lines[0]) {
        WithoutCons(lines[0], Content(MARKDOWN, lines[1..]), IsFrameLine);
      }
    }
  }

  /** Every line with a character other than pipes, dashes, colons and white space
      survives the repair, in order, and no such line is added. */
  lemma SolidLinesStay(content: string)
    ensures Without(Split(RepairText(content), '\n'), IsFrameLine) == Without(Split(content, '\n'), IsFrameLine)
  {
    var lines := Split(content, '\n');
    var repaired := Repair(MARKDOWN, lines);
    MarkdownSound();
    RepairConserves(MARKDOWN, lines);
    SolidInContent(lines);
    SolidInContent(repaired);
    RepairKeepsLines(lines);
    if repaired == [] {
      assert Split("", '\n') == [""] && IsFrameLine("");
      WithoutCons("", [], IsFrameLine);
      assert [""] + [] == [""];
    } else {
      SplitJoin(repaired, '\n');
    }
  }
}
