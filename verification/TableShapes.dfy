/** When the quality gate calls a table damaged, in terms of the shape most of
    its rows share; which lines are headers; and what a printed cell is. Source:
    docreader/parser/pdf_quality.py, docreader/parser/pdf_table_extractor.py. */
module TableShapes {
  import opened Numbers
  import opened Text
  import opened Ordering
  import opened TablePrinter
  import opened Wrappers

  function Stripped(line: string): string { Trim(line, IsSpace) }

  /** Not between two different pipes. */
  predicate IsNoRow(t: string) { |t| < 2 || t[0] != '|' || t[|t| - 1] != '|' }

  /** Between two different pipes only white space, colons, pipes and dashes, one at least. */
  predicate IsRule(t: string) {
    |t| >= 3 && t[0] == '|' && t[|t| - 1] == '|' &&
    forall i | 1 <= i < |t| - 1 :: IsSpace(t[i]) || t[i] in ":|-"
  }

  function Pipes(s: string): nat { if s == [] then 0 else (if s[0] == '|' then 1 else 0) + Pipes(s[1..]) }

  /** One more than the pipes left when those at both ends are taken off. */
  function CellCount(row: string): real { (Pipes(Trim(row, IsPipe)) + 1) as real }

  /** The rows of the table, and how many cells each row that is no rule has. */
  function Rows(lines: seq<string>): seq<string> { Without(Each(Stripped, lines), IsNoRow) }

  function CellCounts(lines: seq<string>): seq<real> { Each(CellCount, Without(Rows(lines), IsRule)) }

  /** The rows that do not have n cells. */
  function Others(counts: seq<real>, n: real): nat { |Without(counts, (c: real) => c == n)| }

  lemma StaysStripped(line: string)
    ensures TrimRight(Stripped(line), IsSpace) == Stripped(line)
  {
  }

  lemma PipeLineIs(line: string)
    ensures IsPipeLine(Stripped(line)) <==> !IsNoRow(Stripped(line))
  {
    StaysStripped(line);
  }

  lemma {:induction false} RowsAre(lines: seq<string>)
    ensures TableRowLines(lines) == Rows(lines)
  {
    if lines != [] {
      var first, rest := Stripped(lines[0]), Each(Stripped, lines[1..]);
      EachCons(Stripped, lines);
      WithoutCons(first, rest, IsNoRow);
      PipeLineIs(lines[0]);
      RowsAre(lines[1..]);
    }
  }

  lemma InnerIs(t: string)
    requires |t| >= 3
    ensures AllOf(t[1..|t| - 1], InRule) <==> forall i | 1 <= i < |t| - 1 :: IsSpace(t[i]) || t[i] in ":|-"
  {
    var inner := t[1..|t| - 1];
    forall i | 0 <= i < |inner| ensures inner[i] == t[i + 1] && InRule(t[i + 1]) == InRule(inner[i]) {}
    forall i | 1 <= i < |t| - 1 ensures InRule(inner[i - 1]) <==> IsSpace(t[i]) || t[i] in ":|-" {
      assert inner[i - 1] == t[i];
    }
    if forall i | 1 <= i < |t| - 1 :: IsSpace(t[i]) || t[i] in ":|-" {
      forall i | 0 <= i < |inner| ensures InRule(inner[i]) {
        assert inner[i] == t[i + 1];
      }
    }
  }

  lemma RuleIs(line: string)
    ensures IsRuleLine(Stripped(line)) <==> IsRule(Stripped(line))
  {
    StaysStripped(line);
    if |Stripped(line)| >= 3 {
      InnerIs(Stripped(line));
    }
  }

  lemma {:induction false} PipesSplit(s: string)
    ensures |Split(s, '|')| == Pipes(s) + 1
  {
    if s != [] {
      PipesSplit(s[1..]);
    }
  }

  lemma {:induction false} CountsAre(rows: seq<string>)
    requires forall i | 0 <= i < |rows| :: IsRuleLine(rows[i]) <==> IsRule(rows[i])
    ensures ColumnCounts(rows) == Each(CellCount, Without(rows, IsRule))
  {
    if rows != [] {
      var kept := Without(rows[1..], IsRule);
      WithoutCons(rows[0], rows[1..], IsRule);
      PipesSplit(Trim(rows[0], IsPipe));
      assert [rows[0]] + rows[1..] == rows;
      CountsAre(rows[1..]);
      EachCons(CellCount, [rows[0]] + kept);
      assert ([rows[0]] + kept)[1..] == kept;
    }
  }

  lemma CellCountsAre(lines: seq<string>)
    ensures ColumnCounts(TableRowLines(lines)) == CellCounts(lines)
    ensures forall row | row in TableRowLines(lines) :: IsRuleLine(row) <==> IsRule(row)
  {
    RowsAre(lines);
    forall row | row in Rows(lines) ensures IsRuleLine(row) <==> IsRule(row) {
      var i :| 0 <= i < |lines| && Each(Stripped, lines)[i] == row;
      RuleIs(lines[i]);
    }
    CountsAre(Rows(lines));
  }

  lemma {:induction false} OthersAre(counts: seq<real>, n: real)
    ensures Mismatches(counts, n) == Others(counts, n)
  {
    if counts != [] {
      OthersAre(counts[1..], n);
    }
  }

  lemma {:induction false} MismatchesInsert(x: real, s: seq<real>, n: real)
    ensures Mismatches(InsertBy(x, s, Same), n) == Mismatches([x] + s, n)
  {
    if s != [] && !(Same(x) <= Same(s[0])) {
      MismatchesInsert(x, s[1..], n);
    }
  }

  lemma {:induction false} MismatchesSorted(s: seq<real>, n: real)
    ensures Mismatches(SortBy(s, Same), n) == Mismatches(s, n)
  {
    if s != [] {
      MismatchesSorted(s[1..], n);
      MismatchesInsert(s[0], SortBy(s[1..], Same), n);
    }
  }

  lemma {:induction false} DifferInside(s: seq<real>, n: real, i: nat, j: nat)
    requires i <= j <= |s| && forall k | i <= k < j :: s[k] != n
    ensures Mismatches(s, n) >= j - i
  {
    if s != [] {
      DifferInside(s[1..], n, if i == 0 then 0 else i - 1, if j == 0 then 0 else j - 1);
    }
  }

  /** A value that less than half of the sequence differs from is in its middle. */
  lemma MiddleIs(s: seq<real>, n: real, k: nat)
    requires SortedBy(s, Same) && k < |s|
    requires Mismatches(s, n) < |s| - k && Mismatches(s, n) < k + 1
    ensures s[k] == n
  {
    if s[k] > n {
      forall j | k <= j < |s| ensures s[j] != n {
        assert Same(s[k]) <= Same(s[j]);
      }
      DifferInside(s, n, k, |s|);
    } else if s[k] < n {
      forall j | 0 <= j < k + 1 ensures s[j] != n {
        assert Same(s[j]) <= Same(s[k]);
      }
      DifferInside(s, n, 0, k + 1);
    }
  }

  lemma SortedMajority(s: seq<real>, n: real, m: nat)
    requires SortedBy(s, Same) && Mismatches(s, n) == m && 2 * m < |s|
    ensures s[|s| / 2] == n && (|s| % 2 == 0 ==> s[|s| / 2 - 1] == n)
  {
    MiddleIs(s, n, |s| / 2);
    if |s| % 2 == 0 {
      MiddleIs(s, n, |s| / 2 - 1);
    }
  }

  lemma MajorityMedian(counts: seq<real>, n: real)
    requires 2 * Mismatches(counts, n) < |counts|
    ensures Median(counts) == n
  {
    var m := Mismatches(counts, n);
    MismatchesSorted(counts, n);
    SortedMajority(SortBy(counts, Same), n, m);
  }

  /** The share of m among n is above a quarter. */
  lemma QuarterOf(m: nat, n: nat)
    requires n > 0
    ensures m as real / n as real > 0.25 <==> 4 * m > n
  {
    RatioOrder(m as real, n as real, 0.25);
  }

  ghost predicate NoShape(counts: seq<real>) {
    counts != [] && forall n: real | n >= 2.0 :: 4 * Others(counts, n) > |counts|
  }

  lemma JudgedBy(counts: seq<real>, m: real)
    requires counts != []
    requires forall n: real :: 4 * Others(counts, n) <= |counts| ==> m == n
    ensures JudgeBy(counts, m) == Damage(true, NoShape(counts))
  {
    QuarterOf(Mismatches(counts, m), |counts|);
    OthersAre(counts, m);
  }

  lemma NoShapeIs(counts: seq<real>)
    ensures JudgeCounts(counts) == Damage(true, NoShape(counts))
  {
    if counts != [] {
      forall n: real ensures 4 * Others(counts, n) <= |counts| ==> Median(counts) == n {
        SharedByMost(counts, n);
      }
      JudgedBy(counts, Median(counts));
    }
  }

  lemma SharedByMost(counts: seq<real>, n: real)
    requires counts != []
    ensures 4 * Others(counts, n) <= |counts| ==> Median(counts) == n
  {
    OthersAre(counts, n);
    if 4 * Others(counts, n) <= |counts| {
      MajorityMedian(counts, n);
    }
  }

  /** A table is two rows at least. It is damaged exactly if it has three rows
      and no rule among them, or has rows of cells of which no number of cells
      from two on is shared by three quarters. */
  lemma DamagedExactly(lines: seq<string>)
    ensures var rows := Rows(lines);
      DetectTableDamage(lines) ==
        if |rows| < 2 then Damage(false, false)
        else Damage(true, (|rows| >= 3 && Without(rows, IsRule) == rows) || NoShape(CellCounts(lines)))
  {
    RowsAre(lines);
    CellCountsAre(lines);
    NoRule(Rows(lines));
    NoShapeIs(CellCounts(lines));
  }

  lemma {:induction false} NoRule(rows: seq<string>)
    ensures Without(rows, IsRule) == rows <==> forall i | 0 <= i < |rows| :: !IsRule(rows[i])
  {
    if rows != [] {
      NoRule(rows[1..]);
      WithoutShorter(rows[1..]);
    }
  }

  lemma {:induction false} WithoutShorter(rows: seq<string>)
    ensures |Without(rows, IsRule)| <= |rows|
  {
    if rows != [] {
      WithoutShorter(rows[1..]);
    }
  }

  // ------------------------------------------------------- headers and printed cells

  /** From a pipe to another one, and behind it only white space. */
  ghost predicate IsRowText(line: string) {
    exists j :: 0 < j < |line| && line[0] == '|' && line[j] == '|' && AllOf(line[j + 1..], IsSpace)
  }

  lemma RowTextIs(line: string)
    ensures IsPipeLine(line) <==> IsRowText(line)
  {
    var t := TrimRight(line, IsSpace);
    TrimRightDrops(line, IsSpace);
    if IsPipeLine(line) {
      assert line[|t| - 1] == '|' && line[|t|..] == line[|t| - 1 + 1..];
    }
    if j :| 0 < j < |line| && line[0] == '|' && line[j] == '|' && AllOf(line[j + 1..], IsSpace) {
      assert line == line[..j + 1] + line[j + 1..];
      TrimRightTail(line[..j + 1], line[j + 1..]);
    }
  }

  lemma {:induction false} TrimRightTail(body: string, tail: string)
    requires body != [] && !IsSpace(body[|body| - 1]) && AllOf(tail, IsSpace)
    ensures TrimRight(body + tail, IsSpace) == body
  {
    if tail == [] {
      assert body + tail == body;
    } else {
      var last := |tail| - 1;
      assert (body + tail)[..|body + tail| - 1] == body + tail[..last];
      assert IsSpace(tail[last]);
      TrimRightTail(body, tail[..last]);
    }
  }

  /** A table has a header exactly if it has two lines and the first is a row; the
      header has a cell more than pipes are left inside the row. */
  lemma HeaderIs(md: string)
    ensures var lines, header := TableLines(md), ExtractTableHeader(md);
      && (header.Some? <==> |lines| >= 2 && IsRowText(lines[0]))
      && (header.Some? ==> |header.value| == Pipes(Trim(lines[0], IsPipe)) + 1)
  {
    var lines := TableLines(md);
    if |lines| >= 2 {
      RowTextIs(lines[0]);
      PipesSplit(Trim(lines[0], IsPipe));
    }
  }

  /** A printed cell is the stripped cell, and empty where the row has none. */
  lemma PrintedCell(rows: seq<seq<Option<string>>>, i: nat, j: nat)
    requires i < |rows| && j < Width(rows)
    ensures |Grid(rows)[i]| == Width(rows)
    ensures Grid(rows)[i][j]
      == if j < |rows[i]| && rows[i][j].Some? then Trim(rows[i][j].value, IsSpace) else ""
  {
    assert rows[i] in rows;
    PadFacts(CellTexts(rows[i]), Width(rows));
    assert j < |rows[i]| ==> Pad(CellTexts(rows[i]), Width(rows))[..|rows[i]|][j] == CellTexts(rows[i])[j];
  }
}
