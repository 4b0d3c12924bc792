/** Printing extracted tables as markdown, and the two readers that take such
    tables apart again: the header reader and the damage detector. */
module TablePrinter {
  import opened Ordering
  import opened TableRows
  import opened Text
  import opened Wrappers

  // ----------------------------------------------------------------- printing

  /** The text of a cell as a backend delivers it. */
  function CellText(cell: Option<string>): string {
    match cell
    case None => ""
    case Some(s) => Trim(s, IsSpace)
  }

  function CellTexts(row: seq<Option<string>>): (r: seq<string>)
    ensures |r| == |row|
  {
    seq(|row|, i requires 0 <= i < |row| => CellText(row[i]))
  }

  function Width(rows: seq<seq<Option<string>>>): (n: nat)
    ensures forall row | row in rows :: |row| <= n
    ensures n > 0 ==> exists row | row in rows :: |row| == n
  {
    if rows == [] then 0
    else
      var rest := Width(rows[1..]);
      if |rows[0]| >= rest then |rows[0]| else rest
  }

  function Pad(row: seq<string>, n: nat): (r: seq<string>)
    ensures |r| >= n
    decreases n - |row|
  {
    if |row| < n then Pad(row + [""], n) else row
  }

  /** The rows that are printed, all of the same width. */
  function Grid(rows: seq<seq<Option<string>>>): (r: seq<seq<string>>)
    ensures |r| == |rows|
  {
    seq(|rows|, i requires 0 <= i < |rows| => Pad(CellTexts(rows[i]), Width(rows)))
  }

  /** The printed rows: the header, the rule and the data rows. */
  function TableOf(rows: seq<seq<Option<string>>>): (r: seq<seq<string>>)
    requires rows != []
    ensures |r| == |rows| + 1
  {
    [Grid(rows)[0], Dashes(Width(rows))] + Grid(rows)[1..]
  }

  function PipeRows(rows: seq<seq<string>>): (r: seq<string>)
    ensures |r| == |rows|
  {
    seq(|rows|, i requires 0 <= i < |rows| => PipeRow(rows[i]))
  }

  function RowsToMarkdown(rows: seq<seq<Option<string>>>): string {
    if |rows| < 2 then "" else Join(PipeRows(TableOf(rows)), "\n")
  }

  method PadRows(normalized: array<seq<string>>, maxCols: nat)
    modifies normalized
    ensures forall i | 0 <= i < normalized.Length :: normalized[i] == Pad(old(normalized[i]), maxCols)
  {
    for i := 0 to normalized.Length
      invariant forall k | 0 <= k < i :: normalized[k] == Pad(old(normalized[k]), maxCols)
      invariant forall k | i <= k < normalized.Length :: normalized[k] == old(normalized[k])
    {
      while |normalized[i]| < maxCols
        invariant Pad(normalized[i], maxCols) == Pad(old(normalized[i]), maxCols)
        invariant forall k | 0 <= k < i :: normalized[k] == Pad(old(normalized[k]), maxCols)
        invariant forall k | i < k < normalized.Length :: normalized[k] == old(normalized[k])
        decreases maxCols - |normalized[i]|
      {
        normalized[i] := normalized[i] + [""];
      }
    }
  }

  method PrintLines(normalized: array<seq<string>>, maxCols: nat) returns (lines: seq<string>)
    requires normalized.Length >= 1
    ensures lines == PipeRows([normalized[0], Dashes(maxCols)] + normalized[1..])
  {
    ghost var all := [normalized[0], Dashes(maxCols)] + normalized[1..];
    lines := [PipeRow(normalized[0]), PipeRow(Dashes(maxCols))];
    assert lines == PipeRows(all[..2]);
    for i := 1 to normalized.Length
      invariant lines == PipeRows(all[..i + 1])
    {
      assert all[i + 1] == normalized[i];
      assert PipeRows(all[..i + 2]) == PipeRows(all[..i + 1]) + [PipeRow(all[i + 1])];
      lines := lines + [PipeRow(normalized[i])];
    }
    assert all[..normalized.Length + 1] == all;
  }

  method PrintRows(rows: seq<seq<Option<string>>>) returns (md: string)
    ensures md == RowsToMarkdown(rows)
  {
    if |rows| < 2 {
      return "";
    }
    var maxCols := Width(rows);
    var normalized := new seq<string>[|rows|](i requires 0 <= i < |rows| => CellTexts(rows[i]));
    PadRows(normalized, maxCols);
    assert normalized[..] == Grid(rows);
    assert normalized[1..] == Grid(rows)[1..];
    var lines := PrintLines(normalized, maxCols);
    md := Join(lines, "\n");
  }

  // ------------------------------------------------------------------ reading

  /** ^\|.*\|\s*$ on one line */
  predicate IsPipeLine(line: string) {
    var t := TrimRight(line, IsSpace);
    |t| >= 2 && t[0] == '|' && t[|t| - 1] == '|'
  }

  predicate InRule(c: char) { IsSpace(c) || c == ':' || c == '|' || c == '-' }

  /** ^\|[\s:|-]+\|\s*$ on one line */
  predicate IsRuleLine(line: string) {
    var t := TrimRight(line, IsSpace);
    |t| >= 3 && t[0] == '|' && t[|t| - 1] == '|' && AllOf(t[1..|t| - 1], InRule)
  }

  /** The cells of a line, as both readers see them. */
  function LineCells(line: string): (r: seq<string>)
    ensures |r| >= 1
  {
    TrimAll(Split(Trim(line, IsPipe), '|'))
  }

  /** The lines of a markdown table. */
  function TableLines(md: string): seq<string> { SplitLines(Trim(md, IsSpace)) }

  function ExtractTableHeader(md: string): Option<seq<string>> {
    var lines := TableLines(md);
    if |lines| < 2 || !IsPipeLine(lines[0]) then None else Some(LineCells(lines[0]))
  }

  /** The stripped lines that look like table rows. */
  function TableRowLines(lines: seq<string>): seq<string> {
    if lines == [] then []
    else
      var row := Trim(lines[0], IsSpace);
      if IsPipeLine(row) then [row] + TableRowLines(lines[1..]) else TableRowLines(lines[1..])
  }

  /** How many cells the rows have that are not rules. */
  function ColumnCounts(rows: seq<string>): seq<real> {
    if rows == [] then []
    else if IsRuleLine(rows[0]) then ColumnCounts(rows[1..])
    else [|LineCells(rows[0])| as real] + ColumnCounts(rows[1..])
  }

  function Mismatches(counts: seq<real>, median: real): nat {
    if counts == [] then 0 else (if counts[0] != median then 1 else 0) + Mismatches(counts[1..], median)
  }

  datatype Damage = Damage(hasTable: bool, damaged: bool)

  function JudgeBy(counts: seq<real>, median: real): Damage
    requires counts != []
  {
    if median < 2.0 then Damage(true, true)
    else Damage(true, Mismatches(counts, median) as real / |counts| as real > 0.25)
  }

  function JudgeCounts(counts: seq<real>): Damage {
    if counts == [] then Damage(true, false) else JudgeBy(counts, Median(counts))
  }

  function DetectTableDamage(lines: seq<string>): Damage {
    var rows := TableRowLines(lines);
    if |rows| < 2 then Damage(false, false)
    else if (forall i | 0 <= i < |rows| :: !IsRuleLine(rows[i])) && |rows| >= 3 then Damage(true, true)
    else JudgeCounts(ColumnCounts(rows))
  }

  /** The loop that collects the column counts. */
  method CollectCounts(rows: seq<string>) returns (counts: seq<real>)
    ensures counts == ColumnCounts(rows)
  {
    counts := [];
    for i := 0 to |rows|
      invariant counts + ColumnCounts(rows[i..]) == ColumnCounts(rows)
    {
      assert rows[i..][0] == rows[i] && rows[i..][1..] == rows[i + 1..];
      if IsRuleLine(rows[i]) {
        continue;
      }
      var cols := LineCells(rows[i]);
      counts := counts + [|cols| as real];
    }
  }

  method DetectDamage(lines: seq<string>) returns (d: Damage)
    ensures d == DetectTableDamage(lines)
  {
    var rows := TableRowLines(lines);
    if |rows| < 2 {
      return Damage(false, false);
    }
    if (forall i | 0 <= i < |rows| :: !IsRuleLine(rows[i])) && |rows| >= 3 {
      return Damage(true, true);
    }
    var counts := CollectCounts(rows);
    if counts == [] {
      return Damage(true, false);
    }
    var median := Median(counts);
    if median < 2.0 {
      return Damage(true, true);
    }
    var mismatches := Mismatches(counts, median);
    d := Damage(true, mismatches as real / |counts| as real > 0.25);
  }

  // --------------------------------------------------------------- round trip

  /** A cell that survives printing: no pipe and no line break inside. */
  ghost predicate IsPlain(cell: string) {
    '|' !in cell && NoneOf(cell, IsLineBreak)
  }

  /** A table cell: plain and already stripped. */
  ghost predicate IsCell(cell: string) {
    IsPlain(cell) && Trim(cell, IsSpace) == cell
  }

  ghost predicate AllCells(row: seq<string>) {
    forall i | 0 <= i < |row| :: IsCell(row[i])
  }

  ghost predicate PlainRows(rows: seq<seq<Option<string>>>) {
    forall i, j | 0 <= i < |rows| && 0 <= j < |rows[i]| :: IsPlain(CellText(rows[i][j]))
  }

  lemma {:induction false} PadFacts(row: seq<string>, n: nat)
    requires |row| <= n
    ensures |Pad(row, n)| == n && Pad(row, n)[..|row|] == row
    ensures forall i | |row| <= i < n :: Pad(row, n)[i] == ""
    decreases n - |row|
  {
    if |row| < n {
      PadFacts(row + [""], n);
      assert Pad(row, n)[..|row|] == (row + [""])[..|row|];
      assert Pad(row, n)[|row|] == (row + [""])[|row|];
    }
  }

  lemma CellTextIsCell(cell: Option<string>)
    requires IsPlain(CellText(cell))
    ensures IsCell(CellText(cell))
  {
    if cell.Some? {
      TrimTwice(cell.value, IsSpace);
    }
  }

  /** Every printed row has the table's width and holds cells. */
  lemma TableIsEven(rows: seq<seq<Option<string>>>)
    requires |rows| >= 2 && PlainRows(rows)
    ensures forall i | 0 <= i <= |rows| :: |TableOf(rows)[i]| == Width(rows) && AllCells(TableOf(rows)[i])
  {
    forall i | 0 <= i < |rows| ensures |Grid(rows)[i]| == Width(rows) && AllCells(Grid(rows)[i]) {
      GridRow(rows, i);
    }
    DashesAreCells(Width(rows));
    forall i | 0 <= i <= |rows| ensures |TableOf(rows)[i]| == Width(rows) && AllCells(TableOf(rows)[i]) {
      TableRow(rows, i);
    }
  }

  lemma DashesAreCells(n: nat)
    ensures AllCells(Dashes(n))
  {
    TrimNothing("---", IsSpace);
  }

  /** Which row of the grid a printed row is. */
  lemma TableRow(rows: seq<seq<Option<string>>>, i: nat)
    requires rows != [] && i <= |rows|
    ensures TableOf(rows)[i] == if i == 1 then Dashes(Width(rows)) else Grid(rows)[if i == 0 then 0 else i - 1]
  {
  }

  lemma GridRow(rows: seq<seq<Option<string>>>, i: nat)
    requires i < |rows| && PlainRows(rows)
    ensures |Grid(rows)[i]| == Width(rows) && AllCells(Grid(rows)[i])
  {
    var row := CellTexts(rows[i]);
    assert rows[i] in rows;
    PadFacts(row, Width(rows));
    forall j | 0 <= j < Width(rows) ensures IsCell(Grid(rows)[i][j]) {
      if j < |row| {
        assert Grid(rows)[i][j] == Grid(rows)[i][..|row|][j];
        CellTextIsCell(rows[i][j]);
      }
    }
  }

  /** A printed row is one line. */
  lemma PipeRowIsLine(cells: seq<string>)
    requires AllCells(cells)
    ensures NoneOf(PipeRow(cells), IsLineBreak)
  {
    var row := PipeRow(cells);
    forall i | 0 <= i < |row| ensures !IsLineBreak(row[i]) {
      if 2 <= i < |row| - 2 {
        var joined := Join(cells, " | ");
        assert row[i] == joined[i - 2];
        JoinChars(cells, " | ", row[i]);
      }
    }
  }

  /** The lines of a printed table are its rows. */
  lemma PrintedLines(rows: seq<seq<Option<string>>>)
    requires |rows| >= 2 && PlainRows(rows)
    ensures TableLines(RowsToMarkdown(rows)) == PipeRows(TableOf(rows))
    ensures SplitLines(RowsToMarkdown(rows)) == PipeRows(TableOf(rows))
  {
    TableIsEven(rows);
    var lines := PipeRows(TableOf(rows));
    forall i | 0 <= i < |lines| ensures NoneOf(lines[i], IsLineBreak) && lines[i] != [] {
      PipeRowIsLine(TableOf(rows)[i]);
    }
    SplitLinesJoin(lines);
    forall i | 0 <= i < |lines| ensures IsTrimmed(lines[i]) {
      RowEnds(TableOf(rows)[i]);
    }
    JoinIsTrimmed(lines);
    TrimNothing(RowsToMarkdown(rows), IsSpace);
  }

  /** Starts and ends with something other than white space. */
  ghost predicate IsTrimmed(s: string) {
    s != [] && !IsSpace(s[0]) && !IsSpace(s[|s| - 1])
  }

  lemma {:induction false} JoinIsTrimmed(lines: seq<string>)
    requires lines != [] && IsTrimmed(lines[0]) && IsTrimmed(lines[|lines| - 1])
    ensures IsTrimmed(Join(lines, "\n"))
  {
    if |lines| == 2 {
      assert Join(lines, "\n") == lines[0] + "\n" + lines[1];
    } else if |lines| > 2 {
      JoinEnds(lines);
    }
  }

  /** The last line ends in something other than white space. */
  ghost predicate LastInk(lines: seq<string>) {
    lines != [] && var last := lines[|lines| - 1]; last != [] && !IsSpace(last[|last| - 1])
  }

  lemma {:induction false} JoinEnds(lines: seq<string>)
    requires |lines| >= 2 && LastInk(lines)
    ensures |Join(lines, "\n")| > |lines[0]| && !IsSpace(Join(lines, "\n")[|Join(lines, "\n")| - 1])
    ensures lines[0] != [] ==> Join(lines, "\n")[0] == lines[0][0]
  {
    if |lines| > 2 {
      JoinEnds(lines[1..]);
    } else {
      assert Join(lines[1..], "\n") == lines[1];
    }
  }

  /** Reading a printed row gives back its cells. */
  lemma RowRoundTrip(cells: seq<string>)
    requires cells != [] && AllCells(cells)
    ensures IsPipeLine(PipeRow(cells)) && LineCells(PipeRow(cells)) == cells
  {
    var row := PipeRow(cells);
    RowEnds(cells);
    var inner := row[1..|row| - 1];
    assert row == "|" + inner + "|";
    StripPipes(inner);
    SplitInner(cells, inner);
    forall i | 0 <= i < |cells| ensures Trim(Padded(cells)[i], IsSpace) == cells[i] {
      TrimPadded(cells[i]);
    }
  }

  /** The parts between the outer pipes of a row. */
  lemma SplitInner(cells: seq<string>, inner: string)
    requires cells != [] && AllCells(cells) && PipeRow(cells) == "|" + inner + "|"
    ensures Split(inner, '|') == Padded(cells)
  {
    var row := PipeRow(cells);
    SplitPipeRow(cells);
    SplitPrefix("", inner + "|", '|');
    SplitSuffix(inner);
    assert row == "" + ['|'] + (inner + "|");
    assert Split(row, '|') == [[]] + (Split(inner, '|') + [[]]);
    assert Split(inner, '|') == Split(row, '|')[1..|Split(row, '|')| - 1];
  }

  lemma StripPipes(inner: string)
    requires |inner| >= 1 && inner[0] != '|' && inner[|inner| - 1] != '|'
    ensures Trim("|" + inner + "|", IsPipe) == inner
  {
    var s := "|" + inner + "|";
    assert s[1..] == inner + "|" && TrimLeft(inner + "|", IsPipe) == inner + "|";
    assert (inner + "|")[..|inner|] == inner;
    assert TrimRight(inner, IsPipe) == inner;
  }

  lemma {:induction false} SplitSuffix(s: string)
    ensures Split(s + "|", '|') == Split(s, '|') + [[]]
  {
    if s != [] {
      SplitSuffix(s[1..]);
      assert (s + "|")[1..] == s[1..] + "|";
    } else {
      assert (s + "|")[1..] == [];
    }
  }

  /** Printing a table and reading it line by line gives back its rows, all of
      the same width. */
  lemma TableRoundTrip(rows: seq<seq<Option<string>>>)
    requires |rows| >= 2 && PlainRows(rows) && Width(rows) >= 1
    ensures var lines := TableLines(RowsToMarkdown(rows));
      && |lines| == |rows| + 1
      && forall i | 0 <= i < |lines| ::
           IsPipeLine(lines[i]) && LineCells(lines[i]) == TableOf(rows)[i] && |LineCells(lines[i])| == Width(rows)
  {
    PrintedLines(rows);
    TableIsEven(rows);
    RowsReadBack(TableOf(rows), Width(rows));
  }

  lemma RowsReadBack(table: seq<seq<string>>, width: nat)
    requires width >= 1 && forall i | 0 <= i < |table| :: |table[i]| == width && AllCells(table[i])
    ensures var lines := PipeRows(table);
      forall i | 0 <= i < |lines| ::
        IsPipeLine(lines[i]) && LineCells(lines[i]) == table[i] && |LineCells(lines[i])| == width
  {
    forall i | 0 <= i < |table| ensures IsPipeLine(PipeRow(table[i])) && LineCells(PipeRow(table[i])) == table[i] {
      RowRoundTrip(table[i]);
    }
  }

  /** The header reader returns the printed header: the stripped cells of the
      first row, then empty cells up to the width of the table. */
  lemma HeaderRoundTrip(rows: seq<seq<Option<string>>>)
    requires |rows| >= 2 && PlainRows(rows) && Width(rows) >= 1
    ensures ExtractTableHeader(RowsToMarkdown(rows)) == Some(Grid(rows)[0])
    ensures |Grid(rows)[0]| == Width(rows) && Grid(rows)[0][..|rows[0]|] == CellTexts(rows[0])
    ensures forall j | |rows[0]| <= j < Width(rows) :: Grid(rows)[0][j] == ""
  {
    TableRoundTrip(rows);
    assert rows[0] in rows;
    PadFacts(CellTexts(rows[0]), Width(rows));
  }

  // ------------------------------------------------------------- no damage

  lemma {:induction false} AllTableRows(lines: seq<string>)
    requires forall i | 0 <= i < |lines| :: IsPipeLine(lines[i]) && Trim(lines[i], IsSpace) == lines[i]
    ensures TableRowLines(lines) == lines
  {
    if lines != [] {
      AllTableRows(lines[1..]);
    }
  }

  lemma {:induction false} EvenCounts(lines: seq<string>, n: nat)
    requires forall i | 0 <= i < |lines| :: |LineCells(lines[i])| == n
    ensures forall i | 0 <= i < |ColumnCounts(lines)| :: ColumnCounts(lines)[i] == n as real
    ensures ColumnCounts(lines) == [] <==> forall i | 0 <= i < |lines| :: IsRuleLine(lines[i])
  {
    if lines != [] {
      EvenCounts(lines[1..], n);
      assert (forall i | 0 <= i < |lines| :: IsRuleLine(lines[i])) <==>
        IsRuleLine(lines[0]) && forall i | 0 <= i < |lines[1..]| :: IsRuleLine(lines[1..][i]) by {
        assert forall i | 0 <= i < |lines[1..]| :: lines[1..][i] == lines[i + 1];
        assert forall i | 0 < i < |lines| :: lines[i] == lines[1..][i - 1];
      }
    }
  }

  lemma {:induction false} NoMismatch(counts: seq<real>, median: real)
    requires forall i | 0 <= i < |counts| :: counts[i] == median
    ensures Mismatches(counts, median) == 0
  {
    if counts != [] {
      NoMismatch(counts[1..], median);
    }
  }

  /** The rule under the header is recognised. */
  lemma RuleIsRuleLine(n: nat)
    ensures IsRuleLine(PipeRow(Dashes(n)))
  {
    var row := PipeRow(Dashes(n));
    RowEnds(Dashes(n));
    forall i | 0 <= i < |row| ensures InRule(row[i]) {
      if 2 <= i < |row| - 2 {
        assert row[i] == Join(Dashes(n), " | ")[i - 2];
        JoinChars(Dashes(n), " | ", row[i]);
      }
    }
  }

  lemma ZeroWidth(rows: seq<seq<Option<string>>>)
    requires |rows| >= 2 && PlainRows(rows) && Width(rows) == 0
    ensures forall i | 0 <= i <= |rows| ::
      IsRuleLine(PipeRow(TableOf(rows)[i])) && IsPipeLine(PipeRow(TableOf(rows)[i]))
  {
    TableIsEven(rows);
    forall i | 0 <= i <= |rows| ensures TableOf(rows)[i] == Dashes(0) {
      assert |TableOf(rows)[i]| == 0;
    }
    RuleIsRuleLine(0);
    RowEnds(Dashes(0));
  }

  lemma {:induction false} AllRules(lines: seq<string>)
    requires forall i | 0 <= i < |lines| :: IsRuleLine(lines[i])
    ensures ColumnCounts(lines) == []
  {
    if lines != [] {
      AllRules(lines[1..]);
    }
  }

  lemma JudgedByCommonCount(counts: seq<real>, median: real)
    requires counts != [] && forall i | 0 <= i < |counts| :: counts[i] == median
    ensures JudgeBy(counts, median) == Damage(true, median < 2.0)
  {
    NoMismatch(counts, median);
    var n := |counts| as real;
    assert 0.0 / n == 0.0;
  }

  lemma CommonMedian(counts: seq<real>, m: real)
    requires counts != [] && forall i | 0 <= i < |counts| :: counts[i] == m
    ensures Median(counts) == m
  {
    assert forall x | x in counts :: m <= x <= m;
    MedianBetween(counts, m, m);
  }

  lemma EvenJudged(counts: seq<real>, m: real)
    requires forall i | 0 <= i < |counts| :: counts[i] == m
    ensures JudgeCounts(counts) == Damage(true, counts != [] && m < 2.0)
  {
    if counts != [] {
      CommonMedian(counts, m);
      JudgedByCommonCount(counts, m);
    }
  }

  /** Lines that are all table rows, one of them a rule, are judged by their
      column counts. */
  lemma VerdictByCounts(lines: seq<string>, rule: nat)
    requires |lines| >= 2 && rule < |lines| && IsRuleLine(lines[rule])
    requires forall i | 0 <= i < |lines| :: IsPipeLine(lines[i]) && Trim(lines[i], IsSpace) == lines[i]
    ensures DetectTableDamage(lines) == JudgeCounts(ColumnCounts(lines))
  {
    AllTableRows(lines);
  }

  /** The damage detector on a printed table: always a table, and called damaged
      exactly when it has one column and a line that does not look like a rule.
      With two or more columns it is never called damaged. */
  lemma PrintedDamage(rows: seq<seq<Option<string>>>)
    requires |rows| >= 2 && PlainRows(rows)
    ensures var lines := PipeRows(TableOf(rows));
      DetectTableDamage(SplitLines(RowsToMarkdown(rows))) ==
        Damage(true, Width(rows) == 1 && exists i | 0 <= i < |lines| :: !IsRuleLine(lines[i]))
  {
    var lines := PipeRows(TableOf(rows));
    var n := Width(rows);
    PrintedLines(rows);
    RuleIsRuleLine(n);
    assert lines[1] == PipeRow(Dashes(n));
    forall i | 0 <= i < |lines| ensures Trim(lines[i], IsSpace) == lines[i] {
      RowEnds(TableOf(rows)[i]);
    }
    if n == 0 {
      ZeroWidth(rows);
      AllRules(lines);
    } else {
      TableRoundTrip(rows);
      EvenCounts(lines, n);
    }
    VerdictByCounts(lines, 1);
    EvenJudged(ColumnCounts(lines), n as real);
  }
}
