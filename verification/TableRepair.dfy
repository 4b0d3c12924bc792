/** Repairing markdown tables that start with bogus empty or separator rows, or
    lack the delimiter row after their first row. */
module TableRepair {
  import opened TableRows
  import opened Text

  // --------------------------------------------------------------------- rows

  predicate StartsWithPipe(s: string) { s != [] && s[0] == '|' }

  predicate IsTableRow(line: string) {
    var stripped := Trim(line, IsSpace);
    StartsWithPipe(stripped) && '|' in stripped[1..]
  }

  predicate IsBlank(s: string) { Trim(s, IsSpace) == [] }

  function WithoutFirst(parts: seq<string>): seq<string> {
    if parts != [] && IsBlank(parts[0]) then parts[1..] else parts
  }

  function WithoutLast(parts: seq<string>): seq<string> {
    if parts != [] && IsBlank(parts[|parts| - 1]) then parts[..|parts| - 1] else parts
  }

  /** The cells between the pipes; a blank first or last part is the outside of
      the row. */
  function RowCells(row: string): seq<string> {
    var inner := Trim(row, IsSpace);
    if !StartsWithPipe(inner) then [] else TrimAll(WithoutLast(WithoutFirst(Split(inner, '|'))))
  }

  function AfterColon(cell: string): string { if cell != [] && cell[0] == ':' then cell[1..] else cell }

  function BeforeColon(cell: string): string {
    if cell != [] && cell[|cell| - 1] == ':' then cell[..|cell| - 1] else cell
  }

  predicate AllDashes(s: string) { forall i | 0 <= i < |s| :: s[i] == '-' }

  /** :?-{3,}:? */
  predicate IsSeparatorCell(cell: string) {
    var dashes := BeforeColon(AfterColon(cell));
    |dashes| >= 3 && AllDashes(dashes)
  }

  predicate IsSeparatorRow(line: string) {
    var cells := RowCells(line);
    cells != [] && forall i | 0 <= i < |cells| :: IsSeparatorCell(cells[i])
  }

  predicate IsEmptyRow(line: string) {
    var cells := RowCells(line);
    cells != [] && forall i | 0 <= i < |cells| :: cells[i] == []
  }

  function SeparatorOf(n: nat): string { PipeRow(Dashes(n)) }

  function SeparatorRowFor(header: string): string { SeparatorOf(|RowCells(header)|) }

  // -------------------------------------------------- facts about rows

  lemma {:induction false} SplitCount(s: string, sep: char)
    requires sep in s
    ensures |Split(s, sep)| >= 2
  {
    if s[0] != sep {
      SplitCount(s[1..], sep);
    }
  }

  /** A table row has at least one cell. */
  lemma TableRowHasCells(line: string)
    requires IsTableRow(line)
    ensures RowCells(line) != []
  {
    var inner := Trim(line, IsSpace);
    SplitCount(inner[1..], '|');
    assert Split(inner, '|') == [[]] + Split(inner[1..], '|');
    assert Trim([], IsSpace) == [];
  }

  /** The delimiter row has the cells it was made for, and is a separator. */
  lemma SeparatorCells(n: nat)
    requires n >= 1
    ensures RowCells(SeparatorOf(n)) == Dashes(n) && IsTableRow(SeparatorOf(n))
  {
    PipeRowCells(Dashes(n));
    TrimmedDashes(n);
  }

  /** The cells of a printed row are its trimmed cells. */
  lemma PipeRowCells(cells: seq<string>)
    requires cells != [] && NoPipes(cells)
    ensures RowCells(PipeRow(cells)) == TrimAll(Padded(cells)) && IsTableRow(PipeRow(cells))
  {
    var row := PipeRow(cells);
    SplitPipeRow(cells);
    RowEnds(cells);
    CellsOfParts(row, Padded(cells));
    assert row[1..][|row| - 2] == '|';
  }

  lemma CellsOfParts(row: string, middle: seq<string>)
    requires StartsWithPipe(row) && Trim(row, IsSpace) == row && Split(row, '|') == [[]] + middle + [[]]
    ensures RowCells(row) == TrimAll(middle)
  {
    var parts := Split(row, '|');
    assert Trim([], IsSpace) == [];
    assert parts[1..] == middle + [[]] && (middle + [[]])[..|middle|] == middle;
  }

  lemma TrimmedDashes(n: nat)
    ensures TrimAll(Padded(Dashes(n))) == Dashes(n)
  {
    forall i | 0 <= i < n ensures Trim(Padded(Dashes(n))[i], IsSpace) == "---" {
      TrimPadded("---");
      TrimNothing("---", IsSpace);
    }
  }

  lemma SeparatorIsSeparator(n: nat)
    requires n >= 1
    ensures IsSeparatorRow(SeparatorOf(n)) && SeparatorRowFor(SeparatorOf(n)) == SeparatorOf(n)
  {
    SeparatorCells(n);
    forall i | 0 <= i < n ensures IsSeparatorCell(Dashes(n)[i]) {
      assert Dashes(n)[i] == "---";
    }
  }

  /** An empty row is no separator. */
  lemma EmptyIsNoSeparator(line: string)
    ensures !(IsEmptyRow(line) && IsSeparatorRow(line))
  {
    var cells := RowCells(line);
    if cells != [] && cells[0] == [] {
      assert !IsSeparatorCell(cells[0]);
    }
  }

  // ------------------------------------------------------------------- blocks

  /** How rows are told apart, and the delimiter row made for a first row. */
  datatype Rules = Rules(isRow: string -> bool, isEmpty: string -> bool, isSeparator: string -> bool,
                         delimiter: string -> string)

  const MARKDOWN := Rules(IsTableRow, IsEmptyRow, IsSeparatorRow, SeparatorRowFor)

  /** What the repair needs to know of the rules. */
  ghost predicate Sound(r: Rules) {
    && (forall line | r.isRow(line) :: IsDelimiter(r, r.delimiter(line)))
    && (forall line :: !(r.isEmpty(line) && r.isSeparator(line)))
  }

  ghost predicate IsDelimiter(r: Rules, line: string) {
    r.isRow(line) && r.isSeparator(line) && r.delimiter(line) == line
  }

  lemma MarkdownSound()
    ensures Sound(MARKDOWN)
  {
    forall line | IsTableRow(line) ensures IsDelimiter(MARKDOWN, SeparatorRowFor(line)) {
      TableRowHasCells(line);
      SeparatorCells(|RowCells(line)|);
      SeparatorIsSeparator(|RowCells(line)|);
    }
    forall line ensures !(IsEmptyRow(line) && IsSeparatorRow(line)) {
      EmptyIsNoSeparator(line);
    }
  }

  function DropEmptyRows(r: Rules, block: seq<string>): seq<string>
    decreases |block|
  {
    if block != [] && r.isEmpty(block[0]) then DropEmptyRows(r, block[1..]) else block
  }

  function DropSeparator(r: Rules, block: seq<string>): seq<string> {
    if block != [] && r.isSeparator(block[0]) then block[1..] else block
  }

  /** The block without its bogus prefix. */
  function Stripped(r: Rules, block: seq<string>): seq<string> { DropSeparator(r, DropEmptyRows(r, block)) }

  function WithDelimiter(r: Rules, block: seq<string>): seq<string> {
    if |block| >= 2 && !r.isSeparator(block[1]) then [block[0], r.delimiter(block[0])] + block[1..] else block
  }

  function NormalBlock(r: Rules, block: seq<string>): seq<string> { WithDelimiter(r, Stripped(r, block)) }

  method NormalizeTableBlock(r: Rules, rows: seq<string>) returns (block: seq<string>)
    ensures block == NormalBlock(r, rows)
  {
    block := rows;
    while block != [] && r.isEmpty(block[0])
      invariant DropEmptyRows(r, block) == DropEmptyRows(r, rows)
      decreases |block|
    {
      block := block[1..];
    }
    if block != [] && r.isSeparator(block[0]) {
      block := block[1..];
    }
    if |block| >= 2 && !r.isSeparator(block[1]) {
      block := [block[0], r.delimiter(block[0])] + block[1..];
    }
  }

  // ----------------------------------------------------------------- documents

  ghost predicate AllRows(r: Rules, lines: seq<string>) {
    forall i | 0 <= i < |lines| :: r.isRow(lines[i])
  }

  /** The length of the run of table rows at the start. */
  function BlockEnd(r: Rules, lines: seq<string>): (k: nat)
    ensures k <= |lines| && AllRows(r, lines[..k])
    ensures k < |lines| ==> !r.isRow(lines[k])
    decreases |lines|
  {
    if lines != [] && r.isRow(lines[0]) then
      var k := BlockEnd(r, lines[1..]);
      assert lines[..k + 1] == [lines[0]] + lines[1..][..k];
      k + 1
    else 0
  }

  function Repair(r: Rules, lines: seq<string>): seq<string>
    decreases |lines|
  {
    if lines == [] then []
    else
      var k := BlockEnd(r, lines);
      if k == 0 then [lines[0]] + Repair(r, lines[1..])
      else NormalBlock(r, lines[..k]) + Repair(r, lines[k..])
  }

  method TakeBlock(r: Rules, lines: seq<string>) returns (block: seq<string>)
    ensures block == lines[..BlockEnd(r, lines)]
  {
    block := [];
    var i := 0;
    while i < |lines| && r.isRow(lines[i])
      invariant i <= |lines| && block == lines[..i]
      invariant i + BlockEnd(r, lines[i..]) == BlockEnd(r, lines)
    {
      assert lines[i..][1..] == lines[i + 1..];
      block, i := block + [lines[i]], i + 1;
    }
  }

  method RepairLines(r: Rules, lines: seq<string>) returns (out: seq<string>)
    ensures out == Repair(r, lines)
  {
    out := [];
    var i := 0;
    while i < |lines|
      invariant i <= |lines|
      invariant out + Repair(r, lines[i..]) == Repair(r, lines)
    {
      var rest := lines[i..];
      assert rest[0] == lines[i] && rest[1..] == lines[i + 1..];
      if !r.isRow(lines[i]) {
        Associate(out, [lines[i]], Repair(r, lines[i + 1..]));
        out, i := out + [lines[i]], i + 1;
      } else {
        var block := TakeBlock(r, rest);
        assert rest[|block|..] == lines[i + |block|..];
        var rows := NormalizeTableBlock(r, block);
        Associate(out, rows, Repair(r, lines[i + |block|..]));
        out, i := out + rows, i + |block|;
      }
    }
  }

  /** The repaired text. */
  function RepairText(content: string): string { Join(Repair(MARKDOWN, Split(content, '\n')), "\n") }

  method NormalizeSpuriousTablePrefixes(content: string) returns (text: string)
    ensures text == RepairText(content)
  {
    var out := RepairLines(MARKDOWN, Split(content, '\n'));
    text := Join(out, "\n");
  }

  // ------------------------------------------------------------ conservation

  /** A line that says something: outside tables, or a row that is neither empty
      nor a separator. */
  predicate IsContent(r: Rules, line: string) {
    !r.isRow(line) || (!r.isEmpty(line) && !r.isSeparator(line))
  }

  /** The lines that carry content, in order. */
  function Content(r: Rules, lines: seq<string>): seq<string>
    decreases |lines|
  {
    if lines == [] then []
    else if IsContent(r, lines[0]) then [lines[0]] + Content(r, lines[1..])
    else Content(r, lines[1..])
  }

  lemma {:induction false} ContentAppend(r: Rules, a: seq<string>, b: seq<string>)
    ensures Content(r, a + b) == Content(r, a) + Content(r, b)
    decreases |a|
  {
    if a == [] {
      assert a + b == b;
    } else {
      ContentAppend(r, a[1..], b);
      assert (a + b)[1..] == a[1..] + b;
    }
  }

  lemma {:induction false} StrippedContent(r: Rules, block: seq<string>)
    requires AllRows(r, block)
    ensures Content(r, Stripped(r, block)) == Content(r, block) && AllRows(r, Stripped(r, block))
    decreases |block|
  {
    if block != [] && r.isEmpty(block[0]) {
      StrippedContent(r, block[1..]);
    }
  }

  lemma NormalBlockContent(r: Rules, block: seq<string>)
    requires Sound(r) && AllRows(r, block)
    ensures Content(r, NormalBlock(r, block)) == Content(r, block) && AllRows(r, NormalBlock(r, block))
  {
    var b := Stripped(r, block);
    StrippedContent(r, block);
    if |b| >= 2 && !r.isSeparator(b[1]) {
      var separator := r.delimiter(b[0]);
      assert IsDelimiter(r, separator);
      assert b == [b[0]] + b[1..];
      assert [b[0], separator] + b[1..] == [b[0]] + ([separator] + b[1..]);
      ContentAppend(r, [b[0]], b[1..]);
      ContentAppend(r, [b[0]], [separator] + b[1..]);
      assert ([separator] + b[1..])[1..] == b[1..];
    }
  }

  /** Repair keeps all lines outside tables and all rows that are neither empty
      nor separators, in order, and adds no other content. */
  lemma {:induction false} RepairConserves(r: Rules, lines: seq<string>)
    requires Sound(r)
    ensures Content(r, Repair(r, lines)) == Content(r, lines)
    decreases |lines|
  {
    if lines != [] {
      var k := BlockEnd(r, lines);
      if k == 0 {
        RepairConserves(r, lines[1..]);
        assert ([lines[0]] + Repair(r, lines[1..]))[1..] == Repair(r, lines[1..]);
      } else {
        RepairConserves(r, lines[k..]);
        NormalBlockContent(r, lines[..k]);
        ContentAppend(r, NormalBlock(r, lines[..k]), Repair(r, lines[k..]));
        ContentAppend(r, lines[..k], lines[k..]);
        assert lines == lines[..k] + lines[k..];
      }
    }
  }

  // ------------------------------------------------------------- delimiter rows

  /** Every table of two or more rows has a separator as its second row; inside
      tells whether the line before is a table row. */
  ghost predicate Delimited(r: Rules, lines: seq<string>, inside: bool)
    decreases |lines|
  {
    lines == [] ||
    (&& (!inside && |lines| >= 2 && r.isRow(lines[0]) && r.isRow(lines[1]) ==> r.isSeparator(lines[1]))
     && Delimited(r, lines[1..], r.isRow(lines[0])))
  }

  /** What follows a block: nothing, or a line outside tables. */
  ghost predicate Outside(r: Rules, rest: seq<string>) { rest == [] || !r.isRow(rest[0]) }

  lemma {:induction false} DelimitedInside(r: Rules, rows: seq<string>, rest: seq<string>)
    requires AllRows(r, rows) && Delimited(r, rest, false) && Outside(r, rest)
    ensures Delimited(r, rows + rest, true)
    decreases |rows|
  {
    if rows == [] {
      assert rows + rest == rest;
    } else {
      DelimitedInside(r, rows[1..], rest);
      assert (rows + rest)[1..] == rows[1..] + rest;
    }
  }

  lemma BlockDelimited(r: Rules, block: seq<string>, rest: seq<string>)
    requires Sound(r) && AllRows(r, block) && Delimited(r, rest, false) && Outside(r, rest)
    ensures Delimited(r, NormalBlock(r, block) + rest, false)
  {
    var b := NormalBlock(r, block);
    NormalBlockContent(r, block);
    StrippedContent(r, block);
    if b == [] {
      assert b + rest == rest;
    } else {
      DelimitedInside(r, b[1..], rest);
      assert (b + rest)[1..] == b[1..] + rest;
      assert r.isRow(Stripped(r, block)[0]) && IsDelimiter(r, r.delimiter(Stripped(r, block)[0]));
    }
  }

  lemma RepairStart(r: Rules, lines: seq<string>)
    requires Outside(r, lines)
    ensures Outside(r, Repair(r, lines))
  {
  }

  /** In repaired text every table of two or more rows has its delimiter row. */
  lemma {:induction false} RepairDelimits(r: Rules, lines: seq<string>)
    requires Sound(r)
    ensures Delimited(r, Repair(r, lines), false)
    decreases |lines|
  {
    if lines != [] {
      var k := BlockEnd(r, lines);
      if k == 0 {
        RepairDelimits(r, lines[1..]);
        assert ([lines[0]] + Repair(r, lines[1..]))[1..] == Repair(r, lines[1..]);
      } else {
        RepairDelimits(r, lines[k..]);
        RepairStart(r, lines[k..]);
        BlockDelimited(r, lines[..k], Repair(r, lines[k..]));
      }
    }
  }

  // ---------------------------------------------------------------- idempotence

  predicate IsData(r: Rules, row: string) { !r.isEmpty(row) && !r.isSeparator(row) }

  /** When repairing a repaired block changes nothing: the first row left after
      stripping is a data row, or it is a delimiter row that the repair itself
      would write there. */
  predicate StableBlock(r: Rules, block: seq<string>) {
    var s := Stripped(r, block);
    s == [] || IsData(r, s[0]) || StableDelimiters(r, s)
  }

  predicate StableDelimiters(r: Rules, s: seq<string>) {
    |s| >= 2 && r.isSeparator(s[0]) && r.delimiter(s[0]) == s[0] &&
    (!r.isSeparator(s[1]) || (s[1] == s[0] && |s| >= 3 && !r.isSeparator(s[2])))
  }

  lemma EmptyFirst(r: Rules, s: seq<string>)
    requires Sound(r) && AllRows(r, s) && s != [] && r.isEmpty(s[0])
    ensures |NormalBlock(r, WithDelimiter(r, s))| < |WithDelimiter(r, s)|
  {
    var n := WithDelimiter(r, s);
    assert IsDelimiter(r, r.delimiter(s[0]));
    if |s| == 1 {
      assert DropEmptyRows(r, n) == [];
    } else {
      assert r.isSeparator(n[1]) && n[1..] != [] && !r.isEmpty(n[1]);
      assert DropEmptyRows(r, n) == n[1..];
      assert Stripped(r, n) == n[2..];
    }
  }

  lemma SeparatorFirst(r: Rules, s: seq<string>)
    requires Sound(r) && AllRows(r, s) && s != [] && r.isSeparator(s[0])
    ensures NormalBlock(r, WithDelimiter(r, s)) == WithDelimiter(r, s) <==> StableDelimiters(r, s)
  {
    var n := WithDelimiter(r, s);
    var d := r.delimiter(s[0]);
    assert IsDelimiter(r, d);
    assert n[0] == s[0] && !r.isEmpty(s[0]);
    assert Stripped(r, n) == n[1..];
    if |s| >= 2 && !r.isSeparator(s[1]) {
      assert n[1..] == [d] + s[1..];
      assert WithDelimiter(r, n[1..]) == [d, d] + s[1..] by {
        assert n[1..][1] == s[1] && n[1..][1..] == s[1..];
      }
      assert n == [s[0], d] + s[1..];
      assert n[0] == s[0] && ([d, d] + s[1..])[0] == d;
    } else if |s| >= 3 && !r.isSeparator(s[2]) {
      var again := WithDelimiter(r, s[1..]);
      assert again == [s[1], r.delimiter(s[1])] + s[2..];
      assert s == [s[0], s[1]] + s[2..];
      assert again[0] == s[1] && again[1] == r.delimiter(s[1]);
    }
  }

  lemma DataFirst(r: Rules, s: seq<string>)
    requires Sound(r) && AllRows(r, s) && s != [] && IsData(r, s[0])
    ensures NormalBlock(r, WithDelimiter(r, s)) == WithDelimiter(r, s)
  {
    assert IsDelimiter(r, r.delimiter(s[0]));
    assert Stripped(r, WithDelimiter(r, s)) == WithDelimiter(r, s);
  }

  lemma NormalBlockTwice(r: Rules, block: seq<string>)
    requires Sound(r) && AllRows(r, block)
    ensures NormalBlock(r, NormalBlock(r, block)) == NormalBlock(r, block) <==> StableBlock(r, block)
  {
    var s := Stripped(r, block);
    StrippedContent(r, block);
    if s == [] {
    } else if r.isEmpty(s[0]) {
      EmptyFirst(r, s);
    } else if r.isSeparator(s[0]) {
      SeparatorFirst(r, s);
    } else {
      DataFirst(r, s);
    }
  }

  /** Every block of table rows is stable. */
  predicate AllStable(r: Rules, lines: seq<string>)
    decreases |lines|
  {
    lines == [] ||
    var k := BlockEnd(r, lines);
    if k == 0 then AllStable(r, lines[1..])
    else StableBlock(r, lines[..k]) && AllStable(r, lines[k..])
  }

  lemma {:induction false} BlockEndOf(r: Rules, rows: seq<string>, rest: seq<string>)
    requires AllRows(r, rows) && Outside(r, rest)
    ensures BlockEnd(r, rows + rest) == |rows|
    decreases |rows|
  {
    if rows == [] {
      assert rows + rest == rest;
    } else {
      BlockEndOf(r, rows[1..], rest);
      assert (rows + rest)[1..] == rows[1..] + rest;
    }
  }

  /** Repairing a block and what follows it, one after the other. */
  lemma RepairAppend(r: Rules, rows: seq<string>, rest: seq<string>)
    requires AllRows(r, rows) && Outside(r, rest)
    ensures Repair(r, rows + rest) == NormalBlock(r, rows) + Repair(r, rest)
  {
    if rows == [] {
      assert rows + rest == rest && NormalBlock(r, rows) == [];
      assert [] + Repair(r, rest) == Repair(r, rest);
    } else {
      BlockEndOf(r, rows, rest);
      assert (rows + rest)[..|rows|] == rows && (rows + rest)[|rows|..] == rest;
    }
  }

  lemma SplitEqual(r: Rules, a: seq<string>, b: seq<string>, c: seq<string>, d: seq<string>)
    requires AllRows(r, a) && AllRows(r, c) && Outside(r, b) && Outside(r, d)
    ensures a + b == c + d <==> a == c && b == d
  {
    if a + b == c + d {
      BlockEndOf(r, a, b);
      BlockEndOf(r, c, d);
      assert (a + b)[..|a|] == a && (c + d)[..|c|] == c;
      assert (a + b)[|a|..] == b && (c + d)[|c|..] == d;
    }
  }

  /** Repairing twice is the same as repairing once exactly when every block is
      stable. */
  lemma {:induction false} RepairTwice(r: Rules, lines: seq<string>)
    requires Sound(r)
    ensures Repair(r, Repair(r, lines)) == Repair(r, lines) <==> AllStable(r, lines)
    decreases |lines|
  {
    if lines != [] {
      var k := BlockEnd(r, lines);
      if k == 0 {
        var rest := Repair(r, lines[1..]);
        RepairTwice(r, lines[1..]);
        assert ([lines[0]] + rest)[1..] == rest;
        assert Repair(r, [lines[0]] + rest) == [lines[0]] + Repair(r, rest);
        assert ([lines[0]] + Repair(r, rest))[1..] == Repair(r, rest);
      } else {
        var n, rest := NormalBlock(r, lines[..k]), Repair(r, lines[k..]);
        RepairTwice(r, lines[k..]);
        RepairStart(r, lines[k..]);
        RepairStart(r, rest);
        NormalBlockContent(r, lines[..k]);
        NormalBlockContent(r, n);
        NormalBlockTwice(r, lines[..k]);
        RepairAppend(r, n, rest);
        SplitEqual(r, NormalBlock(r, n), Repair(r, rest), n, rest);
      }
    }
  }

  /** A block whose first stripped row is a data row is stable, and so is a text
      of such blocks. */
  predicate AllDataFirst(r: Rules, lines: seq<string>)
    decreases |lines|
  {
    lines == [] ||
    var k := BlockEnd(r, lines);
    if k == 0 then AllDataFirst(r, lines[1..])
    else (var s := Stripped(r, lines[..k]); s == [] || IsData(r, s[0])) && AllDataFirst(r, lines[k..])
  }

  lemma {:induction false} DataFirstIsStable(r: Rules, lines: seq<string>)
    requires AllDataFirst(r, lines)
    ensures AllStable(r, lines)
    decreases |lines|
  {
    if lines != [] {
      var k := BlockEnd(r, lines);
      DataFirstIsStable(r, lines[if k == 0 then 1 else k..]);
    }
  }

  /** No line gets a line feed, so text and lines tell the same story. */
  lemma {:induction false} RepairKeepsLines(lines: seq<string>)
    requires forall line | line in lines :: '\n' !in line
    ensures forall line | line in Repair(MARKDOWN, lines) :: '\n' !in line
    decreases |lines|
  {
    if lines != [] {
      var k := BlockEnd(MARKDOWN, lines);
      RepairKeepsLines(lines[if k == 0 then 1 else k..]);
      if k > 0 {
        BlockKeepsLines(lines[..k]);
      }
    }
  }

  lemma {:induction false} StrippedIsSuffix(r: Rules, block: seq<string>)
    ensures forall line | line in Stripped(r, block) :: line in block
    decreases |block|
  {
    if block != [] && r.isEmpty(block[0]) {
      StrippedIsSuffix(r, block[1..]);
      assert Stripped(r, block) == Stripped(r, block[1..]);
      assert forall line | line in block[1..] :: line in block;
    }
  }

  lemma DelimiterIsOneLine(n: nat)
    ensures '\n' !in SeparatorOf(n)
  {
    if '\n' in SeparatorOf(n) {
      assert '\n' in Join(Dashes(n), " | ");
      JoinChars(Dashes(n), " | ", '\n');
    }
  }

  lemma BlockKeepsLines(block: seq<string>)
    requires forall line | line in block :: '\n' !in line
    ensures forall line | line in NormalBlock(MARKDOWN, block) :: '\n' !in line
  {
    var s := Stripped(MARKDOWN, block);
    StrippedIsSuffix(MARKDOWN, block);
    forall line | line in WithDelimiter(MARKDOWN, s) ensures '\n' !in line {
      if s != [] {
        DelimiterIsOneLine(|RowCells(s[0])|);
      }
    }
  }

  /** Repairing a text twice is the same as repairing it once exactly when every
      block of table rows is stable. */
  lemma RepairTextTwice(content: string)
    ensures RepairText(RepairText(content)) == RepairText(content) <==> AllStable(MARKDOWN, Split(content, '\n'))
  {
    var lines := Split(content, '\n');
    var once := Repair(MARKDOWN, lines);
    MarkdownSound();
    RepairTwice(MARKDOWN, lines);
    RepairKeepsLines(lines);
    if once == [] {
      assert RepairText(content) == "" && Split("", '\n') == [""];
      assert !IsTableRow("") by { assert Trim("", IsSpace) == ""; }
      assert Repair(MARKDOWN, [""]) == [""];
      assert Repair(MARKDOWN, []) == [];
    } else {
      SplitJoin(once, '\n');
      RepairKeepsLines(once);
      SameText(Repair(MARKDOWN, once), once);
    }
  }

  /** Texts of different lines differ, unless one has no line and the other one
      empty line. */
  lemma SameText(a: seq<string>, b: seq<string>)
    requires b != [] && forall line | line in a + b :: '\n' !in line
    ensures Join(a, "\n") == Join(b, "\n") <==> (a == b || (a == [] && b == [""]))
  {
    assert forall line | line in b :: line in a + b;
    assert forall line | line in a :: line in a + b;
    SplitJoin(b, '\n');
    if a != [] {
      SplitJoin(a, '\n');
    } else if Join(b, "\n") == "" {
      assert Split("", '\n') == [""];
    }
  }

  lemma TwoDelimiters(r: Rules, d: string)
    requires IsDelimiter(r, d) && !r.isEmpty(d)
    ensures Repair(r, [d, d]) == [d] && Repair(r, [d]) == []
  {
    assert [d, d][1..] == [d] && [d][1..] == [] && [d, d][..2] == [d, d] && [d][..1] == [d];
    assert Stripped(r, [d, d]) == [d] && Stripped(r, [d]) == [];
    assert BlockEnd(r, [d]) == 1 && BlockEnd(r, [d, d]) == 2;
    assert [d, d][2..] == [];
  }

  /** Two delimiter rows: the first repair leaves one, the second none. */
  lemma RepairNotIdempotent()
    ensures var d := SeparatorOf(1);
      RepairText(d + "\n" + d) == d && RepairText(d) == ""
  {
    var d := SeparatorOf(1);
    DelimiterIsOneLine(1);
    SeparatorCells(1);
    SeparatorIsSeparator(1);
    EmptyIsNoSeparator(d);
    TwoDelimiters(MARKDOWN, d);
    SplitOne(d, '\n');
    SplitPrefix(d, d, '\n');
    assert d + ['\n'] + d == d + "\n" + d;
    assert [d] + [d] == [d, d];
  }
}
