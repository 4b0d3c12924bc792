/** Merging two printed tables prints the table of all their rows.
    Source: docreader/parser/pdf_table_extractor.py. */
module PrintedMerges {
  import opened Wrappers
  import opened Text
  import opened TableRows
  import opened TablePrinter
  import opened TableMerge

  type Table = seq<seq<Option<string>>>

  lemma WidthTogether(a: Table, b: Table)
    requires a != [] && b != [] && Width(b) <= Width(a)
    ensures Width(a + b[1..]) == Width(a)
  {
    var all := a + b[1..];
    if Width(a) > 0 {
      var row :| row in a && |row| == Width(a);
      assert row in all;
    }
    if Width(all) > 0 {
      var row :| row in all && |row| == Width(all);
      assert row in a || row in b;
    }
  }

  lemma GridTogether(a: Table, b: Table)
    requires a != [] && b != [] && Width(a) == Width(b)
    ensures Grid(a + b[1..]) == Grid(a) + Grid(b)[1..]
  {
    var all := a + b[1..];
    WidthTogether(a, b);
    forall i | 0 <= i < |all| ensures Grid(all)[i] == (Grid(a) + Grid(b)[1..])[i] {
      assert all[i] == if i < |a| then a[i] else b[i - |a| + 1];
    }
  }

  lemma PrintedTogether(a: seq<seq<string>>, b: seq<seq<string>>)
    ensures PipeRows(a + b) == PipeRows(a) + PipeRows(b)
  {
  }

  /** Rows with a delimiter behind the first. */
  function Delimited(rows: seq<seq<string>>, delimiter: seq<string>): seq<seq<string>>
    requires rows != []
  {
    [rows[0], delimiter] + rows[1..]
  }

  lemma DelimitedTogether(a: seq<seq<string>>, b: seq<seq<string>>, delimiter: seq<string>)
    requires a != [] && b != []
    ensures Delimited(a + b[1..], delimiter) == Delimited(a, delimiter) + Delimited(b, delimiter)[2..]
  {
  }

  lemma TableTogether(a: Table, b: Table)
    requires a != [] && b != [] && Width(a) == Width(b)
    ensures TableOf(a + b[1..]) == TableOf(a) + TableOf(b)[2..]
  {
    WidthTogether(a, b);
    GridTogether(a, b);
    DelimitedTogether(Grid(a), Grid(b), Dashes(Width(a)));
  }

  lemma LinesTogether(a: Table, b: Table)
    requires a != [] && b != [] && Width(a) == Width(b)
    ensures PipeRows(TableOf(a + b[1..])) == PipeRows(TableOf(a)) + PipeRows(TableOf(b))[2..]
  {
    TableTogether(a, b);
    PrintedTogether(TableOf(a), TableOf(b)[2..]);
    PrintedTail(TableOf(b));
  }

  lemma PrintedTail(rows: seq<seq<string>>)
    requires |rows| >= 2
    ensures PipeRows(rows)[2..] == PipeRows(rows[2..])
  {
  }

  lemma MergedLines(a: string, b: string, first: seq<string>, second: seq<string>)
    requires TableLines(a) == first && TableLines(b) == second && |second| >= 3
    ensures MergeTableRows(a, b) == Join(first + second[2..], "\n")
  {
  }

  /** Of two printed tables of the same width the second loses its header and
      delimiter, and what is printed is the table of all the other rows. */
  lemma MergedPrints(a: Table, b: Table)
    requires |a| >= 2 && |b| >= 2 && PlainRows(a) && PlainRows(b) && Width(a) == Width(b)
    ensures MergeTableRows(RowsToMarkdown(a), RowsToMarkdown(b)) == RowsToMarkdown(a + b[1..])
  {
    PrintedLines(a);
    PrintedLines(b);
    LinesTogether(a, b);
    MergedLines(RowsToMarkdown(a), RowsToMarkdown(b), PipeRows(TableOf(a)), PipeRows(TableOf(b)));
  }

  /** A table of fewer than two rows is not printed, and merging it changes nothing. */
  lemma NothingToMerge(a: string, b: Table)
    requires |b| < 2
    ensures MergeTableRows(a, RowsToMarkdown(b)) == a
  {
    assert Trim("", IsSpace) == "";
  }
}
