/** A row of a markdown table and its cells. */
module TableRows {
  import opened Text

  /** The cells as a row: "| a | b |". */
  function PipeRow(cells: seq<string>): string { "| " + Join(cells, " | ") + " |" }

  function Padded(cells: seq<string>): (r: seq<string>)
    ensures |r| == |cells|
  {
    seq(|cells|, i requires 0 <= i < |cells| => " " + cells[i] + " ")
  }

  function TrimAll(cells: seq<string>): (r: seq<string>)
    ensures |r| == |cells|
  {
    seq(|cells|, i requires 0 <= i < |cells| => Trim(cells[i], IsSpace))
  }

  /** The cells of a delimiter row. */
  function Dashes(n: nat): (r: seq<string>)
    ensures |r| == n
  {
    seq(n, _ => "---")
  }

  ghost predicate NoPipes(cells: seq<string>) {
    forall i | 0 <= i < |cells| :: '|' !in cells[i]
  }

  /** The row after its first pipe. */
  function RowTail(cells: seq<string>): string {
    if cells == [] then [] else " " + cells[0] + " |" + RowTail(cells[1..])
  }

  lemma {:induction false} RowTailJoins(cells: seq<string>)
    requires cells != []
    ensures RowTail(cells) == " " + Join(cells, " | ") + " |"
  {
    if |cells| > 1 {
      RowTailJoins(cells[1..]);
      var rest := Join(cells[1..], " | ");
      calc {
        RowTail(cells);
        " " + cells[0] + " |" + (" " + rest + " |");
        " " + (cells[0] + " | " + rest) + " |";
      }
    } else {
      assert RowTail(cells[1..]) == [];
    }
  }

  lemma {:induction false} SplitRowTail(cells: seq<string>)
    requires NoPipes(cells)
    ensures Split(RowTail(cells), '|') == Padded(cells) + [[]]
  {
    if cells != [] {
      SplitRowTail(cells[1..]);
      var rest := RowTail(cells[1..]);
      var first := " " + cells[0] + " ";
      assert RowTail(cells) == first + ['|'] + rest;
      SplitPrefix(first, rest, '|');
      assert Padded(cells) == [first] + Padded(cells[1..]);
    }
  }

  /** Splitting a row at its pipes gives the padded cells between two empty
      parts. */
  lemma SplitPipeRow(cells: seq<string>)
    requires cells != [] && NoPipes(cells)
    ensures Split(PipeRow(cells), '|') == [[]] + Padded(cells) + [[]]
  {
    RowTailJoins(cells);
    SplitRowTail(cells);
    var row := PipeRow(cells);
    assert row[0] == '|' && row[1..] == RowTail(cells);
  }

  /** A row starts and ends with its pipes. */
  lemma RowEnds(cells: seq<string>)
    ensures var row := PipeRow(cells);
      |row| >= 4 && row[0] == '|' && row[1] == ' ' && row[|row| - 1] == '|' && row[|row| - 2] == ' '
    ensures Trim(PipeRow(cells), IsSpace) == PipeRow(cells)
  {
    var row := PipeRow(cells);
    assert row[|row| - 1] == '|' && row[|row| - 2] == ' ';
    TrimNothing(row, IsSpace);
  }

  lemma TrimPadded(cell: string)
    ensures Trim(" " + cell + " ", IsSpace) == Trim(cell, IsSpace)
  {
    TrimAround(" ", cell, " ", IsSpace);
  }
}
