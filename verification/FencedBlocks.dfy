/** Where a fenced code block ends, and which lines it keeps (CommonMark 0.31.2,
    section 4.5). */
module FencedBlocks {
  import opened MarkdownFences
  import opened Ordering
  import opened Text
  import opened Wrappers

  /** A closing code fence: up to three spaces, at least as many fence characters as
      the opening fence has, and only spaces and tabs behind them. */
  ghost predicate IsStandardClosing(line: string, fence: Fence, indent: nat, n: nat, tail: string) {
    && line == Repeated(' ', indent) + (Repeated(fence.c, n) + tail)
    && indent <= 3 && n >= fence.len && AllOf(tail, IsBlankOrTab)
  }

  ghost predicate Closes(line: string, fence: Fence) {
    exists indent, n, tail :: IsStandardClosing(line, fence, indent, n, tail)
  }

  ghost predicate IsProper(fence: Fence) { fence.len >= 3 && fence.c in "`~" }

  lemma StandardCloses(line: string, fence: Fence, indent: nat, n: nat, tail: string)
    requires IsProper(fence) && IsStandardClosing(line, fence, indent, n, tail)
    ensures IsClosingFence(line, fence)
  {
    var stripped := Repeated(fence.c, n) + tail;
    assert stripped[0] == fence.c && !IsBlank(fence.c);
    DropBefore(Repeated(' ', indent), stripped, IsBlank);
    if tail != [] {
      assert IsBlankOrTab(tail[0]) && stripped[n] == tail[0];
    }
    RunIs(stripped, fence.c, n);
    assert stripped[n..] == tail;
    TrimEmptyIff(tail, IsBlankOrTab);
  }

  /** The closing fences of the code are those of the standard. */
  lemma ClosingMatchesStandard(line: string, fence: Fence)
    requires IsProper(fence)
    ensures IsClosingFence(line, fence) <==> Closes(line, fence)
  {
    if indent, n, tail :| IsStandardClosing(line, fence, indent, n, tail) {
      StandardCloses(line, fence, indent, n, tail);
    }
    if IsClosingFence(line, fence) {
      ClosesStandard(line, fence, TrimLeft(line, IsBlank));
    }
  }

  lemma ClosesStandard(line: string, fence: Fence, stripped: string)
    requires stripped == TrimLeft(line, IsBlank)
    requires |line| - |stripped| <= 3 && RunLength(stripped, fence.c) >= fence.len
    requires Trim(stripped[RunLength(stripped, fence.c)..], IsBlankOrTab) == []
    ensures Closes(line, fence)
  {
    var indent, n := |line| - |stripped|, RunLength(stripped, fence.c);
    TrimLeftDrops(line, IsBlank);
    TrimEmptyIff(stripped[n..], IsBlankOrTab);
    assert line[..indent] == Repeated(' ', indent);
    assert stripped == Repeated(fence.c, n) + stripped[n..];
    assert IsStandardClosing(line, fence, indent, n, stripped[n..]);
  }

  lemma OpeningIsProper(line: string)
    requires OpeningFence(line).Some?
    ensures IsProper(OpeningFence(line).value)
  {
  }

  // ---------------------------------------------------------- a block of lines

  function Verbatim(line: string): Item { Item(line, false, true) }

  /** The block goes to the first closing line, that one included, or to the end. */
  ghost predicate BlockGoesTo(lines: seq<string>, fence: Fence, end: nat) {
    && end <= |lines|
    && (forall i | 0 <= i < end - 1 :: !Closes(lines[i], fence))
    && (end == |lines| || (end > 0 && Closes(lines[end - 1], fence)))
  }

  lemma VerbatimCons(line: string, lines: seq<string>, end: nat)
    requires end <= |lines|
    ensures Each(Verbatim, ([line] + lines)[..end + 1]) == [Verbatim(line)] + Each(Verbatim, lines[..end])
  {
  }

  lemma BlockStep(lines: seq<string>, fence: Fence, end: nat)
    requires lines != [] && BlockGoesTo(lines, fence, end)
    ensures if Closes(lines[0], fence) then end == 1 else end > 0 && BlockGoesTo(lines[1..], fence, end - 1)
  {
    assert forall i | 0 <= i < |lines[1..]| :: lines[1..][i] == lines[i + 1];
  }

  lemma {:induction false} InsideBlock(lines: seq<string>, fence: Fence, end: nat)
    requires IsProper(fence) && BlockGoesTo(lines, fence, end)
    ensures ItemsFrom(lines, Some(fence), false, true) ==
      Each(Verbatim, lines[..end]) + ItemsFrom(lines[end..], None, false, true)
    decreases |lines|
  {
    if lines == [] {
      assert Each(Verbatim, lines[..end]) == [];
    } else {
      var line, rest := lines[0], lines[1..];
      assert lines == [line] + rest;
      ClosingMatchesStandard(line, fence);
      BlockStep(lines, fence, end);
      VerbatimCons(line, rest, end - 1);
      assert lines[end..] == rest[end - 1..];
      if Closes(line, fence) {
        assert Each(Verbatim, rest[..0]) == [];
      } else {
        InsideBlock(rest, fence, end - 1);
        Associate([Verbatim(line)], Each(Verbatim, rest[..end - 1]), ItemsFrom(lines[end..], None, false, true));
      }
    }
  }

  /** An opening fence keeps all lines verbatim up to the first line that closes it
      by the standard, that one included, or else to the end of the text; after it
      the machine is outside fences again. */
  lemma FencedBlock(lines: seq<string>, pending: bool, started: bool, end: nat)
    requires lines != [] && OpeningFence(lines[0]).Some?
    requires BlockGoesTo(lines[1..], OpeningFence(lines[0]).value, end)
    ensures ItemsFrom(lines, None, pending, started) ==
      [Item(lines[0], pending && started, true)] + Each(Verbatim, lines[1..][..end])
      + ItemsFrom(lines[1..][end..], None, false, true)
  {
    var fence, rest := OpeningFence(lines[0]).value, lines[1..];
    OpeningIsProper(lines[0]);
    InsideBlock(rest, fence, end);
    var first := [Item(lines[0], pending && started, true)];
    Associate(first, Each(Verbatim, rest[..end]), ItemsFrom(rest[end..], None, false, true));
  }
}
