/** Blank lines between blocks of a normalised text.
    Source: docreader/parser/mhtml_parser.py. */
module BlankLines {
  import opened MarkdownFences
  import opened Text
  import opened Wrappers

  ghost predicate AreBlank(lines: seq<string>) {
    forall i | 0 <= i < |lines| :: AllOf(lines[i], IsBlankOrTab)
  }

  lemma {:induction false} BlankIs(line: string)
    ensures IsBlankLine(line) <==> AllOf(line, IsBlankOrTab)
  {
    if AllOf(line, IsBlankOrTab) {
      TrimLeftAll(line);
    } else {
      var i :| 0 <= i < |line| && !IsBlankOrTab(line[i]);
      NotBlank(line, i);
    }
  }

  lemma {:induction false} TrimLeftAll(line: string)
    requires AllOf(line, IsBlankOrTab)
    ensures TrimLeft(line, IsBlankOrTab) == []
  {
    if line != [] {
      TrimLeftAll(line[1..]);
    }
  }

  /** Blank lines outside fences are skipped and remembered. */
  lemma {:induction false} SkipBlanks(blanks: seq<string>, rest: seq<string>, pending: bool, started: bool)
    requires AreBlank(blanks)
    ensures ItemsFrom(blanks + rest, None, pending, started)
      == ItemsFrom(rest, None, pending || blanks != [], started)
  {
    if blanks == [] {
      assert blanks + rest == rest;
    } else {
      BlankIs(blanks[0]);
      BlankOpensNothing(blanks[0]);
      assert (blanks + rest)[1..] == blanks[1..] + rest;
      SkipBlanks(blanks[1..], rest, true, started);
    }
  }

  /** The state of the machine behind one line. */
  function NextPending(line: string, fence: Option<Fence>): bool {
    fence.None? && OpeningFence(line).None? && IsBlankLine(line)
  }

  function FirstItem(line: string, fence: Option<Fence>, pending: bool, started: bool): seq<Item> {
    if fence.Some? then [Item(line, false, true)]
    else if OpeningFence(line).Some? then [Item(line, pending && started, true)]
    else if IsBlankLine(line) then []
    else [Item(CleanLine(line), pending && started, false)]
  }

  lemma ItemsStep(line: string, lines: seq<string>, fence: Option<Fence>, pending: bool, started: bool)
    ensures var first := FirstItem(line, fence, pending, started);
      ItemsFrom([line] + lines, fence, pending, started)
        == first + ItemsFrom(lines, After(line, fence), NextPending(line, fence), started || first != [])
  {
    assert ([line] + lines)[1..] == lines;
  }

  /** What was read of the first lines decides how the following ones are read. */
  lemma {:induction false} ItemsAppend(
    a: seq<string>, b: seq<string>, fence: Option<Fence>, pending: bool, started: bool)
    ensures var later := ItemsFrom(a, fence, pending, started);
      ItemsFrom(a + b, fence, pending, started)
        == later + ItemsFrom(b, FenceAtEnd(a, fence), PendingAtEnd(a, fence, pending), started || later != [])
    decreases |a|
  {
    if a == [] {
      assert a + b == b;
    } else {
      var line, rest := a[0], a[1..];
      var first := FirstItem(line, fence, pending, started);
      var after, next := After(line, fence), NextPending(line, fence);
      assert a == [line] + rest && a + b == [line] + (rest + b);
      ItemsStep(line, rest, fence, pending, started);
      ItemsStep(line, rest + b, fence, pending, started);
      ItemsAppend(rest, b, after, next, started || first != []);
      Associate(first, ItemsFrom(rest, after, next, started || first != []),
                ItemsFrom(b, FenceAtEnd(a, fence), PendingAtEnd(a, fence, pending),
                          started || ItemsFrom(a, fence, pending, started) != []));
    }
  }

  /** Blank lines were read last, outside fences. */
  function PendingAtEnd(lines: seq<string>, fence: Option<Fence>, pending: bool): bool {
    if lines == [] then pending
    else PendingAtEnd(lines[1..], After(lines[0], fence), NextPending(lines[0], fence))
  }

  ghost predicate EndsSolid(lines: seq<string>) { lines != [] && !AllOf(lines[|lines| - 1], IsBlankOrTab) }

  lemma {:induction false} NothingPending(lines: seq<string>, fence: Option<Fence>, pending: bool, started: bool)
    requires EndsSolid(lines)
    ensures !PendingAtEnd(lines, fence, pending) && ItemsFrom(lines, fence, pending, started) != []
    decreases |lines|
  {
    if |lines| == 1 {
      BlankIs(lines[0]);
    } else {
      assert lines[1..][|lines| - 2] == lines[|lines| - 1];
      var line := lines[0];
      NothingPending(lines[1..], After(line, fence),
                     NextPending(line, fence), true);
      NothingPending(lines[1..], None, true, started);
    }
  }

  /** How a line that is not blank is written outside fences. */
  function Written(line: string): string { if OpeningFence(line).Some? then line else CleanLine(line) }

  /** What is written of the lines that come after a text in which the fence is open. */
  function WrittenAfter(lines: seq<string>, fence: Option<Fence>): seq<string> {
    Render(ItemsFrom(lines, fence, false, true))
  }

  lemma ReadSolid(line: string, rest: seq<string>, pending: bool, started: bool)
    requires !AllOf(line, IsBlankOrTab)
    ensures ItemsFrom([line] + rest, None, pending, started)
      == [Item(Written(line), pending && started, OpeningFence(line).Some?)]
         + ItemsFrom(rest, OpeningFence(line), false, true)
  {
    BlankIs(line);
    assert ([line] + rest)[1..] == rest;
  }

  lemma RenderCons(item: Item, items: seq<Item>)
    ensures Render([item] + items) == RenderItem(item) + Render(items)
  {
  }

  /** Outside fences any number of blank lines between two lines that are not
      blank is written as one empty line, none as none, and those before the
      first line as none. */
  lemma OneEmptyLineBetween(before: seq<string>, blanks: seq<string>, line: string, rest: seq<string>)
    requires before == [] || EndsSolid(before)
    requires FenceAtEnd(before, None).None? && AreBlank(blanks) && !AllOf(line, IsBlankOrTab)
    ensures Render(Items(before + (blanks + ([line] + rest))))
      == Render(Items(before)) + ((if before != [] && blanks != [] then [""] else [])
         + [Written(line)] + WrittenAfter(rest, OpeningFence(line)))
  {
    var started := before != [];
    ItemsAppend(before, blanks + ([line] + rest), None, false, false);
    if started {
      NothingPending(before, None, false, false);
    }
    SkipBlanks(blanks, [line] + rest, false, started);
    ReadSolid(line, rest, blanks != [], started);
    var item := Item(Written(line), blanks != [] && started, OpeningFence(line).Some?);
    RenderAppend(Items(before), [item] + ItemsFrom(rest, OpeningFence(line), false, true));
    RenderCons(item, ItemsFrom(rest, OpeningFence(line), false, true));
  }

  /** Outside fences a text line keeps what stands before its trailing blanks
      and tabs, and then two blanks if it ends with two blanks or more. */
  lemma TextLineIs(line: string, body: string, tail: string)
    requires line == body + tail && AllOf(tail, IsBlankOrTab)
    requires body != [] && !IsBlankOrTab(body[|body| - 1]) && OpeningFence(line).None?
    ensures Written(line)
      == body + if |tail| >= 2 && tail[|tail| - 1] == ' ' && tail[|tail| - 2] == ' ' then "  " else ""
  {
    TrimRightAppend(body, tail, IsBlankOrTab);
    assert line[|body|..] == tail;
    BlanksAtEnd(line);
  }

  lemma BlanksAtEnd(line: string)
    ensures TrailingSpaces(line) >= 2 <==> |line| >= 2 && line[|line| - 1] == ' ' && line[|line| - 2] == ' '
  {
    if line != [] && line[|line| - 1] == ' ' {
      assert TrimRight(line, IsBlank) == TrimRight(line[..|line| - 1], IsBlank);
      assert |line| >= 2 ==> line[..|line| - 1][|line| - 2] == line[|line| - 2];
    }
  }
}
