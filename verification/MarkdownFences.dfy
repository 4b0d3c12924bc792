/** Normalising the markdown of web archives: blank lines, trailing spaces and
    fenced code blocks (CommonMark 0.31.2, sections 4.5 and 6.7). */
module MarkdownFences {
  import opened SourceText
  import opened Text
  import opened Wrappers

  // ------------------------------------------------------------------- fences

  datatype Fence = Fence(c: char, len: nat)

  /** The length of the run of c at the start of s. */
  function RunLength(s: string, c: char): (n: nat)
    ensures n <= |s|
    ensures forall i | 0 <= i < n :: s[i] == c
    ensures n < |s| ==> s[n] != c
  {
    if s != [] && s[0] == c then 1 + RunLength(s[1..], c) else 0
  }

  /** The fence that a line opens: at most three spaces, then three or more of
      the same fence character. */
  function OpeningFence(line: string): Option<Fence> {
    var stripped := TrimLeft(line, IsBlank);
    if |line| - |stripped| > 3 || stripped == [] then None
    else
      var c := stripped[0];
      if c != '`' && c != '~' then None
      else if RunLength(stripped, c) < 3 then None
      else Some(Fence(c, RunLength(stripped, c)))
  }

  /** A line that closes the fence: at least as many fence characters and then
      only spaces and tabs. */
  predicate IsClosingFence(line: string, fence: Fence) {
    var stripped := TrimLeft(line, IsBlank);
    var n := RunLength(stripped, fence.c);
    |line| - |stripped| <= 3 && n >= fence.len && Trim(stripped[n..], IsBlankOrTab) == []
  }

  predicate IsBlankLine(line: string) { Trim(line, IsBlankOrTab) == [] }

  function TrailingSpaces(line: string): nat { |line| - |TrimRight(line, IsBlank)| }

  /** A text line: two or more trailing spaces become exactly two, fewer none. */
  function CleanLine(line: string): string {
    TrimRight(line, IsBlankOrTab) + if TrailingSpaces(line) >= 2 then "  " else ""
  }

  // ---------------------------------------------------- fences of the standard

  /** An opening code fence by CommonMark 0.31.2, section 4.5: up to three spaces,
      at least three backticks or tildes, and an info string, which after
      backticks holds no backtick. */
  ghost predicate IsStandardFence(line: string, fence: Fence, indent: nat, info: string) {
    && line == Repeated(' ', indent) + (Repeated(fence.c, fence.len) + info)
    && indent <= 3 && fence.len >= 3 && fence.c in "`~"
    && (info != [] ==> info[0] != fence.c)
    && (fence.c == '`' ==> '`' !in info)
  }

  /** What follows the fence characters of an opening fence. */
  function Info(line: string): string
    requires OpeningFence(line).Some?
  {
    TrimLeft(line, IsBlank)[OpeningFence(line).value.len..]
  }

  /** The opening fences of the code are those of the standard, and the backtick
      fences with a backtick in the info string. */
  lemma FenceMatchesStandard(line: string, fence: Fence)
    ensures (exists indent, info :: IsStandardFence(line, fence, indent, info)) <==>
      OpeningFence(line) == Some(fence) && !(fence.c == '`' && '`' in Info(line))
  {
    if indent, info :| IsStandardFence(line, fence, indent, info) {
      StandardIsOpening(line, fence, indent, info);
    }
    if OpeningFence(line) == Some(fence) && !(fence.c == '`' && '`' in Info(line)) {
      var stripped := TrimLeft(line, IsBlank);
      var indent := |line| - |stripped|;
      TrimLeftDrops(line, IsBlank);
      assert line[..indent] == Repeated(' ', indent);
      assert stripped == Repeated(fence.c, fence.len) + Info(line);
      assert line == line[..indent] + stripped;
      assert IsStandardFence(line, fence, indent, Info(line));
    }
  }

  lemma {:induction false} RunIs(s: string, c: char, n: nat)
    requires n <= |s| && (forall i | 0 <= i < n :: s[i] == c) && (n < |s| ==> s[n] != c)
    ensures RunLength(s, c) == n
  {
    if n > 0 {
      RunIs(s[1..], c, n - 1);
    }
  }

  lemma StandardIsOpening(line: string, fence: Fence, indent: nat, info: string)
    requires IsStandardFence(line, fence, indent, info)
    ensures OpeningFence(line) == Some(fence) && Info(line) == info
  {
    var stripped := Repeated(fence.c, fence.len) + info;
    assert stripped[0] == fence.c && !IsBlank(fence.c);
    DropBefore(Repeated(' ', indent), stripped, IsBlank);
    RunIs(stripped, fence.c, fence.len);
    assert stripped[fence.len..] == info;
  }

  /** A line that opens a fence here and none in the standard. */
  lemma BacktickInInfo()
    ensures OpeningFence("```a`") == Some(Fence('`', 3))
    ensures forall fence, indent, info :: !IsStandardFence("```a`", fence, indent, info)
  {
    var line := "```a`";
    assert TrimLeft(line, IsBlank) == line && line[3] == 'a';
    RunIs(line, '`', 3);
    assert Info(line)[1] == '`';
    forall fence, indent, info ensures !IsStandardFence(line, fence, indent, info) {
      FenceMatchesStandard(line, fence);
    }
  }

  // -------------------------------------------------------- the fence machine

  /** The fence in which the next line lies. */
  function After(line: string, fence: Option<Fence>): Option<Fence> {
    match fence
    case Some(f) => if IsClosingFence(line, f) then None else fence
    case None => OpeningFence(line)
  }

  /** A line that is kept: verbatim if it belongs to a fenced block, cleaned
      otherwise; gap tells whether blank lines separate it from the line before. */
  datatype Item = Item(line: string, gap: bool, fenced: bool)

  /** The kept lines of a text, read from a given state of the machine. */
  function ItemsFrom(lines: seq<string>, fence: Option<Fence>, pending: bool, started: bool): seq<Item>
    decreases |lines|
  {
    if lines == [] then []
    else
      var line := lines[0];
      if fence.Some? then [Item(line, false, true)] + ItemsFrom(lines[1..], After(line, fence), false, true)
      else if OpeningFence(line).Some? then
        [Item(line, pending && started, true)] + ItemsFrom(lines[1..], After(line, fence), false, true)
      else if IsBlankLine(line) then ItemsFrom(lines[1..], None, true, started)
      else [Item(CleanLine(line), pending && started, false)] + ItemsFrom(lines[1..], None, false, true)
  }

  function Items(lines: seq<string>): seq<Item> { ItemsFrom(lines, None, false, false) }

  function RenderItem(item: Item): seq<string> { (if item.gap then [""] else []) + [item.line] }

  /** Kept lines as text, with one empty line for every gap. */
  function Render(items: seq<Item>): seq<string> {
    if items == [] then [] else RenderItem(items[0]) + Render(items[1..])
  }

  function Normalize(text: string): string {
    Trim(Join(Render(Items(SourceLines(text))), "\n"), IsNewline)
  }

  /** The state of the line loop. */
  datatype Machine = Machine(output: seq<string>, pending: bool, fence: Option<Fence>)

  function Put(m: Machine, line: string): seq<string> {
    m.output + (if m.pending && m.output != [] then [""] else []) + [line]
  }

  function Step(m: Machine, line: string): Machine {
    if m.fence.Some? then Machine(m.output + [line], m.pending, After(line, m.fence))
    else if OpeningFence(line).Some? then Machine(Put(m, line), false, After(line, m.fence))
    else if IsBlankLine(line) then Machine(m.output, true, None)
    else Machine(Put(m, CleanLine(line)), false, None)
  }

  function Steps(m: Machine, lines: seq<string>): Machine
    decreases |lines|
  {
    if lines == [] then m else Steps(Step(m, lines[0]), lines[1..])
  }

  const START := Machine([], false, None)

  /** The loop renders the kept lines. */
  lemma {:induction false} StepsRender(m: Machine, lines: seq<string>)
    requires m.fence.Some? ==> !m.pending && m.output != []
    ensures Steps(m, lines).output == m.output + Render(ItemsFrom(lines, m.fence, m.pending, m.output != []))
    decreases |lines|
  {
    if lines != [] {
      StepsRender(Step(m, lines[0]), lines[1..]);
    }
  }

  method TakeLine(m: Machine, line: string) returns (r: Machine)
    ensures r == Step(m, line)
  {
    var output, pending, fence := m.output, m.pending, m.fence;
    if fence.Some? {
      output := output + [line];
      if IsClosingFence(line, fence.value) {
        fence := None;
      }
      return Machine(output, pending, fence);
    }
    var opening := OpeningFence(line);
    if opening.Some? {
      if pending && output != [] {
        output := output + [""];
      }
      return Machine(output + [line], false, opening);
    }
    if IsBlankLine(line) {
      return Machine(output, true, None);
    }
    if pending && output != [] {
      output := output + [""];
    }
    return Machine(output + [CleanLine(line)], false, None);
  }

  method NormalizeLines(lines: seq<string>) returns (output: seq<string>)
    ensures output == Render(Items(lines))
  {
    var m := START;
    for i := 0 to |lines|
      invariant Steps(m, lines[i..]) == Steps(START, lines)
    {
      assert lines[i..][0] == lines[i] && lines[i..][1..] == lines[i + 1..];
      m := TakeLine(m, lines[i]);
    }
    StepsRender(START, lines);
    return m.output;
  }

  method NormalizeMarkdown(text: string) returns (result: string)
    ensures result == Normalize(text)
  {
    var output := NormalizeLines(SourceLines(text));
    result := Trim(Join(output, "\n"), IsNewline);
  }

  // ------------------------------------------------------------- proper items

  /** Items as the machine yields them: inside a fence anything, outside only
      opening fences and clean, non-blank text. */
  ghost predicate Proper(items: seq<Item>, fence: Option<Fence>, started: bool)
    decreases |items|
  {
    items == [] ||
    (&& ProperItem(items[0], fence, started)
     && Proper(items[1..], After(items[0].line, fence), true))
  }

  ghost predicate ProperItem(item: Item, fence: Option<Fence>, started: bool) {
    if fence.Some? then item.fenced && !item.gap
    else
      && (item.gap ==> started)
      && (item.fenced <==> OpeningFence(item.line).Some?)
      && (!item.fenced ==> !IsBlankLine(item.line) && CleanLine(item.line) == item.line)
  }

  // ------------------------------------------------------- facts about lines

  lemma {:induction false} TrimLeftAppend(a: string, b: string, p: char -> bool)
    requires TrimLeft(a, p) != []
    ensures TrimLeft(a + b, p) == TrimLeft(a, p) + b
  {
    if p(a[0]) {
      TrimLeftAppend(a[1..], b, p);
      assert (a + b)[1..] == a[1..] + b;
    }
  }

  lemma {:induction false} TrimRightAppend(a: string, b: string, p: char -> bool)
    requires a != [] ==> !p(a[|a| - 1])
    requires AllOf(b, p)
    ensures TrimRight(a + b, p) == a
  {
    if b == [] {
      assert a + b == a;
    } else {
      TrimRightAppend(a, b[..|b| - 1], p);
      assert (a + b)[..|a + b| - 1] == a + b[..|b| - 1];
      assert p(b[|b| - 1]) && (a + b)[|a + b| - 1] == b[|b| - 1];
    }
  }

  lemma {:induction false} RunAppend(a: string, b: string, c: char)
    requires !IsBlankOrTab(c) && AllOf(b, IsBlankOrTab)
    ensures RunLength(a + b, c) == RunLength(a, c)
  {
    if a == [] {
      assert a + b == b;
      if b != [] {
        assert IsBlankOrTab(b[0]);
      }
    } else if a[0] == c {
      RunAppend(a[1..], b, c);
      assert (a + b)[1..] == a[1..] + b;
    }
  }

  /** A text that ends in neither blank nor tab does not disappear. */
  lemma SolidStart(body: string)
    requires body != [] && !IsBlankOrTab(body[|body| - 1])
    ensures TrimLeft(body, IsBlank) != []
  {
    TrimLeftDrops(body, IsBlank);
    var before := body[..|body| - |TrimLeft(body, IsBlank)|];
    assert |before| == |body| ==> before == body;
  }

  /** Trailing blanks and tabs do not matter for opening a fence. */
  lemma OpeningIgnoresTail(body: string, tail: string)
    requires body != [] && !IsBlankOrTab(body[|body| - 1])
    requires AllOf(tail, IsBlankOrTab)
    ensures OpeningFence(body + tail) == OpeningFence(body)
  {
    SolidStart(body);
    TrimLeftAppend(body, tail, IsBlank);
    var stripped := TrimLeft(body, IsBlank);
    assert (stripped + tail)[0] == stripped[0];
    if stripped[0] == '`' || stripped[0] == '~' {
      RunAppend(stripped, tail, stripped[0]);
    }
  }

  /** The parts of a text line. */
  lemma CleanParts(line: string)
    requires !IsBlankLine(line)
    ensures var body := TrimRight(line, IsBlankOrTab);
      && body != [] && !IsBlankOrTab(body[|body| - 1])
      && AllOf(line[|body|..], IsBlankOrTab)
      && line == body + line[|body|..]
  {
    TrimRightDrops(line, IsBlankOrTab);
    TrimEmptyIff(line, IsBlankOrTab);
    var after := line[|TrimRight(line, IsBlankOrTab)|..];
    assert |after| == |line| ==> after == line;
  }

  lemma TwoBlanks()
    ensures AllOf("  ", IsBlankOrTab) && AllOf("  ", IsBlank)
  {
  }

  /** A cleaned line is clean and not blank, and opens a fence only if the line
      did. */
  lemma CleanIsProper(line: string)
    requires !IsBlankLine(line)
    ensures var r := CleanLine(line);
      !IsBlankLine(r) && CleanLine(r) == r && OpeningFence(r) == OpeningFence(line)
  {
    var body := TrimRight(line, IsBlankOrTab);
    CleanParts(line);
    OpeningIgnoresTail(body, line[|body|..]);
    TwoBlanks();
    OpeningIgnoresTail(body, "  ");
    TrimRightAppend(body, "  ", IsBlankOrTab);
    TrimRightAppend(body, "  ", IsBlank);
    TrimRightAppend(body, [], IsBlankOrTab);
    TrimRightAppend(body, [], IsBlank);
    assert body + [] == body;
    NotBlank(CleanLine(line), |body| - 1);
  }

  lemma NotBlank(line: string, i: nat)
    requires i < |line| && !IsBlankOrTab(line[i])
    ensures !IsBlankLine(line)
  {
    TrimEmptyIff(line, IsBlankOrTab);
  }

  /** A hard break survives as exactly two spaces; any other trailing white
      space is removed. */
  lemma HardBreaks(line: string)
    requires !IsBlankLine(line)
    ensures var body := TrimRight(line, IsBlankOrTab);
      && CleanLine(line) == body + (if TrailingSpaces(line) >= 2 then "  " else "")
      && body != [] && !IsBlankOrTab(body[|body| - 1])
      && TrailingSpaces(CleanLine(line)) == if TrailingSpaces(line) >= 2 then 2 else 0
  {
    var body := TrimRight(line, IsBlankOrTab);
    CleanParts(line);
    TwoBlanks();
    TrimRightAppend(body, "  ", IsBlank);
    TrimRightAppend(body, [], IsBlank);
    assert body + [] == body;
  }

  lemma OpeningNotBlank(line: string)
    requires OpeningFence(line).Some?
    ensures !IsBlankLine(line)
  {
    var stripped := TrimLeft(line, IsBlank);
    TrimLeftDrops(line, IsBlank);
    NotBlank(line, |line| - |stripped|);
  }

  // ---------------------------------------------------- normal form, idempotence

  lemma {:induction false} ItemsAreProper(lines: seq<string>, fence: Option<Fence>, pending: bool, started: bool)
    ensures Proper(ItemsFrom(lines, fence, pending, started), fence, started)
    decreases |lines|
  {
    if lines != [] {
      var line := lines[0];
      if fence.Some? || OpeningFence(line).Some? {
        ItemsAreProper(lines[1..], After(line, fence), false, true);
      } else if IsBlankLine(line) {
        ItemsAreProper(lines[1..], None, true, started);
      } else {
        CleanIsProper(line);
        ItemsAreProper(lines[1..], None, false, true);
      }
    }
  }

  /** Reading rendered proper items gives the items back. */
  lemma {:induction false} ReadRendered(items: seq<Item>, fence: Option<Fence>, started: bool)
    requires Proper(items, fence, started)
    ensures ItemsFrom(Render(items), fence, false, started) == items
    decreases |items|
  {
    if items != [] {
      var item, rest := items[0], items[1..];
      ReadRendered(rest, After(item.line, fence), true);
      ReadOne(item, Render(rest), fence, started);
    }
  }

  lemma ReadOne(item: Item, rest: seq<string>, fence: Option<Fence>, started: bool)
    requires ProperItem(item, fence, started)
    ensures ItemsFrom(RenderItem(item) + rest, fence, false, started)
      == [item] + ItemsFrom(rest, After(item.line, fence), false, true)
  {
    var lines := RenderItem(item) + rest;
    if item.gap {
      assert lines[0] == "" && lines[1..] == [item.line] + rest;
      assert OpeningFence("").None? && IsBlankLine("");
      assert ItemsFrom(lines, fence, false, started) == ItemsFrom([item.line] + rest, None, true, started);
    } else {
      assert lines == [item.line] + rest;
    }
    assert ([item.line] + rest)[1..] == rest;
  }

  lemma {:induction false} ProperPrefix(items: seq<Item>, k: nat, fence: Option<Fence>, started: bool)
    requires Proper(items, fence, started) && k <= |items|
    ensures Proper(items[..k], fence, started)
    decreases |items|
  {
    if k > 0 {
      ProperPrefix(items[1..], k - 1, After(items[0].line, fence), true);
      assert items[..k][1..] == items[1..][..k - 1];
    }
  }

  // ------------------------------------------------------------- whole texts

  /** The items without empty lines at the end; only an unclosed last fence can
      have any. */
  function WithoutEmptyTail(items: seq<Item>): (r: seq<Item>)
    ensures |r| <= |items| && r == items[..|r|]
    ensures r != [] ==> r[|r| - 1].line != []
  {
    if items != [] && items[|items| - 1].line == [] then WithoutEmptyTail(items[..|items| - 1]) else items
  }

  lemma {:induction false} RenderAppend(a: seq<Item>, b: seq<Item>)
    ensures Render(a + b) == Render(a) + Render(b)
  {
    if a == [] {
      assert a + b == b;
    } else {
      RenderAppend(a[1..], b);
      assert (a + b)[1..] == a[1..] + b;
    }
  }

  /** An empty kept line lies in a fence, so it has no gap in front. */
  lemma {:induction false} EmptyHasNoGap(items: seq<Item>, i: nat, fence: Option<Fence>, started: bool)
    requires Proper(items, fence, started) && i < |items| && items[i].line == []
    ensures items[i].fenced && !items[i].gap
    decreases i
  {
    assert OpeningFence([]).None? && IsBlankLine([]);
    if i > 0 {
      EmptyHasNoGap(items[1..], i - 1, After(items[0].line, fence), true);
    }
  }

  ghost predicate ItemsLack(items: seq<Item>, c: char) {
    forall i | 0 <= i < |items| :: c !in items[i].line
  }

  lemma {:induction false} RenderedLack(items: seq<Item>, c: char)
    requires ItemsLack(items, c)
    ensures Lacks(Render(items), c)
  {
    if items != [] {
      RenderedLack(items[1..], c);
    }
  }

  lemma {:induction false} ReadLack(lines: seq<string>, fence: Option<Fence>, pending: bool, started: bool, c: char)
    requires Lacks(lines, c) && c != ' '
    ensures ItemsLack(ItemsFrom(lines, fence, pending, started), c)
    decreases |lines|
  {
    if lines != [] {
      var line := lines[0];
      TrimRightDrops(line, IsBlankOrTab);
      if fence.Some? || OpeningFence(line).Some? {
        ReadLack(lines[1..], After(line, fence), false, true, c);
      } else if IsBlankLine(line) {
        ReadLack(lines[1..], None, true, started, c);
      } else {
        ReadLack(lines[1..], None, false, true, c);
      }
    }
  }

  lemma TrimNewlineEnd(text: string)
    ensures TrimRight(text + "\n", IsNewline) == TrimRight(text, IsNewline)
  {
    var s := text + "\n";
    assert s[..|s| - 1] == text && s[|s| - 1] == '\n';
  }

  /** The first kept line outside a fence is not empty. */
  lemma FirstNotEmpty(items: seq<Item>, started: bool)
    requires Proper(items, None, started) && items != []
    ensures items[0].line != []
  {
    assert OpeningFence([]).None? && IsBlankLine([]);
  }

  lemma {:induction false} JoinEnds(lines: seq<string>)
    requires lines != [] && lines[|lines| - 1] != []
    ensures var j, last := Join(lines, "\n"), lines[|lines| - 1];
      j != [] && j[|j| - 1] == last[|last| - 1]
  {
    if |lines| > 1 {
      JoinEnds(lines[1..]);
    }
  }

  /** Stripping line feeds from the end of the joined lines of proper items
      drops exactly the empty lines there. */
  lemma {:induction false} StripDropsTail(items: seq<Item>, started: bool)
    requires Proper(items, None, started) && ItemsLack(items, '\n')
    ensures TrimRight(Join(Render(items), "\n"), IsNewline) == Join(Render(WithoutEmptyTail(items)), "\n")
    decreases |items|
  {
    var last := |items| - 1;
    if items != [] {
      LastRendered(items);
      if items[last].line == [] {
        FirstNotEmpty(items, started);
        EmptyHasNoGap(items, last, None, started);
        ProperPrefix(items, last, None, started);
        StripDropsTail(items[..last], started);
        var front := Render(items[..last]);
        assert Render(items) == front + [[]];
        RenderNotEmpty(items[..last]);
        JoinAppend(front, [], "\n");
        assert Join(front, "\n") + "\n" + [] == Join(front, "\n") + "\n";
        TrimNewlineEnd(Join(front, "\n"));
      } else {
        SolidEnd(Render(items));
      }
    }
  }

  lemma SolidEnd(lines: seq<string>)
    requires lines != [] && lines[|lines| - 1] != [] && Lacks(lines[|lines| - 1..], '\n')
    ensures TrimRight(Join(lines, "\n"), IsNewline) == Join(lines, "\n")
  {
    JoinEnds(lines);
    var last := lines[|lines| - 1];
    assert lines[|lines| - 1..][0] == last;
    assert last[|last| - 1] != '\n';
  }

  lemma LastRendered(items: seq<Item>)
    requires items != []
    ensures var item := items[|items| - 1];
      Render(items) == Render(items[..|items| - 1]) + RenderItem(item)
      && Render(items)[|Render(items)| - 1..] == [item.line]
  {
    var last := |items| - 1;
    assert items == items[..last] + [items[last]];
    RenderAppend(items[..last], [items[last]]);
    assert [items[last]][1..] == [];
    assert Render([items[last]]) == RenderItem(items[last]) + Render([items[last]][1..]);
  }

  lemma RenderNotEmpty(items: seq<Item>)
    requires items != []
    ensures Render(items) != []
  {
  }

  /** Normalised text is the rendering of the kept lines without empty lines at
      the end. */
  lemma NormalizeRenders(text: string)
    ensures Normalize(text) == Join(Render(WithoutEmptyTail(Items(SourceLines(text)))), "\n")
  {
    var items := Items(SourceLines(text));
    var joined := Join(Render(items), "\n");
    SourceLinesLack(text);
    ReadLack(SourceLines(text), None, false, false, '\n');
    ItemsAreProper(SourceLines(text), None, false, false);
    StripDropsTail(items, false);
    if items != [] {
      FirstNotEmpty(items, false);
      assert Render(items)[0] == items[0].line;
      assert joined != [] && joined[0] == items[0].line[0] && joined[0] != '\n';
    }
    assert TrimLeft(joined, IsNewline) == joined;
  }

  /** The kept lines hold no line break, so they are the lines of their text. */
  lemma KeptLinesRead(text: string)
    ensures var kept := Render(WithoutEmptyTail(Items(SourceLines(text))));
      SourceLines(Normalize(text)) == if kept == [] then [[]] else kept
  {
    var items := Items(SourceLines(text));
    var kept := WithoutEmptyTail(items);
    NormalizeRenders(text);
    SourceLinesLack(text);
    ReadLack(SourceLines(text), None, false, false, '\n');
    ReadLack(SourceLines(text), None, false, false, '\r');
    RenderedLack(kept, '\n');
    RenderedLack(kept, '\r');
    ReadJoined(Render(kept));
  }

  /** Normalising keeps the structure: read again, the text has the same fenced
      and text lines with the same gaps, except empty lines at the end of an
      unclosed last fence. */
  lemma NormalizeKeepsItems(text: string)
    ensures Items(SourceLines(Normalize(text))) == WithoutEmptyTail(Items(SourceLines(text)))
  {
    var items := Items(SourceLines(text));
    var kept := WithoutEmptyTail(items);
    KeptLinesRead(text);
    ItemsAreProper(SourceLines(text), None, false, false);
    ProperPrefix(items, |kept|, None, false);
    ReadRendered(kept, None, false);
    if kept == [] {
      var empty: seq<string> := [[]];
      assert OpeningFence([]).None? && IsBlankLine([]);
      assert Items(empty) == ItemsFrom(empty[1..], None, true, false);
    }
  }

  /** Normalising twice is normalising once. */
  lemma NormalizeIdempotent(text: string)
    ensures Normalize(Normalize(text)) == Normalize(text)
  {
    NormalizeRenders(text);
    NormalizeKeepsItems(text);
    NormalizeRenders(Normalize(text));
  }

  /** Outside fences no two empty lines in a row, none at the end, and every
      other line clean; before tells whether an empty line came before. */
  ghost predicate TidyFrom(lines: seq<string>, fence: Option<Fence>, before: bool)
    decreases |lines|
  {
    if lines == [] then !before
    else if fence.Some? || OpeningFence(lines[0]).Some? then TidyFrom(lines[1..], After(lines[0], fence), false)
    else if IsBlankLine(lines[0]) then lines[0] == [] && !before && TidyFrom(lines[1..], None, true)
    else CleanLine(lines[0]) == lines[0] && TidyFrom(lines[1..], None, false)
  }

  /** Tidy lines: no empty line leads, trails or follows another one outside
      fences, and text lines are clean. */
  ghost predicate Tidy(lines: seq<string>) { lines == [] || TidyFrom(lines, None, true) }

  lemma {:induction false} ProperIsTidy(items: seq<Item>, fence: Option<Fence>, started: bool, before: bool)
    requires Proper(items, fence, started) && (before ==> items != [] && !items[0].gap)
    ensures TidyFrom(Render(items), fence, before)
    decreases |items|
  {
    if items != [] {
      ProperIsTidy(items[1..], After(items[0].line, fence), true, false);
      TidyOne(items[0], Render(items[1..]), fence, started, before);
    }
  }

  lemma TidyOne(item: Item, rest: seq<string>, fence: Option<Fence>, started: bool, before: bool)
    requires ProperItem(item, fence, started) && (before ==> !item.gap)
    requires TidyFrom(rest, After(item.line, fence), false)
    ensures TidyFrom(RenderItem(item) + rest, fence, before)
  {
    var lines := RenderItem(item) + rest;
    assert ([item.line] + rest)[1..] == rest;
    if item.gap {
      assert lines[0] == "" && lines[1..] == [item.line] + rest;
      assert OpeningFence("").None? && IsBlankLine("");
      assert TidyFrom([item.line] + rest, fence, true);
    } else {
      assert lines == [item.line] + rest;
    }
  }

  /** The lines of a normalised text are tidy: outside fences no empty line leads,
      trails or follows another one, and every text line is clean. */
  lemma NormalizeIsTidy(text: string)
    ensures Normalize(text) == "" || Tidy(SourceLines(Normalize(text)))
  {
    var kept := WithoutEmptyTail(Items(SourceLines(text)));
    NormalizeRenders(text);
    KeptLinesRead(text);
    ItemsAreProper(SourceLines(text), None, false, false);
    ProperPrefix(Items(SourceLines(text)), |kept|, None, false);
    if kept != [] {
      ProperIsTidy(kept, None, false, true);
    }
  }

  /** What tidy means for two neighbouring lines outside fences: not both are
      blank, and neither is the last or the first line. */
  lemma TidyNeighbours(lines: seq<string>, k: nat)
    requires Tidy(lines) && k < |lines| && FenceBefore(lines, None, k).None? && IsBlankLine(lines[k])
    ensures lines[k] == "" && 0 < k < |lines| - 1
    ensures !(IsBlankLine(lines[k - 1]) && FenceBefore(lines, None, k - 1).None?)
    ensures !IsBlankLine(lines[k + 1])
  {
    TidyAround(lines, None, true, k);
  }

  /** The fence in which line k lies. */
  function FenceBefore(lines: seq<string>, fence: Option<Fence>, k: nat): Option<Fence>
    requires k <= |lines|
  {
    if k == 0 then fence else FenceBefore(lines[1..], After(lines[0], fence), k - 1)
  }

  lemma {:induction false} TidyAround(lines: seq<string>, fence: Option<Fence>, before: bool, k: nat)
    requires TidyFrom(lines, fence, before) && k < |lines|
    requires FenceBefore(lines, fence, k).None? && IsBlankLine(lines[k])
    ensures lines[k] == "" && k < |lines| - 1 && !IsBlankLine(lines[k + 1])
    ensures k == 0 ==> !before
    ensures k > 0 ==> !(IsBlankLine(lines[k - 1]) && FenceBefore(lines, fence, k - 1).None?)
    decreases |lines|
  {
    if k == 0 {
      BlankOpensNothing(lines[0]);
      TidyAfterBlank(lines[1..]);
    } else {
      var line := lines[0];
      var fence' := After(line, fence);
      if fence.None? && IsBlankLine(line) {
        BlankOpensNothing(line);
        TidyAround(lines[1..], None, true, k - 1);
      } else {
        TidyAround(lines[1..], fence', false, k - 1);
      }
    }
  }

  lemma TidyAfterBlank(rest: seq<string>)
    requires TidyFrom(rest, None, true)
    ensures rest != [] && !IsBlankLine(rest[0])
  {
    if OpeningFence(rest[0]).Some? {
      OpeningNotBlank(rest[0]);
    }
  }

  lemma BlankOpensNothing(line: string)
    requires IsBlankLine(line)
    ensures OpeningFence(line).None?
  {
    if OpeningFence(line).Some? {
      OpeningNotBlank(line);
    }
  }

  /** The fence open after the last line. */
  function FenceAtEnd(lines: seq<string>, fence: Option<Fence>): Option<Fence> {
    if lines == [] then fence else FenceAtEnd(lines[1..], After(lines[0], fence))
  }

  lemma {:induction false} ClosedEndsSolid(lines: seq<string>, fence: Option<Fence>, pending: bool, started: bool)
    requires fence.Some? ==> fence.value.len >= 3
    requires FenceAtEnd(lines, fence).None?
    ensures var items := ItemsFrom(lines, fence, pending, started);
      && (items != [] ==> items[|items| - 1].line != [])
      && (items == [] ==> fence.None?)
    decreases |lines|
  {
    if lines != [] {
      var line := lines[0];
      assert OpeningFence([]).None? && IsBlankLine([]);
      if fence.Some? || OpeningFence(line).Some? {
        assert line == [] ==> !IsClosingFence(line, fence.value);
        ClosedEndsSolid(lines[1..], After(line, fence), false, true);
      } else if IsBlankLine(line) {
        ClosedEndsSolid(lines[1..], None, true, started);
      } else {
        CleanIsProper(line);
        ClosedEndsSolid(lines[1..], None, false, true);
      }
    }
  }

  /** If every fence is closed, normalising loses no line of any fence. */
  lemma ClosedFencesKept(text: string)
    requires FenceAtEnd(SourceLines(text), None).None?
    ensures Items(SourceLines(Normalize(text))) == Items(SourceLines(text))
  {
    ClosedEndsSolid(SourceLines(text), None, false, false);
    NormalizeKeepsItems(text);
  }
}
