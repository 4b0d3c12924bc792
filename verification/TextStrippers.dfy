/** Two filters on the text layer of a page: one drops the axis and legend lines
    of charts, the other the labels right above a figure caption. Which lines
    look like that is decided by regular expressions, here predicates. */
module TextStrippers {
  import opened SourceText
  import opened Text

  // ------------------------------------------------------------- chart debris

  predicate IsBlankLine(line: string) { Trim(line, IsSpace) == [] }

  /** pattern stands for the patterns, tried on the stripped line. */
  predicate IsDebris(pattern: string -> bool, line: string) {
    !IsBlankLine(line) && pattern(Trim(line, IsSpace))
  }

  predicate IsFiller(pattern: string -> bool, line: string) { IsDebris(pattern, line) || IsBlankLine(line) }

  /** The length of the run of debris and blank lines at the start. */
  function Run(pattern: string -> bool, lines: seq<string>): (n: nat)
    ensures n <= |lines|
    ensures n < |lines| ==> !IsFiller(pattern, lines[n])
    ensures forall i | 0 <= i < n :: IsFiller(pattern, lines[i])
  {
    if lines != [] && IsFiller(pattern, lines[0]) then 1 + Run(pattern, lines[1..]) else 0
  }

  predicate StartsDebris(pattern: string -> bool, lines: seq<string>) {
    lines != [] && IsDebris(pattern, lines[0]) && Run(pattern, lines) >= 3
  }

  function WithoutDebris(pattern: string -> bool, lines: seq<string>): seq<string>
    decreases |lines|
  {
    if lines == [] then []
    else if StartsDebris(pattern, lines) then WithoutDebris(pattern, lines[Run(pattern, lines)..])
    else [lines[0]] + WithoutDebris(pattern, lines[1..])
  }

  function StripDebris(pattern: string -> bool, text: string): string {
    if text == [] then text else Join(WithoutDebris(pattern, SourceLines(text)), "\n")
  }

  /** The inner loop: where the run from line i ends. */
  method FindRunEnd(pattern: string -> bool, lines: seq<string>, i: nat) returns (j: nat)
    requires i <= |lines|
    ensures i <= j <= |lines| && j - i == Run(pattern, lines[i..])
  {
    j := i;
    while j < |lines| && (IsDebris(pattern, lines[j]) || IsBlankLine(lines[j]))
      invariant i <= j <= |lines|
      invariant j - i + Run(pattern, lines[j..]) == Run(pattern, lines[i..])
    {
      assert lines[j..][1..] == lines[j + 1..];
      j := j + 1;
    }
  }

  lemma DropStep(pattern: string -> bool, lines: seq<string>, i: nat)
    requires i < |lines| && StartsDebris(pattern, lines[i..])
    ensures WithoutDebris(pattern, lines[i..]) == WithoutDebris(pattern, lines[i + Run(pattern, lines[i..])..])
  {
    var n := Run(pattern, lines[i..]);
    assert lines[i..][n..] == lines[i + n..];
  }

  lemma KeepStep(pattern: string -> bool, lines: seq<string>, i: nat)
    requires i < |lines| && !StartsDebris(pattern, lines[i..])
    ensures WithoutDebris(pattern, lines[i..]) == [lines[i]] + WithoutDebris(pattern, lines[i + 1..])
  {
    assert lines[i..][1..] == lines[i + 1..];
  }

  method DropDebris(pattern: string -> bool, lines: seq<string>) returns (out: seq<string>)
    ensures out == WithoutDebris(pattern, lines)
  {
    out := [];
    var i := 0;
    while i < |lines|
      invariant i <= |lines|
      invariant out + WithoutDebris(pattern, lines[i..]) == WithoutDebris(pattern, lines)
    {
      if IsDebris(pattern, lines[i]) {
        var j := FindRunEnd(pattern, lines, i);
        if j - i >= 3 {
          DropStep(pattern, lines, i);
          i := j;
          continue;
        }
      }
      KeepStep(pattern, lines, i);
      Associate(out, [lines[i]], WithoutDebris(pattern, lines[i + 1..]));
      out := out + [lines[i]];
      i := i + 1;
    }
    assert lines[i..] == [] && out + [] == out;
  }

  method StripChartTextDebris(pattern: string -> bool, text: string) returns (r: string)
    ensures r == StripDebris(pattern, text)
  {
    if text == [] {
      return text;
    }
    var out := DropDebris(pattern, SourceLines(text));
    r := Join(out, "\n");
  }

  /** No run of three or more debris and blank lines starts with debris. */
  ghost predicate NoDebrisRun(pattern: string -> bool, lines: seq<string>)
    decreases |lines|
  {
    lines == [] || (!StartsDebris(pattern, lines) && NoDebrisRun(pattern, lines[1..]))
  }

  lemma {:induction false} NoLongerRuns(pattern: string -> bool, lines: seq<string>)
    ensures Run(pattern, WithoutDebris(pattern, lines)) <= Run(pattern, lines)
    decreases |lines|
  {
    if lines != [] {
      if StartsDebris(pattern, lines) {
        var rest := lines[Run(pattern, lines)..];
        NoLongerRuns(pattern, rest);
        assert Run(pattern, rest) == 0;
      } else {
        NoLongerRuns(pattern, lines[1..]);
        var rest := WithoutDebris(pattern, lines[1..]);
        assert ([lines[0]] + rest)[1..] == rest;
      }
    }
  }

  lemma {:induction false} DebrisGone(pattern: string -> bool, lines: seq<string>)
    ensures NoDebrisRun(pattern, WithoutDebris(pattern, lines))
    decreases |lines|
  {
    if lines != [] {
      if StartsDebris(pattern, lines) {
        DebrisGone(pattern, lines[Run(pattern, lines)..]);
      } else {
        DebrisGone(pattern, lines[1..]);
        NoLongerRuns(pattern, lines[1..]);
        var rest := WithoutDebris(pattern, lines[1..]);
        assert ([lines[0]] + rest)[1..] == rest;
      }
    }
  }

  lemma {:induction false} NothingToDrop(pattern: string -> bool, lines: seq<string>)
    requires NoDebrisRun(pattern, lines)
    ensures WithoutDebris(pattern, lines) == lines
    decreases |lines|
  {
    if lines != [] {
      NothingToDrop(pattern, lines[1..]);
      assert [lines[0]] + lines[1..] == lines;
    }
  }

  lemma {:induction false} SublistAfter(a: seq<string>, b: seq<string>, k: nat)
    requires k <= |b| && IsSublist(a, b[k..])
    ensures IsSublist(a, b)
  {
    if k == 0 {
      assert b[0..] == b;
    } else {
      assert b[1..][k - 1..] == b[k..];
      SublistAfter(a, b[1..], k - 1);
    }
  }

  lemma {:induction false} DebrisSublist(pattern: string -> bool, lines: seq<string>)
    ensures IsSublist(WithoutDebris(pattern, lines), lines)
    decreases |lines|
  {
    if lines != [] {
      if StartsDebris(pattern, lines) {
        DebrisSublist(pattern, lines[Run(pattern, lines)..]);
        SublistAfter(WithoutDebris(pattern, lines), lines, Run(pattern, lines));
      } else {
        DebrisSublist(pattern, lines[1..]);
        var rest := WithoutDebris(pattern, lines[1..]);
        assert ([lines[0]] + rest)[1..] == rest;
      }
    }
  }

  /** The debris filter is idempotent and leaves some lines of the text, in which
      no run of three or more debris and blank lines starts with debris. */
  lemma StripDebrisLaws(pattern: string -> bool, text: string)
    ensures StripDebris(pattern, StripDebris(pattern, text)) == StripDebris(pattern, text)
    ensures NoDebrisRun(pattern, SourceLines(StripDebris(pattern, text)))
    ensures text != [] ==> IsSublist(WithoutDebris(pattern, SourceLines(text)), SourceLines(text))
  {
    if text != [] {
      var lines := SourceLines(text);
      var kept := WithoutDebris(pattern, lines);
      DebrisGone(pattern, lines);
      NothingToDrop(pattern, kept);
      DebrisSublist(pattern, lines);
      ReadBack(kept, text);
    }
    NoDebrisInEmpty(pattern);
  }

  lemma NoDebrisInEmpty(pattern: string -> bool)
    ensures SourceLines("") == [""] && NoDebrisRun(pattern, [""])
  {
    assert UnixLines("") == "" && IsBlankLine("");
    assert [""][1..] == [];
  }

  lemma {:induction false} SublistLacks(a: seq<string>, b: seq<string>, c: char)
    requires IsSublist(a, b) && Lacks(b, c)
    ensures Lacks(a, c)
  {
    if a != [] {
      if a[0] == b[0] && IsSublist(a[1..], b[1..]) {
        SublistLacks(a[1..], b[1..], c);
        assert forall i | 0 < i < |a| :: a[i] == a[1..][i - 1];
      } else {
        SublistLacks(a, b[1..], c);
      }
    }
  }

  /** Lines left over from a text are read back from the text they make. */
  lemma ReadBack(kept: seq<string>, text: string)
    requires IsSublist(kept, SourceLines(text))
    ensures SourceLines(Join(kept, "\n")) == if kept == [] then [""] else kept
  {
    SourceLinesLack(text);
    SublistLacks(kept, SourceLines(text), '\n');
    SublistLacks(kept, SourceLines(text), '\r');
    ReadJoined(kept);
  }

  // ------------------------------------------------- exactly which lines go

  /** A run of at least three debris and blank lines starts with debris at line i
      and reaches line k. */
  ghost predicate Covers(pattern: string -> bool, lines: seq<string>, i: nat, k: nat) {
    i <= k < |lines| && StartsDebris(pattern, lines[i..]) && k < i + Run(pattern, lines[i..])
  }

  ghost predicate InDebrisRun(pattern: string -> bool, lines: seq<string>, k: nat) {
    exists i: nat :: Covers(pattern, lines, i, k)
  }

  /** The lines from k on that do not lie in such a run. */
  ghost function Outside(pattern: string -> bool, lines: seq<string>, k: nat): seq<string>
    requires k <= |lines|
    decreases |lines| - k
  {
    if k == |lines| then []
    else if InDebrisRun(pattern, lines, k) then Outside(pattern, lines, k + 1)
    else [lines[k]] + Outside(pattern, lines, k + 1)
  }

  lemma {:induction false} RunTail(pattern: string -> bool, lines: seq<string>, d: nat)
    requires d <= Run(pattern, lines)
    ensures Run(pattern, lines[d..]) == Run(pattern, lines) - d
  {
    if d == 0 {
      assert lines[0..] == lines;
    } else {
      RunTail(pattern, lines[1..], d - 1);
      assert lines[1..][d - 1..] == lines[d..];
    }
  }

  /** A run that reaches line k from an earlier line ends where the run from k
      ends. */
  lemma ReachesEnd(pattern: string -> bool, lines: seq<string>, i: nat, k: nat)
    requires i <= k <= |lines| && k <= i + Run(pattern, lines[i..])
    ensures Run(pattern, lines[k..]) == Run(pattern, lines[i..]) - (k - i)
  {
    RunTail(pattern, lines[i..], k - i);
    assert lines[i..][k - i..] == lines[k..];
  }

  /** No run that starts before k and is dropped reaches beyond k. */
  ghost predicate Clear(pattern: string -> bool, lines: seq<string>, k: nat)
    requires k <= |lines|
  {
    forall i: nat | i < k :: StartsDebris(pattern, lines[i..]) ==> i + Run(pattern, lines[i..]) <= k
  }

  lemma {:induction false} SkipRun(pattern: string -> bool, lines: seq<string>, k: nat, m: nat, end: nat)
    requires k <= m <= end <= |lines|
    requires forall n: nat | k <= n < end :: Covers(pattern, lines, k, n)
    ensures Outside(pattern, lines, m) == Outside(pattern, lines, end)
    decreases end - m
  {
    if m < end {
      assert Covers(pattern, lines, k, m);
      assert InDebrisRun(pattern, lines, m);
      SkipRun(pattern, lines, k, m + 1, end);
    }
  }

  lemma ClearAtEnd(pattern: string -> bool, lines: seq<string>, k: nat, end: nat)
    requires k <= end <= |lines| && Clear(pattern, lines, k) && end == k + Run(pattern, lines[k..])
    ensures Clear(pattern, lines, end)
  {
    forall i: nat | i < end && StartsDebris(pattern, lines[i..]) ensures i + Run(pattern, lines[i..]) <= end {
      if i > k {
        ReachesEnd(pattern, lines, k, i);
      }
    }
  }

  lemma {:induction false} DroppedExactlyFrom(pattern: string -> bool, lines: seq<string>, k: nat)
    requires k <= |lines| && Clear(pattern, lines, k)
    ensures WithoutDebris(pattern, lines[k..]) == Outside(pattern, lines, k)
    decreases |lines| - k
  {
    if k < |lines| {
      var rest := lines[k..];
      assert rest[1..] == lines[k + 1..];
      if StartsDebris(pattern, rest) {
        var end := k + Run(pattern, rest);
        assert rest[Run(pattern, rest)..] == lines[end..];
        assert forall n: nat | k <= n < end :: Covers(pattern, lines, k, n);
        SkipRun(pattern, lines, k, k, end);
        ClearAtEnd(pattern, lines, k, end);
        DroppedExactlyFrom(pattern, lines, end);
      } else {
        assert !InDebrisRun(pattern, lines, k);
        DroppedExactlyFrom(pattern, lines, k + 1);
      }
    }
  }

  /** The filter drops exactly the lines that lie in a run of at least three
      debris and blank lines that starts with debris. */
  lemma DroppedExactly(pattern: string -> bool, lines: seq<string>)
    ensures WithoutDebris(pattern, lines) == Outside(pattern, lines, 0)
  {
    assert lines[0..] == lines;
    DroppedExactlyFrom(pattern, lines, 0);
  }

  // ---------------------------------------------------------- figure captions

  /** Which lines carry a caption, and which look like the inside of a figure. */
  datatype Figure = Figure(caption: string -> bool, interior: string -> bool)

  function PopInterior(f: Figure, out: seq<string>): (r: seq<string>)
    ensures r <= out
    ensures r != [] ==> !f.interior(r[|r| - 1])
  {
    if out != [] && f.interior(out[|out| - 1]) then PopInterior(f, out[..|out| - 1]) else out
  }

  /** One line of the loop. */
  function Push(f: Figure, out: seq<string>, line: string): seq<string> {
    (if f.caption(line) then PopInterior(f, out) else out) + [line]
  }

  function Pushed(f: Figure, out: seq<string>, lines: seq<string>): seq<string>
    decreases |lines|
  {
    if lines == [] then out else Pushed(f, Push(f, out, lines[0]), lines[1..])
  }

  function StripAbove(f: Figure, text: string): string { Join(Pushed(f, [], SourceLines(text)), "\n") }

  method StripLinesAboveFigureCaptions(f: Figure, text: string) returns (r: string)
    ensures r == StripAbove(f, text)
  {
    var lines := SourceLines(text);
    var out: seq<string> := [];
    for i := 0 to |lines|
      invariant Pushed(f, out, lines[i..]) == Pushed(f, [], lines)
    {
      assert lines[i..][0] == lines[i] && lines[i..][1..] == lines[i + 1..];
      ghost var before := out;
      if f.caption(lines[i]) {
        while out != [] && f.interior(out[|out| - 1])
          invariant PopInterior(f, out) == PopInterior(f, before)
          decreases |out|
        {
          out := out[..|out| - 1];
        }
        out := out + [lines[i]];
      } else {
        out := out + [lines[i]];
      }
      assert out == Push(f, before, lines[i]);
    }
    r := Join(out, "\n");
  }

  /** The line is one of the interior lines right above a caption. */
  predicate AboveCaption(f: Figure, lines: seq<string>) {
    |lines| >= 2 && f.interior(lines[0]) && (f.caption(lines[1]) || AboveCaption(f, lines[1..]))
  }

  /** The text without these lines, stated without a stack. */
  function Kept(f: Figure, lines: seq<string>): seq<string>
    decreases |lines|
  {
    if lines == [] then []
    else if AboveCaption(f, lines) then Kept(f, lines[1..])
    else [lines[0]] + Kept(f, lines[1..])
  }

  ghost predicate AllInterior(f: Figure, lines: seq<string>) {
    forall i | 0 <= i < |lines| :: f.interior(lines[i])
  }

  lemma {:induction false} AboveAppended(f: Figure, lines: seq<string>, line: string)
    requires lines != []
    ensures AboveCaption(f, lines + [line]) <==> AboveCaption(f, lines) || (f.caption(line) && AllInterior(f, lines))
  {
    assert (lines + [line])[1..] == lines[1..] + [line];
    if |lines| > 1 {
      AboveAppended(f, lines[1..], line);
      assert AllInterior(f, lines) <==> f.interior(lines[0]) && AllInterior(f, lines[1..]) by {
        assert forall i | 0 < i < |lines| :: lines[i] == lines[1..][i - 1];
        assert forall i | 0 <= i < |lines[1..]| :: lines[1..][i] == lines[i + 1];
      }
    }
  }

  lemma {:induction false} KeptInterior(f: Figure, lines: seq<string>)
    ensures AllInterior(f, Kept(f, lines)) <==> AllInterior(f, lines)
  {
    if lines != [] {
      KeptInterior(f, lines[1..]);
      var rest := Kept(f, lines[1..]);
      ConsInterior(f, lines[0], lines[1..]);
      ConsInterior(f, lines[0], rest);
      assert [lines[0]] + lines[1..] == lines;
    }
  }

  lemma ConsInterior(f: Figure, line: string, lines: seq<string>)
    ensures AllInterior(f, [line] + lines) <==> f.interior(line) && AllInterior(f, lines)
  {
    assert forall i | 0 <= i < |lines| :: ([line] + lines)[i + 1] == lines[i];
    assert forall i | 0 < i < |[line] + lines| :: ([line] + lines)[i] == lines[i - 1];
    assert ([line] + lines)[0] == line;
  }

  lemma {:induction false} PopCons(f: Figure, line: string, lines: seq<string>)
    requires !AllInterior(f, [line] + lines)
    ensures PopInterior(f, [line] + lines) == [line] + PopInterior(f, lines)
    decreases |lines|
  {
    if lines != [] && f.interior(lines[|lines| - 1]) {
      var shorter := lines[..|lines| - 1];
      assert ([line] + lines)[..|lines|] == [line] + shorter;
      assert !AllInterior(f, [line] + shorter) by {
        var i :| 0 <= i < |[line] + lines| && !f.interior(([line] + lines)[i]);
        assert i < |lines| && ([line] + shorter)[i] == ([line] + lines)[i];
      }
      PopCons(f, line, shorter);
    } else {
      assert lines == [] ==> !f.interior(([line] + lines)[0]);
    }
  }

  lemma {:induction false} PopAll(f: Figure, lines: seq<string>)
    requires AllInterior(f, lines)
    ensures PopInterior(f, lines) == []
  {
    if lines != [] {
      PopAll(f, lines[..|lines| - 1]);
    }
  }

  lemma {:induction false} KeptAppend(f: Figure, lines: seq<string>, line: string)
    ensures Kept(f, lines + [line]) == Push(f, Kept(f, lines), line)
  {
    if lines == [] {
      assert lines + [line] == [line] && [line][1..] == [];
    } else {
      var rest := lines[1..];
      assert (lines + [line])[1..] == rest + [line];
      KeptAppend(f, rest, line);
      AboveAppended(f, lines, line);
      KeptInterior(f, lines);
      if !AboveCaption(f, lines) {
        var kept := Kept(f, rest);
        if f.caption(line) {
          if AllInterior(f, lines) {
            PopAll(f, [lines[0]] + kept);
            ConsInterior(f, lines[0], kept);
            PopAll(f, kept);
          } else {
            PopCons(f, lines[0], kept);
          }
        }
      }
    }
  }

  lemma {:induction false} PushedIsKept(f: Figure, done: seq<string>, lines: seq<string>)
    ensures Pushed(f, Kept(f, done), lines) == Kept(f, done + lines)
    decreases |lines|
  {
    if lines == [] {
      assert done + lines == done;
    } else {
      KeptAppend(f, done, lines[0]);
      PushedIsKept(f, done + [lines[0]], lines[1..]);
      assert done + [lines[0]] + lines[1..] == done + lines;
    }
  }

  /** The stack loop drops exactly the interior lines above captions. */
  lemma StackDropsExactly(f: Figure, lines: seq<string>)
    ensures Pushed(f, [], lines) == Kept(f, lines)
  {
    assert [] + lines == lines;
    PushedIsKept(f, [], lines);
  }

  /** No caption has an interior line right above it. */
  ghost predicate CaptionsClear(f: Figure, lines: seq<string>) {
    forall i | 0 <= i < |lines| - 1 :: f.caption(lines[i + 1]) ==> !f.interior(lines[i])
  }

  lemma PushKeepsClear(f: Figure, out: seq<string>, line: string)
    requires CaptionsClear(f, out)
    ensures CaptionsClear(f, Push(f, out, line))
  {
  }

  lemma {:induction false} PushedClear(f: Figure, out: seq<string>, lines: seq<string>)
    requires CaptionsClear(f, out)
    ensures CaptionsClear(f, Pushed(f, out, lines))
    decreases |lines|
  {
    if lines != [] {
      PushKeepsClear(f, out, lines[0]);
      PushedClear(f, Push(f, out, lines[0]), lines[1..]);
    }
  }

  lemma {:induction false} ClearIsNotAbove(f: Figure, lines: seq<string>)
    requires CaptionsClear(f, lines)
    ensures !AboveCaption(f, lines)
  {
    if |lines| >= 2 {
      ClearTail(f, lines);
      ClearIsNotAbove(f, lines[1..]);
      assert f.caption(lines[0 + 1]) ==> !f.interior(lines[0]);
    }
  }

  lemma ClearTail(f: Figure, lines: seq<string>)
    requires lines != [] && CaptionsClear(f, lines)
    ensures CaptionsClear(f, lines[1..])
  {
    forall i | 0 <= i < |lines[1..]| - 1 ensures f.caption(lines[1..][i + 1]) ==> !f.interior(lines[1..][i]) {
      assert lines[1..][i + 1] == lines[(i + 1) + 1] && lines[1..][i] == lines[i + 1];
    }
  }

  lemma {:induction false} ClearIsKept(f: Figure, lines: seq<string>)
    requires CaptionsClear(f, lines)
    ensures Kept(f, lines) == lines
  {
    if lines != [] {
      ClearIsNotAbove(f, lines);
      ClearTail(f, lines);
      ClearIsKept(f, lines[1..]);
      assert [lines[0]] + lines[1..] == lines;
    }
  }

  lemma {:induction false} KeptSublist(f: Figure, lines: seq<string>)
    ensures IsSublist(Kept(f, lines), lines)
  {
    if lines != [] {
      KeptSublist(f, lines[1..]);
      var rest := Kept(f, lines[1..]);
      assert ([lines[0]] + rest)[1..] == rest;
    }
  }

  /** The caption filter is idempotent and leaves some lines of the text, in which
      no caption has an interior line right above it. */
  lemma StripAboveLaws(f: Figure, text: string)
    ensures StripAbove(f, StripAbove(f, text)) == StripAbove(f, text)
    ensures CaptionsClear(f, SourceLines(StripAbove(f, text)))
    ensures IsSublist(Pushed(f, [], SourceLines(text)), SourceLines(text))
  {
    var lines := SourceLines(text);
    var kept := Pushed(f, [], lines);
    StackDropsExactly(f, lines);
    PushedClear(f, [], lines);
    KeptSublist(f, lines);
    ReadBack(kept, text);
    var again := SourceLines(StripAbove(f, text));
    ClearIsKept(f, again);
    StackDropsExactly(f, again);
  }
}
