/** Which lines the two text filters drop, by position.
    Source: docreader/parser/pdf_parser.py. */
module DroppedLines {
  import opened Text
  import opened TextStrippers

  /** A stretch of at least three lines, from a debris line on, in which every
      line is blank or debris. */
  ghost predicate IsStretch(pattern: string -> bool, lines: seq<string>, i: nat, j: nat) {
    && i + 3 <= j <= |lines|
    && Trim(lines[i], IsSpace) != []
    && forall n | i <= n < j :: Trim(lines[n], IsSpace) == [] || pattern(Trim(lines[n], IsSpace))
  }

  ghost predicate InStretch(pattern: string -> bool, lines: seq<string>, k: nat) {
    exists i: nat, j: nat :: i <= k < j && IsStretch(pattern, lines, i, j)
  }

  lemma {:induction false} RunReaches(pattern: string -> bool, lines: seq<string>, n: nat)
    requires n <= |lines| && forall i | 0 <= i < n :: IsFiller(pattern, lines[i])
    ensures Run(pattern, lines) >= n
  {
  }

  lemma CoversStretch(pattern: string -> bool, lines: seq<string>, i: nat, k: nat)
    requires Covers(pattern, lines, i, k)
    ensures IsStretch(pattern, lines, i, i + Run(pattern, lines[i..])) && k < i + Run(pattern, lines[i..])
  {
    var run := Run(pattern, lines[i..]);
    assert lines[i..][0] == lines[i];
    forall n | i <= n < i + run ensures IsFiller(pattern, lines[n]) {
      assert lines[n] == lines[i..][n - i];
    }
  }

  lemma StretchCovers(pattern: string -> bool, lines: seq<string>, i: nat, j: nat, k: nat)
    requires IsStretch(pattern, lines, i, j) && i <= k < j
    ensures Covers(pattern, lines, i, k)
  {
    RunReaches(pattern, lines[i..], j - i);
  }

  /** A line is in a run of debris exactly if it is in such a stretch. */
  lemma DebrisIs(pattern: string -> bool, lines: seq<string>, k: nat)
    ensures InDebrisRun(pattern, lines, k) <==> InStretch(pattern, lines, k)
  {
    if InDebrisRun(pattern, lines, k) {
      var i: nat :| Covers(pattern, lines, i, k);
      CoversStretch(pattern, lines, i, k);
    }
    if InStretch(pattern, lines, k) {
      var i: nat, j: nat :| i <= k < j && IsStretch(pattern, lines, i, j);
      StretchCovers(pattern, lines, i, j, k);
    }
  }

  /** The lines from k on that are in no stretch. */
  ghost function LeftFrom(pattern: string -> bool, lines: seq<string>, k: nat): seq<string>
    requires k <= |lines|
    decreases |lines| - k
  {
    if k == |lines| then []
    else (if InStretch(pattern, lines, k) then [] else [lines[k]]) + LeftFrom(pattern, lines, k + 1)
  }

  lemma {:induction false} OutsideIs(pattern: string -> bool, lines: seq<string>, k: nat)
    requires k <= |lines|
    ensures Outside(pattern, lines, k) == LeftFrom(pattern, lines, k)
    decreases |lines| - k
  {
    if k < |lines| {
      DebrisIs(pattern, lines, k);
      OutsideIs(pattern, lines, k + 1);
    }
  }

  /** What stays of the lines is what lies in no stretch, in order. */
  lemma StretchesDropped(pattern: string -> bool, lines: seq<string>)
    ensures WithoutDebris(pattern, lines) == LeftFrom(pattern, lines, 0)
  {
    DroppedExactly(pattern, lines);
    OutsideIs(pattern, lines, 0);
  }

  /** Lines k to j - 1 are interior lines, and line j is a caption. */
  ghost predicate LeadsToCaption(f: Figure, lines: seq<string>, k: nat, j: nat) {
    k < j < |lines| && f.caption(lines[j]) && forall n | k <= n < j :: f.interior(lines[n])
  }

  ghost function NotAboveFrom(f: Figure, lines: seq<string>, k: nat): seq<string>
    requires k <= |lines|
    decreases |lines| - k
  {
    if k == |lines| then []
    else (if exists j: nat :: LeadsToCaption(f, lines, k, j) then [] else [lines[k]]) + NotAboveFrom(f, lines, k + 1)
  }

  lemma {:induction false} AboveIs(f: Figure, lines: seq<string>, k: nat)
    requires k <= |lines|
    ensures AboveCaption(f, lines[k..]) <==> exists j: nat :: LeadsToCaption(f, lines, k, j)
    decreases |lines| - k
  {
    if k + 1 < |lines| {
      var next := k + 1;
      AboveIs(f, lines, next);
      assert lines[k..][1..] == lines[k + 1..];
      if f.interior(lines[k]) && f.caption(lines[k + 1]) {
        assert LeadsToCaption(f, lines, k, k + 1);
      }
      if j: nat :| LeadsToCaption(f, lines, next, j) {
        assert f.interior(lines[k]) ==> LeadsToCaption(f, lines, k, j);
      }
      if j: nat :| LeadsToCaption(f, lines, k, j) {
        assert j > k + 1 ==> LeadsToCaption(f, lines, k + 1, j);
      }
    }
  }

  lemma {:induction false} KeptIs(f: Figure, lines: seq<string>, k: nat)
    requires k <= |lines|
    ensures Kept(f, lines[k..]) == NotAboveFrom(f, lines, k)
    decreases |lines| - k
  {
    if k < |lines| {
      AboveIs(f, lines, k);
      assert lines[k..][0] == lines[k] && lines[k..][1..] == lines[k + 1..];
      KeptIs(f, lines, k + 1);
    }
  }

  /** The filter drops exactly the lines from which interior lines lead down to a caption. */
  lemma InteriorsDropped(f: Figure, lines: seq<string>)
    ensures Pushed(f, [], lines) == NotAboveFrom(f, lines, 0)
  {
    StackDropsExactly(f, lines);
    KeptIs(f, lines, 0);
    assert lines[0..] == lines;
  }
}
