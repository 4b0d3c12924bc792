/** Merging markdown tables that continue on the following pages. */
module TableMerge {
  import opened Numbers
  import opened Ordering
  import opened TablePrinter
  import opened Text
  import opened Wrappers

  // ------------------------------------------------------- headers and appending

  /** The names in a header: lower case, stripped, blank cells left out. lower
      stands for str.lower. */
  function Names(lower: string -> string, header: seq<string>): set<string> {
    set i | 0 <= i < |header| && Trim(header[i], IsSpace) != "" :: Trim(lower(header[i]), IsSpace)
  }

  /** Jaccard similarity of two headers. */
  function HeaderSimilarity(lower: string -> string, h1: seq<string>, h2: seq<string>): real {
    if h1 == [] || h2 == [] then 0.0
    else
      var s1, s2 := Names(lower, h1), Names(lower, h2);
      if s1 == {} || s2 == {} then 0.0
      else
        assert |s1 + s2| > 0 by { Contained(s1, s1 + s2); }
        |s1 * s2| as real / |s1 + s2| as real
  }

  /** Similarity is symmetric, lies between 0 and 1, and is 1 exactly for equal
      non-empty sets of names. */
  lemma SimilarityLaws(lower: string -> string, h1: seq<string>, h2: seq<string>)
    ensures 0.0 <= HeaderSimilarity(lower, h1, h2) <= 1.0
    ensures HeaderSimilarity(lower, h1, h2) == HeaderSimilarity(lower, h2, h1)
    ensures HeaderSimilarity(lower, h1, h2) == 1.0 <==> Names(lower, h1) == Names(lower, h2) != {}
  {
    var s1, s2 := Names(lower, h1), Names(lower, h2);
    assert h1 == [] ==> s1 == {};
    assert h2 == [] ==> s2 == {};
    if s1 != {} && s2 != {} {
      Contained(s1, s1 + s2);
      Contained(s1 * s2, s1 + s2);
      assert s1 + s2 == s2 + s1 && s1 * s2 == s2 * s1;
      var i, u := |s1 * s2| as real, |s1 + s2| as real;
      Fraction(i, u);
      if s1 == s2 {
        assert s1 * s2 == s1 + s2;
      } else if s1 * s2 == s1 + s2 {
        assert forall x | x in s1 :: x in s1 * s2;
        assert forall x | x in s2 :: x in s1 * s2;
      }
    }
  }

  lemma Fraction(i: real, u: real)
    requires 0.0 <= i <= u && u > 0.0
    ensures 0.0 <= i / u <= 1.0
    ensures i / u == 1.0 <==> i == u
  {
    var q := i / u;
    assert q * u == i;
    assert q < 0.0 ==> q * u < 0.0;
    assert q > 1.0 ==> (q - 1.0) * u > 0.0;
  }

  function MergeTableRows(table1: string, table2: string): string {
    var lines1 := TableLines(table1);
    var lines2 := TableLines(table2);
    if |lines2| < 3 then table1 else Join(lines1 + lines2[2..], "\n")
  }

  /** How the merge reads and appends tables: a table with a header, a table that
      continues another, appending, and the lines of a table. */
  datatype Rules = Rules(titled: string -> bool, continues: (string, string) -> bool,
                         append: (string, string) -> string, lines: string -> seq<string>)

  predicate IsTitled(md: string) { ExtractTableHeader(md).Some? }

  predicate Continues(lower: string -> string, first: string, next: string) {
    && IsTitled(first) && IsTitled(next)
    && HeaderSimilarity(lower, ExtractTableHeader(first).value, ExtractTableHeader(next).value) > 0.6
  }

  /** A table continues another exactly if both have a header and more than sixty
      percent of all names in the two headers occur in both. */
  lemma ContinuesIs(lower: string -> string, first: string, next: string)
    ensures Continues(lower, first, next) <==>
      && IsTitled(first) && IsTitled(next)
      && var s1, s2 := Names(lower, ExtractTableHeader(first).value), Names(lower, ExtractTableHeader(next).value);
         100 * |s1 * s2| > 60 * |s1 + s2|
  {
    if IsTitled(first) && IsTitled(next) {
      SimilarityIs(lower, ExtractTableHeader(first).value, ExtractTableHeader(next).value);
    }
  }

  /** The names of a header are those of its cells that are not blank, in lower case. */
  lemma NamesAre(lower: string -> string, header: seq<string>, name: string)
    ensures name in Names(lower, header) <==>
      exists i :: 0 <= i < |header| && !AllOf(header[i], IsSpace) && name == Trim(lower(header[i]), IsSpace)
  {
    forall i | 0 <= i < |header| ensures Trim(header[i], IsSpace) == "" <==> AllOf(header[i], IsSpace) {
      TrimEmptyIff(header[i], IsSpace);
    }
  }

  lemma SimilarityIs(lower: string -> string, h1: seq<string>, h2: seq<string>)
    ensures var s1, s2 := Names(lower, h1), Names(lower, h2);
      HeaderSimilarity(lower, h1, h2) > 0.6 <==> 100 * |s1 * s2| > 60 * |s1 + s2|
  {
    var s1, s2 := Names(lower, h1), Names(lower, h2);
    assert h1 == [] ==> s1 == {};
    assert h2 == [] ==> s2 == {};
    if s1 == {} || s2 == {} {
      assert s1 * s2 == {};
    } else {
      Contained(s1, s1 + s2);
      assert |s1 + s2| > 0;
      RatioOrder(|s1 * s2| as real, |s1 + s2| as real, 0.6);
    }
  }

  function MarkdownTables(lower: string -> string): Rules {
    Rules(IsTitled, (a, b) => Continues(lower, a, b), MergeTableRows, TableLines)
  }

  /** The rows after the header and the rule. */
  function DataRows(lines: seq<string>): seq<string> { if |lines| < 3 then [] else lines[2..] }

  /** What the merge needs to know of the rules: appending keeps the header and
      adds exactly the data rows. */
  ghost predicate Sound(r: Rules) {
    && (forall a | r.titled(a) :: |r.lines(a)| >= 2)
    && (forall a, b | r.titled(a) :: Appends(r, a, b))
  }

  ghost predicate Appends(r: Rules, a: string, b: string) {
    r.titled(r.append(a, b)) && r.lines(r.append(a, b)) == r.lines(a) + DataRows(r.lines(b))
  }

  /** A stripped text has non-empty first and last lines. */
  lemma {:induction false} LineEnds(s: string)
    requires IsTrimmed(s)
    ensures SplitLines(s) != [] && SplitLines(s)[0] != [] && !IsSpace(SplitLines(s)[0][0])
    ensures LastInk(SplitLines(s))
  {
    assert !IsLineBreak(s[0]);
    LastLine(s);
  }

  lemma {:induction false} LastLine(s: string)
    requires s != [] && !IsSpace(s[|s| - 1])
    ensures LastInk(SplitLines(s))
    decreases |s|
  {
    if IsLineBreak(s[0]) {
      var rest := if s[0] == '\r' && |s| > 1 && s[1] == '\n' then s[2..] else s[1..];
      assert |rest| > 0;
      LastLine(rest);
      LaterLastInk([], SplitLines(rest));
    } else if |s| > 1 {
      LastLine(s[1..]);
      LongerFirstLine(s[0], SplitLines(s[1..]));
    } else {
      assert s[1..] == [];
    }
  }

  lemma LaterLastInk(line: string, lines: seq<string>)
    requires LastInk(lines)
    ensures LastInk([line] + lines)
  {
  }

  lemma LongerFirstLine(c: char, lines: seq<string>)
    requires LastInk(lines)
    ensures LastInk([[c] + lines[0]] + lines[1..])
  {
    var first := [c] + lines[0];
    assert first[|first| - 1] == if lines[0] == [] then c else lines[0][|lines[0]| - 1];
  }

  /** Lines that were split from stripped texts are found again after a join. */
  lemma JoinedLines(lines: seq<string>)
    requires LastInk(lines) && lines[0] != [] && !IsSpace(lines[0][0])
    requires forall line | line in lines :: NoneOf(line, IsLineBreak)
    ensures TableLines(Join(lines, "\n")) == lines
  {
    SplitLinesJoin(lines);
    if |lines| > 1 {
      JoinEnds(lines);
    }
    TrimNothing(Join(lines, "\n"), IsSpace);
  }

  /** Appending keeps header and rows and adds exactly the data rows of the
      continuation. */
  lemma MergeKeepsRows(a: string, b: string)
    requires IsTitled(a)
    ensures TableLines(MergeTableRows(a, b)) == TableLines(a) + DataRows(TableLines(b))
    ensures ExtractTableHeader(MergeTableRows(a, b)) == ExtractTableHeader(a)
  {
    var lines1, lines2 := TableLines(a), TableLines(b);
    if |lines2| >= 3 {
      assert Trim(a, IsSpace) != [] && Trim(b, IsSpace) != [];
      LineEnds(Trim(a, IsSpace));
      LineEnds(Trim(b, IsSpace));
      JoinedLines(lines1 + lines2[2..]);
    } else {
      assert lines1 + [] == lines1;
    }
  }

  lemma MarkdownSound(lower: string -> string)
    ensures Sound(MarkdownTables(lower))
  {
    var r := MarkdownTables(lower);
    forall a, b | r.titled(a) ensures Appends(r, a, b) {
      MergeKeepsRows(a, b);
    }
  }

  // --------------------------------------------------------------- the merge

  type Pages = map<int, seq<string>>

  function At(tables: Pages, p: int): seq<string> { if p in tables then tables[p] else [] }

  /** The index of the first table on a page that continues t, or the number of
      tables. */
  function FirstContinuation(r: Rules, t: string, nts: seq<string>): (k: nat)
    ensures k <= |nts|
    ensures k < |nts| ==> r.continues(t, nts[k])
    ensures forall i | 0 <= i < k :: !r.continues(t, nts[i])
  {
    if nts == [] || r.continues(t, nts[0]) then 0 else 1 + FirstContinuation(r, t, nts[1..])
  }

  /** A table with its continuations so far, the pages used up, and the tables
      that share a used page with a continuation and are never looked at again. */
  datatype Chain = Chain(combined: string, used: set<int>, lost: seq<string>)

  /** The chain with table k of page p appended. */
  function Take(r: Rules, c: Chain, nts: seq<string>, k: nat, p: int): Chain
    requires k < |nts|
  {
    Chain(r.append(c.combined, nts[k]), c.used + {p}, c.lost + (nts[..k] + nts[k + 1..]))
  }

  function LookAhead(r: Rules, t: string, tables: Pages, p: int, last: int, c: Chain): Chain
    decreases last + 1 - p
  {
    if p > last then c
    else if p in c.used then LookAhead(r, t, tables, p + 1, last, c)
    else
      var nts := At(tables, p);
      var k := FirstContinuation(r, t, nts);
      if k == |nts| then c
      else LookAhead(r, t, tables, p + 1, last, Take(r, c, nts, k, p))
  }

  datatype Merging = Merging(used: set<int>, out: seq<(int, string)>, lost: seq<string>)

  function MergeTable(r: Rules, tables: Pages, p: int, last: int, t: string, m: Merging): Merging {
    if !r.titled(t) then Merging(m.used, m.out + [(p, t)], m.lost)
    else
      var c := LookAhead(r, t, tables, p + 1, last, Chain(t, m.used, m.lost));
      Merging(c.used, m.out + [(p, c.combined)], c.lost)
  }

  function MergePage(r: Rules, tables: Pages, p: int, last: int, ts: seq<string>, m: Merging): Merging
    decreases |ts|
  {
    if ts == [] then m else MergePage(r, tables, p, last, ts[1..], MergeTable(r, tables, p, last, ts[0], m))
  }

  function MergeFrom(r: Rules, tables: Pages, p: int, last: int, m: Merging): Merging
    decreases last + 1 - p
  {
    if p > last then m
    else if p in m.used then MergeFrom(r, tables, p + 1, last, m)
    else MergeFrom(r, tables, p + 1, last, MergePage(r, tables, p, last, At(tables, p), m))
  }

  const START := Merging({}, [], [])

  /** The pages that carry tables, in order, as sorted() lists them. */
  ghost predicate IsSortedKeys(pages: seq<int>, tables: Pages) {
    && (forall i, j | 0 <= i < j < |pages| :: pages[i] < pages[j])
    && (forall p :: p in tables <==> p in pages)
  }

  /** The whole merge, for sorted pages. */
  function CrossPage(r: Rules, tables: Pages, pages: seq<int>): Merging {
    if pages == [] then START else MergeFrom(r, tables, pages[0], pages[|pages| - 1], START)
  }

  method FindContinuation(r: Rules, t: string, nts: seq<string>) returns (k: nat)
    ensures k == FirstContinuation(r, t, nts)
  {
    k := 0;
    while k < |nts|
      invariant k <= |nts|
      invariant k + FirstContinuation(r, t, nts[k..]) == FirstContinuation(r, t, nts)
    {
      assert nts[k..][0] == nts[k] && nts[k..][1..] == nts[k + 1..];
      if r.continues(t, nts[k]) {
        return;
      }
      k := k + 1;
    }
  }

  /** The look-ahead loop for one table. */
  method Extend(r: Rules, t: string, tables: Pages, p: int, last: int, used: set<int>, ghost lost: seq<string>)
    returns (combined: string, used': set<int>, ghost lost': seq<string>)
    ensures Chain(combined, used', lost') == LookAhead(r, t, tables, p, last, Chain(t, used, lost))
  {
    combined, used', lost' := t, used, lost;
    var q := p;
    while q <= last
      invariant LookAhead(r, t, tables, q, last, Chain(combined, used', lost'))
             == LookAhead(r, t, tables, p, last, Chain(t, used, lost))
      decreases last + 1 - q
    {
      if q !in used' {
        var nts := At(tables, q);
        var k := FindContinuation(r, t, nts);
        if k == |nts| {
          return;
        }
        combined, used', lost' := r.append(combined, nts[k]), used' + {q}, lost' + (nts[..k] + nts[k + 1..]);
      }
      q := q + 1;
    }
  }

  method MergeTablesOfPage(r: Rules, tables: Pages, p: int, last: int, ghost m: Merging, used: set<int>,
                           out: seq<(int, string)>)
    returns (used': set<int>, out': seq<(int, string)>, ghost m': Merging)
    requires m.used == used && m.out == out
    ensures m' == MergePage(r, tables, p, last, At(tables, p), m)
    ensures used' == m'.used && out' == m'.out
  {
    var ts := At(tables, p);
    used', out', m' := used, out, m;
    for i := 0 to |ts|
      invariant used' == m'.used && out' == m'.out
      invariant MergePage(r, tables, p, last, ts[i..], m') == MergePage(r, tables, p, last, ts, m)
    {
      var t := ts[i];
      assert ts[i..][0] == t && ts[i..][1..] == ts[i + 1..];
      ghost var lost := m'.lost;
      m' := MergeTable(r, tables, p, last, t, m');
      if !r.titled(t) {
        out' := out' + [(p, t)];
      } else {
        var combined;
        ghost var lost';
        combined, used', lost' := Extend(r, t, tables, p + 1, last, used', lost);
        out' := out' + [(p, combined)];
      }
    }
  }

  /** Pages without tables change nothing. */
  lemma {:induction false} SkipPages(r: Rules, tables: Pages, p: int, q: int, last: int, m: Merging)
    requires p <= q <= last + 1 && forall k | p <= k < q :: At(tables, k) == []
    ensures MergeFrom(r, tables, p, last, m) == MergeFrom(r, tables, q, last, m)
    decreases q - p
  {
    if p < q {
      SkipPages(r, tables, p + 1, q, last, m);
    }
  }

  lemma NextPage(r: Rules, tables: Pages, pages: seq<int>, i: nat, m: Merging)
    requires IsSortedKeys(pages, tables) && i + 1 < |pages|
    ensures var last := pages[|pages| - 1];
      MergeFrom(r, tables, pages[i] + 1, last, m) == MergeFrom(r, tables, pages[i + 1], last, m)
  {
    forall k | pages[i] < k < pages[i + 1] ensures k !in tables {
      forall j | 0 <= j < |pages| ensures pages[j] != k {
        assert j <= i ==> pages[j] <= pages[i];
        assert j > i ==> pages[j] >= pages[i + 1];
      }
    }
    SkipPages(r, tables, pages[i] + 1, pages[i + 1], pages[|pages| - 1], m);
  }

  method MergeCrossPageTables(r: Rules, tables: Pages, sortedPages: seq<int>) returns (merged: seq<(int, string)>)
    requires IsSortedKeys(sortedPages, tables)
    ensures merged == CrossPage(r, tables, sortedPages).out
  {
    merged := [];
    if sortedPages == [] {
      return;
    }
    var last := sortedPages[|sortedPages| - 1];
    var used: set<int> := {};
    ghost var m := START;
    for i := 0 to |sortedPages|
      invariant used == m.used && merged == m.out
      invariant (if i < |sortedPages| then MergeFrom(r, tables, sortedPages[i], last, m) else m)
             == CrossPage(r, tables, sortedPages)
    {
      var p := sortedPages[i];
      if p !in used && At(tables, p) != [] {
        used, merged, m := MergeTablesOfPage(r, tables, p, last, m, used, merged);
      }
      if i + 1 < |sortedPages| {
        NextPage(r, tables, sortedPages, i, m);
      }
    }
  }

  // ------------------------------------------------------- nothing but siblings lost

  function Rows(r: Rules, md: string): seq<string> { DataRows(r.lines(md)) }

  /** The data rows of a list of tables, in order. */
  function RowsOf(r: Rules, mds: seq<string>): seq<string> {
    if mds == [] then [] else Rows(r, mds[0]) + RowsOf(r, mds[1..])
  }

  function Texts(out: seq<(int, string)>): seq<string> {
    seq(|out|, i requires 0 <= i < |out| => out[i].1)
  }

  /** The data rows of the pages p to last that are not used up. */
  function Left(r: Rules, tables: Pages, p: int, last: int, used: set<int>): seq<string>
    decreases last + 1 - p
  {
    if p > last then []
    else if p in used then Left(r, tables, p + 1, last, used)
    else RowsOf(r, At(tables, p)) + Left(r, tables, p + 1, last, used)
  }

  lemma {:induction false} RowsOfAppend(r: Rules, a: seq<string>, b: seq<string>)
    ensures RowsOf(r, a + b) == RowsOf(r, a) + RowsOf(r, b)
  {
    if a == [] {
      assert a + b == b;
    } else {
      RowsOfAppend(r, a[1..], b);
      assert (a + b)[1..] == a[1..] + b && (a + b)[0] == a[0];
      Associate(Rows(r, a[0]), RowsOf(r, a[1..]), RowsOf(r, b));
    }
  }

  lemma {:induction false} LeftIgnores(r: Rules, tables: Pages, p: int, last: int, used: set<int>, q: int)
    requires q < p
    ensures Left(r, tables, p, last, used + {q}) == Left(r, tables, p, last, used)
    decreases last + 1 - p
  {
    if p <= last {
      LeftIgnores(r, tables, p + 1, last, used, q);
    }
  }

  lemma RowsOfAppended(r: Rules, a: string, b: string)
    requires Sound(r) && r.titled(a)
    ensures r.titled(r.append(a, b)) && Rows(r, r.append(a, b)) == Rows(r, a) + Rows(r, b)
  {
    assert Appends(r, a, b);
    var x, y := r.lines(a), DataRows(r.lines(b));
    assert |x| >= 2 && (x + y)[2..] == x[2..] + y;
  }

  /** The rows of a chain: those of its table and those lost with it. */
  function ChainRows(r: Rules, c: Chain): multiset<string> {
    multiset(Rows(r, c.combined)) + multiset(RowsOf(r, c.lost))
  }

  lemma TakeOne(r: Rules, c: Chain, nts: seq<string>, k: nat, p: int)
    requires Sound(r) && r.titled(c.combined) && k < |nts|
    ensures r.titled(Take(r, c, nts, k, p).combined)
    ensures ChainRows(r, Take(r, c, nts, k, p)) == ChainRows(r, c) + multiset(RowsOf(r, nts))
  {
    RowsOfAppended(r, c.combined, nts[k]);
    RowsOfAppend(r, c.lost, nts[..k] + nts[k + 1..]);
    RowsOfAppend(r, nts[..k], nts[k + 1..]);
    RowsOfAppend(r, nts[..k], nts[k..]);
    assert nts == nts[..k] + nts[k..] && nts[k..][1..] == nts[k + 1..];
  }

  /** Looking ahead uses up pages from p on only, and frees none. */
  lemma {:induction false} LookAheadUses(r: Rules, t: string, tables: Pages, p: int, last: int, c: Chain)
    ensures forall q | q < p :: q in LookAhead(r, t, tables, p, last, c).used <==> q in c.used
    ensures c.used <= LookAhead(r, t, tables, p, last, c).used
    decreases last + 1 - p
  {
    if p > last {
    } else if p in c.used {
      LookAheadUses(r, t, tables, p + 1, last, c);
    } else {
      var nts := At(tables, p);
      var k := FirstContinuation(r, t, nts);
      if k < |nts| {
        LookAheadUses(r, t, tables, p + 1, last, Take(r, c, nts, k, p));
      }
    }
  }

  lemma LeftStep(r: Rules, tables: Pages, p: int, last: int, used: set<int>)
    requires p <= last && p !in used
    ensures multiset(Left(r, tables, p, last, used))
         == multiset(RowsOf(r, At(tables, p))) + multiset(Left(r, tables, p + 1, last, used))
  {
  }

  lemma {:induction false} LookAheadRows(r: Rules, t: string, tables: Pages, p: int, last: int, c: Chain)
    requires Sound(r) && r.titled(c.combined)
    ensures var c' := LookAhead(r, t, tables, p, last, c);
      ChainRows(r, c') + multiset(Left(r, tables, p, last, c'.used))
      == ChainRows(r, c) + multiset(Left(r, tables, p, last, c.used))
    decreases last + 1 - p
  {
    if p > last {
    } else if p in c.used {
      LookAheadUses(r, t, tables, p + 1, last, c);
      LookAheadRows(r, t, tables, p + 1, last, c);
    } else if FirstContinuation(r, t, At(tables, p)) < |At(tables, p)| {
      LookAheadTakes(r, t, tables, p, last, c);
    }
  }

  lemma {:induction false} LookAheadTakes(r: Rules, t: string, tables: Pages, p: int, last: int, c: Chain)
    requires Sound(r) && r.titled(c.combined) && p <= last && p !in c.used
    requires FirstContinuation(r, t, At(tables, p)) < |At(tables, p)|
    ensures var c' := LookAhead(r, t, tables, p, last, c);
      ChainRows(r, c') + multiset(Left(r, tables, p, last, c'.used))
      == ChainRows(r, c) + multiset(Left(r, tables, p, last, c.used))
    decreases last + 1 - p, 0
  {
    var nts := At(tables, p);
    var k := FirstContinuation(r, t, nts);
    var d := Take(r, c, nts, k, p);
    TakeOne(r, c, nts, k, p);
    LookAheadRows(r, t, tables, p + 1, last, d);
    LookAheadUses(r, t, tables, p + 1, last, d);
    UsedPageRows(r, tables, p, last, c, d, LookAhead(r, t, tables, p + 1, last, d));
  }

  /** Using up page p moves its rows from the pages into the chain. */
  lemma UsedPageRows(r: Rules, tables: Pages, p: int, last: int, c: Chain, d: Chain, c': Chain)
    requires p <= last && p !in c.used && d.used == c.used + {p} && d.used <= c'.used
    requires ChainRows(r, d) == ChainRows(r, c) + multiset(RowsOf(r, At(tables, p)))
    requires ChainRows(r, c') + multiset(Left(r, tables, p + 1, last, c'.used))
          == ChainRows(r, d) + multiset(Left(r, tables, p + 1, last, d.used))
    ensures ChainRows(r, c') + multiset(Left(r, tables, p, last, c'.used))
         == ChainRows(r, c) + multiset(Left(r, tables, p, last, c.used))
  {
    LeftIgnores(r, tables, p + 1, last, c.used, p);
    LeftStep(r, tables, p, last, c.used);
    assert p in d.used && p in c'.used;
    assert Left(r, tables, p, last, c'.used) == Left(r, tables, p + 1, last, c'.used);
    TakeSum(ChainRows(r, c'), multiset(Left(r, tables, p + 1, last, c'.used)), ChainRows(r, d), ChainRows(r, c),
            multiset(RowsOf(r, At(tables, p))), multiset(Left(r, tables, p + 1, last, c.used)));
  }

  lemma TakeSum<T>(c': multiset<T>, left': multiset<T>, d: multiset<T>, c: multiset<T>,
                   rows: multiset<T>, left: multiset<T>)
    requires d == c + rows && c' + left' == d + left
    ensures c' + left' == c + (rows + left)
  {
  }

  /** The rows that the merge has dealt with: written or lost. */
  function DealtWith(r: Rules, m: Merging): multiset<string> {
    multiset(RowsOf(r, Texts(m.out))) + multiset(RowsOf(r, m.lost))
  }

  lemma WrittenRows(r: Rules, out: seq<(int, string)>, p: int, md: string)
    ensures RowsOf(r, Texts(out + [(p, md)])) == RowsOf(r, Texts(out)) + Rows(r, md)
  {
    assert Texts(out + [(p, md)]) == Texts(out) + [md];
    RowsOfAppend(r, Texts(out), [md]);
    assert [md][1..] == [] && Rows(r, md) + [] == Rows(r, md);
  }

  lemma MergeTableAccounts(r: Rules, tables: Pages, p: int, last: int, t: string, m: Merging)
    requires Sound(r)
    ensures var m' := MergeTable(r, tables, p, last, t, m);
      DealtWith(r, m') + multiset(Left(r, tables, p + 1, last, m'.used))
      == DealtWith(r, m) + multiset(Rows(r, t)) + multiset(Left(r, tables, p + 1, last, m.used))
  {
    if !r.titled(t) {
      WrittenRows(r, m.out, p, t);
    } else {
      MergeTitledAccounts(r, tables, p, last, t, m);
    }
  }

  lemma MergeTitledAccounts(r: Rules, tables: Pages, p: int, last: int, t: string, m: Merging)
    requires Sound(r) && r.titled(t)
    ensures var m' := MergeTable(r, tables, p, last, t, m);
      DealtWith(r, m') + multiset(Left(r, tables, p + 1, last, m'.used))
      == DealtWith(r, m) + multiset(Rows(r, t)) + multiset(Left(r, tables, p + 1, last, m.used))
  {
    var c := Chain(t, m.used, m.lost);
    var c' := LookAhead(r, t, tables, p + 1, last, c);
    LookAheadRows(r, t, tables, p + 1, last, c);
    WrittenRows(r, m.out, p, c'.combined);
    AddWritten(multiset(RowsOf(r, Texts(m.out))),
               multiset(Rows(r, c'.combined)), multiset(RowsOf(r, c'.lost)),
               multiset(Left(r, tables, p + 1, last, c'.used)),
               multiset(Rows(r, t)), multiset(RowsOf(r, m.lost)), multiset(Left(r, tables, p + 1, last, m.used)));
  }

  lemma AddWritten<T>(w: multiset<T>, x': multiset<T>, lost': multiset<T>, left': multiset<T>,
                      x: multiset<T>, lost: multiset<T>, left: multiset<T>)
    requires x' + lost' + left' == x + lost + left
    ensures w + x' + lost' + left' == w + lost + x + left
  {
    assert w + x' + lost' + left' == w + (x' + lost' + left');
  }

  lemma AddRest<T>(d: multiset<T>, l: multiset<T>, rest: multiset<T>, d0: multiset<T>, x: multiset<T>, l0: multiset<T>)
    requires d + l == d0 + x + l0
    ensures d + rest + l == d0 + (x + rest) + l0
  {
    assert d + rest + l == (d + l) + rest;
  }

  lemma {:induction false} MergePageAccounts(r: Rules, tables: Pages, p: int, last: int, ts: seq<string>, m: Merging)
    requires Sound(r)
    ensures var m' := MergePage(r, tables, p, last, ts, m);
      DealtWith(r, m') + multiset(Left(r, tables, p + 1, last, m'.used))
      == DealtWith(r, m) + multiset(RowsOf(r, ts)) + multiset(Left(r, tables, p + 1, last, m.used))
    decreases |ts|
  {
    if ts != [] {
      assert multiset(RowsOf(r, ts)) == multiset(Rows(r, ts[0])) + multiset(RowsOf(r, ts[1..]));
      MergeTableAccounts(r, tables, p, last, ts[0], m);
      var m1 := MergeTable(r, tables, p, last, ts[0], m);
      MergePageAccounts(r, tables, p, last, ts[1..], m1);
      AddRest(DealtWith(r, m1), multiset(Left(r, tables, p + 1, last, m1.used)), multiset(RowsOf(r, ts[1..])),
              DealtWith(r, m), multiset(Rows(r, ts[0])), multiset(Left(r, tables, p + 1, last, m.used)));
    }
  }

  lemma {:induction false} MergeAccounts(r: Rules, tables: Pages, p: int, last: int, m: Merging)
    requires Sound(r)
    ensures DealtWith(r, MergeFrom(r, tables, p, last, m))
         == DealtWith(r, m) + multiset(Left(r, tables, p, last, m.used))
    decreases last + 1 - p
  {
    if p > last {
    } else if p in m.used {
      MergeAccounts(r, tables, p + 1, last, m);
    } else {
      MergePageAccounts(r, tables, p, last, At(tables, p), m);
      MergeAccounts(r, tables, p + 1, last, MergePage(r, tables, p, last, At(tables, p), m));
    }
  }

  /** The data rows of all pages, in page order. */
  function AllRows(r: Rules, tables: Pages, pages: seq<int>): seq<string> {
    if pages == [] then [] else Left(r, tables, pages[0], pages[|pages| - 1], {})
  }

  /** For every input: each data row is either written once or belongs to a table
      that shares a used-up page with a continuation. So no row disappears
      exactly when no such table has data rows. */
  lemma RowsConserved(r: Rules, tables: Pages, pages: seq<int>)
    requires Sound(r)
    ensures var m := CrossPage(r, tables, pages);
      && multiset(RowsOf(r, Texts(m.out))) + multiset(RowsOf(r, m.lost)) == multiset(AllRows(r, tables, pages))
      && (multiset(RowsOf(r, Texts(m.out))) == multiset(AllRows(r, tables, pages)) <==> RowsOf(r, m.lost) == [])
  {
    var m := CrossPage(r, tables, pages);
    assert Texts([]) == [];
    if pages != [] {
      MergeAccounts(r, tables, pages[0], pages[|pages| - 1], START);
    }
    var w, l := multiset(RowsOf(r, Texts(m.out))), multiset(RowsOf(r, m.lost));
    assert |w + l| == |w| + |l| && |l| == |RowsOf(r, m.lost)|;
  }

  // ---------------------------------------------- when rows are lost, on the input

  /** The data rows of the other tables on a page. */
  function RowsBeside(r: Rules, nts: seq<string>, k: nat): seq<string>
    requires k < |nts|
  {
    RowsOf(r, nts[..k] + nts[k + 1..])
  }

  /** The first page from u on that holds no continuation of t. */
  function Reach(r: Rules, t: string, tables: Pages, u: int, last: int): (v: int)
    requires u <= last + 1
    ensures u <= v <= last + 1
    decreases last + 1 - u
  {
    if u <= last && FirstContinuation(r, t, At(tables, u)) < |At(tables, u)| then Reach(r, t, tables, u + 1, last)
    else u
  }

  /** On the pages up to there no other table has data rows. */
  predicate RunAlone(r: Rules, t: string, tables: Pages, u: int, last: int)
    decreases last + 1 - u
  {
    var nts := At(tables, u);
    var k := FirstContinuation(r, t, nts);
    u > last || k == |nts| || (RowsBeside(r, nts, k) == [] && RunAlone(r, t, tables, u + 1, last))
  }

  /** The first page that is left when all tables of a page, one after the other,
      have taken their continuations from page u on. */
  function PageReach(r: Rules, ts: seq<string>, tables: Pages, u: int, last: int): (v: int)
    requires u <= last + 1
    ensures u <= v <= last + 1
    decreases |ts|
  {
    if ts == [] then u
    else PageReach(r, ts[1..], tables, if r.titled(ts[0]) then Reach(r, ts[0], tables, u, last) else u, last)
  }

  predicate PageAlone(r: Rules, ts: seq<string>, tables: Pages, u: int, last: int)
    requires u <= last + 1
    decreases |ts|
  {
    ts == [] ||
    if r.titled(ts[0]) then
      RunAlone(r, ts[0], tables, u, last) && PageAlone(r, ts[1..], tables, Reach(r, ts[0], tables, u, last), last)
    else PageAlone(r, ts[1..], tables, u, last)
  }

  /** No continuation that is taken, from page p on, has data rows beside it; after
      the tables of a page it goes on at the first page they left. */
  predicate AllAlone(r: Rules, tables: Pages, p: int, last: int)
    decreases last + 1 - p
  {
    p > last ||
    (PageAlone(r, At(tables, p), tables, p + 1, last)
     && AllAlone(r, tables, PageReach(r, At(tables, p), tables, p + 1, last), last))
  }

  /** Pages p to n - 1 are used up, later ones are not. */
  ghost predicate UsedUpTo(used: set<int>, p: int, n: int) {
    && (forall k | p <= k < n :: k in used)
    && (forall u | u in used :: u < n)
  }

  lemma TakenRows(r: Rules, c: Chain, nts: seq<string>, k: nat, p: int)
    requires k < |nts|
    ensures RowsOf(r, Take(r, c, nts, k, p).lost) == [] <==> RowsOf(r, c.lost) == [] && RowsBeside(r, nts, k) == []
  {
    RowsOfAppend(r, c.lost, nts[..k] + nts[k + 1..]);
  }

  lemma {:induction false} LookAheadReaches(r: Rules, t: string, tables: Pages, p: int, n: int, last: int, c: Chain)
    requires p <= n <= last + 1 && UsedUpTo(c.used, p, n)
    ensures var c' := LookAhead(r, t, tables, p, last, c);
      && UsedUpTo(c'.used, p, Reach(r, t, tables, n, last))
      && (RowsOf(r, c'.lost) == [] <==> RowsOf(r, c.lost) == [] && RunAlone(r, t, tables, n, last))
    decreases last + 1 - p
  {
    LookAheadUses(r, t, tables, p, last, c);
    if p < n {
      LookAheadReaches(r, t, tables, p + 1, n, last, c);
    } else if p <= last {
      var nts := At(tables, p);
      var k := FirstContinuation(r, t, nts);
      if k < |nts| {
        TakenRows(r, c, nts, k, p);
        LookAheadUses(r, t, tables, p + 1, last, Take(r, c, nts, k, p));
        LookAheadReaches(r, t, tables, p + 1, p + 1, last, Take(r, c, nts, k, p));
      }
    }
  }

  lemma {:induction false} MergePageReaches(
    r: Rules, tables: Pages, p: int, n: int, last: int, ts: seq<string>, m: Merging)
    requires p + 1 <= n <= last + 1 && UsedUpTo(m.used, p + 1, n)
    ensures var m' := MergePage(r, tables, p, last, ts, m);
      && UsedUpTo(m'.used, p + 1, PageReach(r, ts, tables, n, last))
      && (RowsOf(r, m'.lost) == [] <==> RowsOf(r, m.lost) == [] && PageAlone(r, ts, tables, n, last))
    decreases |ts|
  {
    if ts != [] {
      var m1 := MergeTable(r, tables, p, last, ts[0], m);
      if r.titled(ts[0]) {
        LookAheadReaches(r, ts[0], tables, p + 1, n, last, Chain(ts[0], m.used, m.lost));
        MergePageReaches(r, tables, p, Reach(r, ts[0], tables, n, last), last, ts[1..], m1);
      } else {
        MergePageReaches(r, tables, p, n, last, ts[1..], m1);
      }
    }
  }

  lemma {:induction false} MergeReaches(r: Rules, tables: Pages, p: int, n: int, last: int, m: Merging)
    requires p <= n <= last + 1 && UsedUpTo(m.used, p, n)
    ensures RowsOf(r, MergeFrom(r, tables, p, last, m).lost) == [] <==>
      RowsOf(r, m.lost) == [] && AllAlone(r, tables, n, last)
    decreases last + 1 - p
  {
    if p < n {
      MergeReaches(r, tables, p + 1, n, last, m);
    } else if p <= last {
      var ts := At(tables, p);
      MergePageReaches(r, tables, p, p + 1, last, ts, m);
      MergeReaches(r, tables, p + 1, PageReach(r, ts, tables, p + 1, last), last, MergePage(r, tables, p, last, ts, m));
    }
  }

  /** For every input: every data row is written exactly once if and only if no
      continuation that is taken has data rows beside it. */
  lemma RowsKeptExactly(r: Rules, tables: Pages, pages: seq<int>)
    requires Sound(r) && pages != [] && IsSortedKeys(pages, tables)
    ensures multiset(RowsOf(r, Texts(CrossPage(r, tables, pages).out))) == multiset(AllRows(r, tables, pages)) <==>
      AllAlone(r, tables, pages[0], pages[|pages| - 1])
  {
    assert |pages| > 1 ==> pages[0] < pages[|pages| - 1];
    RowsConserved(r, tables, pages);
    MergeReaches(r, tables, pages[0], pages[0], pages[|pages| - 1], START);
  }

  /** Table j of page q continues a table of an earlier page. */
  ghost predicate IsContinuation(r: Rules, tables: Pages, q: int, j: nat) {
    j < |At(tables, q)| && exists p, i: nat :: ContinuedBy(r, tables, p, i, q, j)
  }

  ghost predicate ContinuedBy(r: Rules, tables: Pages, p: int, i: nat, q: int, j: nat)
    requires j < |At(tables, q)|
  {
    p < q && i < |At(tables, p)| && r.titled(At(tables, p)[i]) && r.continues(At(tables, p)[i], At(tables, q)[j])
  }

  /** No page that holds a continuation has another table with data rows. */
  ghost predicate NoRowsBeside(r: Rules, tables: Pages) {
    forall q, j: nat | IsContinuation(r, tables, q, j) :: RowsBeside(r, At(tables, q), j) == []
  }

  lemma {:induction false} RunIsAlone(r: Rules, tables: Pages, p: int, i: nat, u: int, last: int)
    requires NoRowsBeside(r, tables) && p < u && i < |At(tables, p)| && r.titled(At(tables, p)[i])
    ensures RunAlone(r, At(tables, p)[i], tables, u, last)
    decreases last + 1 - u
  {
    var nts := At(tables, u);
    var k := FirstContinuation(r, At(tables, p)[i], nts);
    if u <= last && k < |nts| {
      assert ContinuedBy(r, tables, p, i, u, k);
      assert IsContinuation(r, tables, u, k);
      RunIsAlone(r, tables, p, i, u + 1, last);
    }
  }

  lemma {:induction false} PageIsAlone(r: Rules, tables: Pages, p: int, i: nat, u: int, last: int)
    requires NoRowsBeside(r, tables) && p < u <= last + 1 && i <= |At(tables, p)|
    ensures PageAlone(r, At(tables, p)[i..], tables, u, last)
    decreases |At(tables, p)| - i
  {
    var ts := At(tables, p);
    if i < |ts| {
      assert ts[i..][0] == ts[i] && ts[i..][1..] == ts[i + 1..];
      if r.titled(ts[i]) {
        RunIsAlone(r, tables, p, i, u, last);
        PageIsAlone(r, tables, p, i + 1, Reach(r, ts[i], tables, u, last), last);
      } else {
        PageIsAlone(r, tables, p, i + 1, u, last);
      }
    }
  }

  lemma {:induction false} EverythingAlone(r: Rules, tables: Pages, p: int, last: int)
    requires NoRowsBeside(r, tables)
    ensures AllAlone(r, tables, p, last)
    decreases last + 1 - p
  {
    if p <= last {
      assert At(tables, p)[0..] == At(tables, p);
      PageIsAlone(r, tables, p, 0, p + 1, last);
      EverythingAlone(r, tables, PageReach(r, At(tables, p), tables, p + 1, last), last);
    }
  }

  /** A condition without order: if no page that holds a continuation has another
      table with data rows, every data row is written exactly once. */
  lemma NothingLost(r: Rules, tables: Pages, pages: seq<int>)
    requires Sound(r) && IsSortedKeys(pages, tables) && NoRowsBeside(r, tables)
    ensures multiset(RowsOf(r, Texts(CrossPage(r, tables, pages).out))) == multiset(AllRows(r, tables, pages))
  {
    if pages == [] {
      assert Texts([]) == [];
    } else {
      EverythingAlone(r, tables, pages[0], pages[|pages| - 1]);
      RowsKeptExactly(r, tables, pages);
    }
  }

  /** Nothing on page p continues a table of an earlier page. */
  ghost predicate IsFresh(r: Rules, tables: Pages, p: int) {
    forall j: nat :: !IsContinuation(r, tables, p, j)
  }

  lemma {:induction false} ReachStops(r: Rules, tables: Pages, q: int, i: nat, u: int, p: int, last: int)
    requires IsFresh(r, tables, p) && q < u <= p <= last && i < |At(tables, q)| && r.titled(At(tables, q)[i])
    ensures Reach(r, At(tables, q)[i], tables, u, last) <= p
    decreases p - u
  {
    var k := FirstContinuation(r, At(tables, q)[i], At(tables, u));
    if k < |At(tables, u)| {
      assert ContinuedBy(r, tables, q, i, u, k);
      assert IsContinuation(r, tables, u, k);
      ReachStops(r, tables, q, i, u + 1, p, last);
    }
  }

  lemma {:induction false} PageReachStops(r: Rules, tables: Pages, q: int, i: nat, u: int, p: int, last: int)
    requires IsFresh(r, tables, p) && q < u <= p <= last && i <= |At(tables, q)|
    ensures PageReach(r, At(tables, q)[i..], tables, u, last) <= p
    decreases |At(tables, q)| - i
  {
    var ts := At(tables, q);
    if i < |ts| {
      assert ts[i..][0] == ts[i] && ts[i..][1..] == ts[i + 1..];
      if r.titled(ts[i]) {
        ReachStops(r, tables, q, i, u, p, last);
        PageReachStops(r, tables, q, i + 1, Reach(r, ts[i], tables, u, last), p, last);
      } else {
        PageReachStops(r, tables, q, i + 1, u, p, last);
      }
    }
  }

  /** The merge starts again at every fresh page. */
  lemma {:induction false} FreshPageReached(r: Rules, tables: Pages, q: int, p: int, last: int)
    requires IsFresh(r, tables, p) && q <= p <= last && AllAlone(r, tables, q, last)
    ensures AllAlone(r, tables, p, last)
    decreases p - q
  {
    if q < p {
      assert At(tables, q)[0..] == At(tables, q);
      PageReachStops(r, tables, q, 0, q + 1, p, last);
      FreshPageReached(r, tables, PageReach(r, At(tables, q), tables, q + 1, last), p, last);
    }
  }

  /** If nothing continues on a page and it does not keep the rows beside the
      continuations that its tables take, rows are missing from what is written. */
  lemma FreshPageLoses(r: Rules, tables: Pages, pages: seq<int>, p: int)
    requires Sound(r) && IsSortedKeys(pages, tables) && p in pages && IsFresh(r, tables, p)
    requires var last := pages[|pages| - 1]; p <= last ==> !PageAlone(r, At(tables, p), tables, p + 1, last)
    ensures multiset(RowsOf(r, Texts(CrossPage(r, tables, pages).out))) != multiset(AllRows(r, tables, pages))
  {
    PagesWithin(pages, tables, p);
    RowsKeptExactly(r, tables, pages);
    if AllAlone(r, tables, pages[0], pages[|pages| - 1]) {
      FreshPageReached(r, tables, pages[0], p, pages[|pages| - 1]);
    }
  }

  lemma PagesWithin(pages: seq<int>, tables: Pages, p: int)
    requires IsSortedKeys(pages, tables) && p in pages
    ensures pages[0] <= p <= pages[|pages| - 1]
  {
    var i :| 0 <= i < |pages| && pages[i] == p;
    assert i > 0 ==> pages[0] < pages[i];
    assert i < |pages| - 1 ==> pages[i] < pages[|pages| - 1];
  }

  /** A table beside a continuation vanishes, whatever it holds. */
  lemma SiblingVanishes(r: Rules, a: string, b: string, sibling: string)
    requires r.titled(a) && r.continues(a, b)
    ensures CrossPage(r, map[0 := [a], 1 := [b, sibling]], [0, 1]) ==
      Merging({1}, [(0, r.append(a, b))], [sibling])
  {
    var tables: Pages := map[0 := [a], 1 := [b, sibling]];
    var nts := [b, sibling];
    assert nts[..0] + nts[1..] == [sibling] && [] + [sibling] == [sibling];
    var c := Chain(a, {}, []);
    assert {} + {1} == {1};
    assert LookAhead(r, a, tables, 1, 1, c) == Chain(r.append(a, b), {1}, [sibling]) by {
      assert FirstContinuation(r, a, nts) == 0;
      var d := Chain(r.append(a, b), {1}, [sibling]);
      assert LookAhead(r, a, tables, 2, 1, d) == d;
    }
    var m := Merging({1}, [(0, r.append(a, b))], [sibling]);
    assert MergePage(r, tables, 0, 1, [a], START) == m by {
      assert [a][1..] == [] && [] + [(0, r.append(a, b))] == [(0, r.append(a, b))];
      assert MergeTable(r, tables, 0, 1, a, START) == m;
    }
    assert MergeFrom(r, tables, 1, 1, m) == MergeFrom(r, tables, 2, 1, m) == m;
  }

  /** A table with a named header continues itself, so tables do vanish. */
  lemma ContinuesItself(lower: string -> string, md: string)
    requires IsTitled(md) && Names(lower, ExtractTableHeader(md).value) != {}
    ensures MarkdownTables(lower).continues(md, md)
  {
    SimilarityLaws(lower, ExtractTableHeader(md).value, ExtractTableHeader(md).value);
  }

  /** The rows written for two pages that hold a table, and two copies of it. */
  lemma CopyLost(r: Rules, md: string)
    requires Sound(r) && r.titled(md) && r.continues(md, md) && Rows(r, md) != []
    ensures var tables: Pages := map[0 := [md], 1 := [md, md]];
      var out := CrossPage(r, tables, [0, 1]).out;
      && out == [(0, r.append(md, md))]
      && RowsOf(r, Texts(out)) == Rows(r, md) + Rows(r, md)
      && multiset(RowsOf(r, Texts(out))) != multiset(AllRows(r, tables, [0, 1]))
  {
    var tables: Pages := map[0 := [md], 1 := [md, md]];
    SiblingVanishes(r, md, md, md);
    RowsConserved(r, tables, [0, 1]);
    RowsOfAppended(r, md, md);
    assert Texts([(0, r.append(md, md))]) == [r.append(md, md)];
    RowsOfOne(r, r.append(md, md));
    RowsOfOne(r, md);
  }

  lemma RowsOfOne(r: Rules, md: string)
    ensures RowsOf(r, [md]) == Rows(r, md)
  {
    assert [md][1..] == [] && Rows(r, md) + [] == Rows(r, md);
  }

  /** Whatever is printed with a named header continues itself, so of a copy beside
      it nothing is written. */
  lemma PrintedCopyLost(lower: string -> string, rows: seq<seq<Option<string>>>)
    requires |rows| >= 2 && PlainRows(rows) && Width(rows) >= 1 && Names(lower, Grid(rows)[0]) != {}
    ensures var r, md := MarkdownTables(lower), RowsToMarkdown(rows);
      var tables: Pages := map[0 := [md], 1 := [md, md]];
      var out := CrossPage(r, tables, [0, 1]).out;
      && |RowsOf(r, Texts(out))| == 2 * (|rows| - 1)
      && multiset(RowsOf(r, Texts(out))) != multiset(AllRows(r, tables, [0, 1]))
  {
    var md := RowsToMarkdown(rows);
    HeaderRoundTrip(rows);
    TableRoundTrip(rows);
    ContinuesItself(lower, md);
    MarkdownSound(lower);
    CopyLost(MarkdownTables(lower), md);
  }

  /** Three tables of one row are printed, and two rows written. */
  lemma LostTable(lower: string -> string)
    ensures var r, md := MarkdownTables(lower), RowsToMarkdown([[Some("a")], [Some("1")]]);
      var tables: Pages := map[0 := [md], 1 := [md, md]];
      var out := CrossPage(r, tables, [0, 1]).out;
      && |RowsOf(r, Texts(out))| == 2
      && multiset(RowsOf(r, Texts(out))) != multiset(AllRows(r, tables, [0, 1]))
  {
    var rows := [[Some("a")], [Some("1")]];
    assert Trim("a", IsSpace) == "a" && Trim("1", IsSpace) == "1";
    assert Width([[Some("1")]]) == 1 && rows[1..] == [[Some("1")]];
    assert CellTexts(rows[0]) == ["a"] && Grid(rows)[0] == ["a"];
    var header := ["a"];
    assert Trim(header[0], IsSpace) != "" && Trim(lower(header[0]), IsSpace) in Names(lower, header);
    assert PlainRows(rows) by {
      assert IsPlain("a") && IsPlain("1");
    }
    PrintedCopyLost(lower, rows);
  }

  // ------------------------------------------------------ one table to a page

  ghost predicate OnePerPage(tables: Pages) { forall p | p in tables :: |tables[p]| <= 1 }

  /** The end of the run of pages from p on whose table continues t. */
  function RunEnd(r: Rules, t: string, tables: Pages, p: int, last: int): (q: int)
    requires p <= last + 1
    ensures p <= q <= last + 1
    ensures forall k | p <= k < q :: At(tables, k) != [] && r.continues(t, At(tables, k)[0])
    ensures q <= last ==> At(tables, q) == [] || !r.continues(t, At(tables, q)[0])
    decreases last + 1 - p
  {
    if p <= last && At(tables, p) != [] && r.continues(t, At(tables, p)[0]) then RunEnd(r, t, tables, p + 1, last)
    else p
  }

  /** t with the first tables of the pages p to q - 1 appended. */
  function AppendRun(r: Rules, t: string, tables: Pages, p: int, q: int): string
    requires p <= q && forall k | p <= k < q :: At(tables, k) != []
    decreases q - p
  {
    if p == q then t else AppendRun(r, r.append(t, At(tables, p)[0]), tables, p + 1, q)
  }

  /** The merge as runs of consecutive pages. */
  function Runs(r: Rules, tables: Pages, p: int, last: int): seq<(int, string)>
    decreases last + 1 - p
  {
    if p > last then []
    else if At(tables, p) == [] then Runs(r, tables, p + 1, last)
    else
      var t := At(tables, p)[0];
      if !r.titled(t) then [(p, t)] + Runs(r, tables, p + 1, last)
      else
        var q := RunEnd(r, t, tables, p + 1, last);
        [(p, AppendRun(r, t, tables, p + 1, q))] + Runs(r, tables, q, last)
  }

  /** The pages from p to q - 1. */
  function Span(p: int, q: int): (s: set<int>)
    ensures forall k :: k in s <==> p <= k < q
    decreases q - p
  {
    if p >= q then {} else {p} + Span(p + 1, q)
  }

  lemma {:induction false} LookAheadRun(r: Rules, t: string, tables: Pages, p: int, last: int, c: Chain)
    requires OnePerPage(tables) && p <= last + 1 && forall u | u in c.used :: u < p
    ensures var q := RunEnd(r, t, tables, p, last);
      LookAhead(r, t, tables, p, last, c) == Chain(AppendRun(r, c.combined, tables, p, q), c.used + Span(p, q), c.lost)
    decreases last + 1 - p
  {
    var q := RunEnd(r, t, tables, p, last);
    if q == p {
      assert c.used + Span(p, q) == c.used;
    } else {
      var nts := At(tables, p);
      assert |nts| == 1 && FirstContinuation(r, t, nts) == 0;
      assert nts[..0] + nts[1..] == [] && c.lost + [] == c.lost;
      var d := Chain(r.append(c.combined, nts[0]), c.used + {p}, c.lost);
      LookAheadRun(r, t, tables, p + 1, last, d);
      assert d.used + Span(p + 1, q) == c.used + Span(p, q);
    }
  }

  lemma {:induction false} MergeIsRunsFrom(r: Rules, tables: Pages, p: int, n: int, last: int, m: Merging)
    requires OnePerPage(tables) && p <= n <= last + 1 && UsedUpTo(m.used, p, n)
    ensures var m' := MergeFrom(r, tables, p, last, m); m'.out == m.out + Runs(r, tables, n, last) && m'.lost == m.lost
    decreases last + 1 - p
  {
    if p > last {
      assert m.out + [] == m.out;
    } else if p < n {
      MergeIsRunsFrom(r, tables, p + 1, n, last, m);
    } else {
      MergeIsRunsStep(r, tables, p, last, m);
    }
  }

  /** What one table on its page adds: its run, and the pages of the run. */
  lemma MergeOneTable(r: Rules, tables: Pages, p: int, last: int, m: Merging)
    requires OnePerPage(tables) && p <= last && UsedUpTo(m.used, p, p) && At(tables, p) != []
    ensures var t := At(tables, p)[0];
      var q := if r.titled(t) then RunEnd(r, t, tables, p + 1, last) else p + 1;
      var m' := MergePage(r, tables, p, last, At(tables, p), m);
      && m'.out == m.out + [(p, if r.titled(t) then AppendRun(r, t, tables, p + 1, q) else t)]
      && m'.lost == m.lost
      && UsedUpTo(m'.used, p + 1, q)
  {
    var ts := At(tables, p);
    var t := ts[0];
    assert ts[1..] == [];
    assert MergePage(r, tables, p, last, ts, m) == MergeTable(r, tables, p, last, t, m);
    if r.titled(t) {
      LookAheadRun(r, t, tables, p + 1, last, Chain(t, m.used, m.lost));
    }
  }

  lemma {:induction false} MergeIsRunsStep(r: Rules, tables: Pages, p: int, last: int, m: Merging)
    requires OnePerPage(tables) && p <= last && UsedUpTo(m.used, p, p)
    ensures var m' := MergeFrom(r, tables, p, last, m); m'.out == m.out + Runs(r, tables, p, last) && m'.lost == m.lost
    decreases last + 1 - p, 0
  {
    var ts := At(tables, p);
    assert p !in m.used;
    if ts == [] {
      MergeIsRunsFrom(r, tables, p + 1, p + 1, last, m);
    } else {
      var t := ts[0];
      var q := if r.titled(t) then RunEnd(r, t, tables, p + 1, last) else p + 1;
      var first := (p, if r.titled(t) then AppendRun(r, t, tables, p + 1, q) else t);
      MergeOneTable(r, tables, p, last, m);
      MergeIsRunsFrom(r, tables, p + 1, q, last, MergePage(r, tables, p, last, ts, m));
      assert Runs(r, tables, p, last) == [first] + Runs(r, tables, q, last);
      assert (m.out + [first]) + Runs(r, tables, q, last) == m.out + ([first] + Runs(r, tables, q, last));
    }
  }

  /** With at most one table to a page, the merge is the list of runs: each result
      is a table followed by its maximal run of continuations on the next pages. */
  lemma MergeIsRuns(r: Rules, tables: Pages, pages: seq<int>)
    requires OnePerPage(tables) && IsSortedKeys(pages, tables)
    ensures pages == [] ==> CrossPage(r, tables, pages).out == []
    ensures pages != [] ==> CrossPage(r, tables, pages).out == Runs(r, tables, pages[0], pages[|pages| - 1])
    ensures CrossPage(r, tables, pages).lost == []
  {
    if pages != [] {
      var last := pages[|pages| - 1];
      MergeIsRunsFrom(r, tables, pages[0], pages[0], last, START);
      assert [] + Runs(r, tables, pages[0], last) == Runs(r, tables, pages[0], last);
    }
  }

  /** A run is its first table followed by the data rows of the other tables. */
  lemma {:induction false} RunRows(r: Rules, t: string, tables: Pages, p: int, q: int)
    requires Sound(r) && r.titled(t) && OnePerPage(tables)
    requires p <= q && forall k | p <= k < q :: At(tables, k) != []
    ensures r.titled(AppendRun(r, t, tables, p, q))
    ensures r.lines(AppendRun(r, t, tables, p, q)) == r.lines(t) + Left(r, tables, p, q - 1, {})
    decreases q - p
  {
    if p == q {
      assert r.lines(t) + [] == r.lines(t);
    } else {
      var nt := At(tables, p)[0];
      assert Appends(r, t, nt);
      RunRows(r, r.append(t, nt), tables, p + 1, q);
      assert RowsOf(r, At(tables, p)) == Rows(r, nt) by {
        assert At(tables, p)[1..] == [] && Rows(r, nt) + [] == Rows(r, nt);
      }
    }
  }

  /** The start pages increase strictly. */
  ghost predicate StartsIncrease(out: seq<(int, string)>, p: int) {
    && (forall i | 0 <= i < |out| :: out[i].0 >= p)
    && (forall i, j | 0 <= i < j < |out| :: out[i].0 < out[j].0)
  }

  lemma {:induction false} RunsIncrease(r: Rules, tables: Pages, p: int, last: int)
    ensures StartsIncrease(Runs(r, tables, p, last), p)
    decreases last + 1 - p
  {
    if p > last {
    } else if At(tables, p) == [] {
      RunsIncrease(r, tables, p + 1, last);
    } else {
      var t := At(tables, p)[0];
      var q := if r.titled(t) then RunEnd(r, t, tables, p + 1, last) else p + 1;
      RunsIncrease(r, tables, q, last);
    }
  }

  lemma {:induction false} LeftSplit(r: Rules, tables: Pages, p: int, q: int, last: int)
    requires p <= q <= last + 1
    ensures Left(r, tables, p, last, {}) == Left(r, tables, p, q - 1, {}) + Left(r, tables, q, last, {})
    decreases q - p
  {
    if p < q {
      LeftSplit(r, tables, p + 1, q, last);
    }
  }

  lemma RowsOfFirst(r: Rules, p: int, md: string, rest: seq<(int, string)>)
    ensures RowsOf(r, Texts([(p, md)] + rest)) == Rows(r, md) + RowsOf(r, Texts(rest))
  {
    assert Texts([(p, md)] + rest) == [md] + Texts(rest);
    assert ([md] + Texts(rest))[1..] == Texts(rest);
  }

  lemma {:induction false} RunsKeepRows(r: Rules, tables: Pages, p: int, last: int)
    requires Sound(r) && OnePerPage(tables)
    ensures RowsOf(r, Texts(Runs(r, tables, p, last))) == Left(r, tables, p, last, {})
    decreases last + 1 - p
  {
    if p > last {
      assert Texts([]) == [];
    } else if At(tables, p) == [] {
      RunsKeepRows(r, tables, p + 1, last);
    } else {
      var t := At(tables, p)[0];
      var q := if r.titled(t) then RunEnd(r, t, tables, p + 1, last) else p + 1;
      var md := if r.titled(t) then AppendRun(r, t, tables, p + 1, q) else t;
      RunsKeepRows(r, tables, q, last);
      RowsOfFirst(r, p, md, Runs(r, tables, q, last));
      FirstRunRows(r, tables, p, q, md);
      LeftSplit(r, tables, p, q, last);
    }
  }

  lemma FirstRunRows(r: Rules, tables: Pages, p: int, q: int, md: string)
    requires Sound(r) && OnePerPage(tables) && p < q && forall k | p <= k < q :: At(tables, k) != []
    requires md ==
      if r.titled(At(tables, p)[0]) then AppendRun(r, At(tables, p)[0], tables, p + 1, q) else At(tables, p)[0]
    requires !r.titled(At(tables, p)[0]) ==> q == p + 1
    ensures Rows(r, md) == Left(r, tables, p, q - 1, {})
  {
    var t := At(tables, p)[0];
    assert At(tables, p)[1..] == [] && Rows(r, t) + [] == Rows(r, t);
    assert RowsOf(r, At(tables, p)) == Rows(r, t);
    if r.titled(t) {
      RunRows(r, t, tables, p + 1, q);
      var rest := Left(r, tables, p + 1, q - 1, {});
      assert |r.lines(t)| >= 2 && (r.lines(t) + rest)[2..] == r.lines(t)[2..] + rest;
    }
  }

  /** With at most one table to a page, merging loses, duplicates and reorders no
      data row, and the start pages increase strictly. */
  lemma OnePerPageKeepsRows(lower: string -> string, tables: Pages, pages: seq<int>)
    requires OnePerPage(tables) && IsSortedKeys(pages, tables)
    ensures var r := MarkdownTables(lower);
      var out := CrossPage(r, tables, pages).out;
      && RowsOf(r, Texts(out)) == AllRows(r, tables, pages)
      && (pages != [] ==> StartsIncrease(out, pages[0]))
  {
    var r := MarkdownTables(lower);
    MarkdownSound(lower);
    MergeIsRuns(r, tables, pages);
    if pages != [] {
      RunsIncrease(r, tables, pages[0], pages[|pages| - 1]);
      RunsKeepRows(r, tables, pages[0], pages[|pages| - 1]);
    } else {
      assert Texts([]) == [];
    }
  }
}
