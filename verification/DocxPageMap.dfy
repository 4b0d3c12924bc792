/** On which page each paragraph of a DOCX document is, and which page numbers the
    rebuilt lines carry. */
module DocxPageMap {
  import opened DocxPages
  import opened DocxResults

  /** How many of the first n paragraphs end a page. */
  function Breaks(paras: seq<Paragraph>, n: nat): nat
    requires n <= |paras|
  {
    if n == 0 then 0 else Breaks(paras, n - 1) + if paras[n - 1].breaksPage then 1 else 0
  }

  lemma {:induction false} BreaksGrow(paras: seq<Paragraph>, i: nat, k: nat)
    requires i <= k <= |paras|
    ensures Breaks(paras, i) <= Breaks(paras, k)
    decreases k
  {
    if i < k {
      BreaksGrow(paras, i, k - 1);
    }
  }

  ghost predicate IsOn(m: PageMap, p: int, k: nat) { p in m && k in m[p] }

  lemma AppendIsOn(m: PageMap, page: nat, i: nat, p: int, k: nat)
    ensures IsOn(Append(m, page, i), p, k) <==> IsOn(m, p, k) || (p == page && k == i)
  {
  }

  lemma {:induction false} HeuristicIsOn(m: PageMap, i: nat, total: nat, maxPage: int, p: int, k: nat)
    ensures IsOn(HeuristicFrom(m, i, total, maxPage), p, k) <==>
      IsOn(m, p, k) || (i <= k < total && p == k / 25 && p <= maxPage)
    decreases total - i
  {
    if i < total && i / 25 <= maxPage {
      AppendIsOn(m, i / 25, i, p, k);
      HeuristicIsOn(Append(m, i / 25, i), i + 1, total, maxPage, p, k);
    } else {
      assert i <= k ==> i / 25 <= k / 25;
    }
  }

  /** Where paragraph k goes, if paragraph i is the next one and goes to the page
      current. */
  predicate GoesTo(paras: seq<Paragraph>, current: nat, i: nat, maxPage: int, p: int, k: nat)
    requires i <= |paras|
  {
    i <= k < |paras| && p == current + Breaks(paras, k) - Breaks(paras, i) && (p == current || p <= maxPage)
  }

  lemma NextGoesTo(paras: seq<Paragraph>, current: nat, i: nat, maxPage: int, p: int, k: nat)
    requires i < |paras|
    ensures GoesTo(paras, current, i, maxPage, p, k) <==>
      || (k == i && p == current)
      || (!paras[i].breaksPage && GoesTo(paras, current, i + 1, maxPage, p, k))
      || (paras[i].breaksPage && current + 1 <= maxPage && GoesTo(paras, current + 1, i + 1, maxPage, p, k))
  {
    if i < k < |paras| {
      BreaksGrow(paras, i + 1, k);
    }
  }

  lemma {:induction false} StandardIsOn(
    m: PageMap, current: nat, i: nat, paras: seq<Paragraph>, maxPage: int, p: int, k: nat)
    requires current in m && i <= |paras|
    ensures IsOn(StandardFrom(m, current, i, paras, maxPage), p, k) <==>
      IsOn(m, p, k) || GoesTo(paras, current, i, maxPage, p, k)
    decreases |paras| - i
  {
    if i < |paras| {
      var m1 := m[current := m[current] + [i]];
      assert IsOn(m1, p, k) <==> IsOn(m, p, k) || (p == current && k == i);
      NextGoesTo(paras, current, i, maxPage, p, k);
      if !paras[i].breaksPage {
        StandardIsOn(m1, current, i + 1, paras, maxPage, p, k);
      } else if current + 1 <= maxPage {
        var m2 := if current + 1 in m1 then m1 else m1[current + 1 := []];
        assert IsOn(m2, p, k) <==> IsOn(m1, p, k);
        StandardIsOn(m2, current + 1, i + 1, paras, maxPage, p, k);
      }
    }
  }

  lemma NonEmptyIsOn(m: PageMap, p: int, k: nat)
    ensures IsOn(WithoutEmpty(m), p, k) <==> IsOn(m, p, k)
  {
  }

  /** Up to a thousand paragraphs, a paragraph is on the page whose number is how many
      paragraphs before it end a page; in a longer document there are 25 paragraphs to
      a page. Pages beyond the limit are left out, except the first one. */
  lemma PageOf(paras: seq<Paragraph>, maxPage: int, p: int, k: nat)
    requires k < |paras|
    ensures IsOn(PageMapping(paras, maxPage), p, k) <==>
      if |paras| > 1000 then p == k / 25 && p <= maxPage
      else p == Breaks(paras, k) && (p == 0 || p <= maxPage)
  {
    var start: PageMap := map[0 := []];
    if |paras| > 1000 {
      HeuristicIsOn(start, 0, |paras|, maxPage, p, k);
    } else {
      var m := StandardFrom(start, 0, 0, paras, maxPage);
      StandardIsOn(start, 0, 0, paras, maxPage, p, k);
      StandardIsOn(start, 0, 0, paras, maxPage, 0, 0);
      NonEmptyIsOn(m, p, k);
      NonEmptyIsOn(m, 0, 0);
      assert IsOn(WithoutEmpty(m), 0, 0);
    }
  }

  // ------------------------------------------------- page numbers of rebuilt lines

  /** Line i is the last one with images. */
  predicate IsLastWithImages(lines: seq<LineData>, i: nat) {
    i < |lines| && lines[i].images != [] && forall j | i < j < |lines| :: lines[j].images == []
  }

  lemma {:induction false} LastImagePageIs(lines: seq<LineData>, i: nat)
    requires IsLastWithImages(lines, i)
    ensures LastImagePage(lines) == lines[i].pageNum
  {
    var last := |lines| - 1;
    if i < last {
      LastImagePageIs(lines[..last], i);
    }
  }

  /** Line i is the last one with content among the first k. */
  predicate IsLastWithContent(lines: seq<LineData>, i: nat, k: nat) {
    i < k <= |lines| && lines[i].content != [] && forall j | i < j < k :: lines[j].content == []
  }

  /** A rebuilt line gets the number of the last line with content up to it; if
      there is none, the number left over from the upload. */
  lemma {:induction false} RebuiltPage(lines: seq<LineData>, stale: int, urls: map<string, string>, k: nat, i: nat)
    requires k < |lines|
    ensures IsLastWithContent(lines, i, k + 1) ==> Rebuild(lines, stale, urls)[k].pageNum == lines[i].pageNum
    ensures (forall j | 0 <= j <= k :: lines[j].content == []) ==> Rebuild(lines, stale, urls)[k].pageNum == stale
    decreases k
  {
    if k > 0 {
      var page := if lines[0].content != [] then lines[0].pageNum else stale;
      RebuiltTail(lines, stale, urls, k);
      RebuiltPage(lines[1..], page, urls, k - 1, if i > 0 then i - 1 else 0);
    }
  }

  lemma RebuiltTail(lines: seq<LineData>, stale: int, urls: map<string, string>, k: nat)
    requires 0 < k < |lines|
    ensures Rebuild(lines, stale, urls)[k]
      == Rebuild(lines[1..], if lines[0].content != [] then lines[0].pageNum else stale, urls)[k - 1]
  {
  }
}
