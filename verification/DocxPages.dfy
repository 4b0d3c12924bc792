/** DOCX documents: the map from pages to paragraphs, the content of one page as
    a worker process extracts it, and the page limit. */
module DocxPages {
  import opened Text
  import opened Wrappers

  /** A paragraph: its text, whether it ends a page (a rendered or explicit page
      break in a run, or a section break), and its usable image, if any. */
  datatype Paragraph = Paragraph(text: string, breaksPage: bool, image: Option<string>)

  type PageMap = map<int, seq<nat>>

  // ------------------------------------------------------- paragraphs to pages

  const HEURISTIC_LIMIT := 1000
  const PARAGRAPHS_PER_PAGE := 25

  function Append(m: PageMap, page: int, index: nat): PageMap {
    m[page := (if page in m then m[page] else []) + [index]]
  }

  function HeuristicFrom(m: PageMap, i: nat, total: nat, maxPage: int): PageMap
    decreases total - i
  {
    if i >= total || i / PARAGRAPHS_PER_PAGE > maxPage then m
    else HeuristicFrom(Append(m, i / PARAGRAPHS_PER_PAGE, i), i + 1, total, maxPage)
  }

  function StandardFrom(m: PageMap, current: nat, i: nat, paras: seq<Paragraph>, maxPage: int): PageMap
    requires current in m
    decreases |paras| - i
  {
    if i >= |paras| then m
    else
      var m1 := m[current := m[current] + [i]];
      if !paras[i].breaksPage then StandardFrom(m1, current, i + 1, paras, maxPage)
      else if current + 1 > maxPage then m1
      else StandardFrom(if current + 1 in m1 then m1 else m1[current + 1 := []], current + 1, i + 1, paras, maxPage)
  }

  function WithoutEmpty(m: PageMap): PageMap { map p | p in m && m[p] != [] :: m[p] }

  function UpTo(n: nat): (r: seq<nat>)
    ensures |r| == n && forall i | 0 <= i < n :: r[i] == i
  {
    seq(n, i => i)
  }

  /** The paragraph indices of each page. */
  function PageMapping(paras: seq<Paragraph>, maxPage: int): PageMap {
    if |paras| > HEURISTIC_LIMIT then HeuristicFrom(map[0 := []], 0, |paras|, maxPage)
    else
      var m := WithoutEmpty(StandardFrom(map[0 := []], 0, 0, paras, maxPage));
      if m == map[] then map[0 := UpTo(|paras|)] else m
  }

  /** The entries of pages 0 to n - 1, one after the other. */
  function Listed(m: PageMap, n: nat): seq<nat> {
    if n == 0 then [] else Listed(m, n - 1) + if n - 1 in m then m[n - 1] else []
  }

  ghost predicate PagesBelow(m: PageMap, n: int) {
    forall p | p in m :: 0 <= p < n
  }

  lemma {:induction false} ListedSame(a: PageMap, b: PageMap, n: nat)
    requires forall p | 0 <= p < n :: (if p in a then a[p] else []) == (if p in b then b[p] else [])
    ensures Listed(a, n) == Listed(b, n)
  {
    if n > 0 {
      ListedSame(a, b, n - 1);
    }
  }

  lemma {:induction false} ListedBeyond(m: PageMap, n: nat, k: nat)
    requires PagesBelow(m, n) && n <= k
    ensures Listed(m, k) == Listed(m, n)
    decreases k
  {
    if n < k {
      ListedBeyond(m, n, k - 1);
      assert k - 1 !in m;
    }
  }

  /** The number of paragraphs that reach the map: up to the first one of a page
      beyond the limit. */
  function Mapped(paras: seq<Paragraph>, maxPage: int): nat {
    if |paras| > HEURISTIC_LIMIT then
      var limit := PARAGRAPHS_PER_PAGE * (maxPage + 1);
      if limit < 0 then 0 else if limit < |paras| then limit else |paras|
    else MappedFrom(paras, 0, 0, maxPage)
  }

  function MappedFrom(paras: seq<Paragraph>, current: nat, i: nat, maxPage: int): (k: nat)
    requires i <= |paras|
    ensures i <= k <= |paras|
    decreases |paras| - i
  {
    if i == |paras| then i
    else if !paras[i].breaksPage then MappedFrom(paras, current, i + 1, maxPage)
    else if current + 1 > maxPage then i + 1
    else MappedFrom(paras, current + 1, i + 1, maxPage)
  }

  lemma AppendToPage(m: PageMap, page: nat, i: nat)
    requires PagesBelow(m, page + 1) && Listed(m, page + 1) == UpTo(i)
    ensures PagesBelow(Append(m, page, i), page + 1) && Listed(Append(m, page, i), page + 1) == UpTo(i + 1)
  {
    var next := Append(m, page, i);
    ListedSame(m, next, page);
    var before := if page in m then m[page] else [];
    assert Listed(next, page + 1) == Listed(m, page) + (before + [i]);
    assert Listed(m, page) + (before + [i]) == Listed(m, page + 1) + [i];
    assert UpTo(i) + [i] == UpTo(i + 1);
  }

  lemma {:induction false} HeuristicLists(m: PageMap, i: nat, total: nat, maxPage: int, n: nat)
    requires PagesBelow(m, i / PARAGRAPHS_PER_PAGE + 1) && Listed(m, i / PARAGRAPHS_PER_PAGE + 1) == UpTo(i)
    requires i <= total && (i <= PARAGRAPHS_PER_PAGE * (maxPage + 1) || i == 0)
    requires n >= total / PARAGRAPHS_PER_PAGE + 1
    ensures Listed(HeuristicFrom(m, i, total, maxPage), n)
      == UpTo(var limit := PARAGRAPHS_PER_PAGE * (maxPage + 1);
              if limit < 0 then 0 else if limit < total then limit else total)
    ensures PagesBelow(HeuristicFrom(m, i, total, maxPage), n)
    decreases total - i
  {
    var page := i / PARAGRAPHS_PER_PAGE;
    if i >= total || page > maxPage {
      ListedBeyond(m, page + 1, n);
    } else {
      var next := Append(m, page, i);
      AppendToPage(m, page, i);
      var page' := (i + 1) / PARAGRAPHS_PER_PAGE;
      ListedBeyond(next, page + 1, page' + 1);
      HeuristicLists(next, i + 1, total, maxPage, n);
    }
  }

  /** Adding the next paragraph to the last page extends the prefix. */
  lemma AppendLists(m: PageMap, current: nat, i: nat)
    requires current in m && PagesBelow(m, current + 1) && Listed(m, current + 1) == UpTo(i)
    ensures var m1 := m[current := m[current] + [i]];
      PagesBelow(m1, current + 1) && Listed(m1, current + 1) == UpTo(i + 1)
  {
    AppendToPage(m, current, i);
    assert m[current := m[current] + [i]] == Append(m, current, i);
  }

  /** Opening an empty page changes nothing. */
  lemma OpenPageLists(m: PageMap, current: nat)
    requires PagesBelow(m, current + 1)
    ensures PagesBelow(m[current + 1 := []], current + 2)
    ensures Listed(m[current + 1 := []], current + 2) == Listed(m, current + 1)
  {
    ListedSame(m, m[current + 1 := []], current + 1);
  }

  lemma {:induction false} StandardLists(
    m: PageMap, current: nat, i: nat, paras: seq<Paragraph>, maxPage: int, n: nat)
    requires current in m && PagesBelow(m, current + 1) && Listed(m, current + 1) == UpTo(i)
    requires i <= |paras| && n >= current + |paras| - i + 1
    ensures Listed(StandardFrom(m, current, i, paras, maxPage), n) == UpTo(MappedFrom(paras, current, i, maxPage))
    ensures PagesBelow(StandardFrom(m, current, i, paras, maxPage), n)
    decreases |paras| - i
  {
    if i >= |paras| {
      ListedBeyond(m, current + 1, n);
    } else {
      var m1 := m[current := m[current] + [i]];
      AppendLists(m, current, i);
      if !paras[i].breaksPage {
        StandardLists(m1, current, i + 1, paras, maxPage, n);
      } else if current + 1 > maxPage {
        ListedBeyond(m1, current + 1, n);
      } else {
        OpenPageLists(m1, current);
        StandardLists(m1[current + 1 := []], current + 1, i + 1, paras, maxPage, n);
      }
    }
  }

  /** The pages, which are numbered from 0 on, list a prefix of the paragraph
      indices, each once and in ascending order. */
  lemma MappingIsPrefix(paras: seq<Paragraph>, maxPage: int, n: nat)
    requires n >= |paras| + 1
    ensures PagesBelow(PageMapping(paras, maxPage), n)
    ensures Listed(PageMapping(paras, maxPage), n) == UpTo(Mapped(paras, maxPage))
  {
    var start: PageMap := map[0 := []];
    assert Listed(start, 1) == Listed(start, 0) + [];
    if |paras| > HEURISTIC_LIMIT {
      HeuristicLists(start, 0, |paras|, maxPage, n);
    } else {
      var m := StandardFrom(start, 0, 0, paras, maxPage);
      StandardLists(start, 0, 0, paras, maxPage, n);
      ListedSame(m, WithoutEmpty(m), n);
      if WithoutEmpty(m) == map[] {
        ListedBeyond(map[], 0, n);
        assert Mapped(paras, maxPage) == 0;
        assert |paras| == 0;
        ListedSame(map[], map[0 := []], n);
      }
    }
  }

  // --------------------------------------------------------------- page limit

  lemma {:induction false} SmallestExists(keys: set<int>)
    requires exists k :: k in keys
    ensures exists m :: m in keys && forall x | x in keys :: m <= x
    decreases |keys|
  {
    var k: int :| k in keys;
    var rest := keys - {k};
    if exists j :: j in rest {
      SmallestExists(rest);
      var m :| m in rest && forall x | x in rest :: m <= x;
      var least := if k < m then k else m;
      assert least in keys && forall x | x in keys :: x == k || x in rest;
    } else {
      assert forall x | x in keys :: x == k || x in rest;
    }
  }

  function Smallest(keys: set<int>): (m: int)
    requires keys != {}
    ensures m in keys && forall x | x in keys :: m <= x
  {
    assert (forall k :: k !in keys) ==> keys == {};
    SmallestExists(keys);
    var m :| m in keys && forall x | x in keys :: m <= x;
    m
  }

  /** sorted(keys) */
  function Sorted(keys: set<int>): (r: seq<int>)
    ensures Ascending(r)
    ensures forall k :: k in r <==> k in keys
    decreases |keys|
  {
    if keys == {} then []
    else
      var m := Smallest(keys);
      var rest := Sorted(keys - {m});
      assert forall i | 0 <= i < |rest| :: rest[i] in keys - {m};
      [m] + rest
  }

  function InRange(pages: seq<int>, fromPage: int, toPage: int): (r: seq<int>)
    ensures forall p :: p in r <==> p in pages && fromPage <= p < toPage
  {
    if pages == [] then []
    else if fromPage <= pages[0] < toPage then [pages[0]] + InRange(pages[1..], fromPage, toPage)
    else InRange(pages[1..], fromPage, toPage)
  }

  /** The pages to process, in ascending order. */
  function PagesToProcess(m: PageMap, fromPage: int, toPage: int): seq<int> {
    InRange(Sorted(m.Keys), fromPage, toPage)
  }

  ghost predicate Ascending(pages: seq<int>) {
    forall i, j | 0 <= i < j < |pages| :: pages[i] < pages[j]
  }

  lemma {:induction false} InRangeIncreasing(pages: seq<int>, fromPage: int, toPage: int)
    requires Ascending(pages)
    ensures Ascending(InRange(pages, fromPage, toPage))
  {
    if pages != [] {
      InRangeIncreasing(pages[1..], fromPage, toPage);
      var rest := InRange(pages[1..], fromPage, toPage);
      forall k | 0 <= k < |rest| ensures pages[0] < rest[k] {
        assert rest[k] in pages[1..];
      }
    }
  }

  // ---------------------------------------------------------- content of a page

  /** A run of paragraph texts, or an image, in document order. */
  datatype Part = TextPart(text: string) | ImagePart(image: string)

  function PlainSpaces(s: string): (r: string)
    ensures |r| == |s|
  {
    seq(|s|, i requires 0 <= i < |s| => if s[i] == '\U{3000}' then ' ' else s[i])
  }

  function Clean(text: string): string { Trim(PlainSpaces(Trim(text, IsSpace)), IsSpace) }

  /** Text of one paragraph as it enters the page text. */
  function ParagraphText(p: Paragraph): string {
    if Trim(p.text, IsSpace) == [] then [] else Clean(p.text) + "\n"
  }

  function TextRun(current: string): seq<Part> { if current == [] then [] else [TextPart(current)] }

  /** Parts so far, and the text since the last part. */
  datatype Extract = Extract(parts: seq<Part>, current: string)

  /** One more paragraph: its text, then its image, if wanted. */
  function Add(e: Extract, text: string, image: Option<string>): Extract {
    var current := e.current + text;
    match image
    case Some(i) => Extract(e.parts + TextRun(current) + [ImagePart(i)], [])
    case None => Extract(e.parts, current)
  }

  function WantedImage(p: Paragraph, multimodal: bool): Option<string> { if multimodal then p.image else None }

  function Step(e: Extract, p: Paragraph, multimodal: bool): Extract {
    Add(e, ParagraphText(p), WantedImage(p, multimodal))
  }

  function ExtractFrom(paras: seq<Paragraph>, indices: seq<nat>, e: Extract, multimodal: bool): Extract
    decreases |indices|
  {
    if indices == [] then e
    else
      ExtractFrom(paras, indices[1..],
        if indices[0] < |paras| then Step(e, paras[indices[0]], multimodal) else e, multimodal)
  }

  function Finish(e: Extract): seq<Part> { e.parts + TextRun(e.current) }

  /** The parts of a page with the given paragraphs. */
  function PageParts(paras: seq<Paragraph>, indices: seq<nat>, multimodal: bool): seq<Part> {
    Finish(ExtractFrom(paras, indices, Extract([], []), multimodal))
  }

  function TextsOf(parts: seq<Part>): seq<string> {
    if parts == [] then []
    else if parts[0].TextPart? then [parts[0].text] + TextsOf(parts[1..])
    else TextsOf(parts[1..])
  }

  function ImagesOf(parts: seq<Part>): seq<string> {
    if parts == [] then []
    else if parts[0].ImagePart? then [parts[0].image] + ImagesOf(parts[1..])
    else ImagesOf(parts[1..])
  }

  method AddParagraph(e: Extract, text: string, image: Option<string>) returns (r: Extract)
    ensures r == Add(e, text, image)
  {
    var parts, current := e.parts, e.current + text;
    match image
    case Some(i) =>
      if current != [] {
        parts := parts + [TextPart(current)];
      }
      r := Extract(parts + [ImagePart(i)], []);
    case None =>
      r := Extract(parts, current);
  }

  method ExtractParts(paras: seq<Paragraph>, indices: seq<nat>, multimodal: bool) returns (parts: seq<Part>)
    ensures parts == PageParts(paras, indices, multimodal)
  {
    var e := Extract([], []);
    for i := 0 to |indices|
      invariant ExtractFrom(paras, indices[i..], e, multimodal)
        == ExtractFrom(paras, indices, Extract([], []), multimodal)
    {
      assert indices[i..][0] == indices[i] && indices[i..][1..] == indices[i + 1..];
      if indices[i] < |paras| {
        var p := paras[indices[i]];
        e := AddParagraph(e, ParagraphText(p), WantedImage(p, multimodal));
      }
    }
    parts := e.parts;
    if e.current != [] {
      parts := parts + [TextPart(e.current)];
    }
  }

  method ExtractPageContent(paras: seq<Paragraph>, indices: seq<nat>, multimodal: bool)
    returns (combined: string, images: seq<string>, parts: seq<Part>)
    ensures parts == PageParts(paras, indices, multimodal)
    ensures combined == Join(TextsOf(parts), "\n\n") && images == ImagesOf(parts)
  {
    parts := ExtractParts(paras, indices, multimodal);
    combined, images := Join(TextsOf(parts), "\n\n"), ImagesOf(parts);
  }

  function CleanTexts(paras: seq<Paragraph>): (r: seq<string>)
    ensures |r| == |paras|
  {
    seq(|paras|, i requires 0 <= i < |paras| => ParagraphText(paras[i]))
  }

  /** The texts at the given positions; nothing for a position out of range. */
  function Pick(texts: seq<string>, indices: seq<nat>): (r: seq<string>)
    ensures |r| == |indices|
  {
    seq(|indices|, i requires 0 <= i < |indices| => if indices[i] < |texts| then texts[indices[i]] else [])
  }

  /** The text of the paragraphs with the given indices, in order. */
  function ParagraphTexts(paras: seq<Paragraph>, indices: seq<nat>): string {
    Concat(Pick(CleanTexts(paras), indices))
  }

  lemma PickStep(texts: seq<string>, indices: seq<nat>)
    requires indices != []
    ensures Concat(Pick(texts, indices))
      == (if indices[0] < |texts| then texts[indices[0]] else []) + Concat(Pick(texts, indices[1..]))
  {
    assert Pick(texts, indices)[1..] == Pick(texts, indices[1..]);
  }

  function ParagraphImages(paras: seq<Paragraph>, indices: seq<nat>): seq<string> {
    if indices == [] then []
    else if indices[0] < |paras| && paras[indices[0]].image.Some? then
      [paras[indices[0]].image.value] + ParagraphImages(paras, indices[1..])
    else ParagraphImages(paras, indices[1..])
  }

  lemma {:induction false} TextsOfAppend(a: seq<Part>, b: seq<Part>)
    ensures TextsOf(a + b) == TextsOf(a) + TextsOf(b)
  {
    if a == [] {
      assert a + b == b;
    } else {
      TextsOfAppend(a[1..], b);
      assert (a + b)[1..] == a[1..] + b;
    }
  }

  lemma {:induction false} ImagesOfAppend(a: seq<Part>, b: seq<Part>)
    ensures ImagesOf(a + b) == ImagesOf(a) + ImagesOf(b)
  {
    if a == [] {
      assert a + b == b;
    } else {
      ImagesOfAppend(a[1..], b);
      assert (a + b)[1..] == a[1..] + b;
    }
  }

  lemma TextRunText(current: string)
    ensures Concat(TextsOf(TextRun(current))) == current && ImagesOf(TextRun(current)) == []
  {
    if current != [] {
      assert [TextPart(current)][1..] == [];
      ConcatOne(current);
    }
  }

  lemma AddRun(parts: seq<Part>, current: string)
    ensures Concat(TextsOf(parts + TextRun(current))) == Concat(TextsOf(parts)) + current
    ensures ImagesOf(parts + TextRun(current)) == ImagesOf(parts)
  {
    TextsOfAppend(parts, TextRun(current));
    ImagesOfAppend(parts, TextRun(current));
    ConcatAppend(TextsOf(parts), TextsOf(TextRun(current)));
    TextRunText(current);
  }

  lemma AddImage(parts: seq<Part>, image: string)
    ensures TextsOf(parts + [ImagePart(image)]) == TextsOf(parts)
    ensures ImagesOf(parts + [ImagePart(image)]) == ImagesOf(parts) + [image]
  {
    TextsOfAppend(parts, [ImagePart(image)]);
    ImagesOfAppend(parts, [ImagePart(image)]);
    assert [ImagePart(image)][1..] == [];
  }

  /** All text extracted so far. */
  function TextSoFar(e: Extract): string { Concat(TextsOf(e.parts)) + e.current }

  lemma StepConserves(e: Extract, text: string, image: Option<string>)
    ensures TextSoFar(Add(e, text, image)) == TextSoFar(e) + text
    ensures ImagesOf(Add(e, text, image).parts) == ImagesOf(e.parts) + if image.Some? then [image.value] else []
  {
    AddRun(e.parts, e.current + text);
    if image.Some? {
      AddImage(e.parts + TextRun(e.current + text), image.value);
    }
  }

  /** Extraction keeps the text of the paragraphs in document order. */
  lemma {:induction false} ExtractText(paras: seq<Paragraph>, indices: seq<nat>, e: Extract, multimodal: bool)
    ensures TextSoFar(ExtractFrom(paras, indices, e, multimodal)) == TextSoFar(e) + ParagraphTexts(paras, indices)
    decreases |indices|
  {
    if indices != [] {
      PickStep(CleanTexts(paras), indices);
      if indices[0] < |paras| {
        var p := paras[indices[0]];
        StepConserves(e, ParagraphText(p), WantedImage(p, multimodal));
        Associate(TextSoFar(e), ParagraphText(p), ParagraphTexts(paras, indices[1..]));
        ExtractText(paras, indices[1..], Step(e, p, multimodal), multimodal);
      } else {
        ExtractText(paras, indices[1..], e, multimodal);
      }
    }
  }

  /** Extraction keeps the images of the paragraphs in document order. */
  lemma {:induction false} ExtractImages(paras: seq<Paragraph>, indices: seq<nat>, e: Extract)
    ensures ImagesOf(ExtractFrom(paras, indices, e, true).parts) == ImagesOf(e.parts) + ParagraphImages(paras, indices)
    decreases |indices|
  {
    if indices != [] {
      if indices[0] < |paras| {
        StepConserves(e, ParagraphText(paras[indices[0]]), paras[indices[0]].image);
        ExtractImages(paras, indices[1..], Step(e, paras[indices[0]], true));
      } else {
        ExtractImages(paras, indices[1..], e);
      }
    }
  }

  /** Text runs are never empty and never follow each other directly. */
  ghost predicate Alternating(parts: seq<Part>) {
    && (forall i | 0 <= i < |parts| && parts[i].TextPart? :: parts[i].text != [])
    && (forall i | 0 <= i < |parts| - 1 :: parts[i].ImagePart? || parts[i + 1].ImagePart?)
  }

  ghost predicate Extensible(e: Extract) {
    Alternating(e.parts) && (e.parts != [] ==> e.parts[|e.parts| - 1].ImagePart?)
  }

  lemma AddRunAlternates(parts: seq<Part>, current: string)
    requires Extensible(Extract(parts, current))
    ensures Alternating(parts + TextRun(current))
  {
    var r := parts + TextRun(current);
    assert forall i | 0 <= i < |parts| :: r[i] == parts[i];
  }

  lemma StepExtensible(e: Extract, p: Paragraph, multimodal: bool)
    requires Extensible(e)
    ensures Extensible(Step(e, p, multimodal))
  {
    if multimodal && p.image.Some? {
      var run := e.parts + TextRun(e.current + ParagraphText(p));
      AddRunAlternates(e.parts, e.current + ParagraphText(p));
      var r := run + [ImagePart(p.image.value)];
      assert forall i | 0 <= i < |run| :: r[i] == run[i];
    }
  }

  lemma {:induction false} ExtractExtensible(
    paras: seq<Paragraph>, indices: seq<nat>, e: Extract, multimodal: bool)
    requires Extensible(e)
    ensures Extensible(ExtractFrom(paras, indices, e, multimodal))
    decreases |indices|
  {
    if indices != [] {
      if indices[0] < |paras| {
        StepExtensible(e, paras[indices[0]], multimodal);
        ExtractExtensible(paras, indices[1..], Step(e, paras[indices[0]], multimodal), multimodal);
      } else {
        ExtractExtensible(paras, indices[1..], e, multimodal);
      }
    }
  }

  /** The page text and images are those of its paragraphs. */
  lemma PageContent(paras: seq<Paragraph>, indices: seq<nat>, multimodal: bool)
    ensures Concat(TextsOf(PageParts(paras, indices, multimodal))) == ParagraphTexts(paras, indices)
    ensures multimodal ==> ImagesOf(PageParts(paras, indices, multimodal)) == ParagraphImages(paras, indices)
    ensures Alternating(PageParts(paras, indices, multimodal))
  {
    var e := ExtractFrom(paras, indices, Extract([], []), multimodal);
    ExtractText(paras, indices, Extract([], []), multimodal);
    ExtractExtensible(paras, indices, Extract([], []), multimodal);
    AddRun(e.parts, e.current);
    AddRunAlternates(e.parts, e.current);
    if multimodal {
      ExtractImages(paras, indices, Extract([], []));
    }
  }

  lemma {:induction false} PlainSpacesInk(s: string)
    ensures Ink(PlainSpaces(s)) == Ink(s)
  {
    if s != [] {
      PlainSpacesInk(s[1..]);
      assert PlainSpaces(s)[1..] == PlainSpaces(s[1..]);
    }
  }

  /** Cleaning a paragraph loses no ink. */
  lemma ParagraphTextInk(p: Paragraph)
    ensures Ink(ParagraphText(p)) == Ink(p.text)
  {
    var t := Trim(p.text, IsSpace);
    InkOfTrim(p.text);
    if t != [] {
      PlainSpacesInk(t);
      InkOfTrim(PlainSpaces(t));
      InkConcat(Clean(p.text), "\n");
      assert AllOf("\n", IsSpace);
      InkOfSpaces("\n");
    }
  }
}
