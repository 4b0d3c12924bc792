/** Parallel DOCX processing: one worker result per page, collected in the order
    in which the workers finish, and the text that comes of it. */
module DocxResults {
  import opened DocxPages
  import opened Ordering
  import opened Text
  import opened Wrappers

  /** One entry of a page's content for the main process: text, or the path of a
      saved image. */
  datatype Item = TextItem(text: string) | ImageItem(path: string)

  datatype LineData = LineData(text: string, images: seq<string>, pageNum: int, content: seq<Item>)

  // ---------------------------------------------------------------- one worker

  /** Saves image number i of a page to a temporary file. */
  type Saver = (int, nat, string) -> Option<string>

  /** The paths of the images that could be saved. */
  function SavedFrom(images: seq<string>, i: nat, page: int, save: Saver): seq<string>
    decreases |images| - i
  {
    if i >= |images| then []
    else
      var rest := SavedFrom(images, i + 1, page, save);
      match save(page, i, images[i])
      case Some(path) => [path] + rest
      case None => rest
  }

  /** The content with images replaced by saved paths, in order. */
  function ItemsFrom(parts: seq<Part>, saved: seq<string>): seq<Item>
    decreases |parts|
  {
    if parts == [] then []
    else
      match parts[0]
      case TextPart(text) => [TextItem(text)] + ItemsFrom(parts[1..], saved)
      case ImagePart(_) =>
        if saved == [] then ItemsFrom(parts[1..], saved)
        else [ImageItem(saved[0])] + ItemsFrom(parts[1..], saved[1..])
  }

  /** What a worker returns for a page: nothing for a page out of range or
      without paragraphs, or if the document cannot be loaded (doc absent). */
  function WorkerLines(page: int, indices: seq<nat>, fromPage: int, toPage: int,
                       doc: Option<seq<Paragraph>>, multimodal: bool, save: Saver): (lines: seq<LineData>)
    ensures |lines| <= 1
    ensures forall line | line in lines :: line.pageNum == page
  {
    if page < fromPage || page >= toPage || doc.None? || indices == [] then []
    else
      var parts := PageParts(doc.value, indices, multimodal);
      var saved := if multimodal then SavedFrom(ImagesOf(parts), 0, page, save) else [];
      var content := if multimodal then ItemsFrom(parts, saved) else [];
      [LineData(Join(TextsOf(parts), "\n\n"), saved, page, content)]
  }

  // ------------------------------------------------------- collecting results

  /** What each page's worker returns; nothing for a worker that fails. */
  type Outcome = int -> seq<LineData>

  /** All worker results, in the order in which the pages complete. */
  function Collected(order: seq<int>, outcome: Outcome): seq<LineData> {
    if order == [] then [] else outcome(order[0]) + Collected(order[1..], outcome)
  }

  /** At most one line per page, labelled with its page. */
  ghost predicate OneLinePerPage(order: seq<int>, outcome: Outcome) {
    forall p | p in order :: |outcome(p)| <= 1 && forall line | line in outcome(p) :: line.pageNum == p
  }

  predicate HasImages(lines: seq<LineData>) {
    exists i | 0 <= i < |lines| :: lines[i].images != []
  }

  /** Uploads an image file and returns its address; the file may be missing. A run
      uploads each path once, so the addresses it draws are a function of the path,
      but another run may draw others. */
  type Uploader = string -> Option<string>

  function Markup(url: string): string { "![](" + url + ")" }

  predicate Uploaded(path: string, upload: Uploader) { path != [] && upload(path).Some? }

  function Paths(lines: seq<LineData>): set<string> {
    set i, j | 0 <= i < |lines| && 0 <= j < |lines[i].images| :: lines[i].images[j]
  }

  /** The markup of every image that was uploaded. */
  function Urls(lines: seq<LineData>, upload: Uploader): map<string, string> {
    map p | p in Paths(lines) && Uploaded(p, upload) :: Markup(upload(p).value)
  }

  const GLUE := "\n\n"

  /** What an item contributes to the text, if anything. */
  function ShownItem(item: Item, urls: map<string, string>): seq<string> {
    match item
    case TextItem(text) => if text == [] then [] else [text]
    case ImageItem(path) => if path in urls && urls[path] != [] then [urls[path]] else []
  }

  function ShownItems(content: seq<Item>, urls: map<string, string>): seq<string> {
    if content == [] then [] else ShownItem(content[0], urls) + ShownItems(content[1..], urls)
  }

  /** The page text with uploaded images in their places. */
  function FinalText(content: seq<Item>, urls: map<string, string>): string {
    Join(ShownItems(content, urls), GLUE)
  }

  /** Rebuilds the lines; a line without content keeps the page number left over
      from the line before. */
  function Rebuild(lines: seq<LineData>, stale: int, urls: map<string, string>): (r: seq<LineData>)
    ensures |r| == |lines|
    decreases |lines|
  {
    if lines == [] then []
    else
      var line := lines[0];
      var page := if line.content != [] then line.pageNum else stale;
      [LineData(FinalText(line.content, urls), line.images, page, [])] + Rebuild(lines[1..], page, urls)
  }

  lemma RebuildStep(lines: seq<LineData>, i: nat, stale: int, urls: map<string, string>)
    requires i < |lines|
    ensures var line := lines[i];
      var page := if line.content != [] then line.pageNum else stale;
      Rebuild(lines[i..], stale, urls) ==
      [LineData(FinalText(line.content, urls), line.images, page, [])] + Rebuild(lines[i + 1..], page, urls)
  {
    assert lines[i..][0] == lines[i] && lines[i..][1..] == lines[i + 1..];
  }

  /** The page number that the upload loop leaves behind. */
  function LastImagePage(lines: seq<LineData>): int {
    if lines == [] then 0
    else
      var last := |lines| - 1;
      if lines[last].images != [] then lines[last].pageNum else LastImagePage(lines[..last])
  }

  function ByPage(line: LineData): real { line.pageNum as real }

  /** The final list of sections. */
  function Processed(lines: seq<LineData>, upload: Uploader): seq<LineData> {
    SortBy(if HasImages(lines) then Rebuild(lines, LastImagePage(lines), Urls(lines, upload)) else lines, ByPage)
  }

  predicate HasNoText(line: LineData) { line.text == [] }

  /** The sections that have text. */
  function WithText(lines: seq<LineData>): (r: seq<LineData>)
    ensures forall line :: line in r <==> line in lines && line.text != []
  {
    Without(lines, HasNoText)
  }

  function TextList(lines: seq<LineData>): seq<string> {
    seq(|lines|, i requires 0 <= i < |lines| => lines[i].text)
  }

  /** The section texts that enter the document text. */
  function SectionTexts(lines: seq<LineData>): seq<string> { TextList(WithText(lines)) }

  // ------------------------------------------------------ schedule independence

  /** What becomes of a worker's line: its final text under its own page. */
  function FinalLine(line: LineData, images: bool, urls: map<string, string>): LineData {
    if images then LineData(FinalText(line.content, urls), line.images, line.pageNum, []) else line
  }

  function FinalLines(lines: seq<LineData>, images: bool, urls: map<string, string>): (r: seq<LineData>)
    ensures |r| == |lines|
  {
    seq(|lines|, i requires 0 <= i < |lines| => FinalLine(lines[i], images, urls))
  }

  /** A page number left over from another line only labels an empty text, so it
      does not matter for the sections with text. */
  lemma {:induction false} StaleOnlyOnEmpty(lines: seq<LineData>, stale: int, urls: map<string, string>)
    ensures WithText(Rebuild(lines, stale, urls)) == WithText(FinalLines(lines, true, urls))
    decreases |lines|
  {
    if lines != [] {
      var line := lines[0];
      var page := if line.content != [] then line.pageNum else stale;
      StaleOnlyOnEmpty(lines[1..], page, urls);
      assert FinalLines(lines, true, urls)[1..] == FinalLines(lines[1..], true, urls);
    }
  }

  lemma InsertInFront(x: LineData, s: seq<LineData>)
    requires forall i | 0 <= i < |s| :: ByPage(x) <= ByPage(s[i])
    ensures InsertBy(x, WithText(s), ByPage) == [x] + WithText(s)
  {
    var w := WithText(s);
    if w != [] {
      assert w[0] in s;
    }
  }

  lemma WithTextCons(x: LineData, s: seq<LineData>)
    ensures WithText([x] + s) == if x.text == [] then WithText(s) else [x] + WithText(s)
  {
    WithoutCons(x, s, HasNoText);
  }

  lemma {:induction false} WithTextInsert(x: LineData, s: seq<LineData>)
    requires SortedBy(s, ByPage)
    ensures WithText(InsertBy(x, s, ByPage)) == if x.text == [] then WithText(s) else InsertBy(x, WithText(s), ByPage)
  {
    if s == [] || ByPage(x) <= ByPage(s[0]) {
      InsertInFront(x, s);
      WithTextCons(x, s);
    } else {
      var y, rest := s[0], s[1..];
      assert s == [y] + rest;
      WithTextInsert(x, rest);
      InsertBehind(x, y, rest, ByPage);
      InsertBehind(x, y, WithText(rest), ByPage);
      WithTextCons(y, rest);
      WithTextCons(y, InsertBy(x, rest, ByPage));
    }
  }

  /** Dropping empty sections commutes with sorting. */
  lemma {:induction false} WithTextSort(s: seq<LineData>)
    ensures WithText(SortBy(s, ByPage)) == SortBy(WithText(s), ByPage)
  {
    if s != [] {
      WithTextSort(s[1..]);
      WithTextInsert(s[0], SortBy(s[1..], ByPage));
    }
  }

  /** No page occurs twice in the schedule. */
  ghost predicate NoRepeats(order: seq<int>) {
    forall i, j | 0 <= i < j < |order| :: order[i] != order[j]
  }

  lemma {:induction false} CollectedMembers(order: seq<int>, outcome: Outcome, line: LineData)
    ensures line in Collected(order, outcome) <==> exists p :: p in order && line in outcome(p)
  {
    if order != [] {
      CollectedMembers(order[1..], outcome, line);
      assert order[0] in order;
      assert forall p | p in order :: p == order[0] || p in order[1..];
      assert forall p | p in order[1..] :: p in order;
    }
  }

  lemma {:induction false} CollectedDistinct(order: seq<int>, outcome: Outcome)
    requires NoRepeats(order) && OneLinePerPage(order, outcome)
    ensures DistinctBy(Collected(order, outcome), ByPage)
  {
    if order != [] {
      assert order[0] in order;
      assert OneLinePerPage(order[1..], outcome);
      CollectedDistinct(order[1..], outcome);
      var rest := Collected(order[1..], outcome);
      forall i | 0 <= i < |rest| ensures rest[i].pageNum != order[0] {
        CollectedMembers(order[1..], outcome, rest[i]);
        var p :| p in order[1..] && rest[i] in outcome(p);
        assert p in order;
      }
    }
  }

  lemma {:induction false} CollectedIncreasing(pages: seq<int>, outcome: Outcome)
    requires Ascending(pages) && OneLinePerPage(pages, outcome)
    ensures IncreasingBy(Collected(pages, outcome), ByPage)
  {
    if pages != [] {
      assert pages[0] in pages;
      CollectedIncreasing(pages[1..], outcome);
      var rest := Collected(pages[1..], outcome);
      forall i | 0 <= i < |rest| ensures rest[i].pageNum > pages[0] {
        CollectedMembers(pages[1..], outcome, rest[i]);
        var p :| p in pages[1..] && rest[i] in outcome(p);
        assert p in pages;
      }
    }
  }

  /** The facts that the upload step takes from the result lines do not depend
      on their order. */
  lemma SameLinesSameUrls(a: seq<LineData>, b: seq<LineData>, upload: Uploader)
    requires forall line :: line in a <==> line in b
    ensures HasImages(a) <==> HasImages(b)
    ensures Urls(a, upload) == Urls(b, upload)
  {
    PathsWithin(a, b);
    PathsWithin(b, a);
  }

  lemma PathsWithin(a: seq<LineData>, b: seq<LineData>)
    requires forall line | line in a :: line in b
    ensures HasImages(a) ==> HasImages(b)
    ensures Paths(a) <= Paths(b)
  {
    if i :| 0 <= i < |a| && a[i].images != [] {
      assert a[i] in b;
      var k :| 0 <= k < |b| && b[k] == a[i];
    }
    forall p | p in Paths(a) ensures p in Paths(b) {
      var i, j :| 0 <= i < |a| && 0 <= j < |a[i].images| && p == a[i].images[j];
      assert a[i] in b;
      var k :| 0 <= k < |b| && b[k] == a[i];
      assert b[k].images[j] == p;
    }
  }

  /** For every completion order, the sections with text are the final lines of
      the surviving pages, in page order. */
  lemma ScheduleIndependence(pages: seq<int>, order: seq<int>, outcome: Outcome, upload: Uploader)
    requires Ascending(pages) && NoRepeats(order) && forall p :: p in order <==> p in pages
    requires OneLinePerPage(pages, outcome)
    ensures var lines := Collected(pages, outcome);
      WithText(Processed(Collected(order, outcome), upload))
      == WithText(FinalLines(lines, HasImages(lines), Urls(lines, upload)))
  {
    var done, lines := Collected(order, outcome), Collected(pages, outcome);
    forall line ensures line in done <==> line in lines {
      CollectedMembers(order, outcome, line);
      CollectedMembers(pages, outcome, line);
    }
    SameLinesSameUrls(done, lines, upload);
    CollectedDistinct(order, outcome);
    CollectedIncreasing(pages, outcome);
    SortFinalLines(done, lines, HasImages(lines), Urls(lines, upload));
    ProcessedText(done, upload);
  }

  lemma ProcessedText(lines: seq<LineData>, upload: Uploader)
    ensures WithText(Processed(lines, upload))
      == SortBy(WithText(FinalLines(lines, HasImages(lines), Urls(lines, upload))), ByPage)
  {
    var urls := Urls(lines, upload);
    if HasImages(lines) {
      StaleOnlyOnEmpty(lines, LastImagePage(lines), urls);
      WithTextSort(Rebuild(lines, LastImagePage(lines), urls));
    } else {
      WithTextSort(lines);
      assert FinalLines(lines, false, urls) == lines;
    }
  }

  lemma SortFinalLines(done: seq<LineData>, lines: seq<LineData>, images: bool, urls: map<string, string>)
    requires DistinctBy(done, ByPage) && IncreasingBy(lines, ByPage)
    requires forall line :: line in done <==> line in lines
    ensures SortBy(WithText(FinalLines(done, images, urls)), ByPage) == WithText(FinalLines(lines, images, urls))
  {
    var a, b := FinalLines(done, images, urls), FinalLines(lines, images, urls);
    assert forall i | 0 <= i < |a| :: ByPage(a[i]) == ByPage(done[i]);
    assert forall i | 0 <= i < |b| :: ByPage(b[i]) == ByPage(lines[i]);
    WithoutKeeps(a, HasNoText, ByPage);
    WithoutKeeps(b, HasNoText, ByPage);
    SortIncreasing(WithText(a), ByPage);
    SortMembers(WithText(a), ByPage);
    FinalLinesWithin(done, lines, images, urls);
    FinalLinesWithin(lines, done, images, urls);
    SameIncreasing(SortBy(WithText(a), ByPage), WithText(b), ByPage);
  }

  lemma FinalLinesWithin(a: seq<LineData>, b: seq<LineData>, images: bool, urls: map<string, string>)
    requires forall line | line in a :: line in b
    ensures forall line | line in FinalLines(a, images, urls) :: line in FinalLines(b, images, urls)
  {
    forall line | line in FinalLines(a, images, urls) ensures line in FinalLines(b, images, urls) {
      var i :| 0 <= i < |a| && FinalLines(a, images, urls)[i] == line;
      assert a[i] in b;
      var k :| 0 <= k < |b| && b[k] == a[i];
      assert FinalLines(b, images, urls)[k] == line;
    }
  }

  // -------------------------------------------------------- the text of a document

  /** The document text: all section texts, a blank line apart. */
  function ParsedText(lines: seq<LineData>): string { Join(SectionTexts(lines), GLUE) }

  /** Workers on the pages of a document: a page whose worker fails, or cannot
      load the document, gives nothing. */
  function Workers(paras: seq<Paragraph>, m: PageMap, fromPage: int, toPage: int,
                   fails: int -> bool, multimodal: bool, save: Saver): Outcome
  {
    (p: int) =>
      if p !in m then []
      else WorkerLines(p, m[p], fromPage, toPage, if fails(p) then None else Some(paras), multimodal, save)
  }

  ghost predicate NoImages(paras: seq<Paragraph>) {
    forall i | 0 <= i < |paras| :: paras[i].image.None?
  }

  /** Ink of the paragraphs of the pages that do not fail. */
  function SurvivingInk(paras: seq<Paragraph>, m: PageMap, pages: seq<int>, fails: int -> bool): string {
    if pages == [] then []
    else
      var rest := SurvivingInk(paras, m, pages[1..], fails);
      if fails(pages[0]) || pages[0] !in m then rest else Ink(ParagraphTexts(paras, m[pages[0]])) + rest
  }

  lemma {:induction false} JoinedTextsInk(texts: seq<string>)
    ensures Ink(Join(texts, GLUE)) == Ink(Concat(texts))
  {
    if |texts| == 1 {
      ConcatOne(texts[0]);
    } else if |texts| > 1 {
      JoinedTextsInk(texts[1..]);
      InkGlue(texts[0], GLUE, Join(texts[1..], GLUE));
      InkConcat(texts[0], Concat(texts[1..]));
    }
  }

  lemma {:induction false} NoImagesNoParts(paras: seq<Paragraph>, indices: seq<nat>)
    requires NoImages(paras)
    ensures ParagraphImages(paras, indices) == []
  {
    if indices != [] {
      NoImagesNoParts(paras, indices[1..]);
    }
  }

  // ------------------------------------------------- texts and images of a page

  function TextsIn(content: seq<Item>): seq<string> {
    if content == [] then []
    else if content[0].TextItem? then [content[0].text] + TextsIn(content[1..])
    else TextsIn(content[1..])
  }

  function ImagesIn(content: seq<Item>): seq<string> {
    if content == [] then []
    else if content[0].ImageItem? then [content[0].path] + ImagesIn(content[1..])
    else ImagesIn(content[1..])
  }

  lemma {:induction false} SavedFewer(images: seq<string>, i: nat, page: int, save: Saver)
    requires i <= |images|
    ensures |SavedFrom(images, i, page, save)| <= |images| - i
    decreases |images| - i
  {
    if i < |images| {
      SavedFewer(images, i + 1, page, save);
    }
  }

  /** The content has the texts of the page and the saved paths, each in order. */
  lemma {:induction false} ItemsKeepOrder(parts: seq<Part>, saved: seq<string>)
    requires |saved| <= |ImagesOf(parts)|
    ensures TextsIn(ItemsFrom(parts, saved)) == TextsOf(parts)
    ensures ImagesIn(ItemsFrom(parts, saved)) == saved
    decreases |parts|
  {
    if parts != [] {
      var rest := if parts[0].ImagePart? && saved != [] then saved[1..] else saved;
      if parts[0].ImagePart? && saved == [] {
        assert |saved| <= |ImagesOf(parts[1..])|;
      }
      ItemsKeepOrder(parts[1..], rest);
      var tail := ItemsFrom(parts[1..], rest);
      match parts[0]
      case TextPart(text) =>
        assert ([TextItem(text)] + tail)[1..] == tail;
      case ImagePart(_) =>
        if saved != [] {
          assert ([ImageItem(saved[0])] + tail)[1..] == tail;
          assert [saved[0]] + saved[1..] == saved;
        }
    }
  }

  /** The paths of the images of a page that could be saved. */
  function SavedOf(parts: seq<Part>, page: int, multimodal: bool, save: Saver): seq<string> {
    if multimodal then SavedFrom(ImagesOf(parts), 0, page, save) else []
  }

  /** The content of a page: its texts and saved images. */
  function PageItems(paras: seq<Paragraph>, page: int, indices: seq<nat>, multimodal: bool, save: Saver): seq<Item> {
    var parts := PageParts(paras, indices, multimodal);
    ItemsFrom(parts, SavedOf(parts, page, multimodal, save))
  }

  lemma PageItemsTexts(paras: seq<Paragraph>, page: int, indices: seq<nat>, multimodal: bool, save: Saver)
    ensures var items := PageItems(paras, page, indices, multimodal, save);
      && Concat(TextsIn(items)) == ParagraphTexts(paras, indices)
      && ImagesIn(items) == SavedOf(PageParts(paras, indices, multimodal), page, multimodal, save)
      && (NoImages(paras) ==> ImagesIn(items) == [])
  {
    var parts := PageParts(paras, indices, multimodal);
    SavedFewer(ImagesOf(parts), 0, page, save);
    ItemsKeepOrder(parts, SavedOf(parts, page, multimodal, save));
    PageContent(paras, indices, multimodal);
    if NoImages(paras) {
      NoImagesNoParts(paras, indices);
    }
  }

  lemma {:induction false} ShownAppend(a: seq<Item>, b: seq<Item>, urls: map<string, string>)
    ensures ShownItems(a + b, urls) == ShownItems(a, urls) + ShownItems(b, urls)
  {
    if a == [] {
      assert a + b == b;
    } else {
      ShownAppend(a[1..], b, urls);
      assert (a + b)[0] == a[0] && (a + b)[1..] == a[1..] + b;
      Associate(ShownItem(a[0], urls), ShownItems(a[1..], urls), ShownItems(b, urls));
    }
  }

  lemma {:induction false} TextsInAppend(a: seq<Item>, b: seq<Item>)
    ensures TextsIn(a + b) == TextsIn(a) + TextsIn(b)
  {
    if a == [] {
      assert a + b == b;
    } else {
      TextsInAppend(a[1..], b);
      assert (a + b)[1..] == a[1..] + b;
    }
  }

  lemma {:induction false} ImagesInAppend(a: seq<Item>, b: seq<Item>)
    ensures ImagesIn(a + b) == ImagesIn(a) + ImagesIn(b)
  {
    if a == [] {
      assert a + b == b;
    } else {
      ImagesInAppend(a[1..], b);
      assert (a + b)[1..] == a[1..] + b;
    }
  }

  /** Without images only the texts are shown. */
  lemma {:induction false} ShownTexts(content: seq<Item>, urls: map<string, string>)
    requires ImagesIn(content) == []
    ensures Concat(ShownItems(content, urls)) == Concat(TextsIn(content))
  {
    if content != [] {
      ShownTexts(content[1..], urls);
      var shown, texts := ShownItems(content[1..], urls), TextsIn(content[1..]);
      assert content[0].TextItem?;
      assert ([content[0].text] + shown)[1..] == shown && ([content[0].text] + texts)[1..] == texts;
      ConcatAppend(ShownItem(content[0], urls), shown);
    }
  }

  // ----------------------------------------------------- what the pages show

  ghost predicate NoneEmpty(texts: seq<string>) { forall i | 0 <= i < |texts| :: texts[i] != [] }

  lemma {:induction false} ShownNoneEmpty(content: seq<Item>, urls: map<string, string>)
    ensures NoneEmpty(ShownItems(content, urls))
  {
    if content != [] {
      ShownNoneEmpty(content[1..], urls);
    }
  }

  /** Texts joined to one, as the only section or none. */
  function OneSection(texts: seq<string>): seq<string> {
    if Join(texts, GLUE) == [] then [] else [Join(texts, GLUE)]
  }

  lemma JoinNoneEmpty(texts: seq<string>)
    requires NoneEmpty(texts)
    ensures Join(texts, GLUE) == [] <==> texts == []
  {
  }

  /** Joining joined lists is joining their concatenation. */
  lemma {:induction false} JoinBoth(a: seq<string>, b: seq<string>)
    ensures Join(a + b, GLUE) ==
      if a == [] then Join(b, GLUE) else if b == [] then Join(a, GLUE) else Join(a, GLUE) + GLUE + Join(b, GLUE)
  {
    if a == [] {
      assert a + b == b;
    } else if b == [] {
      assert a + b == a;
    } else {
      JoinBoth(a[1..], b);
      assert (a + b)[0] == a[0] && (a + b)[1..] == a[1..] + b;
      if |a| > 1 {
        Associate(a[0] + GLUE, Join(a[1..], GLUE), GLUE + Join(b, GLUE));
        Associate(Join(a[1..], GLUE), GLUE, Join(b, GLUE));
        Associate(a[0] + GLUE + Join(a[1..], GLUE), GLUE, Join(b, GLUE));
      }
    }
  }

  lemma OneSectionJoins(texts: seq<string>)
    ensures Join(OneSection(texts), GLUE) == Join(texts, GLUE)
  {
  }

  /** The sections of one page and those of the later ones. */
  lemma SectionsJoin(texts: seq<string>, later: seq<string>, sections: seq<string>)
    requires NoneEmpty(texts) && NoneEmpty(later)
    requires Join(sections, GLUE) == Join(later, GLUE) && (sections == [] <==> later == [])
    ensures var all := OneSection(texts) + sections;
      Join(all, GLUE) == Join(texts + later, GLUE) && (all == [] <==> texts + later == [])
  {
    JoinNoneEmpty(texts);
    JoinBoth(texts, later);
    JoinBoth(OneSection(texts), sections);
    OneSectionJoins(texts);
  }

  lemma SectionsAppend(a: seq<LineData>, b: seq<LineData>)
    ensures SectionTexts(a + b) == SectionTexts(a) + SectionTexts(b)
  {
    WithoutAppend(a, b, HasNoText);
    TextListAppend(WithText(a), WithText(b));
  }

  lemma TextListAppend(a: seq<LineData>, b: seq<LineData>)
    ensures TextList(a + b) == TextList(a) + TextList(b)
  {
  }

  lemma SectionOfLine(line: LineData)
    ensures SectionTexts([line]) == if line.text == [] then [] else [line.text]
  {
    WithTextCons(line, []);
    assert [line] + [] == [line];
    assert TextList([line]) == [line.text] && TextList([]) == [];
  }

  /** A worker's section is what its page shows, joined. */
  lemma WorkerShown(paras: seq<Paragraph>, page: int, indices: seq<nat>, fromPage: int, toPage: int,
                    multimodal: bool, save: Saver, images: bool, urls: map<string, string>)
    requires fromPage <= page < toPage && indices != []
    requires images ==> multimodal
    requires !images ==> !HasImages(WorkerLines(page, indices, fromPage, toPage, Some(paras), multimodal, save))
    ensures var lines := WorkerLines(page, indices, fromPage, toPage, Some(paras), multimodal, save);
      SectionTexts(FinalLines(lines, images, urls))
      == OneSection(ShownItems(PageItems(paras, page, indices, multimodal, save), urls))
  {
    var lines := WorkerLines(page, indices, fromPage, toPage, Some(paras), multimodal, save);
    var items := PageItems(paras, page, indices, multimodal, save);
    var parts := PageParts(paras, indices, multimodal);
    var final := FinalLine(lines[0], images, urls);
    assert FinalLines(lines, images, urls) == [final];
    SectionOfLine(final);
    if images {
      assert lines[0].content == items;
    } else {
      assert lines[0].images == SavedOf(parts, page, multimodal, save) == [];
      PageContent(paras, indices, multimodal);
      TextsAreShown(parts, urls);
    }
  }

  /** Without saved images the texts of a page are all that it shows. */
  lemma {:induction false} TextsAreShown(parts: seq<Part>, urls: map<string, string>)
    requires forall i | 0 <= i < |parts| && parts[i].TextPart? :: parts[i].text != []
    ensures ShownItems(ItemsFrom(parts, []), urls) == TextsOf(parts)
  {
    if parts != [] {
      assert forall i | 0 <= i < |parts[1..]| :: parts[1..][i] == parts[i + 1];
      TextsAreShown(parts[1..], urls);
      if parts[0].TextPart? {
        var item, rest := TextItem(parts[0].text), ItemsFrom(parts[1..], []);
        assert ([item] + rest)[1..] == rest && ShownItem(item, urls) == [parts[0].text];
      }
    }
  }

  /** The content of the pages that do not fail, page after page. */
  function SurvivingItems(paras: seq<Paragraph>, m: PageMap, pages: seq<int>, fails: int -> bool,
                          multimodal: bool, save: Saver): seq<Item>
  {
    if pages == [] then []
    else
      var rest := SurvivingItems(paras, m, pages[1..], fails, multimodal, save);
      if fails(pages[0]) || pages[0] !in m then rest
      else PageItems(paras, pages[0], m[pages[0]], multimodal, save) + rest
  }

  lemma {:induction false} SurvivingTexts(paras: seq<Paragraph>, m: PageMap, pages: seq<int>, fails: int -> bool,
                                          multimodal: bool, save: Saver)
    ensures var items := SurvivingItems(paras, m, pages, fails, multimodal, save);
      && Ink(Concat(TextsIn(items))) == SurvivingInk(paras, m, pages, fails)
      && (NoImages(paras) ==> ImagesIn(items) == [])
  {
    if pages != [] {
      SurvivingTexts(paras, m, pages[1..], fails, multimodal, save);
      if !fails(pages[0]) && pages[0] in m {
        var first := PageItems(paras, pages[0], m[pages[0]], multimodal, save);
        var rest := SurvivingItems(paras, m, pages[1..], fails, multimodal, save);
        PageItemsTexts(paras, pages[0], m[pages[0]], multimodal, save);
        TextsInAppend(first, rest);
        ImagesInAppend(first, rest);
        ConcatAppend(TextsIn(first), TextsIn(rest));
        InkConcat(Concat(TextsIn(first)), Concat(TextsIn(rest)));
      }
    }
  }

  lemma PageShown(paras: seq<Paragraph>, m: PageMap, p: int, fromPage: int, toPage: int, fails: int -> bool,
                  multimodal: bool, save: Saver, images: bool, urls: map<string, string>)
    requires fromPage <= p < toPage && (images ==> multimodal)
    requires !images ==> !HasImages(Workers(paras, m, fromPage, toPage, fails, multimodal, save)(p))
    ensures SectionTexts(FinalLines(Workers(paras, m, fromPage, toPage, fails, multimodal, save)(p), images, urls)) ==
      if fails(p) || p !in m then [] else OneSection(ShownItems(PageItems(paras, p, m[p], multimodal, save), urls))
  {
    if p in m && !fails(p) {
      if m[p] == [] {
        assert PageParts(paras, [], multimodal) == [];
      } else {
        WorkerShown(paras, p, m[p], fromPage, toPage, multimodal, save, images, urls);
      }
    }
  }

  lemma FinalLinesAppend(a: seq<LineData>, b: seq<LineData>, images: bool, urls: map<string, string>)
    ensures FinalLines(a + b, images, urls) == FinalLines(a, images, urls) + FinalLines(b, images, urls)
  {
  }

  lemma HasImagesAppend(a: seq<LineData>, b: seq<LineData>)
    ensures HasImages(a + b) <==> HasImages(a) || HasImages(b)
  {
    assert forall i | 0 <= i < |a| :: (a + b)[i] == a[i];
    assert forall i | 0 <= i < |b| :: (a + b)[i + |a|] == b[i];
  }

  lemma {:induction false} PagesShown(paras: seq<Paragraph>, m: PageMap, pages: seq<int>, fromPage: int, toPage: int,
      fails: int -> bool, multimodal: bool, save: Saver, images: bool, urls: map<string, string>)
    requires (forall p | p in pages :: fromPage <= p < toPage) && (images ==> multimodal)
    requires !images ==> !HasImages(Collected(pages, Workers(paras, m, fromPage, toPage, fails, multimodal, save)))
    ensures var sections := SectionTexts(FinalLines(
        Collected(pages, Workers(paras, m, fromPage, toPage, fails, multimodal, save)), images, urls));
      var shown := ShownItems(SurvivingItems(paras, m, pages, fails, multimodal, save), urls);
      Join(sections, GLUE) == Join(shown, GLUE) && (sections == [] <==> shown == [])
  {
    if pages != [] {
      var outcome := Workers(paras, m, fromPage, toPage, fails, multimodal, save);
      var p, rest := pages[0], Collected(pages[1..], outcome);
      assert p in pages;
      assert forall q | q in pages[1..] :: q in pages;
      HasImagesAppend(outcome(p), rest);
      PagesShown(paras, m, pages[1..], fromPage, toPage, fails, multimodal, save, images, urls);
      PageShown(paras, m, p, fromPage, toPage, fails, multimodal, save, images, urls);
      FinalLinesAppend(outcome(p), rest, images, urls);
      SectionsAppend(FinalLines(outcome(p), images, urls), FinalLines(rest, images, urls));
      var later := SurvivingItems(paras, m, pages[1..], fails, multimodal, save);
      var sections := SectionTexts(FinalLines(rest, images, urls));
      if !fails(p) && p in m {
        var items := PageItems(paras, p, m[p], multimodal, save);
        ShownAppend(items, later, urls);
        ShownNoneEmpty(items, urls);
        ShownNoneEmpty(later, urls);
        SectionsJoin(ShownItems(items, urls), ShownItems(later, urls), sections);
      } else {
        assert [] + sections == sections;
      }
    }
  }

  /** Only multimodal workers return images. */
  lemma {:induction false} ImagesAreMultimodal(paras: seq<Paragraph>, m: PageMap, pages: seq<int>, fromPage: int,
      toPage: int, fails: int -> bool, multimodal: bool, save: Saver)
    ensures HasImages(Collected(pages, Workers(paras, m, fromPage, toPage, fails, multimodal, save))) ==> multimodal
  {
    if pages != [] {
      var outcome := Workers(paras, m, fromPage, toPage, fails, multimodal, save);
      ImagesAreMultimodal(paras, m, pages[1..], fromPage, toPage, fails, multimodal, save);
      HasImagesAppend(outcome(pages[0]), Collected(pages[1..], outcome));
    }
  }

  lemma WorkersOneLine(paras: seq<Paragraph>, m: PageMap, pages: seq<int>, fromPage: int, toPage: int,
                       fails: int -> bool, multimodal: bool, save: Saver)
    ensures OneLinePerPage(pages, Workers(paras, m, fromPage, toPage, fails, multimodal, save))
  {
  }

  /** Whatever the completion order and whichever pages fail, the document text is
      what the surviving pages show, in document order, a blank line apart: the texts
      of the pages and between them the markup of the uploaded images. The texts are
      the ink of their paragraphs, and without images they are all there is. */
  lemma TextDocument(paras: seq<Paragraph>, m: PageMap, fromPage: int, toPage: int, order: seq<int>,
                     fails: int -> bool, multimodal: bool, save: Saver, upload: Uploader)
    requires NoRepeats(order) && forall p :: p in order <==> p in PagesToProcess(m, fromPage, toPage)
    ensures var pages := PagesToProcess(m, fromPage, toPage);
      var outcome := Workers(paras, m, fromPage, toPage, fails, multimodal, save);
      var text := ParsedText(Processed(Collected(order, outcome), upload));
      var items := SurvivingItems(paras, m, pages, fails, multimodal, save);
      && text == Join(ShownItems(items, Urls(Collected(pages, outcome), upload)), GLUE)
      && Ink(text) == Ink(Concat(ShownItems(items, Urls(Collected(pages, outcome), upload))))
      && Ink(Concat(TextsIn(items))) == SurvivingInk(paras, m, pages, fails)
      && (NoImages(paras) ==> Ink(text) == SurvivingInk(paras, m, pages, fails))
  {
    var outcome := Workers(paras, m, fromPage, toPage, fails, multimodal, save);
    var pages := PagesToProcess(m, fromPage, toPage);
    var lines := Collected(pages, outcome);
    var images, urls := HasImages(lines), Urls(lines, upload);
    var items := SurvivingItems(paras, m, pages, fails, multimodal, save);
    InRangeIncreasing(Sorted(m.Keys), fromPage, toPage);
    WorkersOneLine(paras, m, pages, fromPage, toPage, fails, multimodal, save);
    ScheduleIndependence(pages, order, outcome, upload);
    ImagesAreMultimodal(paras, m, pages, fromPage, toPage, fails, multimodal, save);
    PagesShown(paras, m, pages, fromPage, toPage, fails, multimodal, save, images, urls);
    JoinedTextsInk(ShownItems(items, urls));
    SurvivingTexts(paras, m, pages, fails, multimodal, save);
    if NoImages(paras) {
      ShownTexts(items, urls);
    }
  }

  predicate NoneFails(page: int) { false }

  function KeysBelow(m: PageMap, n: nat): seq<int> {
    if n == 0 then [] else KeysBelow(m, n - 1) + if n - 1 in m then [n - 1] else []
  }

  lemma {:induction false} KeysBelowAscending(m: PageMap, n: nat)
    ensures Ascending(KeysBelow(m, n))
    ensures forall p :: p in KeysBelow(m, n) <==> p in m && 0 <= p < n
  {
    if n > 0 {
      KeysBelowAscending(m, n - 1);
      var keys := KeysBelow(m, n - 1);
      forall i | 0 <= i < |keys| ensures keys[i] < n - 1 {
        assert keys[i] in keys;
      }
    }
  }

  function PageKey(p: int): real { p as real }

  lemma ProcessedPages(m: PageMap, n: nat)
    ensures PagesToProcess(m, 0, n) == KeysBelow(m, n)
  {
    KeysBelowAscending(m, n);
    InRangeIncreasing(Sorted(m.Keys), 0, n);
    var a, b := PagesToProcess(m, 0, n), KeysBelow(m, n);
    forall p ensures p in a <==> p in b {
    }
    SameIncreasing(a, b, PageKey);
  }

  lemma PickAppend(texts: seq<string>, a: seq<nat>, b: seq<nat>)
    ensures Ink(Concat(Pick(texts, a + b))) == Ink(Concat(Pick(texts, a))) + Ink(Concat(Pick(texts, b)))
  {
    assert Pick(texts, a + b) == Pick(texts, a) + Pick(texts, b);
    ConcatAppend(Pick(texts, a), Pick(texts, b));
    InkConcat(Concat(Pick(texts, a)), Concat(Pick(texts, b)));
  }

  /** The paragraph indices of the listed pages. */
  function Gather(m: PageMap, keys: seq<int>): seq<nat> {
    if keys == [] then []
    else if keys[0] in m then m[keys[0]] + Gather(m, keys[1..])
    else Gather(m, keys[1..])
  }

  lemma {:induction false} GatherAppend(m: PageMap, a: seq<int>, b: seq<int>)
    ensures Gather(m, a + b) == Gather(m, a) + Gather(m, b)
  {
    if a == [] {
      assert a + b == b;
    } else {
      GatherAppend(m, a[1..], b);
      assert (a + b)[1..] == a[1..] + b;
    }
  }

  lemma {:induction false} GatherBelow(m: PageMap, n: nat)
    ensures Gather(m, KeysBelow(m, n)) == Listed(m, n)
  {
    if n > 0 {
      GatherBelow(m, n - 1);
      if n - 1 in m {
        GatherAppend(m, KeysBelow(m, n - 1), [n - 1]);
        assert Gather(m, [n - 1][1..]) == [];
        assert Gather(m, [n - 1]) == m[n - 1] + [];
      } else {
        assert KeysBelow(m, n) == KeysBelow(m, n - 1) && Listed(m, n) == Listed(m, n - 1);
      }
    }
  }

  lemma {:induction false} AllSurvive(paras: seq<Paragraph>, m: PageMap, keys: seq<int>)
    ensures SurvivingInk(paras, m, keys, NoneFails) == Ink(ParagraphTexts(paras, Gather(m, keys)))
  {
    if keys != [] {
      AllSurvive(paras, m, keys[1..]);
      if keys[0] in m {
        PickAppend(CleanTexts(paras), m[keys[0]], Gather(m, keys[1..]));
      }
    }
  }

  lemma {:induction false} ListedIsPrefix(m: PageMap, n: nat, k: nat)
    requires n <= k
    ensures Listed(m, n) <= Listed(m, k)
    decreases k
  {
    if n < k {
      ListedIsPrefix(m, n, k - 1);
    }
  }

  /** The paragraphs of the pages below the limit are an initial run of the
      document, and the whole document if the limit is beyond its length. */
  lemma ReadIsPrefix(paras: seq<Paragraph>, toPage: nat)
    ensures var read := Listed(PageMapping(paras, toPage), toPage);
      read == UpTo(|read|) && |read| <= |paras| && (toPage > |paras| ==> |read| == |paras|)
  {
    var m := PageMapping(paras, toPage);
    var far := |paras| + 1 + toPage;
    MappingIsPrefix(paras, toPage, far);
    ListedIsPrefix(m, toPage, far);
    assert Listed(m, toPage) == UpTo(|Listed(m, toPage)|);
    if toPage > |paras| {
      MappingIsPrefix(paras, toPage, toPage);
      FewPagesMapAll(paras, toPage);
    }
  }

  /** A document without failures: for every completion order its text carries, in
      document order, the ink of the paragraphs of the pages below the limit, and
      between them the markup of the uploaded images. */
  lemma WholeDocument(paras: seq<Paragraph>, m: PageMap, toPage: nat, order: seq<int>,
                      multimodal: bool, save: Saver, upload: Uploader)
    requires m == PageMapping(paras, toPage)
    requires NoRepeats(order) && forall p :: p in order <==> p in PagesToProcess(m, 0, toPage)
    ensures var pages := PagesToProcess(m, 0, toPage);
      var outcome := Workers(paras, m, 0, toPage, NoneFails, multimodal, save);
      var text := ParsedText(Processed(Collected(order, outcome), upload));
      var items := SurvivingItems(paras, m, pages, NoneFails, multimodal, save);
      var read := Ink(ParagraphTexts(paras, UpTo(|Listed(m, toPage)|)));
      && text == Join(ShownItems(items, Urls(Collected(pages, outcome), upload)), GLUE)
      && Ink(text) == Ink(Concat(ShownItems(items, Urls(Collected(pages, outcome), upload))))
      && Ink(Concat(TextsIn(items))) == read
      && (NoImages(paras) ==> Ink(text) == read)
  {
    TextDocument(paras, m, 0, toPage, order, NoneFails, multimodal, save, upload);
    ProcessedPages(m, toPage);
    AllSurvive(paras, m, KeysBelow(m, toPage));
    GatherBelow(m, toPage);
    ReadIsPrefix(paras, toPage);
  }

  /** A limit above the number of paragraphs is never reached. */
  lemma FewPagesMapAll(paras: seq<Paragraph>, maxPage: int)
    requires maxPage >= |paras|
    ensures Mapped(paras, maxPage) == |paras|
  {
    if |paras| <= HEURISTIC_LIMIT {
      MappedAll(paras, 0, 0, maxPage);
    }
  }

  lemma {:induction false} MappedAll(paras: seq<Paragraph>, current: nat, i: nat, maxPage: int)
    requires i <= |paras| && current <= i && maxPage >= |paras|
    ensures MappedFrom(paras, current, i, maxPage) == |paras|
    decreases |paras| - i
  {
    if i < |paras| {
      MappedAll(paras, if paras[i].breaksPage then current + 1 else current, i + 1, maxPage);
    }
  }

  /** Every entry is the markup of an uploaded path. */
  ghost predicate MarkupOf(urls: map<string, string>, upload: Uploader) {
    forall p | p in urls :: Uploaded(p, upload) && urls[p] == Markup(upload(p).value)
  }

  lemma PathsNext(lines: seq<LineData>, i: nat)
    requires i < |lines|
    ensures Paths(lines[..i + 1]) == Paths(lines[..i]) + set p | p in lines[i].images
  {
    var a, b := lines[..i], lines[..i + 1];
    forall p | p in lines[i].images ensures p in Paths(b) {
      var j :| 0 <= j < |lines[i].images| && lines[i].images[j] == p;
      assert b[i].images[j] == p;
    }
    forall p | p in Paths(a) ensures p in Paths(b) {
      var k, j :| 0 <= k < |a| && 0 <= j < |a[k].images| && p == a[k].images[j];
      assert b[k].images[j] == p;
    }
    forall p | p in Paths(b) ensures p in Paths(a) || p in lines[i].images {
      var k, j :| 0 <= k < |b| && 0 <= j < |b[k].images| && p == b[k].images[j];
      if k < i {
        assert a[k].images[j] == p;
      }
    }
  }

  // ------------------------------------------------------------- the processor

  /** The document processor. Its fields are those that the source's Docx object
      updates while it works. */
  class Docx {
    var doc: Option<seq<Paragraph>>
    var paraPageMapping: PageMap
    var allLines: seq<LineData>
    const enableMultimodal: bool
    const upload: Uploader

    constructor (enableMultimodal: bool, upload: Uploader)
      ensures this.enableMultimodal == enableMultimodal && this.upload == upload
      ensures doc == None && allLines == [] && paraPageMapping == map[]
    {
      this.enableMultimodal, this.upload := enableMultimodal, upload;
      doc, paraPageMapping, allLines := None, map[], [];
    }

    method IdentifyPageParagraphMapping(maxPage: int) returns (m: PageMap)
      requires doc.Some?
      ensures m == PageMapping(doc.value, maxPage)
    {
      var paras := doc.value;
      if |paras| > HEURISTIC_LIMIT {
        m := HeuristicMapping(|paras|, maxPage);
        return;
      }
      m := StandardMapping(paras, maxPage);
      m := WithoutEmpty(m);
      if m == map[] {
        m := map[0 := UpTo(|paras|)];
      }
    }

    static method HeuristicMapping(total: nat, maxPage: int) returns (m: PageMap)
      ensures m == HeuristicFrom(map[0 := []], 0, total, maxPage)
    {
      m := map[0 := []];
      var i := 0;
      while i < total
        invariant HeuristicFrom(m, i, total, maxPage) == HeuristicFrom(map[0 := []], 0, total, maxPage)
      {
        var page := i / PARAGRAPHS_PER_PAGE;
        if page > maxPage {
          break;
        }
        ghost var before := m;
        if page !in m {
          m := m[page := []];
        }
        m := m[page := m[page] + [i]];
        assert m == Append(before, page, i);
        i := i + 1;
      }
    }

    static method StandardMapping(paras: seq<Paragraph>, maxPage: int) returns (m: PageMap)
      ensures m == StandardFrom(map[0 := []], 0, 0, paras, maxPage)
    {
      m := map[0 := []];
      var current, i := 0, 0;
      while i < |paras|
        invariant current in m
        invariant StandardFrom(m, current, i, paras, maxPage) == StandardFrom(map[0 := []], 0, 0, paras, maxPage)
      {
        m := m[current := m[current] + [i]];
        if paras[i].breaksPage {
          if current + 1 > maxPage {
            return;
          }
          current := current + 1;
          if current !in m {
            m := m[current := []];
          }
        }
        i := i + 1;
      }
    }

    /** The whole run on a document: loaded is the document, or None if it cannot
        be loaded; order is the order in which the submitted pages complete. */
    method Run(loaded: Option<seq<Paragraph>>, fromPage: int, toPage: int, order: seq<int>,
               fails: int -> bool, save: Saver)
      returns (lines: seq<LineData>)
      requires loaded.Some? ==>
        NoRepeats(order) && forall p :: p in order <==>
          p in PagesToProcess(PageMapping(loaded.value, toPage), fromPage, toPage)
      modifies this
      ensures loaded.None? ==> lines == []
      ensures loaded.Some? ==>
        var m := PageMapping(loaded.value, toPage);
        var done := Collected(PagesToProcess(m, fromPage, toPage),
                              Workers(loaded.value, m, fromPage, toPage, fails, enableMultimodal, save));
        WithText(lines) == WithText(FinalLines(done, HasImages(done), Urls(done, upload)))
    {
      doc := loaded;
      if doc.None? {
        return [];
      }
      ghost var paras := loaded.value;
      paraPageMapping := IdentifyPageParagraphMapping(toPage);
      var pages := PagesToProcess(paraPageMapping, fromPage, toPage);
      if pages == [] {
        return [];
      }
      var outcome := Workers(doc.value, paraPageMapping, fromPage, toPage, fails, enableMultimodal, save);
      InRangeIncreasing(Sorted(paraPageMapping.Keys), fromPage, toPage);
      ScheduleIndependence(pages, order, outcome, upload);
      CollectProcessResults(order, outcome);
      doc := None;
      return allLines;
    }

    /** Collects the workers' lines in completion order and finishes them. */
    method CollectProcessResults(order: seq<int>, outcome: Outcome)
      modifies this`allLines
      ensures allLines == Processed(Collected(order, outcome), upload)
    {
      var results: seq<LineData> := [];
      for i := 0 to |order|
        invariant results + Collected(order[i..], outcome) == Collected(order, outcome)
      {
        assert order[i..][0] == order[i] && order[i..][1..] == order[i + 1..];
        results := results + outcome(order[i]);
      }
      assert order[|order|..] == [] && results + [] == results;
      ProcessMultiprocessResults(results);
    }

    /** Uploads images, puts their markup into the texts and sorts by page. */
    method ProcessMultiprocessResults(results: seq<LineData>)
      modifies this`allLines
      ensures allLines == Processed(results, upload)
    {
      var processed := results;
      if HasImages(results) {
        var urls, page := UploadImages(results, upload);
        processed := RebuildLines(results, page, urls);
      }
      allLines := SortBy(processed, ByPage);
    }

    static method UploadLine(line: LineData, urls0: map<string, string>, upload: Uploader)
      returns (urls: map<string, string>)
      requires MarkupOf(urls0, upload)
      ensures MarkupOf(urls, upload)
      ensures urls.Keys == urls0.Keys + set p | p in line.images && Uploaded(p, upload)
    {
      urls := urls0;
      for j := 0 to |line.images|
        invariant MarkupOf(urls, upload)
        invariant urls.Keys == urls0.Keys + set p | p in line.images[..j] && Uploaded(p, upload)
      {
        var path := line.images[j];
        assert line.images[..j + 1] == line.images[..j] + [path];
        if path != [] && path !in urls {
          var url := upload(path);
          if url.Some? {
            urls := urls[path := Markup(url.value)];
          }
        }
      }
      assert line.images[..|line.images|] == line.images;
    }

    static method UploadImages(lines: seq<LineData>, upload: Uploader)
      returns (urls: map<string, string>, page: int)
      requires HasImages(lines)
      ensures urls == Urls(lines, upload) && page == LastImagePage(lines)
    {
      urls, page := map[], 0;
      for i := 0 to |lines|
        invariant MarkupOf(urls, upload)
        invariant urls.Keys == set p | p in Paths(lines[..i]) && Uploaded(p, upload)
        invariant page == LastImagePage(lines[..i])
      {
        PathsNext(lines, i);
        assert lines[..i + 1][..i] == lines[..i];
        if lines[i].images != [] {
          urls := UploadLine(lines[i], urls, upload);
          page := lines[i].pageNum;
        }
      }
      assert lines[..|lines|] == lines;
    }

    static method RebuildLines(lines: seq<LineData>, stale: int, urls: map<string, string>)
      returns (r: seq<LineData>)
      ensures r == Rebuild(lines, stale, urls)
    {
      r := [];
      var page := stale;
      for i := 0 to |lines|
        invariant r + Rebuild(lines[i..], page, urls) == Rebuild(lines, stale, urls)
      {
        var line := lines[i];
        RebuildStep(lines, i, page, urls);
        if line.content != [] {
          page := line.pageNum;
        }
        var rebuilt := LineData(FinalText(line.content, urls), line.images, page, []);
        Associate(r, [rebuilt], Rebuild(lines[i + 1..], page, urls));
        r := r + [rebuilt];
      }
    }
  }
}
