/** The lines of a DOCX page and of the whole document, paragraph by paragraph. */
module DocxLines {
  import opened DocxPages
  import opened DocxResults
  import opened Ordering
  import opened Text
  import opened Wrappers

  // ------------------------------------------------------------ stripped texts

  /** The text without the white space around it, ideographic spaces inside it
      turned into blanks. */
  ghost predicate IsStripped(line: string, text: string) {
    && line != [] && !IsSpace(line[0]) && !IsSpace(line[|line| - 1])
    && exists k: nat :: StripsAt(line, text, k)
  }

  ghost predicate StripsAt(line: string, text: string, k: nat) {
    && k + |line| <= |text| && AllOf(text[..k], IsSpace) && AllOf(text[k + |line|..], IsSpace)
    && forall i | 0 <= i < |line| :: line[i] == if text[k + i] == '\U{3000}' then ' ' else text[k + i]
  }

  /** This determines the line. */
  lemma StrippedOnce(a: string, b: string, text: string)
    requires IsStripped(a, text) && IsStripped(b, text)
    ensures a == b
  {
    var j: nat :| StripsAt(a, text, j);
    var k: nat :| StripsAt(b, text, k);
    StripsFrom(a, text, j, k, b);
    StripsFrom(b, text, k, j, a);
    StripsTo(a, text, j, b);
    StripsTo(b, text, k, a);
  }

  lemma StripsFrom(a: string, text: string, j: nat, k: nat, b: string)
    requires IsStripped(a, text) && StripsAt(a, text, j) && StripsAt(b, text, k)
    ensures k <= j
  {
    assert a[0] == if text[j + 0] == '\U{3000}' then ' ' else text[j + 0];
    assert !IsSpace(text[j]);
    forall i | 0 <= i < k ensures IsSpace(text[i]) {
      assert text[..k][i] == text[i];
    }
  }

  lemma StripsTo(a: string, text: string, k: nat, b: string)
    requires IsStripped(a, text) && StripsAt(a, text, k) && StripsAt(b, text, k)
    ensures |a| <= |b|
  {
    var last := |a| - 1;
    assert a[last] == if text[k + last] == '\U{3000}' then ' ' else text[k + last];
    assert !IsSpace(text[k + last]);
    forall i | k + |b| <= i < |text| ensures IsSpace(text[i]) {
      assert text[k + |b|..][i - k - |b|] == text[i];
    }
  }

  lemma PlainSpacesEnds(t: string)
    requires t != [] && !IsSpace(t[0]) && !IsSpace(t[|t| - 1])
    ensures Trim(PlainSpaces(t), IsSpace) == PlainSpaces(t)
  {
    TrimNothing(PlainSpaces(t), IsSpace);
  }

  lemma CleanIsStripped(text: string)
    requires !AllOf(text, IsSpace)
    ensures IsStripped(Clean(text), text)
  {
    var t := Trim(text, IsSpace);
    var before, after := TrimParts(text, IsSpace);
    TrimEmptyIff(text, IsSpace);
    PlainSpacesEnds(t);
    assert text == before + (t + after);
    assert text[..|before|] == before && text[|before| + |t|..] == after;
    assert forall i | 0 <= i < |t| :: text[|before| + i] == t[i];
    assert StripsAt(Clean(text), text, |before|);
  }

  // ------------------------------------------------------------------- full lines

  /** The lines that a line feed ends. */
  function FullLines(text: string): seq<string> {
    var lines := Split(text, '\n');
    lines[..|lines| - 1]
  }

  /** Empty, or ending in a line feed. */
  predicate Ended(text: string) { text == [] || text[|text| - 1] == '\n' }

  lemma {:induction false} SplitAt(a: string, b: string)
    ensures Split(a + "\n" + b, '\n') == Split(a, '\n') + Split(b, '\n')
  {
    if a == [] {
      assert a + "\n" + b == ['\n'] + b;
      SplitCons('\n', b);
    } else {
      var c, rest := a[0], a[1..];
      SplitAt(rest, b);
      assert a + "\n" + b == [c] + (rest + "\n" + b) && a == [c] + rest;
      SplitCons(c, rest + "\n" + b);
      SplitCons(c, rest);
      GrowFirst(c, Split(rest, '\n'), Split(b, '\n'));
    }
  }

  lemma SplitCons(c: char, s: string)
    ensures var r := Split(s, '\n');
      Split([c] + s, '\n') == if c == '\n' then [[]] + r else [[c] + r[0]] + r[1..]
  {
    assert ([c] + s)[1..] == s;
  }

  lemma GrowFirst(c: char, x: seq<string>, y: seq<string>)
    requires x != []
    ensures [[c] + (x + y)[0]] + (x + y)[1..] == [[c] + x[0]] + x[1..] + y
    ensures [[]] + (x + y) == [[]] + x + y
  {
    assert (x + y)[1..] == x[1..] + y;
  }

  lemma EndedLines(a: string)
    ensures FullLines(a + "\n") == Split(a, '\n') && Split(a + "\n", '\n') == Split(a, '\n') + [""]
  {
    SplitAt(a, "");
    assert a + "\n" + "" == a + "\n";
  }

  lemma EndedSplit(text: string)
    requires Ended(text)
    ensures Split(text, '\n') == FullLines(text) + [""]
  {
    if text != [] {
      var u := text[..|text| - 1];
      assert text == u + "\n";
      EndedLines(u);
    }
  }

  /** Text after a line feed starts a new line. */
  lemma FullLinesAppend(a: string, b: string)
    requires Ended(a)
    ensures FullLines(a + b) == FullLines(a) + FullLines(b)
  {
    if a == [] {
      assert a + b == b && FullLines(a) == [];
    } else {
      var u := a[..|a| - 1];
      assert a == u + "\n" && a + b == u + "\n" + b;
      SplitAt(u, b);
      EndedLines(u);
      var x, y := Split(u, '\n'), Split(b, '\n');
      assert (x + y)[..|x + y| - 1] == x + y[..|y| - 1];
    }
  }

  // -------------------------------------------------------------- one paragraph

  /** The lines of a paragraph: those of its stripped text, none if it is blank. */
  function LinesOf(p: Paragraph): seq<string> {
    if AllOf(p.text, IsSpace) then [] else Split(Clean(p.text), '\n')
  }

  lemma ParagraphLines(p: Paragraph)
    ensures Ended(ParagraphText(p)) && FullLines(ParagraphText(p)) == LinesOf(p)
  {
    TrimEmptyIff(p.text, IsSpace);
    EndedLines(Clean(p.text));
  }

  /** A paragraph without inner line feeds is one line, its stripped text. */
  lemma OneLine(p: Paragraph)
    requires '\n' !in p.text && !AllOf(p.text, IsSpace)
    ensures |LinesOf(p)| == 1 && IsStripped(LinesOf(p)[0], p.text)
  {
    CleanIsStripped(p.text);
    var line := Clean(p.text);
    var k: nat :| StripsAt(line, p.text, k);
    forall i | 0 <= i < |line| ensures line[i] != '\n' {
      assert p.text[k + i] in p.text;
    }
    SplitOne(line, '\n');
  }

  // ------------------------------------------------------------------- one page

  /** What a reader of the content of a page sees: lines and images. */
  datatype Shown = LineShown(text: string) | ImageShown(image: string)

  function AsLine(text: string): Shown { LineShown(text) }

  function PartShown(part: Part): seq<Shown> {
    match part
    case TextPart(text) => Each(AsLine, FullLines(text))
    case ImagePart(image) => [ImageShown(image)]
  }

  function PartsShown(parts: seq<Part>): seq<Shown> { Flatten(Each(PartShown, parts)) }

  /** The lines of a paragraph, then its image, if images are wanted. */
  function ParagraphShown(p: Paragraph, multimodal: bool): seq<Shown> {
    Each(AsLine, LinesOf(p)) + (if multimodal && p.image.Some? then [ImageShown(p.image.value)] else [])
  }

  /** The paragraphs with the given numbers that exist. */
  function Existing(paras: seq<Paragraph>, indices: seq<nat>): seq<Paragraph> {
    if indices == [] then []
    else if indices[0] < |paras| then [paras[indices[0]]] + Existing(paras, indices[1..])
    else Existing(paras, indices[1..])
  }

  function ParagraphsShown(ps: seq<Paragraph>, multimodal: bool): seq<Shown> {
    if ps == [] then [] else ParagraphShown(ps[0], multimodal) + ParagraphsShown(ps[1..], multimodal)
  }

  ghost predicate AllEnded(parts: seq<Part>) {
    forall i | 0 <= i < |parts| && parts[i].TextPart? :: Ended(parts[i].text)
  }

  function ShownSoFar(e: Extract): seq<Shown> { PartsShown(e.parts) + Each(AsLine, FullLines(e.current)) }

  lemma EachAppend<A, B>(f: A -> B, a: seq<A>, b: seq<A>)
    ensures Each(f, a + b) == Each(f, a) + Each(f, b)
  {
  }

  lemma PartsShownNext(parts: seq<Part>, part: Part)
    ensures PartsShown(parts + [part]) == PartsShown(parts) + PartShown(part)
  {
    EachAppend(PartShown, parts, [part]);
    assert Each(PartShown, [part]) == [PartShown(part)];
    FlattenSnoc(Each(PartShown, parts), PartShown(part));
  }

  lemma RunShown(e: Extract)
    ensures PartsShown(e.parts + TextRun(e.current)) == ShownSoFar(e)
  {
    if e.current == [] {
      assert e.parts + [] == e.parts && FullLines("") == [];
    } else {
      PartsShownNext(e.parts, TextPart(e.current));
    }
  }

  lemma EndedAppend(a: string, b: string)
    requires Ended(a) && Ended(b)
    ensures Ended(a + b)
  {
    if b == [] {
      assert a + b == a;
    }
  }

  lemma AddShows(e: Extract, text: string, image: Option<string>)
    requires Ended(e.current) && Ended(text) && AllEnded(e.parts)
    ensures var r := Add(e, text, image);
      && Ended(r.current) && AllEnded(r.parts)
      && ShownSoFar(r) == ShownSoFar(e)
          + (Each(AsLine, FullLines(text)) + if image.Some? then [ImageShown(image.value)] else [])
  {
    var current := e.current + text;
    EndedAppend(e.current, text);
    FullLinesAppend(e.current, text);
    EachAppend(AsLine, FullLines(e.current), FullLines(text));
    var lines := Each(AsLine, FullLines(text));
    Associate(PartsShown(e.parts), Each(AsLine, FullLines(e.current)), lines);
    assert ShownSoFar(Extract(e.parts, current)) == ShownSoFar(e) + lines;
    if image.Some? {
      RunShown(Extract(e.parts, current));
      PartsShownNext(e.parts + TextRun(current), ImagePart(image.value));
      assert FullLines("") == [];
      Associate(ShownSoFar(e), lines, [ImageShown(image.value)]);
    } else {
      assert lines + [] == lines;
    }
  }

  lemma {:induction false} ExtractShows(paras: seq<Paragraph>, indices: seq<nat>, e: Extract, multimodal: bool)
    requires Ended(e.current) && AllEnded(e.parts)
    ensures var r := ExtractFrom(paras, indices, e, multimodal);
      && Ended(r.current) && AllEnded(r.parts)
      && ShownSoFar(r) == ShownSoFar(e) + ParagraphsShown(Existing(paras, indices), multimodal)
    decreases |indices|
  {
    if indices != [] {
      var later := Existing(paras, indices[1..]);
      if indices[0] < |paras| {
        var p := paras[indices[0]];
        ParagraphLines(p);
        AddShows(e, ParagraphText(p), WantedImage(p, multimodal));
        ExtractShows(paras, indices[1..], Step(e, p, multimodal), multimodal);
        assert Existing(paras, indices)[1..] == later;
        Associate(ShownSoFar(e), ParagraphShown(p, multimodal), ParagraphsShown(later, multimodal));
      } else {
        ExtractShows(paras, indices[1..], e, multimodal);
      }
    }
  }

  /** Read line by line, the content of a page is, in document order, the lines of
      its paragraphs and their images; every text ends in a line feed. */
  lemma PageReadsBack(paras: seq<Paragraph>, indices: seq<nat>, multimodal: bool)
    ensures PartsShown(PageParts(paras, indices, multimodal))
      == ParagraphsShown(Existing(paras, indices), multimodal)
    ensures AllEnded(PageParts(paras, indices, multimodal))
  {
    var start := Extract([], []);
    var e := ExtractFrom(paras, indices, start, multimodal);
    assert FullLines("") == [] && ShownSoFar(start) == [];
    ExtractShows(paras, indices, start, multimodal);
    RunShown(e);
    assert [] + ParagraphsShown(Existing(paras, indices), multimodal)
        == ParagraphsShown(Existing(paras, indices), multimodal);
    assert AllEnded(Finish(e));
  }

  // ------------------------------------------------------- the lines of its texts

  function ParagraphsLines(ps: seq<Paragraph>): seq<string> { Flatten(Each(LinesOf, ps)) }

  /** The lines among what is shown. */
  function LinesIn(shown: seq<Shown>): seq<string> {
    if shown == [] then []
    else if shown[0].LineShown? then [shown[0].text] + LinesIn(shown[1..])
    else LinesIn(shown[1..])
  }

  lemma {:induction false} LinesInAppend(a: seq<Shown>, b: seq<Shown>)
    ensures LinesIn(a + b) == LinesIn(a) + LinesIn(b)
  {
    if a == [] {
      assert a + b == b;
    } else {
      LinesInAppend(a[1..], b);
      assert (a + b)[0] == a[0] && (a + b)[1..] == a[1..] + b;
    }
  }

  lemma {:induction false} LinesInLines(lines: seq<string>)
    ensures LinesIn(Each(AsLine, lines)) == lines
  {
    if lines != [] {
      EachCons(AsLine, lines);
      LinesInLines(lines[1..]);
      var rest := Each(AsLine, lines[1..]);
      assert ([AsLine(lines[0])] + rest)[1..] == rest;
    }
  }

  lemma {:induction false} LinesOfShown(ps: seq<Paragraph>, multimodal: bool)
    ensures LinesIn(ParagraphsShown(ps, multimodal)) == ParagraphsLines(ps)
  {
    if ps != [] {
      var p := ps[0];
      var image := if multimodal && p.image.Some? then [ImageShown(p.image.value)] else [];
      LinesOfShown(ps[1..], multimodal);
      LinesInAppend(ParagraphShown(p, multimodal), ParagraphsShown(ps[1..], multimodal));
      LinesInAppend(Each(AsLine, LinesOf(p)), image);
      LinesInLines(LinesOf(p));
      assert image != [] ==> image[1..] == [];
      EachCons(LinesOf, ps);
      FlattenCons(LinesOf(p), Each(LinesOf, ps[1..]));
    }
  }

  lemma {:induction false} LinesOfParts(parts: seq<Part>)
    ensures LinesIn(PartsShown(parts)) == Flatten(Each(FullLines, TextsOf(parts)))
  {
    if parts != [] {
      var texts := TextsOf(parts[1..]);
      LinesOfParts(parts[1..]);
      EachCons(PartShown, parts);
      FlattenCons(PartShown(parts[0]), Each(PartShown, parts[1..]));
      LinesInAppend(PartShown(parts[0]), PartsShown(parts[1..]));
      match parts[0]
      case TextPart(text) =>
        LinesInLines(FullLines(text));
        EachCons(FullLines, [text] + texts);
        FlattenCons(FullLines(text), Each(FullLines, texts));
      case ImagePart(image) =>
        assert [ImageShown(image)][1..] == [];
    }
  }

  /** The lines of the texts of a page are those of its paragraphs. */
  lemma PageTextLines(paras: seq<Paragraph>, indices: seq<nat>, multimodal: bool)
    ensures Flatten(Each(FullLines, TextsOf(PageParts(paras, indices, multimodal))))
      == ParagraphsLines(Existing(paras, indices))
  {
    PageReadsBack(paras, indices, multimodal);
    LinesOfParts(PageParts(paras, indices, multimodal));
    LinesOfShown(Existing(paras, indices), multimodal);
  }

  lemma {:induction false} OnlyTexts(parts: seq<Part>)
    requires ImagesOf(parts) == []
    ensures forall i | 0 <= i < |parts| :: parts[i].TextPart?
  {
    if parts != [] {
      OnlyTexts(parts[1..]);
      assert forall i | 0 < i < |parts| :: parts[i] == parts[1..][i - 1];
    }
  }

  lemma NoImageParts(parts: seq<Part>)
    requires ImagesOf(parts) == [] && Alternating(parts)
    ensures |parts| <= 1 && TextsOf(parts) == if parts == [] then [] else [parts[0].text]
  {
    OnlyTexts(parts);
    if |parts| == 1 {
      assert parts[1..] == [];
    }
  }

  /** A page without images: its text is the lines of its paragraphs, in order, each
      ended by a line feed, and nothing else. */
  lemma PlainPage(paras: seq<Paragraph>, indices: seq<nat>, multimodal: bool)
    requires ImagesOf(PageParts(paras, indices, multimodal)) == []
    ensures Split(Join(TextsOf(PageParts(paras, indices, multimodal)), "\n\n"), '\n')
      == ParagraphsLines(Existing(paras, indices)) + [""]
  {
    var parts := PageParts(paras, indices, multimodal);
    PageContent(paras, indices, multimodal);
    NoImageParts(parts);
    PageReadsBack(paras, indices, multimodal);
    PageTextLines(paras, indices, multimodal);
    if parts == [] {
      EndedSplit("");
      assert Each(FullLines, TextsOf(parts)) == [];
    } else {
      EndedSplit(parts[0].text);
      OneTextLines(parts[0].text);
    }
  }

  lemma OneTextLines(text: string)
    ensures Flatten(Each(FullLines, [text])) == FullLines(text)
  {
    assert Each(FullLines, [text]) == [FullLines(text)];
    FlattenOne(FullLines(text));
  }

  // ---------------------------------------------------------------- the document

  predicate IsBlankText(s: string) { AllOf(s, IsSpace) }

  /** The lines of a text that are not blank. */
  function NonBlank(text: string): seq<string> { Without(Split(text, '\n'), IsBlankText) }

  lemma NonBlankGlue(a: string, b: string)
    ensures NonBlank(a + GLUE + b) == NonBlank(a) + NonBlank(b)
  {
    assert a + GLUE + b == a + "\n" + ("" + "\n" + b);
    SplitAt(a, "" + "\n" + b);
    SplitAt("", b);
    var x, y := Split(a, '\n'), Split(b, '\n');
    WithoutAppend(x, [""] + y, IsBlankText);
    WithoutCons("", y, IsBlankText);
  }

  lemma {:induction false} NonBlankJoin(texts: seq<string>)
    ensures NonBlank(Join(texts, GLUE)) == Flatten(Each(NonBlank, texts))
  {
    if texts == [] {
      assert NonBlank("") == [];
    } else {
      EachCons(NonBlank, texts);
      FlattenCons(NonBlank(texts[0]), Each(NonBlank, texts[1..]));
      NonBlankJoin(texts[1..]);
      if |texts| == 1 {
        assert texts[1..] == [] && Each(NonBlank, texts[1..]) == [];
      } else {
        NonBlankGlue(texts[0], Join(texts[1..], GLUE));
      }
    }
  }

  lemma NonBlankFull(text: string)
    requires Ended(text)
    ensures NonBlank(text) == Without(FullLines(text), IsBlankText)
  {
    EndedSplit(text);
    WithoutAppend(FullLines(text), [""], IsBlankText);
  }

  ghost predicate EndedTexts(texts: seq<string>) { forall i | 0 <= i < |texts| :: Ended(texts[i]) }

  lemma {:induction false} NonBlankTexts(texts: seq<string>)
    requires EndedTexts(texts)
    ensures Flatten(Each(NonBlank, texts)) == Without(Flatten(Each(FullLines, texts)), IsBlankText)
  {
    if texts != [] {
      assert EndedTexts(texts[1..]) by {
        assert forall i | 0 <= i < |texts[1..]| :: texts[1..][i] == texts[i + 1];
      }
      NonBlankTexts(texts[1..]);
      NonBlankFull(texts[0]);
      EachCons(NonBlank, texts);
      EachCons(FullLines, texts);
      FlattenCons(NonBlank(texts[0]), Each(NonBlank, texts[1..]));
      FlattenCons(FullLines(texts[0]), Each(FullLines, texts[1..]));
      WithoutAppend(FullLines(texts[0]), Flatten(Each(FullLines, texts[1..])), IsBlankText);
    }
  }

  lemma {:induction false} PartTextsEnded(parts: seq<Part>)
    requires AllEnded(parts)
    ensures EndedTexts(TextsOf(parts))
  {
    if parts != [] {
      assert forall i | 0 <= i < |parts[1..]| :: parts[1..][i] == parts[i + 1];
      PartTextsEnded(parts[1..]);
    }
  }

  /** The lines, blank ones left out, of the paragraphs of the pages that do not
      fail, page after page. */
  function SurvivingLines(paras: seq<Paragraph>, m: PageMap, pages: seq<int>, fails: int -> bool): seq<string> {
    if pages == [] then []
    else
      var rest := SurvivingLines(paras, m, pages[1..], fails);
      if fails(pages[0]) || pages[0] !in m then rest
      else Without(ParagraphsLines(Existing(paras, m[pages[0]])), IsBlankText) + rest
  }

  lemma PageItemLines(paras: seq<Paragraph>, page: int, indices: seq<nat>, multimodal: bool, save: Saver)
    ensures Flatten(Each(NonBlank, TextsIn(PageItems(paras, page, indices, multimodal, save))))
      == Without(ParagraphsLines(Existing(paras, indices)), IsBlankText)
  {
    var parts := PageParts(paras, indices, multimodal);
    SavedFewer(ImagesOf(parts), 0, page, save);
    ItemsKeepOrder(parts, SavedOf(parts, page, multimodal, save));
    PageReadsBack(paras, indices, multimodal);
    PartTextsEnded(parts);
    NonBlankTexts(TextsOf(parts));
    PageTextLines(paras, indices, multimodal);
  }

  lemma {:induction false} SurvivingTextLines(
    paras: seq<Paragraph>, m: PageMap, pages: seq<int>, fails: int -> bool, multimodal: bool, save: Saver)
    ensures Flatten(Each(NonBlank, TextsIn(SurvivingItems(paras, m, pages, fails, multimodal, save))))
      == SurvivingLines(paras, m, pages, fails)
  {
    if pages != [] {
      var p := pages[0];
      SurvivingTextLines(paras, m, pages[1..], fails, multimodal, save);
      if !fails(p) && p in m {
        var first := PageItems(paras, p, m[p], multimodal, save);
        var rest := SurvivingItems(paras, m, pages[1..], fails, multimodal, save);
        PageItemLines(paras, p, m[p], multimodal, save);
        TextsInAppend(first, rest);
        EachAppend(NonBlank, TextsIn(first), TextsIn(rest));
        FlattenAppend(Each(NonBlank, TextsIn(first)), Each(NonBlank, TextsIn(rest)));
      }
    }
  }

  lemma {:induction false} OnlyTextsShown(content: seq<Item>, urls: map<string, string>)
    requires ImagesIn(content) == []
    ensures Flatten(Each(NonBlank, ShownItems(content, urls))) == Flatten(Each(NonBlank, TextsIn(content)))
  {
    if content != [] {
      OnlyTextsShown(content[1..], urls);
      var text, shown, texts := content[0].text, ShownItems(content[1..], urls), TextsIn(content[1..]);
      EachCons(NonBlank, [text] + texts);
      FlattenCons(NonBlank(text), Each(NonBlank, texts));
      if text == [] {
        assert NonBlank("") == [];
        assert ShownItem(content[0], urls) + shown == shown;
      } else {
        EachCons(NonBlank, [text] + shown);
        FlattenCons(NonBlank(text), Each(NonBlank, shown));
      }
    }
  }

  /** Whatever the completion order and whichever pages fail, the lines of the
      document text that are not blank are, in document order, those of all that the
      surviving pages show; those of their texts are the lines of their paragraphs,
      and without images there are no others. */
  lemma DocumentLines(paras: seq<Paragraph>, m: PageMap, fromPage: int, toPage: int, order: seq<int>,
                      fails: int -> bool, multimodal: bool, save: Saver, upload: Uploader)
    requires NoRepeats(order) && forall p :: p in order <==> p in PagesToProcess(m, fromPage, toPage)
    ensures var pages := PagesToProcess(m, fromPage, toPage);
      var outcome := Workers(paras, m, fromPage, toPage, fails, multimodal, save);
      var text := ParsedText(Processed(Collected(order, outcome), upload));
      var items := SurvivingItems(paras, m, pages, fails, multimodal, save);
      && NonBlank(text) == Flatten(Each(NonBlank, ShownItems(items, Urls(Collected(pages, outcome), upload))))
      && Flatten(Each(NonBlank, TextsIn(items))) == SurvivingLines(paras, m, pages, fails)
      && (NoImages(paras) ==> NonBlank(text) == SurvivingLines(paras, m, pages, fails))
  {
    var pages := PagesToProcess(m, fromPage, toPage);
    var outcome := Workers(paras, m, fromPage, toPage, fails, multimodal, save);
    var urls := Urls(Collected(pages, outcome), upload);
    var items := SurvivingItems(paras, m, pages, fails, multimodal, save);
    TextDocument(paras, m, fromPage, toPage, order, fails, multimodal, save, upload);
    NonBlankJoin(ShownItems(items, urls));
    SurvivingTextLines(paras, m, pages, fails, multimodal, save);
    SurvivingTexts(paras, m, pages, fails, multimodal, save);
    if NoImages(paras) {
      OnlyTextsShown(items, urls);
    }
  }

  // ------------------------------------------------------------ nothing fails

  lemma {:induction false} ExistingAppend(paras: seq<Paragraph>, a: seq<nat>, b: seq<nat>)
    ensures Existing(paras, a + b) == Existing(paras, a) + Existing(paras, b)
  {
    if a == [] {
      assert a + b == b;
    } else {
      ExistingAppend(paras, a[1..], b);
      assert (a + b)[0] == a[0] && (a + b)[1..] == a[1..] + b;
    }
  }

  lemma {:induction false} AllSurviveLines(paras: seq<Paragraph>, m: PageMap, keys: seq<int>)
    ensures SurvivingLines(paras, m, keys, NoneFails)
      == Without(ParagraphsLines(Existing(paras, Gather(m, keys))), IsBlankText)
  {
    if keys != [] {
      AllSurviveLines(paras, m, keys[1..]);
      if keys[0] in m {
        var a, b := Existing(paras, m[keys[0]]), Existing(paras, Gather(m, keys[1..]));
        ExistingAppend(paras, m[keys[0]], Gather(m, keys[1..]));
        EachAppend(LinesOf, a, b);
        FlattenAppend(Each(LinesOf, a), Each(LinesOf, b));
        WithoutAppend(ParagraphsLines(a), ParagraphsLines(b), IsBlankText);
      }
    }
  }

  lemma {:induction false} ExistingPrefix(paras: seq<Paragraph>, n: nat)
    requires n <= |paras|
    ensures Existing(paras, UpTo(n)) == paras[..n]
  {
    if n > 0 {
      ExistingPrefix(paras, n - 1);
      assert UpTo(n) == UpTo(n - 1) + [n - 1];
      ExistingAppend(paras, UpTo(n - 1), [n - 1]);
      assert [n - 1][1..] == [] && Existing(paras, [n - 1]) == [paras[n - 1]];
    }
  }

  /** A document without images and failures: for every completion order the lines
      of its text are those of the paragraphs of the pages below the limit, an initial
      run of the document, in order, but for blank ones. */
  lemma WholeDocumentLines(paras: seq<Paragraph>, m: PageMap, toPage: nat, order: seq<int>,
                           multimodal: bool, save: Saver, upload: Uploader)
    requires m == PageMapping(paras, toPage) && NoImages(paras)
    requires NoRepeats(order) && forall p :: p in order <==> p in PagesToProcess(m, 0, toPage)
    ensures |Listed(m, toPage)| <= |paras|
    ensures NonBlank(ParsedText(Processed(Collected(order, Workers(paras, m, 0, toPage, NoneFails, multimodal, save)),
                                          upload)))
      == Without(ParagraphsLines(paras[..|Listed(m, toPage)|]), IsBlankText)
  {
    DocumentLines(paras, m, 0, toPage, order, NoneFails, multimodal, save, upload);
    ProcessedPages(m, toPage);
    AllSurviveLines(paras, m, KeysBelow(m, toPage));
    GatherBelow(m, toPage);
    ReadIsPrefix(paras, toPage);
    ExistingPrefix(paras, |Listed(m, toPage)|);
  }

  /** A text is shown as it is unless it is empty; a saved image is shown as an
      inline image if it has a path and the upload of it gives an address. */
  lemma ItemIsShown(item: Item, lines: seq<LineData>, upload: Uploader)
    requires item.ImageItem? ==> exists line | line in lines :: item.path in line.images
    ensures ShownItem(item, Urls(lines, upload)) ==
      match item
      case TextItem(text) => (if text == [] then [] else [text])
      case ImageItem(path) =>
        (if path != [] && upload(path).Some? then ["![](" + upload(path).value + ")"] else [])
  {
    if item.ImageItem? {
      var line :| line in lines && item.path in line.images;
      var i :| 0 <= i < |lines| && lines[i] == line;
      assert item.path in Paths(lines);
    }
  }
}
