# Verified model of the document reader and the stream client

The document reader (`docreader/`) turns PDF, DOCX and MHTML files into markdown, and
the Go client (`client/`) reads answers as a stream of server-sent events. This project models
the parts of that code that decide what ends up in the text: which glyphs, lines,
rows, images and events survive, in which order, and under which locks. Every
operation is a function (or a method proved equal to a function where the original
runs a loop or assigns fields), and the theorems are about these functions, for all
inputs and, for the locks, for all interleavings.

To check the whole project with Dafny 4.11, run `dafny verify dfyconfig.toml` here.

## What is modelled

**PDF pages.** `Glyphs` is the page as the text layer delivers it. `ColumnSplit` is
the recursive widest-gutter split, `LineGrouping` the greedy baseline grouping,
`TextLines` the joining of glyphs into lines, `LineWords` the words of a line,
`PageText` the merging of orphan punctuation and the choice of headings, `Histogram`
the two passes of the column detector, `ReadingOrder` the reading order around
full-width blocks, and
`PageLayout` the whole page. The main results: the recursion is one left-to-right
sweep over the clean gaps exactly when their cut tree has at most eleven levels
(`ColumnSplit.SplitIsFullSweep`), and a page of thirteen glyphs is too deep for it
(`ColumnSplit.TooDeepPage`); no grouping of the glyphs within the span bound has
fewer lines than the greedy one (`LineGrouping.GroupsOptimal`); and every glyph of
the columns that are read is written exactly once, in reading order, with nothing
added but the marks of the few headings, each at the start of its line
(`PageLayout.GutterPathConserves`, `PageLayout.HistogramPathConserves`). On the
histogram path a glyph is written twice if two blocks hold its centre; `DoubledGlyphs`
is a page on which that happens.

Further modules say the same in coordinates, widths, heights and texts, so that a
page can be read off without the functions of the model: `Gutters` which glyphs share a
column, `ReadingRows` how a column is read in rows, `MarginStrips` which columns are
left out as margin strips, `ColumnValleys` how many columns the histogram shows,
`WideBlocks` which lines become full-width blocks and what these hold, `PagePaths`
which pages are read around them, and `PageLines` the lines of the markdown with
their heading levels.

**PDF text filters and images.** `TextStrippers` holds the two line filters and
proves exactly which lines each of them drops, in `DroppedLines` by position;
`EmbeddedImages` is the image selection, and `ImageChoice` says which images that is.

**PDF tables.** `TablePrinter` prints tables and reads them back with the header
reader and the damage detector. `TableMerge` merges tables across pages. For every
input the data rows written and the data rows of the tables beside a continuation that
is taken are together exactly the rows of all pages (`TableMerge.RowsConserved`). The
main result gives the exact condition on the input: each data row is written exactly
once if and only if no table takes a continuation that has data rows beside it, where
each table takes continuations from the first page that those before it have left
(`TableMerge.RowsKeptExactly`). It holds if no page with a continuation has another
table with data rows (`TableMerge.NothingLost`), and fails if a table of a page on
which nothing continues takes such a continuation (`TableMerge.FreshPageLoses`). With
at most one table to a page nothing is lost, duplicated or reordered
(`TableMerge.OnePerPageKeepsRows`), and merging two printed tables prints the table of
all their rows (`PrintedMerges.MergedPrints`). `TableShapes` says for any lines which
tables are damaged: those of which no number of cells is shared by three quarters of
the rows.

**Quality.** `QualityGate` is the quality score with its veto, and `QualityFigures` the
figures behind it: garbled lines, damaged tables, lost images and reasons.
`PageFigures` reads them off the text of a page, and proves that a document without faults passes
(`PageFigures.FaultlessPasses`).

**DOCX.** `DocxPages` assigns paragraphs to pages and extracts a page; `DocxResults`
runs the workers in any order, with any failures, and proves that the sections with
text do not depend on the order, in spite of the page number that a rebuilt empty
line inherits from the line before it. `DocxImages` says where the images of a page
are shown, `DocxPageMap` on which page each paragraph is, and `DocxLines` reads the
document text line by line: its lines are those of the non-blank paragraphs of the
surviving pages, in order, and of the images between them (`DocxLines.DocumentLines`).

**Locks.** `ParserLocks` is a transition system in which any thread may take the next
step of its request. Its invariant gives mutual exclusion in pdfium, limiter
capacities, deadlock freedom, and the return of every permit. `ParserPermits` adds
that limited work is done with a permit: a thread about to convert holds the permit of
its own limiter, so that at most so many convert under one name as the request that
registered it first allows (`ParserPermits.ConvertingWithinFirstLimit`).

**Markdown.** `MarkdownFences` is the normaliser for web archives (CommonMark 0.31.2,
sections 4.5 and 6.7); `FencedBlocks` compares its closing fences with the standard,
and `BlankLines` says where it leaves an empty line. `TableRepair` is the repair of
table prefixes and `TableCells` what its rules say of cells; every line with any content
survives it (`TableCells.SolidLinesStay`). `ImageNames` is the naming of archive images,
and `PartNames` splits their names at the extension.

**Event streams.** `SseReaders` holds the three line loops of the Go client,
`SseStandard` compares them with section 9.2.6 of the WHATWG HTML standard and with
each other, and `SseMessages` compares the continuing reader with the message events of
the standard and holds streams on which they part.

`Text`, `SourceText`, `TableRows`, `Ordering`, `Numbers` and `Wrappers` are shared:
strings as Python and Go handle them, rows of a table, sorting, and real numbers.

## Where the code differs from what one might expect

The model follows the code in each of these places.

- With more than eleven levels of gaps the recursion stops early and some gaps stay
  uncut, as on the page of `ColumnSplit.TooDeepPage`; eleven gaps or fewer are always
  all cut.
- `_merge_adjacent_blocks` is described as merging two blocks, but keeps the
  intersection of their vertical ranges (`ReadingOrder.MergedBoxIsIntersection`). It is
  empty for two lines one above the other, so that their block holds no glyph
  (`ReadingOrder.NeighboursVanish`). Glyphs are kept all the same.
- The blocks of two lines may overlap, and the glyphs in both are written twice
  (`DoubledGlyphs.WrittenTwice`).
- The column histogram uses Python's negative indices: a centre at least one bin left
  of the page counts in a bin at the right (`Histogram.BinsOffPage`), and 41 bins left
  of it raises an error (`Histogram.RaisesLeftOfPage`), which sends the page to the
  gutter split. The bin is the strip that holds the centre exactly for centres on the
  page (`Histogram.BinIsStrip`).
- Cross-page merging marks whole pages as used, so a table beside a continuation
  disappears, whatever it holds (`TableMerge.SiblingVanishes`, and with a printed
  table `TableMerge.LostTable`). `TableMerge.RowsKeptExactly` says exactly when no row
  is lost.
- Table repair is not idempotent: of two delimiter rows the first repair leaves one
  and the second none (`TableRepair.RepairNotIdempotent`). `TableRepair.RepairTextTwice`
  gives the exact condition.
- A cap of zero images still lets one image pass, because the count is checked after
  an image is added (`EmbeddedImages.LimitOfZero`); `EmbeddedImages.WithinLimit` says
  exactly when the limit is kept.
- The image-loss rate is always zero, because the caller passes the number of
  extracted images as the number of references, too (`QualityGate.NoImageLoss`).
- A DOCX image that cannot be saved shifts all later images of its page to earlier
  places (`DocxImages.ShiftedImage`); `DocxImages.ShownInPlace` gives the exact
  condition under which an image is shown at its own place.
- `ContinueStream` keeps the data of an event whose type is not `message`, hands it
  out with the next message event (`SseStandard.StaleDataDelivered`), or loses it to
  the next data line (`SseStandard.DataLost`). It also stays silent if the server writes
  a space after `event:`, which the standard allows (`SseMessages.SpacedMessageIgnored`,
  `SseStandard.SilentWithoutMessage`). `SseMessages.ContinuedMatchesMessages` says
  exactly when it delivers the messages of the standard.
- The agent reader keeps the last data line of an event only, where the standard
  joins all of them (`SseMessages.LastLineOnly`). `SseStandard.AgentMatchesStandard`
  says exactly when this makes no difference.
- The agent drops a data line of white space only, and the knowledge reader delivers it
  (`SseMessages.BlankDataDelivered`).
- CommonMark rejects a backtick fence whose info string holds a backtick, the code
  does not (`MarkdownFences.BacktickInInfo`); all other opening fences agree
  (`MarkdownFences.FenceMatchesStandard`).

## Model

| member | source | states |
|---|---|---|
| ColumnSplit.GapsExact | docreader/parser/pdf_parser.py:665-682 | one sweep over the glyphs sorted by left edge finds, in order, exactly the strips of the minimum width that start at a right edge, end at a left edge and that no glyph enters |
| ColumnSplit.FindSplit | docreader/parser/pdf_parser.py:665-682 | the loop returns the middle of the widest clean gap, the left-most of equally wide ones, and nothing exactly if there is no clean gap |
| ColumnSplit.GuardNeverTaken | docreader/parser/pdf_parser.py:691-698 | a cut crosses no glyph and leaves glyphs on both sides, so both halves shrink and the guard for an empty side is never taken |
| ColumnSplit.SplitIsSweep | docreader/parser/pdf_parser.py:684-698 | at every depth the recursive widest-gap split equals one left-to-right sweep that cuts at the gaps for which the recursion has levels left |
| ColumnSplit.SplitIsFullSweep | docreader/parser/pdf_parser.py:684-698 | the split equals the sweep over all clean gaps exactly when the tree of widest cuts has at most eleven levels, and always if there are at most eleven gaps |
| ColumnSplit.TooDeepPage | docreader/parser/pdf_parser.py:684-698 | pages 600 wide of thirteen to fifteen glyphs ten wide, with gaps of 25, 26, 27 and so on, have as many levels as gaps and are split into fewer columns than their gaps allow |
| ColumnSplit.ColumnBetweenGaps | docreader/parser/pdf_parser.py:684-698 | column k of the sweep holds exactly the glyphs of the page that lie wholly between gap k - 1 and gap k |
| ColumnSplit.SplitConserves | docreader/parser/pdf_parser.py:684-698 | the columns together hold every glyph of the page exactly as often as the page does |
| Gutters.SameColumnExactly | docreader/parser/pdf_parser.py:665-698 | unless the page is cut too deep, two glyphs share a column exactly if no gutter lies between them: a strip that no glyph enters, at least 2.5 scales and four percent of the page wide |
| TextLines.GroupByBaseline | docreader/parser/pdf_parser.py:811-825 | the loop over the glyphs sorted from the top computes the greedy groups |
| LineGrouping.GroupsPartition | docreader/parser/pdf_parser.py:804-825 | the groups, one after the other, are the glyphs sorted from the top, so each glyph is in exactly one group |
| LineGrouping.GroupsWithinSpan | docreader/parser/pdf_parser.py:804-825 | the centres of a group differ by at most half the median height |
| LineGrouping.GroupsOptimal | docreader/parser/pdf_parser.py:804-825 | no cover of the glyphs by groups within that span has fewer groups than the greedy grouping |
| ReadingRows.ReadInRows | docreader/parser/pdf_parser.py:804-835 | the glyphs are read in rows from the top, each from left to right: the centres of a row differ by at most half the median height, and every later row lies more than that below the highest centre of an earlier one |
| ReadingRows.HeightsAre | docreader/parser/pdf_parser.py:804-810 | the heights whose median counts are the positive ones, glyph by glyph |
| ReadingRows.RowsAreUnique | docreader/parser/pdf_parser.py:804-835 | any two ways of laying the same glyphs out in such rows have the same rows |
| TextLines.JoinLineGlyphs | docreader/parser/pdf_parser.py:779-801 | the loop that joins glyphs and infers spaces computes the line text |
| LineWords.WordsByGaps | docreader/parser/pdf_parser.py:779-801 | for glyphs that are each all white space or all ink, the words of the line text are exactly the runs of ink glyphs between white-space glyphs and gaps wider than the threshold |
| LineWords.OneBlankBetweenWords | docreader/parser/pdf_parser.py:779-801 | if the white-space glyphs are single blanks, the line text is those words with exactly one blank between them, however many blanks the page has |
| LineWords.GapIs | docreader/parser/pdf_parser.py:779-801 | the threshold lies between 0.4 of the narrowest and 0.4 of the widest glyph that has a width, and is 0.4 without any |
| LineWords.WordsByWidth | docreader/parser/pdf_parser.py:779-801 | if all glyphs are equally wide, words are parted exactly by white space and by gaps wider than 0.4 of that width |
| TextLines.LineTextInk | docreader/parser/pdf_parser.py:779-801 | joining a line loses and adds no character other than white space |
| TextLines.GroupLines | docreader/parser/pdf_parser.py:804-835 | grouping, sorting by x, joining and dropping empty lines compute the text lines of the glyphs |
| TextLines.LinesOfInk | docreader/parser/pdf_parser.py:826-835 | the lines carry the ink of all glyphs, line by line, glyphs by x |
| PageText.MergeOrphanPunctuationLines | docreader/parser/pdf_parser.py:751-776 | the loop over the lines computes the merge of orphan punctuation into the line before |
| PageText.MergeInk | docreader/parser/pdf_parser.py:751-776 | merging orphan punctuation keeps all ink in its order |
| PageLines.MergedRuns | docreader/parser/pdf_parser.py:751-776 | each merged line is a line with the lines of one to four punctuation marks that follow it, attached without their white space, or after a blank to a hyphen |
| PageText.SegmentsToMarkdown | docreader/parser/pdf_parser.py:838-872 | the loop over the lines renders them with their heading levels, and without any if headings are switched off |
| PageText.HeadingsAreRare | docreader/parser/pdf_parser.py:838-872 | the number of headings never exceeds the limit that depends on the number of lines |
| PageLines.HeadingLevels | docreader/parser/pdf_parser.py:838-872 | a line of 8 to 80 characters that ends no sentence gets level one, two or three if its height is at least 2, 1.6 or 1.35 times the median, unless more than one line and more than forty percent of the lines qualify |
| PageLines.NoHeadingLevels | docreader/parser/pdf_parser.py:838-872 | no line gets a level if headings are switched off |
| PageText.GroupInk | docreader/parser/pdf_parser.py:804-872 | from glyphs to markdown, the ink of a group is, line by line, the marks of the line's heading level and then the line's own ink; the lines' inks, none of them empty, are together the ink of the glyphs in reading order, and at most the limit of lines have marks |
| PageText.GroupOrderPermutes | docreader/parser/pdf_parser.py:804-835 | the reading order of a group lists every glyph exactly once |
| PageLayout.ReadingColumnsKept | docreader/parser/pdf_parser.py:739-748 | at least one column is always read, every column read is a column of the page, and no column is dropped that is not a margin strip |
| MarginStrips.StripIs | docreader/parser/pdf_parser.py:714-736 | a column is taken for a margin strip exactly if it has no width, or is narrower than 12 percent of the page with 45 percent of its lines of at most two characters, or has eight glyphs or more, is more than 3.5 times as tall as wide and has 35 percent of such lines |
| MarginStrips.TextColumnsRead | docreader/parser/pdf_parser.py:739-748 | every column at least 12 percent of the page wide and at most 3.5 times as tall as wide is read |
| MarginStrips.LongLinesRead | docreader/parser/pdf_parser.py:739-748 | every column with a width and fewer than 35 percent of lines of at most two characters is read |
| MarginStrips.NoStripRead | docreader/parser/pdf_parser.py:739-748 | every column that is no strip is read |
| MarginStrips.StripDropped | docreader/parser/pdf_parser.py:739-748 | a strip beside a text column is not read |
| MarginStrips.ReadWidest | docreader/parser/pdf_parser.py:739-748 | if all columns are strips, the widest is read, the first of equally wide ones |
| MarginStrips.AllColumnsRead | docreader/parser/pdf_parser.py:875-910 | if all columns are text columns, the text on the gutter path carries every glyph of the page exactly once |
| PageLayout.RenderBlocks | docreader/parser/pdf_parser.py:893-910 | the loop over the groups collects the texts that are not empty |
| PageLayout.CharsToLayoutMarkdown | docreader/parser/pdf_parser.py:875-910 | the page is read block by block if the histogram finds columns and full-width blocks and that gives text, and column by column otherwise |
| PageLines.PageLinesRead | docreader/parser/pdf_parser.py:875-910 | split at line feeds, the markdown of a page is exactly the merged lines of its groups in order, each with the marks of its level and a blank in front if it is a heading |
| PagePaths.HistogramPathExactly | docreader/parser/pdf_parser.py:875-902 | a page is read around full-width blocks exactly if it has two or three columns, such blocks and any ink |
| PageLayout.BlocksInk | docreader/parser/pdf_parser.py:893-910 | the same equation for a page: the marks and inks of all lines, one group after the other, with the sum of the groups' limits bounding the headings |
| PageLayout.GutterPathConserves | docreader/parser/pdf_parser.py:875-910 | on the gutter path every glyph of every column read is written exactly once, with only heading marks added at line starts; every glyph of an earlier column ends left of every glyph of a later one; if no column is filtered, these are all glyphs of the page |
| PageLayout.SplitLeftToRight | docreader/parser/pdf_parser.py:684-698 | every glyph of an earlier column of the split ends left of every glyph of a later one |
| PageLayout.HistogramPathConserves | docreader/parser/pdf_parser.py:882-902 | on the histogram path every glyph of the page is written at least once, and exactly once if and only if at most one full-width block holds its centre; only heading marks are added, at line starts |
| DoubledGlyphs.WrittenTwice | docreader/parser/pdf_parser.py:882-902 | on a page of two columns and two lines, the upper one with a tall glyph, the first glyph of the lower line is written twice |
| Histogram.FillHistogram | docreader/parser/pdf_dual_column.py:44-51 | the in-place histogram counts the centres per bin, and raises exactly if a centre has no bin |
| Histogram.RaisesLeftOfPage | docreader/parser/pdf_dual_column.py:48-51 | counting a centre raises exactly if it lies 41 bin widths or more left of the page |
| Histogram.BinIsStrip | docreader/parser/pdf_dual_column.py:44-51 | the bin of a centre is the strip that holds it exactly if the centre lies on the page |
| Histogram.BinsOffPage | docreader/parser/pdf_dual_column.py:44-51 | a centre right of the page counts in the last bin, one less than a bin left of it in the first, and one k bins left of it in the k-th bin from the right |
| Histogram.DetectColumnCount | docreader/parser/pdf_dual_column.py:23-79 | the loops over the bins and the valleys compute the column count |
| ColumnValleys.ColumnCountIs | docreader/parser/pdf_dual_column.py:54-79 | the page has one column more than its histogram has deep dips, at most three |
| ColumnValleys.CountRaises | docreader/parser/pdf_dual_column.py:44-51 | counting columns raises exactly if the centre of a glyph lies 41 fortieths of the page or more left of it |
| Histogram.FilterRemovesNothing | docreader/parser/pdf_dual_column.py:66-79 | the filter for valleys closer than four percent of the page never removes a valley |
| Histogram.FindColumnBoundaries | docreader/parser/pdf_dual_column.py:121-159 | the loops of the second pass compute the column boundaries |
| ColumnValleys.ValleysAre | docreader/parser/pdf_dual_column.py:121-159 | the candidates are the middles of the bins 2 to 37 that hold fewer glyphs than both neighbours and at most one glyph or three tenths of the median count |
| Histogram.PassesAgree | docreader/parser/pdf_dual_column.py:121-159 | for a count detected on the same glyphs there are enough valleys, the even division is never used, and the boundaries increase strictly |
| Histogram.LowestValleysSelected | docreader/parser/pdf_dual_column.py:145-159 | each boundary is the position of a valley, and no valley left out has a lower count |
| ReadingOrder.SplitIntoColumns | docreader/parser/pdf_dual_column.py:82-118 | the loops distribute the glyphs over the given number of columns, or over the detected one if none is given |
| ReadingOrder.ColumnHolds | docreader/parser/pdf_dual_column.py:103-118 | column k holds exactly the glyphs with the first k boundaries at or left of their centre and all others right of it |
| ReadingOrder.DetectFullWidthBlocks | docreader/parser/pdf_dual_column.py:162-222 | the loops over lines and blocks compute the merged full-width blocks |
| WideBlocks.WideBlocksExactly | docreader/parser/pdf_dual_column.py:162-222 | a page of several columns has full-width blocks exactly if some glyph has a height and some line has a glyph that starts left of all boundaries and one that ends right of them |
| WideBlocks.CrossingIs | docreader/parser/pdf_dual_column.py:205-217 | such a line, and no other, gives one box, the smallest around its glyphs |
| WideBlocks.BlocksAreRuns | docreader/parser/pdf_dual_column.py:253-281 | the boxes are sorted by their upper edges and cut into runs: a box goes on with a run exactly if it is of its kind and its upper edge is less than 20 from the highest lower edge of the run |
| ReadingOrder.MergedBoxIsIntersection | docreader/parser/pdf_dual_column.py:253-281 | merging joins consecutive blocks in runs; a merged box holds a centre exactly if every block of its run holds it vertically and the range from the left-most to the right-most edge of the run holds it horizontally, so a run with one block above another holds nothing |
| ReadingOrder.NeighboursVanish | docreader/parser/pdf_dual_column.py:253-281 | two lines of one kind five points apart are merged to a box with its edges turned over, which holds no glyph |
| ReadingOrder.ReconstructReadingOrder | docreader/parser/pdf_dual_column.py:284-340 | the loops over boxes, consumed glyphs and columns compute the reading groups |
| ReadingOrder.ReadingGroupsCount | docreader/parser/pdf_dual_column.py:284-340 | for any boxes, also inverted ones, a glyph is listed once if no box holds its centre and otherwise once for each box that does |
| WideBlocks.ReadingGroupsAre | docreader/parser/pdf_dual_column.py:284-340 | what is read is, box by box from the top, the glyphs whose centres the box holds, and then, column by column between the boundaries, the glyphs that no box holds, without empty groups |
| EmbeddedImages.SelectEmbeddedImages | docreader/parser/pdf_parser.py:1172-1213 | the loops return exactly the first chosen indices in order, up to the cap, where chosen means large enough, not a repeated hash, and the first such image of its page and hash |
| EmbeddedImages.SelectionHasNoRepeats | docreader/parser/pdf_parser.py:1190-1213 | every kept image's hash occurs on fewer distinct pages than the threshold, and no later kept image shares its page and hash |
| EmbeddedImages.SelectionIsComplete | docreader/parser/pdf_parser.py:1197-1213 | every eligible image is kept, or an earlier copy on its page is, unless the cap is reached by earlier images |
| ImageChoice.KeptExactly | docreader/parser/pdf_parser.py:1186-1213 | the images kept are those that reach the minimum area, width and height, are not on two pages or more and on more than the given share of the text pages less one, and have no earlier such copy on their page, in order, up to the cap |
| EmbeddedImages.WithinLimit | docreader/parser/pdf_parser.py:1197-1213 | the number of images kept is within the given limit exactly if the limit is at least one, or is zero and no image is eligible |
| EmbeddedImages.LimitOfZero | docreader/parser/pdf_parser.py:1197-1213 | with a limit of zero, a document's only image is kept if it is large enough |
| TextStrippers.StripChartTextDebris | docreader/parser/pdf_parser.py:235-254 | the two nested loops compute the text without chart debris |
| TextStrippers.DroppedExactly | docreader/parser/pdf_parser.py:235-254 | exactly the lines go that lie in a run of at least three debris and blank lines that starts with debris |
| DroppedLines.StretchesDropped | docreader/parser/pdf_parser.py:235-254 | the same by position: a line goes exactly if it lies in a stretch of three lines or more, each blank or debris, of which the first is not blank |
| TextStrippers.StripDebrisLaws | docreader/parser/pdf_parser.py:235-254 | the filter is idempotent, keeps some lines of its input in order, and leaves no debris-led run of three or more |
| TextStrippers.StripLinesAboveFigureCaptions | docreader/parser/pdf_parser.py:274-285 | the loop with its stack computes the text without the lines above captions |
| TextStrippers.StackDropsExactly | docreader/parser/pdf_parser.py:274-285 | the stack drops exactly the lines from which interior lines lead down to a caption |
| DroppedLines.InteriorsDropped | docreader/parser/pdf_parser.py:274-285 | the same by position: line k goes exactly if for some later line j, a caption, all lines from k to j - 1 are interior lines |
| TextStrippers.StripAboveLaws | docreader/parser/pdf_parser.py:274-285 | the filter is idempotent, keeps some lines of its input in order, and leaves no caption with an interior line right above |
| TablePrinter.PadRows | docreader/parser/pdf_table_extractor.py:163-167 | the rows are padded in place to the width of the table |
| TablePrinter.PrintRows | docreader/parser/pdf_table_extractor.py:153-177 | printing normalises, pads and joins the rows |
| TableShapes.PrintedCell | docreader/parser/pdf_table_extractor.py:153-177 | each cell of the printed table is the stripped cell of its row, or empty where the row has none |
| TablePrinter.TableRoundTrip | docreader/parser/pdf_table_extractor.py:153-177 | for cells without pipes and line breaks, splitting the printed table into lines and cells gives back the header, the rule and the rows, all of the table's width |
| TablePrinter.HeaderRoundTrip | docreader/parser/pdf_table_extractor.py:235-244 | the header reader returns the stripped cells of the first row, padded with empty cells to the width of the table |
| TableShapes.HeaderIs | docreader/parser/pdf_table_extractor.py:235-244 | a text has a header exactly if it has two lines and the first goes from a pipe to another one behind which only white space follows; the header has one cell more than pipes inside |
| TablePrinter.DetectDamage | docreader/parser/pdf_quality.py:112-154 | the loop over the table rows computes the verdict |
| TableShapes.DamagedExactly | docreader/parser/pdf_quality.py:112-154 | for all lines: a table is two rows at least, and it is damaged exactly if it has three rows and no rule among them, or has rows of cells of which no number of cells from two on is shared by three quarters |
| TablePrinter.PrintedDamage | docreader/parser/pdf_quality.py:112-154 | a printed table is always recognised, and called damaged exactly if it has one column and a line that is no rule, so never with two or more columns |
| TableMerge.SimilarityLaws | docreader/parser/pdf_table_extractor.py:247-257 | header similarity is symmetric, lies between 0 and 1, and is 1 exactly for equal non-empty sets of names |
| TableMerge.ContinuesIs | docreader/parser/pdf_table_extractor.py:208-219 | a table continues another exactly if both have headers and more than sixty percent of all names in the two headers occur in both |
| TableMerge.NamesAre | docreader/parser/pdf_table_extractor.py:251-252 | the names of a header are its cells that are not blank, in lower case and stripped |
| TableMerge.MergeKeepsRows | docreader/parser/pdf_table_extractor.py:260-273 | appending a table keeps the header and the lines of the first and adds exactly the data rows of the second |
| PrintedMerges.MergedPrints | docreader/parser/pdf_table_extractor.py:260-273 | merging two printed tables of one width prints the table of all rows but the second header |
| PrintedMerges.NothingToMerge | docreader/parser/pdf_table_extractor.py:260-273 | merging a table of fewer than two rows changes nothing |
| TableMerge.MergeCrossPageTables | docreader/parser/pdf_table_extractor.py:180-232 | the loops over pages, tables and following pages compute the merge as written, with its used pages |
| TableMerge.RowsConserved | docreader/parser/pdf_table_extractor.py:198-232 | for every input the data rows written and those of the tables beside a consumed continuation are exactly the data rows of all pages, so rows disappear exactly if such a table has rows |
| TableMerge.RowsKeptExactly | docreader/parser/pdf_table_extractor.py:198-226 | for every input, each data row is written exactly once if and only if no continuation that a table takes, from the first page that the tables before it have left, has data rows beside it |
| TableMerge.NothingLost | docreader/parser/pdf_table_extractor.py:198-226 | a condition that needs no order: if no page that holds a continuation of an earlier page's table has another table with data rows, every data row is written exactly once |
| TableMerge.FreshPageLoses | docreader/parser/pdf_table_extractor.py:198-226 | if nothing continues on a page and one of its tables takes, on any later page, a continuation with data rows beside it, the rows written are not the rows of all pages |
| TableMerge.LostTable | docreader/parser/pdf_table_extractor.py:198-226 | of three printed tables of one row, one on a page and two copies on the next, two rows are written |
| TableMerge.SiblingVanishes | docreader/parser/pdf_table_extractor.py:198-226 | a table beside a continuation is missing from the result, whatever it holds |
| TableMerge.MergeIsRuns | docreader/parser/pdf_table_extractor.py:198-232 | with at most one table to a page, each result is a table followed by the maximal run of pages whose header is similar enough to the first |
| TableMerge.RunRows | docreader/parser/pdf_table_extractor.py:198-232 | the lines of a run are those of its first table followed by the data rows of the others in page order |
| TableMerge.OnePerPageKeepsRows | docreader/parser/pdf_table_extractor.py:180-273 | with at most one table to a page no data row is lost, duplicated or reordered, and the start pages increase strictly |
| QualityGate.ScorePage | docreader/parser/pdf_quality.py:172-200 | the report object of a page gets the page's figures |
| PageFigures.PageFiguresAre | docreader/parser/pdf_quality.py:172-200 | the figures are the lines that are not blank, their characters, how many of them hold a replacement or control character or are mostly short words, the verdict on tables, and whether there are image references, all extracted |
| QualityFigures.GarbledLineIs | docreader/parser/pdf_quality.py:79-96 | a line is garbled exactly if it has six characters or more and either a replacement or control character among them or six words or more, over 45 percent of them of at most two characters |
| QualityFigures.ReplacementIs | docreader/parser/pdf_quality.py:76 | the replacement characters are U+FFFD and the control characters other than tab, line feed and carriage return |
| QualityFigures.TokensAre | docreader/parser/pdf_quality.py:92-96 | the words are runs of ink that together are the ink of the line |
| QualityGate.EmptyIffBlank | docreader/parser/pdf_quality.py:172-186 | a page counts as empty exactly if its text is white space |
| QualityGate.BuildReport | docreader/parser/pdf_quality.py:207-282 | the report asks for a retry exactly if there is no page or the score is below 0.7, and names the rates above their thresholds |
| QualityFigures.ReasonsAre | docreader/parser/pdf_quality.py:269-280 | the reasons of a retry are, in order, exactly the rates above 0.15, 0.3, 0.25 and 0.2, and the low score if there is none |
| QualityGate.AcceptByProduct | docreader/parser/pdf_quality.py:241-267 | the score passes exactly if the product of the clamped components reaches 0.7 to the fourth |
| QualityGate.AcceptanceBoundsRates | docreader/parser/pdf_quality.py:241-267 | acceptance forces every rate to at most 0.7599 of its threshold |
| QualityGate.ThresholdVetoes | docreader/parser/pdf_quality.py:241-267 | one rate at its threshold forces a retry, whatever the others are |
| QualityGate.SingleRateExact | docreader/parser/pdf_quality.py:241-267 | the bound is exact: if only pages are empty and nothing else is wrong, a document passes exactly up to 0.7599 of the threshold |
| QualityGate.ScoreAntitone | docreader/parser/pdf_quality.py:241-267 | worse rates never give a better score |
| QualityGate.BlankPagesForceRetry | docreader/parser/pdf_parser.py:1805-1817 | thirty percent of pages without text layer or with only white space force a retry, and an accepted document has at most 22.797 percent of them |
| QualityFigures.GarbledForcesRetry | docreader/parser/pdf_quality.py:207-267 | forty characters for each garbled line making up fifteen percent of all characters force a retry |
| QualityFigures.DamageForcesRetry | docreader/parser/pdf_quality.py:207-267 | a quarter of the pages with tables having a damaged one forces a retry |
| QualityFigures.LossForcesRetry | docreader/parser/pdf_quality.py:207-267 | a fifth of the image references without an image forces a retry |
| QualityGate.NoImageLoss | docreader/parser/pdf_parser.py:1813-1817 | as the parser calls it, the image-loss rate is always zero and its component perfect |
| PageFigures.FaultlessPasses | docreader/parser/pdf_quality.py:207-267 | a document without garbled lines, empty pages, damaged tables and lost images has no rate above zero and is accepted |
| DocxResults.Docx.IdentifyPageParagraphMapping | docreader/parser/docx_parser.py:344-463 | the loops that fill the page lists compute the page map |
| DocxPages.MappingIsPrefix | docreader/parser/docx_parser.py:344-463 | the pages, numbered from 0, list a prefix of the paragraph indices, each once and ascending, up to the first paragraph beyond the page limit |
| DocxPageMap.PageOf | docreader/parser/docx_parser.py:344-463 | paragraph k is on the page given by the number of page breaks before it, or in a document of more than 1000 paragraphs on page k / 25, if that is within the limit |
| DocxPages.ExtractPageContent | docreader/parser/docx_parser.py:1325-1425 | the loop over the paragraphs of a page gives its text, its images and its content sequence |
| DocxPages.PageContent | docreader/parser/docx_parser.py:1325-1425 | a page's parts carry exactly the texts and images of its paragraphs in document order, in alternating runs |
| DocxPages.ParagraphTextInk | docreader/parser/docx_parser.py:1325-1425 | cleaning a paragraph loses no ink |
| DocxLines.PageReadsBack | docreader/parser/docx_parser.py:1325-1425 | read line by line, a page shows, paragraph by paragraph, the lines of each non-blank text without its outer white space (U+3000 as a blank), each ended by a line feed, and then the image |
| DocxLines.OneLine | docreader/parser/docx_parser.py:1370-1374 | a non-blank paragraph without line feeds gives one line: its text from the first to the last ink |
| DocxLines.StrippedOnce | docreader/parser/docx_parser.py:1370-1374 | being the stripped text of a paragraph determines the line |
| DocxLines.PlainPage | docreader/parser/docx_parser.py:1325-1425 | the text of a page without images, split at line feeds, is exactly the lines of its paragraphs in order |
| DocxResults.StaleOnlyOnEmpty | docreader/parser/docx_parser.py:942-969 | whatever page number is left over, it is attached only to lines without text: the lines with text are those with their own page numbers |
| DocxPageMap.RebuiltPage | docreader/parser/docx_parser.py:942-969 | a rebuilt line carries the page number of the last line with content up to it, and if there is none the number left over from the upload |
| DocxPageMap.LastImagePageIs | docreader/parser/docx_parser.py:893-896 | which is that of the last line with images |
| DocxResults.ScheduleIndependence | docreader/parser/docx_parser.py:803-975 | for every order in which workers finish, the sections with text are those of the pages in page order |
| DocxResults.TextDocument | docreader/parser/docx_parser.py:104-190 | for every order and every set of failing pages, the document text is exactly the texts and image lines that the surviving pages show in page order, joined by blank lines; the texts are together the ink of their paragraphs |
| DocxResults.ReadIsPrefix | docreader/parser/docx_parser.py:585-632 | the pages processed cover a prefix of the paragraphs, and all of them if the page limit exceeds their number |
| DocxResults.WholeDocument | docreader/parser/docx_parser.py:104-190 | if no page fails, the document text is exactly what all pages show in order, joined by blank lines, and its texts are the ink of that prefix of the paragraphs |
| DocxLines.DocumentLines | docreader/parser/docx_parser.py:104-190 | for every order and every set of failing pages, the non-blank lines of the document text are those of the paragraphs of the surviving pages in page order, and between them the image lines |
| DocxLines.WholeDocumentLines | docreader/parser/docx_parser.py:104-190 | if no page fails and there are no images, they are exactly the lines of that prefix of the paragraphs in order |
| DocxLines.ItemIsShown | docreader/parser/docx_parser.py:905-969 | a text is shown as it is, a saved image as an inline image with the address that its upload gave, and nothing else is shown |
| DocxImages.ItemsFillSlots | docreader/parser/docx_parser.py:1259-1268 | the content of a page is that of its slots, where texts stay and the k-th image position gets the k-th saved image |
| DocxImages.ShownInPlace | docreader/parser/docx_parser.py:1240-1268 | an image is shown at its own place exactly if it and all images before it on the page can be saved |
| DocxImages.AllInPlace | docreader/parser/docx_parser.py:1240-1268 | all saved images are shown at their own places exactly if none that cannot be saved comes before one that can |
| DocxImages.ShiftedImage | docreader/parser/docx_parser.py:1259-1268 | of two images around a text the second is shown before the text if the first cannot be saved |
| DocxResults.Docx.CollectProcessResults | docreader/parser/docx_parser.py:803-859 | the field of all lines becomes the processed lines of the pages in the order in which they finish |
| DocxResults.Docx.ProcessMultiprocessResults | docreader/parser/docx_parser.py:862-975 | the field becomes the lines rebuilt with uploaded images if there are any, sorted by page |
| DocxResults.Docx.Run | docreader/parser/docx_parser.py:478-544 | the sections with text that a call returns do not depend on the order of the workers |
| ParserLocks.LimiterTable.Lookup | docreader/parser/concurrency.py:12-19 | a limiter is created once, with the first limit, and later limits are ignored |
| ParserLocks.BoundedSemaphore.Release | docreader/parser/concurrency.py:33-39 | a permit is returned if one is out, and refused otherwise |
| ParserLocks.RequestDisciplined | docreader/parser/pdf_parser.py:1443-1496 | every request, with or without fallback, takes and returns locks in the disciplined order |
| ParserLocks.RunInv | docreader/parser/pdf_parser.py:1547-1565 | the invariant holds in every state of every run |
| ParserLocks.MutualExclusion | docreader/parser/pdf_parser.py:34-43 | in every state of every run at most one thread is inside pdfium, and it owns the lock |
| ParserLocks.CapacityRespected | docreader/parser/concurrency.py:22-39 | no limiter ever has more permits out than its capacity |
| ParserPermits.ConversionHoldsPermit | docreader/parser/opendataloader_parser.py:313-345 | in every state of every run, a thread about to convert holds a permit of its own limiter if its limit is positive, and none otherwise |
| ParserPermits.RenderingHoldsPermit | docreader/parser/pdf_parser.py:1456-1460 | a thread about to render a scanned page holds a render permit if its limit is positive, and none otherwise; other calls of pdfium hold none |
| ParserPermits.ConvertingWithinCapacity | docreader/parser/concurrency.py:22-39 | the threads with a positive limit that are converting under one name are never more than the capacity of its limiter |
| ParserPermits.ConvertingWithinFirstLimit | docreader/parser/concurrency.py:12-39 | nor more than the limit of the request that registered the name first |
| ParserPermits.NoLimitNoPermit | docreader/parser/concurrency.py:22-28 | a request with a limit of zero or less never holds a permit of that name |
| ParserLocks.CapacityStable | docreader/parser/concurrency.py:12-19 | a limiter keeps the capacity of its first registration for the rest of the run |
| ParserLocks.RenderNeverBlocks | docreader/parser/pdf_parser.py:1456-1460 | a thread that wants the render limiter gets it at once, because it owns the pdfium lock |
| ParserLocks.NoDeadlock | docreader/parser/opendataloader_parser.py:313-345 | as long as a request is unfinished, some thread can take a step |
| ParserLocks.AllReturned | docreader/parser/concurrency.py:34-39 | when all requests are done, the locks are free and all permits are back |
| ParserLocks.EveryRunCompletes | docreader/parser/pdf_parser.py:1547-1633 | every run ends, and a run that cannot go on has finished every request and returned everything |
| MarkdownFences.NormalizeMarkdown | docreader/parser/mhtml_parser.py:227-266 | the line loop and the final strip compute the normal form |
| MarkdownFences.HardBreaks | docreader/parser/mhtml_parser.py:240-262 | a text line keeps two or more trailing spaces as exactly two and loses all other trailing white space |
| SourceText.FirstLine | docreader/parser/mhtml_parser.py:228-234 | the lines of a text are what stands between its line feeds, carriage returns and pairs of both |
| MarkdownFences.NormalizeKeepsItems | docreader/parser/mhtml_parser.py:227-289 | read again, the normal form has the same fenced lines verbatim, the same cleaned text lines and the same gaps, except empty lines at the end of an unclosed last fence |
| MarkdownFences.ClosedFencesKept | docreader/parser/mhtml_parser.py:227-289 | if every fence is closed, no line of any fence is lost |
| MarkdownFences.NormalizeIsTidy | docreader/parser/mhtml_parser.py:227-266 | among the lines of a normalised text, outside fences, no blank lines are adjacent, lead or trail, and every line is clean |
| MarkdownFences.TidyNeighbours | docreader/parser/mhtml_parser.py:227-266 | a blank line outside fences in tidy lines is empty, is neither first nor last, follows no other such line, and no blank line follows it |
| BlankLines.OneEmptyLineBetween | docreader/parser/mhtml_parser.py:249-257 | outside fences any number of blank lines between two lines that are not blank is written as exactly one empty line, none as none, and blank lines before the first line as none |
| BlankLines.TextLineIs | docreader/parser/mhtml_parser.py:259-264 | a text line is written without its trailing blanks and tabs, with two blanks added if it ended in two blanks |
| MarkdownFences.FenceMatchesStandard | docreader/parser/mhtml_parser.py:269-280 | the opening fences are those of section 4.5 of CommonMark 0.31.2, and beside them exactly the backtick fences with a backtick in the info string |
| FencedBlocks.ClosingMatchesStandard | docreader/parser/mhtml_parser.py:282-289 | a line closes a fence exactly if it is a closing fence of section 4.5 of CommonMark 0.31.2: at most three blanks, at least as many of the same fence characters, and then only blanks and tabs |
| FencedBlocks.FencedBlock | docreader/parser/mhtml_parser.py:236-254 | from an opening fence up to the first such line, or to the end without one, all lines are kept as they are |
| MarkdownFences.BacktickInInfo | docreader/parser/mhtml_parser.py:269-280 | three backticks, a letter and a backtick open a fence here and none in the standard |
| MarkdownFences.NormalizeIdempotent | docreader/parser/mhtml_parser.py:227-266 | normalising twice is normalising once |
| TableRepair.NormalizeTableBlock | docreader/parser/markdown_parser.py:97-108 | the loop that pops rows computes the normal form of a block |
| TableRepair.NormalizeSpuriousTablePrefixes | docreader/parser/markdown_parser.py:110-126 | the loops over lines and blocks compute the repaired text |
| TableRepair.RepairConserves | docreader/parser/markdown_parser.py:97-126 | repair keeps, in order, all lines outside tables and all rows that are neither empty nor separators, and adds no others |
| TableRepair.RepairDelimits | docreader/parser/markdown_parser.py:97-126 | in the repaired lines every table of two or more rows has a separator as its second row |
| TableRepair.MarkdownSound | docreader/parser/markdown_parser.py:64-95 | the delimiter row made for a table row is itself a table row and a separator with as many cells, and no empty row is a separator |
| TableCells.TableRowIs | docreader/parser/markdown_parser.py:77-79 | a line is a table row exactly if its first character that is no white space is a pipe and another pipe follows |
| TableCells.EmptyRowIs | docreader/parser/markdown_parser.py:87-89 | a printed row is empty exactly if all its cells are blank |
| TableCells.SeparatorRowIs | docreader/parser/markdown_parser.py:82-84 | a printed row is a separator exactly if every cell is three dashes or more with at most one colon at each end |
| TableCells.SolidLinesStay | docreader/parser/markdown_parser.py:97-126 | every line of a text that holds a character other than pipes, dashes, colons and white space survives the repair, in order, and no such line is added |
| TableRepair.NormalBlockTwice | docreader/parser/markdown_parser.py:97-108 | a second repair leaves a block alone exactly if its first row after stripping is a data row or a delimiter row as the repair would write it |
| TableRepair.RepairTextTwice | docreader/parser/markdown_parser.py:110-126 | repair is idempotent on a text exactly if every block of table rows is of that kind |
| TableRepair.DataFirstIsStable | docreader/parser/markdown_parser.py:97-126 | it is so whenever the first row of every block after stripping is a data row |
| TableRepair.RepairNotIdempotent | docreader/parser/markdown_parser.py:97-108 | two delimiter rows are repaired to one, and then to nothing |
| ImageNames.ImagePathForPart | docreader/parser/mhtml_parser.py:157-180 | the search ends and returns the first unused path, with a suffix of at most one more than the number of images |
| ImageNames.CollectImages | docreader/parser/mhtml_parser.py:70-75 | each image part adds one entry under a path of its own, and no part overwrites another |
| ImageNames.SuffixBounded | docreader/parser/mhtml_parser.py:173-180 | as long as all paths tried are taken, there are at least as many images as paths tried |
| ImageNames.DecimalInjective | docreader/parser/mhtml_parser.py:173-180 | different suffixes give different paths |
| PartNames.ExtensionExactly | docreader/parser/mhtml_parser.py:167-174 | a name is split before the last dot of its last path component if something other than dots comes before it there, and otherwise not at all |
| PartNames.NamedWithExtension | docreader/parser/mhtml_parser.py:167-180 | an image with an extension is stored under its own name, or with an underscore and a number before the extension |
| PartNames.NamedWithout | docreader/parser/mhtml_parser.py:167-180 | an image without one gets the extension of its type first |
| PartNames.FreshIs | docreader/parser/mhtml_parser.py:164-165 | a part without a name is stored under its fresh id and the extension of its type |
| PartNames.DecimalIs | docreader/parser/mhtml_parser.py:173-180 | the suffix is the decimal numeral of its number, without leading zeros |
| SseReaders.ProcessAgentStream | client/agent.go:108-159 | the line loop delivers the frames of the stream as its reader defines them |
| SseReaders.ReadKnowledgeStream | client/session.go:290-352 | the line loop delivers the frames of the stream as its reader defines them |
| SseReaders.ReadContinuedStream | client/session.go:380-425 | the line loop delivers the frames of the stream as its reader defines them, stale buffers included |
| SseReaders.DeliveredInOrder | client/agent.go:118-140 | the callback gets every frame once and in order up to the first that fails or is a terminal error, a frame that does not decode is not delivered, and the result names the cause |
| SseReaders.GoSpaceIs | client/agent.go:151 | the white space that trimming removes in Go is that of Python without the four separators U+001C to U+001F |
| SseStandard.AgentMatchesStandard | client/agent.go:114-159 | for every stream the agent delivers what the standard delivers, up to white space and blank payloads, exactly if in each complete event every data line but the last is blank |
| SseStandard.KnowledgeMatchesAgent | client/session.go:302-347 | up to trimming the knowledge reader delivers what the agent delivers exactly if no complete event ends in a data line of white space only |
| SseStandard.ContinuedMatchesKnowledge | client/session.go:384-420 | for every stream the continuing reader delivers some of the payloads of the knowledge reader, in order, and all of them exactly if every data reaches a blank line with event type `message` before another data line comes |
| SseStandard.DataLost | client/session.go:388-420 | after an event of another type with data, a message with data is all that the continuing reader delivers, while the knowledge reader delivers both |
| SseStandard.ReadersAgree | client/session.go:302-420 | on streams of one message line and one non-blank data line to an event, all three readers and the standard deliver the same payloads up to white space |
| SseStandard.StaleDataDelivered | client/session.go:388-404 | the continuing reader delivers the data of another event type with the next message event |
| SseStandard.StandardKeepsTypes | client/session.go:388-404 | on that stream the standard dispatches the data once, under its own type, and no message |
| SseStandard.SilentWithoutMessage | client/session.go:388-414 | without a line that is exactly `event:message` the continuing reader delivers nothing |
| SseMessages.ContinuedMatchesMessages | client/session.go:384-420 | for every stream, up to white space, the continuing reader delivers for each event block just what the standard dispatches as a message for it exactly if no data of a message is replaced or left in the buffer and what goes out is always the data of a message, said by its last data line alone, or blank; the payloads are those of the two models |
| SseMessages.EqualByAccident | client/session.go:388-414 | the payloads may be equal although they belong to different blocks, so the condition is about payloads with their blocks |
| SseMessages.LastLineOnly | client/agent.go:114-152 | of two data lines the standard delivers both, joined by a line feed, and the agent the second one |
| SseMessages.BlankDataDelivered | client/session.go:302-342 | a data line of white space only is delivered by the knowledge reader and not by the agent |
| SseMessages.SpacedMessageIgnored | client/session.go:388-414 | with a space after the colon of the event line the standard dispatches a message and the continuing reader delivers nothing |

## Left out

- Foreign code: pdfium, PIL, camelot, pdfplumber, python-docx, JSON, uploads, HTML-to-markdown conversion and UUIDs are parameters or arbitrary inputs; fresh ids are assumed to be new.
- Floating point: coordinates, rates and scores are real numbers, and the geometric mean is the positive number whose fourth power is the product of the components.
- ColumnSplit.FindSplit: models the split along x only; the split along y in the same function is never called.
- Regular expressions: chart debris, captions, lines inside figures and image references are predicates or functions passed in; the patterns for table rows, rules and replacement characters are written out.
- Full-width block detection: the classification of a row of glyphs is a parameter, the loop around it and the merging of blocks are modelled.
- `str.lower` is a parameter of the header similarity.
- Order of dictionary keys: sorted page numbers are an input that lists the keys in increasing order.
- Fairness between threads: runs end because each request has finitely many lock steps, in whatever order threads are scheduled.
- DocxResults.ScheduleIndependence: holds for the addresses that one run draws; a run uploads each path once, so they are a function of the path, and two runs may draw different ones.
- DOCX images: the objects are a path and an address; saving and uploading are functions that may fail, and the clean-up of temporary files is left out.
- DOCX tables and the simple fallback method of the parser: the first is not part of the sections, the second a short loop.
- QualityGate.BuildReport: takes the score as an input that is specified as the geometric mean, because exp and log are foreign; the reasons are values, without the text with its formatted numbers.
- SseReaders.ProcessAgentStream: lines are given, without the scanner's size limit, which shows as a read error at the end, and without the HTTP request.
- A byte order mark and lone carriage returns in event streams, which the line scanner does not treat as the standard does.
- The formula, header and footer filters, the document classifier, the engine choice and the caption-based insertion of figures: tuning tables and short branches that would only add easy members.
- Process pools and shared memory: worker processes are functions of a page that may fail, finishing in any order.
