/** The quality figures of a page read off its text, and a document without faults.
    Source: docreader/parser/pdf_quality.py. */
module PageFigures {
  import opened Numbers
  import opened Ordering
  import opened QualityFigures
  import opened QualityGate
  import opened TablePrinter
  import opened Text

  predicate IsBlankText(line: string) { AllOf(line, IsSpace) }

  /** A replacement or control character, outer white space included, or more than
      45 percent short words of at least six. */
  ghost predicate IsSuspect(line: string) {
    || (exists c :: c in line && IsReplacement(c))
    || (var t := Trim(line, IsSpace);
        var words := Tokens(t);
        |t| >= 6 && |words| >= 6 && 100 * |ShortOnes(words)| > 45 * |words|)
  }

  ghost function Suspects(lines: seq<string>): set<nat> { set i: nat | i < |lines| && IsSuspect(lines[i]) }

  lemma SuspectIs(line: string)
    ensures IsSuspect(line) <==> IsGarbledLine(line) || HasReplacementChars(line)
  {
    GarbledLineIs(line);
    ReplacementIn(line);
    TrimWithin(line);
  }

  lemma TrimWithin(line: string)
    ensures forall c | c in Trim(line, IsSpace) :: c in line
  {
    TrimInside(line, IsSpace);
  }

  lemma {:induction false} TrimInside(s: string, p: char -> bool)
    ensures forall c | c in Trim(s, p) :: c in s
  {
    TrimLeftDrops(s, p);
    TrimRightDrops(TrimLeft(s, p), p);
  }

  lemma SuspectsNext(lines: seq<string>, line: string)
    ensures |Suspects(lines + [line])| == |Suspects(lines)| + if IsSuspect(line) then 1 else 0
  {
    var before, after := Suspects(lines), Suspects(lines + [line]);
    assert forall i: nat | i < |lines| :: (lines + [line])[i] == lines[i];
    if IsSuspect(line) {
      assert after == before + {|lines|};
    } else {
      assert after == before;
    }
  }

  lemma {:induction false} GarbledNext(lines: seq<string>, line: string)
    ensures GarbledLines(lines + [line]) == GarbledLines(lines) + if IsSuspect(line) then 1 else 0
  {
    SuspectIs(line);
    if lines == [] {
      assert [] + [line] == [line] && [line][1..] == [];
    } else {
      GarbledNext(lines[1..], line);
      assert (lines + [line])[1..] == lines[1..] + [line];
    }
  }

  lemma {:induction false} GarbledAre(lines: seq<string>)
    ensures GarbledLines(lines) == |Suspects(lines)|
  {
    if lines == [] {
      assert Suspects(lines) == {};
    } else {
      var last := |lines| - 1;
      assert lines == lines[..last] + [lines[last]];
      GarbledAre(lines[..last]);
      GarbledNext(lines[..last], lines[last]);
      SuspectsNext(lines[..last], lines[last]);
    }
  }

  lemma {:induction false} InkLinesAre(lines: seq<string>)
    ensures InkLines(lines) == Without(lines, IsBlankText)
  {
    if lines != [] {
      TrimEmptyIff(lines[0], IsSpace);
      InkLinesAre(lines[1..]);
    }
  }

  lemma {:induction false} LengthIs(lines: seq<string>)
    ensures TotalLength(lines) == |Concat(lines)|
    ensures (forall i | 0 <= i < |lines| :: lines[i] != []) ==> (TotalLength(lines) == 0 <==> lines == [])
  {
    if lines != [] {
      LengthIs(lines[1..]);
    }
  }

  /** The figures of a page: its lines that are not blank, their characters, how
      many of them are suspect, the verdict on its tables, and whether it refers to
      images, all of which were extracted. A blank page has none of them. */
  lemma PageFiguresAre(index: int, text: string, extracted: set<string>, imageRefs: string -> seq<string>)
    ensures var lines, page := Without(SplitLines(text), IsBlankText), PageScore(index, text, extracted, imageRefs);
      && page.index == index && page.lines == |lines| && page.chars == |Concat(lines)|
      && (page.isEmpty <==> lines == [])
      && page.garbledLines == |Suspects(lines)|
      && (page.hasTable <==> DetectTableDamage(lines).hasTable)
      && (page.tableDamaged <==> DetectTableDamage(lines).damaged)
      && (page.hasImageRef <==> lines != [] && imageRefs(text) != [])
      && (page.imageExtracted <==> lines != [] && forall ref | ref in imageRefs(text) :: ref in extracted)
  {
    var lines := Without(SplitLines(text), IsBlankText);
    InkLinesAre(SplitLines(text));
    LengthIs(lines);
    GarbledAre(lines);
    if lines == [] {
      assert Suspects(lines) == {};
    }
  }

  // --------------------------------------------------------- a document without faults

  ghost predicate IsFaultless(page: Page) { page.garbledLines == 0 && !page.isEmpty && !page.tableDamaged }

  lemma {:induction false} NothingCounted(pages: seq<Page>)
    requires forall i | 0 <= i < |pages| :: IsFaultless(pages[i])
    ensures TotalGarbled(pages) == 0 && EmptyPages(pages) == 0 && DamagedPages(pages) == 0
  {
    if pages != [] {
      NothingCounted(pages[1..]);
      assert EmptyFlags(pages)[1..] == EmptyFlags(pages[1..]);
    }
  }

  lemma ProductOfOnes()
    ensures Product([1.0, 1.0, 1.0, 1.0]) == 1.0
  {
    assert Product([]) == 1.0;
    assert Product([1.0]) == 1.0;
    assert Product([1.0, 1.0]) == 1.0;
    assert Product([1.0, 1.0, 1.0]) == 1.0;
  }

  lemma NoRates(pages: seq<Page>, refs: nat, extracted: nat)
    requires pages != [] && forall i | 0 <= i < |pages| :: IsFaultless(pages[i])
    requires extracted >= refs
    ensures RatesOf(pages, refs, extracted) == Rates(0.0, 0.0, 0.0, 0.0)
  {
    NothingCounted(pages);
    if refs > 0 {
      RatioOrder(extracted as real, refs as real, 1.0);
    }
  }

  lemma PartsOfNone()
    ensures Product(Parts(Rates(0.0, 0.0, 0.0, 0.0))) == 1.0
  {
    assert Parts(Rates(0.0, 0.0, 0.0, 0.0)) == [1.0, 1.0, 1.0, 1.0];
    ProductOfOnes();
  }

  lemma OnePasses(score: real, rates: Rates)
    requires IsScore(score, rates) && Product(Parts(rates)) == 1.0
    ensures score >= 0.7
  {
    AcceptByProduct(score, rates);
  }

  lemma BestPasses(score: real, rates: Rates)
    requires rates == Rates(0.0, 0.0, 0.0, 0.0) && IsScore(score, rates)
    ensures score >= 0.7
  {
    PartsOfNone();
    OnePasses(score, rates);
  }

  /** A document without garbled lines, empty pages, damaged tables and lost
      images has the best score and is accepted. */
  lemma FaultlessPasses(pages: seq<Page>, refs: nat, extracted: nat, score: real)
    requires pages != [] && forall i | 0 <= i < |pages| :: IsFaultless(pages[i])
    requires extracted >= refs
    requires IsScore(score, RatesOf(pages, refs, extracted))
    ensures RatesOf(pages, refs, extracted) == Rates(0.0, 0.0, 0.0, 0.0)
    ensures score >= 0.7
  {
    NoRates(pages, refs, extracted);
    BestPasses(score, RatesOf(pages, refs, extracted));
  }
}
