/** Scoring the quality of a parsed document and deciding whether to retry. */
module QualityGate {
  import opened Numbers
  import opened TablePrinter
  import opened Text

  const GARBLE_THRESHOLD := 0.15
  const EMPTY_PAGE_THRESHOLD := 0.30
  const TABLE_DAMAGE_THRESHOLD := 0.25
  const IMAGE_LOSS_THRESHOLD := 0.20
  const MIN_ACCEPTABLE_SCORE := 0.70
  const CHARS_PER_GARBLED_LINE := 40

  // ------------------------------------------------------------------- a page

  /** The replacement character and the control characters that are not white
      space. */
  predicate IsReplacement(c: char) {
    var n := c as int;
    n == 0xfffd || n <= 8 || n == 11 || n == 12 || 14 <= n <= 31
  }

  predicate HasReplacementChars(s: string) { exists i | 0 <= i < |s| :: IsReplacement(s[i]) }

  function ShortTokens(tokens: seq<string>): (n: nat)
    ensures n <= |tokens|
  {
    if tokens == [] then 0 else (if |tokens[0]| <= 2 then 1 else 0) + ShortTokens(tokens[1..])
  }

  predicate IsGarbledLine(line: string) {
    var t := Trim(line, IsSpace);
    |t| >= 6 &&
    (HasReplacementChars(t) ||
     var tokens := Tokens(t);
     |tokens| >= 6 && ShortTokens(tokens) as real / |tokens| as real > 0.45)
  }

  /** The lines that are not blank. */
  function InkLines(lines: seq<string>): seq<string> {
    if lines == [] then []
    else if Trim(lines[0], IsSpace) != [] then [lines[0]] + InkLines(lines[1..])
    else InkLines(lines[1..])
  }

  function TotalLength(lines: seq<string>): nat {
    if lines == [] then 0 else |lines[0]| + TotalLength(lines[1..])
  }

  function GarbledLines(lines: seq<string>): nat {
    if lines == [] then 0
    else (if IsGarbledLine(lines[0]) || HasReplacementChars(lines[0]) then 1 else 0) + GarbledLines(lines[1..])
  }

  /** The quality figures of a page. */
  datatype Page = Page(index: int, chars: nat, lines: nat, garbledLines: nat, hasTable: bool, tableDamaged: bool,
                       hasImageRef: bool, imageExtracted: bool, isEmpty: bool)

  /** The figures of a page with this text. imageRefs stands for the regular
      expression that finds image references. */
  function PageScore(index: int, text: string, extracted: set<string>, imageRefs: string -> seq<string>): Page {
    var lines := InkLines(SplitLines(text));
    var chars := TotalLength(lines);
    if chars == 0 then Page(index, 0, |lines|, 0, false, false, false, false, true)
    else
      var damage := DetectTableDamage(lines);
      var refs := imageRefs(text);
      Page(index, chars, |lines|, GarbledLines(lines), damage.hasTable, damage.damaged, refs != [],
           forall i | 0 <= i < |refs| :: refs[i] in extracted, false)
  }

  class PageQuality {
    var index: int
    var chars: nat
    var lines: nat
    var garbledLines: nat
    var hasTable: bool
    var tableDamaged: bool
    var hasImageRef: bool
    var imageExtracted: bool
    var isEmpty: bool

    constructor (index: int, chars: nat, lines: nat, isEmpty: bool)
      ensures Value() == Page(index, chars, lines, 0, false, false, false, false, isEmpty)
    {
      this.index, this.chars, this.lines, this.isEmpty := index, chars, lines, isEmpty;
      garbledLines, hasTable, tableDamaged, hasImageRef, imageExtracted := 0, false, false, false, false;
    }

    function Value(): Page
      reads this
    {
      Page(index, chars, lines, garbledLines, hasTable, tableDamaged, hasImageRef, imageExtracted, isEmpty)
    }
  }

  method ScorePage(index: int, text: string, extracted: set<string>, imageRefs: string -> seq<string>)
    returns (pq: PageQuality)
    ensures fresh(pq) && pq.Value() == PageScore(index, text, extracted, imageRefs)
  {
    var lines := InkLines(SplitLines(text));
    var chars := TotalLength(lines);
    pq := new PageQuality(index, chars, |lines|, chars == 0);
    if chars == 0 {
      return;
    }
    pq.garbledLines := GarbledLines(lines);
    var damage := DetectDamage(lines);
    pq.hasTable := damage.hasTable;
    pq.tableDamaged := damage.damaged;
    var refs := imageRefs(text);
    pq.hasImageRef := refs != [];
    pq.imageExtracted := forall i | 0 <= i < |refs| :: refs[i] in extracted;
  }

  lemma {:induction false} InkLinesOf(s: string)
    ensures InkLines(SplitLines(s)) == [] <==> AllOf(s, IsSpace)
    decreases |s|
  {
    if s == [] {
    } else if IsLineBreak(s[0]) {
      var rest := if s[0] == '\r' && |s| > 1 && s[1] == '\n' then s[2..] else s[1..];
      InkLinesOf(rest);
      InkLinesCons([], SplitLines(rest));
      SpacesBefore(s, rest);
    } else {
      var rest := SplitLines(s[1..]);
      InkLinesOf(s[1..]);
      assert s == [s[0]] + s[1..];
      if rest == [] {
        assert SplitLines(s) == [[s[0]]];
        InkLinesCons([s[0]], []);
      } else {
        assert SplitLines(s) == [[s[0]] + rest[0]] + rest[1..];
        assert rest == [rest[0]] + rest[1..];
        InkLinesCons([s[0]] + rest[0], rest[1..]);
        InkLinesCons(rest[0], rest[1..]);
      }
    }
  }

  lemma SpacesBefore(s: string, rest: string)
    requires |rest| <= |s| && rest == s[|s| - |rest|..] && forall i | 0 <= i < |s| - |rest| :: IsSpace(s[i])
    ensures AllOf(s, IsSpace) <==> AllOf(rest, IsSpace)
  {
    var k := |s| - |rest|;
    assert forall i | 0 <= i < |rest| :: rest[i] == s[i + k];
    assert forall i | k <= i < |s| :: s[i] == rest[i - k];
  }

  lemma InkLinesCons(line: string, lines: seq<string>)
    ensures InkLines([line] + lines) == [] <==> AllOf(line, IsSpace) && InkLines(lines) == []
  {
    TrimEmptyIff(line, IsSpace);
    assert ([line] + lines)[1..] == lines;
  }

  lemma {:induction false} NoInkNoLength(lines: seq<string>)
    ensures TotalLength(InkLines(lines)) == 0 <==> InkLines(lines) == []
  {
    if lines != [] {
      NoInkNoLength(lines[1..]);
      TrimEmptyIff(lines[0], IsSpace);
    }
  }

  /** A page counts as empty exactly when its text is white space. */
  lemma EmptyIffBlank(index: int, text: string, extracted: set<string>, imageRefs: string -> seq<string>)
    ensures PageScore(index, text, extracted, imageRefs).isEmpty <==> AllOf(text, IsSpace)
  {
    InkLinesOf(text);
    NoInkNoLength(SplitLines(text));
  }

  // ------------------------------------------------------------------- rates

  datatype Rates = Rates(garble: real, empty: real, damage: real, loss: real)

  function TotalChars(pages: seq<Page>): nat {
    if pages == [] then 0 else pages[0].chars + TotalChars(pages[1..])
  }

  function TotalGarbled(pages: seq<Page>): nat {
    if pages == [] then 0 else pages[0].garbledLines * CHARS_PER_GARBLED_LINE + TotalGarbled(pages[1..])
  }

  /** How many flags are set. */
  function Count(flags: seq<bool>): (n: nat)
    ensures n <= |flags|
  {
    if flags == [] then 0 else (if flags[0] then 1 else 0) + Count(flags[1..])
  }

  function EmptyFlags(pages: seq<Page>): (r: seq<bool>)
    ensures |r| == |pages|
  {
    seq(|pages|, i requires 0 <= i < |pages| => pages[i].isEmpty)
  }

  function EmptyPages(pages: seq<Page>): nat { Count(EmptyFlags(pages)) }

  function TablePages(pages: seq<Page>): nat {
    if pages == [] then 0 else (if pages[0].hasTable then 1 else 0) + TablePages(pages[1..])
  }

  function DamagedPages(pages: seq<Page>): (n: nat)
    ensures n <= TablePages(pages)
  {
    if pages == [] then 0
    else (if pages[0].hasTable && pages[0].tableDamaged then 1 else 0) + DamagedPages(pages[1..])
  }

  /** n of total */
  function Share(n: nat, total: nat): real
    requires total > 0
  {
    n as real / total as real
  }

  function Capped(x: real): real { if x <= 1.0 then x else 1.0 }

  function LossRate(refs: nat, extracted: nat): real {
    if refs > 0 then 1.0 - Capped(Share(extracted, refs)) else 0.0
  }

  function RatesOf(pages: seq<Page>, refs: nat, extracted: nat): Rates
    requires pages != []
  {
    var chars := if TotalChars(pages) == 0 then 1 else TotalChars(pages);
    Rates(Capped(Share(TotalGarbled(pages), chars)),
          Share(EmptyPages(pages), |pages|),
          if TablePages(pages) == 0 then 0.0 else Share(DamagedPages(pages), TablePages(pages)),
          LossRate(refs, extracted))
  }

  // -------------------------------------------------------------------- score

  /** 1 for a rate of nothing, 0 from the threshold on. */
  function Component(actual: real, threshold: real): (c: real)
    requires threshold > 0.0
    ensures 0.0 <= c <= 1.0
  {
    if actual <= 0.0 then 1.0
    else if actual >= threshold then 0.0
    else ShareBelow(actual, threshold); 1.0 - actual / threshold
  }

  lemma ShareBelow(actual: real, threshold: real)
    requires 0.0 < actual < threshold
    ensures 0.0 < actual / threshold < 1.0
  {
    var q := actual / threshold;
    assert q * threshold == actual;
    assert q <= 0.0 ==> q * threshold <= 0.0;
    assert q >= 1.0 ==> (q - 1.0) * threshold >= 0.0;
  }

  /** What a rate contributes to the product: its component, but at least 0.01. */
  function Part(actual: real, threshold: real): (c: real)
    requires threshold > 0.0
    ensures 0.01 <= c <= 1.0
  {
    var c := Component(actual, threshold);
    if c >= 0.01 then c else 0.01
  }

  function Parts(rates: Rates): (r: seq<real>)
    ensures |r| == 4 && forall i | 0 <= i < 4 :: 0.0 < r[i] <= 1.0
  {
    [Part(rates.garble, GARBLE_THRESHOLD), Part(rates.empty, EMPTY_PAGE_THRESHOLD),
     Part(rates.damage, TABLE_DAMAGE_THRESHOLD), Part(rates.loss, IMAGE_LOSS_THRESHOLD)]
  }

  function Product(factors: seq<real>): real {
    if factors == [] then 1.0 else Times(factors[0], Product(factors[1..]))
  }

  function Power(x: real, n: nat): real { if n == 0 then 1.0 else Times(x, Power(x, n - 1)) }

  /** The geometric mean that the source computes with exp and log. */
  ghost predicate IsMean(mean: real, factors: seq<real>) {
    mean > 0.0 && Power(mean, |factors|) == Product(factors)
  }

  ghost predicate IsScore(score: real, rates: Rates) { IsMean(score, Parts(rates)) }

  datatype Reason = NoPages | Garbled | Empty | Damaged | ImagesLost | LowScore

  /** The reasons given for a retry. */
  function Reasons(rates: Rates): seq<Reason> {
    var named :=
      (if rates.garble > GARBLE_THRESHOLD then [Garbled] else [])
      + (if rates.empty > EMPTY_PAGE_THRESHOLD then [Empty] else [])
      + (if rates.damage > TABLE_DAMAGE_THRESHOLD then [Damaged] else [])
      + (if rates.loss > IMAGE_LOSS_THRESHOLD then [ImagesLost] else []);
    if named == [] then [LowScore] else named
  }

  class Report {
    var pageCount: nat
    var rates: Rates
    var score: real
    var pages: seq<PageQuality>
    var shouldRetry: bool
    var reasons: seq<Reason>

    constructor (pageCount: nat, rates: Rates, score: real, pages: seq<PageQuality>)
      ensures this.pageCount == pageCount && this.rates == rates && this.score == score && this.pages == pages
      ensures !shouldRetry && reasons == []
    {
      this.pageCount, this.rates, this.score, this.pages := pageCount, rates, score, pages;
      shouldRetry, reasons := false, [];
    }
  }

  function Values(pages: seq<PageQuality>): (r: seq<Page>)
    reads pages
    ensures |r| == |pages|
  {
    seq(|pages|, i requires 0 <= i < |pages| reads pages => pages[i].Value())
  }

  /** The report; score is the fourth root of the product of the components. */
  method BuildReport(pages: seq<PageQuality>, refs: nat, extracted: nat, score: real) returns (report: Report)
    requires pages != [] ==> IsScore(score, RatesOf(Values(pages), refs, extracted))
    ensures fresh(report) && report.pageCount == |pages| && report.pages == pages
    ensures report.shouldRetry <==> pages == [] || score < 0.7
    ensures pages == [] ==> report.reasons == [NoPages]
    ensures pages != [] ==>
      var rates := RatesOf(Values(pages), refs, extracted);
      report.rates == rates && report.score == score &&
      report.reasons == if report.shouldRetry then Reasons(rates) else []
  {
    if pages == [] {
      report := new Report(0, Rates(0.0, 0.0, 0.0, 0.0), 1.0, []);
      report.shouldRetry := true;
      report.reasons := [NoPages];
      return;
    }
    var rates := RatesOf(Values(pages), refs, extracted);
    report := new Report(|pages|, rates, score, pages);
    if score < MIN_ACCEPTABLE_SCORE {
      report.shouldRetry := true;
      var reasons: seq<Reason> := [];
      if rates.garble > GARBLE_THRESHOLD {
        reasons := reasons + [Garbled];
      }
      if rates.empty > EMPTY_PAGE_THRESHOLD {
        reasons := reasons + [Empty];
      }
      if rates.damage > TABLE_DAMAGE_THRESHOLD {
        reasons := reasons + [Damaged];
      }
      if rates.loss > IMAGE_LOSS_THRESHOLD {
        reasons := reasons + [ImagesLost];
      }
      report.reasons := if reasons != [] then reasons else [LowScore];
    }
  }

  // ----------------------------------------------------------- what the gate does

  lemma {:induction false} PowerPositive(x: real, n: nat)
    requires x > 0.0
    ensures Power(x, n) > 0.0
  {
    if n > 0 {
      PowerPositive(x, n - 1);
      TimesStrict(0.0, x, Power(x, n - 1));
    }
  }

  lemma {:induction false} PowerOrder(x: real, y: real, n: nat)
    requires 0.0 < x < y
    ensures Power(x, n) <= Power(y, n)
    ensures n > 0 ==> Power(x, n) < Power(y, n)
  {
    if n > 0 {
      PowerOrder(x, y, n - 1);
      PowerPositive(x, n - 1);
      TimesStrict(x, y, Power(x, n - 1));
      TimesOrder(Power(x, n - 1), Power(y, n - 1), y);
    }
  }

  lemma PassingPower()
    ensures Power(MIN_ACCEPTABLE_SCORE, 4) == 0.2401
  {
    assert Power(0.7, 1) == 0.7 * Power(0.7, 0);
    assert Power(0.7, 2) == 0.7 * 0.7;
    assert Power(0.7, 3) == 0.7 * 0.49;
  }

  /** The score passes exactly when the product reaches 0.7 to the fourth. */
  lemma AcceptByProduct(score: real, rates: Rates)
    requires IsScore(score, rates)
    ensures score >= 0.7 <==> Product(Parts(rates)) >= 0.2401
  {
    PassingPower();
    if score < MIN_ACCEPTABLE_SCORE {
      PowerOrder(score, MIN_ACCEPTABLE_SCORE, 4);
    } else if score > MIN_ACCEPTABLE_SCORE {
      PowerOrder(MIN_ACCEPTABLE_SCORE, score, 4);
    }
  }

  /** A product of two factors of at most 1 is at most each of them. */
  lemma TwoBelow(a: real, b: real)
    requires 0.0 <= a <= 1.0 && 0.0 <= b <= 1.0
    ensures 0.0 <= Times(a, b) <= a && Times(a, b) <= b
  {
    TimesOrder(0.0, b, a);
    TimesOrder(b, 1.0, a);
    TimesOrder(a, 1.0, b);
  }

  ghost predicate InUnit(factors: seq<real>) {
    forall i | 0 <= i < |factors| :: 0.0 <= factors[i] <= 1.0
  }

  /** A product of factors of at most 1 is at most each of them. */
  lemma {:induction false} ProductBelow(factors: seq<real>)
    requires InUnit(factors)
    ensures 0.0 <= Product(factors) <= 1.0
    ensures forall i | 0 <= i < |factors| :: Product(factors) <= factors[i]
  {
    if factors != [] {
      ProductBelow(factors[1..]);
      TwoBelow(factors[0], Product(factors[1..]));
      forall i | 0 <= i < |factors| ensures Product(factors) <= factors[i] {
        assert i > 0 ==> factors[i] == factors[1..][i - 1];
      }
    }
  }

  /** A product of smaller factors is smaller. */
  lemma {:induction false} ProductMonotone(a: seq<real>, b: seq<real>)
    requires |a| == |b| && forall i | 0 <= i < |a| :: 0.0 <= a[i] <= b[i]
    ensures 0.0 <= Product(a) <= Product(b)
  {
    if a != [] {
      ProductMonotone(a[1..], b[1..]);
      TimesOrder(0.0, a[0], Product(a[1..]));
      TimesOrder(a[0], b[0], Product(a[1..]));
      TimesOrder(Product(a[1..]), Product(b[1..]), b[0]);
    }
  }

  /** A component that is large enough bounds its rate. */
  lemma ComponentBounds(actual: real, threshold: real, least: real)
    requires threshold > 0.0 && 0.0 < least <= 1.0
    ensures Component(actual, threshold) >= least <==> actual <= Times(1.0 - least, threshold)
  {
    TimesOrder(0.0, 1.0 - least, threshold);
    TimesStrict(1.0 - least, 1.0, threshold);
    RatioOrder(actual, threshold, 1.0 - least);
  }

  lemma PartBoundsRate(actual: real, threshold: real)
    requires threshold > 0.0
    ensures Part(actual, threshold) >= 0.2401 <==> actual <= Times(0.7599, threshold)
  {
    ComponentBounds(actual, threshold, 0.2401);
  }

  /** Acceptance forces every rate to at most 0.7599 of its threshold. */
  lemma AcceptanceBoundsRates(score: real, rates: Rates)
    requires IsScore(score, rates) && score >= 0.7
    ensures rates.garble <= 0.7599 * 0.15 && rates.empty <= 0.7599 * 0.3
    ensures rates.damage <= 0.7599 * 0.25 && rates.loss <= 0.7599 * 0.2
  {
    AcceptByProduct(score, rates);
    var parts := Parts(rates);
    ProductBelow(parts);
    assert parts[0] >= 0.2401 && parts[1] >= 0.2401 && parts[2] >= 0.2401 && parts[3] >= 0.2401;
    PartBoundsRate(rates.garble, GARBLE_THRESHOLD);
    PartBoundsRate(rates.empty, EMPTY_PAGE_THRESHOLD);
    PartBoundsRate(rates.damage, TABLE_DAMAGE_THRESHOLD);
    PartBoundsRate(rates.loss, IMAGE_LOSS_THRESHOLD);
  }

  /** The bound is exact: with the other rates at nothing, a rate passes exactly
      up to 0.7599 of its threshold. */
  lemma SingleRateExact(score: real, rates: Rates)
    requires IsScore(score, rates) && rates.garble <= 0.0 && rates.damage <= 0.0 && rates.loss <= 0.0
    ensures score >= 0.7 <==> rates.empty <= 0.7599 * 0.3
  {
    AcceptByProduct(score, rates);
    PartBoundsRate(rates.empty, EMPTY_PAGE_THRESHOLD);
    ProductOfOne(Part(rates.empty, EMPTY_PAGE_THRESHOLD));
  }

  lemma ProductOfOne(x: real)
    ensures Product([1.0, x, 1.0, 1.0]) == x
  {
    assert [1.0, x, 1.0, 1.0][1..] == [x, 1.0, 1.0];
    assert [x, 1.0, 1.0][1..] == [1.0, 1.0];
    assert [1.0, 1.0][1..] == [1.0];
    assert Product([1.0]) == 1.0;
    assert Product([1.0, 1.0]) == 1.0;
  }

  /** A rate at its threshold vetoes. */
  lemma ThresholdVetoes(score: real, rates: Rates)
    requires IsScore(score, rates)
    requires rates.garble >= 0.15 || rates.empty >= 0.3 || rates.damage >= 0.25 || rates.loss >= 0.2
    ensures score < 0.7
  {
    if score >= MIN_ACCEPTABLE_SCORE {
      AcceptanceBoundsRates(score, rates);
    }
  }

  lemma ComponentAntitone(a: real, b: real, threshold: real)
    requires threshold > 0.0 && a <= b
    ensures Component(a, threshold) >= Component(b, threshold)
  {
    var c := Component(b, threshold);
    if c > 0.0 {
      ComponentBounds(b, threshold, c);
      ComponentBounds(a, threshold, c);
    }
  }

  lemma PartAntitone(a: real, b: real, threshold: real)
    requires threshold > 0.0 && a <= b
    ensures Part(a, threshold) >= Part(b, threshold)
  {
    ComponentAntitone(a, b, threshold);
  }

  /** Worse rates never give a better score. */
  lemma ScoreAntitone(score: real, rates: Rates, score': real, rates': Rates)
    requires IsScore(score, rates) && IsScore(score', rates')
    requires rates.garble <= rates'.garble && rates.empty <= rates'.empty
    requires rates.damage <= rates'.damage && rates.loss <= rates'.loss
    ensures score >= score'
  {
    PartAntitone(rates.garble, rates'.garble, GARBLE_THRESHOLD);
    PartAntitone(rates.empty, rates'.empty, EMPTY_PAGE_THRESHOLD);
    PartAntitone(rates.damage, rates'.damage, TABLE_DAMAGE_THRESHOLD);
    PartAntitone(rates.loss, rates'.loss, IMAGE_LOSS_THRESHOLD);
    ProductMonotone(Parts(rates'), Parts(rates));
    if score < score' {
      PowerOrder(score, score', 4);
    }
  }

  // ------------------------------------------------------------ whole documents

  /** What the parser knows of a page: whether it has a text layer, and its text. */
  datatype Source = Source(isText: bool, text: string)

  /** The page figures of a document; pages without text layer count as empty. */
  function Scores(sources: seq<Source>, extracted: set<string>, imageRefs: string -> seq<string>): (r: seq<Page>)
    ensures |r| == |sources|
  {
    seq(|sources|, i requires 0 <= i < |sources| =>
      PageScore(i, if sources[i].isText then sources[i].text else "", extracted, imageRefs))
  }

  predicate IsBlankPage(source: Source) { !source.isText || AllOf(source.text, IsSpace) }

  function BlankFlags(sources: seq<Source>): (r: seq<bool>)
    ensures |r| == |sources|
  {
    seq(|sources|, i requires 0 <= i < |sources| => IsBlankPage(sources[i]))
  }

  /** How many pages have no text layer or only white space. */
  function BlankPages(sources: seq<Source>): nat { Count(BlankFlags(sources)) }

  lemma ScoresOf(sources: seq<Source>, extracted: set<string>, imageRefs: string -> seq<string>)
    ensures EmptyPages(Scores(sources, extracted, imageRefs)) == BlankPages(sources)
  {
    var pages := Scores(sources, extracted, imageRefs);
    forall i | 0 <= i < |pages| ensures pages[i].isEmpty <==> IsBlankPage(sources[i]) {
      EmptyIffBlank(i, if sources[i].isText then sources[i].text else "", extracted, imageRefs);
    }
    assert EmptyFlags(pages) == BlankFlags(sources);
  }

  lemma EmptyPagesForceRetry(pages: seq<Page>, refs: nat, extracted: nat, score: real)
    requires pages != [] && IsScore(score, RatesOf(pages, refs, extracted))
    ensures 100 * EmptyPages(pages) >= 30 * |pages| ==> score < 0.7
    ensures score >= 0.7 ==> 100000 * EmptyPages(pages) <= 22797 * |pages|
  {
    BlankShare(EmptyPages(pages), |pages|);
    if score >= MIN_ACCEPTABLE_SCORE {
      AcceptanceBoundsRates(score, RatesOf(pages, refs, extracted));
    }
  }

  /** Thirty percent of blank pages force a retry, and an accepted document has at
      most 22.797 percent of them. */
  lemma BlankPagesForceRetry(sources: seq<Source>, extracted: set<string>, imageRefs: string -> seq<string>,
                             images: nat, score: real)
    requires sources != []
    requires IsScore(score, RatesOf(Scores(sources, extracted, imageRefs), images, images))
    ensures 100 * BlankPages(sources) >= 30 * |sources| ==> score < 0.7
    ensures score >= 0.7 ==> 100000 * BlankPages(sources) <= 22797 * |sources|
  {
    ScoresOf(sources, extracted, imageRefs);
    EmptyPagesForceRetry(Scores(sources, extracted, imageRefs), images, images, score);
  }

  lemma BlankShare(n: nat, total: nat)
    requires total > 0
    ensures Share(n, total) <= 0.22797 <==> 100000 * n <= 22797 * total
  {
    RatioOrder(n as real, total as real, 0.22797);
  }

  /** The parser passes the number of images twice, so no image ever counts as
      lost and that component never lowers the score. */
  lemma NoImageLoss(pages: seq<Page>, images: nat)
    requires pages != []
    ensures RatesOf(pages, images, images).loss == 0.0
    ensures Component(RatesOf(pages, images, images).loss, IMAGE_LOSS_THRESHOLD) == 1.0
  {
    if images > 0 {
      RatioOrder(images as real, images as real, 1.0);
    }
  }
}
