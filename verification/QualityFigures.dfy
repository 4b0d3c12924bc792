/** What the figures of the quality score mean: garbled lines, and the shares of
    garbled text, damaged tables and lost images that force a retry. */
module QualityFigures {
  import opened Numbers
  import opened QualityGate
  import opened Text

  // -------------------------------------------------------------- garbled lines

  /** U+FFFD, or a control character other than tab, line feed and carriage
      return. */
  lemma ReplacementIs(c: char)
    ensures IsReplacement(c) <==> c == '\U{fffd}' || (c < ' ' && c != '\t' && c != '\n' && c != '\r')
  {
  }

  function ShortOnes(tokens: seq<string>): set<nat> { set i: nat | i < |tokens| && |tokens[i]| <= 2 }

  lemma {:induction false} ShortTokensNext(tokens: seq<string>, token: string)
    ensures ShortTokens(tokens + [token]) == ShortTokens(tokens) + if |token| <= 2 then 1 else 0
  {
    if tokens == [] {
      assert [] + [token] == [token] && [token][1..] == [];
    } else {
      ShortTokensNext(tokens[1..], token);
      assert (tokens + [token])[1..] == tokens[1..] + [token];
    }
  }

  lemma ShortOnesNext(tokens: seq<string>, token: string)
    ensures |ShortOnes(tokens + [token])| == |ShortOnes(tokens)| + if |token| <= 2 then 1 else 0
  {
    var before, after := ShortOnes(tokens), ShortOnes(tokens + [token]);
    assert forall i: nat | i < |tokens| :: (tokens + [token])[i] == tokens[i];
    if |token| <= 2 {
      assert after == before + {|tokens|};
    } else {
      assert after == before;
    }
  }

  lemma {:induction false} ShortTokensAre(tokens: seq<string>)
    ensures ShortTokens(tokens) == |ShortOnes(tokens)|
  {
    if tokens == [] {
      assert ShortOnes(tokens) == {};
    } else {
      var last := |tokens| - 1;
      assert tokens == tokens[..last] + [tokens[last]];
      ShortTokensAre(tokens[..last]);
      ShortTokensNext(tokens[..last], tokens[last]);
      ShortOnesNext(tokens[..last], tokens[last]);
    }
  }

  lemma ShortShare(tokens: seq<string>)
    requires tokens != []
    ensures ShortTokens(tokens) as real / |tokens| as real > 0.45 <==> 100 * |ShortOnes(tokens)| > 45 * |tokens|
  {
    ShortTokensAre(tokens);
    RatioOrder(ShortTokens(tokens) as real, |tokens| as real, 0.45);
  }

  /** A line is garbled exactly if its stripped text has at least six characters, and
      one of them is a replacement character, or it has at least six words and more
      than 45 percent of them have at most two characters. */
  lemma GarbledLineIs(line: string)
    ensures var t := Trim(line, IsSpace);
      var words := Tokens(t);
      IsGarbledLine(line) <==>
        |t| >= 6 && ((exists c :: c in t && IsReplacement(c))
                     || (|words| >= 6 && 100 * |ShortOnes(words)| > 45 * |words|))
  {
    var t := Trim(line, IsSpace);
    var words := Tokens(t);
    ReplacementIn(t);
    if words != [] {
      ShortShare(words);
    }
  }

  lemma ReplacementIn(t: string)
    ensures HasReplacementChars(t) <==> exists c :: c in t && IsReplacement(c)
  {
    if c :| c in t && IsReplacement(c) {
      var i :| 0 <= i < |t| && t[i] == c;
    }
    if i :| 0 <= i < |t| && IsReplacement(t[i]) {
      assert t[i] in t;
    }
  }

  /** The words of a text hold all its ink, none is empty, and none holds white space. */
  lemma {:induction false} TokensAre(s: string)
    ensures Concat(Tokens(s)) == Ink(s)
    ensures forall i | 0 <= i < |Tokens(s)| :: Tokens(s)[i] != [] && NoneOf(Tokens(s)[i], IsSpace)
  {
    if s != [] {
      TokensAre(s[1..]);
      var r := Tokens(s[1..]);
      if !IsSpace(s[0]) && (|s| == 1 || IsSpace(s[1])) {
        assert ([[s[0]]] + r)[1..] == r;
      } else if !IsSpace(s[0]) {
        var first := [s[0]] + r[0];
        assert ([first] + r[1..])[1..] == r[1..];
        assert Concat(r) == r[0] + Concat(r[1..]);
        Associate([s[0]], r[0], Concat(r[1..]));
      }
    }
  }

  // ------------------------------------------------------- what forces a retry

  /** Every garbled line counts as forty characters: if they make up fifteen percent of
      the text, the document is parsed again. */
  lemma GarbledForcesRetry(pages: seq<Page>, refs: nat, extracted: nat, score: real, garbled: nat)
    requires pages != [] && IsScore(score, RatesOf(pages, refs, extracted))
    requires garbled == GarbledIn(pages) && 100 * (40 * garbled) >= 15 * TotalChars(pages) && TotalChars(pages) > 0
    ensures score < 0.7
  {
    GarbledWeight(pages);
    RatioOrder(TotalGarbled(pages) as real, TotalChars(pages) as real, 0.15);
    ThresholdVetoes(score, RatesOf(pages, refs, extracted));
  }

  function GarbledIn(pages: seq<Page>): nat {
    if pages == [] then 0 else pages[0].garbledLines + GarbledIn(pages[1..])
  }

  lemma {:induction false} GarbledWeight(pages: seq<Page>)
    ensures TotalGarbled(pages) == 40 * GarbledIn(pages)
  {
    if pages != [] {
      GarbledWeight(pages[1..]);
    }
  }

  /** So it is if a quarter of the pages with tables have a damaged one. */
  lemma DamageForcesRetry(pages: seq<Page>, refs: nat, extracted: nat, score: real)
    requires pages != [] && IsScore(score, RatesOf(pages, refs, extracted))
    requires 4 * |DamagedSet(pages)| >= |TableSet(pages)| > 0
    ensures score < 0.7
  {
    PageSetsCount(pages);
    RatioOrder(DamagedPages(pages) as real, TablePages(pages) as real, 0.25);
    ThresholdVetoes(score, RatesOf(pages, refs, extracted));
  }

  function TableSet(pages: seq<Page>): set<nat> { set i: nat | i < |pages| && pages[i].hasTable }

  function DamagedSet(pages: seq<Page>): set<nat> {
    set i: nat | i < |pages| && pages[i].hasTable && pages[i].tableDamaged
  }

  lemma {:induction false} PagesNext(pages: seq<Page>, page: Page)
    ensures TablePages(pages + [page]) == TablePages(pages) + if page.hasTable then 1 else 0
    ensures DamagedPages(pages + [page]) == DamagedPages(pages) + if page.hasTable && page.tableDamaged then 1 else 0
  {
    if pages == [] {
      assert [] + [page] == [page] && [page][1..] == [];
    } else {
      PagesNext(pages[1..], page);
      assert (pages + [page])[1..] == pages[1..] + [page];
    }
  }

  lemma PageSetsNext(pages: seq<Page>, page: Page)
    ensures TableSet(pages + [page]) == TableSet(pages) + if page.hasTable then {|pages|} else {}
    ensures DamagedSet(pages + [page])
      == DamagedSet(pages) + if page.hasTable && page.tableDamaged then {|pages|} else {}
  {
  }

  lemma {:induction false} PageSetsCount(pages: seq<Page>)
    ensures |TableSet(pages)| == TablePages(pages) && |DamagedSet(pages)| == DamagedPages(pages)
  {
    if pages == [] {
      assert TableSet(pages) == {} && DamagedSet(pages) == {};
    } else {
      var last := |pages| - 1;
      assert pages == pages[..last] + [pages[last]];
      PageSetsCount(pages[..last]);
      PagesNext(pages[..last], pages[last]);
      PageSetsNext(pages[..last], pages[last]);
    }
  }

  /** So it is if a fifth of the image references find no extracted image. */
  lemma LossForcesRetry(pages: seq<Page>, refs: nat, extracted: nat, score: real)
    requires pages != [] && IsScore(score, RatesOf(pages, refs, extracted))
    requires refs > 0 && 5 * extracted <= 4 * refs
    ensures score < 0.7
  {
    RatioOrder(extracted as real, refs as real, 0.8);
    ThresholdVetoes(score, RatesOf(pages, refs, extracted));
  }

  /** The reasons named are exactly the rates above their thresholds, in this order,
      and a low score if there are none. */
  lemma ReasonsAre(rates: Rates)
    ensures ReasonsFor(Reasons(rates), rates.garble > 0.15, rates.empty > 0.3, rates.damage > 0.25, rates.loss > 0.2)
  {
    NamedReasons(rates.garble > 0.15, rates.empty > 0.3, rates.damage > 0.25, rates.loss > 0.2);
  }

  ghost predicate ReasonsFor(reasons: seq<Reason>, garbled: bool, empty: bool, damaged: bool, lost: bool) {
    && (Garbled in reasons <==> garbled) && (Empty in reasons <==> empty)
    && (Damaged in reasons <==> damaged) && (ImagesLost in reasons <==> lost)
    && (LowScore in reasons <==> reasons == [LowScore])
    && reasons != [] && NoPages !in reasons
    && forall i, j | 0 <= i < j < |reasons| :: Rank(reasons[i]) < Rank(reasons[j])
  }

  lemma NamedReasons(garbled: bool, empty: bool, damaged: bool, lost: bool)
    ensures var named := (if garbled then [Garbled] else []) + (if empty then [Empty] else [])
        + (if damaged then [Damaged] else []) + (if lost then [ImagesLost] else []);
      ReasonsFor(if named == [] then [LowScore] else named, garbled, empty, damaged, lost)
  {
  }

  function Rank(r: Reason): nat {
    match r
    case NoPages => 0
    case Garbled => 1
    case Empty => 2
    case Damaged => 3
    case ImagesLost => 4
    case LowScore => 5
  }
}
