/** Which images are kept, in terms of pages, sizes and hashes.
    Source: docreader/parser/pdf_parser.py. */
module ImageChoice {
  import opened EmbeddedImages

  /** The number of pages that show an image with this hash. */
  function PagesShowing(meta: seq<Candidate>, hash: string): nat {
    |set i | 0 <= i < |meta| && meta[i].hash == hash :: meta[i].page|
  }

  /** A repeated image is on two pages at least and, if there are text pages, on
      more than the given share of them less one page. */
  predicate IsRepeated(meta: seq<Candidate>, hash: string, textPages: nat, frac: real) {
    && PagesShowing(meta, hash) >= 2
    && (textPages > 0 ==> PagesShowing(meta, hash) as real > textPages as real * frac - 1.0)
  }

  predicate IsLargeEnough(c: Candidate, limits: Limits) {
    c.areaRatio >= limits.minArea && c.width >= limits.minPixels && c.height >= limits.minPixels
  }

  predicate IsWanted(meta: seq<Candidate>, textPages: nat, limits: Limits, i: nat)
    requires i < |meta|
  {
    IsLargeEnough(meta[i], limits) && !IsRepeated(meta, meta[i].hash, textPages, limits.repeatFrac)
  }

  /** An earlier image of the same page with the same hash is wanted. */
  predicate IsCopy(meta: seq<Candidate>, textPages: nat, limits: Limits, i: nat)
    requires i < |meta|
  {
    exists j | 0 <= j < i :: IsWanted(meta, textPages, limits, j) &&
      meta[j].page == meta[i].page && meta[j].hash == meta[i].hash
  }

  lemma RepeatedIs(meta: seq<Candidate>, hash: string, textPages: nat, frac: real)
    ensures IsBanned(meta, hash, Threshold(textPages, frac)) <==> IsRepeated(meta, hash, textPages, frac)
  {
    assert PagesOf(meta, hash) == set i | 0 <= i < |meta| && meta[i].hash == hash :: meta[i].page;
  }

  lemma WantedIs(meta: seq<Candidate>, textPages: nat, limits: Limits, i: nat)
    requires i < |meta|
    ensures IsEligible(meta, limits, Threshold(textPages, limits.repeatFrac), i)
      <==> IsWanted(meta, textPages, limits, i)
  {
    RepeatedIs(meta, meta[i].hash, textPages, limits.repeatFrac);
  }

  lemma ChosenIs(meta: seq<Candidate>, textPages: nat, limits: Limits, i: nat)
    requires i < |meta|
    ensures IsChosen(meta, limits, Threshold(textPages, limits.repeatFrac), i)
      <==> IsWanted(meta, textPages, limits, i) && !IsCopy(meta, textPages, limits, i)
  {
    forall j: nat | j <= i
      ensures IsEligible(meta, limits, Threshold(textPages, limits.repeatFrac), j)
        <==> IsWanted(meta, textPages, limits, j)
    {
      WantedIs(meta, textPages, limits, j);
    }
  }

  /** The images kept are the wanted ones that copy no earlier one, in order,
      and if they are more than the limit, the first of them. */
  lemma KeptExactly(meta: seq<Candidate>, textPages: nat, limits: Limits)
    ensures var kept := Selection(meta, limits, Threshold(textPages, limits.repeatFrac));
      && (forall k, l | 0 <= k < l < |kept| :: kept[k] < kept[l])
      && (forall i | i in kept ::
            i < |meta| && IsWanted(meta, textPages, limits, i) && !IsCopy(meta, textPages, limits, i))
      && (forall i: nat | i < |meta| && IsWanted(meta, textPages, limits, i) && !IsCopy(meta, textPages, limits, i) ::
            i in kept || (|kept| >= limits.maxImages && kept != [] && forall k | k in kept :: k < i))
      && |kept| <= (if limits.maxImages >= 1 then limits.maxImages else 1)
  {
    var threshold := Threshold(textPages, limits.repeatFrac);
    var kept := Selection(meta, limits, threshold);
    SelectionIsChosen(meta, limits, threshold);
    forall i: nat | i < |meta|
      ensures IsChosen(meta, limits, threshold, i)
        <==> IsWanted(meta, textPages, limits, i) && !IsCopy(meta, textPages, limits, i)
    {
      ChosenIs(meta, textPages, limits, i);
    }
    forall i: nat | i < |meta| && IsChosen(meta, limits, threshold, i)
      ensures i in kept || (|kept| >= limits.maxImages && kept != [] && forall k | k in kept :: k < i)
    {
      ChosenIsKept(meta, limits, threshold, i);
    }
  }

  lemma ChosenIsKept(meta: seq<Candidate>, limits: Limits, threshold: int, i: nat)
    requires i < |meta| && IsChosen(meta, limits, threshold, i)
    ensures var kept := Selection(meta, limits, threshold);
      i in kept || (|kept| >= limits.maxImages && kept != [] && forall k | k in kept :: k < i)
  {
    var kept := Selection(meta, limits, threshold);
    SelectionIsComplete(meta, limits, threshold, i);
    SelectionIsChosen(meta, limits, threshold);
  }
}
