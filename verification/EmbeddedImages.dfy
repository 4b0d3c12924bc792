/** Choosing which embedded images of a document to keep. */
module EmbeddedImages {
  import opened Numbers

  datatype Candidate = Candidate(page: int, width: int, height: int, areaRatio: real, hash: string)

  datatype Limits = Limits(minPixels: int, minArea: real, repeatFrac: real, maxImages: int)

  /** From how many pages on a hash counts as a logo or watermark. */
  function Threshold(textPages: int, frac: real): (n: int)
    ensures n >= 2
  {
    if textPages == 0 then 2
    else
      var n := Truncated(textPages as real * frac);
      if n >= 2 then n else 2
  }

  /** The pages on which a hash occurs. */
  function PagesOf(meta: seq<Candidate>, hash: string): set<int> {
    set i | 0 <= i < |meta| && meta[i].hash == hash :: meta[i].page
  }

  predicate IsBanned(meta: seq<Candidate>, hash: string, threshold: int) {
    |PagesOf(meta, hash)| >= threshold
  }

  /** Large enough, and not a repeated image. */
  predicate IsEligible(meta: seq<Candidate>, limits: Limits, threshold: int, i: nat)
    requires i < |meta|
  {
    && meta[i].areaRatio >= limits.minArea
    && meta[i].width >= limits.minPixels && meta[i].height >= limits.minPixels
    && !IsBanned(meta, meta[i].hash, threshold)
  }

  function Key(c: Candidate): (int, string) { (c.page, c.hash) }

  /** Eligible, and the first eligible one of its page and hash. */
  ghost predicate IsChosen(meta: seq<Candidate>, limits: Limits, threshold: int, i: nat)
    requires i < |meta|
  {
    && IsEligible(meta, limits, threshold, i)
    && forall j | 0 <= j < i :: IsEligible(meta, limits, threshold, j) ==> Key(meta[j]) != Key(meta[i])
  }

  /** The chosen indices below n, in order. */
  ghost function ChosenBelow(meta: seq<Candidate>, limits: Limits, threshold: int, n: nat): seq<nat>
    requires n <= |meta|
  {
    if n == 0 then []
    else
      var r := ChosenBelow(meta, limits, threshold, n - 1);
      if IsChosen(meta, limits, threshold, n - 1) then r + [n - 1] else r
  }

  /** They are exactly the chosen indices, in increasing order. */
  lemma {:induction false} ChosenExactly(meta: seq<Candidate>, limits: Limits, threshold: int, n: nat)
    requires n <= |meta|
    ensures var r := ChosenBelow(meta, limits, threshold, n);
      && (forall k | 0 <= k < |r| :: r[k] < n)
      && (forall k, l | 0 <= k < l < |r| :: r[k] < r[l])
      && (forall i: nat | i < n :: i in r <==> IsChosen(meta, limits, threshold, i))
  {
    if n > 0 {
      ChosenExactly(meta, limits, threshold, n - 1);
    }
  }

  lemma {:induction false} ChosenPrefix(meta: seq<Candidate>, limits: Limits, threshold: int, m: nat, n: nat)
    requires m <= n <= |meta|
    ensures ChosenBelow(meta, limits, threshold, m) <= ChosenBelow(meta, limits, threshold, n)
  {
    if m < n {
      ChosenPrefix(meta, limits, threshold, m, n - 1);
    }
  }

  /** The cap that the loop enforces: it looks at the count after each image, so
      even a cap of zero lets one image pass. */
  function Cap(limits: Limits): (n: nat)
    ensures n >= 1
  {
    if limits.maxImages >= 1 then limits.maxImages else 1
  }

  ghost function FirstOf(s: seq<nat>, n: nat): seq<nat> { if |s| <= n then s else s[..n] }

  /** The first chosen indices, up to the cap. */
  ghost function Selection(meta: seq<Candidate>, limits: Limits, threshold: int): seq<nat> {
    FirstOf(ChosenBelow(meta, limits, threshold, |meta|), Cap(limits))
  }

  /** The pages of every hash, as a dictionary. */
  method CollectPages(meta: seq<Candidate>) returns (hashPages: map<string, set<int>>)
    ensures forall h :: h in hashPages <==> exists i :: 0 <= i < |meta| && meta[i].hash == h
    ensures forall h | h in hashPages :: hashPages[h] == PagesOf(meta, h)
  {
    hashPages := map[];
    for i := 0 to |meta|
      invariant forall h :: h in hashPages <==> exists k :: 0 <= k < i && meta[k].hash == h
      invariant forall h | h in hashPages :: hashPages[h] == PagesOf(meta[..i], h)
    {
      var m := meta[i];
      var pages := if m.hash in hashPages then hashPages[m.hash] else {};
      forall h ensures PagesOf(meta[..i + 1], h) == PagesOf(meta[..i], h) + (if h == m.hash then {m.page} else {}) {
        OneMorePage(meta, i, h);
      }
      if m.hash !in hashPages {
        assert PagesOf(meta[..i], m.hash) == {};
      }
      hashPages := hashPages[m.hash := pages + {m.page}];
    }
    assert meta[..|meta|] == meta;
  }

  lemma OneMorePage(meta: seq<Candidate>, i: nat, h: string)
    requires i < |meta|
    ensures PagesOf(meta[..i + 1], h) == PagesOf(meta[..i], h) + (if h == meta[i].hash then {meta[i].page} else {})
  {
    var before, after := meta[..i], meta[..i + 1];
    forall p ensures p in PagesOf(after, h) <==> p in PagesOf(before, h) || (h == meta[i].hash && p == meta[i].page) {
      if p in PagesOf(before, h) {
        var k :| 0 <= k < |before| && before[k].hash == h && before[k].page == p;
        assert after[k] == before[k];
      }
      if p in PagesOf(after, h) {
        var k :| 0 <= k < |after| && after[k].hash == h && after[k].page == p;
        assert k < i ==> before[k] == after[k];
      }
      if h == meta[i].hash && p == meta[i].page {
        assert after[i] == meta[i];
      }
    }
  }

  /** The repeated hashes. */
  method FindBanned(meta: seq<Candidate>, threshold: int) returns (banned: set<string>)
    ensures forall i | 0 <= i < |meta| :: meta[i].hash in banned <==> IsBanned(meta, meta[i].hash, threshold)
  {
    var hashPages := CollectPages(meta);
    banned := set h | h in hashPages && |hashPages[h]| >= threshold;
    forall i | 0 <= i < |meta| ensures meta[i].hash in banned <==> IsBanned(meta, meta[i].hash, threshold) {
      assert meta[i].hash in hashPages;
    }
  }

  /** The keys of the eligible candidates below n. */
  ghost function KeysBelow(meta: seq<Candidate>, limits: Limits, threshold: int, n: nat): set<(int, string)>
    requires n <= |meta|
  {
    if n == 0 then {}
    else
      var r := KeysBelow(meta, limits, threshold, n - 1);
      if IsEligible(meta, limits, threshold, n - 1) then r + {Key(meta[n - 1])} else r
  }

  lemma {:induction false} KeyOwner(meta: seq<Candidate>, limits: Limits, threshold: int, n: nat, key: (int, string))
    returns (j: nat)
    requires n <= |meta| && key in KeysBelow(meta, limits, threshold, n)
    ensures j < n && IsEligible(meta, limits, threshold, j) && Key(meta[j]) == key
  {
    if key in KeysBelow(meta, limits, threshold, n - 1) {
      j := KeyOwner(meta, limits, threshold, n - 1, key);
    } else {
      j := n - 1;
    }
  }

  lemma {:induction false} KeyListed(meta: seq<Candidate>, limits: Limits, threshold: int, n: nat, j: nat)
    requires j < n <= |meta| && IsEligible(meta, limits, threshold, j)
    ensures Key(meta[j]) in KeysBelow(meta, limits, threshold, n)
  {
    if j < n - 1 {
      KeyListed(meta, limits, threshold, n - 1, j);
    }
  }

  lemma ChosenByKey(meta: seq<Candidate>, limits: Limits, threshold: int, i: nat)
    requires i < |meta|
    ensures IsChosen(meta, limits, threshold, i) <==>
      IsEligible(meta, limits, threshold, i) && Key(meta[i]) !in KeysBelow(meta, limits, threshold, i)
  {
    if Key(meta[i]) in KeysBelow(meta, limits, threshold, i) {
      var j := KeyOwner(meta, limits, threshold, i, Key(meta[i]));
    } else {
      forall j: nat | j < i && IsEligible(meta, limits, threshold, j) ensures Key(meta[j]) != Key(meta[i]) {
        KeyListed(meta, limits, threshold, i, j);
      }
    }
  }

  /** What the turn for candidate i adds. */
  lemma OneMoreCandidate(meta: seq<Candidate>, limits: Limits, threshold: int, i: nat)
    requires i < |meta|
    ensures var key := Key(meta[i]);
      var keys := KeysBelow(meta, limits, threshold, i);
      var eligible := IsEligible(meta, limits, threshold, i);
      && KeysBelow(meta, limits, threshold, i + 1) == (if eligible then keys + {key} else keys)
      && ChosenBelow(meta, limits, threshold, i + 1)
         == ChosenBelow(meta, limits, threshold, i) + (if eligible && key !in keys then [i] else [])
  {
    ChosenByKey(meta, limits, threshold, i);
  }

  /** Selection returns exactly the first chosen indices, up to the cap. */
  method SelectEmbeddedImages(meta: seq<Candidate>, textPages: int, limits: Limits) returns (kept: seq<nat>)
    ensures kept == Selection(meta, limits, Threshold(textPages, limits.repeatFrac))
  {
    var threshold := Threshold(textPages, limits.repeatFrac);
    var banned := FindBanned(meta, threshold);
    kept := [];
    var seen: set<(int, string)> := {};
    for i := 0 to |meta|
      invariant kept == ChosenBelow(meta, limits, threshold, i) && |kept| < Cap(limits)
      invariant seen == KeysBelow(meta, limits, threshold, i)
    {
      var m := meta[i];
      OneMoreCandidate(meta, limits, threshold, i);
      if m.areaRatio < limits.minArea {
        continue;
      }
      if m.width < limits.minPixels || m.height < limits.minPixels {
        continue;
      }
      if m.hash in banned {
        continue;
      }
      var key := Key(m);
      if key in seen {
        assert seen + {key} == seen;
        continue;
      }
      seen := seen + {key};
      kept := kept + [i];
      if |kept| >= limits.maxImages {
        ChosenPrefix(meta, limits, threshold, i + 1, |meta|);
        return;
      }
    }
  }

  /** The first eligible candidate with the key of an eligible candidate. */
  lemma {:induction false} FirstWithKey(meta: seq<Candidate>, limits: Limits, threshold: int, i: nat) returns (k: nat)
    requires i < |meta| && IsEligible(meta, limits, threshold, i)
    ensures k <= i && IsChosen(meta, limits, threshold, k) && Key(meta[k]) == Key(meta[i])
  {
    k := i;
    if !IsChosen(meta, limits, threshold, i) {
      var j: nat :| j < i && IsEligible(meta, limits, threshold, j) && Key(meta[j]) == Key(meta[i]);
      k := FirstWithKey(meta, limits, threshold, j);
    }
  }

  lemma SelectionIsChosen(meta: seq<Candidate>, limits: Limits, threshold: int)
    ensures var kept := Selection(meta, limits, threshold);
      && |kept| <= Cap(limits)
      && (forall k | 0 <= k < |kept| :: kept[k] < |meta| && IsChosen(meta, limits, threshold, kept[k]))
      && (forall k, l | 0 <= k < l < |kept| :: kept[k] < kept[l])
  {
    var all := ChosenBelow(meta, limits, threshold, |meta|);
    var kept := Selection(meta, limits, threshold);
    ChosenExactly(meta, limits, threshold, |meta|);
    assert kept <= all;
    forall k | 0 <= k < |kept| ensures kept[k] < |meta| && IsChosen(meta, limits, threshold, kept[k]) {
      assert kept[k] == all[k] && all[k] in all;
    }
  }

  /** No kept image repeats across pages, and no later one has the same page and
      hash. */
  lemma SelectionHasNoRepeats(meta: seq<Candidate>, limits: Limits, threshold: int, k: nat)
    requires k < |Selection(meta, limits, threshold)|
    ensures var kept := Selection(meta, limits, threshold);
      && kept[k] < |meta|
      && |PagesOf(meta, meta[kept[k]].hash)| < threshold
      && forall l | k < l < |kept| :: kept[k] < kept[l] < |meta| && Key(meta[kept[k]]) != Key(meta[kept[l]])
  {
    SelectionIsChosen(meta, limits, threshold);
  }

  /** Every eligible image is kept, or an earlier copy on its page is, unless the
      cap is reached by earlier images. */
  lemma SelectionIsComplete(meta: seq<Candidate>, limits: Limits, threshold: int, i: nat)
    requires i < |meta| && IsEligible(meta, limits, threshold, i)
    ensures var kept := Selection(meta, limits, threshold);
      || (exists k :: 0 <= k < |kept| && kept[k] <= i && Key(meta[kept[k]]) == Key(meta[i]))
      || (|kept| == Cap(limits) && forall k | 0 <= k < |kept| :: kept[k] < i)
  {
    var all := ChosenBelow(meta, limits, threshold, |meta|);
    var kept := Selection(meta, limits, threshold);
    var first := FirstWithKey(meta, limits, threshold, i);
    ChosenExactly(meta, limits, threshold, |meta|);
    assert first in all;
    var k :| 0 <= k < |all| && all[k] == first;
    if k < |kept| {
      assert kept[k] == first;
    } else {
      forall l | 0 <= l < |kept| ensures kept[l] < i {
        assert kept[l] == all[l] && all[l] < all[k];
      }
    }
  }

  // ------------------------------------------------------------- the given limit

  /** The selection stays within the given limit exactly when the limit is at least
      one, or is zero and nothing is eligible. */
  lemma WithinLimit(meta: seq<Candidate>, limits: Limits, threshold: int)
    ensures |Selection(meta, limits, threshold)| <= limits.maxImages <==>
      || limits.maxImages >= 1
      || (limits.maxImages == 0 && forall i | 0 <= i < |meta| :: !IsEligible(meta, limits, threshold, i))
  {
    var all := ChosenBelow(meta, limits, threshold, |meta|);
    ChosenExactly(meta, limits, threshold, |meta|);
    if i: nat :| i < |meta| && IsEligible(meta, limits, threshold, i) {
      var first := FirstWithKey(meta, limits, threshold, i);
      assert first in all;
    } else if all != [] {
      assert all[0] in all;
    }
  }

  /** With a limit of zero a single large enough image is kept all the same. */
  lemma LimitOfZero(c: Candidate, limits: Limits, threshold: int)
    requires limits.maxImages == 0 && threshold >= 2
    requires c.areaRatio >= limits.minArea && c.width >= limits.minPixels && c.height >= limits.minPixels
    ensures Selection([c], limits, threshold) == [0]
  {
    assert PagesOf([c], c.hash) == {c.page};
    assert IsEligible([c], limits, threshold, 0);
    assert ChosenBelow([c], limits, threshold, 0) == [];
  }
}
