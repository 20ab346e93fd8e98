/** The integer part of the comparison between true and predicted motif
    sites: the number of exact matches and the average positional overlap of
    windows of length ML. Sites are already parsed integers here. */
module SiteComparison {

  datatype Result<T, E> = Success(value: T) | Failure(error: E)

  /** The three ways the comparison fails:
      - a predicted list shorter than the true one: an index error at the
        first missing entry;
      - a predicted list longer than the true one: its entries past the true
        list are never parsed, so the element-wise difference of the two
        arrays fails;
      - both lists empty: the average divides by zero. */
  datatype SitesError = PredictionMissing | LengthMismatch | NoSites

  /** Number of exactly predicted sites and average overlap per site. */
  datatype SiteStats = SiteStats(count: nat, overlap: real)

  function Abs(d: int): nat {
    if d < 0 then -d else d
  }

  /** Overlap of the length-ML windows at a true and a predicted site:
      ML - |site - predicted| when positive, else nothing. */
  function SiteOverlap(site: int, predicted: int, ml: int): (c: int)
    ensures 0 <= c
    ensures ml >= 0 ==> c <= ml
  {
    var current := ml - Abs(site - predicted);
    if current > 0 then current else 0
  }

  /** Number of indices below |sites| where the two lists agree. */
  function MatchCount(sites: seq<int>, predicted: seq<int>): (n: nat)
    requires |sites| <= |predicted|
    ensures n <= |sites|
  {
    if |sites| == 0 then 0
    else
      var i := |sites| - 1;
      MatchCount(sites[..i], predicted) + (if sites[i] == predicted[i] then 1 else 0)
  }

  /** Sum of the per-site overlaps, site by site. */
  function OverlapSum(sites: seq<int>, predicted: seq<int>, ml: int): (total: int)
    requires |sites| <= |predicted|
    ensures 0 <= total
    ensures ml >= 0 ==> total <= |sites| * ml
  {
    if |sites| == 0 then 0
    else
      var i := |sites| - 1;
      OverlapSum(sites[..i], predicted, ml) + SiteOverlap(sites[i], predicted[i], ml)
  }

  /** The comparison: the loop walks the true sites in order, counting exact
      matches and adding up positive overlaps; the two lists are then
      differenced element-wise, and the overlap is averaged over the number
      of sites. Only lists of one nonzero length succeed. The average lies
      in [0, ML] and the count in [0, |sites|]; identical lists score a full
      count and an average of exactly ML. */
  method SitesNorm(sites: seq<int>, predicted: seq<int>, ml: int) returns (r: Result<SiteStats, SitesError>)
    ensures |predicted| < |sites| ==> r == Failure(PredictionMissing)
    ensures |sites| < |predicted| ==> r == Failure(LengthMismatch)
    ensures |sites| == |predicted| == 0 ==> r == Failure(NoSites)
    ensures r.Success? <==> 0 < |sites| == |predicted|
    ensures 0 < |sites| == |predicted| ==>
      r == Success(SiteStats(MatchCount(sites, predicted),
                             OverlapSum(sites, predicted, ml) as real / |sites| as real))
    ensures r.Success? ==> r.value.count <= |sites| && 0.0 <= r.value.overlap
    ensures r.Success? && ml >= 0 ==> r.value.overlap <= ml as real
    ensures 0 < |sites| && sites == predicted && ml >= 0 ==> r == Success(SiteStats(|sites|, ml as real))
  {
    var count := 0;
    var overlap := 0;
    var i := 0;
    while i < |sites|
      invariant 0 <= i <= |sites| && i <= |predicted|
      invariant count == MatchCount(sites[..i], predicted)
      invariant overlap == OverlapSum(sites[..i], predicted, ml)
    {
      if i >= |predicted| {
        return Failure(PredictionMissing);
      }
      assert sites[..i + 1][..i] == sites[..i];
      if sites[i] == predicted[i] {
        count := count + 1;
      }
      var current := ml - Abs(sites[i] - predicted[i]);
      if current > 0 {
        overlap := overlap + current;
      }
      i := i + 1;
    }
    if |sites| < |predicted| {
      return Failure(LengthMismatch);
    }
    if |sites| == 0 {
      return Failure(NoSites);
    }
    assert sites[..|sites|] == sites;
    SummaryFacts(sites, predicted, ml);
    r := Success(SiteStats(count, overlap as real / |sites| as real));
  }

  /** What the returned pair satisfies on every input the loop completes. */
  lemma SummaryFacts(sites: seq<int>, predicted: seq<int>, ml: int)
    requires 0 < |sites| <= |predicted|
    ensures 0.0 <= OverlapSum(sites, predicted, ml) as real / |sites| as real
    ensures ml >= 0 ==> OverlapSum(sites, predicted, ml) as real / |sites| as real <= ml as real
    ensures sites == predicted && ml >= 0 ==>
      MatchCount(sites, predicted) == |sites| && OverlapSum(sites, predicted, ml) as real / |sites| as real == ml as real
  {
    AverageInRange(OverlapSum(sites, predicted, ml), |sites|, ml);
    if sites == predicted && ml >= 0 {
      IdenticalSites(sites, ml);
      Average(|sites|, ml);
    }
  }

  lemma AverageInRange(total: int, n: nat, ml: int)
    requires n > 0 && 0 <= total && (ml >= 0 ==> total <= n * ml)
    ensures 0.0 <= total as real / n as real
    ensures ml >= 0 ==> total as real / n as real <= ml as real
  {
    if ml >= 0 {
      assert total as real <= n as real * ml as real;
    }
  }

  lemma Average(n: nat, ml: int)
    requires n > 0
    ensures (n * ml) as real / n as real == ml as real
  {
    assert (n * ml) as real == n as real * ml as real;
  }

  /** The overlap of one pair does not depend on which is the true site;
      it is ML exactly for equal sites (ML >= 0) and nothing once the sites
      are ML or more apart. */
  lemma SiteOverlapFacts(site: int, predicted: int, ml: int)
    ensures SiteOverlap(site, predicted, ml) == SiteOverlap(predicted, site, ml)
    ensures ml >= 0 && site == predicted ==> SiteOverlap(site, predicted, ml) == ml
    ensures Abs(site - predicted) >= ml ==> SiteOverlap(site, predicted, ml) == 0
  {
  }

  /** The exact-match count is the number of agreeing indices. */
  lemma {:induction false} MatchCountIsAgreeingIndices(sites: seq<int>, predicted: seq<int>)
    requires |sites| <= |predicted|
    ensures MatchCount(sites, predicted) == |set i | 0 <= i < |sites| && sites[i] == predicted[i]|
  {
    if |sites| > 0 {
      var n := |sites| - 1;
      var prefix := sites[..n];
      MatchCountIsAgreeingIndices(prefix, predicted);
      var before := set i | 0 <= i < n && prefix[i] == predicted[i];
      var after := set i | 0 <= i < |sites| && sites[i] == predicted[i];
      if sites[n] == predicted[n] {
        assert after == before + {n};
      } else {
        assert after == before;
      }
    }
  }

  /** Swapping true and predicted lists of equal length changes neither
      the match count nor the overlap sum. */
  lemma {:induction false} ComparisonIsSymmetric(sites: seq<int>, predicted: seq<int>, ml: int)
    requires |sites| == |predicted|
    ensures MatchCount(sites, predicted) == MatchCount(predicted, sites)
    ensures OverlapSum(sites, predicted, ml) == OverlapSum(predicted, sites, ml)
  {
    if |sites| > 0 {
      var n := |sites| - 1;
      ComparisonIsSymmetric(sites[..n], predicted[..n], ml);
      PrefixOnly(sites[..n], predicted, predicted[..n], ml);
      PrefixOnly(predicted[..n], sites, sites[..n], ml);
      SiteOverlapFacts(sites[n], predicted[n], ml);
    }
  }

  /** Only the first |sites| predictions take part. */
  lemma {:induction false} PrefixOnly(sites: seq<int>, predicted: seq<int>, shorter: seq<int>, ml: int)
    requires |sites| <= |shorter| <= |predicted| && shorter == predicted[..|shorter|]
    ensures MatchCount(sites, predicted) == MatchCount(sites, shorter)
    ensures OverlapSum(sites, predicted, ml) == OverlapSum(sites, shorter, ml)
  {
    if |sites| > 0 {
      PrefixOnly(sites[..|sites| - 1], predicted, shorter, ml);
    }
  }

  /** Identical lists: every site matches and overlaps by exactly ML. */
  lemma {:induction false} IdenticalSites(sites: seq<int>, ml: int)
    requires ml >= 0
    ensures MatchCount(sites, sites) == |sites|
    ensures OverlapSum(sites, sites, ml) == |sites| * ml
  {
    if |sites| > 0 {
      var n := |sites| - 1;
      IdenticalSites(sites[..n], ml);
      PrefixOnly(sites[..n], sites, sites[..n], ml);
      assert |sites| * ml == n * ml + ml;
    }
  }
}
