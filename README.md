# Gibbs-sampling motif finder, modelled in Dafny

This project models the motif finder of a small bioinformatics project. Given
N DNA sequences of one length L and a motif length ML, it looks for one
length-ML window per sequence such that the windows are alike.

- It first builds a **background table**: row k holds the frequency of A, C,
  G and T in sequence k.
- It draws a random start **position** per sequence.
- It then runs **passes**. In a pass, each sequence i in turn gets a new
  position. The finder builds a **leave-one-out profile** from every other
  sequence's current window. It scores every window of sequence i against
  that profile and the background row, and draws a new offset from the
  softmax of the scores. The offset is written back at once, so later steps
  of the same pass see it.
- Passes stop when one leaves the position vector unchanged, or after 2000
  passes.
- The finder then returns the profile over all N final windows, the
  positions and its running time; it prints the pass count. The model
  returns the profile, the positions and the pass count instead.

A second, small part compares predicted binding sites with true ones. It
counts exact matches and averages the per-site overlap `max(0, ML - |s - p|)`.

Files and modules:

- `nucleotide.dfy` (`Nucleotide`): the alphabet, symbol counting, and
  frequency rows with their sums.
- `background.dfy` (`BackgroundTable`): the background table.
- `profiles.dfy` (`Profiles`): the flat-index window gather, the
  leave-one-out profile and the returned profile.
- `sampler.dfy` (`Sampler`): window scoring with the zero guard, and the
  draw.
- `gibbs.dfy` (`GibbsSampler`): the passes over an in-place position array,
  and the whole search.
- `sites.dfy` (`SiteComparison`): the integer part of the site comparison.

How the model is built:

- The logarithm and the exponential are parameters `ln` and `exp` of type
  `real -> real`. Profile and background quotients are exact `real`
  divisions.
- A random draw is a nondeterministic choice (`:|`) among the values the draw
  can return.
  - `np.random.randint` becomes any offset in `[0, L - ML]`.
  - The uniform fallback becomes any offset.
  - The weighted draw becomes any offset whose weight is nonzero: its
    softmax probability `w[o] / Sum(w)` is then nonzero.
- The finder never checks its input. So equal lengths, the A/C/G/T alphabet,
  `1 <= ML <= L` and `N >= 2` are preconditions (`Profiles.ValidInput`), not
  error results.
- The site comparison fails in three ways, all modelled as `Failure`:
  - a predicted list shorter than the true one (an index error while
    parsing);
  - a predicted list longer than the true one: its extra entries stay
    unparsed strings, so the element-wise difference of the two arrays
    raises;
  - two empty lists (a division by zero).

## Model

| member | source | states |
|---|---|---|
| `Nucleotide.NucIndex` | motif_finder.py:22-27 | each of A, C, G, T maps to a column below 4 that holds that same symbol |
| `Nucleotide.Count` | motif_finder.py:53-56 | a symbol's count is at most the length, and is 0 exactly when no position holds the symbol |
| `Nucleotide.FrequencyRow` | motif_finder.py:53-57 | a frequency row has four entries, one per symbol, each a share between 0 and 1 |
| `Nucleotide.CountIsOccurrences` | motif_finder.py:53-56 | the left-to-right count of a symbol equals the number of positions holding it |
| `Nucleotide.FrequencyAt` | motif_finder.py:53-57 | a frequency-row entry is the symbol's count (the size of its position set) divided by the length |
| `Nucleotide.FrequencyRowSum` | motif_finder.py:52-57 | the four frequencies of an A/C/G/T sequence sum to exactly 1 |
| `Nucleotide.FrequencyZeroIff` | motif_finder.py:70-74 | a frequency entry is 0 if and only if the symbol occurs nowhere in the counted sequence |
| `BackgroundTable.Background` | motif_finder.py:52-57 | the background table has one row of four entries per sequence, every entry a frequency between 0 and 1 |
| `BackgroundTable.BackgroundEntries` | motif_finder.py:52-57 | background entry [k][x] is the count of symbol x in sequence k divided by L; each row of a DNA sequence sums to 1 |
| `BackgroundTable.BackgroundPositiveOnOwnSymbols` | motif_finder.py:52-57 | every symbol that occurs in sequence k has a positive background entry in row k |
| `Profiles.Flatten` | motif_finder.py:68 | the row-major concatenation of the sequences; flattening DNA sequences gives DNA |
| `Profiles.FlattenLength` | motif_finder.py:68 | flattening N sequences of length L gives N*L symbols |
| `Profiles.FlattenAt` | motif_finder.py:68 | position p of sequence k sits at flat index k*L + p |
| `Profiles.GatherIndex` | motif_finder.py:66-67 | the flat index k*L + pos[k] + j always lies in [0, N*L) for a valid window start and j < ML |
| `Profiles.Gather` | motif_finder.py:66-68 | reading the flattened array at k*L + pos[k] + j gives an N x ML matrix whose entry [k][j] is symbol pos[k]+j of sequence k |
| `Profiles.Drop` | motif_finder.py:69 | removing row i keeps rows before i in place and shifts later rows down by one |
| `Profiles.DroppedColumnCount` | motif_finder.py:69-73 | the count of c in column j without sequence i equals the number of sequences other than i whose window holds c at column j |
| `Profiles.Profile` | motif_finder.py:70-74 | a set of windows gives an ML x 4 table whose row j is the frequency row of column j, every entry between 0 and 1 |
| `Profiles.LeaveOneOutProfile` | motif_finder.py:66-74 | step i's profile is an ML x 4 table of frequencies between 0 and 1 (its entries are given by `Profiles.LeaveOneOutEntry`) |
| `Profiles.FinalProfile` | motif_finder.py:76-85 | the returned profile is an ML x 4 table of frequencies between 0 and 1 (its entries are given by `Profiles.FinalEntry`) |
| `Profiles.LeaveOneOutEntry` | motif_finder.py:66-74 | step i's profile entry [j][x] is the number of sequences k != i whose symbol at pos[k]+j is x, divided by N-1 |
| `Profiles.FinalEntry` | motif_finder.py:76-85 | the returned profile entry [j][x] is the number of all N sequences whose symbol at pos[k]+j is x, divided by N (nothing left out) |
| `Profiles.ProfileRowsSumToOne` | motif_finder.py:69-82 | every row of the leave-one-out profile and of the returned profile sums to 1 |
| `Profiles.LeaveOneOutZeroIff` | motif_finder.py:69-74 | a leave-one-out entry is 0 if and only if no sequence other than i has that symbol at that window column |
| `Profiles.LeaveOneOutOfTwo` | motif_finder.py:69-74 | with N = 2 the leave-one-out profile is the other sequence's window: entry 1 where it holds the symbol, else 0 |
| `Sampler.ZeroAt` | motif_finder.py:28 | when the guard does not trip at a position, the background entry is nonzero and the ratio whose logarithm is taken is a nonzero number |
| `Sampler.LogSum` | motif_finder.py:26-31 | the running sum of ln(profile / background) over the first m positions of a window; it is defined only while no guard has tripped (no ensures: its properties are stated by `Sampler.FindBestPos` and `Sampler.ProfileEqualToBackgroundIsUniform`) |
| `Sampler.WindowScore` | motif_finder.py:25-32 | a window with a zero profile or background entry at any of its positions scores exactly 0 |
| `Sampler.Scores` | motif_finder.py:23-32 | there is one score per window start: len - ML + 1 of them |
| `Sampler.Exps` | motif_finder.py:33-35 | one unnormalised softmax weight per window score |
| `Sampler.Sum` | motif_finder.py:33-35 | the total of the weights; nonnegative weights give a nonnegative total, which is 0 exactly when every weight is 0 |
| `Sampler.MayDraw` | motif_finder.py:33-36 | when the weights sum to 0, the draw may return any offset; otherwise only an offset whose normalised probability w[o] / Sum(w) is nonzero |
| `Sampler.NonzeroSumHasNonzeroWeight` | motif_finder.py:33-36 | weights with a nonzero sum have a nonzero member, so the weighted draw always has an offset to return |
| `Sampler.FindBestPos` | motif_finder.py:10-36 | the double loop with early exit fills the scores of all windows; the result is always in [0, len - ML], and when the exponentiated scores do not sum to 0 it has a nonzero weight |
| `Sampler.GuardedWindowScoresZero` | motif_finder.py:28-32 | a window with a zero profile or background entry at any position scores exactly 0, whatever the other positions contribute |
| `Sampler.ProfileEqualToBackgroundIsUniform` | motif_finder.py:23-36 | if every profile row equals the background and ln(1) = 0, every window scores 0 and every weight equals exp(0) |
| `GibbsSampler.Sentinel` | motif_finder.py:59 | the sentinel vector has N entries, all negative, so it differs from every vector of valid positions |
| `GibbsSampler.IsResampleStep` | motif_finder.py:65-75 | a resampling step for sequence i leaves the position vector valid: every entry is still a window start |
| `GibbsSampler.IsSweep` | motif_finder.py:65-75 | one pass as a trace of N + 1 vectors, in which step i resamples sequence i from the vector the earlier steps left (no ensures: its consequences are `GibbsSampler.SweepResult`) |
| `GibbsSampler.SweepResult` | motif_finder.py:65-75 | after a pass, every position is a valid window start and entry k holds the offset drawn at step k |
| `GibbsSampler.SweepKeepsDraw` | motif_finder.py:65-75 | the steps of a pass after step k leave entry k unchanged |
| `GibbsSampler.Pass` | motif_finder.py:65-75 | a pass is N resampling steps in order; step i changes only entry i, to an offset drawn with the leave-one-out profile of the vector as the earlier steps left it |
| `GibbsSampler.GibbsFindMotif` | motif_finder.py:58-85 | the search starts from valid random positions, and every pass is a chain of resampling steps from one snapshot to the next; it runs between 1 and 2000 passes; every pass but the last changed the vector, and the last left it unchanged unless 2000 passes were run; it returns valid positions and the full profile at those positions |
| `GibbsSampler.UnseenSymbolScoresZero` | motif_finder.py:28-32 | at step i, a window holding a symbol that no other sequence has at that column scores exactly 0 |
| `GibbsSampler.GuardIsProfileZero` | motif_finder.py:28 | with the finder's own background, the zero guard trips exactly when the leave-one-out profile entry is 0 |
| `SiteComparison.SiteOverlap` | analyze.py:72-74 | one site's contribution lies in [0, ML] (for ML >= 0) |
| `SiteComparison.SiteOverlapFacts` | analyze.py:72-74 | the contribution is symmetric in true and predicted site, is ML for equal sites, and is 0 once they are ML or more apart |
| `SiteComparison.MatchCount` | analyze.py:70-71 | the exact-match count is at most the number of sites |
| `SiteComparison.MatchCountIsAgreeingIndices` | analyze.py:67-71 | the match count equals the number of indices i with sites[i] == predicted[i] |
| `SiteComparison.OverlapSum` | analyze.py:72-74 | the overlap sum lies in [0, n*ML] |
| `SiteComparison.PrefixOnly` | analyze.py:67-69 | the parsing loop reads only the first len(sites) predictions, so predictions beyond them change neither the match count nor the overlap sum |
| `SiteComparison.ComparisonIsSymmetric` | analyze.py:67-74 | swapping equal-length true and predicted lists changes neither the match count nor the overlap sum |
| `SiteComparison.IdenticalSites` | analyze.py:70-74 | identical lists give a full match count and an overlap sum of n*ML |
| `SiteComparison.SummaryFacts` | analyze.py:72-78 | the average overlap lies in [0, ML]; identical lists average exactly ML |
| `SiteComparison.SitesNorm` | analyze.py:67-78 | succeeds exactly when both lists have the same nonzero length; otherwise it fails with an index error (short predictions), a failed array difference (long predictions) or a division by zero (both empty); on success it returns the match count and the overlap sum divided by the number of sites, with the count in [0, n] and the average in [0, ML]; identical lists give count n and average ML |

## Left out

- Sampler.FindBestPos: states which offsets the draw can return, not their probabilities. Softmax normalisation (motif_finder.py:35) and the distribution of `np.random.choice` are outside the model.
- GibbsSampler.GibbsFindMotif: the initial positions are any valid vector. The uniform distribution of `np.random.randint` (motif_finder.py:58) is not modelled. Neither are seeding and run-to-run reproducibility.
- Floating point: `math.log` and `np.exp` are the parameters `ln` and `exp`, and arithmetic is exact over `real`. A float underflow that makes the exponentiated scores sum to 0 is covered only because `exp` may return 0. A float overflow is not covered. A window score can reach ML·ln(L), and past about 709 `np.exp` gives inf, so the normalised weights become inf/inf = NaN. `np.random.choice` then raises at motif_finder.py:36, and the model has no such failure.
- The `motif` buffer that is overwritten column by column (motif_finder.py:60, 70-74) is modelled as a value, rebuilt at every step.
- Wall-clock timing (`timeit`, motif_finder.py:50, 83) is left out. The pass count that the finder prints (motif_finder.py:84) is returned as `passes` instead.
- The batch driver (motif_finder.py:87-114) is left out: directory scanning, FASTA parsing, result files. `convert_motif` from `generate` is not part of this model.
- The end-to-end planted-motif outcome is not stated: it depends on the random draws.
- `relative_entropy` (analyze.py:7-43) is left out: file parsing and floating-point logarithms.
- `la.norm` of the site differences (analyze.py:75-77) is left out: it is a floating-point square root. Its failure on lists of unequal length is modelled as `LengthMismatch`.
- File reading and integer parsing in `sites_norm` (analyze.py:60-69) are left out. Sites arrive as integer sequences, so the in-place overwrite of the parsed lists does not appear.
- `gibbs_runtime` and the aggregation script (analyze.py:81-154) are left out: file I/O and floating-point statistics.
