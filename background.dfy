/** The background table the Gibbs motif finder builds once, before the
    first pass: the null model every window is scored against. */
module BackgroundTable {
  import opened Nucleotide

  /** Row k holds the frequencies of A, C, G and T in sequence k: each
      count divided by the common sequence length. */
  function Background(seqs: seq<seq<char>>): (bg: seq<seq<real>>)
    requires |seqs| > 0 && |seqs[0]| > 0 && Rectangular(seqs, |seqs[0]|)
    ensures |bg| == |seqs| && forall k :: 0 <= k < |seqs| ==> |bg[k]| == 4
    ensures forall k, x :: 0 <= k < |seqs| && 0 <= x < 4 ==> 0.0 <= bg[k][x] <= 1.0
  {
    seq(|seqs|, k requires 0 <= k < |seqs| => FrequencyRow(seqs[k]))
  }

  /** Entry [k][x] is the number of positions of sequence k holding symbol
      x, divided by L; for DNA sequences every row sums to 1. */
  lemma BackgroundEntries(seqs: seq<seq<char>>, k: nat)
    requires |seqs| > 0 && |seqs[0]| > 0 && Rectangular(seqs, |seqs[0]|) && k < |seqs|
    ensures forall x :: 0 <= x < 4 ==>
      Background(seqs)[k][x] == |Occurrences(seqs[k], Nucleotides[x])| as real / |seqs[0]| as real
    ensures IsDna(seqs[k]) ==> RowSum(Background(seqs)[k]) == 1.0
  {
    forall x | 0 <= x < 4
      ensures Background(seqs)[k][x] == |Occurrences(seqs[k], Nucleotides[x])| as real / |seqs[0]| as real
    {
      FrequencyAt(seqs[k], x);
    }
    if IsDna(seqs[k]) {
      FrequencyRowSum(seqs[k]);
    }
  }

  /** The background half of the sampler's zero guard never fires on a
      sequence's own symbols: every symbol that occurs in sequence k has a
      positive entry in row k. */
  lemma BackgroundPositiveOnOwnSymbols(seqs: seq<seq<char>>, k: nat, p: nat)
    requires |seqs| > 0 && |seqs[0]| > 0 && Rectangular(seqs, |seqs[0]|)
    requires k < |seqs| && IsDna(seqs[k]) && p < |seqs[k]|
    ensures Background(seqs)[k][NucIndex(seqs[k][p])] > 0.0
  {
    FrequencyZeroIff(seqs[k], NucIndex(seqs[k][p]));
  }
}
