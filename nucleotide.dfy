/** The nucleotide alphabet and the symbol counting that both the background
    table and the motif profiles of the Gibbs motif finder are built from. */
module Nucleotide {

  /** The four symbols, in the column order of every frequency table. */
  const Nucleotides: seq<char> := ['A', 'C', 'G', 'T']

  /** A sequence over A, C, G and T only; any other symbol has no column. */
  predicate IsDna(s: seq<char>) {
    forall m :: 0 <= m < |s| ==> s[m] in Nucleotides
  }

  /** Every sequence of the set has length L. */
  predicate Rectangular(seqs: seq<seq<char>>, L: int) {
    forall k :: 0 <= k < |seqs| ==> |seqs[k]| == L
  }

  /** Column of a symbol in a frequency table (the finder's symbol lookup). */
  function NucIndex(c: char): (x: nat)
    requires c in Nucleotides
    ensures x < 4 && Nucleotides[x] == c
  {
    if c == 'A' then 0 else if c == 'C' then 1 else if c == 'G' then 2 else 3
  }

  /** Number of occurrences of c in s, scanned left to right. */
  function Count(s: seq<char>, c: char): (n: nat)
    ensures n <= |s|
    ensures n == 0 <==> forall m :: 0 <= m < |s| ==> s[m] != c
  {
    if |s| == 0 then 0
    else Count(s[..|s| - 1], c) + (if s[|s| - 1] == c then 1 else 0)
  }

  /** The positions of s that hold c. */
  function Occurrences(s: seq<char>, c: char): set<int> {
    set m | 0 <= m < |s| && s[m] == c
  }

  /** The four symbol frequencies of s: each count divided by the length,
      so each lies between 0 and 1. */
  function FrequencyRow(s: seq<char>): (row: seq<real>)
    requires |s| > 0
    ensures |row| == 4
    ensures forall x :: 0 <= x < 4 ==> 0.0 <= row[x] <= 1.0
  {
    UnitQuotient(Count(s, 'A'), |s|);
    UnitQuotient(Count(s, 'C'), |s|);
    UnitQuotient(Count(s, 'G'), |s|);
    UnitQuotient(Count(s, 'T'), |s|);
    var n := |s| as real;
    [Count(s, 'A') as real / n, Count(s, 'C') as real / n,
     Count(s, 'G') as real / n, Count(s, 'T') as real / n]
  }

  /** A count out of n, divided by n, is a share between 0 and 1. */
  lemma UnitQuotient(a: nat, n: nat)
    requires 0 < n && a <= n
    ensures 0.0 <= a as real / n as real <= 1.0
  {
    assert a as real <= n as real;
  }

  function RowSum(row: seq<real>): real
    requires |row| == 4
  {
    row[0] + row[1] + row[2] + row[3]
  }

  /** Counting agrees with the set of positions holding the symbol. */
  lemma {:induction false} CountIsOccurrences(s: seq<char>, c: char)
    ensures Count(s, c) == |Occurrences(s, c)|
  {
    if |s| > 0 {
      var t := s[..|s| - 1];
      CountIsOccurrences(t, c);
      if s[|s| - 1] == c {
        assert Occurrences(s, c) == Occurrences(t, c) + {|s| - 1};
      } else {
        assert Occurrences(s, c) == Occurrences(t, c);
      }
    }
  }

  lemma {:induction false} CountAppend(a: seq<char>, b: seq<char>, c: char)
    ensures Count(a + b, c) == Count(a, c) + Count(b, c)
  {
    if |b| > 0 {
      assert (a + b)[..|a + b| - 1] == a + b[..|b| - 1];
      CountAppend(a, b[..|b| - 1], c);
    } else {
      assert a + b == a;
    }
  }

  /** On a DNA sequence the four counts add up to the length. */
  lemma {:induction false} NucleotideCountsSum(s: seq<char>)
    requires IsDna(s)
    ensures Count(s, 'A') + Count(s, 'C') + Count(s, 'G') + Count(s, 'T') == |s|
  {
    if |s| > 0 {
      var t := s[..|s| - 1];
      assert IsDna(t) by {
        forall m | 0 <= m < |t| ensures t[m] in Nucleotides {
          assert t[m] == s[m];
        }
      }
      NucleotideCountsSum(t);
      assert s[|s| - 1] in Nucleotides;
    }
  }

  /** Each entry of a frequency row is the share of positions holding that
      symbol. */
  lemma FrequencyAt(s: seq<char>, x: nat)
    requires |s| > 0 && x < 4
    ensures FrequencyRow(s)[x] == Count(s, Nucleotides[x]) as real / |s| as real
    ensures FrequencyRow(s)[x] == |Occurrences(s, Nucleotides[x])| as real / |s| as real
  {
    CountIsOccurrences(s, Nucleotides[x]);
    var row := FrequencyRow(s);
    var n := |s| as real;
    if x == 0 {
      assert row[0] == Count(s, 'A') as real / n;
    } else if x == 1 {
      assert row[1] == Count(s, 'C') as real / n;
    } else if x == 2 {
      assert row[2] == Count(s, 'G') as real / n;
    } else {
      assert row[3] == Count(s, 'T') as real / n;
    }
  }

  /** The four entries of a DNA sequence's frequency row sum to 1. */
  lemma FrequencyRowSum(s: seq<char>)
    requires |s| > 0 && IsDna(s)
    ensures RowSum(FrequencyRow(s)) == 1.0
  {
    NucleotideCountsSum(s);
    QuotientsSum(Count(s, 'A') as real, Count(s, 'C') as real, Count(s, 'G') as real,
                 Count(s, 'T') as real, |s| as real);
  }

  lemma QuotientsSum(a: real, b: real, c: real, d: real, n: real)
    requires n > 0.0 && a + b + c + d == n
    ensures a / n + b / n + c / n + d / n == 1.0
  {
    assert a / n + b / n + c / n + d / n == (a + b + c + d) / n;
  }

  /** A frequency entry is zero exactly when the symbol does not occur. */
  lemma FrequencyZeroIff(s: seq<char>, x: nat)
    requires |s| > 0 && x < 4
    ensures FrequencyRow(s)[x] == 0.0 <==> forall m :: 0 <= m < |s| ==> s[m] != Nucleotides[x]
  {
    CountIsOccurrences(s, Nucleotides[x]);
    var occ := Occurrences(s, Nucleotides[x]);
    assert FrequencyRow(s)[x] == |occ| as real / |s| as real;
    if exists m :: 0 <= m < |s| && s[m] == Nucleotides[x] {
      var m :| 0 <= m < |s| && s[m] == Nucleotides[x];
      assert m in occ;
      PositiveQuotient(|occ| as real, |s| as real);
    } else {
      assert occ == {};
    }
  }

  lemma PositiveQuotient(a: real, n: real)
    requires a >= 1.0 && n > 0.0
    ensures a / n > 0.0
  {
  }
}
