/** Window gathering and the motif profiles of the Gibbs motif finder: the
    leave-one-out profile rebuilt at every resampling step and the full
    profile returned at the end. */
module Profiles {
  import opened Nucleotide

  /** What the finder assumes of its input but never checks: at least two
      sequences (one is left out of every step's profile), all of one length
      L, over A, C, G and T only, and a motif length 1 <= ML <= L. */
  predicate ValidInput(seqs: seq<seq<char>>, ml: int) {
    && |seqs| >= 2
    && 1 <= ml <= |seqs[0]|
    && Rectangular(seqs, |seqs[0]|)
    && forall k :: 0 <= k < |seqs| ==> IsDna(seqs[k])
  }

  /** One start offset per sequence, each a valid window start. */
  predicate ValidPositions(seqs: seq<seq<char>>, pos: seq<int>, ml: int) {
    && |pos| == |seqs|
    && forall k :: 0 <= k < |pos| ==> 0 <= pos[k] && pos[k] + ml <= |seqs[k]|
  }

  /** The sequences of the set whose window holds symbol c at column j: the
      reference against which the profiles are stated. */
  function SequencesWith(seqs: seq<seq<char>>, pos: seq<int>, ml: nat, j: nat, c: char): set<int>
    requires ValidPositions(seqs, pos, ml) && j < ml
  {
    set k | 0 <= k < |seqs| && seqs[k][pos[k] + j] == c
  }

  /** Row-major concatenation of the sequences (a flattened N x L array);
      flattening DNA sequences gives DNA. */
  function Flatten(seqs: seq<seq<char>>): (flat: seq<char>)
    ensures (forall k :: 0 <= k < |seqs| ==> IsDna(seqs[k])) ==> IsDna(flat)
  {
    if |seqs| == 0 then [] else seqs[0] + Flatten(seqs[1..])
  }

  lemma {:induction false} FlattenLength(seqs: seq<seq<char>>, L: nat)
    requires Rectangular(seqs, L)
    ensures |Flatten(seqs)| == |seqs| * L
  {
    if |seqs| > 0 {
      FlattenLength(seqs[1..], L);
      assert |seqs| * L == L + (|seqs| - 1) * L;
    }
  }

  /** Position p of sequence k sits at k * L + p of the flattened array. */
  lemma {:induction false} FlattenAt(seqs: seq<seq<char>>, L: nat, k: nat, p: nat)
    requires Rectangular(seqs, L) && k < |seqs| && p < L
    ensures k * L + p < |Flatten(seqs)| && Flatten(seqs)[k * L + p] == seqs[k][p]
  {
    FlattenLength(seqs, L);
    if k > 0 {
      var rest := seqs[1..];
      FlattenAt(rest, L, k - 1, p);
      var q := (k - 1) * L + p;
      assert k * L + p == L + q;
      assert Flatten(seqs) == seqs[0] + Flatten(rest);
      assert rest[k - 1] == seqs[k];
    }
  }

  lemma {:induction false} ProductBound(k: nat, n: nat, L: nat)
    requires k < n
    ensures k * L + L <= n * L
    decreases n - k
  {
    assert (k + 1) * L == k * L + L;
    if k + 1 < n {
      ProductBound(k + 1, n, L);
    }
  }

  /** Flat index of symbol j of the window starting at p in sequence k, for
      N sequences of length L; it always lies inside the flattened array. */
  function GatherIndex(n: nat, L: nat, k: nat, p: nat, j: nat): (x: nat)
    requires k < n && p + j < L
    ensures x < n * L
  {
    ProductBound(k, n, L);
    k * L + p + j
  }

  /** The N x ML window matrix, read from the flattened sequences at the
      flat indices k*L + pos[k] + j: row k is sequence k's window. */
  function Gather(seqs: seq<seq<char>>, pos: seq<int>, ml: nat): (windows: seq<seq<char>>)
    requires |seqs| > 0 && Rectangular(seqs, |seqs[0]|) && ValidPositions(seqs, pos, ml)
    ensures |windows| == |seqs| && forall k :: 0 <= k < |seqs| ==> |windows[k]| == ml
    ensures forall k, j :: 0 <= k < |seqs| && 0 <= j < ml ==> windows[k][j] == seqs[k][pos[k] + j]
  {
    var L := |seqs[0]|;
    var flat := Flatten(seqs);
    FlattenLength(seqs, L);
    var windows := seq(|seqs|, k requires 0 <= k < |seqs| =>
      seq(ml, j requires 0 <= j < ml => flat[GatherIndex(|seqs|, L, k, pos[k], j)]));
    assert forall k, j :: 0 <= k < |seqs| && 0 <= j < ml ==> windows[k][j] == seqs[k][pos[k] + j] by {
      forall k, j | 0 <= k < |seqs| && 0 <= j < ml
        ensures windows[k][j] == seqs[k][pos[k] + j]
      {
        FlattenAt(seqs, L, k, pos[k] + j);
      }
    }
    windows
  }

  /** The rows other than row i, in order. */
  function Drop<T>(rows: seq<T>, i: nat): (r: seq<T>)
    requires i < |rows|
    ensures |r| == |rows| - 1
    ensures forall m :: 0 <= m < i ==> r[m] == rows[m]
    ensures forall m :: i <= m < |r| ==> r[m] == rows[m + 1]
  {
    rows[..i] + rows[i + 1..]
  }

  /** Symbol j of every window. */
  function Column(windows: seq<seq<char>>, j: nat): seq<char>
    requires forall k :: 0 <= k < |windows| ==> j < |windows[k]|
  {
    seq(|windows|, k requires 0 <= k < |windows| => windows[k][j])
  }

  /** Frequency profile of a non-empty set of windows of length ML: row j
      holds the symbol frequencies of column j. */
  function Profile(windows: seq<seq<char>>, ml: nat): (profile: seq<seq<real>>)
    requires |windows| > 0 && forall k :: 0 <= k < |windows| ==> |windows[k]| == ml
    ensures |profile| == ml && forall j :: 0 <= j < ml ==> |profile[j]| == 4
    ensures forall j, x :: 0 <= j < ml && 0 <= x < 4 ==> 0.0 <= profile[j][x] <= 1.0
  {
    seq(ml, j requires 0 <= j < ml => FrequencyRow(Column(windows, j)))
  }

  /** The profile of resampling step i: every window but sequence i's,
      each count divided by N - 1. */
  function LeaveOneOutProfile(seqs: seq<seq<char>>, pos: seq<int>, i: nat, ml: nat): (profile: seq<seq<real>>)
    requires ValidInput(seqs, ml) && ValidPositions(seqs, pos, ml) && i < |seqs|
    ensures |profile| == ml && forall j :: 0 <= j < ml ==> |profile[j]| == 4
    ensures forall j, x :: 0 <= j < ml && 0 <= x < 4 ==> 0.0 <= profile[j][x] <= 1.0
  {
    Profile(Drop(Gather(seqs, pos, ml), i), ml)
  }

  /** The returned profile: all N windows, each count divided by N. */
  function FinalProfile(seqs: seq<seq<char>>, pos: seq<int>, ml: nat): (profile: seq<seq<real>>)
    requires ValidInput(seqs, ml) && ValidPositions(seqs, pos, ml)
    ensures |profile| == ml && forall j :: 0 <= j < ml ==> |profile[j]| == 4
    ensures forall j, x :: 0 <= j < ml && 0 <= x < 4 ==> 0.0 <= profile[j][x] <= 1.0
  {
    Profile(Gather(seqs, pos, ml), ml)
  }

  /** Column j of the gathered windows holds c exactly at the sequences of
      SequencesWith. */
  lemma ColumnOccurrences(seqs: seq<seq<char>>, pos: seq<int>, ml: nat, j: nat, c: char)
    requires ValidInput(seqs, ml) && ValidPositions(seqs, pos, ml) && j < ml
    ensures Occurrences(Column(Gather(seqs, pos, ml), j), c) == SequencesWith(seqs, pos, ml, j, c)
  {
  }

  /** Leaving row i out of a column removes its own contribution, if any. */
  lemma {:induction false} CountDrop(col: seq<char>, i: nat, c: char)
    requires i < |col|
    ensures Count(Drop(col, i), c) == Count(col, c) - (if col[i] == c then 1 else 0)
  {
    assert col == col[..i] + [col[i]] + col[i + 1..];
    CountAppend(col[..i] + [col[i]], col[i + 1..], c);
    CountAppend(col[..i], [col[i]], c);
    CountAppend(col[..i], col[i + 1..], c);
    assert [col[i]][..0] == [];
  }

  lemma ColumnOfDrop(windows: seq<seq<char>>, i: nat, j: nat)
    requires i < |windows| && forall k :: 0 <= k < |windows| ==> j < |windows[k]|
    ensures Column(Drop(windows, i), j) == Drop(Column(windows, j), i)
  {
  }

  /** Entry [j][x] of step i's profile is the number of sequences other
      than i whose window holds symbol x at column j, divided by N - 1. */
  lemma LeaveOneOutEntry(seqs: seq<seq<char>>, pos: seq<int>, i: nat, ml: nat, j: nat, x: nat)
    requires ValidInput(seqs, ml) && ValidPositions(seqs, pos, ml) && i < |seqs|
    requires j < ml && x < 4
    ensures LeaveOneOutProfile(seqs, pos, i, ml)[j][x]
         == |SequencesWith(seqs, pos, ml, j, Nucleotides[x]) - {i}| as real / (|seqs| - 1) as real
  {
    var dropped := Column(Drop(Gather(seqs, pos, ml), i), j);
    assert LeaveOneOutProfile(seqs, pos, i, ml)[j] == FrequencyRow(dropped);
    FrequencyAt(dropped, x);
    DroppedColumnCount(seqs, pos, i, ml, j, Nucleotides[x]);
  }

  /** Column j without sequence i holds c once for every other sequence
      whose window has c there. */
  lemma DroppedColumnCount(seqs: seq<seq<char>>, pos: seq<int>, i: nat, ml: nat, j: nat, c: char)
    requires ValidInput(seqs, ml) && ValidPositions(seqs, pos, ml) && i < |seqs| && j < ml
    ensures Count(Column(Drop(Gather(seqs, pos, ml), i), j), c) == |SequencesWith(seqs, pos, ml, j, c) - {i}|
  {
    var windows := Gather(seqs, pos, ml);
    var col := Column(windows, j);
    ColumnOfDrop(windows, i, j);
    CountDrop(col, i, c);
    CountIsOccurrences(col, c);
    ColumnOccurrences(seqs, pos, ml, j, c);
    var with := SequencesWith(seqs, pos, ml, j, c);
    assert i in with <==> col[i] == c;
    if i in with {
      assert with == (with - {i}) + {i};
    } else {
      assert with - {i} == with;
    }
  }

  /** Entry [j][x] of the returned profile is the number of sequences whose
      window holds symbol x at column j, divided by N: nothing left out. */
  lemma FinalEntry(seqs: seq<seq<char>>, pos: seq<int>, ml: nat, j: nat, x: nat)
    requires ValidInput(seqs, ml) && ValidPositions(seqs, pos, ml)
    requires j < ml && x < 4
    ensures FinalProfile(seqs, pos, ml)[j][x]
         == |SequencesWith(seqs, pos, ml, j, Nucleotides[x])| as real / |seqs| as real
  {
    var col := Column(Gather(seqs, pos, ml), j);
    CountIsOccurrences(col, Nucleotides[x]);
    ColumnOccurrences(seqs, pos, ml, j, Nucleotides[x]);
  }

  /** A column of gathered DNA windows is DNA. */
  lemma ColumnIsDna(seqs: seq<seq<char>>, pos: seq<int>, ml: nat, j: nat)
    requires ValidInput(seqs, ml) && ValidPositions(seqs, pos, ml) && j < ml
    ensures IsDna(Column(Gather(seqs, pos, ml), j))
  {
    var col := Column(Gather(seqs, pos, ml), j);
    forall k | 0 <= k < |col| ensures col[k] in Nucleotides {
      assert col[k] == seqs[k][pos[k] + j];
      assert IsDna(seqs[k]);
    }
  }

  /** Every row of the leave-one-out and of the returned profile sums to 1. */
  lemma ProfileRowsSumToOne(seqs: seq<seq<char>>, pos: seq<int>, i: nat, ml: nat, j: nat)
    requires ValidInput(seqs, ml) && ValidPositions(seqs, pos, ml) && i < |seqs| && j < ml
    ensures RowSum(LeaveOneOutProfile(seqs, pos, i, ml)[j]) == 1.0
    ensures RowSum(FinalProfile(seqs, pos, ml)[j]) == 1.0
  {
    var windows := Gather(seqs, pos, ml);
    var col := Column(windows, j);
    ColumnIsDna(seqs, pos, ml, j);
    FrequencyRowSum(col);
    ColumnOfDrop(windows, i, j);
    assert IsDna(Drop(col, i));
    FrequencyRowSum(Drop(col, i));
  }

  /** A leave-one-out entry is zero exactly when no other sequence's window
      holds that symbol at that column: the case the sampler's guard catches. */
  lemma LeaveOneOutZeroIff(seqs: seq<seq<char>>, pos: seq<int>, i: nat, ml: nat, j: nat, x: nat)
    requires ValidInput(seqs, ml) && ValidPositions(seqs, pos, ml) && i < |seqs|
    requires j < ml && x < 4
    ensures LeaveOneOutProfile(seqs, pos, i, ml)[j][x] == 0.0
        <==> forall k :: 0 <= k < |seqs| && k != i ==> seqs[k][pos[k] + j] != Nucleotides[x]
  {
    var c := Nucleotides[x];
    var others := SequencesWith(seqs, pos, ml, j, c) - {i};
    LeaveOneOutEntry(seqs, pos, i, ml, j, x);
    ZeroShareIff(|others|, |seqs| - 1);
    OthersEmptyIff(seqs, pos, i, ml, j, c);
  }

  /** A count divided by a positive total is zero exactly when the count is. */
  lemma ZeroShareIff(a: nat, n: nat)
    requires n > 0
    ensures a as real / n as real == 0.0 <==> a == 0
  {
    if a > 0 {
      PositiveQuotient(a as real, n as real);
    }
  }

  lemma OthersEmptyIff(seqs: seq<seq<char>>, pos: seq<int>, i: nat, ml: nat, j: nat, c: char)
    requires ValidPositions(seqs, pos, ml) && i < |seqs| && j < ml
    ensures |SequencesWith(seqs, pos, ml, j, c) - {i}| == 0
        <==> forall k :: 0 <= k < |seqs| && k != i ==> seqs[k][pos[k] + j] != c
  {
    var others := SequencesWith(seqs, pos, ml, j, c) - {i};
    if others != {} {
      var k :| k in others;
      assert |others| != 0;
    } else {
      forall k | 0 <= k < |seqs| && k != i
        ensures seqs[k][pos[k] + j] != c
      {
        assert k !in others;
      }
    }
  }

  /** With two sequences, step i's profile is the other sequence's window
      alone: entry [j][x] is 1 if that window holds x at column j, else 0. */
  lemma LeaveOneOutOfTwo(seqs: seq<seq<char>>, pos: seq<int>, i: nat, ml: nat, j: nat, x: nat)
    requires ValidInput(seqs, ml) && ValidPositions(seqs, pos, ml) && |seqs| == 2 && i < 2
    requires j < ml && x < 4
    ensures LeaveOneOutProfile(seqs, pos, i, ml)[j][x]
         == if seqs[1 - i][pos[1 - i] + j] == Nucleotides[x] then 1.0 else 0.0
  {
    LeaveOneOutEntry(seqs, pos, i, ml, j, x);
    OtherOfTwo(seqs, pos, i, ml, j, Nucleotides[x]);
  }

  lemma OtherOfTwo(seqs: seq<seq<char>>, pos: seq<int>, i: nat, ml: nat, j: nat, c: char)
    requires ValidPositions(seqs, pos, ml) && |seqs| == 2 && i < 2 && j < ml
    ensures |SequencesWith(seqs, pos, ml, j, c) - {i}| == if seqs[1 - i][pos[1 - i] + j] == c then 1 else 0
  {
    var others := SequencesWith(seqs, pos, ml, j, c) - {i};
    if seqs[1 - i][pos[1 - i] + j] == c {
      assert others == {1 - i};
    } else {
      assert others == {};
    }
  }
}
