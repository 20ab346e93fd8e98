/** The convergence loop of the Gibbs motif finder: random initial
    positions, then passes that resample every sequence's position in order,
    in place, until a pass changes nothing or the pass cap is reached; then
    the profile over all final windows. */
module GibbsSampler {
  import opened Nucleotide
  import opened BackgroundTable
  import opened Profiles
  import opened Sampler

  /** The pass cap. */
  const MaxPasses: nat := 2000

  /** Resampling step i takes the position vector `before` to `after`: only
      entry i changes, and its new value is an offset the sampler can draw
      for sequence i given the leave-one-out profile of `before` and
      sequence i's background row. */
  predicate IsResampleStep(seqs: seq<seq<char>>, ml: nat, ln: real -> real, exp: real -> real,
                           before: seq<int>, i: nat, after: seq<int>)
    ensures IsResampleStep(seqs, ml, ln, exp, before, i, after) ==> ValidPositions(seqs, after, ml)
  {
    && ValidInput(seqs, ml)
    && ValidPositions(seqs, before, ml)
    && i < |seqs|
    && |after| == |before|
    && (forall k :: 0 <= k < |before| && k != i ==> after[k] == before[k])
    && 0 <= after[i] <= |seqs[i]| - ml
    && MayDraw(Exps(Scores(seqs[i], LeaveOneOutProfile(seqs, before, i, ml), Background(seqs)[i], ml, ln), exp),
               after[i])
  }

  /** A pass as a trace of N + 1 vectors: step i takes trace[i] to
      trace[i + 1] by resampling sequence i. */
  predicate IsSweep(seqs: seq<seq<char>>, ml: nat, ln: real -> real, exp: real -> real,
                    trace: seq<seq<int>>)
  {
    && ValidInput(seqs, ml)
    && |trace| == |seqs| + 1
    && forall i :: 0 <= i < |seqs| ==> IsResampleStep(seqs, ml, ln, exp, trace[i], i, trace[i + 1])
  }

  /** What a pass leaves behind: a vector of valid positions whose entry k
      is the offset drawn at step k, since no later step of the pass touches
      it. */
  lemma SweepResult(seqs: seq<seq<char>>, ml: nat, ln: real -> real, exp: real -> real,
                    trace: seq<seq<int>>)
    requires IsSweep(seqs, ml, ln, exp, trace)
    ensures ValidPositions(seqs, trace[|seqs|], ml)
    ensures forall t :: 0 <= t <= |seqs| ==> |trace[t]| == |seqs|
    ensures forall k :: 0 <= k < |seqs| ==> trace[|seqs|][k] == trace[k + 1][k]
  {
    SweepEndValid(seqs, ml, ln, exp, trace);
    forall t | 0 <= t <= |seqs|
      ensures |trace[t]| == |seqs|
    {
      if t < |seqs| {
        SweepKeepsDraw(seqs, ml, ln, exp, trace, t, |seqs|);
      }
    }
    forall k | 0 <= k < |seqs|
      ensures trace[|seqs|][k] == trace[k + 1][k]
    {
      SweepKeepsDraw(seqs, ml, ln, exp, trace, k, |seqs|);
    }
  }

  lemma SweepEndValid(seqs: seq<seq<char>>, ml: nat, ln: real -> real, exp: real -> real,
                      trace: seq<seq<int>>)
    requires IsSweep(seqs, ml, ln, exp, trace)
    ensures ValidPositions(seqs, trace[|seqs|], ml)
  {
    var last := |seqs| - 1;
    assert IsResampleStep(seqs, ml, ln, exp, trace[last], last, trace[last + 1]);
  }

  /** Steps after step k leave entry k alone. */
  lemma {:induction false} SweepKeepsDraw(seqs: seq<seq<char>>, ml: nat, ln: real -> real, exp: real -> real,
                                          trace: seq<seq<int>>, k: nat, t: nat)
    requires IsSweep(seqs, ml, ln, exp, trace) && k < |seqs| && k + 1 <= t <= |seqs|
    ensures |trace[t]| == |seqs| && |trace[k + 1]| == |seqs| && trace[t][k] == trace[k + 1][k]
    decreases t
  {
    assert IsResampleStep(seqs, ml, ln, exp, trace[t - 1], t - 1, trace[t]);
    if t > k + 1 {
      SweepKeepsDraw(seqs, ml, ln, exp, trace, k, t - 1);
    }
  }

  /** One pass: sequences 0 .. N-1 in order, each resampled against a
      profile built from the vector as the earlier steps of this same pass
      left it. The ghost trace holds the vector before each step. */
  method Pass(seqs: seq<seq<char>>, ml: nat, ln: real -> real, exp: real -> real,
              background: seq<seq<real>>, pos: array<int>) returns (ghost trace: seq<seq<int>>)
    requires ValidInput(seqs, ml) && background == Background(seqs)
    requires ValidPositions(seqs, pos[..], ml)
    modifies pos
    ensures ValidPositions(seqs, pos[..], ml)
    ensures IsSweep(seqs, ml, ln, exp, trace) && trace[0] == old(pos[..]) && trace[|seqs|] == pos[..]
  {
    trace := [pos[..]];
    var i := 0;
    while i < pos.Length
      invariant 0 <= i <= pos.Length
      invariant ValidPositions(seqs, pos[..], ml)
      invariant |trace| == i + 1 && trace[0] == old(pos[..]) && trace[i] == pos[..]
      invariant forall t :: 0 <= t < i ==> IsResampleStep(seqs, ml, ln, exp, trace[t], t, trace[t + 1])
    {
      var motif := LeaveOneOutProfile(seqs, pos[..], i, ml);
      var o := FindBestPos(seqs[i], motif, background[i], ml, ln, exp);
      pos[i] := o;
      trace := trace + [pos[..]];
      i := i + 1;
    }
  }

  /** The sentinel vector the loop compares against before the first pass:
      it differs from every vector of valid positions. */
  function Sentinel(n: nat): (s: seq<int>)
    ensures |s| == n && forall k :: 0 <= k < n ==> s[k] < 0
  {
    seq(n, _ => -1)
  }

  /** The whole search. Returns the profile over the final windows, the
      final positions (all valid window starts) and the number of passes
      run (the value the finder prints). The ghost `snapshots` holds the
      position vector before the first pass and after each pass; pass p is
      the resampling trace `sweeps[p]` from snapshots[p] to snapshots[p + 1].
      Every pass but the last changed the vector, and the last one left it
      as it found it unless the cap was reached: the loop ends at the first
      pass that changes nothing, or after MaxPasses passes. */
  method GibbsFindMotif(seqs: seq<seq<char>>, ml: nat, ln: real -> real, exp: real -> real)
    returns (motif: seq<seq<real>>, positions: seq<int>, passes: nat,
             ghost snapshots: seq<seq<int>>, ghost sweeps: seq<seq<seq<int>>>)
    requires ValidInput(seqs, ml)
    ensures ValidPositions(seqs, positions, ml)
    ensures 1 <= passes <= MaxPasses
    ensures |snapshots| == passes + 1 && |sweeps| == passes
    ensures ValidPositions(seqs, snapshots[0], ml) && snapshots[passes] == positions
    ensures forall p :: 0 <= p < passes ==>
      IsSweep(seqs, ml, ln, exp, sweeps[p]) && sweeps[p][0] == snapshots[p] && sweeps[p][|seqs|] == snapshots[p + 1]
    ensures forall p :: 0 <= p < passes - 1 ==> snapshots[p] != snapshots[p + 1]
    ensures snapshots[passes - 1] == snapshots[passes] || passes == MaxPasses
    ensures motif == FinalProfile(seqs, positions, ml)
  {
    var n := |seqs|;
    var L := |seqs[0]|;
    var background := Background(seqs);
    var pos := new int[n];
    var k := 0;
    while k < n
      invariant 0 <= k <= n
      invariant forall q :: 0 <= q < k ==> 0 <= pos[q] <= L - ml
    {
      var p :| 0 <= p <= L - ml;
      pos[k] := p;
      k := k + 1;
    }
    var prev := Sentinel(n);
    assert prev[0] != pos[..][0];
    passes := 0;
    snapshots := [pos[..]];
    sweeps := [];
    while prev != pos[..] && passes < MaxPasses
      invariant ValidPositions(seqs, pos[..], ml)
      invariant passes <= MaxPasses
      invariant |snapshots| == passes + 1 && |sweeps| == passes
      invariant ValidPositions(seqs, snapshots[0], ml) && snapshots[passes] == pos[..]
      invariant forall p :: 0 <= p < passes ==>
        IsSweep(seqs, ml, ln, exp, sweeps[p]) && sweeps[p][0] == snapshots[p] && sweeps[p][n] == snapshots[p + 1]
      invariant forall p :: 0 <= p < passes - 1 ==> snapshots[p] != snapshots[p + 1]
      invariant passes == 0 ==> prev != pos[..]
      invariant passes > 0 ==> prev == snapshots[passes - 1]
      decreases MaxPasses - passes
    {
      passes := passes + 1;
      prev := pos[..];
      var trace := Pass(seqs, ml, ln, exp, background, pos);
      sweeps := sweeps + [trace];
      snapshots := snapshots + [pos[..]];
    }
    positions := pos[..];
    motif := FinalProfile(seqs, positions, ml);
  }

  /** At step i, a window of sequence i scores exactly 0 when one of its
      symbols appears at that column in no other sequence's window: the
      leave-one-out profile entry is then zero and the guard trips. */
  lemma UnseenSymbolScoresZero(seqs: seq<seq<char>>, pos: seq<int>, i: nat, ml: nat,
                               ln: real -> real, o: nat, j: nat)
    requires ValidInput(seqs, ml) && ValidPositions(seqs, pos, ml) && i < |seqs|
    requires o + ml <= |seqs[i]| && j < ml
    requires forall k :: 0 <= k < |seqs| && k != i ==> seqs[k][pos[k] + j] != seqs[i][o + j]
    ensures Scores(seqs[i], LeaveOneOutProfile(seqs, pos, i, ml), Background(seqs)[i], ml, ln)[o] == 0.0
  {
    var profile := LeaveOneOutProfile(seqs, pos, i, ml);
    var bg := Background(seqs)[i];
    assert IsDna(seqs[i]);
    var x := NucIndex(seqs[i][o + j]);
    LeaveOneOutZeroIff(seqs, pos, i, ml, j, x);
    assert ZeroAt(seqs[i], profile, bg, ml, o, j);
    GuardedWindowScoresZero(seqs[i], profile, bg, ml, ln, o, j);
  }

  /** With the finder's own background, the guard trips only on the
      profile: the background entry of a sequence's own symbol is never 0. */
  lemma GuardIsProfileZero(seqs: seq<seq<char>>, pos: seq<int>, i: nat, ml: nat, o: nat, j: nat)
    requires ValidInput(seqs, ml) && ValidPositions(seqs, pos, ml) && i < |seqs|
    requires o + ml <= |seqs[i]| && j < ml
    ensures
      var profile := LeaveOneOutProfile(seqs, pos, i, ml);
      (ZeroAt(seqs[i], profile, Background(seqs)[i], ml, o, j) <==> profile[j][NucIndex(seqs[i][o + j])] == 0.0)
  {
    BackgroundPositiveOnOwnSymbols(seqs, i, o + j);
  }
}
