/** The position sampler of the Gibbs motif finder: score every window of
    one sequence against a profile and that sequence's background row, and
    draw a start offset from the softmax of the scores.

    The logarithm and the exponential are the caller's `ln` and `exp`; the
    random draw is a nondeterministic choice among the offsets the draw can
    return. */
module Sampler {
  import opened Nucleotide

  /** What the sampler needs of its arguments: a DNA sequence, a motif
      length that fits, an ML x 4 profile and a background row of 4. */
  predicate Scorable(s: seq<char>, profile: seq<seq<real>>, bg: seq<real>, ml: nat) {
    && IsDna(s)
    && ml <= |s|
    && |profile| == ml
    && (forall j :: 0 <= j < ml ==> |profile[j]| == 4)
    && |bg| == 4
  }

  /** The zero guard: the profile or background entry used for position j
      of the window starting at o is zero. */
  predicate ZeroAt(s: seq<char>, profile: seq<seq<real>>, bg: seq<real>, ml: nat, o: nat, j: nat)
    requires Scorable(s, profile, bg, ml) && o + ml <= |s| && j < ml
    ensures !ZeroAt(s, profile, bg, ml, o, j) ==>
      var x := NucIndex(s[o + j]);
      bg[x] != 0.0 && profile[j][x] / bg[x] != 0.0
  {
    var x := NucIndex(s[o + j]);
    profile[j][x] == 0.0 || bg[x] == 0.0
  }

  /** Some position among the first m of the window at o trips the guard. */
  predicate HasZero(s: seq<char>, profile: seq<seq<real>>, bg: seq<real>, ml: nat, o: nat, m: nat)
    requires Scorable(s, profile, bg, ml) && o + ml <= |s| && m <= ml
  {
    exists j :: 0 <= j < m && ZeroAt(s, profile, bg, ml, o, j)
  }

  /** Sum of ln(profile / background) over the first m positions of the
      window at o, accumulated left to right; defined while no guard trips. */
  function LogSum(s: seq<char>, profile: seq<seq<real>>, bg: seq<real>, ml: nat,
                  ln: real -> real, o: nat, m: nat): real
    requires Scorable(s, profile, bg, ml) && o + ml <= |s| && m <= ml
    requires !HasZero(s, profile, bg, ml, o, m)
  {
    if m == 0 then 0.0
    else
      var x := NucIndex(s[o + m - 1]);
      assert !ZeroAt(s, profile, bg, ml, o, m - 1);
      LogSum(s, profile, bg, ml, ln, o, m - 1) + ln(profile[m - 1][x] / bg[x])
  }

  /** Score of the window at o: exactly 0 when any position trips the
      guard, otherwise the log-likelihood ratio of the whole window. */
  function WindowScore(s: seq<char>, profile: seq<seq<real>>, bg: seq<real>, ml: nat,
                       ln: real -> real, o: nat): (score: real)
    requires Scorable(s, profile, bg, ml) && o + ml <= |s|
    ensures (exists j :: 0 <= j < ml && ZeroAt(s, profile, bg, ml, o, j)) ==> score == 0.0
  {
    if HasZero(s, profile, bg, ml, o, ml) then 0.0 else LogSum(s, profile, bg, ml, ln, o, ml)
  }

  /** The scores of all |s| - ML + 1 windows. */
  function Scores(s: seq<char>, profile: seq<seq<real>>, bg: seq<real>, ml: nat,
                  ln: real -> real): (scores: seq<real>)
    requires Scorable(s, profile, bg, ml)
    ensures |scores| == |s| - ml + 1
  {
    seq(|s| - ml + 1, o requires 0 <= o <= |s| - ml => WindowScore(s, profile, bg, ml, ln, o))
  }

  /** The unnormalised softmax weights. */
  function Exps(scores: seq<real>, exp: real -> real): (w: seq<real>)
    ensures |w| == |scores|
  {
    seq(|scores|, o requires 0 <= o < |scores| => exp(scores[o]))
  }

  /** Sum of the weights; weights that are all nonnegative, as exponentials
      are, sum to 0 exactly when every one of them is 0. */
  function Sum(w: seq<real>): (total: real)
    ensures (forall o :: 0 <= o < |w| ==> w[o] >= 0.0) ==> total >= 0.0
    ensures (forall o :: 0 <= o < |w| ==> w[o] >= 0.0) ==> (total == 0.0 <==> forall o :: 0 <= o < |w| ==> w[o] == 0.0)
  {
    if |w| == 0 then 0.0 else Sum(w[..|w| - 1]) + w[|w| - 1]
  }

  /** The offsets a draw over weights w can return: when the weights sum to
      zero the draw is uniform over every offset; otherwise it follows the
      normalised weights w[o] / Sum(w), so only offsets of nonzero
      probability. */
  predicate MayDraw(w: seq<real>, o: int)
    ensures Sum(w) == 0.0 ==> (MayDraw(w, o) <==> 0 <= o < |w|)
    ensures Sum(w) != 0.0 ==> (MayDraw(w, o) <==> 0 <= o < |w| && w[o] / Sum(w) != 0.0)
  {
    0 <= o < |w| && (Sum(w) != 0.0 ==> w[o] != 0.0)
  }

  /** Weights that sum to something nonzero have a nonzero member. */
  lemma {:induction false} NonzeroSumHasNonzeroWeight(w: seq<real>)
    requires Sum(w) != 0.0
    ensures exists o :: 0 <= o < |w| && w[o] != 0.0
  {
    var last := |w| - 1;
    if w[last] == 0.0 {
      NonzeroSumHasNonzeroWeight(w[..last]);
      var o :| 0 <= o < last && w[..last][o] != 0.0;
      assert w[o] != 0.0;
    }
  }

  /** Scores every window of s and draws one offset: the result is always a
      valid window start, and one the draw over the softmax weights of the
      scores can return. */
  method FindBestPos(s: seq<char>, profile: seq<seq<real>>, bg: seq<real>, ml: nat,
                     ln: real -> real, exp: real -> real) returns (o: int)
    requires Scorable(s, profile, bg, ml)
    ensures 0 <= o <= |s| - ml
    ensures MayDraw(Exps(Scores(s, profile, bg, ml, ln), exp), o)
  {
    var n := |s| - ml + 1;
    var scores := new real[n];
    var i := 0;
    while i < n
      invariant 0 <= i <= n
      invariant forall q :: 0 <= q < i ==> scores[q] == WindowScore(s, profile, bg, ml, ln, q)
    {
      var score := 0.0;
      var j := i;
      while j < i + ml
        invariant i <= j <= i + ml
        invariant !HasZero(s, profile, bg, ml, i, j - i)
        invariant score == LogSum(s, profile, bg, ml, ln, i, j - i)
      {
        var x := NucIndex(s[j]);
        if profile[j - i][x] == 0.0 || bg[x] == 0.0 {
          assert ZeroAt(s, profile, bg, ml, i, j - i);
          score := 0.0;
          break;
        }
        assert !ZeroAt(s, profile, bg, ml, i, j - i);
        score := score + ln(profile[j - i][x] / bg[x]);
        j := j + 1;
      }
      scores[i] := score;
      i := i + 1;
    }
    assert scores[..] == Scores(s, profile, bg, ml, ln);
    var weights := Exps(scores[..], exp);
    if Sum(weights) == 0.0 {
      o :| 0 <= o < n;
    } else {
      NonzeroSumHasNonzeroWeight(weights);
      o :| 0 <= o < n && weights[o] != 0.0;
    }
  }

  /** A window that trips the guard anywhere scores exactly 0, whatever the
      other positions would have contributed. */
  lemma GuardedWindowScoresZero(s: seq<char>, profile: seq<seq<real>>, bg: seq<real>, ml: nat,
                                ln: real -> real, o: nat, j: nat)
    requires Scorable(s, profile, bg, ml) && o + ml <= |s| && j < ml
    requires ZeroAt(s, profile, bg, ml, o, j)
    ensures Scores(s, profile, bg, ml, ln)[o] == 0.0
  {
  }

  lemma {:induction false} LogSumOfOnes(s: seq<char>, profile: seq<seq<real>>, bg: seq<real>, ml: nat,
                                        ln: real -> real, o: nat, m: nat)
    requires Scorable(s, profile, bg, ml) && o + ml <= |s| && m <= ml
    requires !HasZero(s, profile, bg, ml, o, m)
    requires ln(1.0) == 0.0
    requires forall j :: 0 <= j < ml ==> profile[j] == bg
    ensures LogSum(s, profile, bg, ml, ln, o, m) == 0.0
  {
    if m > 0 {
      assert !HasZero(s, profile, bg, ml, o, m - 1);
      LogSumOfOnes(s, profile, bg, ml, ln, o, m - 1);
      var x := NucIndex(s[o + m - 1]);
      assert !ZeroAt(s, profile, bg, ml, o, m - 1);
      assert profile[m - 1] == bg;
      assert profile[m - 1][x] / bg[x] == 1.0;
    }
  }

  /** A profile whose every row equals the background scores every window
      0, so all weights are equal and the draw is uniform over the offsets. */
  lemma ProfileEqualToBackgroundIsUniform(s: seq<char>, profile: seq<seq<real>>, bg: seq<real>, ml: nat,
                                          ln: real -> real, exp: real -> real)
    requires Scorable(s, profile, bg, ml)
    requires ln(1.0) == 0.0
    requires forall j :: 0 <= j < ml ==> profile[j] == bg
    ensures forall o :: 0 <= o <= |s| - ml ==> Scores(s, profile, bg, ml, ln)[o] == 0.0
    ensures forall o :: 0 <= o <= |s| - ml ==> Exps(Scores(s, profile, bg, ml, ln), exp)[o] == exp(0.0)
  {
    forall o | 0 <= o <= |s| - ml
      ensures Scores(s, profile, bg, ml, ln)[o] == 0.0
    {
      if !HasZero(s, profile, bg, ml, o, ml) {
        LogSumOfOnes(s, profile, bg, ml, ln, o, ml);
      }
    }
  }
}
