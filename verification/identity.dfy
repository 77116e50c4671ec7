/**
 * Length-weighted average percent identity of one contig's hits (calc_a_id),
 * as a fraction: (sum of pid_i * len_i) / (sum of len_i) / 100.
 */
module Identity {

  /** Sum of pid_i * len_i over the first |pId| hits. */
  function WeightedSum(pId: seq<real>, alnL: seq<int>): real
    requires |pId| == |alnL|
  {
    if pId == [] then 0.0
    else WeightedSum(pId[..|pId| - 1], alnL[..|alnL| - 1]) + pId[|pId| - 1] * alnL[|alnL| - 1] as real
  }

  /** Sum of the alignment lengths. */
  function TotalLength(alnL: seq<int>): int
  {
    if alnL == [] then 0 else TotalLength(alnL[..|alnL| - 1]) + alnL[|alnL| - 1]
  }

  /**
   * The value calc_a_id returns: the weighted mean divided by 100 when both the
   * total length and the weighted sum are positive, otherwise the weighted sum
   * itself (0 for no hits).
   */
  function ANI(pId: seq<real>, alnL: seq<int>): real
    requires |pId| == |alnL|
  {
    PercentMean(WeightedSum(pId, alnL), TotalLength(alnL))
  }

  /** The guarded division of calc_a_id on a weighted sum w and a total length t. */
  function PercentMean(w: real, t: int): real
  {
    if t > 0 && w > 0.0 then (w / t as real) / 100.0 else w
  }

  /** Accumulates the weighted sum and the total length in one pass, then divides. */
  method CalcAId(pId: seq<real>, alnL: seq<int>) returns (aId: real)
    requires |pId| == |alnL|
    ensures aId == ANI(pId, alnL)
  {
    var totAlnL := 0;
    aId := 0.0;
    for i := 0 to |pId|
      invariant aId == WeightedSum(pId[..i], alnL[..i])
      invariant totAlnL == TotalLength(alnL[..i])
    {
      assert pId[..i + 1][..i] == pId[..i] && alnL[..i + 1][..i] == alnL[..i];
      aId := aId + pId[i] * alnL[i] as real;
      totAlnL := totAlnL + alnL[i];
    }
    assert pId[..|pId|] == pId && alnL[..|alnL|] == alnL;
    if totAlnL > 0 && aId > 0.0 {
      aId := (aId / totAlnL as real) / 100.0;
    }
  }

  /** With identities in [lo, hi] and positive lengths the weighted sum lies between lo and hi times the total. */
  lemma {:induction false} WeightedSumBounds(pId: seq<real>, alnL: seq<int>, lo: real, hi: real)
    requires |pId| == |alnL|
    requires forall i :: 0 <= i < |pId| ==> lo <= pId[i] <= hi && alnL[i] > 0
    ensures lo * TotalLength(alnL) as real <= WeightedSum(pId, alnL) <= hi * TotalLength(alnL) as real
    ensures pId != [] ==> TotalLength(alnL) > 0
  {
    if pId != [] {
      var n := |pId| - 1;
      WeightedSumBounds(pId[..n], alnL[..n], lo, hi);
      var l := alnL[n] as real;
      assert lo * l <= pId[n] * l <= hi * l;
    }
  }

  /**
   * For at least one hit, identities in [lo, hi] with 0 <= lo and positive
   * lengths, the result is the weighted mean over 100 and lies in [lo/100, hi/100].
   */
  lemma ANIIsWeightedMean(pId: seq<real>, alnL: seq<int>, lo: real, hi: real)
    requires |pId| == |alnL| && pId != []
    requires 0.0 <= lo
    requires forall i :: 0 <= i < |pId| ==> lo <= pId[i] <= hi && alnL[i] > 0
    ensures TotalLength(alnL) > 0
    ensures ANI(pId, alnL) == (WeightedSum(pId, alnL) / TotalLength(alnL) as real) / 100.0
    ensures lo / 100.0 <= ANI(pId, alnL) <= hi / 100.0
  {
    assert Within(WeightedSum(pId, alnL), TotalLength(alnL), lo, hi) by {
      WeightedSumBounds(pId, alnL, lo, hi);
    }
    PercentMeanBounds(WeightedSum(pId, alnL), TotalLength(alnL), lo, hi);
  }

  /** A positive total t with lo * t <= w <= hi * t. */
  predicate Within(w: real, t: int, lo: real, hi: real)
  {
    t > 0 && lo * t as real <= w <= hi * t as real
  }

  /** With lo * t <= w <= hi * t, the guarded division is the mean over 100, between lo/100 and hi/100. */
  lemma PercentMeanBounds(w: real, t: int, lo: real, hi: real)
    requires 0.0 <= lo && Within(w, t, lo, hi)
    ensures PercentMean(w, t) == (w / t as real) / 100.0
    ensures lo / 100.0 <= PercentMean(w, t) <= hi / 100.0
  {
    var tr := t as real;
    var m := w / tr;
    assert m * tr == w;
    assert lo <= m <= hi;
    if w <= 0.0 {
      assert lo * tr <= 0.0;
      assert lo == 0.0;
      assert w == 0.0 && m == 0.0;
    }
  }

  /** No hits give 0; a single hit of positive length gives its own identity over 100. */
  lemma {:induction false} ANIEmptyAndSingle(p: real, l: int)
    requires 0.0 <= p && l > 0
    ensures ANI([], []) == 0.0
    ensures ANI([p], [l]) == p / 100.0
  {
    assert [p][..0] == [] && [l][..0] == [];
    assert WeightedSum([p], [l]) == p * l as real;
    if p > 0.0 {
      assert (p * l as real) / l as real == p;
    }
  }
}
