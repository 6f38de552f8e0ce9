/** The per-file aggregation `aggregate_feature_per_file`: the mean and the
    (population) standard deviation of every feature row, interleaved as
    `[mean0, std0, mean1, std1, ...]`. */
module Aggregation {
  import opened Outcomes
  import opened Reals

  /** `np.mean` of a non-empty row; the mean of a constant row is its
      value. */
  function Mean(s: seq<real>): (r: real)
    requires |s| > 0
    ensures Constant(s) ==> r == s[0]
  {
    if Constant(s) then
      SumBounds(s, s[0], s[0]);
      DivBetween(s[0], Sum(s), s[0], |s| as real);
      Sum(s) / |s| as real
    else
      Sum(s) / |s| as real
  }

  /** `np.abs(s - mu) ** 2` */
  function SquaredDeviations(s: seq<real>, mu: real): (d: seq<real>)
    ensures |d| == |s|
    ensures forall i :: 0 <= i < |d| ==> d[i] >= 0.0
  {
    seq(|s|, i requires 0 <= i < |s| => Square(s[i] - mu))
  }

  /** The population variance (`ddof = 0`, numpy's default): the mean of
      squares, so never negative. */
  function Variance(s: seq<real>): (r: real)
    requires |s| > 0
    ensures r >= 0.0
  {
    var d := SquaredDeviations(s, Mean(s));
    SumOfNonNegatives(d);
    DivNonNegative(Sum(d), |d| as real);
    Mean(d)
  }

  /** `np.std`: the square root of the population variance. Under a true
      square root it is non-negative, and 0 exactly when the row is
      constant. */
  function Std(s: seq<real>, sqrt: real -> real): (r: real)
    requires |s| > 0
    ensures IsSqrt(sqrt) ==> r >= 0.0 && (r == 0.0 <==> Constant(s))
  {
    VarianceZeroIff(s);
    sqrt(Variance(s))
  }

  /** All entries of `s` equal the first. */
  predicate Constant(s: seq<real>)
  {
    forall i :: 0 <= i < |s| ==> s[i] == s[0]
  }

  /** `np.dstack((mean, std)).flatten()` over the rows of `features`. */
  function Interleave(features: seq<seq<real>>, sqrt: real -> real): (r: seq<real>)
    requires forall i :: 0 <= i < |features| ==> |features[i]| > 0
    ensures |r| == 2 * |features|
    ensures forall i :: 0 <= i < |features| ==>
      r[2 * i] == Mean(features[i]) && r[2 * i + 1] == Std(features[i], sqrt)
  {
    if features == [] then []
    else [Mean(features[0]), Std(features[0], sqrt)] + Interleave(features[1..], sqrt)
  }

  /** `aggregate_feature_per_file(features)`. A matrix with rows but no
      columns makes numpy take the mean of nothing, which is nan. */
  function AggregateFeaturePerFile(features: seq<seq<real>>, sqrt: real -> real): (r: Result<seq<real>>)
    requires IsMatrix(features)
    ensures r.Ok? <==> |features| == 0 || |features[0]| > 0
    ensures r.Ok? ==> |r.value| == 2 * |features|
    ensures r.Ok? ==> forall i :: 0 <= i < |features| ==>
      |features[i]| > 0 &&
      r.value[2 * i] == Mean(features[i]) && r.value[2 * i + 1] == Std(features[i], sqrt)
  {
    if |features| > 0 && |features[0]| == 0 then Err(NotFinite)
    else Ok(Interleave(features, sqrt))
  }

  lemma {:induction false} SumOfNonNegatives(s: seq<real>)
    requires forall i :: 0 <= i < |s| ==> s[i] >= 0.0
    ensures Sum(s) >= 0.0
    ensures Sum(s) == 0.0 ==> forall i :: 0 <= i < |s| ==> s[i] == 0.0
  {
    if s != [] {
      SumOfNonNegatives(s[1..]);
      if Sum(s) == 0.0 {
        forall i | 0 <= i < |s|
          ensures s[i] == 0.0
        {
          if i > 0 {
            assert s[i] == s[1..][i - 1];
          }
        }
      }
    }
  }

  /** The mean lies between any lower and upper bound of the row. */
  lemma MeanBounds(s: seq<real>, lo: real, hi: real)
    requires |s| > 0
    requires forall i :: 0 <= i < |s| ==> lo <= s[i] <= hi
    ensures lo <= Mean(s) <= hi
  {
    SumBounds(s, lo, hi);
    DivBetween(lo, Sum(s), hi, |s| as real);
  }

  /** The variance is zero exactly when every entry of the row is the same. */
  lemma VarianceZeroIff(s: seq<real>)
    requires |s| > 0
    ensures Variance(s) == 0.0 <==> Constant(s)
  {
    var mu := Mean(s);
    var d := SquaredDeviations(s, mu);
    SumOfNonNegatives(d);
    DivInjective(Sum(d), 0.0, |d| as real);
    if Variance(s) == 0.0 {
      assert Sum(d) / |d| as real == 0.0 / |d| as real;
      assert Sum(d) == 0.0;
      forall i | 0 <= i < |s|
        ensures s[i] == mu
      {
        assert d[i] == Square(s[i] - mu) == 0.0;
        if s[i] != mu {
          SquarePositive(s[i] - mu);
        }
      }
    }
    if Constant(s) {
      SumBounds(d, 0.0, 0.0);
    }
  }

  /** A feature matrix of one column (a file of one block) aggregates to its
      own values as means and to zero deviations. */
  lemma AggregateSingleColumn(features: seq<seq<real>>, sqrt: real -> real)
    requires IsSqrt(sqrt)
    requires forall i :: 0 <= i < |features| ==> |features[i]| == 1
    ensures IsMatrix(features)
    ensures var r := AggregateFeaturePerFile(features, sqrt);
      r.Ok? && forall i :: 0 <= i < |features| ==>
        r.value[2 * i] == features[i][0] && r.value[2 * i + 1] == 0.0
  {
    var r := AggregateFeaturePerFile(features, sqrt);
    forall i | 0 <= i < |features|
      ensures r.value[2 * i] == features[i][0] && r.value[2 * i + 1] == 0.0
    {
      assert Constant(features[i]);
    }
  }
}
