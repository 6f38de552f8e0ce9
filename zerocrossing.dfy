/** The zero-crossing-rate extractor `extract_zerocrossingrate`: for each
    block, the total variation of its sign sequence divided by twice the
    block length. */
module ZeroCrossing {
  import opened Outcomes
  import opened Reals

  /** `np.sign` on one sample. */
  function Sign(v: real): (s: int)
    ensures -1 <= s <= 1
    ensures s > 0 <==> v > 0.0
    ensures s < 0 <==> v < 0.0
  {
    if v > 0.0 then 1 else if v < 0.0 then -1 else 0
  }

  function Abs(i: int): nat
  {
    if i < 0 then -i else i
  }

  /** `np.sum(np.abs(np.diff(np.sign(b))))`: each sign change between
      neighbours adds 2, a step to or from zero adds 1, so a block of K
      samples has a variation of at most 2(K-1). */
  function SignVariation(b: seq<real>): (v: nat)
    ensures |b| > 0 ==> v <= 2 * (|b| - 1)
  {
    if |b| < 2 then 0 else Abs(Sign(b[1]) - Sign(b[0])) + SignVariation(b[1..])
  }

  /** The rate of one block, `K` being the block length read from `xb[1]`. */
  function BlockRate(b: seq<real>, K: nat): real
    requires K > 0
  {
    SignVariation(b) as real / (2 * K) as real
  }

  /** `extract_zerocrossingrate(xb)`. Fewer than two blocks make `xb[1]` an
      index error; blocks of length zero make numpy divide 0 by 0. */
  function ZeroCrossingRate(xb: seq<seq<real>>): (r: Result<seq<real>>)
    requires IsMatrix(xb)
    ensures |xb| < 2 ==> r == Err(IndexError)
    ensures |xb| >= 2 && |xb[1]| == 0 ==> r == Err(NotFinite)
    ensures r.Ok? <==> |xb| >= 2 && |xb[1]| > 0
    ensures r.Ok? ==> |r.value| == |xb|
  {
    if |xb| < 2 then Err(IndexError)
    else if |xb[1]| == 0 then Err(NotFinite)
    else Ok(seq(|xb|, n requires 0 <= n < |xb| => BlockRate(xb[n], |xb[1]|)))
  }

  /** All samples of `b` have the sign of the first (all positive, all
      negative or all zero). */
  predicate SameSign(b: seq<real>)
  {
    forall i :: 0 <= i < |b| ==> Sign(b[i]) == Sign(b[0])
  }

  /** Every sample has the sign opposite to that of its predecessor, and no
      sample is zero (a one-sample block may be). */
  predicate Alternating(b: seq<real>)
  {
    forall i :: 0 <= i < |b| - 1 ==> Sign(b[i]) != 0 && Sign(b[i + 1]) == -Sign(b[i])
  }

  /** The sign sequence has no variation exactly when all signs agree. */
  lemma {:induction false} SignVariationZeroIff(b: seq<real>)
    ensures SignVariation(b) == 0 <==> SameSign(b)
  {
    if |b| >= 2 {
      var t := b[1..];
      SignVariationZeroIff(t);
      if SignVariation(b) == 0 {
        assert Sign(b[1]) == Sign(b[0]);
        forall i | 0 <= i < |b|
          ensures Sign(b[i]) == Sign(b[0])
        {
          if i > 0 {
            assert b[i] == t[i - 1];
          }
        }
      }
      if SameSign(b) {
        assert Sign(b[1]) == Sign(b[0]);
        forall i | 0 <= i < |t|
          ensures Sign(t[i]) == Sign(t[0])
        {
          assert t[i] == b[i + 1];
        }
      }
    }
  }

  /** The sign sequence reaches its largest variation, 2 per neighbouring
      pair, exactly when the signs alternate between -1 and 1. */
  lemma {:induction false} SignVariationMaxIff(b: seq<real>)
    requires |b| > 0
    ensures SignVariation(b) == 2 * (|b| - 1) <==> Alternating(b)
  {
    if |b| >= 2 {
      var t := b[1..];
      SignVariationMaxIff(t);
      if SignVariation(b) == 2 * (|b| - 1) {
        assert Abs(Sign(b[1]) - Sign(b[0])) == 2;
        forall i | 0 <= i < |b| - 1
          ensures Sign(b[i]) != 0 && Sign(b[i + 1]) == -Sign(b[i])
        {
          if i > 0 {
            assert b[i] == t[i - 1] && b[i + 1] == t[i];
          }
        }
      }
      if Alternating(b) {
        assert Abs(Sign(b[1]) - Sign(b[0])) == 2;
        forall i | 0 <= i < |t| - 1
          ensures Sign(t[i]) != 0 && Sign(t[i + 1]) == -Sign(t[i])
        {
          assert t[i] == b[i + 1] && t[i + 1] == b[i + 2];
        }
      }
    }
  }

  /** The rate of every block lies in [0, (K-1)/K]; in particular it never
      reaches 1, not even for a block whose signs alternate throughout. */
  lemma ZeroCrossingRateRange(xb: seq<seq<real>>, n: nat)
    requires IsMatrix(xb) && ZeroCrossingRate(xb).Ok? && n < |xb|
    ensures var K := |xb[1]|;
      0.0 <= ZeroCrossingRate(xb).value[n] <= (K - 1) as real / K as real
  {
    var K := |xb[1]|;
    assert |xb[n]| == K;
    DivNonNegative(SignVariation(xb[n]) as real, (2 * K) as real);
    DivMonotone(SignVariation(xb[n]) as real, (2 * (K - 1)) as real, (2 * K) as real);
    HalvedRatio(K);
  }

  lemma HalvedRatio(K: nat)
    requires K > 0
    ensures (2 * (K - 1)) as real / (2 * K) as real == (K - 1) as real / K as real
  {
  }

  /** A block's rate is 0 exactly when all its samples share one sign; so
      an all-zero (silent) block and a block of one sign both give 0. */
  lemma ZeroCrossingRateZeroIff(xb: seq<seq<real>>, n: nat)
    requires IsMatrix(xb) && ZeroCrossingRate(xb).Ok? && n < |xb|
    ensures ZeroCrossingRate(xb).value[n] == 0.0 <==> SameSign(xb[n])
  {
    var K := |xb[1]|;
    SignVariationZeroIff(xb[n]);
    DivInjective(SignVariation(xb[n]) as real, 0.0, (2 * K) as real);
  }

  /** A block's rate is its largest possible value (K-1)/K exactly when its
      signs alternate. */
  lemma ZeroCrossingRateMaxIff(xb: seq<seq<real>>, n: nat)
    requires IsMatrix(xb) && ZeroCrossingRate(xb).Ok? && n < |xb|
    ensures var K := |xb[1]|;
      ZeroCrossingRate(xb).value[n] == (K - 1) as real / K as real <==> Alternating(xb[n])
  {
    var K := |xb[1]|;
    assert |xb[n]| == K;
    SignVariationMaxIff(xb[n]);
    HalvedRatio(K);
    DivInjective(SignVariation(xb[n]) as real, (2 * (K - 1)) as real, (2 * K) as real);
  }

  /** `c * b` */
  function Scale(b: seq<real>, c: real): (s: seq<real>)
    ensures |s| == |b|
  {
    seq(|b|, i requires 0 <= i < |b| => c * b[i])
  }

  /** `c * xb` */
  function ScaleMatrix(xb: seq<seq<real>>, c: real): (m: seq<seq<real>>)
    ensures |m| == |xb|
    ensures IsMatrix(xb) ==> IsMatrix(m)
  {
    seq(|xb|, n requires 0 <= n < |xb| => Scale(xb[n], c))
  }

  lemma SignOfScaled(c: real, v: real)
    requires c != 0.0
    ensures Sign(c * v) == if c > 0.0 then Sign(v) else -Sign(v)
  {
    ProductSign(c, v);
  }

  lemma {:induction false} SignVariationScale(b: seq<real>, c: real)
    requires c != 0.0
    ensures SignVariation(Scale(b, c)) == SignVariation(b)
  {
    if |b| >= 2 {
      var s := Scale(b, c);
      forall i | 0 <= i < |b| - 1
        ensures s[1..][i] == Scale(b[1..], c)[i]
      {
        assert s[1..][i] == s[i + 1] == c * b[i + 1];
      }
      assert s[1..] == Scale(b[1..], c);
      SignVariationScale(b[1..], c);
      SignOfScaled(c, b[0]);
      SignOfScaled(c, b[1]);
    }
  }

  /** Scaling the blocks by any non-zero constant leaves every rate as it
      was: a positive gain keeps each sign, a negative one (negation among
      them) flips them all. */
  lemma ZeroCrossingRateScaleInvariant(xb: seq<seq<real>>, c: real)
    requires IsMatrix(xb) && c != 0.0
    ensures ZeroCrossingRate(ScaleMatrix(xb, c)) == ZeroCrossingRate(xb)
  {
    var m := ScaleMatrix(xb, c);
    if |xb| >= 2 && |xb[1]| > 0 {
      forall n | 0 <= n < |xb|
        ensures SignVariation(m[n]) == SignVariation(xb[n])
      {
        SignVariationScale(xb[n], c);
      }
      assert ZeroCrossingRate(m).value == ZeroCrossingRate(xb).value;
    }
  }
}
