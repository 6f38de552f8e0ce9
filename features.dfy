/** The RMS and spectral-flux extractors, the guards of the two spectral
    extractors whose arithmetic stays outside the model, and
    `extract_features`, which frames a signal once and stacks the five
    feature rows in a fixed order. */
module Features {
  import opened Outcomes
  import opened Reals
  import opened Framing
  import ZeroCrossing
  import Aggregation

  /** `eps` */
  const Eps: real := 0.000001

  /** The level below which the RMS feature is clamped, in dB. */
  const SilenceFloor: real := -100.0

  /** The numeric primitives that the model takes as given: numpy's `sqrt`
      and `log10`, the magnitude spectrum of one block (the Hann-windowed
      `scipy.signal.stft` at unit sample rate, flattened), and the per-block
      spectral centroid (in Hz, for a sample rate) and spectral crest. */
  datatype Numerics = Numerics(
    sqrt: real -> real,
    log10: real -> real,
    spectrum: seq<real> -> seq<real>,
    centroid: (seq<real>, real) -> real,
    crest: seq<real> -> real)

  /** A one-sided spectrum of a block of K samples has K/2 + 1 bins. */
  ghost predicate OneSided(spectrum: seq<real> -> seq<real>)
  {
    forall b :: |spectrum(b)| == |b| / 2 + 1
  }

  /** `extract_spectral_centroid(xb, fs)`: reads the block length K from
      `xb[1]`, then one centroid per block. The analysis windows every block
      with `hann(K)`, whose `2 * pi / K` raises for K = 0. */
  function ExtractSpectralCentroid(xb: seq<seq<real>>, fs: real, num: Numerics): (r: Result<seq<real>>)
    ensures |xb| < 2 ==> r == Err(IndexError)
    ensures |xb| >= 2 && |xb[1]| == 0 ==> r == Err(ZeroDivisionError)
    ensures r.Ok? <==> |xb| >= 2 && |xb[1]| > 0
    ensures r.Ok? ==> |r.value| == |xb|
  {
    if |xb| < 2 then Err(IndexError)
    else if |xb[1]| == 0 then Err(ZeroDivisionError)
    else Ok(seq(|xb|, n requires 0 <= n < |xb| => num.centroid(xb[n], fs)))
  }

  /** `extract_spectral_crest(xb)`: the analysis reads the block length K
      from `xb[1]` and fails in `hann(0)` for K = 0; otherwise one crest
      value per block. */
  function ExtractSpectralCrest(xb: seq<seq<real>>, num: Numerics): (r: Result<seq<real>>)
    ensures |xb| < 2 ==> r == Err(IndexError)
    ensures |xb| >= 2 && |xb[1]| == 0 ==> r == Err(ZeroDivisionError)
    ensures r.Ok? <==> |xb| >= 2 && |xb[1]| > 0
    ensures r.Ok? ==> |r.value| == |xb|
  {
    if |xb| < 2 then Err(IndexError)
    else if |xb[1]| == 0 then Err(ZeroDivisionError)
    else Ok(seq(|xb|, n requires 0 <= n < |xb| => num.crest(xb[n])))
  }

  /** `20 * log10(rms + eps)` for the RMS of a block. A silent block has
      the level `20 * log10(eps)`, that is -120 dB, below the clamp. */
  function Decibels(meanSquare: real, num: Numerics): (r: real)
    ensures meanSquare == 0.0 && IsSqrt(num.sqrt) && num.log10(Eps) == -6.0 ==> r == -120.0
  {
    20.0 * num.log10(num.sqrt(meanSquare) + Eps)
  }

  /** `(1 / K) * np.sum(np.square(b))`: never negative, and 0 exactly for
      an all-zero block. */
  function MeanSquare(b: seq<real>, K: nat): (r: real)
    requires K > 0
    ensures r >= 0.0
    ensures r == 0.0 <==> forall i :: 0 <= i < |b| ==> b[i] == 0.0
  {
    SumOfSquaresZeroIff(b);
    ProductSign(1.0 / K as real, SumOfSquares(b));
    (1.0 / K as real) * SumOfSquares(b)
  }

  /** `extract_rms(xb)`. Fewer than two blocks make `xb[1]` an index error;
      blocks of length zero make the Python expression `1 / 0` raise. */
  function ExtractRms(xb: seq<seq<real>>, num: Numerics): (r: Result<seq<real>>)
    requires IsMatrix(xb)
    ensures |xb| < 2 ==> r == Err(IndexError)
    ensures |xb| >= 2 && |xb[1]| == 0 ==> r == Err(ZeroDivisionError)
    ensures r.Ok? <==> |xb| >= 2 && |xb[1]| > 0
    ensures r.Ok? ==> |r.value| == |xb|
    ensures r.Ok? ==> forall n :: 0 <= n < |xb| ==> r.value[n] >= SilenceFloor
  {
    if |xb| < 2 then Err(IndexError)
    else if |xb[1]| == 0 then Err(ZeroDivisionError)
    else Ok(seq(|xb|, n requires 0 <= n < |xb| =>
      Max(Decibels(MeanSquare(xb[n], |xb[1]|), num), SilenceFloor)))
  }

  /** The clamp: each RMS value is the block's level in dB where that is
      above -100 dB, and -100 dB otherwise, whatever `log10` returns. */
  lemma RmsClamp(xb: seq<seq<real>>, num: Numerics, n: nat)
    requires IsMatrix(xb) && ExtractRms(xb, num).Ok? && n < |xb|
    ensures var v := ExtractRms(xb, num).value[n];
      var db := Decibels(MeanSquare(xb[n], |xb[1]|), num);
      v >= db && v >= SilenceFloor &&
      (db >= SilenceFloor ==> v == db) &&
      (db < SilenceFloor ==> v == SilenceFloor)
  {
  }

  /** `np.sum(np.square(np.diff(X, axis=0)[n]))` for two spectra: a sum of
      squares, so never negative. */
  function SquaredDistance(a: seq<real>, b: seq<real>): (r: real)
    requires |a| == |b|
    ensures r >= 0.0
  {
    SumOfSquares(seq(|a|, k requires 0 <= k < |a| => a[k] - b[k]))
  }

  /** `extract_spectral_flux(xb)`: the distance between the spectra of
      neighbouring blocks over `K / 2`, with a 0 put in front for block 0.
      Fewer than two blocks make `xb[1]` an index error; blocks of length
      zero fail in the analysis window `hann(0)`. */
  function ExtractSpectralFlux(xb: seq<seq<real>>, num: Numerics): (r: Result<seq<real>>)
    requires IsMatrix(xb) && OneSided(num.spectrum)
    ensures |xb| < 2 ==> r == Err(IndexError)
    ensures |xb| >= 2 && |xb[1]| == 0 ==> r == Err(ZeroDivisionError)
    ensures r.Ok? <==> |xb| >= 2 && |xb[1]| > 0
    ensures r.Ok? ==> |r.value| == |xb| && r.value[0] == 0.0
  {
    if |xb| < 2 then Err(IndexError)
    else if |xb[1]| == 0 then Err(ZeroDivisionError)
    else
      var X := seq(|xb|, n requires 0 <= n < |xb| => num.spectrum(xb[n]));
      assert forall n :: 0 <= n < |xb| ==> |X[n]| == |xb[1]| / 2 + 1;
      var flux := seq(|xb| - 1, n requires 0 <= n < |xb| - 1 =>
        num.sqrt(SquaredDistance(X[n + 1], X[n])) / (|xb[1]| as real / 2.0));
      Ok([0.0] + flux)
  }

  lemma {:induction false} SumOfSquaresZeroIff(s: seq<real>)
    ensures SumOfSquares(s) == 0.0 <==> forall i :: 0 <= i < |s| ==> s[i] == 0.0
  {
    if s != [] {
      SumOfSquaresZeroIff(s[1..]);
      if s[0] != 0.0 {
        SquarePositive(s[0]);
      }
      assert forall i :: 0 <= i < |s| - 1 ==> s[1..][i] == s[i + 1];
    }
  }

  /** The squared distance of two spectra is 0 exactly when they are equal. */
  lemma SquaredDistanceZeroIff(a: seq<real>, b: seq<real>)
    requires |a| == |b|
    ensures SquaredDistance(a, b) == 0.0 <==> a == b
  {
    var d := seq(|a|, k requires 0 <= k < |a| => a[k] - b[k]);
    SumOfSquaresZeroIff(d);
    if SquaredDistance(a, b) == 0.0 {
      assert forall k :: 0 <= k < |a| ==> a[k] - b[k] == d[k] == 0.0;
    }
  }

  /** Under a true square root the flux is never negative, and it is 0 at a
      block exactly when that block's spectrum equals its predecessor's;
      in particular a block that repeats its predecessor has flux 0. */
  lemma FluxZeroIff(xb: seq<seq<real>>, num: Numerics, n: nat)
    requires IsMatrix(xb) && OneSided(num.spectrum) && IsSqrt(num.sqrt)
    requires ExtractSpectralFlux(xb, num).Ok? && 0 < n < |xb|
    ensures ExtractSpectralFlux(xb, num).value[n] >= 0.0
    ensures ExtractSpectralFlux(xb, num).value[n] == 0.0 <==>
      num.spectrum(xb[n]) == num.spectrum(xb[n - 1])
  {
    var K := |xb[1]|;
    var a, b := num.spectrum(xb[n]), num.spectrum(xb[n - 1]);
    FluxEntry(xb, num, n);
    SquaredDistanceZeroIff(a, b);
    NormOverHalfZeroIff(num.sqrt, SquaredDistance(a, b), K);
  }

  /** `sqrt(dist) / (K / 2)` is non-negative, and 0 exactly when `dist` is. */
  lemma NormOverHalfZeroIff(sqrt: real -> real, dist: real, K: nat)
    requires IsSqrt(sqrt) && dist >= 0.0 && K > 0
    ensures sqrt(dist) / (K as real / 2.0) >= 0.0
    ensures sqrt(dist) / (K as real / 2.0) == 0.0 <==> dist == 0.0
  {
    var root := sqrt(dist);
    assert root >= 0.0 && (root == 0.0 <==> dist == 0.0);
    DivNonNegative(root, K as real / 2.0);
    DivInjective(root, 0.0, K as real / 2.0);
  }

  /** Entry `n > 0` of the flux compares the spectra of blocks `n` and `n-1`. */
  lemma FluxEntry(xb: seq<seq<real>>, num: Numerics, n: nat)
    requires IsMatrix(xb) && OneSided(num.spectrum)
    requires ExtractSpectralFlux(xb, num).Ok? && 0 < n < |xb|
    ensures |num.spectrum(xb[n])| == |num.spectrum(xb[n - 1])|
    ensures ExtractSpectralFlux(xb, num).value[n] ==
      num.sqrt(SquaredDistance(num.spectrum(xb[n]), num.spectrum(xb[n - 1]))) / (|xb[1]| as real / 2.0)
  {
    assert |xb[n]| == |xb[n - 1]|;
  }

  /** `extract_features` on a block matrix: the five extractors run in the
      order centroid, RMS, ZCR, crest, flux, and the first failure is the
      outcome. */
  function StackFeatures(xb: seq<seq<real>>, fs: real, num: Numerics): (r: Result<seq<seq<real>>>)
    requires IsMatrix(xb) && OneSided(num.spectrum)
    ensures |xb| < 2 ==> r == Err(IndexError)
    ensures |xb| >= 2 && |xb[1]| == 0 ==> r == Err(ZeroDivisionError)
    ensures r.Ok? <==> |xb| >= 2 && |xb[1]| > 0
    ensures r.Ok? ==> |r.value| == 5 && IsMatrix(r.value) && |r.value[0]| == |xb|
    ensures r.Ok? ==>
      r.value[0] == ExtractSpectralCentroid(xb, fs, num).value &&
      r.value[1] == ExtractRms(xb, num).value &&
      r.value[2] == ZeroCrossing.ZeroCrossingRate(xb).value &&
      r.value[3] == ExtractSpectralCrest(xb, num).value &&
      r.value[4] == ExtractSpectralFlux(xb, num).value
  {
    match ExtractSpectralCentroid(xb, fs, num)
    case Err(e) => Err(e)
    case Ok(sc) =>
      match ExtractRms(xb, num)
      case Err(e) => Err(e)
      case Ok(rms) =>
        match ZeroCrossing.ZeroCrossingRate(xb)
        case Err(e) => Err(e)
        case Ok(zc) =>
          match ExtractSpectralCrest(xb, num)
          case Err(e) => Err(e)
          case Ok(scf) =>
            match ExtractSpectralFlux(xb, num)
            case Err(e) => Err(e)
            case Ok(sf) => Ok([sc, rms, zc, scf, sf])
  }

  /** `extract_features(x, blockSize, hopSize, fs)` */
  method ExtractFeatures(x: seq<real>, blockSize: nat, hopSize: nat, fs: real, num: Numerics)
    returns (r: Result<seq<seq<real>>>)
    requires hopSize > 0 && fs != 0.0 && OneSided(num.spectrum)
    ensures r == StackFeatures(Blocks(x, blockSize, hopSize), fs, num)
  {
    var xb, t := BlockAudio(x, blockSize, hopSize, fs);
    r := StackFeatures(Rows(xb), fs, num);
  }

  /** A signal no longer than one hop gives a single block (or none), and
      every extractor then fails on `xb[1]`. */
  lemma ShortSignalFails(x: seq<real>, blockSize: nat, hopSize: nat, fs: real, num: Numerics)
    requires hopSize > 0 && OneSided(num.spectrum)
    ensures |x| <= hopSize <==>
      StackFeatures(Blocks(x, blockSize, hopSize), fs, num) == Err(IndexError)
  {
    FewBlocks(x, blockSize, hopSize);
  }

  /** A file's five feature rows aggregate to ten values: the mean and the
      deviation of each feature, in extractor order. */
  lemma AggregatesToTen(xb: seq<seq<real>>, fs: real, num: Numerics)
    requires IsMatrix(xb) && OneSided(num.spectrum) && StackFeatures(xb, fs, num).Ok?
    ensures var f := StackFeatures(xb, fs, num).value;
      var a := Aggregation.AggregateFeaturePerFile(f, num.sqrt);
      a.Ok? && |a.value| == 10 &&
      a.value[4] == Aggregation.Mean(ZeroCrossing.ZeroCrossingRate(xb).value)
  {
  }

  /** A silent signal longer than one hop: every RMS value is the silence
      floor, every zero-crossing rate and every flux value is 0. */
  lemma SilentSignal(x: seq<real>, blockSize: nat, hopSize: nat, fs: real, num: Numerics)
    requires hopSize > 0 && blockSize > 0 && |x| > hopSize
    requires forall i :: 0 <= i < |x| ==> x[i] == 0.0
    requires OneSided(num.spectrum) && IsSqrt(num.sqrt) && num.log10(Eps) == -6.0
    ensures var r := StackFeatures(Blocks(x, blockSize, hopSize), fs, num);
      r.Ok? && forall n :: 0 <= n < |r.value[0]| ==>
        r.value[1][n] == SilenceFloor && r.value[2][n] == 0.0 && r.value[4][n] == 0.0
  {
    var xb := Blocks(x, blockSize, hopSize);
    FewBlocks(x, blockSize, hopSize);
    forall n | 0 <= n < |xb|
      ensures xb[n] == Zeros(blockSize)
    {
      forall j | 0 <= j < blockSize
        ensures xb[n][j] == 0.0
      {
        BlockCell(x, blockSize, hopSize, n, j);
      }
    }
    var r := StackFeatures(xb, fs, num);
    forall n | 0 <= n < |xb|
      ensures r.value[1][n] == SilenceFloor && r.value[2][n] == 0.0 && r.value[4][n] == 0.0
    {
      assert MeanSquare(xb[n], blockSize) == 0.0;
      ZeroCrossing.ZeroCrossingRateZeroIff(xb, n);
      if n > 0 {
        FluxZeroIff(xb, num, n);
      }
    }
  }
}
