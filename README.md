# Audio feature extraction for speech/music classification: a Dafny model

The modelled program frames a mono recording into overlapping blocks and
computes five per-block descriptors: spectral centroid, RMS level,
zero-crossing rate, spectral crest and spectral flux. It stacks them into a
5 × N feature matrix and reduces that matrix per file to ten numbers: the
mean and the standard deviation of each feature, interleaved.

This project models the structural part of that pipeline over exact `real`
sequences:

- `framing.dfy` (module `Framing`) holds the framer `block_audio`. It is an
  imperative method over a freshly allocated `array2<real>`. It pads the
  signal with `blockSize` zeros and copies every window in a loop. It is
  proved against the value-level definition `Blocks`, and the lemmas beside
  it give the block count (the ceiling of `len / hopSize`), the contents of
  every cell, the fact that the `min` bounding a window never cuts it short,
  the time stamps, and a round trip for non-overlapping blocks.
- `zerocrossing.dfy` (module `ZeroCrossing`) holds `extract_zerocrossingrate`.
  It proves the exact range `[0, (K-1)/K]`, when the rate is 0 and when it
  reaches its maximum (both as if-and-only-if), and invariance under scaling
  by any non-zero constant.
- `features.dfy` (module `Features`) holds the RMS extractor with its
  -100 dB clamp and the spectral flux with its leading 0. It also holds the
  `xb[1]` guard of the two spectral extractors whose arithmetic is not
  modelled, and `extract_features`, which stacks five rows in a fixed order.
- `aggregation.dfy` (module `Aggregation`) holds `aggregate_feature_per_file`:
  the mean/std layout, the mean's bounds, and when the deviation is 0.
- `common.dfy` holds the `Result`/`Error` outcome type (modules `Outcomes`)
  and exact-real sums and small arithmetic facts (module `Reals`).

Failures of the reference become `Err` values, not preconditions:
- `IndexError` is the failure of `len(xb[1])` on a matrix of fewer than
  two blocks, which happens for every signal no longer than one hop.
- `ZeroDivisionError` is a Python division by the integer 0 for zero-length
  blocks. It is `1 / 0` in the RMS (line 52) and `2 * np.pi / 0` in
  `hann(0)` (line 15), which the analysis of the centroid, the crest and
  the flux evaluates before any spectrum is taken.
- `NotFinite` stands for the inf/nan values that numpy produces when it
  divides by zero. It appears in the ZCR of zero-length blocks and in the
  aggregation of a matrix without columns.

The numeric primitives that the model does not define are fields of the
datatype `Features.Numerics`, passed in as function values. They are
`sqrt`, `log10`, the one-block magnitude spectrum, and the per-block
centroid and crest. Lemmas that need more than their shape state what they
assume:
- `Reals.IsSqrt`: the root is 0 at 0 and positive on positive reals.
- `Features.OneSided`: a block of K samples has a spectrum of K/2 + 1 bins.
- `log10(1e-6) == -6` for the silence floor.

A block of K samples whose signs alternate throughout has K-1 neighbouring
pairs, and line 57 divides by `2*K`, so its rate is `(K-1)/K`, not 1.
`ZeroCrossing.ZeroCrossingRateMaxIff` proves that `(K-1)/K` is the largest
rate and is reached exactly by alternating blocks.

## Model

| member | source | states |
|---|---|---|
| `Framing.NumBlocks` | ass2solution.py:33 | the block count is the ceiling of `len/hopSize`: the fewest hops whose total reaches `len` |
| `Framing.BlockStartInside` | ass2solution.py:33 | block `n` exists (n < ceil(len/hopSize)) exactly when its first sample `n*hopSize` is inside the signal |
| `Framing.FewBlocks` | ass2solution.py:33-34 | an empty signal gives no blocks; a signal gives fewer than two blocks exactly when it is no longer than one hop |
| `Framing.Padded` | ass2solution.py:36 | the padded signal is the signal followed by `blockSize` zeros |
| `Framing.Blocks` | ass2solution.py:33-40 | the block matrix has ceil(len/hopSize) rows, each exactly `blockSize` long |
| `Framing.BlockCell` | ass2solution.py:36-40 | sample `j` of block `n` is `x[n*hopSize + j]` when that index is inside the signal and 0 otherwise |
| `Framing.BlockHeadIsSignal` | ass2solution.py:37-40 | every block starts inside the signal, so its first sample is a signal sample and only a tail of it can be padding |
| `Framing.TimeStamps` | ass2solution.py:35 | one time stamp per block |
| `Framing.TimeStampsStep` | ass2solution.py:35 | the time stamps start at 0 and rise by `hopSize/fs` from block to block |
| `Framing.NoOverlapRoundTrip` | ass2solution.py:32-41 | with `hopSize == blockSize` the blocks laid end to end give back the signal followed by fewer than `blockSize` zeros |
| `Framing.BlockAudio` | ass2solution.py:32-41 | the preallocated array gets ceil(len/hopSize) × blockSize cells holding `Blocks`, the time stamps are `n*hopSize/fs`; the window end `i_stop` is proved never to be cut by the `min`, and every read stays inside the padded signal |
| `ZeroCrossing.ZeroCrossingRate` | ass2solution.py:56-57 | one rate per block; fewer than two blocks is an index error, zero-length blocks give nan (`NotFinite`) |
| `ZeroCrossing.Sign` | ass2solution.py:57 | `np.sign`: 1 on positive samples, -1 on negative ones, 0 on zero |
| `ZeroCrossing.SignVariation` | ass2solution.py:57 | the summed absolute sign differences of a block of K samples are at most 2(K-1) |
| `ZeroCrossing.SignVariationZeroIff` | ass2solution.py:57 | the summed sign differences are 0 exactly when all samples have one sign |
| `ZeroCrossing.SignVariationMaxIff` | ass2solution.py:57 | the summed sign differences reach 2(K-1) exactly when the signs alternate between -1 and 1 |
| `ZeroCrossing.ZeroCrossingRateRange` | ass2solution.py:57 | every rate lies in [0, (K-1)/K] |
| `ZeroCrossing.ZeroCrossingRateZeroIff` | ass2solution.py:57 | a block's rate is 0 exactly when its samples share one sign (an all-zero block included) |
| `ZeroCrossing.ZeroCrossingRateMaxIff` | ass2solution.py:57 | a block's rate is (K-1)/K exactly when its signs alternate |
| `ZeroCrossing.SignOfScaled` | ass2solution.py:57 | `np.sign` of a scaled sample is the sample's sign, flipped for a negative factor |
| `ZeroCrossing.SignVariationScale` | ass2solution.py:57 | scaling a block by a non-zero constant leaves its summed sign differences unchanged |
| `ZeroCrossing.ZeroCrossingRateScaleInvariant` | ass2solution.py:57 | the rates, and the error cases, are unchanged by scaling the blocks by any non-zero constant, negation included |
| `Features.ExtractSpectralCentroid` | ass2solution.py:44-48 | reading `xb[1]` fails with fewer than two blocks; zero-length blocks raise ZeroDivisionError in `hann(0)`; otherwise one centroid per block |
| `Features.ExtractSpectralCrest` | ass2solution.py:60-62 | the analysis reads `xb[1]` and fails with fewer than two blocks; zero-length blocks raise ZeroDivisionError in `hann(0)`; otherwise one crest value per block |
| `Features.MeanSquare` | ass2solution.py:52 | the mean square of a block is never negative, and 0 exactly when every sample is 0 |
| `Features.Decibels` | ass2solution.py:53 | a silent block has the level `20*log10(eps)` = -120 dB |
| `Features.ExtractRms` | ass2solution.py:51-53 | one value per block, never below -100 dB; fewer than two blocks is an index error, zero-length blocks raise ZeroDivisionError |
| `Features.RmsClamp` | ass2solution.py:53 | each RMS value is the block's dB level when that is at least -100, and -100 otherwise, whatever `log10` returns |
| `Features.ExtractSpectralFlux` | ass2solution.py:65-69 | one value per block with entry 0 exactly 0; fewer than two blocks is an index error, zero-length blocks raise ZeroDivisionError in `hann(0)` |
| `Features.SumOfSquaresZeroIff` | ass2solution.py:67 | a sum of squares is 0 exactly when every term is 0 |
| `Features.SquaredDistance` | ass2solution.py:67 | the squared distance of two spectra is never negative |
| `Features.SquaredDistanceZeroIff` | ass2solution.py:67 | the squared distance of two spectra is 0 exactly when they are equal |
| `Features.FluxZeroIff` | ass2solution.py:67-68 | each flux value is non-negative and 0 exactly when the block's spectrum equals its predecessor's |
| `Features.StackFeatures` | ass2solution.py:75-80 | five rows in the order centroid, RMS, ZCR, crest, flux, each one value per block; the first failing extractor decides the error |
| `Features.ExtractFeatures` | ass2solution.py:73-80 | frames the signal with `block_audio` and returns the stack of the five extractors over those blocks |
| `Features.ShortSignalFails` | ass2solution.py:73-80 | feature extraction fails with an index error exactly when the signal is no longer than one hop |
| `Features.AggregatesToTen` | ass2solution.py:84-87 | the stacked features of a file aggregate to ten values, entry 4 being the mean zero-crossing rate |
| `Features.SilentSignal` | ass2solution.py:51-69 | for an all-zero signal every RMS value is -100 dB and every ZCR and flux value is 0 |
| `Aggregation.Mean` | ass2solution.py:85 | the mean of a constant row is its value |
| `Aggregation.Variance` | ass2solution.py:86 | the population variance is never negative |
| `Aggregation.Std` | ass2solution.py:86 | under a true square root the standard deviation is non-negative, and 0 exactly when the row is constant |
| `Aggregation.Interleave` | ass2solution.py:85-87 | 2R values for R rows, entry 2i the mean and entry 2i+1 the standard deviation of row i |
| `Aggregation.AggregateFeaturePerFile` | ass2solution.py:84-87 | the interleaved mean/std layout; a matrix with rows and no columns gives nan |
| `Aggregation.MeanBounds` | ass2solution.py:85 | the mean of a row lies between any lower and upper bound of its entries |
| `Aggregation.VarianceZeroIff` | ass2solution.py:86 | the population variance is 0 exactly when the row is constant |
| `Aggregation.AggregateSingleColumn` | ass2solution.py:84-87 | a one-column matrix aggregates to its own values as means and to 0 as every deviation |

## Left out

- `hann` and `stft` (ass2solution.py:14-29) are not modelled, except that `hann(0)` raises ZeroDivisionError, which the three spectral extractors return for zero-length blocks. They rest on `np.cos` and on `scipy.signal.stft`, which is not part of this model. The magnitude spectrum of one block is the `spectrum` field of `Numerics`, and stft's per-block time tags are not modelled.
- Features.ExtractSpectralCentroid: states only the `xb[1]` guard, the zero-length failure and the shape. The centroid arithmetic over FFT spectra (line 47) is the `centroid` field of `Numerics`, so its own degenerate case is not modelled: the numpy division by `K - 1 = 0` for blocks of two or three samples, which gives inf/nan.
- Features.ExtractSpectralCrest: states only the `xb[1]` guard, the zero-length failure and the shape. The peak-to-sum ratio (line 62) is the `crest` field of `Numerics`, so its unguarded division by a zero spectrum sum is not modelled.
- Features.ExtractRms: the numeric value of `sqrt` and `log10` is not modelled. Only the clamp and the mean square are exact.
- Features.ExtractSpectralFlux: the Euclidean norm is `sqrt` of an exact sum of squares, with `sqrt` a parameter. Lemmas assume only that it is 0 at 0 and positive on positive reals.
- Floating point is not modelled. Reals are exact, so rounding, `eps` as a float, and the float `np.ceil` of line 33 are taken as exact.
- NaN propagation is not modelled. A result that numpy would fill with inf/nan is the single error `NotFinite`.
- Framing.BlockAudio: requires `hopSize > 0` and `fs != 0`; a negative `fs` is modelled and gives negative time stamps. The failures outside that are not modelled:
  - `hopSize == 0` raises ZeroDivisionError in `x.size / hopSize` (line 33).
  - A negative `hopSize` gives a negative block count, and `np.zeros` (line 34) raises ValueError. Or, when `len(x) < -hopSize`, the count rounds to 0 and there are no blocks.
  - `fs == 0` makes numpy fill the time stamps (line 35) with nan and inf.
- Block matrices are required to be rectangular (`Reals.IsMatrix`), as numpy arrays are.
- `get_feature_data` (ass2solution.py:91-100) is left out. It is directory enumeration and audio decoding (`glob`, `librosa`), which is I/O.
- `normalize_zscore` (ass2solution.py:104-105) is left out. It only calls `scipy.stats.zscore`, which is not part of this model.
- `visualize_features` (ass2solution.py:109-119) is left out. It is path joins and a `print`.
