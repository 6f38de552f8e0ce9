/** Outcomes of the feature extractors: a value, or the failure that the
    Python/numpy code would produce instead of one. */
module Outcomes {

  /** How a computation of the reference fails.
      - IndexError: `xb[1]` read on a block matrix with fewer than two rows.
      - ZeroDivisionError: the Python integer expression `1 / 0`.
      - NotFinite: a numpy float division by zero, which yields inf/nan
        values instead of raising. */
  datatype Error = IndexError | ZeroDivisionError | NotFinite

  datatype Result<T> = Ok(value: T) | Err(error: Error)
}

/** Exact-real stand-ins for the numpy reductions used by the features. */
module Reals {

  function Sum(s: seq<real>): real
  {
    if s == [] then 0.0 else s[0] + Sum(s[1..])
  }

  function Square(v: real): (r: real)
    ensures r >= 0.0
  {
    v * v
  }

  /** `np.sum(np.square(s))` */
  function SumOfSquares(s: seq<real>): (r: real)
    ensures r >= 0.0
  {
    if s == [] then 0.0 else Square(s[0]) + SumOfSquares(s[1..])
  }

  function Max(a: real, b: real): real
  {
    if a >= b then a else b
  }

  /** `np.zeros(n)` */
  function Zeros(n: nat): (z: seq<real>)
    ensures |z| == n && forall i :: 0 <= i < n ==> z[i] == 0.0
  {
    seq(n, _ => 0.0)
  }

  /** A matrix in the numpy sense: every row has the same length. */
  predicate IsMatrix(m: seq<seq<real>>)
  {
    forall i, j :: 0 <= i < |m| && 0 <= j < |m| ==> |m[i]| == |m[j]|
  }

  /** What the model assumes of the square root it is given: it is zero at
      zero and positive on the positive reals. */
  ghost predicate IsSqrt(sqrt: real -> real)
  {
    sqrt(0.0) == 0.0 && forall v :: v > 0.0 ==> sqrt(v) > 0.0
  }

  /** Every element of `s` lies in [lo, hi], so the sum lies in [lo*|s|, hi*|s|]. */
  lemma {:induction false} SumBounds(s: seq<real>, lo: real, hi: real)
    requires forall i :: 0 <= i < |s| ==> lo <= s[i] <= hi
    ensures lo * |s| as real <= Sum(s) <= hi * |s| as real
  {
    if s != [] {
      SumBounds(s[1..], lo, hi);
      assert |s[1..]| as real == |s| as real - 1.0;
    }
  }

  lemma ProductSign(c: real, v: real)
    ensures c > 0.0 && v > 0.0 ==> c * v > 0.0
    ensures c > 0.0 && v < 0.0 ==> c * v < 0.0
    ensures c < 0.0 && v > 0.0 ==> c * v < 0.0
    ensures c < 0.0 && v < 0.0 ==> c * v > 0.0
    ensures v == 0.0 ==> c * v == 0.0
  {
  }

  lemma DivMonotone(a: real, b: real, d: real)
    requires d > 0.0 && a <= b
    ensures a / d <= b / d
  {
  }

  lemma DivNonNegative(a: real, d: real)
    requires d > 0.0 && a >= 0.0
    ensures a / d >= 0.0
  {
  }

  lemma DivInjective(a: real, b: real, d: real)
    requires d > 0.0
    ensures a / d == b / d <==> a == b
  {
  }

  lemma MulDivCancel(a: real, d: real)
    requires d > 0.0
    ensures a * d / d == a
  {
  }

  lemma DivBetween(lo: real, x: real, hi: real, d: real)
    requires d > 0.0 && lo * d <= x <= hi * d
    ensures lo <= x / d <= hi
  {
    DivMonotone(lo * d, x, d);
    DivMonotone(x, hi * d, d);
    MulDivCancel(lo, d);
    MulDivCancel(hi, d);
  }

  lemma ProductOfSelfPositive(v: real)
    requires v != 0.0
    ensures v * v > 0.0
  {
    if v > 0.0 {
      assert v * v > 0.0;
    } else {
      assert (-v) * (-v) > 0.0;
    }
  }

  lemma SquarePositive(v: real)
    requires v != 0.0
    ensures Square(v) > 0.0
  {
    ProductOfSelfPositive(v);
    calc {
      Square(v);
      v * v;
    >
      0.0;
    }
  }
}
