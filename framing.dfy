/** The framer `block_audio`: cuts a signal into `ceil(len/hopSize)` blocks of
    `blockSize` samples, starting every `hopSize` samples, reading zeros past
    the end of the signal, and gives each block the time of its first sample. */
module Framing {
  import opened Reals

  /** `int(np.ceil(len / hopSize))`: the fewest hops that cover the signal. */
  function NumBlocks(len: nat, hopSize: nat): (r: nat)
    requires hopSize > 0
    ensures len <= r * hopSize
    ensures r > 0 ==> (r - 1) * hopSize < len
  {
    var q, m := len / hopSize, len % hopSize;
    assert len == q * hopSize + m && m < hopSize;
    assert (q + 1) * hopSize == q * hopSize + hopSize;
    assert q > 0 ==> (q - 1) * hopSize == q * hopSize - hopSize;
    if m == 0 then q else q + 1
  }

  lemma MulMonotone(a: nat, b: nat, c: nat)
    requires a <= b
    ensures a * c <= b * c
  {
    assert b * c == a * c + (b - a) * c;
  }

  /** Block `n` exists exactly when its first sample `n*hopSize` lies inside
      the signal: NumBlocks is the ceiling of len/hopSize. */
  lemma BlockStartInside(len: nat, hopSize: nat, n: nat)
    requires hopSize > 0
    ensures n < NumBlocks(len, hopSize) <==> n * hopSize < len
  {
    var q, r := len / hopSize, len % hopSize;
    assert len == q * hopSize + r && r < hopSize;
    if n < q {
      MulMonotone(n + 1, q, hopSize);
    } else if n == q {
    } else {
      MulMonotone(q + 1, n, hopSize);
    }
  }

  /** `np.concatenate((x, np.zeros(blockSize)))` */
  function Padded(x: seq<real>, blockSize: nat): (p: seq<real>)
    ensures |p| == |x| + blockSize
    ensures p[..|x|] == x
    ensures forall i :: |x| <= i < |p| ==> p[i] == 0.0
  {
    x + Zeros(blockSize)
  }

  /** The `len` samples of `p` from `start` on. */
  function Window(p: seq<real>, start: nat, len: nat): (w: seq<real>)
    requires start + len <= |p|
    ensures |w| == len
  {
    p[start .. start + len]
  }

  /** The block matrix `xb`: row `n` is the window of the padded signal that
      starts at `n*hopSize` and is `blockSize` long. */
  function Blocks(x: seq<real>, blockSize: nat, hopSize: nat): (xb: seq<seq<real>>)
    requires hopSize > 0
    ensures |xb| == NumBlocks(|x|, hopSize)
    ensures forall n :: 0 <= n < |xb| ==> |xb[n]| == blockSize
  {
    var p := Padded(x, blockSize);
    seq(NumBlocks(|x|, hopSize), n requires 0 <= n < NumBlocks(|x|, hopSize) =>
      BlockStartInside(|x|, hopSize, n);
      Window(p, n * hopSize, blockSize))
  }

  /** `(np.arange(numBlocks) * hopSize) / fs` */
  function TimeStamps(numBlocks: nat, hopSize: nat, fs: real): (t: seq<real>)
    requires fs != 0.0
    ensures |t| == numBlocks
  {
    seq(numBlocks, n => (n * hopSize) as real / fs)
  }

  /** A block's sample is the signal's sample at the same position, or zero
      where that position is past the end of the signal. */
  function SampleAt(x: seq<real>, i: nat): real
  {
    if i < |x| then x[i] else 0.0
  }

  /** The contents of every cell of the block matrix. */
  lemma BlockCell(x: seq<real>, blockSize: nat, hopSize: nat, n: nat, j: nat)
    requires hopSize > 0 && n < NumBlocks(|x|, hopSize) && j < blockSize
    ensures Blocks(x, blockSize, hopSize)[n][j] == SampleAt(x, n * hopSize + j)
  {
    var p := Padded(x, blockSize);
    BlockStartInside(|x|, hopSize, n);
    assert Blocks(x, blockSize, hopSize)[n] == Window(p, n * hopSize, blockSize);
    if n * hopSize + j >= |x| {
      assert p[n * hopSize + j] == Zeros(blockSize)[n * hopSize + j - |x|];
    }
  }

  /** Every block starts inside the signal, so the first sample of every
      block is a sample of the signal, and only a tail can be padding. */
  lemma BlockHeadIsSignal(x: seq<real>, blockSize: nat, hopSize: nat, n: nat)
    requires hopSize > 0 && n < NumBlocks(|x|, hopSize) && blockSize > 0
    ensures n * hopSize < |x|
    ensures Blocks(x, blockSize, hopSize)[n][0] == x[n * hopSize]
  {
    BlockStartInside(|x|, hopSize, n);
    BlockCell(x, blockSize, hopSize, n, 0);
  }

  /** An empty signal gives no blocks; a signal no longer than one hop gives
      exactly one. */
  lemma FewBlocks(x: seq<real>, blockSize: nat, hopSize: nat)
    requires hopSize > 0
    ensures |x| == 0 <==> |Blocks(x, blockSize, hopSize)| == 0
    ensures |x| <= hopSize <==> |Blocks(x, blockSize, hopSize)| < 2
  {
    BlockStartInside(|x|, hopSize, 0);
    BlockStartInside(|x|, hopSize, 1);
  }

  /** The time stamps start at zero and rise by hopSize/fs from block to block. */
  lemma TimeStampsStep(numBlocks: nat, hopSize: nat, fs: real, n: nat)
    requires fs != 0.0 && n + 1 < numBlocks
    ensures TimeStamps(numBlocks, hopSize, fs)[0] == 0.0
    ensures TimeStamps(numBlocks, hopSize, fs)[n + 1] - TimeStamps(numBlocks, hopSize, fs)[n]
            == hopSize as real / fs
  {
    var t := TimeStamps(numBlocks, hopSize, fs);
    assert ((n + 1) * hopSize) as real == (n * hopSize) as real + hopSize as real;
    assert t[n + 1] - t[n] == ((n * hopSize) as real + hopSize as real - (n * hopSize) as real) / fs;
  }

  /** The blocks laid end to end. */
  function Concat(m: seq<seq<real>>): seq<real>
  {
    if m == [] then [] else m[0] + Concat(m[1..])
  }

  /** Sample `r` of block `q` sits at position `q*b + r` of the concatenation. */
  lemma {:induction false} ConcatAt(m: seq<seq<real>>, b: nat, q: nat, r: nat)
    requires forall k :: 0 <= k < |m| ==> |m[k]| == b
    requires q < |m| && r < b
    ensures q * b + r < |Concat(m)| && Concat(m)[q * b + r] == m[q][r]
  {
    ConcatLength(m[1..], b);
    if q > 0 {
      ConcatAt(m[1..], b, q - 1, r);
      assert (q - 1) * b + r == q * b + r - b;
    }
  }

  lemma {:induction false} ConcatLength(m: seq<seq<real>>, b: nat)
    requires forall k :: 0 <= k < |m| ==> |m[k]| == b
    ensures |Concat(m)| == |m| * b
  {
    if m != [] {
      ConcatLength(m[1..], b);
      assert (|m| - 1) * b == |m| * b - b;
    }
  }

  /** Position `i` of the concatenated non-overlapping blocks holds sample
      `i` of the padded signal. */
  lemma NoOverlapAt(x: seq<real>, blockSize: nat, i: nat)
    requires blockSize > 0
    requires i < |Blocks(x, blockSize, blockSize)| * blockSize
    ensures i < |Concat(Blocks(x, blockSize, blockSize))|
    ensures Concat(Blocks(x, blockSize, blockSize))[i] == SampleAt(x, i)
  {
    var xb := Blocks(x, blockSize, blockSize);
    var q, r := i / blockSize, i % blockSize;
    assert i == q * blockSize + r;
    assert q < |xb| by {
      if q >= |xb| {
        MulMonotone(|xb|, q, blockSize);
      }
    }
    ConcatAt(xb, blockSize, q, r);
    BlockCell(x, blockSize, blockSize, q, r);
  }

  /** Round trip: without overlap (hopSize == blockSize) the blocks laid end
      to end give back the signal, followed by zeros up to a whole number of
      blocks (fewer than one block of them). */
  lemma NoOverlapRoundTrip(x: seq<real>, blockSize: nat)
    requires blockSize > 0
    ensures var c := Concat(Blocks(x, blockSize, blockSize));
      |x| <= |c| < |x| + blockSize &&
      c[..|x|] == x &&
      forall i :: |x| <= i < |c| ==> c[i] == 0.0
  {
    var xb := Blocks(x, blockSize, blockSize);
    var nb := |xb|;
    ConcatLength(xb, blockSize);
    var c := Concat(xb);
    if nb > 0 {
      BlockStartInside(|x|, blockSize, nb - 1);
      assert (nb - 1) * blockSize == nb * blockSize - blockSize;
    }
    BlockStartInside(|x|, blockSize, nb);
    assert |x| <= |c| < |x| + blockSize;
    forall i | 0 <= i < |c|
      ensures c[i] == SampleAt(x, i)
    {
      NoOverlapAt(x, blockSize, i);
    }
    assert c[..|x|] == x;
  }

  /** The value of a numpy 2-D array as a sequence of rows. */
  function Rows(a: array2<real>): (m: seq<seq<real>>)
    reads a
    ensures |m| == a.Length0
    ensures forall n :: 0 <= n < |m| ==> |m[n]| == a.Length1
  {
    seq(a.Length0, n requires 0 <= n < a.Length0 reads a =>
      seq(a.Length1, j requires 0 <= j < a.Length1 reads a => a[n, j]))
  }

  /** `block_audio(x, blockSize, hopSize, fs)`: preallocates the block
      matrix, pads the signal with `blockSize` zeros and copies each window
      row by row. The window's last index `i_stop` is the smaller of the
      padded length minus one and `i_start + blockSize - 1`; the loop proves
      the second is always the smaller, so no window is ever cut short and
      no read leaves the padded signal. */
  method BlockAudio(x: seq<real>, blockSize: nat, hopSize: nat, fs: real)
    returns (xb: array2<real>, t: seq<real>)
    requires hopSize > 0 && fs != 0.0
    ensures fresh(xb)
    ensures xb.Length0 == NumBlocks(|x|, hopSize) && xb.Length1 == blockSize
    ensures Rows(xb) == Blocks(x, blockSize, hopSize)
    ensures t == TimeStamps(NumBlocks(|x|, hopSize), hopSize, fs)
  {
    var numBlocks := NumBlocks(|x|, hopSize);
    xb := new real[numBlocks, blockSize]((_, _) => 0.0);
    t := seq(numBlocks, n => (n * hopSize) as real / fs);
    var padded := x + Zeros(blockSize);
    ghost var spec := Blocks(x, blockSize, hopSize);
    for n := 0 to numBlocks
      invariant forall m, j :: 0 <= m < n && 0 <= j < blockSize ==> xb[m, j] == spec[m][j]
    {
      var iStart := n * hopSize;
      var iStop := if |padded| - 1 <= iStart + blockSize - 1 then |padded| - 1 else iStart + blockSize - 1;
      BlockStartInside(|x|, hopSize, n);
      assert iStop == iStart + blockSize - 1;
      for j := 0 to iStop + 1 - iStart
        invariant forall m, k :: 0 <= m < n && 0 <= k < blockSize ==> xb[m, k] == spec[m][k]
        invariant forall k :: 0 <= k < j ==> xb[n, k] == spec[n][k]
      {
        xb[n, j] := padded[iStart + j];
      }
    }
    assert forall n :: 0 <= n < numBlocks ==> Rows(xb)[n] == spec[n];
  }
}
