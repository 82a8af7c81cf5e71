/** The per-dimension standardisation of `ClusteredKDE`: `_whiten` subtracts the
    sample mean and divides by the standard deviation, `_color` undoes it. */
module Whitening {
  import opened Linalg

  /** The values of dimension d across the sample. */
  function Column(sample: Mat, d: nat): (col: seq<real>)
    requires forall i :: 0 <= i < |sample| ==> d < |sample[i]|
    ensures |col| == |sample|
  {
    seq(|sample|, i requires 0 <= i < |sample| => sample[i][d])
  }

  /** `np.mean(data, axis=0)`. */
  function Mean(sample: Mat, dim: nat): (mean: Vec)
    requires |sample| > 0 && IsMatrix(sample, dim)
    ensures |mean| == dim
  {
    seq(dim, d requires 0 <= d < dim => Sum(Column(sample, d)) / |sample| as real)
  }

  /** `np.std(data, axis=0)`: the square root of the mean squared deviation, the
      root being the collaborator `sqrt`. */
  function Std(sample: Mat, dim: nat, mean: Vec, sqrt: real -> real): (std: Vec)
    requires |sample| > 0 && IsMatrix(sample, dim) && |mean| == dim
    ensures |std| == dim
  {
    seq(dim, d requires 0 <= d < dim =>
      sqrt(Sum(seq(|sample|, i requires 0 <= i < |sample| =>
        (sample[i][d] - mean[d]) * (sample[i][d] - mean[d]))) / |sample| as real))
  }

  predicate NonZero(std: Vec) {
    forall d :: 0 <= d < |std| ==> std[d] != 0.0
  }

  /** `_whiten` on one row. */
  function Whiten(x: Vec, mean: Vec, std: Vec): (y: Vec)
    requires |x| == |mean| == |std| && NonZero(std)
    ensures |y| == |x|
  {
    seq(|x|, d requires 0 <= d < |x| => (x[d] - mean[d]) / std[d])
  }

  /** `_color` on one row. */
  function Color(y: Vec, mean: Vec, std: Vec): (x: Vec)
    requires |y| == |mean| == |std|
    ensures |x| == |y|
  {
    seq(|y|, d requires 0 <= d < |y| => y[d] * std[d] + mean[d])
  }

  /** `_whiten` on every row. */
  function WhitenAll(sample: Mat, mean: Vec, std: Vec): (w: Mat)
    requires IsMatrix(sample, |mean|) && |std| == |mean| && NonZero(std)
    ensures |w| == |sample| && IsMatrix(w, |mean|)
  {
    seq(|sample|, i requires 0 <= i < |sample| => Whiten(sample[i], mean, std))
  }

  /** Colouring undoes whitening. */
  lemma ColorUndoesWhiten(x: Vec, mean: Vec, std: Vec)
    requires |x| == |mean| == |std| && NonZero(std)
    ensures Color(Whiten(x, mean, std), mean, std) == x
  {
    var y := Whiten(x, mean, std);
    forall d | 0 <= d < |x| ensures Color(y, mean, std)[d] == x[d] {
      assert y[d] * std[d] == x[d] - mean[d];
    }
  }

  /** Whitening undoes colouring. */
  lemma WhitenUndoesColor(y: Vec, mean: Vec, std: Vec)
    requires |y| == |mean| == |std| && NonZero(std)
    ensures Whiten(Color(y, mean, std), mean, std) == y
  {
    var x := Color(y, mean, std);
    forall d | 0 <= d < |y| ensures Whiten(x, mean, std)[d] == y[d] {
      assert x[d] - mean[d] == y[d] * std[d];
    }
  }

  lemma {:induction false} SumShiftScale(a: seq<real>, m: real, s: real)
    requires s != 0.0
    ensures Sum(seq(|a|, i requires 0 <= i < |a| => (a[i] - m) / s)) == (Sum(a) - |a| as real * m) / s
  {
    var b := seq(|a|, i requires 0 <= i < |a| => (a[i] - m) / s);
    if |a| > 0 {
      var n := |a| - 1;
      var a' := a[..n];
      SumShiftScale(a', m, s);
      assert b[..n] == seq(|a'|, i requires 0 <= i < |a'| => (a'[i] - m) / s);
      assert Sum(b) == (Sum(a') - n as real * m) / s + (a[n] - m) / s;
      assert Sum(a) == Sum(a') + a[n];
    }
  }

  /** The whitened sample has mean zero in every dimension. */
  lemma WhitenedSampleCentred(sample: Mat, dim: nat, std: Vec, d: nat)
    requires |sample| > 0 && IsMatrix(sample, dim) && |std| == dim && NonZero(std) && d < dim
    ensures Sum(Column(WhitenAll(sample, Mean(sample, dim), std), d)) == 0.0
  {
    var mean := Mean(sample, dim);
    var col := Column(sample, d);
    var n := |sample| as real;
    assert Column(WhitenAll(sample, mean, std), d)
        == seq(|col|, i requires 0 <= i < |col| => (col[i] - mean[d]) / std[d]);
    SumShiftScale(col, mean[d], std[d]);
    assert n * (Sum(col) / n) == Sum(col);
  }
}
