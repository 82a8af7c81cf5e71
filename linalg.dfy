/** Exact real vectors and matrices: the sample rows, the query rows and the
    triangular bandwidth factor are all of this form. */
module Linalg {

  type Vec = seq<real>
  type Mat = seq<Vec>

  /** Every row of `m` has `cols` entries: the shape numpy calls (|m|, cols). */
  predicate IsMatrix(m: Mat, cols: nat) {
    forall i :: 0 <= i < |m| ==> |m[i]| == cols
  }

  predicate IsSquare(m: Mat, n: nat) {
    |m| == n && IsMatrix(m, n)
  }

  predicate IsUpperTriangular(m: Mat)
    requires IsSquare(m, |m|)
  {
    forall i, j :: 0 <= j < i < |m| ==> m[i][j] == 0.0
  }

  function Sum(s: seq<real>): real
    decreases |s|
  {
    if |s| == 0 then 0.0 else Sum(s[..|s| - 1]) + s[|s| - 1]
  }

  function Dot(a: Vec, b: Vec): real
    requires |a| == |b|
    decreases |a|
  {
    if |a| == 0 then 0.0 else a[0] * b[0] + Dot(a[1..], b[1..])
  }

  function Zeros(n: nat): (z: Vec)
    ensures |z| == n && forall i :: 0 <= i < n ==> z[i] == 0.0
  {
    seq(n, _ => 0.0)
  }

  function Add(a: Vec, b: Vec): (r: Vec)
    requires |a| == |b|
    ensures |r| == |a|
  {
    seq(|a|, i requires 0 <= i < |a| => a[i] + b[i])
  }

  function Sub(a: Vec, b: Vec): (r: Vec)
    requires |a| == |b|
    ensures |r| == |a|
  {
    seq(|a|, i requires 0 <= i < |a| => a[i] - b[i])
  }

  /** The product of matrix `m` with the column vector `v`. */
  function MatVec(m: Mat, v: Vec): (r: Vec)
    requires IsMatrix(m, |v|)
    ensures |r| == |m|
  {
    seq(|m|, i requires 0 <= i < |m| => Dot(m[i], v))
  }

  function Transpose(m: Mat, cols: nat): (t: Mat)
    requires IsMatrix(m, cols)
    ensures |t| == cols && IsMatrix(t, |m|)
    ensures forall i, j :: 0 <= i < |m| && 0 <= j < cols ==> t[j][i] == m[i][j]
  {
    seq(cols, j requires 0 <= j < cols => seq(|m|, i requires 0 <= i < |m| => m[i][j]))
  }

  /** The matrix product a·b, where `b` has `cols` columns. */
  function MatMul(a: Mat, b: Mat, cols: nat): (p: Mat)
    requires IsMatrix(a, |b|) && IsMatrix(b, cols)
    ensures |p| == |a| && IsMatrix(p, cols)
  {
    var bt := Transpose(b, cols);
    seq(|a|, i requires 0 <= i < |a| => seq(cols, j requires 0 <= j < cols => Dot(a[i], bt[j])))
  }

  lemma {:induction false} DotZeros(a: Vec)
    ensures Dot(a, Zeros(|a|)) == 0.0
  {
    if |a| > 0 {
      assert Zeros(|a|)[1..] == Zeros(|a| - 1);
      DotZeros(a[1..]);
    }
  }

  /** Multiplying any matrix by the zero vector gives the zero vector. */
  lemma MatVecZeros(m: Mat, n: nat)
    requires IsMatrix(m, n)
    ensures MatVec(m, Zeros(n)) == Zeros(|m|)
  {
    forall i | 0 <= i < |m| ensures MatVec(m, Zeros(n))[i] == 0.0 {
      DotZeros(m[i]);
    }
  }

  lemma TransposeTwice(m: Mat, cols: nat)
    requires IsMatrix(m, cols)
    ensures Transpose(Transpose(m, cols), |m|) == m
  {
    var tt := Transpose(Transpose(m, cols), |m|);
    assert |tt| == |m|;
    forall i | 0 <= i < |m| ensures tt[i] == m[i] {
      assert |tt[i]| == cols == |m[i]|;
    }
  }
}
