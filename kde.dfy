/** The single-cluster Gaussian kernel density estimator (class `KDE`).
    Its fields are set once by the constructor and never change, so it is a value. */
module GaussianKde {
  import opened Linalg
  import opened Outcomes
  import opened Numerics
  import opened Executor

  /** `data` are the kernel centres (the cluster's whitened points), `dim` their
      dimension, `pooled` whether a worker pool was supplied, `bw` the bandwidth
      factorisation and `kernelLogSum` the per-point kernel sum. */
  datatype Kde = Kde(data: Mat, dim: nat, pooled: bool, bw: Bandwidth,
                     kernelLogSum: (Vec, Mat, Bandwidth) -> real)
  {
    ghost predicate Valid() {
      |data| > 0 && IsMatrix(data, dim) && IsSquare(bw.upper, dim)
    }

    /** The log-density at one point: the kernel sum less the normalisation. */
    function PointLogpdf(x: Vec): real {
      kernelLogSum(x, data, bw) - bw.lognorm
    }

    /** `KDE.logpdf`: a query of the wrong dimension is refused; otherwise one value
        per query row, in the rows' order, whether the per-point work goes through
        the pool (finishing in the order `completion`) or through plain `map`. */
    method Logpdf(xs: Mat, xdim: nat, completion: seq<nat>) returns (r: Result<seq<real>>)
      requires IsMatrix(xs, xdim)
      requires pooled ==> forall j :: 0 <= j < |completion| ==> completion[j] < |xs|
      requires pooled ==> forall i :: 0 <= i < |xs| ==> i in completion
      ensures r.Ok? <==> xdim == dim
      ensures r.Err? ==> r.error == DimensionMismatch(dim, xdim)
      ensures r.Ok? ==> |r.value| == |xs| && forall i :: 0 <= i < |xs| ==> r.value[i] == PointLogpdf(xs[i])
    {
      if xdim != dim {
        return Err(DimensionMismatch(dim, xdim));
      }
      var evaluate := x => kernelLogSum(x, data, bw);
      var results;
      if pooled {
        results := PoolMap(evaluate, xs, completion);
      } else {
        results := SequentialMap(evaluate, xs);
      }
      r := Ok(seq(|results|, i requires 0 <= i < |results| => results[i] - bw.lognorm));
    }

    /** The factor the noise is multiplied by: the lower triangle upperᵀ. */
    function Lower(): (l: Mat)
      requires Valid()
      ensures IsSquare(l, dim)
    {
      Transpose(bw.upper, dim)
    }

    /** `KDE.draw` with its random inputs given: `normals` are the unit Gaussian
        rows and `picks` the kernel indices drawn from [0, N). Row i is the picked
        stored sample plus the recoloured noise. */
    function Draw(normals: Mat, picks: seq<nat>): (r: Mat)
      requires Valid() && IsMatrix(normals, dim) && |picks| == |normals|
      requires forall i :: 0 <= i < |picks| ==> picks[i] < |data|
      ensures |r| == |normals| && IsMatrix(r, dim)
      ensures forall i :: 0 <= i < |r| ==> Sub(r[i], data[picks[i]]) == MatVec(Lower(), normals[i])
    {
      seq(|normals|, i requires 0 <= i < |normals| => Add(MatVec(Lower(), normals[i]), data[picks[i]]))
    }

    /** `KDE.draw` as written: the noise is multiplied by scipy's upper factor itself. */
    function DrawAsWritten(normals: Mat, picks: seq<nat>): (r: Mat)
      requires Valid() && IsMatrix(normals, dim) && |picks| == |normals|
      requires forall i :: 0 <= i < |picks| ==> picks[i] < |data|
      ensures |r| == |normals| && IsMatrix(r, dim)
      ensures forall i :: 0 <= i < |r| ==> Sub(r[i], data[picks[i]]) == MatVec(bw.upper, normals[i])
    {
      seq(|normals|, i requires 0 <= i < |normals| => Add(MatVec(bw.upper, normals[i]), data[picks[i]]))
    }
  }

  /** `KDE.__init__`: fails when the points give no finite, positive-definite
      bandwidth (in particular when there are none). */
  function Build(data: Mat, dim: nat, pooled: bool, num: Numerics): (r: Result<Kde>)
    requires IsMatrix(data, dim)
    ensures r.Ok? <==> |data| > 0 && num.bandwidth(data).Some? && IsSquare(num.bandwidth(data).value.upper, dim)
    ensures r.Ok? ==> r.value.Valid() && r.value.data == data && r.value.dim == dim
    ensures r.Ok? ==> r.value.bw == num.bandwidth(data).value
    ensures r.Ok? ==> r.value.pooled == pooled && r.value.kernelLogSum == num.kernelLogSum
    ensures r.Err? ==> r.error == (if |data| == 0 then EmptyCluster else NotPositiveDefinite)
  {
    if |data| == 0 then Err(EmptyCluster)
    else match num.bandwidth(data)
      case None => Err(NotPositiveDefinite)
      case Some(bw) =>
        if IsSquare(bw.upper, dim) then Ok(Kde(data, dim, pooled, bw, num.kernelLogSum))
        else Err(NotPositiveDefinite)
  }

  /** A draw whose unit Gaussian row is zero is exactly the picked stored sample. */
  lemma DrawZeroNoise(kde: Kde, normals: Mat, picks: seq<nat>, i: nat)
    requires kde.Valid() && IsMatrix(normals, kde.dim) && |picks| == |normals|
    requires forall j :: 0 <= j < |picks| ==> picks[j] < |kde.data|
    requires i < |normals| && normals[i] == Zeros(kde.dim)
    ensures kde.Draw(normals, picks)[i] == kde.data[picks[i]]
  {
    MatVecZeros(kde.Lower(), kde.dim);
  }

  /** The covariance F·Fᵀ of the noise F·z when z is a unit Gaussian row. */
  function NoiseCovariance(f: Mat, dim: nat): (c: Mat)
    requires IsSquare(f, dim)
    ensures IsSquare(c, dim)
  {
    MatMul(f, Transpose(f, dim), dim)
  }

  /** The kernel covariance reproduced by scipy's upper factor: upperᵀ·upper. */
  function Factored(upper: Mat, dim: nat): (h: Mat)
    requires IsSquare(upper, dim)
    ensures IsSquare(h, dim)
  {
    MatMul(Transpose(upper, dim), upper, dim)
  }

  /** Recolouring by the lower factor upperᵀ gives noise whose covariance is the
      kernel covariance. */
  lemma LowerFactorNoiseMatches(upper: Mat, dim: nat)
    requires IsSquare(upper, dim)
    ensures NoiseCovariance(Transpose(upper, dim), dim) == Factored(upper, dim)
  {
    TransposeTwice(upper, dim);
  }

  /** Recolouring by the upper factor itself does not: for the kernel covariance
      [[1, 1], [1, 2]], whose Cholesky factor is [[1, 1], [0, 1]], the noise
      covariance has 2 where the kernel covariance has 1. */
  lemma UpperFactorNoiseMismatch()
    ensures var u := [[1.0, 1.0], [0.0, 1.0]];
      IsSquare(u, 2) && IsUpperTriangular(u) &&
      Factored(u, 2) == [[1.0, 1.0], [1.0, 2.0]] &&
      NoiseCovariance(u, 2) != Factored(u, 2)
  {
    var u := [[1.0, 1.0], [0.0, 1.0]];
    var t := Transpose(u, 2);
    assert t[0][0] == 1.0 && t[0][1] == 0.0 && t[1][0] == 1.0 && t[1][1] == 1.0;
    assert t[0] == [1.0, 0.0] && t[1] == [1.0, 1.0];
    assert Transpose(t, 2) == u by { TransposeTwice(u, 2); }
    assert Dot([1.0, 0.0], [1.0, 0.0]) == 1.0;
    assert Dot([1.0, 0.0], [1.0, 1.0]) == 1.0;
    assert Dot([1.0, 1.0], [1.0, 0.0]) == 1.0;
    assert Dot([1.0, 1.0], [1.0, 1.0]) == 2.0;
    var h := Factored(u, 2);
    assert h[0] == [1.0, 1.0] && h[1] == [1.0, 2.0];
    assert NoiseCovariance(u, 2)[0][0] == 2.0;
  }
}
