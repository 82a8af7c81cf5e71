/** The clustered mixture density (class `ClusteredKDE`): the sample is whitened,
    split by a cluster labelling, one Gaussian KDE is fitted per cluster and the
    estimators are combined with weights `count_c / N`. Its fields are set once by
    the constructor, so it is a value. */
module Mixture {
  import opened Linalg
  import opened Outcomes
  import opened Numerics
  import opened GaussianKde
  import opened Partition
  import opened Sampling
  import opened Whitening

  /** The number of free parameters the BIC charges for: k·dim centroid coordinates,
      k-1 weights (they sum to one) and k symmetric dim×dim kernel covariances. */
  function NParams(k: nat, dim: nat): real {
    (k * dim) as real + (k - 1) as real + (k * (dim + 1) * dim) as real / 2.0
  }

  lemma {:induction false} TriangleEven(dim: nat)
    ensures (dim * (dim + 1)) % 2 == 0
  {
    if dim > 0 {
      TriangleEven(dim - 1);
      assert dim * (dim + 1) == (dim - 1) * dim + 2 * dim;
    }
  }

  /** The parameter count is a whole number: dim·(dim+1)/2 has no fractional part. */
  lemma NParamsWhole(k: nat, dim: nat)
    ensures NParams(k, dim) == (k * dim + (k - 1) + k * (dim * (dim + 1) / 2)) as real
    ensures NParams(k, dim) == (k * (dim + 1 + dim * (dim + 1) / 2) - 1) as real
  {
    TriangleEven(dim);
    var t := dim * (dim + 1) / 2;
    assert dim * (dim + 1) == 2 * t;
    assert k * (dim + 1) * dim == 2 * (k * t);
    assert (2 * (k * t)) as real / 2.0 == (k * t) as real;
    assert k * (dim + 1 + t) == k * dim + k + k * t;
  }

  /** More clusters always cost more parameters. */
  lemma NParamsIncreasing(k1: nat, k2: nat, dim: nat)
    requires k1 < k2
    ensures NParams(k1, dim) < NParams(k2, dim)
  {
    NParamsWhole(k1, dim);
    NParamsWhole(k2, dim);
    var per := dim + 1 + dim * (dim + 1) / 2;
    assert per >= 1;
    assert k1 * per < k2 * per by {
      assert (k2 - k1) * per >= 1;
    }
  }

  /** `n` training points of dimension `dim`, whitened with `mean` and `std` into
      `data`; `labels` is the k-means labelling, `kdes` the per-cluster estimators
      and `weights` the exact mixture weights (the source keeps their logarithms). */
  datatype Clustered = Clustered(n: nat, dim: nat, k: nat, mean: Vec, std: Vec, data: Mat,
                                 labels: seq<nat>, kdes: seq<Kde>, weights: seq<real>, num: Numerics)
  {
    ghost predicate Valid() {
      && n == |data| && n > 0 && IsMatrix(data, dim)
      && |mean| == dim && |std| == dim && NonZero(std)
      && k >= 1 && IsLabelling(labels, n, k)
      && |kdes| == k
      && (forall c :: 0 <= c < k ==>
            kdes[c].Valid() && kdes[c].dim == dim && kdes[c].data == Members(data, labels, c))
      && weights == Weights(labels, k, n)
    }

    /** `size`: the number of training points. */
    function Size(): (s: nat)
      requires Valid()
      ensures s == |data| == |labels| && s > 0
    {
      n
    }

    /** `_whitened_logpdf` at one whitened point: log Σ_c weight_c · kde_c(w). */
    function MixtureAt(w: Vec): real
      requires Valid()
    {
      num.logSumExp(seq(k, c requires 0 <= c < k => num.log(weights[c]) + kdes[c].PointLogpdf(w)))
    }

    /** `logpdf` with the query's shape checked: a query of another dimension is
        refused; otherwise one log-density per query row, in order, evaluated at the
        whitened row (no Jacobian term for the whitening). */
    function Logpdf(xs: Mat, xdim: nat): (r: Result<seq<real>>)
      requires Valid() && IsMatrix(xs, xdim)
      ensures r.Ok? <==> xdim == dim
      ensures r.Err? ==> r.error == DimensionMismatch(dim, xdim)
      ensures r.Ok? ==> |r.value| == |xs|
      ensures r.Ok? ==> forall i :: 0 <= i < |xs| ==> r.value[i] == MixtureAt(Whiten(xs[i], mean, std))
    {
      if xdim != dim then Err(DimensionMismatch(dim, xdim))
      else Ok(seq(|xs|, i requires 0 <= i < |xs| => MixtureAt(Whiten(xs[i], mean, std))))
    }

    /** `logpdf` as written: numpy broadcasting in `(X - mean)/std` stretches a
        one-column query across all `dim` columns before the estimators' dimension
        check sees it, so such a query is evaluated instead of refused. */
    function LogpdfAsWritten(xs: Mat, xdim: nat): (r: Result<seq<real>>)
      requires Valid() && IsMatrix(xs, xdim)
      ensures r.Ok? <==> xdim == dim || xdim == 1
      ensures r.Ok? ==> |r.value| == |xs|
    {
      if xdim == dim then Logpdf(xs, xdim)
      else if xdim == 1 then
        Ok(seq(|xs|, i requires 0 <= i < |xs| => MixtureAt(Whiten(seq(dim, _ => xs[i][0]), mean, std))))
      else Err(DimensionMismatch(dim, xdim))
    }

    /** The in-sample log-likelihood: the sum of the log-density over the model's
        own whitened training points. */
    function LogLikelihood(): real
      requires Valid()
    {
      Sum(seq(n, i requires 0 <= i < n => MixtureAt(data[i])))
    }

    /** `bic`: the log-likelihood less nparams/2 · log N; whenever there is a
        parameter to pay for and log N is positive, the score is below the
        log-likelihood. */
    function Bic(): (b: real)
      requires Valid()
      ensures num.log(n as real) > 0.0 && (dim > 0 || k > 1) ==> b < LogLikelihood()
    {
      Penalised(LogLikelihood(), k, dim, num.log(n as real))
    }

    /** The random inputs of `draw`: the uniforms u in [0, 1) and, for each cluster,
        exactly as many unit Gaussian rows and kernel indices as rows it is chosen for. */
    ghost predicate DrawInputs(u: seq<real>, normals: seq<Mat>, picks: seq<seq<nat>>)
      requires Valid()
    {
      && (forall i :: 0 <= i < |u| ==> 0.0 <= u[i] < 1.0)
      && |normals| == k && |picks| == k
      && forall c :: 0 <= c < k ==>
           && |normals[c]| == Count(Labels(weights, u), c)
           && |picks[c]| == |normals[c]|
           && IsMatrix(normals[c], dim)
           && forall j :: 0 <= j < |picks[c]| ==> picks[c][j] < |kdes[c].data|
    }

    /** Row i of a draw before colouring: its cluster c is the first whose cumulative
        weight reaches u[i], and the row is the next unused one of c's batch. */
    ghost function DrawnRow(u: seq<real>, normals: seq<Mat>, picks: seq<seq<nat>>, i: nat): (row: Vec)
      requires Valid() && DrawInputs(u, normals, picks) && i < |u|
      ensures |row| == dim
    {
      var labels := Labels(weights, u);
      WeightsSumToOne(this.labels, k, n);
      LabelsInRange(weights, u);
      var c := labels[i];
      kdes[c].Draw(normals[c], picks[c])[Rank(labels, i)]
    }

    /** `draw`: fill a fresh buffer cluster by cluster, each cluster's batch going to
        the rows chosen for it in row order, then colour every row. */
    method Draw(u: seq<real>, normals: seq<Mat>, picks: seq<seq<nat>>) returns (rows: Mat)
      requires Valid() && DrawInputs(u, normals, picks)
      ensures |rows| == |u| && IsMatrix(rows, dim)
      ensures forall i :: 0 <= i < |u| ==> rows[i] == Color(DrawnRow(u, normals, picks, i), mean, std)
    {
      var labels := Labels(weights, u);
      WeightsSumToOne(this.labels, k, n);
      LabelsInRange(weights, u);
      var draws := new Vec[|u|](_ => []);  // np.empty: a row not yet written holds []
      for c := 0 to k
        invariant forall i :: 0 <= i < |u| ==>
          draws[i] == if labels[i] < c then DrawnRow(u, normals, picks, i) else []
      {
        var batch := kdes[c].Draw(normals[c], picks[c]);
        FillSelected(draws, labels, c, batch);
      }
      var filled := draws[..];
      rows := seq(|u|, i requires 0 <= i < |u| => Color(filled[i], mean, std));
    }
  }

  /** `draws[labels == c] = batch`: the j-th row labelled c receives batch[j];
      every other row keeps its content. */
  method FillSelected(draws: array<Vec>, labels: seq<nat>, c: nat, batch: Mat)
    requires draws.Length == |labels| && |batch| == Count(labels, c)
    modifies draws
    ensures forall i :: 0 <= i < |labels| ==>
      draws[i] == if labels[i] == c then batch[Rank(labels, i)] else old(draws[i])
  {
    var j := 0;
    for i := 0 to |labels|
      invariant j == Count(labels[..i], c)
      invariant forall i' :: 0 <= i' < |labels| ==>
        draws[i'] == if labels[i'] == c && i' < i then batch[Rank(labels, i')] else old(draws[i'])
    {
      if labels[i] == c {
        assert j == Rank(labels, i);
        draws[i] := batch[j];
        j := j + 1;
      }
      assert labels[..i + 1] == labels[..i] + [labels[i]];
      CountConcat(labels[..i], [labels[i]], c);
    }
  }

  /** Every list in `parts` is a matrix of dimension `dim`. */
  predicate AllShaped(parts: seq<Mat>, dim: nat) {
    forall c :: 0 <= c < |parts| ==> IsMatrix(parts[c], dim)
  }

  /** The whitened sample split by the labelling: each cluster's points have the
      sample's dimension. */
  lemma PartsShaped(w: Mat, labels: seq<nat>, k: nat, dim: nat)
    requires IsMatrix(w, dim) && |labels| == |w|
    ensures AllShaped(Parts(w, labels, k), dim)
  {
    forall c | 0 <= c < k ensures IsMatrix(Parts(w, labels, k)[c], dim) {
      MembersShape(w, labels, c, dim);
    }
  }

  /** The estimator of every cluster of the whitened sample `w` can be built. */
  ghost predicate EveryClusterBuilds(w: Mat, labels: seq<nat>, k: nat, dim: nat, num: Numerics, pooled: bool)
    requires IsMatrix(w, dim) && |labels| == |w|
  {
    PartsShaped(w, labels, k, dim);
    forall c :: 0 <= c < k ==> GaussianKde.Build(Parts(w, labels, k)[c], dim, pooled, num).Ok?
  }

  /** Cluster c is the first from c0 on whose estimator cannot be built, failing with `e`. */
  ghost predicate FirstFailure(parts: seq<Mat>, dim: nat, c0: nat, c: nat, num: Numerics, pooled: bool, e: Error)
    requires AllShaped(parts, dim)
  {
    && c0 <= c < |parts|
    && GaussianKde.Build(parts[c], dim, pooled, num) == Err(e)
    && forall c' :: c0 <= c' < c ==> GaussianKde.Build(parts[c'], dim, pooled, num).Ok?
  }

  /** A failure first met after a cluster that built is also the first failure
      counted from that cluster. */
  lemma FirstFailureExtends(parts: seq<Mat>, dim: nat, c0: nat, c1: nat, num: Numerics, pooled: bool, e: Error)
    requires AllShaped(parts, dim) && c0 < |parts| && c1 == c0 + 1
    requires GaussianKde.Build(parts[c0], dim, pooled, num).Ok?
    requires exists c :: FirstFailure(parts, dim, c1, c, num, pooled, e)
    ensures exists c :: FirstFailure(parts, dim, c0, c, num, pooled, e)
  {
    var c :| FirstFailure(parts, dim, c1, c, num, pooled, e);
    assert FirstFailure(parts, dim, c0, c, num, pooled, e);
  }

  /** `[KDE(data[labels == c]) for c in range(c0, k)]`: the estimators in cluster
      order, or the failure of the first cluster whose estimator cannot be built. */
  function BuildKdes(parts: seq<Mat>, dim: nat, c0: nat, num: Numerics, pooled: bool): (r: Result<seq<Kde>>)
    requires AllShaped(parts, dim) && c0 <= |parts|
    decreases |parts| - c0
    ensures r.Ok? <==> forall c :: c0 <= c < |parts| ==> GaussianKde.Build(parts[c], dim, pooled, num).Ok?
    ensures r.Ok? ==> |r.value| == |parts| - c0
    ensures r.Ok? ==> forall j :: 0 <= j < |parts| - c0 ==> r.value[j] == GaussianKde.Build(parts[c0 + j], dim, pooled, num).value
    ensures r.Err? ==> exists c :: FirstFailure(parts, dim, c0, c, num, pooled, r.error)
  {
    if c0 == |parts| then Ok([])
    else match GaussianKde.Build(parts[c0], dim, pooled, num)
      case Err(e) =>
        assert FirstFailure(parts, dim, c0, c0, num, pooled, e);
        Err(e)
      case Ok(kde) =>
        match BuildKdes(parts, dim, c0 + 1, num, pooled)
        case Err(e) =>
          FirstFailureExtends(parts, dim, c0, c0 + 1, num, pooled, e);
          Err(e)
        case Ok(rest) =>
          var kdes := [kde] + rest;
          assert kdes[0] == kde && kdes[1..] == rest;
          Ok(kdes)
  }

  /** `ClusteredKDE.__init__` with the k-means labelling of the whitened sample given. */
  function Build(sample: Mat, dim: nat, k: nat, labels: seq<nat>, num: Numerics, pooled: bool): (r: Result<Clustered>)
    requires IsMatrix(sample, dim) && k >= 1 && IsLabelling(labels, |sample|, k)
    ensures |sample| == 0 ==> r == Err(EmptySample)
    ensures |sample| > 0 && !NonZero(Std(sample, dim, Mean(sample, dim), num.sqrt)) ==> r == Err(ZeroVariance)
    ensures r.Ok? <==> (|sample| > 0 && NonZero(Std(sample, dim, Mean(sample, dim), num.sqrt)) &&
      EveryClusterBuilds(WhitenAll(sample, Mean(sample, dim), Std(sample, dim, Mean(sample, dim), num.sqrt)), labels, k, dim, num, pooled))
    ensures r.Ok? ==> r.value.Valid() && r.value.k == k && r.value.dim == dim && r.value.n == |sample|
    ensures r.Ok? ==> r.value.labels == labels && r.value.num == num
    ensures r.Ok? ==> r.value.mean == Mean(sample, dim) && r.value.std == Std(sample, dim, r.value.mean, num.sqrt)
    ensures r.Ok? ==> r.value.data == WhitenAll(sample, r.value.mean, r.value.std)
    ensures r.Ok? ==> forall c :: 0 <= c < k ==>
      GaussianKde.Build(Members(r.value.data, labels, c), dim, pooled, num) == Ok(r.value.kdes[c])
  {
    if |sample| == 0 then Err(EmptySample)
    else
      var mean := Mean(sample, dim);
      var std := Std(sample, dim, mean, num.sqrt);
      if !NonZero(std) then Err(ZeroVariance)
      else
        var w := WhitenAll(sample, mean, std);
        PartsShaped(w, labels, k, dim);
        match BuildKdes(Parts(w, labels, k), dim, 0, num, pooled)
        case Err(e) => Err(e)
        case Ok(kdes) => Ok(Clustered(|sample|, dim, k, mean, std, w, labels, kdes, Weights(labels, k, |sample|), num))
  }

  /** The BIC formula: the log-likelihood less nparams/2 · log N. Whenever there is
      at least one cluster, a parameter to pay for and log N is positive, the score
      is below the log-likelihood. */
  function Penalised(logL: real, k: nat, dim: nat, logN: real): (b: real)
    ensures k >= 1 && logN > 0.0 && (dim > 0 || k > 1) ==> b < logL
  {
    NParamsWhole(k, dim);
    assert k >= 1 && (dim > 0 || k > 1) ==> k * (dim + 1 + dim * (dim + 1) / 2) >= 2;
    logL - NParams(k, dim) / 2.0 * logN
  }

  /** At equal log-likelihood and log N > 0, more clusters give a strictly lower BIC. */
  lemma BicPenalisesClusters(logL: real, k1: nat, k2: nat, dim: nat, logN: real)
    requires k1 < k2 && logN > 0.0
    ensures Penalised(logL, k2, dim, logN) < Penalised(logL, k1, dim, logN)
  {
    NParamsIncreasing(k1, k2, dim);
    PenaltyIncreasing(NParams(k1, dim), NParams(k2, dim), logN);
  }

  lemma PenaltyIncreasing(p: real, q: real, logN: real)
    requires p < q && logN > 0.0
    ensures p / 2.0 * logN < q / 2.0 * logN
  {
  }

  /** The query that shows the broadcasting gap: for a two-dimensional model the
      one-column query [[5]] is evaluated as written and refused by `Logpdf`. */
  lemma BroadcastAcceptsColumnQuery(m: Clustered)
    requires m.Valid() && m.dim == 2
    ensures m.LogpdfAsWritten([[5.0]], 1).Ok?
    ensures m.Logpdf([[5.0]], 1) == Err(DimensionMismatch(2, 1))
  {
  }
}
