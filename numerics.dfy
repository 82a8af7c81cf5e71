/** The floating-point collaborators of the estimator, passed in as values.
    Each one is numerical work (square roots, logarithms, Cholesky factorisation,
    Gaussian kernel sums) that this model does not reproduce; the discrete
    skeleton around them is what the other modules state and prove. */
module Numerics {
  import opened Linalg
  import opened Outcomes

  /** What `KDE._set_bandwidth` stores for one cluster: the Cholesky factor that
      `scipy.linalg.cholesky` returns (upper triangular by default, so that
      upperᵀ·upper is the kernel covariance) and the log-normalisation constant. */
  datatype Bandwidth = Bandwidth(upper: Mat, lognorm: real)

  datatype Numerics = Numerics(
    sqrt: real -> real,                          // np.sqrt inside np.std
    log: real -> real,                           // np.log
    logSumExp: seq<real> -> real,                // scipy's logsumexp
    bandwidth: Mat -> Option<Bandwidth>,         // Scott's rule, cho_factor, cholesky, lognorm; None when factorisation fails
    kernelLogSum: (Vec, Mat, Bandwidth) -> real  // _evaluate_point_logpdf: log Σ exp(-quadratic/2) over the kernel centres
  )
}
