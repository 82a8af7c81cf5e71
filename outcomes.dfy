/** Failure-carrying results for the fitting and evaluation operations.
    The source reports every failure by raising; here each raise becomes an `Err`. */
module Outcomes {

  datatype Option<+T> = None | Some(value: T)

  /** The failures the fitting and evaluation code can raise. */
  datatype Error =
    | DimensionMismatch(expected: nat, got: nat)  // KDE.logpdf's `assert dim == self._dim`
    | EmptySample                                 // a sample with no rows: mean and k-means fail
    | ZeroVariance                                // a constant column: whitening divides by zero
    | EmptyCluster                                // a cluster with no points: Scott's rule raises on 0 ** (-2/(dim+4))
    | NotPositiveDefinite                         // the bandwidth's Cholesky factorisation fails

  datatype Result<+T> = Ok(value: T) | Err(error: Error)
}
