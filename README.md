# Clustered kernel density estimation (kombine), the discrete skeleton

This project models `kombine/clustered_kde.py`. That file holds the proposal density of an ensemble sampler. A sample of N points in `dim` dimensions goes through three steps:

- it is whitened (the mean is subtracted and each dimension is divided by its standard deviation);
- it is split into k clusters by k-means;
- one Gaussian kernel density estimator (KDE) is fitted per cluster.

The mixture of those estimators, weighted by cluster size, is the density. `OptimizedKDE` tries k = 1, 2, 3, … and keeps the model with the best Bayes information criterion (BIC).

The model keeps the discrete, exact part of this and proves its properties:

- the greedy search over k and where it stops;
- the partition of the sample into clusters and the mixture weights;
- whitening and colouring as inverse maps;
- the BIC parameter count;
- the assembly of `draw`, which picks a cluster for each row by cumulative weight and fills a buffer cluster by cluster;
- the shape and order contracts of the single-cluster estimator's `logpdf` and `draw`, with and without a worker pool.

The floating-point work is passed in as function values (datatype `Numerics.Numerics`). That covers square roots, logarithms, log-sum-exp, the bandwidth factorisation and the per-point kernel sum. The random inputs and the k-means labelling are passed in as values too.

Modules, one file each:

| module | file | what it holds |
|---|---|---|
| `Outcomes` | outcomes.dfy | `Option`, `Result`, and the failures a construction can end in |
| `Linalg` | linalg.dfy | vectors and matrices over `real`: sums, dot products, transpose, products |
| `Numerics` | numerics.dfy | the floating-point collaborators and the stored bandwidth |
| `Executor` | executor.dfy | `map` and the pool's `map`, which collects results in any completion order |
| `GaussianKde` | kde.dfy | class `KDE`: construction, `logpdf`, `draw` |
| `Partition` | partition.dfy | splitting the sample by labels; counts, weights, and the rank of a row inside its cluster |
| `Sampling` | sampling.dfy | `cumsum` and `searchsorted`: the cluster chosen for each uniform value |
| `Whitening` | whitening.dfy | `np.mean`, `np.std`, `_whiten`, `_color` |
| `Mixture` | mixture.dfy | class `ClusteredKDE`: construction, `logpdf`, `bic`, `draw`, `size` |
| `Selector` | selector.dfy | class `OptimizedKDE`: the greedy search and the forwarding of the chosen model |

`KDE` and `ClusteredKDE` set their fields once, in the constructor, and never change them. They are therefore datatypes, built by total `Build` functions that return `Err` where the Python would raise.

Three pieces are imperative and stay methods with loops:

- the search loop (`Selector.Fit`);
- the in-place fill of the `np.empty` buffer in `draw` (`Mixture.Clustered.Draw` over an `array`, through `Mixture.FillSelected`);
- the pool's out-of-order collection of results (`Executor.PoolMap`).

Each is proved against a specification function.

## Model

| member | source | states |
|---|---|---|
| Selector.Fit | kombine/clustered_kde.py:22-38 | The loop starts from best = −∞, builds candidate k, keeps it only when its BIC is strictly greater and stops at the first that is not. It returns exactly what the greedy specification `From` returns from k = 1, including the failure of a candidate that cannot be built. |
| Selector.GreedyStop | kombine/clustered_kde.py:26-38 | The kept model is candidate `kept` for some index. Candidates 0..kept all build, with strictly increasing scores. The next candidate, if any, builds and scores no higher, so the kept model has one cluster fewer than the candidate that stopped the search. |
| Selector.GreedyStopConverse | kombine/clustered_kde.py:26-38 | The converse: a strictly improving run ending at `kept`, followed by the end of the list or by a non-improving candidate, is exactly what the search returns. |
| Selector.NoWorseThanFirst | kombine/clustered_kde.py:23-33 | Starting from −∞, the first candidate is always accepted when it builds. The kept model never scores below it. |
| Selector.FailureReached | kombine/clustered_kde.py:27-29 | A failed search is the failure of a candidate that the search actually reached. Every earlier candidate built and improved on its predecessor. |
| Selector.SearchKeeps | kombine/clustered_kde.py:26-38 | Applied to `ClusteredKDE` candidates: the kept model is valid and is the k-cluster candidate for some 1 ≤ k ≤ maxK. The BICs of k = 1..k rise strictly, and candidate k + 1 (when tried) builds and does not beat it. |
| Selector.Search.Candidate | kombine/clustered_kde.py:28 | `ClusteredKDE(data, k, pool)`. A candidate that builds is valid, has k clusters and holds all N points. |
| Selector.Optimized.Logpdf | kombine/clustered_kde.py:43-46 | Forwarded `logpdf`, reaching the corrected `Mixture.Clustered.Logpdf` (see Findings): refuses another dimension, where the code as written also accepts a one-column query. Otherwise one mixture log-density per query row, in order. |
| Selector.Optimized.Draw | kombine/clustered_kde.py:40-41 | Forwarded `draw`: one coloured row per uniform value, each the chosen model's drawn row, drawn with the corrected lower factor (see Findings). |
| Selector.Optimized.Size | kombine/clustered_kde.py:40-41 | Forwarded `size`: the number of training points, which is positive. |
| Mixture.Build | kombine/clustered_kde.py:63-79 | Construction fails with `EmptySample` on no points and with `ZeroVariance` when a standard deviation is 0. Otherwise it succeeds exactly when every cluster's estimator builds. On success the model is valid and its mean, standard deviation, whitened data, labels and k are those of the sample. Estimator c is exactly `GaussianKde.Build` of the whitened points labelled c, with the given pool choice and collaborators. |
| Mixture.BuildKdes | kombine/clustered_kde.py:76-77 | The per-cluster estimators, in cluster order, each built from that cluster's part. Otherwise the error of the first cluster whose estimator fails. |
| Mixture.Clustered.Logpdf | kombine/clustered_kde.py:93-99 | A query of another dimension is refused with `DimensionMismatch`. Otherwise there is one value per row, in order: the log-sum-exp of log-weight plus cluster log-density, at the whitened row, with no Jacobian term. |
| Mixture.Clustered.LogpdfAsWritten | kombine/clustered_kde.py:98-102 | As written, a one-column query is accepted for any dimension. It is accepted exactly when its width is `dim` or 1. |
| Mixture.BroadcastAcceptsColumnQuery | kombine/clustered_kde.py:98-102 | For a two-dimensional model the query [[5]] is evaluated by the code as written and refused by `Logpdf`. |
| Mixture.Clustered.Bic | kombine/clustered_kde.py:107-120 | The log-likelihood less nparams/2 · log N. It is strictly below the log-likelihood whenever log N > 0 and there is a parameter to pay for. |
| Mixture.NParamsWhole | kombine/clustered_kde.py:112-118 | The parameter count k·dim + (k−1) + k·(dim+1)·dim/2 is the whole number k·dim + (k−1) + k·(dim(dim+1)/2), since dim·(dim+1) is even. |
| Mixture.NParamsIncreasing | kombine/clustered_kde.py:112-118 | The parameter count is strictly increasing in k. |
| Mixture.Penalised | kombine/clustered_kde.py:108-120 | The BIC formula log L − nparams/2 · log N. With k ≥ 1, log N > 0 and a parameter to pay for, it is strictly below log L. |
| Mixture.BicPenalisesClusters | kombine/clustered_kde.py:112-120 | At equal log-likelihood, dimension and log N > 0, more clusters give a strictly lower BIC. |
| Mixture.Clustered.Size | kombine/clustered_kde.py:122-123 | `size` is the number of training points (and of labels), and is positive. |
| Mixture.Clustered.Draw | kombine/clustered_kde.py:81-91 | Returns one row of width dim per uniform value. Row i is the colour of the row its cluster's estimator drew for it, where the cluster is chosen by `searchsorted` over the cumulative weights and the batch row is the next unused one of that cluster. Every row is written exactly once. Each batch is drawn with the corrected lower factor (see Findings). |
| Mixture.FillSelected | kombine/clustered_kde.py:88-89 | `draws[labels == c] = batch`: the j-th row labelled c receives batch[j]. Every other row is unchanged. |
| Partition.Count | kombine/clustered_kde.py:79 | `np.sum(assignments == c)`: never more than the number of labels. |
| Partition.Members | kombine/clustered_kde.py:76 | `data[assignments == c]`: exactly Count(labels, c) points, a sub-multiset of the data. |
| Partition.MembersAtRank | kombine/clustered_kde.py:76 | A point labelled c sits in cluster c's list at its rank among the points labelled c. With the list's length, this makes the list exactly the points labelled c, in their original order. |
| Partition.MembersShape | kombine/clustered_kde.py:76 | A cluster's points have the sample's dimension. |
| Partition.PartitionIsPermutation | kombine/clustered_kde.py:74-77 | The union of the k cluster parts is the whole sample as a multiset: every point lies in exactly one cluster. |
| Partition.ClusterSizesSumToN | kombine/clustered_kde.py:74-79 | With every label in 0..k−1, the cluster sizes sum to N. |
| Partition.Weights | kombine/clustered_kde.py:78-79 | One weight per cluster, each in [0, 1] (the count of the cluster over N). |
| Partition.WeightsSumToOne | kombine/clustered_kde.py:78-79 | With every label in 0..k−1 and N > 0, the weights sum to exactly 1. |
| Partition.Rank | kombine/clustered_kde.py:88-89 | The position of row i among the rows with its label, which is below that label's count. |
| Sampling.CumSum | kombine/clustered_kde.py:83 | `np.cumsum` has one entry per weight. |
| Sampling.SearchSorted | kombine/clustered_kde.py:84 | The first index whose entry is ≥ v: every earlier entry is < v, and the entry at the result (if any) is ≥ v. |
| Sampling.Labels | kombine/clustered_kde.py:84 | One cluster per uniform value, `searchsorted(cumsum(w), u_i)`: every earlier cumulative weight is below u_i, and the chosen cluster's cumulative weight, when there is one, is at least u_i. |
| Sampling.CumSumNondecreasing | kombine/clustered_kde.py:83 | The cumulative weights of non-negative weights are non-decreasing. |
| Sampling.CumSumLast | kombine/clustered_kde.py:83 | The last cumulative weight is the sum of the weights. |
| Sampling.LabelsInRange | kombine/clustered_kde.py:83-84 | With exact weights summing to 1 and every u below 1, every chosen cluster is below k. |
| Sampling.ClusterInterval | kombine/clustered_kde.py:83-84 | u is assigned cluster c exactly when (c = 0 or cum[c−1] < u) and u ≤ cum[c]. The interval has width w[c], so the smallest cluster whose cumulative weight reaches u wins. |
| Whitening.Mean | kombine/clustered_kde.py:69 | `np.mean(data, axis=0)` has one entry per dimension. |
| Whitening.Std | kombine/clustered_kde.py:70 | `np.std(data, axis=0)` has one entry per dimension. |
| Whitening.Whiten | kombine/clustered_kde.py:101-102 | `_whiten` keeps the row's width. |
| Whitening.Color | kombine/clustered_kde.py:104-105 | `_color` keeps the row's width. |
| Whitening.WhitenAll | kombine/clustered_kde.py:71 | Whitening the sample keeps its shape. |
| Whitening.ColorUndoesWhiten | kombine/clustered_kde.py:101-105 | With no zero standard deviation, `_color(_whiten(x)) = x`. |
| Whitening.WhitenUndoesColor | kombine/clustered_kde.py:101-105 | With no zero standard deviation, `_whiten(_color(y)) = y`. |
| Whitening.WhitenedSampleCentred | kombine/clustered_kde.py:69-71 | Each column of the whitened sample sums to zero. |
| GaussianKde.Build | kombine/clustered_kde.py:141-171 | `KDE.__init__` fails with `EmptyCluster` on no points and with `NotPositiveDefinite` when no square bandwidth factor exists. Otherwise it succeeds and stores the points, the dimension, the pool choice, the kernel sum and the bandwidth the collaborator computes from the points. |
| GaussianKde.Kde.Logpdf | kombine/clustered_kde.py:189-203 | A query of another dimension is refused with `DimensionMismatch`. Otherwise there is one value per query row, in input order, equal to kernel sum less lognorm, whether evaluated through the pool or plain `map`. |
| Executor.SequentialMap | kombine/clustered_kde.py:197-200 | `map`: one result per argument, in argument order. |
| Executor.PoolMap | kombine/clustered_kde.py:194-200 | The pool's `map`: results arrive in any completion order covering every task, and the collected list equals the sequential `map`. |
| GaussianKde.Kde.Draw | kombine/clustered_kde.py:173-187 | `draw` with its random inputs given (corrected factor): row i minus the picked stored sample data[picks[i]] (picks in [0, N)) is the lower Cholesky factor applied to the i-th unit Gaussian row. |
| GaussianKde.Kde.DrawAsWritten | kombine/clustered_kde.py:184-185 | `draw` as written: row i minus the picked stored sample is scipy's upper factor applied to the i-th unit Gaussian row. |
| GaussianKde.DrawZeroNoise | kombine/clustered_kde.py:184-185 | A zero unit-Gaussian row yields exactly the picked stored sample. |
| GaussianKde.LowerFactorNoiseMatches | kombine/clustered_kde.py:164-167 | Recolouring by upperᵀ gives noise covariance upperᵀ·upper, the kernel covariance. |
| GaussianKde.UpperFactorNoiseMismatch | kombine/clustered_kde.py:167-185 | For the upper factor [[1,1],[0,1]] of [[1,1],[1,2]], recolouring by the upper factor gives noise covariance ≠ the kernel covariance. |

## Left out

- Floating-point numerics are collaborators in `Numerics.Numerics`: Scott's rule with its fractional power, `cho_factor`, `cholesky`, `det`, `cho_solve`, `logsumexp`, `log`, `exp`, and the square root inside `np.std`. Only their shapes and where they are applied are modelled.
- The normalisation constant computes 2·π^dim rather than (2π)^dim, because of operator precedence (kombine/clustered_kde.py:171). It belongs to the `bandwidth` collaborator and is not corrected here.
- `kmeans` and `vq` are external. Their labelling is an input, `Selector.Search.kmeans`, with every label in 0..k−1. A cluster that receives no points is the error `EmptyCluster` rather than a precondition.
- A zero standard deviation has no explicit check in the code: numpy yields inf/nan and k-means then refuses the data. The model returns `ZeroVariance` at that point.
- The multiprocessing pool's concurrency is not modelled. The pool is a completion order over the tasks, and `Executor.PoolMap` shows that the order does not matter.
- Randomness is not generated. The uniforms, the unit Gaussian rows and the kernel indices are inputs.
- `cumsum` rounding is not modelled. Weights are exact reals summing to 1, so every uniform in [0, 1) picks a cluster below k. In floats the last cumulative weight can fall just below 1 and leave buffer rows unwritten.
- The `while True` loop has no termination guarantee. The search is bounded by `Selector.Search.maxK`, an assumption, and reaching the bound keeps the last candidate.
- NaN or infinite BICs are not modelled. Scores are reals.
- `__getattr__` reflection is replaced by explicit forwarding in `Selector.Optimized`. Other attributes are reached through its `kde` field.
- The mixture weights are kept exactly, not as logarithms. `Mixture.Clustered.MixtureAt` applies the `log` collaborator to them.
- Mixture.Clustered.Bic: the log-likelihood is the sum of the `logSumExp` collaborator over the training points. Its contract relates the score to the log-likelihood, not to a numeric value.
- Mixture.Clustered.LogpdfAsWritten: the contract states which query widths are accepted and the result length. The values produced in the broadcast case are in the body only.
- GaussianKde.Build: a bandwidth factor of the wrong shape is reported as `NotPositiveDefinite`. In scipy the factorisation fails on a matrix that is not positive definite or not finite, e.g. the NaN covariance of a one-point cluster.
- `KDE.__enter__` is not modelled; it returns the object itself.
- Mixture.Clustered.Draw, Selector.Optimized.Draw and Selector.Optimized.Logpdf are built on the corrected members from Findings. The code as written draws each batch with the upper factor and accepts a one-column query there too. Those as-written behaviours are stated only at the estimator level (`GaussianKde.Kde.DrawAsWritten`) and at the mixture level (`Mixture.Clustered.LogpdfAsWritten`).

## Findings

| source | as written | input that shows it | evidently intended | confidence | as-written member | corrected member |
|---|---|---|---|---|---|---|
| kombine/clustered_kde.py:167-185 | `la.cholesky` returns the upper factor U with Uᵀ·U = kernel covariance H. `draw` multiplies unit Gaussian rows by U, so the noise covariance is U·Uᵀ, not H. | H = [[1,1],[1,2]], U = [[1,1],[0,1]]: U·Uᵀ = [[2,1],[1,1]] ≠ H | Multiply by the lower factor Uᵀ (or call `cholesky(…, lower=True)`), so the noise covariance is H | not executed | GaussianKde.Kde.DrawAsWritten, GaussianKde.UpperFactorNoiseMismatch | GaussianKde.Kde.Draw, GaussianKde.LowerFactorNoiseMatches, Mixture.Clustered.Draw, Selector.Optimized.Draw |
| kombine/clustered_kde.py:98-102 | `(X - mean)/std` broadcasts a one-column query across all dimensions before any dimension check, so `ClusteredKDE.logpdf` evaluates it instead of refusing it | a model with dim = 2 and the query [[5]] | Refuse a query whose width is not the model's dimension, as `KDE.logpdf` does | not executed | Mixture.Clustered.LogpdfAsWritten, Mixture.BroadcastAcceptsColumnQuery | Mixture.Clustered.Logpdf, Selector.Optimized.Logpdf |
