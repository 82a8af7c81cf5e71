/** Splitting the whitened sample by a cluster labelling, and the mixture weights
    `count_c / N` (the list comprehensions of `ClusteredKDE.__init__`). */
module Partition {
  import opened Linalg

  /** `labels` gives each of `n` points a cluster in 0..k-1, as k-means and vector
      quantisation do. */
  predicate IsLabelling(labels: seq<nat>, n: nat, k: nat) {
    |labels| == n && forall i :: 0 <= i < n ==> labels[i] < k
  }

  /** `np.sum(labels == c)`. */
  function Count(labels: seq<nat>, c: nat): (r: nat)
    ensures r <= |labels|
  {
    if |labels| == 0 then 0 else (if labels[0] == c then 1 else 0) + Count(labels[1..], c)
  }

  /** `data[labels == c]`: the points labelled c, in their original order. */
  function Members(data: Mat, labels: seq<nat>, c: nat): (m: Mat)
    requires |labels| == |data|
    ensures |m| == Count(labels, c)
    ensures multiset(m) <= multiset(data)
  {
    if |data| == 0 then []
    else
      assert data == [data[0]] + data[1..];
      (if labels[0] == c then [data[0]] else []) + Members(data[1..], labels[1..], c)
  }

  /** A cluster's points have the sample's dimension. */
  lemma MembersShape(data: Mat, labels: seq<nat>, c: nat, dim: nat)
    requires |labels| == |data| && IsMatrix(data, dim)
    ensures IsMatrix(Members(data, labels, c), dim)
  {
    var m := Members(data, labels, c);
    forall i | 0 <= i < |m| ensures |m[i]| == dim {
      assert m[i] in multiset(m);
    }
  }

  /** The k per-cluster point lists. */
  function Parts(data: Mat, labels: seq<nat>, k: nat): (parts: seq<Mat>)
    requires |labels| == |data|
    ensures |parts| == k
  {
    seq(k, c requires 0 <= c < k => Members(data, labels, c))
  }

  /** All points of all the lists, with multiplicity. */
  function Bag(parts: seq<Mat>): multiset<Vec>
    decreases |parts|
  {
    if |parts| == 0 then multiset{} else Bag(parts[..|parts| - 1]) + multiset(parts[|parts| - 1])
  }

  /** Sum of the cluster sizes for clusters 0..k-1. */
  function TotalCount(labels: seq<nat>, k: nat): nat
  {
    if k == 0 then 0 else TotalCount(labels, k - 1) + Count(labels, k - 1)
  }

  /** Row i, labelled c, is the `Rank(labels, i)`-th point of cluster c. With the
      length `Count(labels, c)` this fixes the list: exactly the points labelled c,
      in their original order. */
  lemma {:induction false} MembersAtRank(data: Mat, labels: seq<nat>, c: nat, i: nat)
    requires |labels| == |data| && i < |data| && labels[i] == c
    ensures Rank(labels, i) < |Members(data, labels, c)|
    ensures Members(data, labels, c)[Rank(labels, i)] == data[i]
    decreases i
  {
    if i > 0 {
      MembersAtRank(data[1..], labels[1..], c, i - 1);
      assert labels[..i] == [labels[0]] + labels[1..][..i - 1];
      CountConcat([labels[0]], labels[1..][..i - 1], c);
    }
  }

  /** The mixture weights: the fraction of the n points assigned to each cluster. */
  function Weights(labels: seq<nat>, k: nat, n: nat): (w: seq<real>)
    requires |labels| == n > 0
    ensures |w| == k
    ensures forall c :: 0 <= c < k ==> 0.0 <= w[c] <= 1.0
  {
    seq(k, c requires 0 <= c < k => Count(labels, c) as real / n as real)
  }

  lemma {:induction false} CountConcat(s: seq<nat>, t: seq<nat>, c: nat)
    ensures Count(s + t, c) == Count(s, c) + Count(t, c)
  {
    if |s| > 0 {
      assert (s + t)[1..] == s[1..] + t;
      CountConcat(s[1..], t, c);
    } else {
      assert s + t == t;
    }
  }

  /** Row i is the `Count(labels[..i], labels[i])`-th member of its cluster, so that
      position is below the cluster's size. */
  lemma RankBelowCount(labels: seq<nat>, i: nat)
    requires i < |labels|
    ensures Count(labels[..i], labels[i]) < Count(labels, labels[i])
  {
    assert labels == labels[..i] + [labels[i]] + labels[i + 1..];
    CountConcat(labels[..i] + [labels[i]], labels[i + 1..], labels[i]);
    CountConcat(labels[..i], [labels[i]], labels[i]);
  }

  /** The position of row i among the rows with its label. */
  function Rank(labels: seq<nat>, i: nat): (r: nat)
    requires i < |labels|
    ensures r < Count(labels, labels[i])
  {
    RankBelowCount(labels, i);
    Count(labels[..i], labels[i])
  }

  lemma {:induction false} BagOfEmpties(parts: seq<Mat>)
    requires forall c :: 0 <= c < |parts| ==> parts[c] == []
    ensures Bag(parts) == multiset{}
  {
    if |parts| > 0 {
      BagOfEmpties(parts[..|parts| - 1]);
    }
  }

  lemma {:induction false} BagOfPrepended(parts: seq<Mat>, rest: seq<Mat>, c0: nat, x: Vec)
    requires |parts| == |rest|
    requires forall c :: 0 <= c < |parts| ==> parts[c] == (if c == c0 then [x] else []) + rest[c]
    ensures Bag(parts) == Bag(rest) + (if c0 < |parts| then multiset{x} else multiset{})
  {
    if |parts| > 0 {
      var last := |parts| - 1;
      BagOfPrepended(parts[..last], rest[..last], c0, x);
      assert multiset(parts[last]) == (if last == c0 then multiset{x} else multiset{}) + multiset(rest[last]);
    }
  }

  /** Every point lies in exactly one cluster: together the clusters hold the
      sample's points with their multiplicities, nothing more and nothing less. */
  lemma {:induction false} PartitionIsPermutation(data: Mat, labels: seq<nat>, k: nat)
    requires IsLabelling(labels, |data|, k)
    ensures Bag(Parts(data, labels, k)) == multiset(data)
  {
    if |data| == 0 {
      BagOfEmpties(Parts(data, labels, k));
    } else {
      PartitionIsPermutation(data[1..], labels[1..], k);
      BagOfPrepended(Parts(data, labels, k), Parts(data[1..], labels[1..], k), labels[0], data[0]);
      assert data == [data[0]] + data[1..];
    }
  }

  lemma {:induction false} TotalCountStep(labels: seq<nat>, k: nat)
    requires |labels| > 0
    ensures TotalCount(labels, k) == TotalCount(labels[1..], k) + (if labels[0] < k then 1 else 0)
  {
    if k > 0 {
      TotalCountStep(labels, k - 1);
    }
  }

  /** The cluster sizes add up to the number of points. */
  lemma {:induction false} ClusterSizesSumToN(labels: seq<nat>, k: nat)
    requires IsLabelling(labels, |labels|, k)
    ensures TotalCount(labels, k) == |labels|
  {
    if |labels| == 0 {
      TotalCountOfNothing(labels, k);
    } else {
      TotalCountStep(labels, k);
      ClusterSizesSumToN(labels[1..], k);
    }
  }

  lemma {:induction false} TotalCountOfNothing(labels: seq<nat>, k: nat)
    requires |labels| == 0
    ensures TotalCount(labels, k) == 0
  {
    if k > 0 {
      TotalCountOfNothing(labels, k - 1);
    }
  }

  lemma {:induction false} WeightsSum(labels: seq<nat>, k: nat, n: nat)
    requires |labels| == n > 0
    ensures Sum(Weights(labels, k, n)) == TotalCount(labels, k) as real / n as real
  {
    if k > 0 {
      var w := Weights(labels, k, n);
      var a := TotalCount(labels, k - 1) as real;
      var b := Count(labels, k - 1) as real;
      var nr := n as real;
      WeightsSum(labels, k - 1, n);
      assert w[..k - 1] == Weights(labels, k - 1, n);
      assert Sum(w) == Sum(w[..k - 1]) + w[k - 1];
      assert w[k - 1] == b / nr;
      DivideSum(a, b, nr);
    }
  }

  lemma DivideSum(a: real, b: real, d: real)
    requires d != 0.0
    ensures a / d + b / d == (a + b) / d
  {
  }

  /** With every label in 0..k-1 the weights are a probability vector. */
  lemma WeightsSumToOne(labels: seq<nat>, k: nat, n: nat)
    requires IsLabelling(labels, n, k) && n > 0
    ensures Sum(Weights(labels, k, n)) == 1.0
  {
    WeightsSum(labels, k, n);
    ClusterSizesSumToN(labels, k);
    var nr := n as real;
    assert TotalCount(labels, k) as real == nr;
    DivideSelf(nr);
  }

  lemma DivideSelf(d: real)
    requires d != 0.0
    ensures d / d == 1.0
  {
  }
}
