/** Choosing a cluster for each drawn row in `ClusteredKDE.draw`:
    `np.searchsorted(np.cumsum(weights), u)`. */
module Sampling {
  import opened Linalg

  /** `np.cumsum`: entry i is the sum of w[0..i]. */
  function CumSum(w: seq<real>): (cum: seq<real>)
    ensures |cum| == |w|
  {
    seq(|w|, i requires 0 <= i < |w| => Sum(w[..i + 1]))
  }

  /** `np.searchsorted(a, v)` (left side): the first index whose entry is at least v,
      or |a| when there is none. */
  function SearchSorted(a: seq<real>, v: real): (r: nat)
    ensures r <= |a|
    ensures forall j :: 0 <= j < r ==> a[j] < v
    ensures r < |a| ==> v <= a[r]
  {
    if |a| == 0 then 0
    else if v <= a[0] then 0
    else 1 + SearchSorted(a[1..], v)
  }

  /** The cluster chosen for each uniform value: the first whose cumulative weight
      reaches it, or |w| when none does. */
  function Labels(w: seq<real>, u: seq<real>): (labels: seq<nat>)
    ensures |labels| == |u|
    ensures forall i :: 0 <= i < |u| ==> labels[i] <= |w|
    ensures forall i, c :: 0 <= i < |u| && 0 <= c < labels[i] ==> CumSum(w)[c] < u[i]
    ensures forall i :: 0 <= i < |u| && labels[i] < |w| ==> u[i] <= CumSum(w)[labels[i]]
    ensures forall i :: 0 <= i < |u| ==> labels[i] == SearchSorted(CumSum(w), u[i])
  {
    seq(|u|, i requires 0 <= i < |u| => SearchSorted(CumSum(w), u[i]))
  }

  predicate NonNegative(w: seq<real>) {
    forall i :: 0 <= i < |w| ==> 0.0 <= w[i]
  }

  predicate Nondecreasing(a: seq<real>) {
    forall i, j :: 0 <= i <= j < |a| ==> a[i] <= a[j]
  }

  lemma CumSumStep(w: seq<real>, c: nat)
    requires 0 < c < |w|
    ensures CumSum(w)[c] == CumSum(w)[c - 1] + w[c]
  {
    assert w[..c + 1][..c] == w[..c];
  }

  lemma CumSumFirst(w: seq<real>)
    requires 0 < |w|
    ensures CumSum(w)[0] == w[0]
  {
    assert w[..1][..0] == [];
    assert Sum(w[..1]) == Sum(w[..1][..0]) + w[0];
  }

  /** The last cumulative weight is the total weight. */
  lemma CumSumLast(w: seq<real>)
    requires 0 < |w|
    ensures CumSum(w)[|w| - 1] == Sum(w)
  {
    assert w[..|w|] == w;
  }

  /** Non-negative weights give a non-decreasing cumulative sum. */
  lemma {:induction false} CumSumNondecreasing(w: seq<real>)
    requires NonNegative(w)
    ensures Nondecreasing(CumSum(w))
  {
    var cum := CumSum(w);
    forall i, j | 0 <= i <= j < |cum| ensures cum[i] <= cum[j] {
      CumSumMonotoneFrom(w, i, j);
    }
  }

  lemma {:induction false} CumSumMonotoneFrom(w: seq<real>, i: nat, j: nat)
    requires NonNegative(w) && i <= j < |w|
    ensures CumSum(w)[i] <= CumSum(w)[j]
    decreases j - i
  {
    if i < j {
      CumSumMonotoneFrom(w, i, j - 1);
      CumSumStep(w, j);
    }
  }

  /** When the weights sum to one, every u below one lands in a cluster: no row is
      left without one. */
  lemma LabelsInRange(w: seq<real>, u: seq<real>)
    requires |w| > 0 && Sum(w) == 1.0
    requires forall i :: 0 <= i < |u| ==> u[i] < 1.0
    ensures forall i :: 0 <= i < |u| ==> Labels(w, u)[i] < |w|
  {
    CumSumLast(w);
  }

  /** u is sent to cluster c exactly when it lies in (cum[c-1], cum[c]], an interval
      whose length is the weight of c. */
  lemma ClusterInterval(w: seq<real>, v: real, c: nat)
    requires NonNegative(w) && c < |w|
    ensures SearchSorted(CumSum(w), v) == c <==>
      (c == 0 || CumSum(w)[c - 1] < v) && v <= CumSum(w)[c]
    ensures c == 0 ==> CumSum(w)[c] == w[c]
    ensures c > 0 ==> CumSum(w)[c] - CumSum(w)[c - 1] == w[c]
  {
    var cum := CumSum(w);
    CumSumNondecreasing(w);
    if c == 0 { CumSumFirst(w); } else { CumSumStep(w, c); }
  }
}
