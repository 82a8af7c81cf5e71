/** The two ways `KDE.logpdf` applies its per-point function: Python's `map`
    and a worker pool's `map`. */
module Executor {

  /** Python's built-in `map`: the results in the order of the arguments. */
  function SequentialMap<A, B>(f: A -> B, xs: seq<A>): (r: seq<B>)
    ensures |r| == |xs|
    ensures forall i :: 0 <= i < |xs| ==> r[i] == f(xs[i])
  {
    if |xs| == 0 then [] else [f(xs[0])] + SequentialMap(f, xs[1..])
  }

  /** A worker pool's `map`: the tasks finish in the order `completion` (any order
      that reaches every task, repeats allowed), and each result is put back at
      its task's position. The outcome is exactly the sequential map. */
  method PoolMap<A, B(0)>(f: A -> B, tasks: seq<A>, completion: seq<nat>) returns (results: seq<B>)
    requires forall j :: 0 <= j < |completion| ==> completion[j] < |tasks|
    requires forall i :: 0 <= i < |tasks| ==> i in completion
    ensures results == SequentialMap(f, tasks)
  {
    var slots := new B[|tasks|];
    var done: set<nat> := {};
    for j := 0 to |completion|
      invariant done == set t | t in completion[..j]
      invariant forall i :: i in done ==> i < |tasks| && slots[i] == f(tasks[i])
    {
      var t := completion[j];
      slots[t] := f(tasks[t]);
      done := done + {t};
    }
    assert completion[..|completion|] == completion;
    results := slots[..];
  }
}
