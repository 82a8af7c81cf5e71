/** The adaptive model selector (class `OptimizedKDE`): a greedy search over the
    cluster count k = 1, 2, 3, … that keeps a candidate only while its BIC strictly
    improves, and then stands in for the winning model. */
module Selector {
  import opened Linalg
  import opened Outcomes
  import opened Numerics
  import opened Partition
  import opened Whitening
  import opened Mixture

  /** The best score so far; the search starts from minus infinity. */
  datatype Score = NegInf | Finite(value: real)

  /** `bic > best_bic`. */
  predicate Beats(bic: real, best: Score) {
    best.NegInf? || bic > best.value
  }

  function ScoreOf<M>(best: Option<M>, score: M -> real): Score {
    if best.None? then NegInf else Finite(score(best.value))
  }

  /** The greedy search over the outcomes of candidates 0, 1, 2, … (candidate i has
      i + 1 clusters), from candidate i on, `best` being the model kept so far: a
      failing candidate ends the search with that failure; a candidate that does
      not beat the best ends it with the best; the end of the list ends it with the
      best. */
  ghost function From<M>(cands: seq<Result<M>>, score: M -> real, i: nat, best: Option<M>): Result<M>
    requires 0 < |cands| && i <= |cands|
    requires best.Some? <==> i > 0
    decreases |cands| - i
  {
    if i == |cands| then Ok(best.value)
    else match cands[i]
      case Err(e) => Err(e)
      case Ok(c) =>
        if Beats(score(c), ScoreOf(best, score)) then From(cands, score, i + 1, Some(c))
        else Ok(best.value)
  }

  /** Candidates j and j + 1 both build and the score strictly rises between them. */
  ghost predicate Step<M>(cands: seq<Result<M>>, score: M -> real, j: nat)
    requires j + 1 < |cands|
  {
    cands[j].Ok? && cands[j + 1].Ok? && score(cands[j].value) < score(cands[j + 1].value)
  }

  /** Candidates 0..i all build and their scores strictly increase. */
  ghost predicate Improving<M>(cands: seq<Result<M>>, score: M -> real, i: nat)
    requires i < |cands|
  {
    cands[i].Ok? && forall j :: 0 <= j < i ==> Step(cands, score, j)
  }

  /** Candidate i is followed either by the end of the list or by a candidate that
      builds and does not improve on it. */
  ghost predicate StopsAfter<M>(cands: seq<Result<M>>, score: M -> real, i: nat)
    requires i < |cands| && cands[i].Ok?
  {
    i + 1 < |cands| ==> cands[i + 1].Ok? && score(cands[i + 1].value) <= score(cands[i].value)
  }

  lemma {:induction false} FromKeeps<M>(cands: seq<Result<M>>, score: M -> real, i: nat, best: Option<M>)
    requires 0 < |cands| && i <= |cands|
    requires best.Some? <==> i > 0
    requires i > 0 ==> cands[i - 1] == Ok(best.value) && Improving(cands, score, i - 1)
    ensures From(cands, score, i, best).Ok? ==>
      exists kept :: (0 <= kept < |cands| && cands[kept] == From(cands, score, i, best)
        && Improving(cands, score, kept) && StopsAfter(cands, score, kept))
    decreases |cands| - i
  {
    var r := From(cands, score, i, best);
    if i == |cands| {
      assert cands[i - 1] == r;
    } else if cands[i].Ok? {
      var c := cands[i].value;
      if Beats(score(c), ScoreOf(best, score)) {
        assert Improving(cands, score, i) by {
          if i > 0 {
            assert Step(cands, score, i - 1);
          }
        }
        FromKeeps(cands, score, i + 1, Some(c));
      } else {
        assert cands[i - 1] == r && StopsAfter(cands, score, i - 1);
      }
    }
  }

  /** What the search keeps is the last candidate of a run 0..kept whose scores
      strictly increase, followed by the end of the list or by the first candidate
      whose score is not strictly greater: the kept model has one cluster fewer than
      the candidate that stopped the search. Candidate 0 is always accepted when it
      builds. */
  lemma GreedyStop<M>(cands: seq<Result<M>>, score: M -> real)
    requires 0 < |cands| && From(cands, score, 0, None).Ok?
    ensures exists kept :: (0 <= kept < |cands| && cands[kept] == From(cands, score, 0, None)
      && Improving(cands, score, kept) && StopsAfter(cands, score, kept))
  {
    FromKeeps(cands, score, 0, None);
  }

  lemma {:induction false} FromReaches<M>(cands: seq<Result<M>>, score: M -> real, i: nat, best: Option<M>, kept: nat)
    requires i <= kept < |cands|
    requires best.Some? <==> i > 0
    requires i > 0 ==> cands[i - 1] == Ok(best.value)
    requires Improving(cands, score, kept) && StopsAfter(cands, score, kept)
    ensures From(cands, score, i, best) == cands[kept]
    decreases kept - i
  {
    assert cands[i].Ok? by {
      if i < kept {
        assert Step(cands, score, i);
      }
    }
    var c := cands[i].value;
    if i > 0 {
      assert Step(cands, score, i - 1);
    }
    if i < kept {
      FromReaches(cands, score, i + 1, Some(c), kept);
    }
  }

  /** Conversely, a strictly improving run 0..kept followed by the end of the list or
      by a non-improving candidate is exactly what the search keeps. */
  lemma GreedyStopConverse<M>(cands: seq<Result<M>>, score: M -> real, kept: nat)
    requires kept < |cands| && Improving(cands, score, kept) && StopsAfter(cands, score, kept)
    ensures From(cands, score, 0, None) == cands[kept]
  {
    FromReaches(cands, score, 0, None, kept);
  }

  lemma {:induction false} FromFails<M>(cands: seq<Result<M>>, score: M -> real, i: nat, best: Option<M>)
    requires 0 < |cands| && i <= |cands|
    requires best.Some? <==> i > 0
    requires i > 0 ==> cands[i - 1] == Ok(best.value) && Improving(cands, score, i - 1)
    ensures From(cands, score, i, best).Err? ==>
      exists failed :: (0 <= failed < |cands| && cands[failed] == From(cands, score, i, best)
        && (failed == 0 || Improving(cands, score, failed - 1)))
    decreases |cands| - i
  {
    if i < |cands| && cands[i].Ok? {
      var c := cands[i].value;
      if Beats(score(c), ScoreOf(best, score)) {
        assert Improving(cands, score, i) by {
          if i > 0 {
            assert Step(cands, score, i - 1);
          }
        }
        FromFails(cands, score, i + 1, Some(c));
      }
    }
  }

  /** A failure of the search is the failure of a candidate it reached: every
      earlier candidate built and improved on the one before. */
  lemma FailureReached<M>(cands: seq<Result<M>>, score: M -> real)
    requires 0 < |cands| && From(cands, score, 0, None).Err?
    ensures exists failed :: (0 <= failed < |cands| && cands[failed] == From(cands, score, 0, None)
      && (failed == 0 || Improving(cands, score, failed - 1)))
  {
    FromFails(cands, score, 0, None);
  }

  lemma {:induction false} ImprovingChain<M>(cands: seq<Result<M>>, score: M -> real, i: nat)
    requires i < |cands| && Improving(cands, score, i)
    ensures cands[0].Ok? && score(cands[0].value) <= score(cands[i].value)
  {
    if i > 0 {
      assert Step(cands, score, i - 1);
      ImprovingChain(cands, score, i - 1);
    }
  }

  /** The kept model never scores below the first candidate. */
  lemma NoWorseThanFirst<M>(cands: seq<Result<M>>, score: M -> real)
    requires 0 < |cands| && From(cands, score, 0, None).Ok?
    ensures cands[0].Ok?
    ensures score(cands[0].value) <= score(From(cands, score, 0, None).value)
  {
    GreedyStop(cands, score);
    var kept :| 0 <= kept < |cands| && cands[kept] == From(cands, score, 0, None)
      && Improving(cands, score, kept) && StopsAfter(cands, score, kept);
    ImprovingChain(cands, score, kept);
  }

  /** The BIC of a built model. */
  ghost function BicScore(m: Clustered): real {
    if m.Valid() then m.Bic() else 0.0
  }

  /** The inputs of the search: the sample and its dimension, the k-means labelling
      of the whitened sample for each k, the numerical collaborators, whether a pool
      is used, and the largest k the search may try. */
  datatype Search = Search(sample: Mat, dim: nat, kmeans: nat -> seq<nat>, num: Numerics,
                           pooled: bool, maxK: nat)
  {
    ghost predicate Admissible() {
      && IsMatrix(sample, dim) && maxK >= 1
      && forall k :: 1 <= k <= maxK ==> IsLabelling(kmeans(k), |sample|, k)
    }

    /** `ClusteredKDE(data, k, pool)`. */
    function Candidate(k: nat): (r: Result<Clustered>)
      requires Admissible() && 1 <= k <= maxK
      ensures r.Ok? ==> r.value.Valid() && r.value.k == k && r.value.n == |sample|
    {
      Mixture.Build(sample, dim, k, kmeans(k), num, pooled)
    }

    /** The candidates for k = 1..maxK, in order. */
    ghost function Candidates(): (r: seq<Result<Clustered>>)
      requires Admissible()
      ensures |r| == maxK
      ensures forall i :: 0 <= i < maxK ==> r[i] == Candidate(i + 1)
    {
      seq(maxK, i requires 0 <= i < maxK => Candidate(i + 1))
    }

    ghost function Outcome(): Result<Clustered>
      requires Admissible()
    {
      From(Candidates(), BicScore, 0, None)
    }
  }

  /** `OptimizedKDE.__init__`: the search loop. */
  method Fit(s: Search) returns (r: Result<Optimized>)
    requires s.Admissible()
    ensures r.Ok? <==> s.Outcome().Ok?
    ensures r.Ok? ==> r.value.kde == s.Outcome().value && r.value.Valid()
    ensures r.Err? ==> r.error == s.Outcome().error
  {
    ghost var cands := s.Candidates();
    var bestBic := NegInf;
    var best: Option<Clustered> := None;
    var k := 1;
    while k <= s.maxK
      invariant 1 <= k <= s.maxK + 1
      invariant best.Some? <==> k > 1
      invariant best.Some? ==> best.value.Valid()
      invariant bestBic == ScoreOf(best, BicScore)
      invariant From(cands, BicScore, k - 1, best) == s.Outcome()
      decreases s.maxK + 1 - k
    {
      var kde := s.Candidate(k);
      assert kde == cands[k - 1];
      if kde.Err? {
        return Err(kde.error);
      }
      var bic := kde.value.Bic();
      if Beats(bic, bestBic) {
        best := Some(kde.value);
        bestBic := Finite(bic);
      } else {
        break;
      }
      k := k + 1;
    }
    r := Ok(Optimized(best.value));
  }

  /** The model the search keeps is the k-cluster candidate for some k in 1..maxK;
      the BICs of candidates 1..k strictly increase, and candidate k + 1, when there
      is one, builds and scores no higher. */
  lemma SearchKeeps(s: Search)
    requires s.Admissible() && s.Outcome().Ok?
    ensures var m := s.Outcome().value;
      && m.Valid() && 1 <= m.k <= s.maxK && s.Candidate(m.k) == Ok(m)
      && Improving(s.Candidates(), BicScore, m.k - 1) && StopsAfter(s.Candidates(), BicScore, m.k - 1)
  {
    var cands := s.Candidates();
    GreedyStop(cands, BicScore);
    var kept :| 0 <= kept < |cands| && cands[kept] == s.Outcome()
      && Improving(cands, BicScore, kept) && StopsAfter(cands, BicScore, kept);
    assert cands[kept] == s.Candidate(kept + 1);
  }

  /** The winning model, with the interface of `ClusteredKDE` forwarded to it. */
  datatype Optimized = Optimized(kde: Clustered)
  {
    ghost predicate Valid() {
      kde.Valid()
    }

    /** `OptimizedKDE.logpdf`. */
    function Logpdf(xs: Mat, xdim: nat): (r: Result<seq<real>>)
      requires Valid() && IsMatrix(xs, xdim)
      ensures r.Ok? <==> xdim == kde.dim
      ensures r.Ok? ==> |r.value| == |xs|
      ensures r.Ok? ==> forall i :: 0 <= i < |xs| ==> r.value[i] == kde.MixtureAt(Whiten(xs[i], kde.mean, kde.std))
    {
      kde.Logpdf(xs, xdim)
    }

    /** `draw`, reached through `__getattr__`. */
    method Draw(u: seq<real>, normals: seq<Mat>, picks: seq<seq<nat>>) returns (rows: Mat)
      requires Valid() && kde.DrawInputs(u, normals, picks)
      ensures |rows| == |u| && IsMatrix(rows, kde.dim)
      ensures forall i :: 0 <= i < |u| ==> rows[i] == Color(kde.DrawnRow(u, normals, picks, i), kde.mean, kde.std)
    {
      rows := kde.Draw(u, normals, picks);
    }

    /** `size`, reached through `__getattr__`. */
    function Size(): (n: nat)
      requires Valid()
      ensures n == |kde.data| && n > 0
    {
      kde.Size()
    }
  }
}
