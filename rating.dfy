/** The rating aggregator: a film keeps the mean of its submitted scores as a
    (rating, number of raters) pair and updates it one score at a time. */
module Rating {

  /** One step of the running mean: the new `rating` after a score is
      submitted to a film with `count` previous raters. */
  function RateStep(rating: real, count: nat, score: int): real {
    (rating * count as real + score as real) / (count + 1) as real
  }

  /** The rating a film shows after the scores `scores` were submitted in
      turn, starting from the column default 0. */
  function RunningMean(scores: seq<int>): real {
    if scores == [] then 0.0
    else RateStep(RunningMean(scores[..|scores| - 1]), |scores| - 1, scores[|scores| - 1])
  }

  function Sum(scores: seq<int>): int {
    if scores == [] then 0 else Sum(scores[..|scores| - 1]) + scores[|scores| - 1]
  }

  predicate ScoresInRange(scores: seq<int>) {
    forall i :: 0 <= i < |scores| ==> 1 <= scores[i] <= 5
  }

  /** The incremental update computes the plain mean: the stored rating times
      the number of raters is the sum of all scores. */
  lemma {:induction false} RunningMeanIsMean(scores: seq<int>)
    ensures RunningMean(scores) * |scores| as real == Sum(scores) as real
  {
    if scores != [] {
      var init := scores[..|scores| - 1];
      RunningMeanIsMean(init);
      var n := |init| as real;
      var x := scores[|scores| - 1] as real;
      assert RunningMean(scores) == (RunningMean(init) * n + x) / (n + 1.0);
      assert RunningMean(scores) * (n + 1.0) == RunningMean(init) * n + x;
    }
  }

  lemma {:induction false} SumBounds(scores: seq<int>)
    requires ScoresInRange(scores)
    ensures |scores| <= Sum(scores) <= 5 * |scores|
  {
    if scores != [] {
      SumBounds(scores[..|scores| - 1]);
    }
  }

  lemma ScaledBounds(m: real, n: real, total: real)
    requires n > 0.0 && m * n == total && n <= total <= 5.0 * n
    ensures 1.0 <= m <= 5.0
  {
  }

  /** With every score in [1, 5], a film that has been rated at least once
      has its rating in [1, 5]. */
  lemma MeanInRange(scores: seq<int>)
    requires ScoresInRange(scores) && scores != []
    ensures 1.0 <= RunningMean(scores) <= 5.0
  {
    RunningMeanIsMean(scores);
    SumBounds(scores);
    ScaledBounds(RunningMean(scores), |scores| as real, Sum(scores) as real);
  }

  /** One more score: the new rating is the running mean of the longer
      history. */
  lemma RateStepExtends(scores: seq<int>, score: int)
    ensures RateStep(RunningMean(scores), |scores|, score) == RunningMean(scores + [score])
  {
    assert (scores + [score])[..|scores|] == scores;
  }

  /** A score of 5 on an unrated film gives 5.0; a further 4 gives 4.5. */
  lemma FiveThenFour()
    ensures RunningMean([5]) == 5.0 && RunningMean([5, 4]) == 4.5
  {
    assert [5, 4][..1] == [5];
  }
}
