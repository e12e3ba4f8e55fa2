/**
 * The two nine-point series the anomaly-detector tests are built on, and
 * the raw scores the diff-percent rule gives the first against the second
 * with thresholds of +20 and -20 percent.
 */
module Fixtures {
  import opened DiffPercentScoring
  import opened CustomAlgorithm

  /** The primary series s1. */
  const S1: Series := [(0, 0.0), (1, 0.0), (2, 0.0), (3, 0.0), (4, 1.0), (5, 2.0), (6, 2.0), (7, 2.0), (8, 0.0)]

  /** The baseline series s2. */
  const S2: Series := [(0, 0.0), (1, 1.0), (2, 2.0), (3, 2.0), (4, 2.0), (5, 0.0), (6, 0.0), (7, 0.0), (8, 0.0)]

  /** The expected raw score at each position of s1. */
  const ExpectedScores: seq<real> := [0.0, 100.0, 100.0, 100.0, 50.0, 100.0, 100.0, 100.0, 0.0]

  /**
   * Scored against s2 with upper 20 and lower -20, s1 falls 100 percent below
   * its baseline at timestamps 1 to 3 and 50 percent at 4, and is positive
   * over a zero baseline at 5 to 7; only timestamps 0 and 8 score 0.
   */
  lemma FixtureScores()
    ensures RawScores(S1, S2, Some(20.0), Some(-20.0)).Keys == Timestamps(S1)
    ensures forall i :: 0 <= i < |S1| ==> RawScores(S1, S2, Some(20.0), Some(-20.0))[S1[i].0] == ExpectedScores[i]
    ensures 1 in RawScores(S1, S2, Some(20.0), Some(-20.0))
    ensures RawScores(S1, S2, Some(20.0), Some(-20.0))[1] == 100.0
  {
    RawScoresKeys(S1, S2, Some(20.0), Some(-20.0));
    forall i | 0 <= i < |S1|
      ensures RawScores(S1, S2, Some(20.0), Some(-20.0))[S1[i].0] == ExpectedScores[i]
    {
      RawScoresAt(S1, S2, Some(20.0), Some(-20.0), i);
    }
    RawScoresAt(S1, S2, Some(20.0), Some(-20.0), 1);
  }

  /**
   * The fixtures hold integers, and every quotient the rule forms on them is
   * exact, so Python 2's floor division gives the same differences.
   */
  lemma FixtureDivisionIsExact()
    ensures forall i :: 0 <= i < |S1| ==>
              IntegerDiffPercent(S1[i].1.Floor, S2[i].1.Floor) == DiffPercent(S1[i].1, S2[i].1)
  {
  }

  /**
   * Building the algorithm on the fixtures and scoring it succeeds, and the
   * stored map holds the expected score at every timestamp, among them a
   * non-zero one, so anomalies can be extracted from it.
   */
  method ScoreFixtures() returns (algo: CustomAlgo)
    ensures algo.anomScores.Some? && algo.anomScores.value.Keys == Timestamps(S1)
    ensures forall i :: 0 <= i < |S1| ==> algo.anomScores.value[S1[i].0] == ExpectedScores[i]
    ensures 1 in algo.anomScores.value && algo.anomScores.value[1] == 100.0
  {
    algo := new CustomAlgo(S1, Some(S2), Some(20.0), Some(-20.0));
    var outcome := algo.SetScores();
    FixtureScores();
  }
}
