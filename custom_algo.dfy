/**
 * The `CustomAlgo` anomaly-detector algorithm: an object holding the
 * primary series, the baseline series and the two percent thresholds, whose
 * scoring step walks the primary series once and stores a raw score per
 * timestamp in its `anomScores` field.
 */
module CustomAlgorithm {
  import opened DiffPercentScoring

  /** Why scoring stops before it has filled the score map. */
  datatype ScoreError =
    | NoBaseline                       // the baseline series is None
    | BaselineTooShort(index: nat)     // no baseline value at this position

  datatype Outcome = Pass | Fail(error: ScoreError)

  /** The baseline values the scoring loop can read; none when there is no baseline. */
  function BaselineOrEmpty(baseline: Option<Series>): Series {
    if baseline.Some? then baseline.value else []
  }

  class CustomAlgo {
    var timeSeries: Series
    var baselineTimeSeries: Option<Series>
    var percentThresholdUpper: Option<real>
    var percentThresholdLower: Option<real>
    /** Raw scores per timestamp; None until scoring has succeeded. */
    var anomScores: Option<map<int, real>>

    constructor (timeSeries: Series, baselineTimeSeries: Option<Series>,
                 percentThresholdUpper: Option<real> := None, percentThresholdLower: Option<real> := None)
      ensures this.timeSeries == timeSeries && this.baselineTimeSeries == baselineTimeSeries
      ensures this.percentThresholdUpper == percentThresholdUpper
      ensures this.percentThresholdLower == percentThresholdLower
      ensures anomScores == None
    {
      this.timeSeries := timeSeries;
      this.baselineTimeSeries := baselineTimeSeries;
      this.percentThresholdUpper := percentThresholdUpper;
      this.percentThresholdLower := percentThresholdLower;
      anomScores := None;
    }

    /**
     * Scores every observation against the baseline value at the same
     * position. Fails, leaving `anomScores` as it was, at the first position
     * the baseline cannot supply.
     */
    method SetScores() returns (outcome: Outcome)
      modifies this`anomScores
      ensures outcome == Pass <==> |timeSeries| <= |BaselineOrEmpty(baselineTimeSeries)|
      ensures outcome == Pass ==>
                anomScores == Some(RawScores(timeSeries, BaselineOrEmpty(baselineTimeSeries),
                                             percentThresholdUpper, percentThresholdLower))
      ensures outcome != Pass ==> anomScores == old(anomScores)
      ensures outcome != Pass ==>
                outcome.error == if baselineTimeSeries.None? then NoBaseline
                                 else BaselineTooShort(|baselineTimeSeries.value|)
    {
      var scores: map<int, real> := map[];
      var baseline := BaselineOrEmpty(baselineTimeSeries);
      var i := 0;
      while i < |timeSeries|
        invariant 0 <= i <= |timeSeries| && i <= |baseline|
        invariant scores == RawScores(timeSeries[..i], baseline, percentThresholdUpper, percentThresholdLower)
      {
        if baselineTimeSeries.None? {
          return Fail(NoBaseline);
        }
        if i >= |baseline| {
          return Fail(BaselineTooShort(i));
        }
        var (timestamp, value) := timeSeries[i];
        var baselineValue := baseline[i].1;
        var diffPercent := DiffPercent(value, baselineValue);
        scores := scores[timestamp := 0.0];
        if UpperCrossed(diffPercent, percentThresholdUpper) {
          scores := scores[timestamp := diffPercent];
        }
        if LowerCrossed(diffPercent, percentThresholdLower) {
          scores := scores[timestamp := -1.0 * diffPercent];
        }
        assert timeSeries[..i + 1][..i] == timeSeries[..i];
        i := i + 1;
      }
      assert timeSeries[..i] == timeSeries;
      anomScores := Some(scores);
      return Pass;
    }
  }
}
