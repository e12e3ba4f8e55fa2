/**
 * The per-point rule of the "diff percent threshold" anomaly-scoring
 * algorithm of luminol, as copied into the `CustomAlgo` test algorithm:
 * every observation of the primary time series is compared with the
 * baseline observation at the same position, the difference is expressed
 * as a percentage of the baseline, and a raw anomaly score is emitted when
 * that percentage crosses an enabled upper or lower threshold.
 *
 * Values are modelled as `real`; the Python 2 integer division the source
 * performs on all-integer input is modelled separately (IntegerDiffPercent).
 */
module DiffPercentScoring {

  datatype Option<+T> = None | Some(value: T)

  /** A time series as ordered (timestamp, value) pairs. */
  type Series = seq<(int, real)>

  /** The set of timestamps of a series. */
  function Timestamps(s: Series): set<int> {
    set i | 0 <= i < |s| :: s[i].0
  }

  /** No timestamp occurs twice (a TimeSeries is built from a dictionary). */
  predicate DistinctTimestamps(s: Series) {
    forall i, j :: 0 <= i < j < |s| ==> s[i].0 != s[j].0
  }

  /**
   * A threshold switches its side on by Python truthiness: `None` and a
   * threshold equal to zero are both false.
   */
  predicate Enabled(threshold: Option<real>) {
    threshold.Some? && threshold.value != 0.0
  }

  /**
   * Percent difference of `value` from `baseline`. A positive baseline gives
   * the relative difference in percent; a non-positive baseline gives 100
   * when the value is positive and 0 otherwise.
   */
  function DiffPercent(value: real, baseline: real): (r: real)
    ensures baseline > 0.0 ==> r * baseline == 100.0 * (value - baseline)
    ensures baseline <= 0.0 ==> (r == 100.0 <==> value > 0.0) && (r == 0.0 <==> value <= 0.0)
    ensures r < 0.0 <==> 0.0 < baseline && value < baseline
    ensures r > 0.0 <==> if baseline > 0.0 then value > baseline else value > 0.0
    ensures value >= 0.0 ==> r >= -100.0
  {
    if baseline > 0.0 then
      100.0 * (value - baseline) / baseline
    else if value > 0.0 then
      100.0
    else
      0.0
  }

  /** The difference is positive and above an enabled upper threshold. */
  predicate UpperCrossed(diff: real, upper: Option<real>) {
    Enabled(upper) && diff > 0.0 && diff > upper.value
  }

  /** The difference is negative and below an enabled lower threshold. */
  predicate LowerCrossed(diff: real, lower: Option<real>) {
    Enabled(lower) && diff < 0.0 && diff < lower.value
  }

  /**
   * Raw anomaly score of one percent difference: the difference itself when
   * it crosses the upper threshold, its negation when it crosses the lower
   * one, and 0 otherwise.
   */
  function Score(diff: real, upper: Option<real>, lower: Option<real>): (r: real)
    ensures r >= 0.0
    ensures r != 0.0 <==> UpperCrossed(diff, upper) || LowerCrossed(diff, lower)
    ensures UpperCrossed(diff, upper) ==> r == diff
    ensures LowerCrossed(diff, lower) ==> r == -diff
    ensures !Enabled(upper) && !Enabled(lower) ==> r == 0.0
  {
    if LowerCrossed(diff, lower) then -1.0 * diff
    else if UpperCrossed(diff, upper) then diff
    else 0.0
  }

  /** Raw anomaly score of one observation against its baseline value. */
  function PointScore(value: real, baseline: real, upper: Option<real>, lower: Option<real>): real {
    Score(DiffPercent(value, baseline), upper, lower)
  }

  /**
   * The score map the scoring loop builds: the observations are visited in
   * order and each one writes its score under its timestamp. The baseline is
   * read by position, so it must be at least as long as the series.
   */
  function RawScores(s: Series, b: Series, upper: Option<real>, lower: Option<real>): map<int, real>
    requires |s| <= |b|
    decreases |s|
  {
    if |s| == 0 then map[]
    else
      var n := |s| - 1;
      RawScores(s[..n], b, upper, lower)[s[n].0 := PointScore(s[n].1, b[n].1, upper, lower)]
  }

  /** Every timestamp of the series gets exactly one score, and nothing else does. */
  lemma {:induction false} RawScoresKeys(s: Series, b: Series, upper: Option<real>, lower: Option<real>)
    requires |s| <= |b|
    ensures RawScores(s, b, upper, lower).Keys == Timestamps(s)
  {
    if |s| > 0 {
      var n := |s| - 1;
      RawScoresKeys(s[..n], b, upper, lower);
      forall t | t in Timestamps(s) ensures t in Timestamps(s[..n]) + {s[n].0} {
        var i :| 0 <= i < |s| && s[i].0 == t;
        if i < n {
          assert s[..n][i] == s[i];
        }
      }
      forall t | t in Timestamps(s[..n]) ensures t in Timestamps(s) {
        var i :| 0 <= i < n && s[..n][i].0 == t;
        assert s[i] == s[..n][i];
      }
    }
  }

  /** Every score in the map is the score of some observation carrying that timestamp. */
  lemma {:induction false} RawScoresFrom(s: Series, b: Series, upper: Option<real>, lower: Option<real>, t: int)
    requires |s| <= |b|
    requires t in RawScores(s, b, upper, lower)
    ensures exists i :: 0 <= i < |s| && s[i].0 == t &&
              RawScores(s, b, upper, lower)[t] == PointScore(s[i].1, b[i].1, upper, lower)
  {
    var n := |s| - 1;
    if s[n].0 != t {
      RawScoresFrom(s[..n], b, upper, lower, t);
      var i :| 0 <= i < n && s[..n][i].0 == t &&
               RawScores(s[..n], b, upper, lower)[t] == PointScore(s[..n][i].1, b[i].1, upper, lower);
      assert s[..n][i] == s[i];
    }
  }

  /**
   * Later writes overwrite earlier ones: the score stored under the i-th
   * timestamp is the score of the i-th observation whenever no later
   * observation carries the same timestamp.
   */
  lemma {:induction false} RawScoresLastWins(s: Series, b: Series, upper: Option<real>, lower: Option<real>, i: nat)
    requires |s| <= |b| && i < |s|
    requires forall j :: i < j < |s| ==> s[j].0 != s[i].0
    ensures s[i].0 in RawScores(s, b, upper, lower)
    ensures RawScores(s, b, upper, lower)[s[i].0] == PointScore(s[i].1, b[i].1, upper, lower)
  {
    var n := |s| - 1;
    if i < n {
      assert s[..n][i] == s[i];
      forall j | i < j < n ensures s[..n][j].0 != s[..n][i].0 {
        assert s[..n][j] == s[j];
      }
      RawScoresLastWins(s[..n], b, upper, lower, i);
    }
  }

  /**
   * With distinct timestamps, the score stored under the i-th timestamp is
   * the score of the i-th observation against the i-th baseline value.
   */
  lemma {:induction false} RawScoresAt(s: Series, b: Series, upper: Option<real>, lower: Option<real>, i: nat)
    requires |s| <= |b| && DistinctTimestamps(s) && i < |s|
    ensures s[i].0 in RawScores(s, b, upper, lower)
    ensures RawScores(s, b, upper, lower)[s[i].0] == PointScore(s[i].1, b[i].1, upper, lower)
  {
    RawScoresLastWins(s, b, upper, lower, i);
  }

  /** Every raw score is non-negative. */
  lemma {:induction false} RawScoresNonNegative(s: Series, b: Series, upper: Option<real>, lower: Option<real>)
    requires |s| <= |b|
    ensures forall t :: t in RawScores(s, b, upper, lower) ==> RawScores(s, b, upper, lower)[t] >= 0.0
  {
    forall t | t in RawScores(s, b, upper, lower) ensures RawScores(s, b, upper, lower)[t] >= 0.0 {
      RawScoresFrom(s, b, upper, lower, t);
    }
  }

  /**
   * A non-zero raw score is the absolute percent difference of an
   * observation that crossed the threshold on its own side.
   */
  lemma {:induction false} RawScoresNonZero(s: Series, b: Series, upper: Option<real>, lower: Option<real>, t: int)
    requires |s| <= |b|
    requires t in RawScores(s, b, upper, lower) && RawScores(s, b, upper, lower)[t] != 0.0
    ensures exists i :: 0 <= i < |s| && s[i].0 == t &&
              ((UpperCrossed(DiffPercent(s[i].1, b[i].1), upper) &&
                RawScores(s, b, upper, lower)[t] == DiffPercent(s[i].1, b[i].1)) ||
               (LowerCrossed(DiffPercent(s[i].1, b[i].1), lower) &&
                RawScores(s, b, upper, lower)[t] == -DiffPercent(s[i].1, b[i].1)))
  {
    RawScoresFrom(s, b, upper, lower, t);
  }

  /** With both thresholds disabled (None or 0) every raw score is 0. */
  lemma {:induction false} RawScoresAllZeroWhenDisabled(s: Series, b: Series, upper: Option<real>, lower: Option<real>)
    requires |s| <= |b|
    requires !Enabled(upper) && !Enabled(lower)
    ensures forall t :: t in RawScores(s, b, upper, lower) ==> RawScores(s, b, upper, lower)[t] == 0.0
  {
    forall t | t in RawScores(s, b, upper, lower) ensures RawScores(s, b, upper, lower)[t] == 0.0 {
      RawScoresFrom(s, b, upper, lower, t);
    }
  }

  /** A zero threshold is indistinguishable from an absent one, on either side. */
  lemma ZeroThresholdIsAbsent(diff: real, upper: Option<real>, lower: Option<real>)
    ensures Score(diff, Some(0.0), lower) == Score(diff, None, lower)
    ensures Score(diff, upper, Some(0.0)) == Score(diff, upper, None)
  {
  }

  /**
   * Percent difference as Python 2 computes it when value and baseline are
   * both integers: `/` then floors the quotient. For a positive divisor,
   * Dafny's Euclidean `/` on `int` is the same floor division.
   */
  function IntegerDiffPercent(value: int, baseline: int): (r: real)
    ensures baseline > 0 ==> r <= DiffPercent(value as real, baseline as real) < r + 1.0
    ensures baseline > 0 && (100 * (value - baseline)) % baseline == 0 ==>
              r == DiffPercent(value as real, baseline as real)
    ensures baseline <= 0 ==> r == DiffPercent(value as real, baseline as real)
  {
    if baseline > 0 then
      var n := 100 * (value - baseline);
      FloorDivision(n, baseline);
      (n / baseline) as real
    else if value > 0 then
      100.0
    else
      0.0
  }

  /** Integer floor division against exact division, for a positive divisor. */
  lemma FloorDivision(n: int, d: int)
    requires d > 0
    ensures (n / d) as real <= n as real / d as real < (n / d) as real + 1.0
    ensures n % d == 0 ==> (n / d) as real == n as real / d as real
  {
    var q, m := n / d, n % d;
    assert n == q * d + m && 0 <= m < d;
    assert n as real == (q as real) * (d as real) + m as real;
    assert n as real / d as real == q as real + m as real / d as real;
    assert 0.0 <= m as real / d as real < 1.0;
  }

  /**
   * The floored difference can fall back onto an upper threshold that the
   * exact difference crosses: value 241 against baseline 200 is 20.5 percent
   * above, which scores 20.5 with an upper threshold of 20, while the floored
   * difference 20 scores 0.
   */
  lemma IntegerDivisionMissesUpperThreshold()
    ensures IntegerDiffPercent(241, 200) == 20.0
    ensures Score(IntegerDiffPercent(241, 200), Some(20.0), None) == 0.0
    ensures DiffPercent(241.0, 200.0) == 20.5
    ensures Score(DiffPercent(241.0, 200.0), Some(20.0), None) == 20.5
  {
    assert 100 * (241 - 200) / 200 == 20;
  }
}
