# Diff-percent-threshold anomaly scoring (luminol `CustomAlgo`)

This project models the scoring step of luminol's "diff percent threshold"
anomaly-detection algorithm. The model follows the copy of that algorithm
that the anomaly-detector tests define as `CustomAlgo`.

The algorithm holds three things: a primary time series, a baseline time
series, and two optional percent thresholds, an upper one and a lower one.
Scoring walks the primary series in order. For each observation it does
the following:

- It reads the baseline value at the same position.
- It computes the percent difference:
  - `100 * (value - baseline) / baseline` when the baseline is positive;
  - otherwise 100 when the value is positive, and 0 when it is not.
- It stores a raw anomaly score under the observation's timestamp:
  - 0 by default;
  - the difference, when it is positive and above an enabled upper threshold;
  - the negated difference, when it is negative and below an enabled lower
    threshold.

A threshold is enabled by Python truthiness. So `None` and `0` both switch
their side off.

Layout:

- `scoring.dfy` (module `DiffPercentScoring`) holds the pure per-point
  rule. `DiffPercent` computes the difference and `Score` applies the
  thresholds. `RawScores` is the score map specified as a fold over the
  series. The lemmas about that map are here too.
- `custom_algo.dfy` (module `CustomAlgorithm`) holds the class
  `CustomAlgo`. Its fields are the ones the source sets. Its `SetScores`
  method is the scoring loop, proved equal to `RawScores`.
- `fixtures.dfy` (module `Fixtures`) holds the two nine-point series of the
  tests and the raw scores they produce.

## Model

| member | source | states |
|---|---|---|
| `DiffPercentScoring.DiffPercent` | lib/luminol/src/luminol/tests/test_anomaly_detector.py:164-169 | For a positive baseline, the result times the baseline is 100 times (value − baseline). For a non-positive baseline, it is 100 exactly when the value is positive and 0 otherwise. It is negative exactly when the value is below a positive baseline, and positive exactly when the value exceeds the baseline (or exceeds 0 when the baseline is not positive). A non-negative value never differs by less than −100. |
| `DiffPercentScoring.Score` | lib/luminol/src/luminol/tests/test_anomaly_detector.py:171-175 | The score is never negative. It is non-zero exactly when the difference crosses an enabled threshold on its own side. It equals the difference when the upper side is crossed and the negated difference when the lower side is crossed. With both thresholds disabled it is 0. |
| `DiffPercentScoring.ZeroThresholdIsAbsent` | lib/luminol/src/luminol/tests/test_anomaly_detector.py:172-174 | A threshold of 0 scores exactly like a missing (`None`) threshold, on both the upper and the lower side. |
| `DiffPercentScoring.RawScoresKeys` | lib/luminol/src/luminol/tests/test_anomaly_detector.py:159-171 | The key set of the score map equals the set of the series' timestamps, so every timestamp gets a score and nothing else does. |
| `DiffPercentScoring.RawScoresFrom` | lib/luminol/src/luminol/tests/test_anomaly_detector.py:160-175 | Every entry of the score map is the point score of some observation with that timestamp, taken against the baseline value at the observation's position. |
| `DiffPercentScoring.RawScoresLastWins` | lib/luminol/src/luminol/tests/test_anomaly_detector.py:160-175 | When no later observation carries the same timestamp, the score under the i-th timestamp is the score of the i-th value against the i-th baseline value. So the last write for a timestamp is the one that stays. |
| `DiffPercentScoring.RawScoresAt` | lib/luminol/src/luminol/tests/test_anomaly_detector.py:160-175 | When timestamps are distinct, the score under the i-th timestamp is the score of the i-th value against the i-th baseline value. |
| `DiffPercentScoring.RawScoresNonNegative` | lib/luminol/src/luminol/tests/test_anomaly_detector.py:171-175 | Every raw score in the map is non-negative. |
| `DiffPercentScoring.RawScoresNonZero` | lib/luminol/src/luminol/tests/test_anomaly_detector.py:171-175 | A non-zero raw score belongs to an observation whose difference crossed the upper threshold (the score is the difference) or crossed the lower threshold (the score is its negation). |
| `DiffPercentScoring.RawScoresAllZeroWhenDisabled` | lib/luminol/src/luminol/tests/test_anomaly_detector.py:150-175 | When both thresholds are `None` or 0, every raw score is 0. |
| `DiffPercentScoring.IntegerDiffPercent` | lib/luminol/src/luminol/tests/test_anomaly_detector.py:164-169 | The difference as Python 2 computes it on integers. For a positive baseline it is the exact difference rounded down: at most the exact value and less than 1 below it, and equal to it when the division is exact. For a non-positive baseline it equals the exact rule. |
| `DiffPercentScoring.IntegerDivisionMissesUpperThreshold` | lib/luminol/src/luminol/tests/test_anomaly_detector.py:165-173 | Value 241 against baseline 200 is 20.5 percent above. With an upper threshold of 20, the exact rule scores 20.5, but the floored difference 20 scores 0. |
| `CustomAlgorithm.CustomAlgo.constructor` | lib/luminol/src/luminol/tests/test_anomaly_detector.py:140-151 | Stores both series and both thresholds. The thresholds default to `None`. No scores exist yet. |
| `CustomAlgorithm.CustomAlgo.SetScores` | lib/luminol/src/luminol/tests/test_anomaly_detector.py:154-177 | Scoring succeeds exactly when the baseline has a value at every position of the series. On success, the stored score map is `RawScores` of the series, the baseline and the thresholds. On failure, the stored scores are unchanged and the error names the cause: there is no baseline, or the baseline has no value at position `|baseline|`. |
| `Fixtures.FixtureScores` | lib/luminol/src/luminol/tests/test_anomaly_detector.py:30-31 | Scoring s1 against s2 with thresholds 20 and −20 gives the scores 0, 100, 100, 100, 50, 100, 100, 100, 0 at timestamps 0 to 8. In particular, timestamp 1 scores 100. |
| `Fixtures.FixtureDivisionIsExact` | lib/luminol/src/luminol/tests/test_anomaly_detector.py:30-31 | On the integer fixtures, the floored and the exact differences agree at every position. |
| `Fixtures.ScoreFixtures` | lib/luminol/src/luminol/tests/test_anomaly_detector.py:39-43 | Building the algorithm on s1 and s2 with thresholds 20 and −20 and scoring it stores a map over all nine timestamps, holding the expected score at each one, with score 100 at timestamp 1. So the raw scores give the anomaly extraction something above zero. |

## Findings

| source | as written | input that shows it | evidently intended | confidence | as-written member | corrected member |
|---|---|---|---|---|---|---|
| lib/luminol/src/luminol/tests/test_anomaly_detector.py:165 | The file is Python 2 (see the `print` statement at line 152). On integer value and baseline, `100 * (value - baseline_value) / baseline_value` floors the quotient. | value 241, baseline 200, upper threshold 20: the floored difference is 20, which is not above 20, so the score is 0. | The exact percentage 20.5, as the float literals `100.0` and `0.0` in the other branches suggest. It crosses the threshold and scores 20.5. | medium, not executed | `DiffPercentScoring.IntegerDivisionMissesUpperThreshold` (on `DiffPercentScoring.IntegerDiffPercent`) | `DiffPercentScoring.DiffPercent` |

## Left out

- Denoising: the source passes the raw scores through `_denoise_scores` and wraps them in a `TimeSeries` (line 177). Neither is part of this model, so `anomScores` holds the raw scores.
- Baseline lookup: indexing a `TimeSeries` with `self.baseline_time_series[i]` (line 162) is taken to be by position. This is an assumption, because `TimeSeries` is not part of this model. A lookup by timestamp would fail on a missing timestamp rather than on a short baseline. On the fixtures, timestamps equal positions, so it would read the same values.
- Failures: the source raises when the baseline is `None` or too short. The model stops with a `Fail` outcome at the same point and leaves `anomScores` unchanged. The exception types are not modelled.
- The base-class constructor `AnomalyDetectorAlgorithm.__init__` is not part of this model. The model only keeps the two series that scoring reads.
- The `print` at line 152 is console output.
- Floating point: values and thresholds are `real`, so there is no IEEE rounding. Python 2 integer division is modelled only by `IntegerDiffPercent` (see Findings).
- `DiffPercentScoring.RawScoresAt` assumes distinct timestamps, as a `TimeSeries` built from a dictionary has. Without that assumption, `RawScoresLastWins` gives the score of the last observation carrying a timestamp, and `RawScoresFrom` says every stored score is the score of some observation with that timestamp.
- The rest of the detector: the `AnomalyDetector` orchestration, the algorithm registry, parameter validation (`RequiredParametersNotPassed`, `AlgorithmNotFound`, `ValueError`), score and percentile thresholds, and anomaly extraction. The tests use them, but their code is not part of this model.
- `lib/RCA/src/RCA/tests/run_tests.py` only asserts behaviour of code that is not part of this model.
- The unittest harness and the `sys.path` setup (lines 13-17, 131-132).
