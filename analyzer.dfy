/**
 * ClimateAnalyzer (smart-node/ml/analyzer.py): z-score anomaly detection,
 * per-sensor least-squares trends and a one-step linear prediction.
 *
 * Readings arrive as a sequence; numpy's mean, var, sum and polyfit are the
 * exact functions of module Numerics, np.std is an oracle `sqrt` applied to
 * the variance, and a float division by zero gives NaN or an infinity as
 * numpy does.
 */
module Analyzer {
  import opened Wrappers
  import opened Numerics
  import opened Domain

  /** The threshold every caller of the z-score detector passes. */
  const Threshold: real := 2.5
  const MinAnomalyReadings: nat := 10
  const MinMetricValues: nat := 3

  // ---------------------------------------------------------------------
  // Anomaly detection
  // ---------------------------------------------------------------------

  /** [r[metric] for r in readings if r[metric] is not None] */
  function Values(rs: seq<Reading>, m: Metric): (vs: seq<real>)
    ensures |vs| <= |rs|
  {
    if rs == [] then []
    else
      Values(rs[..|rs| - 1], m)
      + match Get(rs[|rs| - 1], m) case Some(v) => [v] case None => []
  }

  /** The population standard deviation, through the square-root oracle. */
  function Std(values: seq<real>, sqrt: real -> real): real
    requires |values| > 0
  {
    sqrt(Variance(values))
  }

  /** The z-score anomaly for one reading, if its value is further than threshold deviations from the mean. */
  function Flag(r: Reading, m: Metric, threshold: real, mean: real, std: real): Option<Anomaly>
    requires std != 0.0
  {
    match Get(r, m)
    case None => None
    case Some(v) =>
      var z := Abs((v - mean) / std);
      if z > threshold then Some(Anomaly(r.id, r.sensorId, m, Min(z / 5.0, 1.0), v, mean, std, z))
      else None
  }

  /** The anomalies found among rs, in input order. */
  function Flagged(rs: seq<Reading>, m: Metric, threshold: real, mean: real, std: real): seq<Anomaly>
    requires std != 0.0
  {
    if rs == [] then []
    else
      Flagged(rs[..|rs| - 1], m, threshold, mean, std)
      + match Flag(rs[|rs| - 1], m, threshold, mean, std) case Some(a) => [a] case None => []
  }

  /** _detect_zscore_anomalies(values, readings, metric, threshold) */
  function ZScoreAnomalies(values: seq<real>, rs: seq<Reading>, m: Metric, threshold: real,
                           sqrt: real -> real): seq<Anomaly>
  {
    if |values| < MinMetricValues then []
    else if Std(values, sqrt) == 0.0 then []
    else Flagged(rs, m, threshold, Mean(values), Std(values, sqrt))
  }

  method DetectZScoreAnomalies(values: seq<real>, readings: seq<Reading>, m: Metric, threshold: real,
                               sqrt: real -> real)
    returns (anomalies: seq<Anomaly>)
    ensures anomalies == ZScoreAnomalies(values, readings, m, threshold, sqrt)
  {
    anomalies := [];
    if |values| < MinMetricValues {
      return;
    }
    var mean := Mean(values);
    var std := sqrt(Variance(values));
    if std == 0.0 {
      return;
    }
    anomalies := ScanReadings(readings, m, threshold, mean, std);
  }

  /** The loop of _detect_zscore_anomalies over the readings, once mean and std are known. */
  method ScanReadings(readings: seq<Reading>, m: Metric, threshold: real, mean: real, std: real)
    returns (anomalies: seq<Anomaly>)
    requires std != 0.0
    ensures anomalies == Flagged(readings, m, threshold, mean, std)
  {
    anomalies := [];
    for i := 0 to |readings|
      invariant anomalies == Flagged(readings[..i], m, threshold, mean, std)
    {
      assert readings[..i + 1][..i] == readings[..i];
      var reading := readings[i];
      var value := Get(reading, m);
      if value.None? {
        continue;
      }
      var z := Abs((value.value - mean) / std);
      if z > threshold {
        var severity := Min(z / 5.0, 1.0);
        anomalies := anomalies + [Anomaly(reading.id, reading.sensorId, m, severity, value.value, mean, std, z)];
      }
    }
    assert readings[..|readings|] == readings;
  }

  /** The detector's contribution for one metric (the `if temps:` guard and the call). */
  function MetricAnomalies(rs: seq<Reading>, m: Metric, sqrt: real -> real): seq<Anomaly>
  {
    var vs := Values(rs, m);
    if vs != [] then ZScoreAnomalies(vs, rs, m, Threshold, sqrt) else []
  }

  /** detect_anomalies(readings) */
  function Anomalies(rs: seq<Reading>, sqrt: real -> real): seq<Anomaly>
  {
    if |rs| < MinAnomalyReadings then []
    else MetricAnomalies(rs, Temperature, sqrt) + MetricAnomalies(rs, Humidity, sqrt)
         + MetricAnomalies(rs, AirQuality, sqrt)
  }

  method DetectAnomalies(readings: seq<Reading>, sqrt: real -> real) returns (anomalies: seq<Anomaly>)
    ensures anomalies == Anomalies(readings, sqrt)
  {
    if |readings| < MinAnomalyReadings {
      return [];
    }
    anomalies := [];
    var temps := Values(readings, Temperature);
    var hums := Values(readings, Humidity);
    var aqis := Values(readings, AirQuality);
    if temps != [] {
      var found := DetectZScoreAnomalies(temps, readings, Temperature, Threshold, sqrt);
      anomalies := anomalies + found;
    }
    assert anomalies == MetricAnomalies(readings, Temperature, sqrt);
    if hums != [] {
      var found := DetectZScoreAnomalies(hums, readings, Humidity, Threshold, sqrt);
      anomalies := anomalies + found;
    }
    assert anomalies == MetricAnomalies(readings, Temperature, sqrt) + MetricAnomalies(readings, Humidity, sqrt);
    if aqis != [] {
      var found := DetectZScoreAnomalies(aqis, readings, AirQuality, Threshold, sqrt);
      anomalies := anomalies + found;
    }
  }

  // Properties of the detector.

  /** The positions of the readings that Flagged reports, in the same order. */
  ghost function Sources(rs: seq<Reading>, m: Metric, threshold: real, mean: real, std: real): seq<nat>
    requires std != 0.0
  {
    if rs == [] then []
    else
      Sources(rs[..|rs| - 1], m, threshold, mean, std)
      + if Flag(rs[|rs| - 1], m, threshold, mean, std).Some? then [|rs| - 1] else []
  }

  /**
   * f lists, in order, the anomalies of the readings of rs at the strictly
   * increasing positions s, and every flagged reading's position is in s.
   */
  ghost predicate ReportsInOrder(f: seq<Anomaly>, s: seq<nat>, rs: seq<Reading>, m: Metric, threshold: real,
                                 mean: real, std: real)
    requires std != 0.0
  {
    |s| == |f|
    && (forall k :: 0 <= k < |s| ==> s[k] < |rs| && Flag(rs[s[k]], m, threshold, mean, std) == Some(f[k]))
    && (forall k, l :: 0 <= k < l < |s| ==> s[k] < s[l])
    && (forall i :: 0 <= i < |rs| && Flag(rs[i], m, threshold, mean, std).Some? ==> i in s)
  }

  /** Flagged reports each flagged reading once, in input order. */
  lemma {:induction false} FlaggedInInputOrder(rs: seq<Reading>, m: Metric, threshold: real, mean: real, std: real)
    requires std != 0.0
    ensures ReportsInOrder(Flagged(rs, m, threshold, mean, std), Sources(rs, m, threshold, mean, std),
                           rs, m, threshold, mean, std)
  {
    if rs != [] {
      var init := rs[..|rs| - 1];
      FlaggedInInputOrder(init, m, threshold, mean, std);
      forall i | 0 <= i < |init| ensures init[i] == rs[i] { }
    }
  }

  /** An anomaly is reported exactly when some reading's value is flagged. */
  lemma {:induction false} FlaggedMembers(rs: seq<Reading>, m: Metric, threshold: real, mean: real, std: real,
                                          a: Anomaly)
    requires std != 0.0
    ensures a in Flagged(rs, m, threshold, mean, std)
            <==> exists i :: 0 <= i < |rs| && Flag(rs[i], m, threshold, mean, std) == Some(a)
  {
    if rs != [] {
      var init := rs[..|rs| - 1];
      FlaggedMembers(init, m, threshold, mean, std, a);
      if exists i :: 0 <= i < |rs| && Flag(rs[i], m, threshold, mean, std) == Some(a) {
        var i :| 0 <= i < |rs| && Flag(rs[i], m, threshold, mean, std) == Some(a);
        if i < |init| {
          assert init[i] == rs[i];
        }
      }
      if a in Flagged(init, m, threshold, mean, std) {
        var i :| 0 <= i < |init| && Flag(init[i], m, threshold, mean, std) == Some(a);
        assert init[i] == rs[i];
      }
    }
  }

  /** What a single flagged record says: its metric, its reading, its value and its score. */
  lemma FlagRecord(r: Reading, m: Metric, threshold: real, mean: real, std: real)
    requires std != 0.0
    ensures Flag(r, m, threshold, mean, std).Some?
            <==> Get(r, m).Some? && Abs((Get(r, m).value - mean) / std) > threshold
    ensures Flag(r, m, threshold, mean, std).Some? ==>
      var a := Flag(r, m, threshold, mean, std).value;
      a.readingId == r.id && a.sensorId == r.sensorId && a.metric == m
      && Get(r, m) == Some(a.value) && a.mean == mean && a.std == std
      && a.zScore == Abs((a.value - mean) / std) && a.zScore > threshold
      && a.severity == Min(a.zScore / 5.0, 1.0)
  {
  }

  /** With the threshold at 2.5, every severity lies in (0.5, 1]. */
  lemma SeverityBounds(z: real)
    requires z > Threshold
    ensures 0.5 < Min(z / 5.0, 1.0) <= 1.0
  {
  }

  /** Values lists exactly the non-null values of the metric, in input order. */
  lemma {:induction false} ValuesMembers(rs: seq<Reading>, m: Metric)
    ensures forall v :: v in Values(rs, m) <==> exists i :: 0 <= i < |rs| && Get(rs[i], m) == Some(v)
    ensures Values(rs, m) == [] <==> forall i :: 0 <= i < |rs| ==> Get(rs[i], m).None?
  {
    if rs != [] {
      var init := rs[..|rs| - 1];
      ValuesMembers(init, m);
      forall i | 0 <= i < |init| ensures init[i] == rs[i] { }
    }
  }

  /** The gates of detect_anomalies and _detect_zscore_anomalies, for one metric. */
  predicate MetricGatesPass(rs: seq<Reading>, m: Metric, sqrt: real -> real)
  {
    |rs| >= MinAnomalyReadings && |Values(rs, m)| >= MinMetricValues && Std(Values(rs, m), sqrt) != 0.0
  }

  /** Membership in one metric's contribution. */
  lemma {:induction false} MetricAnomalyMembers(rs: seq<Reading>, m: Metric, sqrt: real -> real, a: Anomaly)
    ensures a in MetricAnomalies(rs, m, sqrt) <==>
      |Values(rs, m)| >= MinMetricValues && Std(Values(rs, m), sqrt) != 0.0
      && exists i :: 0 <= i < |rs| && Flag(rs[i], m, Threshold, Mean(Values(rs, m)), Std(Values(rs, m), sqrt)) == Some(a)
  {
    var vs := Values(rs, m);
    if |vs| >= MinMetricValues && Std(vs, sqrt) != 0.0 {
      FlaggedMembers(rs, m, Threshold, Mean(vs), Std(vs, sqrt), a);
    }
  }

  /**
   * Soundness and completeness of detect_anomalies: an anomaly is reported
   * exactly when the gates for its metric pass and some reading's value of
   * that metric lies more than 2.5 standard deviations from the mean.
   */
  lemma {:induction false} AnomalyMembers(rs: seq<Reading>, sqrt: real -> real, a: Anomaly)
    ensures a in Anomalies(rs, sqrt) <==>
      MetricGatesPass(rs, a.metric, sqrt)
      && (exists i :: 0 <= i < |rs| &&
            Flag(rs[i], a.metric, Threshold, Mean(Values(rs, a.metric)), Std(Values(rs, a.metric), sqrt)) == Some(a))
  {
    forall m: Metric | a in MetricAnomalies(rs, m, sqrt) ensures m == a.metric {
      var vs := Values(rs, m);
      MetricAnomalyMembers(rs, m, sqrt, a);
      var i :| 0 <= i < |rs| && Flag(rs[i], m, Threshold, Mean(vs), Std(vs, sqrt)) == Some(a);
      FlagRecord(rs[i], m, Threshold, Mean(vs), Std(vs, sqrt));
    }
    MetricAnomalyMembers(rs, a.metric, sqrt, a);
  }

  /** Every record of s is about metric m. */
  predicate OfMetric(s: seq<Anomaly>, m: Metric)
  {
    forall a :: a in s ==> a.metric == m
  }

  /** Every anomaly of one metric's contribution carries that metric. */
  lemma {:induction false} MetricAnomaliesCarryMetric(rs: seq<Reading>, m: Metric, sqrt: real -> real)
    ensures OfMetric(MetricAnomalies(rs, m, sqrt), m)
  {
    forall a | a in MetricAnomalies(rs, m, sqrt) ensures a.metric == m {
      var vs := Values(rs, m);
      MetricAnomalyMembers(rs, m, sqrt, a);
      var i :| 0 <= i < |rs| && Flag(rs[i], m, Threshold, Mean(vs), Std(vs, sqrt)) == Some(a);
      FlagRecord(rs[i], m, Threshold, Mean(vs), Std(vs, sqrt));
    }
  }

  /** The output lists the temperature anomalies first, then humidity, then air quality. */
  predicate InMetricOrder(out: seq<Anomaly>)
  {
    forall j, k :: 0 <= j < k < |out| ==> Rank(out[j].metric) <= Rank(out[k].metric)
  }

  /** No two records of s are about the same reading. */
  predicate DistinctReadingIds(s: seq<Anomaly>)
  {
    forall j, k :: 0 <= j < k < |s| ==> s[j].readingId != s[k].readingId
  }

  /** No two records of s are about the same reading and the same metric. */
  predicate OnePerReadingAndMetric(s: seq<Anomaly>)
  {
    forall j, k :: 0 <= j < k < |s| ==> s[j].readingId != s[k].readingId || s[j].metric != s[k].metric
  }

  /** The shape of a temperature block followed by a humidity block and an air-quality block. */
  lemma {:induction false} MetricBlocks(t: seq<Anomaly>, h: seq<Anomaly>, q: seq<Anomaly>)
    requires OfMetric(t, Temperature) && OfMetric(h, Humidity) && OfMetric(q, AirQuality)
    ensures InMetricOrder(t + h + q)
    ensures DistinctReadingIds(t) && DistinctReadingIds(h) && DistinctReadingIds(q) ==>
            OnePerReadingAndMetric(t + h + q)
  {
    var out := t + h + q;
    var block := (i: int) => if i < |t| then 0 else if i < |t| + |h| then 1 else 2;
    forall i | 0 <= i < |out|
      ensures Rank(out[i].metric) == block(i)
      ensures block(i) == 0 ==> out[i] == t[i]
      ensures block(i) == 1 ==> out[i] == h[i - |t|]
      ensures block(i) == 2 ==> out[i] == q[i - |t| - |h|]
    {
      if i < |t| {
        assert out[i] == t[i];
      } else if i < |t| + |h| {
        assert out[i] == h[i - |t|];
      } else {
        assert out[i] == q[i - |t| - |h|];
      }
    }
    if DistinctReadingIds(t) && DistinctReadingIds(h) && DistinctReadingIds(q) {
      forall j, k | 0 <= j < k < |out| && out[j].metric == out[k].metric
        ensures out[j].readingId != out[k].readingId
      {
        assert block(j) == block(k);
      }
    }
  }

  lemma {:induction false} AnomaliesInMetricOrder(rs: seq<Reading>, sqrt: real -> real)
    ensures InMetricOrder(Anomalies(rs, sqrt))
  {
    if |rs| >= MinAnomalyReadings {
      MetricAnomaliesCarryMetric(rs, Temperature, sqrt);
      MetricAnomaliesCarryMetric(rs, Humidity, sqrt);
      MetricAnomaliesCarryMetric(rs, AirQuality, sqrt);
      MetricBlocks(MetricAnomalies(rs, Temperature, sqrt), MetricAnomalies(rs, Humidity, sqrt),
                   MetricAnomalies(rs, AirQuality, sqrt));
    }
  }

  /** Every reported record passes the z-score test with 2.5 and has severity min(z/5, 1) in (0.5, 1]. */
  lemma {:induction false} AnomalySeverities(rs: seq<Reading>, sqrt: real -> real)
    ensures forall a :: a in Anomalies(rs, sqrt) ==>
      a.zScore > Threshold && a.severity == Min(a.zScore / 5.0, 1.0) && 0.5 < a.severity <= 1.0
  {
    forall a | a in Anomalies(rs, sqrt)
      ensures a.zScore > Threshold && a.severity == Min(a.zScore / 5.0, 1.0) && 0.5 < a.severity <= 1.0
    {
      AnomalyMembers(rs, sqrt, a);
      var vs := Values(rs, a.metric);
      var i :| 0 <= i < |rs| && Flag(rs[i], a.metric, Threshold, Mean(vs), Std(vs, sqrt)) == Some(a);
      FlagRecord(rs[i], a.metric, Threshold, Mean(vs), Std(vs, sqrt));
      SeverityBounds(a.zScore);
    }
  }

  /** Stored readings have distinct row ids. */
  predicate DistinctIds(rs: seq<Reading>)
  {
    forall i, j :: 0 <= i < j < |rs| ==> rs[i].id != rs[j].id
  }

  /** Within one metric, the reported anomalies are for distinct readings. */
  lemma {:induction false} FlaggedDistinctReadings(rs: seq<Reading>, m: Metric, threshold: real, mean: real, std: real)
    requires std != 0.0 && DistinctIds(rs)
    ensures DistinctReadingIds(Flagged(rs, m, threshold, mean, std))
  {
    var f, s := Flagged(rs, m, threshold, mean, std), Sources(rs, m, threshold, mean, std);
    FlaggedInInputOrder(rs, m, threshold, mean, std);
    forall j, k | 0 <= j < k < |f| ensures f[j].readingId != f[k].readingId {
      FlagRecord(rs[s[j]], m, threshold, mean, std);
      FlagRecord(rs[s[k]], m, threshold, mean, std);
    }
  }

  /** At most one anomaly per (reading, metric) pair, given distinct reading ids. */
  lemma {:induction false} AtMostOnePerReadingAndMetric(rs: seq<Reading>, sqrt: real -> real)
    requires DistinctIds(rs)
    ensures OnePerReadingAndMetric(Anomalies(rs, sqrt))
  {
    if |rs| >= MinAnomalyReadings {
      MetricAnomaliesCarryMetric(rs, Temperature, sqrt);
      MetricAnomaliesCarryMetric(rs, Humidity, sqrt);
      MetricAnomaliesCarryMetric(rs, AirQuality, sqrt);
      MetricDistinct(rs, Temperature, sqrt);
      MetricDistinct(rs, Humidity, sqrt);
      MetricDistinct(rs, AirQuality, sqrt);
      MetricBlocks(MetricAnomalies(rs, Temperature, sqrt), MetricAnomalies(rs, Humidity, sqrt),
                   MetricAnomalies(rs, AirQuality, sqrt));
    }
  }

  lemma {:induction false} MetricDistinct(rs: seq<Reading>, m: Metric, sqrt: real -> real)
    requires DistinctIds(rs)
    ensures DistinctReadingIds(MetricAnomalies(rs, m, sqrt))
  {
    var vs := Values(rs, m);
    if |vs| >= MinMetricValues && Std(vs, sqrt) != 0.0 {
      FlaggedDistinctReadings(rs, m, Threshold, Mean(vs), Std(vs, sqrt));
      assert MetricAnomalies(rs, m, sqrt) == Flagged(rs, m, Threshold, Mean(vs), Std(vs, sqrt));
    } else {
      assert MetricAnomalies(rs, m, sqrt) == [];
    }
  }

  /** With an exact square root, the standard deviation is zero exactly for a constant series. */
  lemma {:induction false} StdZeroIffConstant(values: seq<real>, sqrt: real -> real)
    requires IsSqrt(sqrt) && |values| > 0
    ensures Std(values, sqrt) >= 0.0
    ensures Std(values, sqrt) == 0.0 <==> Constant(values)
  {
    var v := Variance(values);
    VarianceZeroIffConstant(values);
    assert Square(sqrt(v)) == v;
    SquareFacts(sqrt(v));
  }

  /** A metric whose non-null values are all equal contributes no anomalies. */
  lemma {:induction false} FlatMetricHasNoAnomalies(rs: seq<Reading>, m: Metric, sqrt: real -> real)
    requires IsSqrt(sqrt) && Constant(Values(rs, m))
    ensures forall a :: a in Anomalies(rs, sqrt) ==> a.metric != m
  {
    forall a | a in Anomalies(rs, sqrt) ensures a.metric != m {
      AnomalyMembers(rs, sqrt, a);
      if a.metric == m {
        StdZeroIffConstant(Values(rs, m), sqrt);
      }
    }
  }

  /**
   * With an exact square root and a non-constant metric, a reading's value is
   * reported exactly when its squared deviation exceeds 6.25 times the variance.
   */
  lemma {:induction false} FlaggedIffSquaredDeviation(values: seq<real>, r: Reading, m: Metric, sqrt: real -> real)
    requires IsSqrt(sqrt) && |values| > 0 && !Constant(values) && Get(r, m).Some?
    ensures Std(values, sqrt) > 0.0
    ensures Flag(r, m, Threshold, Mean(values), Std(values, sqrt)).Some?
            <==> Square(Get(r, m).value - Mean(values)) > 6.25 * Variance(values)
  {
    VarianceZeroIffConstant(values);
    ScoreIffSquare(Get(r, m).value - Mean(values), Variance(values), Threshold, sqrt);
    assert Mul(Square(Threshold), Variance(values)) == 6.25 * Variance(values);
  }
}
