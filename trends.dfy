/**
 * The trend half of ClimateAnalyzer (smart-node/ml/analyzer.py):
 * analyze_trends, _calculate_trend and predict_next_value.
 *
 * Timestamps are seconds on a common clock; the abscissae are hours since
 * the first valid reading. The slope is the closed least-squares form; its
 * division is a float64 division, which numpy answers with NaN or an
 * infinity when the divisor is zero.
 */
module Trends {
  import opened Wrappers
  import opened Numerics
  import opened Domain
  import opened Analyzer

  const MinTrendReadings: nat := 5
  const MinTrendPoints: nat := 3
  /** Slopes strictly inside (-StableBand, StableBand) count as stable. */
  const StableBand: real := 0.01
  const SecondsPerHour: real := 3600.0
  const PredictionWindow: nat := 10

  // ---------------------------------------------------------------------
  // Grouping by sensor
  // ---------------------------------------------------------------------

  /** The key order of the `sensors` dict: each sensor id once, in order of first appearance. */
  function SensorOrder(rs: seq<Reading>): seq<string>
  {
    if rs == [] then []
    else
      var ids := SensorOrder(rs[..|rs| - 1]);
      if rs[|rs| - 1].sensorId in ids then ids else ids + [rs[|rs| - 1].sensorId]
  }

  /** sensors[sid]: the readings of one sensor, in input order. */
  function Group(rs: seq<Reading>, sid: string): seq<Reading>
  {
    if rs == [] then []
    else Group(rs[..|rs| - 1], sid) + if rs[|rs| - 1].sensorId == sid then [rs[|rs| - 1]] else []
  }

  /** SensorOrder lists every sensor id of rs, and only those, each once. */
  lemma {:induction false} SensorOrderMembers(rs: seq<Reading>)
    ensures forall sid :: sid in SensorOrder(rs) <==> exists i :: 0 <= i < |rs| && rs[i].sensorId == sid
    ensures forall j, k :: 0 <= j < k < |SensorOrder(rs)| ==> SensorOrder(rs)[j] != SensorOrder(rs)[k]
  {
    if rs != [] {
      var init := rs[..|rs| - 1];
      SensorOrderMembers(init);
      forall i | 0 <= i < |init| ensures init[i] == rs[i] { }
    }
  }

  /** Some reading before position i comes from sensor sid. */
  predicate SeenBefore(rs: seq<Reading>, i: int, sid: string)
    requires i <= |rs|
  {
    exists i' :: 0 <= i' < i && rs[i'].sensorId == sid
  }

  /**
   * SensorOrder is the order of first appearance: every reading of a later
   * id is preceded by a reading of each earlier id.
   */
  lemma {:induction false} SensorOrderFirstAppearance(rs: seq<Reading>)
    ensures forall j, k, i :: 0 <= j < k < |SensorOrder(rs)| && 0 <= i < |rs| && rs[i].sensorId == SensorOrder(rs)[k]
              ==> SeenBefore(rs, i, SensorOrder(rs)[j])
  {
    if rs != [] {
      var init := rs[..|rs| - 1];
      SensorOrderFirstAppearance(init);
      SensorOrderMembers(init);
      var ids := SensorOrder(init);
      forall j, k, i | 0 <= j < k < |SensorOrder(rs)| && 0 <= i < |rs| && rs[i].sensorId == SensorOrder(rs)[k]
        ensures SeenBefore(rs, i, SensorOrder(rs)[j])
      {
        assert SensorOrder(rs)[j] == ids[j];
        if i == |rs| - 1 {
          assert ids[j] in ids;
          var i' :| 0 <= i' < |init| && init[i'].sensorId == ids[j];
          assert rs[i'].sensorId == ids[j];
        } else {
          assert init[i] == rs[i];
          assert init[i].sensorId in ids;
          assert k < |ids|;
          assert SeenBefore(init, i, ids[j]);
          var i' :| 0 <= i' < i && init[i'].sensorId == ids[j];
          assert rs[i'] == init[i'];
        }
      }
    }
  }

  /** A group holds exactly the readings of its sensor, in input order. */
  lemma {:induction false} GroupMembers(rs: seq<Reading>, sid: string)
    ensures forall r :: r in Group(rs, sid) <==> r in rs && r.sensorId == sid
    ensures |Group(rs, sid)| <= |rs|
    ensures Group(rs, sid) != [] <==> sid in SensorOrder(rs)
  {
    if rs != [] {
      var init := rs[..|rs| - 1];
      GroupMembers(init, sid);
      assert rs == init + [rs[|rs| - 1]];
    }
  }

  /** The loop of analyze_trends that builds the `sensors` dict. */
  method GroupBySensor(readings: seq<Reading>) returns (order: seq<string>, sensors: map<string, seq<Reading>>)
    ensures order == SensorOrder(readings)
    ensures forall sid :: sid in sensors <==> sid in order
    ensures forall sid :: sid in sensors ==> sensors[sid] == Group(readings, sid)
  {
    order := [];
    sensors := map[];
    for i := 0 to |readings|
      invariant order == SensorOrder(readings[..i])
      invariant forall sid :: sid in sensors <==> sid in order
      invariant forall sid :: sid in sensors ==> sensors[sid] == Group(readings[..i], sid)
    {
      assert readings[..i + 1][..i] == readings[..i];
      var sid := readings[i].sensorId;
      if sid !in sensors {
        GroupMembers(readings[..i], sid);
        order := order + [sid];
        sensors := sensors[sid := []];
      }
      sensors := sensors[sid := sensors[sid] + [readings[i]]];
      forall s | s in sensors ensures sensors[s] == Group(readings[..i + 1], s) {
        assert Group(readings[..i + 1], s)
            == Group(readings[..i], s) + if readings[i].sensorId == s then [readings[i]] else [];
      }
    }
    assert readings[..|readings|] == readings;
  }

  // ---------------------------------------------------------------------
  // Sorting by timestamp
  // ---------------------------------------------------------------------

  predicate SortedByTime(s: seq<Reading>)
  {
    forall j, k :: 0 <= j < k < |s| ==> s[j].timestamp <= s[k].timestamp
  }

  /** Inserts r before the first reading that is not earlier than it. */
  function Insert(r: Reading, s: seq<Reading>): seq<Reading>
  {
    if s == [] then [r]
    else if r.timestamp <= s[0].timestamp then [r] + s
    else [s[0]] + Insert(r, s[1..])
  }

  /**
   * list.sort(key=timestamp): a stable sort, here an insertion sort placing
   * each reading before the later ones, so equal timestamps keep their order.
   */
  function SortByTime(s: seq<Reading>): seq<Reading>
  {
    if s == [] then [] else Insert(s[0], SortByTime(s[1..]))
  }

  lemma {:induction false} InsertMembers(r: Reading, s: seq<Reading>)
    ensures forall x :: x in Insert(r, s) <==> x == r || x in s
    ensures multiset(Insert(r, s)) == multiset(s) + multiset{r}
    ensures |Insert(r, s)| == |s| + 1
  {
    if s != [] && r.timestamp > s[0].timestamp {
      InsertMembers(r, s[1..]);
      assert s == [s[0]] + s[1..];
    }
  }

  lemma {:induction false} InsertSorted(r: Reading, s: seq<Reading>)
    requires SortedByTime(s)
    ensures SortedByTime(Insert(r, s))
  {
    if s != [] && r.timestamp > s[0].timestamp {
      var t := s[1..];
      assert SortedByTime(t) by {
        forall j, k | 0 <= j < k < |t| ensures t[j].timestamp <= t[k].timestamp {
          assert t[j] == s[j + 1] && t[k] == s[k + 1];
        }
      }
      InsertSorted(r, t);
      InsertMembers(r, t);
      var u := Insert(r, t);
      assert forall k :: 0 <= k < |u| ==> s[0].timestamp <= u[k].timestamp by {
        forall k | 0 <= k < |u| ensures s[0].timestamp <= u[k].timestamp {
          assert u[k] in u;
          if u[k] != r {
            var i :| 0 <= i < |t| && t[i] == u[k];
            assert s[i + 1] == u[k];
          }
        }
      }
      PrependSorted(s[0], u);
    }
  }

  lemma {:induction false} PrependSorted(a: Reading, u: seq<Reading>)
    requires SortedByTime(u) && forall k :: 0 <= k < |u| ==> a.timestamp <= u[k].timestamp
    ensures SortedByTime([a] + u)
  {
    var w := [a] + u;
    forall j, k | 0 <= j < k < |w| ensures w[j].timestamp <= w[k].timestamp {
      assert w[k] == u[k - 1];
      if j > 0 {
        assert w[j] == u[j - 1];
      }
    }
  }

  /** The sort orders by timestamp. */
  lemma {:induction false} SortByTimeSorted(s: seq<Reading>)
    ensures SortedByTime(SortByTime(s))
  {
    if s != [] {
      SortByTimeSorted(s[1..]);
      InsertSorted(s[0], SortByTime(s[1..]));
    }
  }

  /** The sort is a permutation of its input. */
  lemma {:induction false} SortByTimePermutes(s: seq<Reading>)
    ensures multiset(SortByTime(s)) == multiset(s)
    ensures |SortByTime(s)| == |s|
  {
    if s != [] {
      SortByTimePermutes(s[1..]);
      InsertMembers(s[0], SortByTime(s[1..]));
      assert s == [s[0]] + s[1..];
    }
  }

  // ---------------------------------------------------------------------
  // One trend (_calculate_trend)
  // ---------------------------------------------------------------------

  /** [r for r in readings if r.get(metric) is not None] */
  function Valid(rs: seq<Reading>, m: Metric): (v: seq<Reading>)
    ensures |v| == |Values(rs, m)|
    ensures forall i :: 0 <= i < |v| ==> Get(v[i], m) == Some(Values(rs, m)[i])
  {
    if rs == [] then []
    else
      Valid(rs[..|rs| - 1], m) + if Get(rs[|rs| - 1], m).Some? then [rs[|rs| - 1]] else []
  }

  /** Hours elapsed from t0 to each reading's timestamp. */
  function Hours(v: seq<Reading>, t0: real): (xs: seq<real>)
    ensures |xs| == |v|
  {
    seq(|v|, i requires 0 <= i < |v| => (v[i].timestamp - t0) / SecondsPerHour)
  }

  /** x_values: hours since the first valid reading. */
  function Abscissae(rs: seq<Reading>, m: Metric): (xs: seq<real>)
    ensures |xs| == |Values(rs, m)|
  {
    var v := Valid(rs, m);
    if v == [] then [] else Hours(v, v[0].timestamp)
  }

  /** A float64 division as numpy performs it. */
  function Quotient(num: real, den: real): (q: Slope)
    ensures den != 0.0 <==> q.Finite?
    ensures q.Finite? ==> Mul(q.value, den) == num
    ensures q == NaN <==> den == 0.0 && num == 0.0
    ensures q == PosInf <==> den == 0.0 && num > 0.0
  {
    if den != 0.0 then Finite(num / den)
    else if num == 0.0 then NaN
    else if num > 0.0 then PosInf
    else NegInf
  }

  /**
   * The direction of a slope: stable strictly inside the band, otherwise by
   * sign. NaN fails both comparisons and so reads as decreasing.
   */
  function Classify(s: Slope): (d: Direction)
    ensures s.Finite? ==> (d == Stable <==> -StableBand < s.value < StableBand)
    ensures s.Finite? ==> (d == Increasing <==> s.value >= StableBand)
    ensures s.Finite? ==> (d == Decreasing <==> s.value <= -StableBand)
    ensures !s.Finite? ==> (d == Increasing <==> s == PosInf) && d != Stable
  {
    match s
    case Finite(v) => if Abs(v) < StableBand then Stable else if v > 0.0 then Increasing else Decreasing
    case NaN => Decreasing
    case PosInf => Increasing
    case NegInf => Decreasing
  }

  /** The closed least-squares slope of one metric against hours. */
  function TrendSlope(rs: seq<Reading>, m: Metric): Slope
  {
    Quotient(OlsNumerator(Abscissae(rs, m), Values(rs, m)), OlsDenominator(Abscissae(rs, m)))
  }

  /** _calculate_trend(readings, metric, sensor_id, time_window) */
  function TrendOf(rs: seq<Reading>, m: Metric, sid: string, window: int): Option<Trend>
  {
    if |Values(rs, m)| < MinTrendPoints then None
    else Some(Trend(sid, m, Classify(TrendSlope(rs, m)), TrendSlope(rs, m), window))
  }

  method CalculateTrend(readings: seq<Reading>, m: Metric, sid: string, window: int)
    returns (trend: Option<Trend>)
    ensures trend == TrendOf(readings, m, sid, window)
  {
    var valid := Valid(readings, m);
    if |valid| < MinTrendPoints {
      return None;
    }
    var xValues, yValues := CollectPoints(valid, m, valid[0].timestamp);
    assert xValues == Abscissae(readings, m);
    assert yValues == Values(readings, m);
    var slope := Quotient(OlsNumerator(xValues, yValues), OlsDenominator(xValues));
    trend := Some(Trend(sid, m, Classify(slope), slope, window));
  }

  /** The loop of _calculate_trend building x_values (hours since firstTime) and y_values. */
  method CollectPoints(valid: seq<Reading>, m: Metric, firstTime: real) returns (xValues: seq<real>, yValues: seq<real>)
    requires forall k :: 0 <= k < |valid| ==> Get(valid[k], m).Some?
    ensures xValues == Hours(valid, firstTime)
    ensures |yValues| == |valid| && forall k :: 0 <= k < |valid| ==> Get(valid[k], m) == Some(yValues[k])
  {
    xValues := [];
    yValues := [];
    for i := 0 to |valid|
      invariant |xValues| == |yValues| == i
      invariant forall k :: 0 <= k < i ==> xValues[k] == (valid[k].timestamp - firstTime) / SecondsPerHour
      invariant forall k :: 0 <= k < i ==> Get(valid[k], m) == Some(yValues[k])
    {
      var reading := valid[i];
      xValues := xValues + [(reading.timestamp - firstTime) / SecondsPerHour];
      yValues := yValues + [Get(reading, m).value];
    }
  }

  // ---------------------------------------------------------------------
  // All trends (analyze_trends)
  // ---------------------------------------------------------------------

  /** any(r[metric] is not None for r in readings) */
  predicate AnyPresent(rs: seq<Reading>, m: Metric)
  {
    exists i :: 0 <= i < |rs| && Get(rs[i], m).Some?
  }

  /** The `if any(...)` guard, the call and the `if trend:` append for one metric. */
  function MetricTrend(g: seq<Reading>, m: Metric, sid: string, window: int): seq<Trend>
  {
    if AnyPresent(g, m) then
      match TrendOf(g, m, sid, window) case Some(t) => [t] case None => []
    else []
  }

  /** The trends of one sensor's time-sorted readings, temperature first, then humidity, then air quality. */
  function SensorTrends(g: seq<Reading>, sid: string, window: int): seq<Trend>
  {
    MetricTrend(g, Temperature, sid, window) + MetricTrend(g, Humidity, sid, window)
    + MetricTrend(g, AirQuality, sid, window)
  }

  /** The body of the loop over `sensors.items()` for one sensor. */
  function SensorBlock(rs: seq<Reading>, sid: string, window: int): seq<Trend>
  {
    if |Group(rs, sid)| < MinTrendReadings then []
    else SensorTrends(SortByTime(Group(rs, sid)), sid, window)
  }

  /** The trends of the sensors ids, in that order. */
  function TrendsOver(rs: seq<Reading>, ids: seq<string>, window: int): seq<Trend>
  {
    if ids == [] then []
    else TrendsOver(rs, ids[..|ids| - 1], window) + SensorBlock(rs, ids[|ids| - 1], window)
  }

  /** analyze_trends(readings, time_window) */
  function Trends(rs: seq<Reading>, window: int): seq<Trend>
  {
    if |rs| < MinTrendReadings then [] else TrendsOver(rs, SensorOrder(rs), window)
  }

  method AnalyzeTrends(readings: seq<Reading>, window: int) returns (trends: seq<Trend>)
    ensures trends == Trends(readings, window)
  {
    if |readings| < MinTrendReadings {
      return [];
    }
    trends := [];
    var order, sensors := GroupBySensor(readings);
    for i := 0 to |order|
      invariant trends == TrendsOver(readings, order[..i], window)
    {
      assert order[..i + 1][..i] == order[..i];
      var sensorId := order[i];
      trends := AppendSensorBlock(trends, readings, sensorId, sensors[sensorId], window);
    }
    assert order[..|order|] == order;
  }

  /** One pass of the loop over `sensors.items()`: skip a sensor with fewer than five readings, else sort and analyse. */
  method AppendSensorBlock(trends: seq<Trend>, readings: seq<Reading>, sensorId: string,
                           sensorReadings: seq<Reading>, window: int)
    returns (out: seq<Trend>)
    requires sensorReadings == Group(readings, sensorId)
    ensures out == trends + SensorBlock(readings, sensorId, window)
  {
    if |sensorReadings| < MinTrendReadings {
      return trends;
    }
    var sorted := SortByTime(sensorReadings);
    out := AppendSensorTrends(trends, sorted, sensorId, window);
  }

  /** The three guarded _calculate_trend calls for one sensor, appending to `trends`. */
  method AppendSensorTrends(trends: seq<Trend>, sensorReadings: seq<Reading>, sensorId: string, window: int)
    returns (out: seq<Trend>)
    ensures out == trends + SensorTrends(sensorReadings, sensorId, window)
  {
    out := AppendMetricTrend(trends, sensorReadings, Temperature, sensorId, window);
    out := AppendMetricTrend(out, sensorReadings, Humidity, sensorId, window);
    out := AppendMetricTrend(out, sensorReadings, AirQuality, sensorId, window);
    AppendThree(trends, MetricTrend(sensorReadings, Temperature, sensorId, window),
                MetricTrend(sensorReadings, Humidity, sensorId, window),
                MetricTrend(sensorReadings, AirQuality, sensorId, window));
  }

  /** One `if any(...)` block: calculate the metric's trend and append it when there is one. */
  method AppendMetricTrend(trends: seq<Trend>, sensorReadings: seq<Reading>, m: Metric, sensorId: string,
                           window: int)
    returns (out: seq<Trend>)
    ensures out == trends + MetricTrend(sensorReadings, m, sensorId, window)
  {
    out := trends;
    if AnyPresent(sensorReadings, m) {
      var t := CalculateTrend(sensorReadings, m, sensorId, window);
      if t.Some? {
        out := out + [t.value];
      }
    }
  }

  lemma {:induction false} AppendThree(s: seq<Trend>, a: seq<Trend>, b: seq<Trend>, c: seq<Trend>)
    ensures s + a + b + c == s + (a + b + c)
  {
  }

  // ---------------------------------------------------------------------
  // Properties of one trend
  // ---------------------------------------------------------------------

  /** All readings of v carry the same timestamp. */
  predicate Simultaneous(v: seq<Reading>)
  {
    forall i :: 0 <= i < |v| ==> v[i].timestamp == v[0].timestamp
  }

  /** The valid readings of a time-sorted sequence are time-sorted and drawn from it. */
  lemma {:induction false} ValidFacts(rs: seq<Reading>, m: Metric)
    ensures forall r :: r in Valid(rs, m) ==> r in rs
    ensures SortedByTime(rs) ==> SortedByTime(Valid(rs, m))
  {
    if rs != [] {
      var init, last := rs[..|rs| - 1], rs[|rs| - 1];
      ValidFacts(init, m);
      assert rs == init + [last];
      if SortedByTime(rs) {
        assert SortedByTime(init) by {
          forall j, k | 0 <= j < k < |init| ensures init[j].timestamp <= init[k].timestamp {
            assert init[j] == rs[j] && init[k] == rs[k];
          }
        }
        if Get(last, m).Some? {
          var v := Valid(init, m);
          assert forall j :: 0 <= j < |v| ==> v[j].timestamp <= last.timestamp by {
            forall j | 0 <= j < |v| ensures v[j].timestamp <= last.timestamp {
              assert v[j] in init;
            }
          }
          AppendSorted(v, last);
        }
      }
    }
  }

  lemma {:induction false} AppendSorted(v: seq<Reading>, z: Reading)
    requires SortedByTime(v) && forall j :: 0 <= j < |v| ==> v[j].timestamp <= z.timestamp
    ensures SortedByTime(v + [z])
  {
    var w := v + [z];
    forall j, k | 0 <= j < k < |w| ensures w[j].timestamp <= w[k].timestamp {
      assert w[j] == v[j];
      if k < |v| {
        assert w[k] == v[k];
      }
    }
  }

  /**
   * x is hours since the first valid reading: it starts at 0 and, on
   * time-sorted readings, never decreases and is never negative.
   */
  lemma {:induction false} AbscissaeFacts(rs: seq<Reading>, m: Metric)
    requires Values(rs, m) != []
    ensures Abscissae(rs, m)[0] == 0.0
    ensures SortedByTime(rs) ==>
      forall j, k :: 0 <= j <= k < |Abscissae(rs, m)| ==> 0.0 <= Abscissae(rs, m)[j] <= Abscissae(rs, m)[k]
  {
    var v := Valid(rs, m);
    ValidFacts(rs, m);
    if SortedByTime(rs) {
      forall j, k | 0 <= j <= k < |v| ensures 0.0 <= Abscissae(rs, m)[j] <= Abscissae(rs, m)[k] {
        assert v[0].timestamp <= v[j].timestamp <= v[k].timestamp;
      }
    }
  }

  /**
   * The slope is never infinite: the divisor vanishes only when every valid
   * reading has one timestamp, and then the dividend vanishes too, so the
   * slope is NaN exactly in that case.
   */
  lemma {:induction false} SlopeDegenerate(rs: seq<Reading>, m: Metric)
    requires Values(rs, m) != []
    ensures TrendSlope(rs, m) != PosInf && TrendSlope(rs, m) != NegInf
    ensures TrendSlope(rs, m) == NaN <==> Simultaneous(Valid(rs, m))
  {
    var v, xs, ys := Valid(rs, m), Abscissae(rs, m), Values(rs, m);
    DenominatorZeroIffConstant(xs);
    assert Constant(xs) <==> Simultaneous(v) by {
      forall i | 0 <= i < |v| ensures xs[i] == xs[0] <==> v[i].timestamp == v[0].timestamp {
        assert xs[i] == (v[i].timestamp - v[0].timestamp) / SecondsPerHour;
      }
    }
    if Constant(xs) {
      ZeroAbscissae(xs, ys);
    }
  }

  /** Values lying exactly on y = a + b*x over times not all equal give slope b. */
  lemma {:induction false} TrendOnLine(rs: seq<Reading>, m: Metric, a: real, b: real)
    requires OnLine(Abscissae(rs, m), Values(rs, m), a, b) && !Simultaneous(Valid(rs, m))
    ensures TrendSlope(rs, m) == Finite(b)
  {
    var xs, ys := Abscissae(rs, m), Values(rs, m);
    SlopeDegenerate(rs, m);
    DenominatorZeroIffConstant(xs);
    LinearNumerator(xs, ys, a, b);
    MulCommute(b, OlsDenominator(xs));
    DivideCancel(OlsDenominator(xs), b);
  }

  /**
   * A constant metric gives slope 0 and 'stable' over times not all equal;
   * over a single timestamp it gives NaN, which reads as 'decreasing'.
   */
  lemma {:induction false} FlatTrend(rs: seq<Reading>, m: Metric, sid: string, window: int)
    requires |Values(rs, m)| >= MinTrendPoints && Constant(Values(rs, m))
    ensures !Simultaneous(Valid(rs, m)) ==>
      TrendOf(rs, m, sid, window) == Some(Trend(sid, m, Stable, Finite(0.0), window))
    ensures Simultaneous(Valid(rs, m)) ==>
      TrendOf(rs, m, sid, window) == Some(Trend(sid, m, Decreasing, NaN, window))
  {
    var xs, ys := Abscissae(rs, m), Values(rs, m);
    SlopeDegenerate(rs, m);
    if !Simultaneous(Valid(rs, m)) {
      forall i | 0 <= i < |xs| ensures ys[i] == ys[0] + 0.0 * xs[i] { }
      TrendOnLine(rs, m, ys[0], 0.0);
    }
  }

  /** What one calculated trend records: None below three valid points, otherwise the echoed fields. */
  lemma {:induction false} TrendOfFacts(rs: seq<Reading>, m: Metric, sid: string, window: int)
    ensures TrendOf(rs, m, sid, window).None? <==> !ThreePresent(rs, m)
    ensures TrendOf(rs, m, sid, window).Some? ==>
      var t := TrendOf(rs, m, sid, window).value;
      t.sensorId == sid && t.metric == m && t.timeWindow == window && t.direction == Classify(t.slope)
  {
    ThreePresentIffThreeValues(rs, m);
  }

  /** At least three readings carry a value of the metric. */
  predicate ThreePresent(rs: seq<Reading>, m: Metric)
  {
    exists i, j, k :: 0 <= i < j < k < |rs| && Get(rs[i], m).Some? && Get(rs[j], m).Some? && Get(rs[k], m).Some?
  }

  /** The positions of the readings that carry a value of the metric. */
  ghost function Positions(rs: seq<Reading>, m: Metric): seq<nat>
  {
    if rs == [] then []
    else Positions(rs[..|rs| - 1], m) + if Get(rs[|rs| - 1], m).Some? then [|rs| - 1] else []
  }

  lemma {:induction false} PositionsFacts(rs: seq<Reading>, m: Metric)
    ensures |Positions(rs, m)| == |Values(rs, m)|
    ensures forall a :: 0 <= a < |Positions(rs, m)| ==>
              Positions(rs, m)[a] < |rs| && Get(rs[Positions(rs, m)[a]], m).Some?
    ensures StrictlyAscending(Positions(rs, m))
    ensures forall i :: 0 <= i < |rs| && Get(rs[i], m).Some? ==> i in Positions(rs, m)
  {
    if rs != [] {
      var init := rs[..|rs| - 1];
      PositionsFacts(init, m);
      forall i | 0 <= i < |init| ensures init[i] == rs[i] { }
    }
  }

  lemma {:induction false} ThreePresentIffThreeValues(rs: seq<Reading>, m: Metric)
    ensures ThreePresent(rs, m) <==> |Values(rs, m)| >= 3
  {
    if |Values(rs, m)| >= 3 {
      ThreeValuesArePresent(rs, m);
    }
    if ThreePresent(rs, m) {
      var i, j, k :| 0 <= i < j < k < |rs| && Get(rs[i], m).Some? && Get(rs[j], m).Some? && Get(rs[k], m).Some?;
      ThreePresentAreValues(rs, m, i, j, k);
    }
  }

  lemma {:induction false} ThreeValuesArePresent(rs: seq<Reading>, m: Metric)
    requires |Values(rs, m)| >= 3
    ensures ThreePresent(rs, m)
  {
    var p := Positions(rs, m);
    PositionsFacts(rs, m);
    assert Get(rs[p[0]], m).Some? && Get(rs[p[1]], m).Some? && Get(rs[p[2]], m).Some?;
    assert p[0] < p[1] < p[2];
  }

  lemma {:induction false} ThreePresentAreValues(rs: seq<Reading>, m: Metric, i: nat, j: nat, k: nat)
    requires i < j < k < |rs| && Get(rs[i], m).Some? && Get(rs[j], m).Some? && Get(rs[k], m).Some?
    ensures |Values(rs, m)| >= 3
  {
    var p := Positions(rs, m);
    PositionsFacts(rs, m);
    IncreasingHasThree(p, i, j, k);
  }

  predicate StrictlyAscending(p: seq<nat>)
  {
    forall a, b :: 0 <= a < b < |p| ==> p[a] < p[b]
  }

  /** A strictly increasing sequence holding three distinct numbers has at least three elements. */
  lemma {:induction false} IncreasingHasThree(p: seq<nat>, i: nat, j: nat, k: nat)
    requires StrictlyAscending(p)
    requires i < j < k && i in p && j in p && k in p
    ensures |p| >= 3
  {
    var a :| 0 <= a < |p| && p[a] == i;
    var b :| 0 <= b < |p| && p[b] == j;
    var c :| 0 <= c < |p| && p[c] == k;
    assert a < b < c;
  }

  // ---------------------------------------------------------------------
  // Properties of analyze_trends
  // ---------------------------------------------------------------------

  /** Trends whose records of one sensor come in strictly increasing metric order. */
  predicate PerSensorMetricOrder(out: seq<Trend>)
  {
    forall j, k :: 0 <= j < k < |out| && out[j].sensorId == out[k].sensorId ==>
      Rank(out[j].metric) < Rank(out[k].metric)
  }

  /** One metric contributes at most one trend, of that metric and sensor. */
  lemma {:induction false} MetricTrendSlot(g: seq<Reading>, m: Metric, sid: string, window: int)
    ensures Slot(MetricTrend(g, m, sid, window), m, sid)
  {
  }

  /** One metric contributes its calculated trend, if any: the `any` guard never hides one. */
  lemma {:induction false} MetricTrendMember(g: seq<Reading>, m: Metric, sid: string, window: int, t: Trend)
    ensures t in MetricTrend(g, m, sid, window) <==> TrendOf(g, m, sid, window) == Some(t)
  {
    if TrendOf(g, m, sid, window).Some? {
      var v := Valid(g, m);
      ValidFacts(g, m);
      assert Get(v[0], m).Some? && v[0] in g;
    }
  }

  /** A sensor's trends are about that sensor, in strictly increasing metric order. */
  lemma {:induction false} SensorTrendsOrdered(g: seq<Reading>, sid: string, window: int)
    ensures forall t :: t in SensorTrends(g, sid, window) ==> t.sensorId == sid
    ensures PerSensorMetricOrder(SensorTrends(g, sid, window))
  {
    MetricTrendSlot(g, Temperature, sid, window);
    MetricTrendSlot(g, Humidity, sid, window);
    MetricTrendSlot(g, AirQuality, sid, window);
    MetricSlots(MetricTrend(g, Temperature, sid, window), MetricTrend(g, Humidity, sid, window),
                MetricTrend(g, AirQuality, sid, window), sid);
  }

  /** A sensor's trends: exactly the calculated trends of its three metrics. */
  lemma {:induction false} SensorTrendMember(g: seq<Reading>, sid: string, window: int, t: Trend)
    ensures t in SensorTrends(g, sid, window) <==> t.sensorId == sid && TrendOf(g, t.metric, sid, window) == Some(t)
  {
    MetricTrendSlot(g, Temperature, sid, window);
    MetricTrendSlot(g, Humidity, sid, window);
    MetricTrendSlot(g, AirQuality, sid, window);
    MetricTrendMember(g, t.metric, sid, window, t);
    match t.metric
    case Temperature =>
    case Humidity =>
    case AirQuality =>
  }

  /** Every trend of s is about metric m and sensor sid, and there is at most one. */
  predicate Slot(s: seq<Trend>, m: Metric, sid: string)
  {
    |s| <= 1 && forall t :: t in s ==> t.metric == m && t.sensorId == sid
  }

  /** The shape of a temperature slot followed by a humidity slot and an air-quality slot. */
  lemma {:induction false} MetricSlots(a: seq<Trend>, b: seq<Trend>, c: seq<Trend>, sid: string)
    requires Slot(a, Temperature, sid) && Slot(b, Humidity, sid) && Slot(c, AirQuality, sid)
    ensures forall t :: t in a + b + c <==> t in a || t in b || t in c
    ensures forall t :: t in a + b + c ==> t.sensorId == sid
    ensures PerSensorMetricOrder(a + b + c)
  {
    var out := a + b + c;
    forall i | 0 <= i < |out|
      ensures Rank(out[i].metric) == if i < |a| then 0 else if i < |a| + |b| then 1 else 2
    {
      if i < |a| {
        assert out[i] == a[i];
      } else if i < |a| + |b| {
        assert out[i] == b[i - |a|];
      } else {
        assert out[i] == c[i - |a| - |b|];
      }
    }
  }

  lemma {:induction false} SensorBlockFacts(rs: seq<Reading>, sid: string, window: int)
    ensures forall t :: t in SensorBlock(rs, sid, window) ==> t.sensorId == sid
    ensures PerSensorMetricOrder(SensorBlock(rs, sid, window))
  {
    if |Group(rs, sid)| >= MinTrendReadings {
      SensorTrendsOrdered(SortByTime(Group(rs, sid)), sid, window);
    }
  }

  lemma {:induction false} BlockSensor(rs: seq<Reading>, sid: string, window: int, t: Trend)
    ensures t in SensorBlock(rs, sid, window) ==> t.sensorId == sid
  {
    SensorBlockFacts(rs, sid, window);
  }

  /**
   * Membership after appending the block b of sensor last to p, where own
   * stands for the block of t's own sensor.
   */
  lemma {:induction false} AppendBlockMember(p: seq<Trend>, b: seq<Trend>, ids: seq<string>, last: string,
                                             t: Trend, own: seq<Trend>)
    requires t in p <==> t.sensorId in ids && t in own
    requires t in b ==> t.sensorId == last
    requires t.sensorId == last ==> own == b
    ensures t in p + b <==> t.sensorId in ids + [last] && t in own
  {
  }

  /** The trends of the sensors ids: exactly the members of those sensors' blocks. */
  lemma {:induction false} TrendsOverMembers(rs: seq<Reading>, ids: seq<string>, window: int, t: Trend)
    ensures t in TrendsOver(rs, ids, window) <==> t.sensorId in ids && t in SensorBlock(rs, t.sensorId, window)
  {
    if ids != [] {
      var init, last := ids[..|ids| - 1], ids[|ids| - 1];
      TrendsOverMembers(rs, init, window, t);
      BlockSensor(rs, last, window, t);
      assert ids == init + [last];
      AppendBlockMember(TrendsOver(rs, init, window), SensorBlock(rs, last, window), init, last, t,
                        SensorBlock(rs, t.sensorId, window));
    }
  }

  /**
   * Soundness and completeness of analyze_trends: a trend is reported
   * exactly when there are at least five readings, its sensor has at least
   * five, and _calculate_trend on that sensor's time-sorted readings and the
   * trend's metric yields it.
   */
  lemma {:induction false} TrendMembers(rs: seq<Reading>, window: int, t: Trend)
    ensures t in Trends(rs, window) <==>
      |rs| >= MinTrendReadings && |Group(rs, t.sensorId)| >= MinTrendReadings
      && TrendOf(SortByTime(Group(rs, t.sensorId)), t.metric, t.sensorId, window) == Some(t)
  {
    if |rs| >= MinTrendReadings {
      TrendsOverMembers(rs, SensorOrder(rs), window, t);
      GroupMembers(rs, t.sensorId);
      SensorTrendMember(SortByTime(Group(rs, t.sensorId)), t.sensorId, window, t);
    }
  }

  /** Every reported trend echoes the time window, is classified from its slope, and its slope is never infinite. */
  lemma {:induction false} TrendRecords(rs: seq<Reading>, window: int)
    ensures forall t :: t in Trends(rs, window) ==>
      t.timeWindow == window && t.direction == Classify(t.slope) && t.slope != PosInf && t.slope != NegInf
  {
    forall t | t in Trends(rs, window)
      ensures t.timeWindow == window && t.direction == Classify(t.slope) && t.slope != PosInf && t.slope != NegInf
    {
      TrendMembers(rs, window, t);
      var g := SortByTime(Group(rs, t.sensorId));
      TrendOfFacts(g, t.metric, t.sensorId, window);
      SlopeDegenerate(g, t.metric);
    }
  }

  /** Appending the block of a new sensor keeps each sensor's metric order. */
  lemma {:induction false} AppendBlockOrder(p: seq<Trend>, b: seq<Trend>, last: string)
    requires PerSensorMetricOrder(p) && PerSensorMetricOrder(b)
    requires forall t :: t in b ==> t.sensorId == last
    requires forall t :: t in p ==> t.sensorId != last
    ensures PerSensorMetricOrder(p + b)
  {
    var out := p + b;
    forall j, k | 0 <= j < k < |out| && out[j].sensorId == out[k].sensorId
      ensures Rank(out[j].metric) < Rank(out[k].metric)
    {
      if j < |p| {
        assert out[j] == p[j] && p[j] in p;
      } else {
        assert out[j] == b[j - |p|] && b[j - |p|] in b;
      }
      if k < |p| {
        assert out[k] == p[k] && p[k] in p;
      } else {
        assert out[k] == b[k - |p|] && b[k - |p|] in b;
      }
    }
  }

  lemma {:induction false} TrendsOverPerSensor(rs: seq<Reading>, ids: seq<string>, window: int)
    requires forall j, k :: 0 <= j < k < |ids| ==> ids[j] != ids[k]
    ensures PerSensorMetricOrder(TrendsOver(rs, ids, window))
  {
    if ids != [] {
      var init, last := ids[..|ids| - 1], ids[|ids| - 1];
      TrendsOverPerSensor(rs, init, window);
      SensorBlockFacts(rs, last, window);
      var p := TrendsOver(rs, init, window);
      forall t | t in p
        ensures t.sensorId != last
      {
        TrendsOverMembers(rs, init, window, t);
      }
      AppendBlockOrder(p, SensorBlock(rs, last, window), last);
    }
  }

  /**
   * Each sensor's trends appear in the order temperature, humidity,
   * air_quality, at most one per metric, so at most three per sensor.
   */
  lemma {:induction false} TrendsPerSensor(rs: seq<Reading>, window: int)
    ensures PerSensorMetricOrder(Trends(rs, window))
  {
    if |rs| >= MinTrendReadings {
      SensorOrderMembers(rs);
      TrendsOverPerSensor(rs, SensorOrder(rs), window);
    }
  }

  // ---------------------------------------------------------------------
  // One-step prediction (predict_next_value)
  // ---------------------------------------------------------------------

  /** values[-10:]: the last PredictionWindow values, or all of them when there are fewer. */
  function Recent(vs: seq<real>): (r: seq<real>)
    ensures |r| == if |vs| <= PredictionWindow then |vs| else PredictionWindow
    ensures r == vs[|vs| - |r|..]
  {
    if |vs| <= PredictionWindow then vs else vs[|vs| - PredictionWindow..]
  }

  /** np.arange(k) */
  function Steps(k: nat): (xs: seq<real>)
    ensures |xs| == k
  {
    seq(k, i requires 0 <= i < k => i as real)
  }

  /** The positions 0, 1, ..., k-1 are not all equal once there are two of them. */
  lemma StepsDenominator(k: nat)
    requires k >= 2
    ensures OlsDenominator(Steps(k)) > 0.0
  {
    DenominatorZeroIffConstant(Steps(k));
    assert Steps(k)[1] != Steps(k)[0];
  }

  /** np.polyfit(np.arange(len(ys)), ys, 1)[0]: the least-squares slope against the positions. */
  function FittedSlope(ys: seq<real>): real
    requires |ys| >= 2
  {
    StepsDenominator(|ys|);
    OlsNumerator(Steps(|ys|), ys) / OlsDenominator(Steps(|ys|))
  }

  /** The prediction from the valid values: the last recent value plus the fitted slope. */
  function PredictFrom(vs: seq<real>): Option<real>
  {
    if |vs| < MinTrendPoints then None
    else
      var recent := Recent(vs);
      Some(Last(recent) + FittedSlope(recent))
  }

  /** predict_next_value(readings, metric) */
  function Predict(rs: seq<Reading>, m: Metric): Option<real>
  {
    if |rs| < MinTrendPoints then None else PredictFrom(Values(rs, m))
  }

  function Last(vs: seq<real>): real
    requires vs != []
  {
    vs[|vs| - 1]
  }

  /** No prediction exactly when fewer than three readings carry the metric. */
  lemma {:induction false} PredictNone(rs: seq<Reading>, m: Metric)
    ensures Predict(rs, m).None? <==> !ThreePresent(rs, m)
  {
    ThreePresentIffThreeValues(rs, m);
  }

  /** The values of a concatenation are the values of its parts. */
  lemma {:induction false} ValuesAppend(a: seq<Reading>, b: seq<Reading>, m: Metric)
    ensures Values(a + b, m) == Values(a, m) + Values(b, m)
  {
    if b != [] {
      var init, last := b[..|b| - 1], b[|b| - 1];
      ValuesAppend(a, init, m);
      assert (a + b)[..|a + b| - 1] == a + init;
      assert (a + b)[|a + b| - 1] == last;
    } else {
      assert a + b == a;
    }
  }

  /** The window ignores everything before the last PredictionWindow values. */
  lemma {:induction false} RecentSuffix(u: seq<real>, vs: seq<real>)
    requires |vs| >= PredictionWindow
    ensures Recent(u + vs) == Recent(vs)
  {
    var ws := u + vs;
    assert ws[|ws| - PredictionWindow..] == vs[|vs| - PredictionWindow..];
  }

  /**
   * Only the last ten values count: once rs holds ten values of the metric,
   * readings before it change nothing.
   */
  lemma {:induction false} PredictUsesRecent(earlier: seq<Reading>, rs: seq<Reading>, m: Metric)
    requires |Values(rs, m)| >= PredictionWindow
    ensures Predict(earlier + rs, m) == Predict(rs, m)
  {
    ValuesAppend(earlier, rs, m);
    RecentSuffix(Values(earlier, m), Values(rs, m));
  }

  /** Values whose recent window lies on y = a + b*i predict the last value plus b. */
  lemma {:induction false} PredictFromLine(vs: seq<real>, a: real, b: real)
    requires |vs| >= MinTrendPoints
    requires OnLine(Steps(|Recent(vs)|), Recent(vs), a, b)
    ensures PredictFrom(vs) == Some(Last(vs) + b)
  {
    var recent := Recent(vs);
    var xs := Steps(|recent|);
    assert Last(recent) == Last(vs);
    StepsDenominator(|recent|);
    LinearNumerator(xs, recent, a, b);
    MulCommute(b, OlsDenominator(xs));
    DivideCancel(OlsDenominator(xs), b);
  }

  /** Readings whose recent values lie on y = a + b*i predict the last value plus b. */
  lemma {:induction false} PredictOnLine(rs: seq<Reading>, m: Metric, a: real, b: real)
    requires |Values(rs, m)| >= MinTrendPoints
    requires OnLine(Steps(|Recent(Values(rs, m))|), Recent(Values(rs, m)), a, b)
    ensures Predict(rs, m) == Some(Last(Values(rs, m)) + b)
  {
    PredictFromLine(Values(rs, m), a, b);
  }

  /** A constant metric predicts its constant value again. */
  lemma {:induction false} PredictFlat(rs: seq<Reading>, m: Metric)
    requires |Values(rs, m)| >= MinTrendPoints && Constant(Values(rs, m))
    ensures Predict(rs, m) == Some(Values(rs, m)[0])
  {
    var vs := Values(rs, m);
    var recent := Recent(vs);
    var xs := Steps(|recent|);
    forall i | 0 <= i < |xs| ensures recent[i] == vs[0] + 0.0 * xs[i] {
      assert recent[i] == vs[|vs| - |recent| + i];
    }
    PredictFromLine(vs, vs[0], 0.0);
  }
}
