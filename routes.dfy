/**
 * The HTTP handlers of smart-node/api/routes.py over the repository:
 * data endpoints that record activity before querying, the two analysis
 * endpoints that gate on the window size, run the analyzer and store one
 * row per result, and the state and wake endpoints. The clock reading is
 * a parameter; query-parameter bounds are preconditions.
 */
module Routes {
  import opened Wrappers
  import opened Domain
  import opened Analyzer
  import opened Numerics
  import opened Trends
  import opened Repository

  /** Readings an analysis window needs before anomaly detection runs. */
  const MinDetectionReadings := 10
  /** Readings an analysis window needs before trend analysis runs. */
  const MinTrendAnalysisReadings := 5
  /** get_sensors looks at this many most recent readings. */
  const SensorScanLimit := 1000

  /** The body of an analysis response: the "not enough data" message, or the result and window counts. */
  datatype Report = NotEnoughData | Completed(results: nat, dataPointsAnalyzed: nat)

  /** now - timedelta(hours=hours), in seconds. */
  function Since(hours: int, now: real): real
  {
    now - hours as real * SecondsPerHour
  }

  /** The rows insert_anomaly writes for the detected anomalies, in order. */
  function AnomalyRows(found: seq<Anomaly>, now: real): (rows: seq<AnomalyRow>)
    ensures |rows| == |found|
  {
    if found == [] then []
    else
      var a := found[|found| - 1];
      AnomalyRows(found[..|found| - 1], now) + [AnomalyRow(a.sensorId, a.readingId, a.metric, a.severity, now)]
  }

  /** The rows insert_trend writes for the computed trends, in order. */
  function TrendRows(found: seq<Trend>, now: real): (rows: seq<TrendRow>)
    ensures |rows| == |found|
  {
    if found == [] then []
    else
      var t := found[|found| - 1];
      TrendRows(found[..|found| - 1], now) + [TrendRow(t.sensorId, t.metric, t.direction, t.slope, t.timeWindow, now)]
  }

  function AnomalyWrites(rows: seq<AnomalyRow>): seq<Write>
  {
    seq(|rows|, i requires 0 <= i < |rows| => AnomalyInserted(rows[i]))
  }

  function TrendWrites(rows: seq<TrendRow>): seq<Write>
  {
    seq(|rows|, i requires 0 <= i < |rows| => TrendInserted(rows[i]))
  }

  /** The distinct sensor ids of some readings. */
  function SensorIds(rs: seq<Reading>): set<string>
  {
    set r | r in rs :: r.sensorId
  }

  /**
   * POST /readings: record activity, store the reading, and answer with the
   * newest stored reading, which is the new one unless the store already
   * holds a later timestamp.
   */
  method CreateReading(db: Database, sensorId: string, temperature: Option<real>, humidity: Option<real>,
                       airQuality: Option<real>, rssi: Option<int>, now: real)
    returns (response: Option<Reading>)
    requires db.Valid()
    modifies db
    ensures db.Valid()
    ensures db.readings == old(db.readings) + [Reading(old(db.nextId), sensorId, temperature, humidity, airQuality, rssi, now)]
    ensures db.journal == old(db.journal) + [ActivityUpdated(now), ReadingInserted(old(db.nextId))]
    ensures db.lastActivity == Some(now) && db.powerMode == old(db.powerMode)
    ensures db.anomalies == old(db.anomalies) && db.trends == old(db.trends)
    ensures response.Some? && response.value in db.readings && response.value.timestamp >= now
    ensures (forall i :: 0 <= i < |old(db.readings)| ==> old(db.readings)[i].timestamp <= now) ==>
      response == Some(Reading(old(db.nextId), sensorId, temperature, humidity, airQuality, rssi, now))
  {
    ghost var before := db.readings;
    db.UpdateActivity(now);
    var id := db.InsertReading(sensorId, temperature, humidity, airQuality, rssi, now);
    var x := Reading(id, sensorId, temperature, humidity, airQuality, rssi, now);
    var newest := db.RecentReadings(1, None);
    NewestAfterInsert(before, x);
    assert db.readings == before + [x];
    if newest != [] {
      response := Some(newest[0]);
    } else {
      response := None;
    }
  }

  /** GET /readings: record activity, then the last hours of readings oldest first, or the newest limit readings. */
  method GetReadings(db: Database, limit: nat, sensorId: Option<string>, hours: Option<int>, now: real)
    returns (readings: seq<Reading>)
    requires 1 <= limit <= 1000
    requires hours.Some? ==> 1 <= hours.value <= 168
    modifies db
    ensures db.lastActivity == Some(now) && db.journal == old(db.journal) + [ActivityUpdated(now)]
    ensures db.readings == old(db.readings) && db.nextId == old(db.nextId) && db.powerMode == old(db.powerMode)
    ensures db.anomalies == old(db.anomalies) && db.trends == old(db.trends)
    ensures hours.Some? ==> readings == db.ReadingsInRange(Since(hours.value, now), now, sensorId)
    ensures hours.None? ==> readings == db.RecentReadings(limit, sensorId)
  {
    db.UpdateActivity(now);
    if hours.Some? {
      readings := db.ReadingsInRange(Since(hours.value, now), now, sensorId);
    } else {
      readings := db.RecentReadings(limit, sensorId);
    }
  }

  /** GET /sensors: record activity, then the distinct ids among the newest 1000 readings and their number. */
  method GetSensors(db: Database, now: real) returns (sensors: set<string>, count: nat)
    modifies db
    ensures db.lastActivity == Some(now) && db.journal == old(db.journal) + [ActivityUpdated(now)]
    ensures db.readings == old(db.readings) && db.nextId == old(db.nextId) && db.powerMode == old(db.powerMode)
    ensures db.anomalies == old(db.anomalies) && db.trends == old(db.trends)
    ensures sensors == SensorIds(db.RecentReadings(SensorScanLimit, None))
    ensures count == |sensors| && count <= SensorScanLimit && count <= |db.readings|
  {
    db.UpdateActivity(now);
    var recent := db.RecentReadings(SensorScanLimit, None);
    sensors := SensorIds(recent);
    count := |sensors|;
    SelectedAll(db.readings);
    ghost var any := Reading(0, "", None, None, None, None, 0.0);
    RecentQuery(db, SensorScanLimit, None, any, any);
    SensorIdsBound(recent);
  }

  /** GET /anomalies: record activity, then the latest limit anomaly rows. */
  method GetAnomalies(db: Database, limit: nat, now: real) returns (rows: seq<AnomalyRow>)
    requires 1 <= limit <= 500
    modifies db
    ensures db.lastActivity == Some(now) && db.journal == old(db.journal) + [ActivityUpdated(now)]
    ensures db.readings == old(db.readings) && db.nextId == old(db.nextId) && db.powerMode == old(db.powerMode)
    ensures db.anomalies == old(db.anomalies) && db.trends == old(db.trends)
    ensures rows == db.RecentAnomalies(limit)
  {
    db.UpdateActivity(now);
    rows := db.RecentAnomalies(limit);
  }

  /** GET /trends: record activity, then the latest trend rows. */
  method GetTrends(db: Database, sensorId: Option<string>, now: real) returns (rows: seq<TrendRow>)
    modifies db
    ensures db.lastActivity == Some(now) && db.journal == old(db.journal) + [ActivityUpdated(now)]
    ensures db.readings == old(db.readings) && db.nextId == old(db.nextId) && db.powerMode == old(db.powerMode)
    ensures db.anomalies == old(db.anomalies) && db.trends == old(db.trends)
    ensures rows == db.LatestTrends(sensorId)
  {
    db.UpdateActivity(now);
    rows := db.LatestTrends(sensorId);
  }

  /** The loop of run_anomaly_detection: one insert_anomaly per anomaly, in order. */
  method StoreAnomalies(db: Database, found: seq<Anomaly>, now: real)
    modifies db
    ensures db.anomalies == old(db.anomalies) + AnomalyRows(found, now)
    ensures db.journal == old(db.journal) + AnomalyWrites(AnomalyRows(found, now))
    ensures db.lastActivity == old(db.lastActivity) && db.powerMode == old(db.powerMode)
    ensures db.readings == old(db.readings) && db.nextId == old(db.nextId) && db.trends == old(db.trends)
  {
    for i := 0 to |found|
      invariant db.anomalies == old(db.anomalies) + AnomalyRows(found[..i], now)
      invariant db.journal == old(db.journal) + AnomalyWrites(AnomalyRows(found[..i], now))
      invariant db.lastActivity == old(db.lastActivity) && db.powerMode == old(db.powerMode)
      invariant db.readings == old(db.readings) && db.nextId == old(db.nextId) && db.trends == old(db.trends)
    {
      var a := found[i];
      db.InsertAnomaly(a.sensorId, a.readingId, a.metric, a.severity, now);
      assert found[..i + 1][..i] == found[..i];
      AppendWrites(AnomalyRows(found[..i], now), AnomalyRow(a.sensorId, a.readingId, a.metric, a.severity, now));
    }
    assert found[..|found|] == found;
  }

  /** The loop of run_trend_analysis: one insert_trend per trend, in order. */
  method StoreTrends(db: Database, found: seq<Trend>, now: real)
    modifies db
    ensures db.trends == old(db.trends) + TrendRows(found, now)
    ensures db.journal == old(db.journal) + TrendWrites(TrendRows(found, now))
    ensures db.lastActivity == old(db.lastActivity) && db.powerMode == old(db.powerMode)
    ensures db.readings == old(db.readings) && db.nextId == old(db.nextId) && db.anomalies == old(db.anomalies)
  {
    for i := 0 to |found|
      invariant db.trends == old(db.trends) + TrendRows(found[..i], now)
      invariant db.journal == old(db.journal) + TrendWrites(TrendRows(found[..i], now))
      invariant db.lastActivity == old(db.lastActivity) && db.powerMode == old(db.powerMode)
      invariant db.readings == old(db.readings) && db.nextId == old(db.nextId) && db.anomalies == old(db.anomalies)
    {
      var t := found[i];
      db.InsertTrend(t.sensorId, t.metric, t.direction, t.slope, t.timeWindow, now);
      assert found[..i + 1][..i] == found[..i];
      AppendTrendWrites(TrendRows(found[..i], now), TrendRow(t.sensorId, t.metric, t.direction, t.slope, t.timeWindow, now));
    }
    assert found[..|found|] == found;
  }

  /**
   * POST /analyze/anomalies: record activity, read the last hours of
   * readings, and unless fewer than ten store one row per detected anomaly.
   */
  method RunAnomalyDetection(db: Database, sensorId: Option<string>, hours: int, now: real, sqrt: real -> real)
    returns (report: Report)
    requires 1 <= hours <= 168
    modifies db
    ensures db.lastActivity == Some(now) && db.powerMode == old(db.powerMode)
    ensures db.readings == old(db.readings) && db.nextId == old(db.nextId) && db.trends == old(db.trends)
    ensures |db.ReadingsInRange(Since(hours, now), now, sensorId)| < MinDetectionReadings ==>
      report == NotEnoughData && db.anomalies == old(db.anomalies) && db.journal == old(db.journal) + [ActivityUpdated(now)]
    ensures |db.ReadingsInRange(Since(hours, now), now, sensorId)| >= MinDetectionReadings ==>
      var rs := db.ReadingsInRange(Since(hours, now), now, sensorId);
      var rows := AnomalyRows(Anomalies(rs, sqrt), now);
      report == Completed(|Anomalies(rs, sqrt)|, |rs|)
      && db.anomalies == old(db.anomalies) + rows
      && db.journal == old(db.journal) + [ActivityUpdated(now)] + AnomalyWrites(rows)
  {
    db.UpdateActivity(now);
    var readings := db.ReadingsInRange(Since(hours, now), now, sensorId);
    if |readings| < MinDetectionReadings {
      return NotEnoughData;
    }
    var found := DetectAnomalies(readings, sqrt);
    StoreAnomalies(db, found, now);
    report := Completed(|found|, |readings|);
  }

  /**
   * POST /analyze/trends: record activity, read the last hours of readings,
   * and unless fewer than five store one row per computed trend, with the
   * hours as its time window.
   */
  method RunTrendAnalysis(db: Database, sensorId: Option<string>, hours: int, now: real)
    returns (report: Report)
    requires 1 <= hours <= 168
    modifies db
    ensures db.lastActivity == Some(now) && db.powerMode == old(db.powerMode)
    ensures db.readings == old(db.readings) && db.nextId == old(db.nextId) && db.anomalies == old(db.anomalies)
    ensures |db.ReadingsInRange(Since(hours, now), now, sensorId)| < MinTrendAnalysisReadings ==>
      report == NotEnoughData && db.trends == old(db.trends) && db.journal == old(db.journal) + [ActivityUpdated(now)]
    ensures |db.ReadingsInRange(Since(hours, now), now, sensorId)| >= MinTrendAnalysisReadings ==>
      var rs := db.ReadingsInRange(Since(hours, now), now, sensorId);
      var rows := TrendRows(Trends.Trends(rs, hours), now);
      report == Completed(|Trends.Trends(rs, hours)|, |rs|)
      && db.trends == old(db.trends) + rows
      && db.journal == old(db.journal) + [ActivityUpdated(now)] + TrendWrites(rows)
  {
    db.UpdateActivity(now);
    var readings := db.ReadingsInRange(Since(hours, now), now, sensorId);
    if |readings| < MinTrendAnalysisReadings {
      return NotEnoughData;
    }
    var found := AnalyzeTrends(readings, hours);
    StoreTrends(db, found, now);
    report := Completed(|found|, |readings|);
  }

  /** GET /system/state: the stored state; activity is not recorded. */
  method GetSystemState(db: Database) returns (state: SystemState)
    ensures state.lastActivity == db.lastActivity && state.powerMode == db.powerMode
  {
    state := db.State();
  }

  /** POST /system/wake: set the mode to active, then record activity. */
  method WakeSystem(db: Database, now: real)
    modifies db
    ensures db.powerMode == "active" && db.lastActivity == Some(now)
    ensures db.journal == old(db.journal) + [PowerModeSet("active"), ActivityUpdated(now)]
    ensures db.readings == old(db.readings) && db.nextId == old(db.nextId)
    ensures db.anomalies == old(db.anomalies) && db.trends == old(db.trends)
  {
    db.UpdatePowerMode("active");
    db.UpdateActivity(now);
  }

  // ---------------------------------------------------------------------
  // Properties
  // ---------------------------------------------------------------------

  lemma AppendWrites(rows: seq<AnomalyRow>, row: AnomalyRow)
    ensures AnomalyWrites(rows + [row]) == AnomalyWrites(rows) + [AnomalyInserted(row)]
  {
  }

  lemma AppendTrendWrites(rows: seq<TrendRow>, row: TrendRow)
    ensures TrendWrites(rows + [row]) == TrendWrites(rows) + [TrendInserted(row)]
  {
  }

  /** There are no more distinct sensor ids than readings. */
  lemma {:induction false} SensorIdsBound(rs: seq<Reading>)
    ensures |SensorIds(rs)| <= |rs|
  {
    if rs != [] {
      var init := rs[..|rs| - 1];
      SensorIdsBound(init);
      assert rs == init + [rs[|rs| - 1]];
      assert SensorIds(rs) == SensorIds(init) + {rs[|rs| - 1].sensorId};
    }
  }

  /**
   * Every listed sensor has a stored reading; with at most 1000 stored
   * readings every sensor that has one is listed.
   */
  lemma SensorListing(db: Database, r: Reading)
    ensures forall s :: s in SensorIds(db.RecentReadings(SensorScanLimit, None)) ==>
      exists x :: x in db.readings && x.sensorId == s
    ensures |db.readings| <= SensorScanLimit && r in db.readings ==>
      r.sensorId in SensorIds(db.RecentReadings(SensorScanLimit, None))
  {
    var recent := db.RecentReadings(SensorScanLimit, None);
    forall s | s in SensorIds(recent) ensures exists x :: x in db.readings && x.sensorId == s {
      var x :| x in recent && x.sensorId == s;
      RecentQuery(db, SensorScanLimit, None, x, x);
    }
    if |db.readings| <= SensorScanLimit && r in db.readings {
      SelectedAll(db.readings);
      RecentComplete(db, SensorScanLimit, None, r);
    }
  }

  lemma {:induction false} AnomalyRowsMember(found: seq<Anomaly>, now: real, row: AnomalyRow)
    ensures row in AnomalyRows(found, now) <==>
      exists a :: a in found && row == AnomalyRow(a.sensorId, a.readingId, a.metric, a.severity, now)
  {
    if found != [] {
      var init := found[..|found| - 1];
      AnomalyRowsMember(init, now, row);
      assert found == init + [found[|found| - 1]];
    }
  }

  lemma {:induction false} TrendRowsMember(found: seq<Trend>, now: real, row: TrendRow)
    ensures row in TrendRows(found, now) <==>
      exists t :: t in found && row == TrendRow(t.sensorId, t.metric, t.direction, t.slope, t.timeWindow, now)
  {
    if found != [] {
      var init := found[..|found| - 1];
      TrendRowsMember(init, now, row);
      assert found == init + [found[|found| - 1]];
    }
  }

  /** The reading a detected anomaly row was flagged on: its position in the analysed readings. */
  lemma {:induction false} FlaggedReading(rs: seq<Reading>, sqrt: real -> real, now: real, row: AnomalyRow)
    returns (i: nat)
    requires row in AnomalyRows(Anomalies(rs, sqrt), now)
    ensures i < |rs| && rs[i].id == row.readingId && rs[i].sensorId == row.sensorId
    ensures row.detectedAt == now && 0.5 < row.severity <= 1.0
  {
    AnomalyRowsMember(Anomalies(rs, sqrt), now, row);
    var a :| a in Anomalies(rs, sqrt) && row == AnomalyRow(a.sensorId, a.readingId, a.metric, a.severity, now);
    AnomalyMembers(rs, sqrt, a);
    AnomalySeverities(rs, sqrt);
    var vs := Values(rs, a.metric);
    i :| 0 <= i < |rs| && Flag(rs[i], a.metric, Threshold, Mean(vs), Std(vs, sqrt)) == Some(a);
    FlagRecord(rs[i], a.metric, Threshold, Mean(vs), Std(vs, sqrt));
  }

  /**
   * A stored anomaly row cites a reading of the analysed window: its id,
   * its sensor, a timestamp inside the window and the requested sensor.
   * So the join in get_anomalies finds the reading.
   */
  lemma DetectedRowCitesWindow(db: Database, sensorId: Option<string>, hours: int, now: real, sqrt: real -> real,
                               row: AnomalyRow)
    requires row in AnomalyRows(Anomalies(db.ReadingsInRange(Since(hours, now), now, sensorId), sqrt), now)
    ensures exists r :: (r in db.readings && r.id == row.readingId && r.sensorId == row.sensorId &&
                         Since(hours, now) <= r.timestamp <= now && Wanted(r, sensorId))
  {
    var rs := db.ReadingsInRange(Since(hours, now), now, sensorId);
    var i := FlaggedReading(rs, sqrt, now, row);
    RangeQuery(db, Since(hours, now), now, sensorId, rs[i]);
  }

  /** A stored trend row comes from a trend of the window and records the requested hours as its window. */
  lemma StoredTrendEchoesHours(rs: seq<Reading>, hours: int, now: real, row: TrendRow)
    requires row in TrendRows(Trends.Trends(rs, hours), now)
    ensures row.timeWindow == hours && row.calculatedAt == now && row.direction == Classify(row.slope)
    ensures |Group(rs, row.sensorId)| >= MinTrendReadings
  {
    TrendRowsMember(Trends.Trends(rs, hours), now, row);
    var t :| t in Trends.Trends(rs, hours) && row == TrendRow(t.sensorId, t.metric, t.direction, t.slope, t.timeWindow, now);
    TrendRecords(rs, hours);
    TrendMembers(rs, hours, t);
  }
}
