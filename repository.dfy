/**
 * The store behind the edge node, in place of the SQLite wrapper of
 * smart-node/db/database.py: the sensor_readings, anomalies and trends
 * tables, the single system_state row, and the queries main.py and
 * routes.py make. Row timestamps (CURRENT_TIMESTAMP defaults) are the
 * clock reading passed to each write, in seconds.
 */
module Repository {
  import opened Wrappers
  import opened Domain
  import opened Trends

  /** A row of the anomalies table. */
  datatype AnomalyRow = AnomalyRow(sensorId: string, readingId: int, anomalyType: Metric, severity: real,
                                   detectedAt: real)

  /** A row of the trends table. */
  datatype TrendRow = TrendRow(sensorId: string, metric: Metric, direction: Direction, slope: Slope,
                               timeWindow: int, calculatedAt: real)

  /** The system_state row, as get_system_state returns it. */
  datatype SystemState = SystemState(lastActivity: Option<real>, powerMode: string)

  /** One committed write, in commit order. */
  datatype Write =
    | ReadingInserted(id: int)
    | AnomalyInserted(anomaly: AnomalyRow)
    | TrendInserted(trend: TrendRow)
    | ActivityUpdated(at: real)
    | PowerModeSet(mode: string)

  /**
   * The optional sensor_id filter: `if sensor_id:` filters only on a
   * non-empty id, so None and "" both select every sensor.
   */
  predicate Wanted(r: Reading, sensorId: Option<string>)
  {
    sensorId.None? || sensorId.value == "" || r.sensorId == sensorId.value
  }

  /** WHERE [sensor_id = ? AND] timestamp BETWEEN start AND end, in table order. */
  function Window(rs: seq<Reading>, start: real, end: real, sensorId: Option<string>): seq<Reading>
  {
    if rs == [] then []
    else
      var r := rs[|rs| - 1];
      Window(rs[..|rs| - 1], start, end, sensorId) + if start <= r.timestamp <= end && Wanted(r, sensorId) then [r] else []
  }

  /** WHERE [sensor_id = ?], in table order. */
  function Selected(rs: seq<Reading>, sensorId: Option<string>): seq<Reading>
  {
    if rs == [] then []
    else Selected(rs[..|rs| - 1], sensorId) + if Wanted(rs[|rs| - 1], sensorId) then [rs[|rs| - 1]] else []
  }

  function Reverse<T>(s: seq<T>): (r: seq<T>)
    ensures |r| == |s|
    ensures forall i :: 0 <= i < |s| ==> r[i] == s[|s| - 1 - i]
  {
    if s == [] then [] else Reverse(s[1..]) + [s[0]]
  }

  /** LIMIT n */
  function Take<T>(s: seq<T>, n: nat): seq<T>
  {
    if |s| <= n then s else s[..n]
  }

  // ---------------------------------------------------------------------
  // ORDER BY <stamp> DESC on the anomaly and trend tables
  // ---------------------------------------------------------------------

  function DetectedAt(row: AnomalyRow): real
  {
    row.detectedAt
  }

  function CalculatedAt(row: TrendRow): real
  {
    row.calculatedAt
  }

  /** Inserts x before the first element whose key is not below its own. */
  function InsertBy<T>(x: T, s: seq<T>, key: T -> real): (r: seq<T>)
    ensures |r| == |s| + 1
  {
    if s == [] then [x]
    else if key(x) <= key(s[0]) then [x] + s
    else [s[0]] + InsertBy(x, s[1..], key)
  }

  /** A stable sort on key, ascending: rows with equal keys keep table order. */
  function SortBy<T>(s: seq<T>, key: T -> real): (r: seq<T>)
    ensures |r| == |s|
  {
    if s == [] then [] else InsertBy(s[0], SortBy(s[1..], key), key)
  }

  /**
   * ORDER BY key DESC LIMIT n. SQLite leaves the order of equal keys open;
   * the later row is listed first.
   */
  function Newest<T>(s: seq<T>, key: T -> real, n: nat): (r: seq<T>)
    ensures |r| == if |s| <= n then |s| else n
  {
    TakePrefix(Reverse(SortBy(s, key)), n);
    Take(Reverse(SortBy(s, key)), n)
  }

  predicate AscendingBy<T>(s: seq<T>, key: T -> real)
  {
    forall j, k :: 0 <= j < k < |s| ==> key(s[j]) <= key(s[k])
  }

  predicate DescendingBy<T>(s: seq<T>, key: T -> real)
  {
    forall j, k :: 0 <= j < k < |s| ==> key(s[j]) >= key(s[k])
  }

  lemma {:induction false} InsertByMembers<T>(x: T, s: seq<T>, key: T -> real)
    ensures multiset(InsertBy(x, s, key)) == multiset(s) + multiset{x}
  {
    if s != [] && key(x) > key(s[0]) {
      InsertByMembers(x, s[1..], key);
      assert s == [s[0]] + s[1..];
    }
  }

  lemma {:induction false} InsertByAscending<T>(x: T, s: seq<T>, key: T -> real)
    requires AscendingBy(s, key)
    ensures AscendingBy(InsertBy(x, s, key), key)
  {
    if s != [] && key(x) > key(s[0]) {
      var t := s[1..];
      assert AscendingBy(t, key) by {
        forall j, k | 0 <= j < k < |t| ensures key(t[j]) <= key(t[k]) {
          assert t[j] == s[j + 1] && t[k] == s[k + 1];
        }
      }
      InsertByAscending(x, t, key);
      InsertByMembers(x, t, key);
      var u := InsertBy(x, t, key);
      forall k | 0 <= k < |u| ensures key(s[0]) <= key(u[k]) {
        assert u[k] in multiset(t) + multiset{x};
        if u[k] != x {
          var i :| 0 <= i < |t| && t[i] == u[k];
          assert s[i + 1] == u[k];
        }
      }
      PrependAscending(s[0], u, key);
    }
  }

  lemma PrependAscending<T>(a: T, u: seq<T>, key: T -> real)
    requires AscendingBy(u, key) && forall k :: 0 <= k < |u| ==> key(a) <= key(u[k])
    ensures AscendingBy([a] + u, key)
  {
    var w := [a] + u;
    forall j, k | 0 <= j < k < |w| ensures key(w[j]) <= key(w[k]) {
      assert w[k] == u[k - 1];
      if j > 0 {
        assert w[j] == u[j - 1];
      }
    }
  }

  lemma {:induction false} SortByFacts<T>(s: seq<T>, key: T -> real)
    ensures multiset(SortBy(s, key)) == multiset(s)
    ensures AscendingBy(SortBy(s, key), key)
  {
    if s != [] {
      SortByFacts(s[1..], key);
      InsertByMembers(s[0], SortBy(s[1..], key), key);
      InsertByAscending(s[0], SortBy(s[1..], key), key);
      assert s == [s[0]] + s[1..];
    }
  }

  /** Rows already in key order are left in table order. */
  lemma {:induction false} SortByOrdered<T>(s: seq<T>, key: T -> real)
    requires AscendingBy(s, key)
    ensures SortBy(s, key) == s
  {
    if s != [] {
      SortByOrdered(s[1..], key);
    }
  }

  /** No element after a prefix of a descending sequence has a later key than one inside it. */
  lemma PrefixLatestBy<T>(s: seq<T>, key: T -> real, n: nat, x: T, y: T)
    requires DescendingBy(s, key) && x in s && x !in Take(s, n) && y in Take(s, n)
    ensures key(x) <= key(y)
  {
    TakePrefix(s, n);
    var t := Take(s, n);
    forall i | 0 <= i < |t| ensures s[i] != x {
      assert t[i] == s[i];
    }
    var j :| 0 <= j < |s| && s[j] == x;
    var i :| 0 <= i < |t| && t[i] == y;
    assert s[i] == y;
  }

  lemma ReverseAscendingBy<T>(s: seq<T>, key: T -> real)
    requires AscendingBy(s, key)
    ensures DescendingBy(Reverse(s), key)
  {
    var r := Reverse(s);
    forall j, k | 0 <= j < k < |r| ensures key(r[j]) >= key(r[k]) {
      assert r[j] == s[|s| - 1 - j] && r[k] == s[|s| - 1 - k];
    }
  }

  lemma TakeDescendingBy<T>(s: seq<T>, key: T -> real, n: nat)
    requires DescendingBy(s, key)
    ensures DescendingBy(Take(s, n), key)
  {
    TakePrefix(s, n);
    var t := Take(s, n);
    forall j, k | 0 <= j < k < |t| ensures key(t[j]) >= key(t[k]) {
      assert t[j] == s[j] && t[k] == s[k];
    }
  }

  lemma TakeMultiset<T>(s: seq<T>, n: nat)
    ensures multiset(Take(s, n)) <= multiset(s)
  {
    TakePrefix(s, n);
    assert s == Take(s, n) + s[|Take(s, n)|..];
  }

  /**
   * The newest n rows: stored rows, latest key first, and no row left out
   * has a later key than a row returned.
   */
  lemma {:induction false} NewestFacts<T>(s: seq<T>, key: T -> real, n: nat, x: T, y: T)
    ensures DescendingBy(Newest(s, key, n), key)
    ensures multiset(Newest(s, key, n)) <= multiset(s)
    ensures x in s && x !in Newest(s, key, n) && y in Newest(s, key, n) ==> key(x) <= key(y)
  {
    var sorted := SortBy(s, key);
    SortByFacts(s, key);
    ReverseMultiset(sorted);
    ReverseAscendingBy(sorted, key);
    var rev := Reverse(sorted);
    TakeDescendingBy(rev, key, n);
    TakeMultiset(rev, n);
    if x in s && x !in Newest(s, key, n) && y in Newest(s, key, n) {
      assert x in multiset(rev);
      PrefixLatestBy(rev, key, n, x, y);
    }
  }

  /** When keys never decrease in table order, the newest rows are the last ones stored. */
  lemma {:induction false} NewestOrdered<T>(s: seq<T>, key: T -> real, n: nat)
    requires AscendingBy(s, key)
    ensures forall i :: 0 <= i < |Newest(s, key, n)| ==> Newest(s, key, n)[i] == s[|s| - 1 - i]
  {
    SortByOrdered(s, key);
    TakePrefix(Reverse(s), n);
  }

  predicate SortedDescending(s: seq<Reading>)
  {
    forall j, k :: 0 <= j < k < |s| ==> s[j].timestamp >= s[k].timestamp
  }

  /** Table order of row ids: strictly increasing, and all below the next id to hand out. */
  predicate IdsBelow(rs: seq<Reading>, next: int)
  {
    (forall j, k :: 0 <= j < k < |rs| ==> rs[j].id < rs[k].id) && forall j :: 0 <= j < |rs| ==> rs[j].id < next
  }

  class Database {
    var readings: seq<Reading>
    var anomalies: seq<AnomalyRow>
    var trends: seq<TrendRow>
    var lastActivity: Option<real>
    var powerMode: string
    /** The rowid the next inserted reading receives. */
    var nextId: int
    var journal: seq<Write>

    predicate Valid()
      reads this
    {
      IdsBelow(readings, nextId)
    }

    /** An empty store whose system_state row holds the given values. */
    constructor(mode: string, activity: Option<real>)
      ensures Valid()
      ensures readings == [] && anomalies == [] && trends == [] && journal == []
      ensures lastActivity == activity && powerMode == mode
    {
      readings := [];
      anomalies := [];
      trends := [];
      lastActivity := activity;
      powerMode := mode;
      nextId := 1;
      journal := [];
    }

    /** insert_reading: append a row stamped now and return its fresh rowid. */
    method InsertReading(sensorId: string, temperature: Option<real>, humidity: Option<real>,
                         airQuality: Option<real>, rssi: Option<int>, now: real)
      returns (id: int)
      requires Valid()
      modifies this
      ensures Valid()
      ensures id == old(nextId) && nextId == id + 1
      ensures readings == old(readings) + [Reading(id, sensorId, temperature, humidity, airQuality, rssi, now)]
      ensures journal == old(journal) + [ReadingInserted(id)]
      ensures forall j :: 0 <= j < |old(readings)| ==> old(readings)[j].id != id
      ensures anomalies == old(anomalies) && trends == old(trends)
      ensures lastActivity == old(lastActivity) && powerMode == old(powerMode)
    {
      id := nextId;
      readings := readings + [Reading(id, sensorId, temperature, humidity, airQuality, rssi, now)];
      nextId := nextId + 1;
      journal := journal + [ReadingInserted(id)];
    }

    method InsertAnomaly(sensorId: string, readingId: int, anomalyType: Metric, severity: real, now: real)
      modifies this
      ensures anomalies == old(anomalies) + [AnomalyRow(sensorId, readingId, anomalyType, severity, now)]
      ensures journal == old(journal) + [AnomalyInserted(AnomalyRow(sensorId, readingId, anomalyType, severity, now))]
      ensures readings == old(readings) && nextId == old(nextId) && trends == old(trends)
      ensures lastActivity == old(lastActivity) && powerMode == old(powerMode)
    {
      var row := AnomalyRow(sensorId, readingId, anomalyType, severity, now);
      anomalies := anomalies + [row];
      journal := journal + [AnomalyInserted(row)];
    }

    method InsertTrend(sensorId: string, metric: Metric, direction: Direction, slope: Slope, timeWindow: int,
                       now: real)
      modifies this
      ensures trends == old(trends) + [TrendRow(sensorId, metric, direction, slope, timeWindow, now)]
      ensures journal == old(journal) + [TrendInserted(TrendRow(sensorId, metric, direction, slope, timeWindow, now))]
      ensures readings == old(readings) && nextId == old(nextId) && anomalies == old(anomalies)
      ensures lastActivity == old(lastActivity) && powerMode == old(powerMode)
    {
      var row := TrendRow(sensorId, metric, direction, slope, timeWindow, now);
      trends := trends + [row];
      journal := journal + [TrendInserted(row)];
    }

    /** update_activity: last_activity becomes the current time; nothing else changes, the mode included. */
    method UpdateActivity(now: real)
      modifies this
      ensures lastActivity == Some(now) && powerMode == old(powerMode)
      ensures journal == old(journal) + [ActivityUpdated(now)]
      ensures readings == old(readings) && nextId == old(nextId) && anomalies == old(anomalies) && trends == old(trends)
    {
      lastActivity := Some(now);
      journal := journal + [ActivityUpdated(now)];
    }

    /** update_power_mode */
    method UpdatePowerMode(mode: string)
      modifies this
      ensures powerMode == mode && lastActivity == old(lastActivity)
      ensures journal == old(journal) + [PowerModeSet(mode)]
      ensures readings == old(readings) && nextId == old(nextId) && anomalies == old(anomalies) && trends == old(trends)
    {
      powerMode := mode;
      journal := journal + [PowerModeSet(mode)];
    }

    /** get_system_state */
    function State(): SystemState
      reads this
    {
      SystemState(lastActivity, powerMode)
    }

    /** get_readings_in_range: the readings in [start, end], oldest first. */
    function ReadingsInRange(start: real, end: real, sensorId: Option<string>): seq<Reading>
      reads this
    {
      SortByTime(Window(readings, start, end, sensorId))
    }

    /** get_recent_readings: at most limit readings, newest first. */
    function RecentReadings(limit: nat, sensorId: Option<string>): seq<Reading>
      reads this
    {
      Take(Reverse(SortByTime(Selected(readings, sensorId))), limit)
    }

    /** get_anomalies: ORDER BY detected_at DESC LIMIT limit. */
    function RecentAnomalies(limit: nat): seq<AnomalyRow>
      reads this
    {
      Newest(anomalies, DetectedAt, limit)
    }

    /** get_latest_trends: ORDER BY calculated_at DESC, LIMIT 3 for one sensor or LIMIT 10 for all. */
    function LatestTrends(sensorId: Option<string>): seq<TrendRow>
      reads this
    {
      if sensorId.Some? && sensorId.value != "" then Newest(TrendsOf(trends, sensorId.value), CalculatedAt, 3)
      else Newest(trends, CalculatedAt, 10)
    }
  }

  function TrendsOf(rows: seq<TrendRow>, sensorId: string): seq<TrendRow>
  {
    if rows == [] then []
    else TrendsOf(rows[..|rows| - 1], sensorId) + if rows[|rows| - 1].sensorId == sensorId then [rows[|rows| - 1]] else []
  }

  // ---------------------------------------------------------------------
  // Properties of the queries
  // ---------------------------------------------------------------------

  /** The time window holds exactly the wanted readings with start <= timestamp <= end. */
  lemma {:induction false} WindowMember(rs: seq<Reading>, start: real, end: real, sensorId: Option<string>, r: Reading)
    ensures r in Window(rs, start, end, sensorId) <==> r in rs && start <= r.timestamp <= end && Wanted(r, sensorId)
  {
    if rs != [] {
      WindowMember(rs[..|rs| - 1], start, end, sensorId, r);
      assert rs == rs[..|rs| - 1] + [rs[|rs| - 1]];
    }
  }

  /** The selection holds exactly the wanted readings. */
  lemma {:induction false} SelectedMember(rs: seq<Reading>, sensorId: Option<string>, r: Reading)
    ensures r in Selected(rs, sensorId) <==> r in rs && Wanted(r, sensorId)
    ensures |Selected(rs, sensorId)| <= |rs|
  {
    if rs != [] {
      SelectedMember(rs[..|rs| - 1], sensorId, r);
      assert rs == rs[..|rs| - 1] + [rs[|rs| - 1]];
    }
  }

  /**
   * A range query returns, oldest first, every reading of the window and
   * nothing else, each as often as it is stored.
   */
  lemma {:induction false} RangeQuery(db: Database, start: real, end: real, sensorId: Option<string>, r: Reading)
    ensures SortedByTime(db.ReadingsInRange(start, end, sensorId))
    ensures multiset(db.ReadingsInRange(start, end, sensorId)) == multiset(Window(db.readings, start, end, sensorId))
    ensures r in db.ReadingsInRange(start, end, sensorId) <==>
      r in db.readings && start <= r.timestamp <= end && Wanted(r, sensorId)
  {
    var w := Window(db.readings, start, end, sensorId);
    SortByTimeSorted(w);
    SortByTimePermutes(w);
    WindowMember(db.readings, start, end, sensorId, r);
    assert r in SortByTime(w) <==> r in multiset(SortByTime(w));
  }

  /** Reversing an oldest-first sequence gives a newest-first one. */
  lemma {:induction false} ReverseSorted(s: seq<Reading>)
    requires SortedByTime(s)
    ensures SortedDescending(Reverse(s))
  {
    var r := Reverse(s);
    forall j, k | 0 <= j < k < |r| ensures r[j].timestamp >= r[k].timestamp {
      assert r[j] == s[|s| - 1 - j] && r[k] == s[|s| - 1 - k];
    }
  }

  /** Reversal keeps the elements. */
  lemma {:induction false} ReverseMultiset<T>(s: seq<T>)
    ensures multiset(Reverse(s)) == multiset(s)
  {
    if s != [] {
      ReverseMultiset(s[1..]);
      assert s == [s[0]] + s[1..];
    }
  }

  /** LIMIT n keeps the first min(n, |s|) elements, in order. */
  lemma TakePrefix<T>(s: seq<T>, n: nat)
    ensures |Take(s, n)| == if |s| <= n then |s| else n
    ensures Take(s, n) == s[..|Take(s, n)|]
  {
  }

  /** A prefix of a newest-first sequence is newest-first. */
  lemma PrefixDescending(s: seq<Reading>, k: nat)
    requires k <= |s| && SortedDescending(s)
    ensures SortedDescending(s[..k])
  {
    assert forall j :: 0 <= j < k ==> s[..k][j] == s[j];
  }

  /**
   * A recent-readings query returns min(limit, selected) wanted readings,
   * newest first.
   */
  lemma {:induction false} RecentQuery(db: Database, limit: nat, sensorId: Option<string>, r: Reading, x: Reading)
    ensures SortedDescending(db.RecentReadings(limit, sensorId))
    ensures |db.RecentReadings(limit, sensorId)| == if |Selected(db.readings, sensorId)| <= limit
      then |Selected(db.readings, sensorId)| else limit
    ensures r in db.RecentReadings(limit, sensorId) ==> r in db.readings && Wanted(r, sensorId)
    ensures (x in db.readings && Wanted(x, sensorId) && x !in db.RecentReadings(limit, sensorId)
             && r in db.RecentReadings(limit, sensorId)) ==> x.timestamp <= r.timestamp
  {
    SelectedMember(db.readings, sensorId, x);
    var sel := Selected(db.readings, sensorId);
    var sorted := SortByTime(sel);
    SortByTimeSorted(sel);
    SortByTimePermutes(sel);
    ReverseSorted(sorted);
    ReverseMultiset(sorted);
    SelectedMember(db.readings, sensorId, r);
    var rev := Reverse(sorted);
    TakePrefix(rev, limit);
    PrefixDescending(rev, |Take(rev, limit)|);
    if r in Take(rev, limit) {
      assert r in multiset(rev);
      if x in sel && x !in Take(rev, limit) {
        assert x in multiset(rev);
        PrefixNewest(rev, limit, x, r);
      }
    }
  }

  /** No element after a prefix of a newest-first sequence is later than one inside it. */
  lemma PrefixNewest(s: seq<Reading>, n: nat, x: Reading, y: Reading)
    requires SortedDescending(s) && x in s && x !in Take(s, n) && y in Take(s, n)
    ensures x.timestamp <= y.timestamp
  {
    TakePrefix(s, n);
    var t := Take(s, n);
    forall i | 0 <= i < |t| ensures s[i] != x {
      assert t[i] == s[i];
    }
    var j :| 0 <= j < |s| && s[j] == x;
    var i :| 0 <= i < |t| && t[i] == y;
    assert s[i] == y;
  }

  /** Every reading is wanted when no sensor is named. */
  lemma {:induction false} SelectedAll(rs: seq<Reading>)
    ensures Selected(rs, None) == rs
  {
    if rs != [] {
      SelectedAll(rs[..|rs| - 1]);
    }
  }

  lemma {:induction false} InsertBeforeLatest(a: Reading, t: seq<Reading>, x: Reading)
    requires a.timestamp <= x.timestamp
    ensures Insert(a, t + [x]) == Insert(a, t) + [x]
  {
    if t != [] {
      assert t + [x] == [t[0]] + (t[1..] + [x]);
      if a.timestamp > t[0].timestamp {
        InsertBeforeLatest(a, t[1..], x);
      }
    }
  }

  /** A reading no earlier than all the others sorts last. */
  lemma {:induction false} SortLatest(s: seq<Reading>, x: Reading)
    requires forall i :: 0 <= i < |s| ==> s[i].timestamp <= x.timestamp
    ensures SortByTime(s + [x]) == SortByTime(s) + [x]
  {
    if s != [] {
      assert (s + [x])[1..] == s[1..] + [x];
      SortLatest(s[1..], x);
      InsertBeforeLatest(s[0], SortByTime(s[1..]), x);
    }
  }

  /**
   * The newest reading is the latest row when no stored reading is later:
   * equal timestamps list the higher rowid first.
   */
  lemma {:induction false} NewestIsLatest(rs: seq<Reading>, x: Reading)
    requires forall i :: 0 <= i < |rs| ==> rs[i].timestamp <= x.timestamp
    ensures Take(Reverse(SortByTime(Selected(rs + [x], None))), 1) == [x]
  {
    SelectedAll(rs + [x]);
    SortLatest(rs, x);
    var rev := Reverse(SortByTime(rs) + [x]);
    assert rev[0] == x;
  }

  /** With at most limit wanted readings, a recent-readings query lists all of them. */
  lemma {:induction false} RecentComplete(db: Database, limit: nat, sensorId: Option<string>, r: Reading)
    requires |Selected(db.readings, sensorId)| <= limit
    ensures r in db.RecentReadings(limit, sensorId) <==> r in db.readings && Wanted(r, sensorId)
  {
    var sel := Selected(db.readings, sensorId);
    SortByTimePermutes(sel);
    ReverseMultiset(SortByTime(sel));
    SelectedMember(db.readings, sensorId, r);
    assert r in Reverse(SortByTime(sel)) <==> r in multiset(Reverse(SortByTime(sel)));
  }

  lemma {:induction false} TrendsOfMember(rows: seq<TrendRow>, sensorId: string, row: TrendRow)
    ensures row in TrendsOf(rows, sensorId) <==> row in rows && row.sensorId == sensorId
  {
    if rows != [] {
      TrendsOfMember(rows[..|rows| - 1], sensorId, row);
      assert rows == rows[..|rows| - 1] + [rows[|rows| - 1]];
    }
  }

  /**
   * get_anomalies lists min(limit, stored) stored rows, latest detected
   * first, and no row it leaves out was detected after a row it lists.
   */
  lemma {:induction false} RecentAnomaliesOrder(db: Database, limit: nat, x: AnomalyRow, y: AnomalyRow)
    ensures |db.RecentAnomalies(limit)| == if |db.anomalies| <= limit then |db.anomalies| else limit
    ensures forall j, k :: 0 <= j < k < |db.RecentAnomalies(limit)| ==>
      db.RecentAnomalies(limit)[j].detectedAt >= db.RecentAnomalies(limit)[k].detectedAt
    ensures multiset(db.RecentAnomalies(limit)) <= multiset(db.anomalies)
    ensures x in db.anomalies && x !in db.RecentAnomalies(limit) && y in db.RecentAnomalies(limit) ==>
      x.detectedAt <= y.detectedAt
  {
    NewestFacts(db.anomalies, DetectedAt, limit, x, y);
    var r := db.RecentAnomalies(limit);
    assert DescendingBy(r, DetectedAt);
    forall j, k | 0 <= j < k < |r| ensures r[j].detectedAt >= r[k].detectedAt {
      assert DetectedAt(r[j]) >= DetectedAt(r[k]);
    }
  }

  /**
   * When detection stamps never decrease from one insert to the next,
   * get_anomalies lists the last rows inserted, the latest first.
   */
  lemma {:induction false} RecentAnomaliesInInsertOrder(db: Database, limit: nat)
    requires forall j, k :: 0 <= j < k < |db.anomalies| ==> db.anomalies[j].detectedAt <= db.anomalies[k].detectedAt
    ensures forall i :: 0 <= i < |db.RecentAnomalies(limit)| ==>
      db.RecentAnomalies(limit)[i] == db.anomalies[|db.anomalies| - 1 - i]
  {
    assert AscendingBy(db.anomalies, DetectedAt);
    NewestOrdered(db.anomalies, DetectedAt, limit);
  }

  /**
   * get_latest_trends returns the min(3, own) latest rows of the named
   * sensor, or the min(10, stored) latest rows when no sensor is named,
   * latest calculated first: no row of the selection left out was
   * calculated after a row returned.
   */
  lemma {:induction false} LatestTrendsFacts(db: Database, sensorId: Option<string>, x: TrendRow, y: TrendRow)
    ensures sensorId.Some? && sensorId.value != "" ==>
      |db.LatestTrends(sensorId)| == if |TrendsOf(db.trends, sensorId.value)| <= 3
        then |TrendsOf(db.trends, sensorId.value)| else 3
    ensures sensorId.None? || sensorId.value == "" ==>
      |db.LatestTrends(sensorId)| == if |db.trends| <= 10 then |db.trends| else 10
    ensures forall j, k :: 0 <= j < k < |db.LatestTrends(sensorId)| ==>
      db.LatestTrends(sensorId)[j].calculatedAt >= db.LatestTrends(sensorId)[k].calculatedAt
    ensures y in db.LatestTrends(sensorId) ==> y in db.trends
    ensures y in db.LatestTrends(sensorId) && sensorId.Some? && sensorId.value != "" ==> y.sensorId == sensorId.value
    ensures (x in db.trends && (sensorId.None? || sensorId.value == "" || x.sensorId == sensorId.value)
             && x !in db.LatestTrends(sensorId) && y in db.LatestTrends(sensorId)) ==>
      x.calculatedAt <= y.calculatedAt
  {
    var r := db.LatestTrends(sensorId);
    if sensorId.Some? && sensorId.value != "" {
      var own := TrendsOf(db.trends, sensorId.value);
      NewestFacts(own, CalculatedAt, 3, x, y);
      TrendsOfMember(db.trends, sensorId.value, x);
      TrendsOfMember(db.trends, sensorId.value, y);
      if y in r {
        assert y in multiset(r);
        assert y in multiset(own);
      }
    } else {
      NewestFacts(db.trends, CalculatedAt, 10, x, y);
      if y in r {
        assert y in multiset(r);
      }
    }
    forall j, k | 0 <= j < k < |r| ensures r[j].calculatedAt >= r[k].calculatedAt {
      assert CalculatedAt(r[j]) >= CalculatedAt(r[k]);
    }
  }

  /** The head of a newest-first sequence is no earlier than any of its elements. */
  lemma DescendingHead(s: seq<Reading>, x: Reading)
    requires SortedDescending(s) && x in s
    ensures s[0].timestamp >= x.timestamp
  {
    var k :| 0 <= k < |s| && s[k] == x;
    if k > 0 {
      assert s[0].timestamp >= s[k].timestamp;
    }
  }

  /** The newest reading of a non-empty store is stored and no earlier than any stored reading. */
  lemma {:induction false} NewestReading(rs: seq<Reading>, x: Reading)
    requires x in rs
    ensures |Take(Reverse(SortByTime(rs)), 1)| == 1
    ensures Take(Reverse(SortByTime(rs)), 1)[0] in rs
    ensures Take(Reverse(SortByTime(rs)), 1)[0].timestamp >= x.timestamp
  {
    var sorted := SortByTime(rs);
    SortByTimeSorted(rs);
    SortByTimePermutes(rs);
    ReverseSorted(sorted);
    ReverseMultiset(sorted);
    var rev := Reverse(sorted);
    assert multiset(rev) == multiset(rs);
    assert x in multiset(rev);
    assert rev[0] in multiset(rs);
    DescendingHead(rev, x);
    TakePrefix(rev, 1);
  }

  /**
   * After storing x, the newest reading is stored, is no earlier than x,
   * and is x itself when no earlier-stored reading is later than x.
   */
  lemma {:induction false} NewestAfterInsert(before: seq<Reading>, x: Reading)
    ensures |Take(Reverse(SortByTime(Selected(before + [x], None))), 1)| == 1
    ensures Take(Reverse(SortByTime(Selected(before + [x], None))), 1)[0] in before + [x]
    ensures Take(Reverse(SortByTime(Selected(before + [x], None))), 1)[0].timestamp >= x.timestamp
    ensures (forall i :: 0 <= i < |before| ==> before[i].timestamp <= x.timestamp) ==>
      Take(Reverse(SortByTime(Selected(before + [x], None))), 1) == [x]
  {
    SelectedAll(before + [x]);
    NewestReading(before + [x], x);
    if forall i :: 0 <= i < |before| ==> before[i].timestamp <= x.timestamp {
      NewestIsLatest(before, x);
    }
  }
}
