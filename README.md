# smart-node edge core, modelled in Dafny

This project models the part of the smart-node edge service that stores, analyses and publishes readings from
climate sensors. Each piece becomes a module:

- **Analyzer** and **Trends** (`ml/analyzer.py`, the `ClimateAnalyzer`):
  - z-score anomaly detection over the three metrics;
  - per-sensor linear-regression trends;
  - the one-step prediction.
- **Codec** (`lora/receiver.py`, `_parse_message`): decodes one radio line, JSON first with field aliases, falling back to comma-separated fields.
- **Hub** (`api/websocket.py`, the `ConnectionManager` class): the subscriber list, the failure-tolerant broadcast and the four typed events.
- **Repository** (in place of `db/database.py`): an in-memory store holding:
  - the three tables and the system state;
  - a journal of committed writes, in order.
- **Node** (`main.py`):
  - the ingest callback: store, broadcast, record activity;
  - the power-management tick and loop, which moves an inactive node to idle.
- **Routes** (`api/routes.py`):
  - the HTTP handlers;
  - the analysis endpoints with their count gates and one insert per result;
  - the wake endpoint and the sensor listing.

Supporting modules: **Numerics** (sums, mean, population variance, the closed-form OLS numerator and
denominator, and their algebra), **Strings** (Python's `str.split` and `str.strip`), **Domain** (the shared
records) and **Wrappers** (`Option`).

How the model represents the source:
- Floats are Dafny `real`, so the arithmetic is exact.
- `np.sqrt` is a parameter `sqrt`. The lemmas that need a true square root require `IsSqrt(sqrt)`.
- Timestamps are reals counting seconds. The x axis of a trend is `(t - t0) / 3600`.
- `np.polyfit` of degree 1 over `x = 0..k-1` uses the same closed-form OLS slope.
- Python's stable `list.sort` is a stable insertion sort. `ORDER BY timestamp` uses the same sort. `ORDER BY detected_at` and `ORDER BY calculated_at` use a stable insertion sort on that column (`SortBy`).
- `json.loads`, `float()` and `int()` are parameters. `float()` and `int()` return an `Option`.
- The clock, the send failures of each subscriber and the failures of each repository call are parameters.
- The class methods that change state are proved against specification functions:
  - `DetectAnomalies` returns `Anomalies(readings)`;
  - `AnalyzeTrends` returns `Trends(readings)`;
  - `Broadcast` leaves `RemoveEach(old, Failed(old))`.
  Lemmas then prove what the source promises about those functions.

Behaviour of the code worth knowing, which the model keeps:
- **Degenerate slope.** When every valid point of a metric shares one timestamp, the code computes 0/0.
  - numpy yields `nan`, and the classification calls it "decreasing".
  - `Quotient` models numpy's division outcomes. `SlopeDegenerate` and `FlatTrend` prove the result.
- **Leaving idle.** `update_activity` writes only `last_activity`. Only `POST /system/wake` writes `active`.
- **Ingest order.** Ingest inserts, broadcasts, then records activity.
  - The journal records only repository writes: the insert, then the activity update.
  - The broadcast goes to the hub's send log.
  - A failed activity update still leaves the broadcast sent, which shows that the broadcast comes first.

## Model

| member | source | states |
|---|---|---|
| Analyzer.DetectAnomalies | smart-node/ml/analyzer.py:19-57 | the list built by extending per metric is `Anomalies(readings)`: empty below 10 readings, else the temperature, humidity and air-quality contributions in that order |
| Analyzer.DetectZScoreAnomalies | smart-node/ml/analyzer.py:59-93 | the result is empty with fewer than 3 values or a zero std, and otherwise is the scan of every reading against mean and std |
| Analyzer.ScanReadings | smart-node/ml/analyzer.py:73-91 | the scan loop appends exactly the reports of the readings whose z-score exceeds the threshold, in reading order |
| Analyzer.FlaggedInInputOrder | smart-node/ml/analyzer.py:73-91 | the reports come from strictly increasing reading positions, and every reading over the threshold is among them |
| Analyzer.FlaggedMembers | smart-node/ml/analyzer.py:73-91 | a record is reported iff some reading produces it |
| Analyzer.FlagRecord | smart-node/ml/analyzer.py:74-91 | a reading is reported iff it has the metric and abs((v-mean)/std) > threshold; the record carries that reading's id and sensor, the metric, the value, mean, std, z and severity min(z/5, 1) |
| Analyzer.SeverityBounds | smart-node/ml/analyzer.py:80-81 | a z-score above 2.5 gives a severity in (0.5, 1] |
| Analyzer.ValuesMembers | smart-node/ml/analyzer.py:31-33 | the value list holds exactly the non-null values, and is empty iff no reading has the metric |
| Analyzer.MetricAnomalyMembers | smart-node/ml/analyzer.py:59-93 | a record is in one metric's contribution iff there are at least 3 values, the std is non-zero and some reading produces it |
| Analyzer.AnomalyMembers | smart-node/ml/analyzer.py:19-57 | a record is reported iff there are at least 10 readings, its metric passes the 3-value and zero-std gates, and some reading produces it |
| Analyzer.MetricAnomaliesCarryMetric | smart-node/ml/analyzer.py:85 | every record of a metric's contribution has that metric as its anomaly type |
| Analyzer.AnomaliesInMetricOrder | smart-node/ml/analyzer.py:35-54 | all temperature records come first, then humidity, then air quality |
| Analyzer.AnomalySeverities | smart-node/ml/analyzer.py:78-81 | every reported record has z > 2.5 and severity min(z/5, 1) in (0.5, 1] |
| Analyzer.AtMostOnePerReadingAndMetric | smart-node/ml/analyzer.py:36-91 | when reading ids are distinct, no two records share both reading and metric |
| Analyzer.MetricDistinct | smart-node/ml/analyzer.py:73-91 | when reading ids are distinct, one metric reports each reading at most once |
| Analyzer.StdZeroIffConstant | smart-node/ml/analyzer.py:67-71 | with an exact square root the std is non-negative, and zero iff all values are equal |
| Analyzer.FlatMetricHasNoAnomalies | smart-node/ml/analyzer.py:70-71 | a metric whose values are all equal contributes no record |
| Analyzer.FlaggedIffSquaredDeviation | smart-node/ml/analyzer.py:78-80 | for non-constant values, z > 2.5 iff (v - mean)^2 > 6.25 * variance, so no square root is needed to decide |
| Numerics.VarianceZeroIffConstant | smart-node/ml/analyzer.py:67-70 | the population variance is zero iff all values are equal |
| Numerics.DenominatorZeroIffConstant | smart-node/ml/analyzer.py:173-174 | the OLS denominator n*sum(x^2) - (sum x)^2 is non-negative, and zero iff all x are equal |
| Numerics.LinearNumerator | smart-node/ml/analyzer.py:173-174 | for points on y = a + b*x the OLS numerator is b times the denominator |
| Trends.GroupBySensor | smart-node/ml/analyzer.py:106-112 | the dictionary-building loop yields the sensors in first-appearance order, each mapped to its own readings in input order |
| Trends.SensorOrderMembers | smart-node/ml/analyzer.py:107-114 | the sensor order lists exactly the sensors present, each once |
| Trends.SensorOrderFirstAppearance | smart-node/ml/analyzer.py:107-114 | a sensor listed earlier appears in the input before any reading of a sensor listed later |
| Trends.GroupMembers | smart-node/ml/analyzer.py:108-112 | a sensor's group holds exactly that sensor's readings; it is non-empty iff the sensor is listed |
| Trends.SortByTimeSorted | smart-node/ml/analyzer.py:119 | the sorted group is ordered by timestamp |
| Trends.SortByTimePermutes | smart-node/ml/analyzer.py:119 | sorting keeps every reading, and each as many times as before |
| Trends.Valid | smart-node/ml/analyzer.py:152 | the valid readings are those carrying the metric, and their values are the metric's values in order |
| Trends.Quotient | smart-node/ml/analyzer.py:173-174 | numpy float division: a finite q with q*den == num iff den != 0; nan iff 0/0; +inf or -inf by the numerator's sign |
| Trends.Classify | smart-node/ml/analyzer.py:177-182 | stable iff abs(slope) < 0.01, increasing iff slope >= 0.01, decreasing iff slope <= -0.01; nan and -inf are decreasing and +inf increasing |
| Trends.CollectPoints | smart-node/ml/analyzer.py:159-166 | the x list holds the hours since the first valid reading and the y list the metric values |
| Trends.CalculateTrend | smart-node/ml/analyzer.py:148-190 | the method returns the trend specified by `TrendOf` |
| Trends.TrendOfFacts | smart-node/ml/analyzer.py:152-190 | no trend iff fewer than 3 readings carry the metric; a trend echoes sensor, metric and time window and classifies its slope |
| Trends.ThreePresentIffThreeValues | smart-node/ml/analyzer.py:152-155 | three readings carry the metric iff the metric has at least 3 values |
| Trends.AbscissaeFacts | smart-node/ml/analyzer.py:157-165 | x[0] is 0, and on time-sorted readings the x values are non-negative and non-decreasing |
| Trends.ValidFacts | smart-node/ml/analyzer.py:152 | the valid readings are drawn from the group and stay time-sorted |
| Trends.SlopeDegenerate | smart-node/ml/analyzer.py:168-174 | the slope is never infinite, and it is nan iff all valid readings share one timestamp |
| Trends.TrendOnLine | smart-node/ml/analyzer.py:168-174 | points exactly on y = a + b*x whose x values are not all equal give slope b |
| Trends.FlatTrend | smart-node/ml/analyzer.py:168-182 | constant values give slope 0 and 'stable', or nan and 'decreasing' when all timestamps are equal |
| Trends.MetricTrendMember | smart-node/ml/analyzer.py:122-127 | a metric contributes a trend iff `TrendOf` returns one |
| Trends.SensorTrendMember | smart-node/ml/analyzer.py:121-143 | a trend is in a sensor's list iff it is that sensor's trend for its metric |
| Trends.SensorTrendsOrdered | smart-node/ml/analyzer.py:121-143 | a sensor's trends carry its id, at most one per metric, in the order temperature, humidity, air quality |
| Trends.TrendsOverMembers | smart-node/ml/analyzer.py:114-143 | a trend is produced iff its sensor is scanned and its trend is in that sensor's block |
| Trends.TrendMembers | smart-node/ml/analyzer.py:95-146 | a trend is returned iff there are at least 5 readings overall and 5 for its sensor, and it is the trend of that sensor's time-sorted readings |
| Trends.TrendRecords | smart-node/ml/analyzer.py:184-189 | every trend echoes the time window, has the direction of its slope, and has a slope that is finite or nan |
| Trends.TrendsPerSensor | smart-node/ml/analyzer.py:114-143 | in the output each sensor has at most one trend per metric, in metric order |
| Trends.AnalyzeTrends | smart-node/ml/analyzer.py:95-146 | the grouping, sorting and appending loops return the trends specified by `Trends` |
| Trends.AppendSensorBlock | smart-node/ml/analyzer.py:114-143 | one sensor's pass appends its block, or nothing below 5 readings |
| Trends.Recent | smart-node/ml/analyzer.py:202 | the window is the last min(10, n) values |
| Trends.StepsDenominator | smart-node/ml/analyzer.py:205-209 | the fit over x = 0..k-1 has a positive denominator when k >= 2 |
| Trends.PredictNone | smart-node/ml/analyzer.py:192-199 | there is no prediction iff fewer than 3 readings carry the metric |
| Trends.PredictUsesRecent | smart-node/ml/analyzer.py:201-212 | once the later readings supply 10 values, earlier readings do not change the prediction |
| Trends.PredictOnLine | smart-node/ml/analyzer.py:205-212 | when the recent values lie on a line of slope b, the prediction is the last value plus b |
| Trends.PredictFlat | smart-node/ml/analyzer.py:205-212 | constant values predict that same value |
| Strings.SplitPieces | smart-node/lora/receiver.py:91 | the parts contain no separator, and there is one more part than there are separators |
| Strings.JoinSplit | smart-node/lora/receiver.py:91 | joining the parts with the separator gives back the line |
| Strings.SplitJoin | smart-node/lora/receiver.py:91 | splitting a join of separator-free parts gives back the parts |
| Strings.StripFacts | smart-node/lora/receiver.py:94 | strip removes leading and trailing whitespace and nothing else: the result is a slice with whitespace on both sides and no whitespace at either end |
| Strings.StripIdempotent | smart-node/lora/receiver.py:94 | stripping twice is stripping once |
| Codec.JsonRecord | smart-node/lora/receiver.py:77-87 | a JSON object holding "sensor_id" decodes to the five fields, with temp before temperature, humidity before hum, aqi before air_quality, and null for absent keys |
| Codec.AliasPrecedence | smart-node/lora/receiver.py:83-85 | a present primary key wins over its alias |
| Codec.AliasesInterchangeable | smart-node/lora/receiver.py:83-85 | a message using only one key of an alias pair decodes as if it used the other |
| Codec.JsonWithoutSensorId | smart-node/lora/receiver.py:80-104 | an object without "sensor_id" gives None and the CSV branch is not tried |
| Codec.JsonNotObject | smart-node/lora/receiver.py:77-80 | JSON that is not an object raises when `in` fails or when `.get` follows a true `in`, and otherwise gives None |
| Codec.CsvOnlyWhenMalformed | smart-node/lora/receiver.py:77-88 | the float and int conversions matter only when the line is not JSON |
| Codec.CsvTooShort | smart-node/lora/receiver.py:91-104 | a non-JSON line with fewer than 4 parts gives None |
| Codec.CsvRecord | smart-node/lora/receiver.py:89-104 | a non-JSON line decodes iff it has at least 4 parts and its numeric fields convert; it then has the stripped id, three floats and the rssi of part 4 or none |
| Codec.CsvExtraFieldsIgnored | smart-node/lora/receiver.py:93-99 | parts after index 4 do not change the result |
| Codec.CsvRoundTrip | smart-node/lora/receiver.py:89-99 | a line written as sensor_id,temp,humidity,aqi[,rssi] with inverse formatters decodes back to that reading |
| Hub.ConnectionManager.constructor | smart-node/api/websocket.py:11-12 | the manager starts with no connections |
| Hub.ConnectionManager.Connect | smart-node/api/websocket.py:14-18 | the socket is appended at the end and nothing is sent |
| Hub.ConnectionManager.Disconnect | smart-node/api/websocket.py:20-24 | the first occurrence is removed, and nothing is sent |
| Hub.RemoveAbsent | smart-node/api/websocket.py:22-23 | removing an absent socket leaves the list unchanged |
| Hub.RemovePresent | smart-node/api/websocket.py:22-23 | removing a present socket drops exactly its first occurrence |
| Hub.RemovePresentMultiset | smart-node/api/websocket.py:22-23 | removing a present socket shortens the list by one and removes one copy |
| Hub.ConnectionManager.Broadcast | smart-node/api/websocket.py:26-39 | every connection present at the start gets one attempt, in list order; afterwards each failed one has been removed once, and the failure does not reach the caller |
| Hub.RemoveFailed | smart-node/api/websocket.py:37-39 | with distinct connections, removing the failed ones leaves exactly the successful ones in their original order |
| Hub.RemoveFailedMultiset | smart-node/api/websocket.py:37-39 | without distinctness, the remaining connections are still the successful ones as a multiset |
| Hub.BroadcastOutcome | smart-node/api/websocket.py:28-39 | attempt i goes to connection i with the message, and the survivors are the successful connections |
| Hub.NoFailureKeepsAll | smart-node/api/websocket.py:30-39 | with no failed send, nothing is removed |
| Hub.ConnectionManager.SendReading | smart-node/api/websocket.py:41-47 | broadcasts {type: "reading", data: reading} |
| Hub.ConnectionManager.SendAnomaly | smart-node/api/websocket.py:49-55 | broadcasts {type: "anomaly", data: anomaly} |
| Hub.ConnectionManager.SendTrend | smart-node/api/websocket.py:57-63 | broadcasts {type: "trend", data: trend} |
| Hub.ConnectionManager.SendSystemStatus | smart-node/api/websocket.py:65-71 | broadcasts {type: "system_status", data: status} |
| Repository.Database.constructor | smart-node/db/database.py:12-25 | an empty store with the given system-state row |
| Repository.Database.InsertReading | smart-node/db/database.py:32-41 | appends the reading stamped with the current time, returns a row id no stored reading has, and keeps ids increasing |
| Repository.Database.InsertAnomaly | smart-node/db/database.py:81-89 | appends one anomaly row stamped now; nothing else changes |
| Repository.Database.InsertTrend | smart-node/db/database.py:103-111 | appends one trend row stamped now; nothing else changes |
| Repository.Database.UpdateActivity | smart-node/db/database.py:130-135 | last_activity becomes now; the power mode is untouched |
| Repository.Database.UpdatePowerMode | smart-node/db/database.py:145-151 | only the power mode changes |
| Repository.WindowMember | smart-node/db/database.py:61-79 | the window holds exactly the readings with start <= timestamp <= end of the requested sensor, or of all sensors when none or "" is given |
| Repository.RangeQuery | smart-node/db/database.py:61-79 | a range query returns the window's readings oldest first, each as often as it is stored |
| Repository.RecentQuery | smart-node/db/database.py:43-59 | a recent query returns min(limit, selected) wanted readings, newest first, and no wanted reading it leaves out is later than one it returns |
| Repository.RecentComplete | smart-node/db/database.py:43-59 | within the limit, a recent query returns every wanted reading |
| Repository.RecentAnomaliesOrder | smart-node/db/database.py:91-101 | the anomaly query lists min(limit, stored) stored rows, latest detected_at first, and no row it leaves out was detected after a row it lists |
| Repository.RecentAnomaliesInInsertOrder | smart-node/db/database.py:91-101 | when detected_at never decreases from one insert to the next, the anomaly query is the last rows inserted, newest first |
| Repository.NewestFacts | smart-node/db/database.py:97 | ORDER BY key DESC LIMIT n: the rows are stored rows in descending key order, and none left out has a later key than one returned |
| Repository.LatestTrendsFacts | smart-node/db/database.py:113-128 | the trend query returns the min(3, own) latest rows of the named sensor, or the min(10, stored) latest rows of all, latest calculated_at first, and no row of the selection left out was calculated after a row returned |
| Repository.NewestAfterInsert | smart-node/api/routes.py:42-45 | after an insert the newest reading is stored and no earlier than the new one, and it is the new one when nothing stored is later |
| Node.PowerTick | smart-node/main.py:76-96 | with a successful read and write, the mode becomes idle iff there is a last activity, the mode is active and more than 300 s have passed; then one system_status event with "idle" and the elapsed seconds goes out; otherwise nothing changes |
| Node.PowerManagement | smart-node/main.py:72-99 | over any run of ticks, faults included, the mode is never set to active and only the mode changes; at most one idle write happens; an idle node stays untouched; an active node goes idle iff some tick fires; only idle status events are sent |
| Node.HandleLoraData | smart-node/main.py:35-61 | a failed insert changes nothing; otherwise the reading is stored and broadcast as "reading" with its row id and timestamp "now"; a successful activity update is journaled after the insert, and a failed one still leaves the broadcast sent |
| Node.WholeNumberStrength | smart-node/main.py:43-48 | a message whose signal strength arrives as a whole float is stored with that integer strength |
| Routes.CreateReading | smart-node/api/routes.py:28-47 | records activity, then inserts; answers with the newest stored reading, which is the new one unless a stored reading is later |
| Routes.GetReadings | smart-node/api/routes.py:49-68 | records activity, then returns the last hours oldest first, or the newest limit readings |
| Routes.GetSensors | smart-node/api/routes.py:70-79 | records activity, then returns the distinct sensor ids of the newest 1000 readings, with count equal to their number and at most 1000 |
| Routes.SensorIdsBound | smart-node/api/routes.py:77-79 | there are no more distinct ids than readings |
| Routes.SensorListing | smart-node/api/routes.py:76-79 | every listed id has a stored reading, and with at most 1000 readings every stored sensor is listed |
| Routes.GetAnomalies | smart-node/api/routes.py:81-88 | records activity, then returns the anomaly query |
| Routes.GetTrends | smart-node/api/routes.py:126-133 | records activity, then returns the trend query |
| Routes.RunAnomalyDetection | smart-node/api/routes.py:90-124 | records activity; below 10 readings in range it reports no data and inserts nothing; otherwise it inserts one row per anomaly and reports the anomaly and reading counts |
| Routes.StoreAnomalies | smart-node/api/routes.py:112-118 | one insert per anomaly with its sensor, reading, type and severity, in order |
| Routes.AnomalyRowsMember | smart-node/api/routes.py:112-118 | a row is stored iff some anomaly has that sensor, reading, type and severity |
| Routes.FlaggedReading | smart-node/api/routes.py:109-118 | each stored row's reading id and sensor are those of an analysed reading, and its severity lies in (0.5, 1] |
| Routes.DetectedRowCitesWindow | smart-node/api/routes.py:100-118 | a stored row cites a stored reading of the requested sensor inside the analysed window |
| Routes.RunTrendAnalysis | smart-node/api/routes.py:135-170 | records activity; below 5 readings in range it reports no data and inserts nothing; otherwise it inserts one row per trend with hours as the window and reports the counts |
| Routes.StoreTrends | smart-node/api/routes.py:157-164 | one insert per trend, in order |
| Routes.TrendRowsMember | smart-node/api/routes.py:157-164 | a row is stored iff some trend has those fields |
| Routes.StoredTrendEchoesHours | smart-node/api/routes.py:154-164 | every stored trend row has the requested hours as its window and a direction matching its slope, and its sensor had at least 5 readings |
| Routes.GetSystemState | smart-node/api/routes.py:172-177 | returns the stored state and records no activity |
| Routes.WakeSystem | smart-node/api/routes.py:179-185 | sets the mode to active, then records activity; this is the only handler that writes active |

## Left out

Runtime and environment:
- Serial I/O, the radio listener's poll loop and its sleeps: these are I/O. The model starts from the decoded line.
- FastAPI, uvicorn, CORS, the app lifespan and the websocket receive loop: this is framework code. Query bounds become preconditions.
- Concurrency: awaits interleaving broadcasts with connect/disconnect, the power task racing request handlers, and task cancellation. Every operation is one sequential step.
- `websocket.accept()` failing in `connect`: this is I/O. Connect always appends.
- Logging.
- Floating-point rounding: values are exact reals.
  - numpy's `nan` and `inf` are modelled only where the OLS division makes them.
  - A `float()` that parses "nan" or "inf" stands for an oracle result like any other.

Configuration and clock:
- The `IDLE_TIMEOUT` environment override: the default of 300 s is a constant.
- The 30-second sleep between ticks: the tick times are a parameter.
- UTC versus local time: `datetime.now()` and SQLite's `CURRENT_TIMESTAMP` are read as one clock, passed to each call.
- Text timestamps: the repository compares ISO strings in SQL, and the model compares numbers.
- A handler's calls read one clock value, so all its writes share one `now`.

Repository:
- The schema file is not part of this model.
  - The initial system-state row is a constructor argument.
  - The anomaly and trend row ids and `ml_last_run` are not modelled.
- Row timestamps are the `now` passed in. Nothing requires a later insert to get a later stamp. The anomaly and trend queries sort on the stamps, as the SQL does.
- Ordering ties: when timestamps are equal, `ORDER BY … DESC` has no defined order in SQLite. The model lists the later-inserted row first.
- The join in `get_anomalies`:
  - the joined reading columns are not returned;
  - the model returns every anomaly row. `Routes.DetectedRowCitesWindow` shows that every row the analysis endpoint stores has its reading.
- Repository faults: a failed call in a route handler ends the request with an HTTP error, and is not modelled. Faults are modelled only where `main.py` catches them (the ingest insert and activity update, and the tick's read and write).

Ingest:
- Node.HandleLoraData: some decoded messages cannot be stored by the model and are treated like a failed insert: nothing is stored or broadcast and no activity is recorded. These are a sensor id that is not text, a metric that is neither a number nor null, and a signal strength that is a fractional number, text or a boolean. SQLite would store such values with its dynamic typing, and the source would then broadcast the message and record activity.

Analysis:
- `Analyzer.AtMostOnePerReadingAndMetric` requires distinct reading ids, which stored readings have. The model has no lemma carrying that fact through the range query.
- `predict_next_value` is not called by any handler. It is modelled as the functions `Predict` and `PredictFrom`, with lemmas.
- Node.PowerManagement: the source loop never ends. The model covers any finite run of ticks.
