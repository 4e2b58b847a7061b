/**
 * The records the edge node passes between its parts: stored sensor
 * readings, detected anomalies and calculated trends (the rows of the
 * sensor_readings, anomalies and trends tables and the dicts the analyzer
 * builds from them).
 */
module Domain {
  import opened Wrappers

  /** The three measured quantities, in the order the analyzer visits them. */
  datatype Metric = Temperature | Humidity | AirQuality

  /** The column and dictionary key naming a metric. */
  function MetricName(m: Metric): (name: string)
    ensures name in {"temperature", "humidity", "air_quality"}
  {
    match m
    case Temperature => "temperature"
    case Humidity => "humidity"
    case AirQuality => "air_quality"
  }

  /** Position of a metric in the visiting order temperature, humidity, air_quality. */
  function Rank(m: Metric): (k: nat)
    ensures k < 3
  {
    match m
    case Temperature => 0
    case Humidity => 1
    case AirQuality => 2
  }

  lemma RankInjective(m: Metric, m': Metric)
    ensures Rank(m) == Rank(m') <==> m == m'
    ensures MetricName(m) == MetricName(m') <==> m == m'
  {
  }

  /**
   * A stored reading. The timestamp is the moment of the insert, in seconds
   * on a common clock; each metric may be null.
   */
  datatype Reading = Reading(
    id: int,
    sensorId: string,
    temperature: Option<real>,
    humidity: Option<real>,
    airQuality: Option<real>,
    rssi: Option<int>,
    timestamp: real)

  /** reading[metric] */
  function Get(r: Reading, m: Metric): Option<real>
  {
    match m
    case Temperature => r.temperature
    case Humidity => r.humidity
    case AirQuality => r.airQuality
  }

  /** One z-score anomaly: which reading, which metric, and the statistics behind it. */
  datatype Anomaly = Anomaly(
    readingId: int,
    sensorId: string,
    metric: Metric,
    severity: real,
    value: real,
    mean: real,
    std: real,
    zScore: real)

  datatype Direction = Increasing | Decreasing | Stable

  /**
   * A float64 quotient as numpy computes it: a finite value, or, when the
   * divisor is zero, NaN (0/0) or an infinity of the dividend's sign.
   */
  datatype Slope = Finite(value: real) | NaN | PosInf | NegInf

  /** One trend analysis result. */
  datatype Trend = Trend(
    sensorId: string,
    metric: Metric,
    direction: Direction,
    slope: Slope,
    timeWindow: int)
}
