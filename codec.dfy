/**
 * LoRaReceiver._parse_message (smart-node/lora/receiver.py): one line from
 * the radio becomes a record of five fields, read first as JSON and, when
 * the line is not JSON at all, as comma-separated fields
 * "sensor_id,temp,humidity,aqi[,rssi]".
 *
 * json.loads, float() and int() are parameters: the decoder is modelled
 * for every behaviour of them, and the lemmas say which of their answers
 * matter.
 */
module Codec {
  import opened Wrappers
  import opened Strings

  /** A Python value held in a decoded field. */
  datatype Value =
    | Null
    | Text(text: string)
    | Number(number: real)
    | Integer(integer: int)
    | Other   // a boolean, list or object taken over from JSON as it is

  /**
   * What json.loads makes of a line: a decoding error, an object, a list
   * or string (where `"sensor_id" in data` tests membership, or substring,
   * with the given answer), or a number, boolean or null (where that test
   * raises a TypeError).
   */
  datatype Json =
    | Malformed
    | Object(fields: map<string, Value>)
    | Container(holdsSensorId: bool)
    | Scalar

  /** The decoded record the receiver hands to its callback. */
  datatype Message = Message(sensorId: Value, temperature: Value, humidity: Value, airQuality: Value, rssi: Value)

  /**
   * The result of one call: a record; None; or an exception that escapes
   * the method (to the listening loop, which logs it and goes on).
   */
  datatype Outcome = Decoded(message: Message) | Rejected | Raised

  const CsvSeparator: char := ','
  /** The fewest comma-separated parts a CSV line needs. */
  const MinCsvParts: nat := 4

  /** data.get(key, default) */
  function GetOr(fields: map<string, Value>, key: string, default: Value): Value
  {
    if key in fields then fields[key] else default
  }

  /** The record built from a JSON object holding "sensor_id", with its aliases. */
  function FromObject(fields: map<string, Value>): Message
  {
    Message(
      GetOr(fields, "sensor_id", Null),
      GetOr(fields, "temp", GetOr(fields, "temperature", Null)),
      GetOr(fields, "humidity", GetOr(fields, "hum", Null)),
      GetOr(fields, "aqi", GetOr(fields, "air_quality", Null)),
      GetOr(fields, "rssi", Null))
  }

  /**
   * The CSV branch on the parts of the line: None when there are fewer than
   * four parts or when any float() or int() conversion raises ValueError.
   */
  function FromCsv(parts: seq<string>, toFloat: string -> Option<real>, toInt: string -> Option<int>): Option<Message>
  {
    if |parts| < MinCsvParts then None
    else
      var t, h, a := toFloat(parts[1]), toFloat(parts[2]), toFloat(parts[3]);
      var rssi := if |parts| > MinCsvParts then toInt(parts[4]) else None;
      if t.None? || h.None? || a.None? || (|parts| > MinCsvParts && rssi.None?) then None
      else
        Some(Message(
          Text(Strip(parts[0])), Number(t.value), Number(h.value), Number(a.value),
          if |parts| > MinCsvParts then Integer(rssi.value) else Null))
  }

  /** _parse_message(message) */
  function ParseMessage(message: string, loads: string -> Json, toFloat: string -> Option<real>,
                        toInt: string -> Option<int>): Outcome
  {
    match loads(message)
    case Object(fields) => if "sensor_id" in fields then Decoded(FromObject(fields)) else Rejected
    case Container(holds) => if holds then Raised else Rejected
    case Scalar => Raised
    case Malformed =>
      match FromCsv(Split(message, CsvSeparator), toFloat, toInt)
      case Some(m) => Decoded(m)
      case None => Rejected
  }

  // ---------------------------------------------------------------------
  // JSON lines
  // ---------------------------------------------------------------------

  /**
   * A JSON object holding "sensor_id" decodes to exactly the five fields,
   * each the value of the first of its keys present, and None when none is.
   */
  lemma JsonRecord(message: string, loads: string -> Json, toFloat: string -> Option<real>,
                   toInt: string -> Option<int>, fields: map<string, Value>)
    requires loads(message) == Object(fields) && "sensor_id" in fields
    ensures ParseMessage(message, loads, toFloat, toInt).Decoded?
    ensures ParseMessage(message, loads, toFloat, toInt).message.sensorId == fields["sensor_id"]
    ensures ParseMessage(message, loads, toFloat, toInt).message.temperature ==
      if "temp" in fields then fields["temp"] else if "temperature" in fields then fields["temperature"] else Null
    ensures ParseMessage(message, loads, toFloat, toInt).message.humidity ==
      if "humidity" in fields then fields["humidity"] else if "hum" in fields then fields["hum"] else Null
    ensures ParseMessage(message, loads, toFloat, toInt).message.airQuality ==
      if "aqi" in fields then fields["aqi"] else if "air_quality" in fields then fields["air_quality"] else Null
    ensures ParseMessage(message, loads, toFloat, toInt).message.rssi ==
      if "rssi" in fields then fields["rssi"] else Null
  {
  }

  /** A JSON line without "sensor_id" is rejected; the CSV reading is never tried. */
  lemma JsonWithoutSensorId(message: string, loads: string -> Json, toFloat: string -> Option<real>,
                            toInt: string -> Option<int>)
    requires loads(message).Object? && "sensor_id" !in loads(message).fields
    ensures ParseMessage(message, loads, toFloat, toInt) == Rejected
  {
  }

  /**
   * JSON that is not an object: a number, boolean or null raises, as does a
   * list or string that holds "sensor_id" (on .get); any other is rejected.
   */
  lemma JsonNotObject(message: string, loads: string -> Json, toFloat: string -> Option<real>,
                      toInt: string -> Option<int>)
    requires !loads(message).Object? && !loads(message).Malformed?
    ensures ParseMessage(message, loads, toFloat, toInt) == Raised <==>
      loads(message) == Scalar || loads(message) == Container(true)
    ensures ParseMessage(message, loads, toFloat, toInt) == Rejected <==> loads(message) == Container(false)
  {
  }

  /** Whether the JSON decoder ever reads a line as CSV: only when json.loads fails. */
  lemma CsvOnlyWhenMalformed(message: string, loads: string -> Json, toFloat: string -> Option<real>,
                             toInt: string -> Option<int>, toFloat': string -> Option<real>,
                             toInt': string -> Option<int>)
    requires !loads(message).Malformed?
    ensures ParseMessage(message, loads, toFloat, toInt) == ParseMessage(message, loads, toFloat', toInt')
  {
  }

  /** The key moved by renaming one alias to another, keeping its value. */
  function Rename(fields: map<string, Value>, from: string, to: string): map<string, Value>
    requires from in fields
  {
    (fields - {from})[to := fields[from]]
  }

  /**
   * Either alias of a field gives the same record when it is the only one
   * of its pair present: "temp"/"temperature", "humidity"/"hum" and
   * "aqi"/"air_quality" are interchangeable.
   */
  lemma AliasesInterchangeable(fields: map<string, Value>)
    ensures "temp" in fields && "temperature" !in fields ==>
      FromObject(Rename(fields, "temp", "temperature")) == FromObject(fields)
    ensures "hum" in fields && "humidity" !in fields ==>
      FromObject(Rename(fields, "hum", "humidity")) == FromObject(fields)
    ensures "aqi" in fields && "air_quality" !in fields ==>
      FromObject(Rename(fields, "aqi", "air_quality")) == FromObject(fields)
  {
  }

  /** Precedence by key presence: "temp" beats "temperature" even when its value is null. */
  lemma AliasPrecedence(fields: map<string, Value>)
    ensures "temp" in fields ==> FromObject(fields).temperature == fields["temp"]
    ensures "humidity" in fields ==> FromObject(fields).humidity == fields["humidity"]
    ensures "aqi" in fields ==> FromObject(fields).airQuality == fields["aqi"]
  {
  }

  // ---------------------------------------------------------------------
  // CSV lines
  // ---------------------------------------------------------------------

  /** A non-JSON line with fewer than four comma-separated parts is rejected. */
  lemma CsvTooShort(message: string, loads: string -> Json, toFloat: string -> Option<real>,
                    toInt: string -> Option<int>)
    requires loads(message) == Malformed && |Split(message, CsvSeparator)| < MinCsvParts
    ensures ParseMessage(message, loads, toFloat, toInt) == Rejected
  {
    SplitPieces(message, CsvSeparator);
  }

  /** The conversions a CSV line of these parts needs all succeed. */
  predicate CsvConvertible(parts: seq<string>, toFloat: string -> Option<real>, toInt: string -> Option<int>)
    requires |parts| >= MinCsvParts
  {
    toFloat(parts[1]).Some? && toFloat(parts[2]).Some? && toFloat(parts[3]).Some?
    && (|parts| > MinCsvParts ==> toInt(parts[4]).Some?)
  }

  /**
   * A non-JSON line decodes exactly when it has at least four parts and its
   * numeric fields convert; the record is then the stripped first part, the
   * three floats and the integer fifth part (None without one), and the
   * parts after the fifth are ignored.
   */
  lemma CsvRecord(message: string, loads: string -> Json, toFloat: string -> Option<real>,
                  toInt: string -> Option<int>)
    requires loads(message) == Malformed
    ensures ParseMessage(message, loads, toFloat, toInt).Decoded? <==>
      |Split(message, CsvSeparator)| >= MinCsvParts && CsvConvertible(Split(message, CsvSeparator), toFloat, toInt)
    ensures ParseMessage(message, loads, toFloat, toInt).Decoded? ==>
      CsvFields(Split(message, CsvSeparator), toFloat, toInt, ParseMessage(message, loads, toFloat, toInt).message)
  {
  }

  /** The fields of a record decoded from these CSV parts. */
  predicate CsvFields(parts: seq<string>, toFloat: string -> Option<real>, toInt: string -> Option<int>, m: Message)
  {
    |parts| >= MinCsvParts
    && m.sensorId == Text(Strip(parts[0]))
    && m.temperature.Number? && toFloat(parts[1]) == Some(m.temperature.number)
    && m.humidity.Number? && toFloat(parts[2]) == Some(m.humidity.number)
    && m.airQuality.Number? && toFloat(parts[3]) == Some(m.airQuality.number)
    && (|parts| > MinCsvParts ==> m.rssi.Integer? && toInt(parts[4]) == Some(m.rssi.integer))
    && (|parts| == MinCsvParts ==> m.rssi == Null)
  }

  /** Parts after the fifth are ignored: appending more fields to a five-part line changes nothing. */
  lemma CsvExtraFieldsIgnored(message: string, extra: string, loads: string -> Json,
                              toFloat: string -> Option<real>, toInt: string -> Option<int>)
    requires loads(message) == Malformed && loads(message + [CsvSeparator] + extra) == Malformed
    requires |Split(message, CsvSeparator)| > MinCsvParts
    ensures ParseMessage(message + [CsvSeparator] + extra, loads, toFloat, toInt) ==
            ParseMessage(message, loads, toFloat, toInt)
  {
    SplitConcat(message, extra, CsvSeparator);
    var parts, longer := Split(message, CsvSeparator), Split(message + [CsvSeparator] + extra, CsvSeparator);
    assert longer[..|parts|] == parts;
  }

  // ---------------------------------------------------------------------
  // Round trip from a CSV reading
  // ---------------------------------------------------------------------

  /** What a sensor sends in the CSV format. */
  datatype CsvReading = CsvReading(sensorId: string, temperature: real, humidity: real, airQuality: real,
                                   rssi: Option<int>)

  /** The line a sensor writes for a reading, through number formatters. */
  function CsvLine(r: CsvReading, showReal: real -> string, showInt: int -> string): string
  {
    var head := r.sensorId + [CsvSeparator] + showReal(r.temperature) + [CsvSeparator] + showReal(r.humidity)
                + [CsvSeparator] + showReal(r.airQuality);
    match r.rssi
    case None => head
    case Some(n) => head + [CsvSeparator] + showInt(n)
  }

  /** The formatters write no commas and float()/int() read back what they write. */
  ghost predicate Inverse(showReal: real -> string, showInt: int -> string,
                    toFloat: string -> Option<real>, toInt: string -> Option<int>)
  {
    (forall x :: CsvSeparator !in showReal(x) && toFloat(showReal(x)) == Some(x))
    && (forall n :: CsvSeparator !in showInt(n) && toInt(showInt(n)) == Some(n))
  }

  /**
   * Decoding the line a sensor sends gives back its reading, provided the
   * line is not JSON, the sensor id has no comma and no surrounding
   * whitespace, and the number formats read back exactly.
   */
  lemma CsvRoundTrip(r: CsvReading, showReal: real -> string, showInt: int -> string, loads: string -> Json,
                     toFloat: string -> Option<real>, toInt: string -> Option<int>)
    requires Inverse(showReal, showInt, toFloat, toInt)
    requires CsvSeparator !in r.sensorId && Strip(r.sensorId) == r.sensorId
    requires loads(CsvLine(r, showReal, showInt)) == Malformed
    ensures ParseMessage(CsvLine(r, showReal, showInt), loads, toFloat, toInt) ==
      Decoded(Message(Text(r.sensorId), Number(r.temperature), Number(r.humidity), Number(r.airQuality),
                      match r.rssi case None => Null case Some(n) => Integer(n)))
  {
    var t, h, a := showReal(r.temperature), showReal(r.humidity), showReal(r.airQuality);
    var line := CsvLine(r, showReal, showInt);
    SplitFree(r.sensorId, CsvSeparator);
    SplitSnoc(r.sensorId, t, CsvSeparator);
    SplitSnoc(r.sensorId + [CsvSeparator] + t, h, CsvSeparator);
    var head := r.sensorId + [CsvSeparator] + t + [CsvSeparator] + h + [CsvSeparator] + a;
    SplitSnoc(r.sensorId + [CsvSeparator] + t + [CsvSeparator] + h, a, CsvSeparator);
    assert Split(head, CsvSeparator) == [r.sensorId, t, h, a];
    match r.rssi
    case None =>
    case Some(n) =>
      SplitSnoc(head, showInt(n), CsvSeparator);
  }

  /** Appending a separator and a piece without one adds that piece. */
  lemma SplitSnoc(x: string, last: string, sep: char)
    requires sep !in last
    ensures Split(x + [sep] + last, sep) == Split(x, sep) + [last]
  {
    SplitConcat(x, last, sep);
    SplitFree(last, sep);
  }
}
