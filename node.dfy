/**
 * The edge node's background behaviour in smart-node/main.py: the ingest
 * callback that stores, broadcasts and stamps activity for each decoded
 * radio message, and the power-management loop that switches an inactive
 * node to idle. Repository failures, which the source catches and logs,
 * are boolean fault parameters; the clock is a parameter.
 */
module Node {
  import opened Wrappers
  import opened Domain
  import opened Codec
  import opened Hub
  import opened Repository

  /** IDLE_TIMEOUT, in seconds (its default; the environment override is not modelled). */
  const IdleTimeout: real := 300.0

  /** The tick's decision: activity is recorded, the node is active and has been quiet strictly longer than the timeout. */
  predicate ShouldIdle(lastActivity: Option<real>, mode: string, now: real)
  {
    lastActivity.Some? && mode == "active" && now - lastActivity.value > IdleTimeout
  }

  /** A tick whose state read and mode write both succeed and whose decision is to idle. */
  predicate Fires(lastActivity: Option<real>, mode: string, now: real, readOk: bool, writeOk: bool)
  {
    readOk && writeOk && ShouldIdle(lastActivity, mode, now)
  }

  /** The status event broadcast on entering idle mode. */
  function IdleStatus(lastActivity: real, now: real): Envelope
  {
    Envelope("system_status", StatusData("idle", now - lastActivity))
  }

  /** A system_status event announcing idle mode. */
  predicate IdleEvent(e: Envelope)
  {
    e.kind == "system_status" && e.data.StatusData? && e.data.powerMode == "idle"
  }

  /**
   * One iteration of power_management_task. A failed state read or mode
   * write raises inside the try block: the tick then changes nothing.
   */
  method PowerTick(db: Database, hub: ConnectionManager, now: real, readOk: bool, writeOk: bool, fails: seq<bool>)
    requires |fails| == |hub.connections|
    modifies db, hub
    ensures Fires(old(db.lastActivity), old(db.powerMode), now, readOk, writeOk) ==>
      db.powerMode == "idle" && db.journal == old(db.journal) + [PowerModeSet("idle")]
      && hub.sent == old(hub.sent) + Attempts(old(hub.connections), IdleStatus(old(db.lastActivity).value, now), fails)
      && hub.connections == RemoveEach(old(hub.connections), Failed(old(hub.connections), fails))
    ensures !Fires(old(db.lastActivity), old(db.powerMode), now, readOk, writeOk) ==>
      unchanged(db) && unchanged(hub)
    ensures db.lastActivity == old(db.lastActivity) && db.readings == old(db.readings) && db.nextId == old(db.nextId)
    ensures db.anomalies == old(db.anomalies) && db.trends == old(db.trends)
  {
    if !readOk {
      return;
    }
    var state := db.State();
    if state.lastActivity.Some? && state.powerMode == "active" {
      var idleSeconds := now - state.lastActivity.value;
      if idleSeconds > IdleTimeout {
        if !writeOk {
          return;
        }
        db.UpdatePowerMode("idle");
        hub.SendSystemStatus("idle", idleSeconds, fails);
      }
    }
  }

  /** The send failures of one tick's subscribers, drawn from an oracle over (tick, socket). */
  function TickFailures(k: nat, cs: seq<Socket>, fails: (nat, Socket) -> bool): (r: seq<bool>)
    ensures |r| == |cs|
  {
    seq(|cs|, j requires 0 <= j < |cs| => fails(k, cs[j]))
  }

  /**
   * A finite run of the power-management loop: tick k reads the clock
   * clock[k] and its repository calls succeed as readOk[k] and writeOk[k];
   * a failed tick does not stop the loop. Across the run the mode is never
   * set to active, at most one idle transition is written, an idle node
   * stays idle and untouched, and an active node goes idle exactly when
   * some tick fires.
   */
  method PowerManagement(db: Database, hub: ConnectionManager, clock: seq<real>, readOk: seq<bool>, writeOk: seq<bool>,
                         fails: (nat, Socket) -> bool)
    requires |readOk| == |clock| && |writeOk| == |clock|
    modifies db, hub
    ensures db.lastActivity == old(db.lastActivity) && db.readings == old(db.readings) && db.nextId == old(db.nextId)
    ensures db.anomalies == old(db.anomalies) && db.trends == old(db.trends)
    ensures db.powerMode == old(db.powerMode) || db.powerMode == "idle"
    ensures db.powerMode == old(db.powerMode) ==> unchanged(db) && unchanged(hub)
    ensures db.powerMode != old(db.powerMode) ==>
      old(db.powerMode) == "active" && db.journal == old(db.journal) + [PowerModeSet("idle")]
    ensures old(db.powerMode) != "active" ==> unchanged(db) && unchanged(hub)
    ensures old(db.powerMode) == "active" ==>
      (db.powerMode == "idle" <==>
       exists k :: 0 <= k < |clock| && Fires(old(db.lastActivity), "active", clock[k], readOk[k], writeOk[k]))
    ensures forall j :: |old(hub.sent)| <= j < |hub.sent| ==>
      IdleEvent(hub.sent[j].envelope)
  {
    for i := 0 to |clock|
      invariant db.lastActivity == old(db.lastActivity) && db.readings == old(db.readings) && db.nextId == old(db.nextId)
      invariant db.anomalies == old(db.anomalies) && db.trends == old(db.trends)
      invariant db.powerMode == old(db.powerMode) || db.powerMode == "idle"
      invariant db.powerMode == old(db.powerMode) ==> unchanged(db) && unchanged(hub)
      invariant db.powerMode != old(db.powerMode) ==>
        old(db.powerMode) == "active" && db.journal == old(db.journal) + [PowerModeSet("idle")]
      invariant old(db.powerMode) == "active" ==>
        (db.powerMode == "idle" <==>
         exists k :: 0 <= k < i && Fires(old(db.lastActivity), "active", clock[k], readOk[k], writeOk[k]))
      invariant forall j :: |old(hub.sent)| <= j < |hub.sent| ==>
        IdleEvent(hub.sent[j].envelope)
    {
      var before := hub.sent;
      PowerTick(db, hub, clock[i], readOk[i], writeOk[i], TickFailures(i, hub.connections, fails));
      assert forall j :: |before| <= j < |hub.sent| ==> IdleEvent(hub.sent[j].envelope);
    }
  }

  /**
   * The repository columns of a decoded message: a text sensor id, numeric
   * or null metrics and an integer or null signal strength. Any other
   * value is not representable in the model.
   */
  datatype Columns = Columns(sensorId: string, temperature: Option<real>, humidity: Option<real>,
                             airQuality: Option<real>, rssi: Option<int>)

  function Measure(v: Value): Option<Option<real>>
  {
    match v
    case Null => Some(None)
    case Number(x) => Some(Some(x))
    case Integer(i) => Some(Some(i as real))
    case _ => None
  }

  /** The signal strength column: null, an integer, or a JSON number with no fractional part. */
  function Strength(v: Value): Option<Option<int>>
  {
    match v
    case Null => Some(None)
    case Integer(i) => Some(Some(i))
    case Number(x) => if x.Floor as real == x then Some(Some(x.Floor)) else None
    case _ => None
  }

  function ToColumns(m: Message): Option<Columns>
  {
    if m.sensorId.Text? && Measure(m.temperature).Some? && Measure(m.humidity).Some?
       && Measure(m.airQuality).Some? && Strength(m.rssi).Some?
    then Some(Columns(m.sensorId.text, Measure(m.temperature).value, Measure(m.humidity).value,
                      Measure(m.airQuality).value, Strength(m.rssi).value))
    else None
  }

  /** A signal strength decoded as a whole float is stored as that integer, with the rest of the message. */
  lemma WholeNumberStrength(id: string, t: real, rssi: int)
    ensures ToColumns(Message(Text(id), Number(t), Null, Null, Number(rssi as real)))
      == Some(Columns(id, Some(t), None, None, Some(rssi)))
  {
  }

  /** The reading a successful insert of these columns stores. */
  function Stored(c: Columns, id: int, now: real): Reading
  {
    Reading(id, c.sensorId, c.temperature, c.humidity, c.airQuality, c.rssi, now)
  }

  /**
   * handle_lora_data: insert the reading, stamp the payload with the row id
   * and the placeholder timestamp "now", broadcast it, then record
   * activity. A failing insert raises before anything happens; a failing
   * activity update raises after the broadcast. Either is swallowed.
   */
  method HandleLoraData(db: Database, hub: ConnectionManager, data: Message, now: real, insertOk: bool,
                        activityOk: bool, fails: seq<bool>)
    requires db.Valid()
    requires |fails| == |hub.connections|
    modifies db, hub
    ensures db.Valid()
    ensures !insertOk || ToColumns(data).None? ==> unchanged(db) && unchanged(hub)
    ensures insertOk && ToColumns(data).Some? ==>
      var id := old(db.nextId);
      db.readings == old(db.readings) + [Stored(ToColumns(data).value, id, now)]
      && db.journal == old(db.journal) + [ReadingInserted(id)] + (if activityOk then [ActivityUpdated(now)] else [])
      && db.lastActivity == (if activityOk then Some(now) else old(db.lastActivity))
      && hub.sent == old(hub.sent) + Attempts(old(hub.connections), Envelope("reading", ReadingData(data, id, "now")), fails)
      && hub.connections == RemoveEach(old(hub.connections), Failed(old(hub.connections), fails))
    ensures db.powerMode == old(db.powerMode) && db.anomalies == old(db.anomalies) && db.trends == old(db.trends)
  {
    var columns := ToColumns(data);
    if !insertOk || columns.None? {
      return;
    }
    var c := columns.value;
    var id := db.InsertReading(c.sensorId, c.temperature, c.humidity, c.airQuality, c.rssi, now);
    hub.SendReading(data, id, "now", fails);
    if activityOk {
      db.UpdateActivity(now);
    }
  }
}
