/**
  `AISMessageProcessor` (utils/ais_message_processor.py, copied in
  database.py): turns one decoded AIS message into an update of the two
  in-memory maps and the database call it makes. Position messages replace
  a vessel's detail entry, static messages merge into it.
*/
module Processor {
  import opened Common
  import opened Text
  import opened Decoded

  /** The in-memory position of a vessel, `{"lat": .., "lon": ..}`. */
  datatype LatLon = LatLon(lat: real, lon: real)

  /** The database call a processed message ends with. */
  datatype StoreCall = SavePosition(mmsi: string, info: Record) | SaveStatic(mmsi: string, info: Record)

  /** The state after one message and the call it made, if any. */
  datatype Outcome = Outcome(ships: map<string, LatLon>, details: map<string, Record>, call: Option<StoreCall>)

  /** (attribute of the decoded message, key of the detail entry) */
  type FieldMap = seq<(string, string)>

  const OptionalFields: FieldMap := [
    ("speed", "speed"), ("course", "course"), ("heading", "heading"),
    ("status", "nav_status"), ("turn", "turn_rate"), ("accuracy", "position_accuracy")]

  const StaticFields: FieldMap := [
    ("shipname", "ship_name"), ("ship_type", "ship_type"), ("callsign", "callsign"),
    ("imo", "imo"), ("destination", "destination"), ("eta_month", "eta_month"),
    ("eta_day", "eta_day"), ("eta_hour", "eta_hour"), ("eta_minute", "eta_minute"),
    ("draught", "draught"), ("to_bow", "to_bow"), ("to_stern", "to_stern"),
    ("to_port", "to_port"), ("to_starboard", "to_starboard")]

  /** Both coordinates are numbers and neither is the "not available"
      value of the AIS position report (latitude 91, longitude 181). */
  predicate ValidCoordinates(lat: Coordinate, lon: Coordinate) {
    lat.Degrees? && lon.Degrees? && lat.deg != 91.0 && lon.deg != 181.0
  }

  /** `value.strip('@').strip()` for strings; other values unchanged. */
  function Clean(v: Scalar): (c: Scalar)
    ensures c.Str? <==> v.Str?
    ensures c.Str? && c.s != [] ==> !IsSpace(c.s[0]) && !IsSpace(c.s[|c.s| - 1])
    ensures !v.Str? ==> c == v
  {
    if v.Str? then Str(Strip(Strip(v.s, IsAt), IsSpace)) else v
  }

  /** What the position loop stores for an attribute: its value when the
      message has it and it is not `None`. */
  function PositionValue(attrs: map<string, Scalar>, attr: string): (v: Option<Scalar>)
    ensures v.Some? <==> attr in attrs && attrs[attr] != Null
    ensures v.Some? ==> v.value == attrs[attr]
  {
    if attr in attrs && attrs[attr] != Null then Some(attrs[attr]) else None
  }

  /** What the static loop stores for an attribute: its cleaned value when
      that is truthy (`None` is falsy, so it is never stored). */
  function StaticValue(attrs: map<string, Scalar>, attr: string): (v: Option<Scalar>)
    ensures v.Some? <==> attr in attrs && Truthy(Clean(attrs[attr]))
    ensures v.Some? ==> v.value == Clean(attrs[attr]) && v.value != Null
  {
    if attr in attrs && Truthy(Clean(attrs[attr])) then Some(Clean(attrs[attr])) else None
  }

  /** The `for attr, key in fields` loop: for each pair in order, store the
      value `pick` chooses under `key`, or leave the entry alone. */
  function Apply(info: Record, attrs: map<string, Scalar>, fields: FieldMap,
                 pick: (map<string, Scalar>, string) -> Option<Scalar>): Record
    decreases |fields|
  {
    if fields == [] then info
    else
      var v := pick(attrs, fields[0].0);
      Apply(if v.Some? then info[fields[0].1 := v.value] else info, attrs, fields[1..], pick)
  }

  predicate DistinctKeys(fields: FieldMap) {
    forall i, j :: 0 <= i < j < |fields| ==> fields[i].1 != fields[j].1
  }

  predicate NotAKey(fields: FieldMap, k: string) {
    forall i :: 0 <= i < |fields| ==> fields[i].1 != k
  }

  /** A key no pair names keeps its old value (or stays absent). */
  lemma {:induction false} ApplyElsewhere(info: Record, attrs: map<string, Scalar>, fields: FieldMap,
                                          pick: (map<string, Scalar>, string) -> Option<Scalar>, k: string)
    requires NotAKey(fields, k)
    ensures Get(Apply(info, attrs, fields, pick), k) == Get(info, k)
    decreases |fields|
  {
    if fields != [] {
      var v := pick(attrs, fields[0].0);
      var info' := if v.Some? then info[fields[0].1 := v.value] else info;
      assert fields[0].1 != k;
      assert Get(info', k) == Get(info, k);
      assert NotAKey(fields[1..], k) by {
        forall i | 0 <= i < |fields[1..]| ensures fields[1..][i].1 != k {
          assert fields[1..][i] == fields[i + 1];
        }
      }
      ApplyElsewhere(info', attrs, fields[1..], pick, k);
    }
  }

  /** The key of pair `j` holds the value chosen for it, or its old value
      when nothing was chosen (keys are distinct, so nothing overwrites it). */
  lemma {:induction false} ApplyAt(info: Record, attrs: map<string, Scalar>, fields: FieldMap,
                                   pick: (map<string, Scalar>, string) -> Option<Scalar>, j: int)
    requires DistinctKeys(fields) && 0 <= j < |fields|
    ensures Get(Apply(info, attrs, fields, pick), fields[j].1) ==
      (var v := pick(attrs, fields[j].0); if v.Some? then v else Get(info, fields[j].1))
    decreases |fields|
  {
    var v := pick(attrs, fields[0].0);
    var info' := if v.Some? then info[fields[0].1 := v.value] else info;
    var rest := fields[1..];
    assert DistinctKeys(rest) by {
      forall i, i' | 0 <= i < i' < |rest| ensures rest[i].1 != rest[i'].1 {
        assert rest[i] == fields[i + 1] && rest[i'] == fields[i' + 1];
      }
    }
    if j == 0 {
      assert NotAKey(rest, fields[0].1) by {
        forall i | 0 <= i < |rest| ensures rest[i].1 != fields[0].1 {
          assert rest[i] == fields[i + 1];
        }
      }
      ApplyElsewhere(info', attrs, rest, pick, fields[0].1);
    } else {
      assert rest[j - 1] == fields[j];
      ApplyAt(info', attrs, rest, pick, j - 1);
      assert fields[0].1 != fields[j].1;
      assert Get(info', fields[j].1) == Get(info, fields[j].1);
    }
  }

  /** One turn of the loop over the pairs from `i` on. */
  lemma ApplyStep(info: Record, attrs: map<string, Scalar>, fields: FieldMap,
                  pick: (map<string, Scalar>, string) -> Option<Scalar>, i: int)
    requires 0 <= i < |fields|
    ensures Apply(info, attrs, fields[i..], pick) ==
      (var v := pick(attrs, fields[i].0);
       Apply(if v.Some? then info[fields[i].1 := v.value] else info, attrs, fields[i + 1..], pick))
  {
    assert fields[i..][1..] == fields[i + 1..];
  }

  /** Applying the same message's fields a second time changes nothing. */
  lemma ApplyTwice(info: Record, attrs: map<string, Scalar>, fields: FieldMap,
                   pick: (map<string, Scalar>, string) -> Option<Scalar>)
    requires DistinctKeys(fields)
    ensures Apply(Apply(info, attrs, fields, pick), attrs, fields, pick) == Apply(info, attrs, fields, pick)
  {
    var once := Apply(info, attrs, fields, pick);
    var twice := Apply(once, attrs, fields, pick);
    forall k ensures Get(twice, k) == Get(once, k) {
      if j :| 0 <= j < |fields| && fields[j].1 == k {
        ApplyAt(info, attrs, fields, pick, j);
        ApplyAt(once, attrs, fields, pick, j);
      } else {
        ApplyElsewhere(info, attrs, fields, pick, k);
        ApplyElsewhere(once, attrs, fields, pick, k);
      }
    }
    assert forall k :: k in twice <==> Get(twice, k).Some?;
    assert forall k :: k in once <==> Get(once, k).Some?;
    assert twice.Keys == once.Keys;
    assert forall k | k in once :: twice[k] == Get(twice, k).value;
  }

  /** Applying never removes a key. */
  lemma {:induction false} ApplyKeepsKeys(info: Record, attrs: map<string, Scalar>, fields: FieldMap,
                                          pick: (map<string, Scalar>, string) -> Option<Scalar>)
    ensures info.Keys <= Apply(info, attrs, fields, pick).Keys
    decreases |fields|
  {
    if fields != [] {
      var v := pick(attrs, fields[0].0);
      var info' := if v.Some? then info[fields[0].1 := v.value] else info;
      ApplyKeepsKeys(info', attrs, fields[1..], pick);
    }
  }

  // ------------------------------------------------------------ entries

  /** `ship_info` of a position message before the optional fields. */
  function PositionBase(mmsi: string, msg: DecodedMessage, now: int): Record
    requires ValidCoordinates(msg.lat, msg.lon)
  {
    map["mmsi" := Str(mmsi), "msg_type" := Int(msg.msgType), "latitude" := Real(msg.lat.deg),
        "longitude" := Real(msg.lon.deg), "timestamp" := Time(now)]
  }

  /** The detail entry a valid position message writes. */
  function PositionRecord(mmsi: string, msg: DecodedMessage, now: int): Record
    requires ValidCoordinates(msg.lat, msg.lon)
  {
    Apply(PositionBase(mmsi, msg, now), msg.attrs, OptionalFields, PositionValue)
  }

  /** `ship_details.get(mmsi, {...})`: the entry a static message merges into. */
  function StaticBase(details: map<string, Record>, mmsi: string, msg: DecodedMessage, now: int): Record {
    if mmsi in details then details[mmsi]
    else map["mmsi" := Str(mmsi), "msg_type" := Int(msg.msgType), "timestamp" := Time(now)]
  }

  /** The detail entry a static message writes. */
  function StaticRecord(details: map<string, Record>, mmsi: string, msg: DecodedMessage, now: int): Record {
    Apply(StaticBase(details, mmsi, msg, now), msg.attrs, StaticFields, StaticValue)
  }

  /** `_process_position_message` for the entry `mmsi`. */
  function PositionStep(ships: map<string, LatLon>, details: map<string, Record>,
                        mmsi: string, msg: DecodedMessage, now: int): Outcome {
    if ValidCoordinates(msg.lat, msg.lon) then
      var info := PositionRecord(mmsi, msg, now);
      Outcome(ships[mmsi := LatLon(msg.lat.deg, msg.lon.deg)], details[mmsi := info], Some(SavePosition(mmsi, info)))
    else Outcome(ships, details, None)
  }

  /** `_process_static_message` for the entry `mmsi`. */
  function StaticStep(ships: map<string, LatLon>, details: map<string, Record>,
                      mmsi: string, msg: DecodedMessage, now: int): Outcome {
    var info := StaticRecord(details, mmsi, msg, now);
    Outcome(ships, details[mmsi := info], Some(SaveStatic(mmsi, info)))
  }

  /** A message with both `lat` and `lon` attributes is a position message. */
  predicate IsPositionMessage(msg: DecodedMessage) {
    msg.lat != NoAttribute && msg.lon != NoAttribute
  }

  /** Otherwise only message types 5 and 24 carry static data. */
  predicate IsStaticMessage(msg: DecodedMessage) {
    !IsPositionMessage(msg) && (msg.msgType == 5 || msg.msgType == 24)
  }

  /** `process_decoded_message`: the entry is `str(mmsi)`. */
  function Process(ships: map<string, LatLon>, details: map<string, Record>,
                   msg: DecodedMessage, now: int): Outcome {
    var mmsi := IntToString(msg.mmsi);
    if IsPositionMessage(msg) then PositionStep(ships, details, mmsi, msg, now)
    else if IsStaticMessage(msg) then StaticStep(ships, details, mmsi, msg, now)
    else Outcome(ships, details, None)
  }

  // ------------------------------------------------------------ properties

  lemma OptionalFieldsDistinct()
    ensures DistinctKeys(OptionalFields)
  {
  }

  /** No optional key is one of the five fixed keys of a position entry. */
  lemma FixedKeysNotOptional()
    ensures forall k :: k in {"mmsi", "msg_type", "latitude", "longitude", "timestamp"} ==> NotAKey(OptionalFields, k)
  {
  }

  lemma StaticFieldsDistinct()
    ensures DistinctKeys(StaticFields)
  {
    StaticKeysDistinctFrom(0, 5);
    StaticKeysDistinctFrom(5, 10);
    StaticKeysDistinctFrom(10, |StaticFields|);
  }

  /** The keys of pairs `lo` to `hi - 1` differ from every later key. */
  lemma StaticKeysDistinctFrom(lo: int, hi: int)
    requires 0 <= lo <= hi <= |StaticFields|
    ensures forall i, j :: lo <= i < hi && i < j < |StaticFields| ==> StaticFields[i].1 != StaticFields[j].1
  {
  }

  /** No static key is a key a position message writes. */
  lemma StaticKeyNotPosition(j: int)
    requires 0 <= j < |StaticFields|
    ensures StaticFields[j].1 !in {"mmsi", "msg_type", "timestamp", "latitude", "longitude"}
    ensures NotAKey(OptionalFields, StaticFields[j].1)
  {
  }

  /** A valid position message writes no static key. */
  lemma PositionRecordNoStatic(mmsi: string, msg: DecodedMessage, now: int)
    requires ValidCoordinates(msg.lat, msg.lon)
    ensures forall j :: 0 <= j < |StaticFields| ==> StaticFields[j].1 !in PositionRecord(mmsi, msg, now)
  {
    var base := PositionBase(mmsi, msg, now);
    forall j | 0 <= j < |StaticFields| ensures StaticFields[j].1 !in PositionRecord(mmsi, msg, now) {
      var k := StaticFields[j].1;
      StaticKeyNotPosition(j);
      ApplyElsewhere(base, msg.attrs, OptionalFields, PositionValue, k);
      assert k !in base;
    }
  }

  /** The entry of a valid position message: the five fixed keys with the
      message's own values, and each optional key exactly when the message
      has that attribute with a value other than `None` (0, `False` and `""`
      included), holding that value. */
  lemma PositionRecordContents(mmsi: string, msg: DecodedMessage, now: int)
    requires ValidCoordinates(msg.lat, msg.lon)
    ensures var r := PositionRecord(mmsi, msg, now);
      && Get(r, "mmsi") == Some(Str(mmsi))
      && Get(r, "msg_type") == Some(Int(msg.msgType))
      && Get(r, "latitude") == Some(Real(msg.lat.deg))
      && Get(r, "longitude") == Some(Real(msg.lon.deg))
      && Get(r, "timestamp") == Some(Time(now))
      && (forall j :: 0 <= j < |OptionalFields| ==>
            Get(r, OptionalFields[j].1) == PositionValue(msg.attrs, OptionalFields[j].0))
  {
    PositionFixedKeys(mmsi, msg, now);
    PositionOptionalKeys(mmsi, msg, now);
  }

  /** The optional fields leave the five fixed keys as the base wrote them. */
  lemma PositionFixedKeys(mmsi: string, msg: DecodedMessage, now: int)
    requires ValidCoordinates(msg.lat, msg.lon)
    ensures var r := PositionRecord(mmsi, msg, now);
      && Get(r, "mmsi") == Some(Str(mmsi))
      && Get(r, "msg_type") == Some(Int(msg.msgType))
      && Get(r, "latitude") == Some(Real(msg.lat.deg))
      && Get(r, "longitude") == Some(Real(msg.lon.deg))
      && Get(r, "timestamp") == Some(Time(now))
  {
    var base := PositionBase(mmsi, msg, now);
    FixedKeysNotOptional();
    ApplyElsewhere(base, msg.attrs, OptionalFields, PositionValue, "mmsi");
    ApplyElsewhere(base, msg.attrs, OptionalFields, PositionValue, "msg_type");
    ApplyElsewhere(base, msg.attrs, OptionalFields, PositionValue, "latitude");
    ApplyElsewhere(base, msg.attrs, OptionalFields, PositionValue, "longitude");
    ApplyElsewhere(base, msg.attrs, OptionalFields, PositionValue, "timestamp");
  }

  /** Each optional key holds exactly what the position loop stores for it. */
  lemma PositionOptionalKeys(mmsi: string, msg: DecodedMessage, now: int)
    requires ValidCoordinates(msg.lat, msg.lon)
    ensures forall j :: 0 <= j < |OptionalFields| ==>
      Get(PositionRecord(mmsi, msg, now), OptionalFields[j].1) == PositionValue(msg.attrs, OptionalFields[j].0)
  {
    var base := PositionBase(mmsi, msg, now);
    OptionalFieldsDistinct();
    forall j | 0 <= j < |OptionalFields|
      ensures Get(PositionRecord(mmsi, msg, now), OptionalFields[j].1) == PositionValue(msg.attrs, OptionalFields[j].0)
    {
      ApplyAt(base, msg.attrs, OptionalFields, PositionValue, j);
      OptionalKeyNotFixed(j);
    }
  }

  lemma OptionalKeyNotFixed(j: int)
    requires 0 <= j < |OptionalFields|
    ensures OptionalFields[j].1 !in {"mmsi", "msg_type", "latitude", "longitude", "timestamp"}
  {
  }

  /** A position message replaces the entry instead of merging into it:
      whatever static data the entry held before is gone afterwards. */
  lemma PositionReplacesEntry(ships: map<string, LatLon>, details: map<string, Record>, msg: DecodedMessage, now: int)
    requires IsPositionMessage(msg) && ValidCoordinates(msg.lat, msg.lon)
    ensures var o := Process(ships, details, msg, now);
      var mmsi := IntToString(msg.mmsi);
      && mmsi in o.details
      && o.details[mmsi] == PositionRecord(mmsi, msg, now)
      && forall j :: 0 <= j < |StaticFields| ==> StaticFields[j].1 !in o.details[mmsi]
  {
    var mmsi := IntToString(msg.mmsi);
    var r := PositionRecord(mmsi, msg, now);
    assert Process(ships, details, msg, now).details == details[mmsi := r];
    PositionRecordNoStatic(mmsi, msg, now);
  }

  /** A static message merges into the entry: each static key holds the
      cleaned value when that is truthy and keeps its previous value (or
      stays absent) otherwise; every other key, the position fields and the
      first `msg_type` and `timestamp` included, is left as it was. */
  lemma StaticMergeContents(details: map<string, Record>, mmsi: string, msg: DecodedMessage, now: int)
    ensures var base := StaticBase(details, mmsi, msg, now);
      var r := StaticRecord(details, mmsi, msg, now);
      && (forall j :: 0 <= j < |StaticFields| ==>
            Get(r, StaticFields[j].1) ==
              (var v := StaticValue(msg.attrs, StaticFields[j].0); if v.Some? then v else Get(base, StaticFields[j].1)))
      && (forall k :: NotAKey(StaticFields, k) ==> Get(r, k) == Get(base, k))
  {
    var base := StaticBase(details, mmsi, msg, now);
    StaticFieldsDistinct();
    forall j | 0 <= j < |StaticFields|
      ensures Get(StaticRecord(details, mmsi, msg, now), StaticFields[j].1) ==
              (var v := StaticValue(msg.attrs, StaticFields[j].0); if v.Some? then v else Get(base, StaticFields[j].1))
    {
      ApplyAt(base, msg.attrs, StaticFields, StaticValue, j);
    }
    forall k | NotAKey(StaticFields, k) ensures Get(StaticRecord(details, mmsi, msg, now), k) == Get(base, k) {
      ApplyElsewhere(base, msg.attrs, StaticFields, StaticValue, k);
    }
  }

  /** A static message never erases anything the entry already held. */
  lemma StaticNeverErases(ships: map<string, LatLon>, details: map<string, Record>, msg: DecodedMessage, now: int)
    requires IsStaticMessage(msg)
    ensures var o := Process(ships, details, msg, now);
      var mmsi := IntToString(msg.mmsi);
      && o.ships == ships
      && mmsi in o.details
      && (mmsi in details ==> details[mmsi].Keys <= o.details[mmsi].Keys)
  {
    var mmsi := IntToString(msg.mmsi);
    ApplyKeepsKeys(StaticBase(details, mmsi, msg, now), msg.attrs, StaticFields, StaticValue);
  }

  /** Merging the same static message a second time changes nothing. */
  lemma StaticIdempotent(details: map<string, Record>, mmsi: string, msg: DecodedMessage, now: int)
    ensures var r := StaticRecord(details, mmsi, msg, now);
      StaticRecord(details[mmsi := r], mmsi, msg, now) == r
  {
    var r := StaticRecord(details, mmsi, msg, now);
    assert StaticBase(details[mmsi := r], mmsi, msg, now) == r;
    StaticFieldsDistinct();
    ApplyTwice(StaticBase(details, mmsi, msg, now), msg.attrs, StaticFields, StaticValue);
  }

  lemma StaticStepIdempotent(ships: map<string, LatLon>, details: map<string, Record>, mmsi: string, msg: DecodedMessage, now: int)
    ensures var o := StaticStep(ships, details, mmsi, msg, now);
      StaticStep(o.ships, o.details, mmsi, msg, now) == o
  {
    var r := StaticRecord(details, mmsi, msg, now);
    StaticIdempotent(details, mmsi, msg, now);
    UpdateTwice(details, mmsi, r);
  }


  lemma PositionStepIdempotent(ships: map<string, LatLon>, details: map<string, Record>, mmsi: string, msg: DecodedMessage, now: int)
    ensures var o := PositionStep(ships, details, mmsi, msg, now);
      PositionStep(o.ships, o.details, mmsi, msg, now) == o
  {
    if ValidCoordinates(msg.lat, msg.lon) {
      var r := PositionRecord(mmsi, msg, now);
      var p := LatLon(msg.lat.deg, msg.lon.deg);
      UpdateTwice(ships, mmsi, p);
      UpdateTwice(details, mmsi, r);
    }
  }

  /** Processing the same message twice (at the same time) leaves the same
      maps and makes the same call as processing it once. */
  lemma ProcessIdempotent(ships: map<string, LatLon>, details: map<string, Record>, msg: DecodedMessage, now: int)
    ensures var o := Process(ships, details, msg, now);
      Process(o.ships, o.details, msg, now) == o
  {
    var mmsi := IntToString(msg.mmsi);
    if IsPositionMessage(msg) {
      PositionStepIdempotent(ships, details, mmsi, msg, now);
    } else if IsStaticMessage(msg) {
      StaticStepIdempotent(ships, details, mmsi, msg, now);
    }
  }

  /** Only the entry `str(mmsi)` of either map can change; a message is
      dropped, leaving both maps as they were, exactly when it is a
      position message with a missing or "not available" coordinate, or
      neither a position nor a static one. */
  lemma ProcessFrame(ships: map<string, LatLon>, details: map<string, Record>, msg: DecodedMessage, now: int)
    ensures var o := Process(ships, details, msg, now);
      var mmsi := IntToString(msg.mmsi);
      && (o.ships == ships || (mmsi in o.ships && o.ships == ships[mmsi := o.ships[mmsi]]))
      && (o.details == details || (mmsi in o.details && o.details == details[mmsi := o.details[mmsi]]))
      && (o.call == None <==> (IsPositionMessage(msg) && !ValidCoordinates(msg.lat, msg.lon)) ||
                              (!IsPositionMessage(msg) && !IsStaticMessage(msg)))
      && (o.call == None ==> o.ships == ships && o.details == details)
  {
    var mmsi := IntToString(msg.mmsi);
    ProcessCases(ships, details, msg, now, mmsi);
    if IsPositionMessage(msg) {
      PositionStepFrame(ships, details, mmsi, msg, now);
    } else if IsStaticMessage(msg) {
      StaticStepFrame(ships, details, mmsi, msg, now);
    }
  }

  /** A position step writes the entry `mmsi` of both maps, or nothing at all. */
  lemma PositionStepFrame(ships: map<string, LatLon>, details: map<string, Record>, mmsi: string, msg: DecodedMessage, now: int)
    ensures var o := PositionStep(ships, details, mmsi, msg, now);
      && (o.call == None <==> !ValidCoordinates(msg.lat, msg.lon))
      && (o.call == None ==> o.ships == ships && o.details == details)
      && (o.call != None ==> mmsi in o.ships && o.ships == ships[mmsi := o.ships[mmsi]])
      && (o.call != None ==> mmsi in o.details && o.details == details[mmsi := o.details[mmsi]])
  {
  }

  /** A static step writes the entry `mmsi` of the details and nothing else. */
  lemma StaticStepFrame(ships: map<string, LatLon>, details: map<string, Record>, mmsi: string, msg: DecodedMessage, now: int)
    ensures var o := StaticStep(ships, details, mmsi, msg, now);
      && o.call != None && o.ships == ships
      && mmsi in o.details && o.details == details[mmsi := o.details[mmsi]]
  {
    var info := StaticRecord(details, mmsi, msg, now);
    assert StaticStep(ships, details, mmsi, msg, now).details == details[mmsi := info];
  }

  /** The call carries the entry just written, keyed by `str(mmsi)`, and
      its kind says which path the message took. */
  lemma ProcessCall(ships: map<string, LatLon>, details: map<string, Record>, msg: DecodedMessage, now: int)
    ensures var o := Process(ships, details, msg, now);
      o.call.Some? ==>
        && o.call.value.mmsi == IntToString(msg.mmsi)
        && o.call.value.mmsi in o.details
        && o.call.value.info == o.details[o.call.value.mmsi]
        && (o.call.value.SavePosition? <==> IsPositionMessage(msg))
        && (o.call.value.SavePosition? ==> o.ships[o.call.value.mmsi] == LatLon(msg.lat.deg, msg.lon.deg))
  {
    var mmsi := IntToString(msg.mmsi);
    ProcessCases(ships, details, msg, now, mmsi);
    if IsPositionMessage(msg) {
      PositionStepCall(ships, details, mmsi, msg, now);
    } else if IsStaticMessage(msg) {
      StaticStepCall(ships, details, mmsi, msg, now);
    }
  }

  /** Which step `Process` takes, for the entry `mmsi`. */
  lemma ProcessCases(ships: map<string, LatLon>, details: map<string, Record>, msg: DecodedMessage, now: int, mmsi: string)
    requires mmsi == IntToString(msg.mmsi)
    ensures IsPositionMessage(msg) ==> Process(ships, details, msg, now) == PositionStep(ships, details, mmsi, msg, now)
    ensures IsStaticMessage(msg) ==> Process(ships, details, msg, now) == StaticStep(ships, details, mmsi, msg, now)
    ensures !IsPositionMessage(msg) && !IsStaticMessage(msg) ==> Process(ships, details, msg, now) == Outcome(ships, details, None)
  {
  }

  /** A position step that makes a call saves the entry it wrote. */
  lemma PositionStepCall(ships: map<string, LatLon>, details: map<string, Record>, mmsi: string, msg: DecodedMessage, now: int)
    ensures var o := PositionStep(ships, details, mmsi, msg, now);
      o.call.Some? ==>
        && mmsi in o.details && mmsi in o.ships
        && o.call.value == SavePosition(mmsi, o.details[mmsi])
        && o.ships[mmsi] == LatLon(msg.lat.deg, msg.lon.deg)
  {
  }

  /** A static step always calls, saving the entry it wrote. */
  lemma StaticStepCall(ships: map<string, LatLon>, details: map<string, Record>, mmsi: string, msg: DecodedMessage, now: int)
    ensures var o := StaticStep(ships, details, mmsi, msg, now);
      mmsi in o.details && o.call == Some(SaveStatic(mmsi, o.details[mmsi]))
  {
  }

  /** Entries are keyed by the decimal MMSI: the key reads back as the
      MMSI, so two vessels never share an entry. */
  lemma EntryKeyIdentifiesVessel(a: DecodedMessage, b: DecodedMessage)
    ensures ParseInt(IntToString(a.mmsi)) == Some(a.mmsi)
    ensures IntToString(a.mmsi) == IntToString(b.mmsi) <==> a.mmsi == b.mmsi
  {
    ParseIntToString(a.mmsi);
    if IntToString(a.mmsi) == IntToString(b.mmsi) {
      IntToStringInjective(a.mmsi, b.mmsi);
    }
  }

  /** The two paths disagree on falsy values: a speed of 0 is stored by a
      position message while a ship type of 0 or a name made only of `@`
      padding is dropped by a static one. */
  lemma FalsyValuesByPath()
    ensures PositionValue(map["speed" := Int(0)], "speed") == Some(Int(0))
    ensures StaticValue(map["ship_type" := Int(0)], "ship_type") == None
    ensures StaticValue(map["shipname" := Str("@@@")], "shipname") == None
  {
    assert Strip("@@@", IsAt) == [];
  }

  /** Trailing `@` padding is removed from a name. */
  lemma CleanPaddingExample()
    ensures Clean(Str("NAME@@@@")) == Str("NAME")
  {
    StripPadding("NAME@@@@", "", "NAME", "@@@@", IsAt);
    StripNoOp("NAME", IsSpace);
    CleanOf("NAME@@@@", "NAME", "NAME");
  }

  /** `Clean` is the two strips one after the other. */
  lemma CleanOf(s: string, t: string, u: string)
    requires Strip(s, IsAt) == t && Strip(t, IsSpace) == u
    ensures Clean(Str(s)) == Str(u)
  {
  }

  /** The `@` strip runs before the white-space strip, so an `@` kept in
      place by surrounding white space survives. */
  lemma CleanOrderExample()
    ensures Clean(Str(" @AB@ ")) == Str("@AB@")
  {
    StripNoOp(" @AB@ ", IsAt);
    StripPadding(" @AB@ ", " ", "@AB@", " ", IsSpace);
    CleanOf(" @AB@ ", " @AB@ ", "@AB@");
  }

  // ------------------------------------------------------------ the class

  /** The processor over the service's shared `ships` and `ship_details`
      dictionaries. */
  class AisMessageProcessor {
    var ships: map<string, LatLon>
    var shipDetails: map<string, Record>

    constructor(ships0: map<string, LatLon>, details0: map<string, Record>)
      ensures ships == ships0 && shipDetails == details0
    {
      ships := ships0;
      shipDetails := details0;
    }

    method ProcessDecodedMessage(msg: DecodedMessage, now: int) returns (call: Option<StoreCall>)
      modifies this
      ensures Outcome(ships, shipDetails, call) == Process(old(ships), old(shipDetails), msg, now)
    {
      var mmsi := IntToString(msg.mmsi);
      if msg.lat != NoAttribute && msg.lon != NoAttribute {
        call := ProcessPositionMessage(msg, mmsi, now);
      } else if msg.msgType == 5 || msg.msgType == 24 {
        call := ProcessStaticMessage(msg, mmsi, now);
      } else {
        call := None;
      }
    }

    method ProcessPositionMessage(msg: DecodedMessage, mmsi: string, now: int) returns (call: Option<StoreCall>)
      modifies this
      ensures Outcome(ships, shipDetails, call) == PositionStep(old(ships), old(shipDetails), mmsi, msg, now)
    {
      if msg.lat.Degrees? && msg.lon.Degrees? && msg.lat.deg != 91.0 && msg.lon.deg != 181.0 {
        ships := ships[mmsi := LatLon(msg.lat.deg, msg.lon.deg)];
        var base := map["mmsi" := Str(mmsi), "msg_type" := Int(msg.msgType), "latitude" := Real(msg.lat.deg),
                        "longitude" := Real(msg.lon.deg), "timestamp" := Time(now)];
        var info := MergePositionFields(base, msg.attrs, OptionalFields);
        shipDetails := shipDetails[mmsi := info];
        call := Some(SavePosition(mmsi, info));
      } else {
        call := None;
      }
    }

    /** The `for attr, key in optional_fields` loop of
        `_process_position_message`, over the list of pairs it is given. */
    static method MergePositionFields(base: Record, attrs: map<string, Scalar>, fields: FieldMap) returns (info: Record)
      ensures info == Apply(base, attrs, fields, PositionValue)
    {
      info := base;
      var i := 0;
      while i < |fields|
        invariant 0 <= i <= |fields|
        invariant Apply(info, attrs, fields[i..], PositionValue) == Apply(base, attrs, fields, PositionValue)
      {
        var (attr, key) := fields[i];
        assert fields[i..][1..] == fields[i + 1..];
        if attr in attrs && attrs[attr] != Null {
          info := info[key := attrs[attr]];
        }
        i := i + 1;
      }
    }

    method ProcessStaticMessage(msg: DecodedMessage, mmsi: string, now: int) returns (call: Option<StoreCall>)
      modifies this
      ensures Outcome(ships, shipDetails, call) == StaticStep(old(ships), old(shipDetails), mmsi, msg, now)
    {
      var info := StaticEntry(shipDetails, mmsi, msg, now);
      shipDetails := shipDetails[mmsi := info];
      call := Some(SaveStatic(mmsi, info));
    }

    /** `ship_details.get(mmsi, {...})` updated by the static-field loop. */
    static method StaticEntry(details: map<string, Record>, mmsi: string, msg: DecodedMessage, now: int) returns (info: Record)
      ensures info == StaticRecord(details, mmsi, msg, now)
    {
      var base := if mmsi in details then details[mmsi]
                  else map["mmsi" := Str(mmsi), "msg_type" := Int(msg.msgType), "timestamp" := Time(now)];
      info := MergeStaticFields(base, msg.attrs, StaticFields);
    }

    /** The `for attr, key in static_fields` loop of `_process_static_message`,
        over the list of pairs it is given. */
    static method MergeStaticFields(base: Record, attrs: map<string, Scalar>, fields: FieldMap) returns (info: Record)
      ensures info == Apply(base, attrs, fields, StaticValue)
    {
      info := base;
      var i := 0;
      while i < |fields|
        invariant 0 <= i <= |fields|
        invariant Apply(info, attrs, fields[i..], StaticValue) == Apply(base, attrs, fields, StaticValue)
      {
        var (attr, key) := fields[i];
        assert fields[i..][1..] == fields[i + 1..];
        if attr in attrs {
          var value := attrs[attr];
          if value != Null {
            if value.Str? {
              value := Str(Strip(Strip(value.s, IsAt), IsSpace));
            }
            if Truthy(value) {
              info := info[key := value];
            }
          }
        }
        i := i + 1;
      }
    }
  }
}
