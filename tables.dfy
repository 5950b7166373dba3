/**
  The database tables the pipeline writes (models/ship.py, models.py,
  models/position.py, models/tracked_ship.py), as values, and the
  position-table rules of database/position.py, database/cleanup.py and
  the older `AISDatabase` in database.py.
*/
module Tables {
  import opened Common
  import opened Decoded

  /** A row of `positions`. `id` is the abstract row identity that
      compaction orders by. */
  datatype PositionRow = PositionRow(
    id: int,
    mmsi: string,
    latitude: Scalar,
    longitude: Scalar,
    course: Scalar,
    speed: Scalar,
    heading: Scalar,
    navStatus: Scalar,
    turnRate: Scalar,
    positionAccuracy: Scalar,
    timestamp: int,
    messageType: Scalar)

  /** A row of `tracked_ships`, keyed by its (unique) MMSI. */
  datatype TrackedRow = TrackedRow(name: Scalar, notes: Scalar, addedBy: Scalar, addedDate: int)

  /** A row of `ships`: column name to value. */
  type ShipRow = Record

  /** The columns of `Ship`. */
  const ShipColumns: set<string> := {
    "mmsi", "ship_name", "callsign", "ship_type", "imo", "destination", "draught",
    "to_bow", "to_stern", "to_port", "to_starboard", "first_seen", "last_seen"}

  /** The three tables, and the next id the database will hand out. */
  datatype Db = Db(ships: map<string, ShipRow>, positions: seq<PositionRow>, tracked: map<string, TrackedRow>, nextId: int)

  /** A changed database and what the call returned. */
  datatype Step<T> = Step(db: Db, out: T)

  /** `Ship(mmsi=mmsi, first_seen=...)` with its `last_seen` default. */
  function NewShip(mmsi: string, firstSeen: int, lastSeen: int): (r: ShipRow)
    ensures r.Keys == ShipColumns
    ensures r["mmsi"] == Str(mmsi) && r["first_seen"] == Time(firstSeen) && r["last_seen"] == Time(lastSeen)
  {
    map c | c in ShipColumns ::
      if c == "mmsi" then Str(mmsi)
      else if c == "first_seen" then Time(firstSeen)
      else if c == "last_seen" then Time(lastSeen)
      else Null
  }

  /** `Ship.query.get(mmsi)`, or a ship created now. */
  function ShipOrNew(ships: map<string, ShipRow>, mmsi: string, now: int): ShipRow {
    if mmsi in ships then ships[mmsi] else NewShip(mmsi, now, now)
  }

  /** `d.get(k)` for a column value: `None` when the key is missing. */
  function GetOrNull(d: Record, k: string): Scalar {
    if k in d then d[k] else Null
  }

  // ------------------------------------------------------- save position

  /** `ts = position_data['timestamp']`, converted with `parseIso` (the
      `datetime.fromisoformat(str(ts)...)` call) unless it is a datetime. */
  function PositionTimestamp(data: Record, parseIso: Scalar -> Option<int>): Option<int> {
    if "timestamp" !in data then None
    else if data["timestamp"].Time? then Some(data["timestamp"].t)
    else parseIso(data["timestamp"])
  }

  /** Everything `save_position` needs: the indexed keys (`[...]` raises
      `KeyError` otherwise), a readable timestamp, and non-null
      coordinates (the columns are `nullable=False`). */
  predicate Saveable(data: Record, parseIso: Scalar -> Option<int>) {
    && PositionTimestamp(data, parseIso).Some?
    && "latitude" in data && "longitude" in data && "msg_type" in data
    && data["latitude"] != Null && data["longitude"] != Null
  }

  /** The position columns written from `position_data`: the required keys
      verbatim, every optional key by `.get`, so a missing one is `None`. */
  function RowFrom(id: int, mmsi: string, data: Record, ts: int): (r: PositionRow)
    requires "latitude" in data && "longitude" in data && "msg_type" in data
    ensures r.id == id && r.mmsi == mmsi && r.timestamp == ts
    ensures r.latitude == data["latitude"] && r.longitude == data["longitude"] && r.messageType == data["msg_type"]
    ensures r.course == GetOrNull(data, "course") && r.speed == GetOrNull(data, "speed")
    ensures r.heading == GetOrNull(data, "heading") && r.navStatus == GetOrNull(data, "nav_status")
    ensures r.turnRate == GetOrNull(data, "turn_rate") && r.positionAccuracy == GetOrNull(data, "position_accuracy")
  {
    PositionRow(id, mmsi, data["latitude"], data["longitude"], GetOrNull(data, "course"), GetOrNull(data, "speed"),
                GetOrNull(data, "heading"), GetOrNull(data, "nav_status"), GetOrNull(data, "turn_rate"),
                GetOrNull(data, "position_accuracy"), ts, data["msg_type"])
  }

  /** `Position.query.filter_by(mmsi=mmsi).first()`: the first row of the
      vessel, in table order. */
  function FirstIndexOf(positions: seq<PositionRow>, mmsi: string): (r: Option<nat>)
    ensures r.Some? ==> r.value < |positions| && positions[r.value].mmsi == mmsi
    ensures r.Some? ==> forall i :: 0 <= i < r.value ==> positions[i].mmsi != mmsi
    ensures r.None? ==> forall i :: 0 <= i < |positions| ==> positions[i].mmsi != mmsi
  {
    if |positions| == 0 then None
    else if positions[0].mmsi == mmsi then Some(0)
    else match FirstIndexOf(positions[1..], mmsi)
      case None => None
      case Some(j) => Some(j + 1)
  }

  /** The ship side of every save: the ship exists afterwards, with
      `last_seen` set to now. */
  function Touch(ships: map<string, ShipRow>, mmsi: string, now: int): map<string, ShipRow> {
    ships[mmsi := ShipOrNew(ships, mmsi, now)["last_seen" := Time(now)]]
  }

  /** `PositionMixin.save_position`: get or create the ship, refresh its
      `last_seen`, then overwrite the vessel's position row in place or
      insert one. On any error the transaction is rolled back. */
  function SavePosition(db: Db, mmsi: string, data: Record, now: int, parseIso: Scalar -> Option<int>): Step<bool> {
    if !Saveable(data, parseIso) then Step(db, false)
    else
      var ts := PositionTimestamp(data, parseIso).value;
      var ships := Touch(db.ships, mmsi, now);
      match FirstIndexOf(db.positions, mmsi)
      case Some(j) =>
        Step(db.(ships := ships, positions := db.positions[j := RowFrom(db.positions[j].id, mmsi, data, ts)]), true)
      case None =>
        Step(db.(ships := ships, positions := db.positions + [RowFrom(db.nextId, mmsi, data, ts)], nextId := db.nextId + 1), true)
  }

  /** The older `AISDatabase.save_position`: the same ship handling, but a
      new row is appended on every call. Its timestamp conversion calls
      `.replace` on the value itself, so only a string can be parsed. */
  function SavePositionAppend(db: Db, mmsi: string, data: Record, now: int, parseIso: Scalar -> Option<int>): Step<bool> {
    var ts := if "timestamp" !in data then None
              else if data["timestamp"].Time? then Some(data["timestamp"].t)
              else if data["timestamp"].Str? then parseIso(data["timestamp"])
              else None;
    if ts.None? || "latitude" !in data || "longitude" !in data || "msg_type" !in data
       || data["latitude"] == Null || data["longitude"] == Null then Step(db, false)
    else
      Step(db.(ships := Touch(db.ships, mmsi, now), positions := db.positions + [RowFrom(db.nextId, mmsi, data, ts.value)],
               nextId := db.nextId + 1), true)
  }

  /** Rows are told apart by `id`, and every id is below `nextId`. */
  predicate IdsValid(db: Db) {
    && (forall i :: 0 <= i < |db.positions| ==> db.positions[i].id < db.nextId)
    && (forall i, j :: 0 <= i < j < |db.positions| ==> db.positions[i].id != db.positions[j].id)
  }

  /** At most one row per vessel (the `mmsi` primary key of
      models/position.py). */
  predicate OnePerVessel(positions: seq<PositionRow>) {
    forall i, j :: 0 <= i < j < |positions| ==> positions[i].mmsi != positions[j].mmsi
  }

  function VesselIs(mmsi: string): PositionRow -> bool {
    (p: PositionRow) => p.mmsi == mmsi
  }

  /** The rows of one vessel, in table order. */
  function RowsOf(positions: seq<PositionRow>, mmsi: string): seq<PositionRow> {
    FilterWhere(positions, VesselIs(mmsi))
  }

  /** What a save does apart from the position table: it succeeds exactly
      when the data is saveable; a failure changes nothing; a success
      leaves the vessel's ship with `last_seen` = now (and, for a new ship,
      `first_seen` = now), keeps every other column and every other ship,
      and leaves the tracked ships alone. */
  lemma SavePositionShip(db: Db, mmsi: string, data: Record, now: int, parseIso: Scalar -> Option<int>)
    ensures var r := SavePosition(db, mmsi, data, now, parseIso);
      && (r.out <==> Saveable(data, parseIso))
      && (!r.out ==> r.db == db)
      && (r.out ==>
            && mmsi in r.db.ships && r.db.ships[mmsi]["last_seen"] == Time(now)
            && (mmsi !in db.ships ==> r.db.ships[mmsi] == NewShip(mmsi, now, now))
            && (mmsi in db.ships ==> forall c :: c in db.ships[mmsi] && c != "last_seen" ==>
                  c in r.db.ships[mmsi] && r.db.ships[mmsi][c] == db.ships[mmsi][c])
            && (forall k :: k != mmsi ==> (k in r.db.ships <==> k in db.ships))
            && (forall k :: k != mmsi && k in db.ships ==> r.db.ships[k] == db.ships[k])
            && r.db.tracked == db.tracked)
  {
    var r := SavePosition(db, mmsi, data, now, parseIso);
    if Saveable(data, parseIso) {
      assert r.out && r.db.ships == Touch(db.ships, mmsi, now) && r.db.tracked == db.tracked;
      TouchShips(db.ships, mmsi, now);
    }
  }

  /** Touching a ship creates it if needed and sets its `last_seen`, and
      nothing else. */
  lemma TouchShips(ships: map<string, ShipRow>, mmsi: string, now: int)
    ensures var t := Touch(ships, mmsi, now);
      && mmsi in t && t[mmsi]["last_seen"] == Time(now)
      && (mmsi !in ships ==> t[mmsi] == NewShip(mmsi, now, now))
      && (mmsi in ships ==> forall c :: c in ships[mmsi] && c != "last_seen" ==>
            c in t[mmsi] && t[mmsi][c] == ships[mmsi][c])
      && (forall k :: k != mmsi ==> (k in t <==> k in ships))
      && (forall k :: k != mmsi && k in ships ==> t[k] == ships[k])
  {
    if mmsi !in ships {
      NewShipTouched(mmsi, now);
    }
  }

  /** A new ship already has `last_seen` = now. */
  lemma NewShipTouched(mmsi: string, now: int)
    ensures NewShip(mmsi, now, now)["last_seen" := Time(now)] == NewShip(mmsi, now, now)
  {
    var n := NewShip(mmsi, now, now);
    assert n["last_seen" := Time(now)].Keys == n.Keys;
  }

  lemma RowsAfterAppend(ps: seq<PositionRow>, x: PositionRow, m: string)
    ensures RowsOf(ps + [x], m) == RowsOf(ps, m) + (if x.mmsi == m then [x] else [])
  {
    FilterConcat(ps, [x], VesselIs(m));
    FilterOne(x, VesselIs(m));
  }

  lemma RowsAfterUpdate(ps: seq<PositionRow>, j: int, x: PositionRow, m: string)
    requires 0 <= j < |ps| && x.mmsi == ps[j].mmsi
    ensures RowsOf(ps[j := x], m) ==
      if m == x.mmsi then RowsOf(ps[..j], m) + [x] + RowsOf(ps[j + 1..], m) else RowsOf(ps, m)
  {
    var a, b := ps[..j], ps[j + 1..];
    assert ps == a + [ps[j]] + b;
    assert ps[j := x] == a + [x] + b;
    FilterConcat(a + [ps[j]], b, VesselIs(m));
    FilterConcat(a, [ps[j]], VesselIs(m));
    FilterConcat(a + [x], b, VesselIs(m));
    FilterConcat(a, [x], VesselIs(m));
    FilterOne(x, VesselIs(m));
    FilterOne(ps[j], VesselIs(m));
  }

  /** Inserting the first row of a vessel. */
  lemma InsertRows(ps: seq<PositionRow>, x: PositionRow)
    requires OnePerVessel(ps)
    requires forall i :: 0 <= i < |ps| ==> ps[i].mmsi != x.mmsi
    ensures OnePerVessel(ps + [x])
    ensures RowsOf(ps, x.mmsi) == [] && RowsOf(ps + [x], x.mmsi) == [x]
    ensures forall m :: m != x.mmsi ==> RowsOf(ps + [x], m) == RowsOf(ps, m)
  {
    FilterNone(ps, VesselIs(x.mmsi));
    forall m ensures RowsOf(ps + [x], m) == RowsOf(ps, m) + (if x.mmsi == m then [x] else []) {
      RowsAfterAppend(ps, x, m);
    }
  }

  /** Overwriting the only row of a vessel. */
  lemma OverwriteRows(ps: seq<PositionRow>, j: int, x: PositionRow)
    requires OnePerVessel(ps)
    requires 0 <= j < |ps| && x.mmsi == ps[j].mmsi
    ensures OnePerVessel(ps[j := x])
    ensures RowsOf(ps, x.mmsi) == [ps[j]] && RowsOf(ps[j := x], x.mmsi) == [x]
    ensures forall m :: m != x.mmsi ==> RowsOf(ps[j := x], m) == RowsOf(ps, m)
  {
    var a, b := ps[..j], ps[j + 1..];
    assert forall i :: 0 <= i < |a| ==> a[i] == ps[i];
    assert forall i :: 0 <= i < |b| ==> b[i] == ps[j + 1 + i];
    FilterNone(a, VesselIs(x.mmsi));
    FilterNone(b, VesselIs(x.mmsi));
    forall m ensures RowsOf(ps[j := x], m) ==
      if m == x.mmsi then RowsOf(a, m) + [x] + RowsOf(b, m) else RowsOf(ps, m) {
      RowsAfterUpdate(ps, j, x, m);
    }
    RowsAfterUpdate(ps, j, ps[j], x.mmsi);
    assert ps[j := ps[j]] == ps;
    UpdateKeepsOnePerVessel(ps, j, x);
  }

  /** Overwriting a row with one of the same vessel keeps one row per vessel. */
  lemma UpdateKeepsOnePerVessel(ps: seq<PositionRow>, j: int, x: PositionRow)
    requires OnePerVessel(ps)
    requires 0 <= j < |ps| && x.mmsi == ps[j].mmsi
    ensures OnePerVessel(ps[j := x])
  {
    assert forall i :: 0 <= i < |ps| ==> ps[j := x][i].mmsi == ps[i].mmsi;
  }

  /** With at most one row per vessel before, a successful save leaves
      exactly one row for the vessel, holding the saved data (its old id
      when it overwrote, the next id when it inserted), keeps at most one
      row per vessel, and leaves every other vessel's rows as they were.
      A failed save leaves every row alone. */
  lemma SavePositionOneRow(db: Db, mmsi: string, data: Record, now: int, parseIso: Scalar -> Option<int>)
    requires OnePerVessel(db.positions)
    ensures var r := SavePosition(db, mmsi, data, now, parseIso);
      && OnePerVessel(r.db.positions)
      && (forall m :: m != mmsi ==> RowsOf(r.db.positions, m) == RowsOf(db.positions, m))
      && (r.out ==>
            var ts := PositionTimestamp(data, parseIso).value;
            RowsOf(r.db.positions, mmsi) ==
              [RowFrom(if RowsOf(db.positions, mmsi) == [] then db.nextId else RowsOf(db.positions, mmsi)[0].id, mmsi, data, ts)])
  {
    if Saveable(data, parseIso) {
      var ts := PositionTimestamp(data, parseIso).value;
      var ps := db.positions;
      match FirstIndexOf(ps, mmsi)
      case None =>
        InsertRows(ps, RowFrom(db.nextId, mmsi, data, ts));
      case Some(j) =>
        OverwriteRows(ps, j, RowFrom(ps[j].id, mmsi, data, ts));
    }
  }

  /** The older save appends: a successful call adds exactly one row for
      the vessel, with the next id, after the rows it already had, so the
      table grows by one row on every call. Its ship handling matches the
      upsert's. */
  lemma SavePositionAppendAddsRow(db: Db, mmsi: string, data: Record, now: int, parseIso: Scalar -> Option<int>)
    ensures var r := SavePositionAppend(db, mmsi, data, now, parseIso);
      && (!r.out ==> r.db == db)
      && (r.out ==>
            && |r.db.positions| == |db.positions| + 1
            && r.db.ships == SavePosition(db, mmsi, data, now, parseIso).db.ships
            && RowsOf(r.db.positions, mmsi) == RowsOf(db.positions, mmsi) + [r.db.positions[|db.positions|]]
            && r.db.positions[|db.positions|].id == db.nextId
            && forall m :: m != mmsi ==> RowsOf(r.db.positions, m) == RowsOf(db.positions, m))
  {
    var r := SavePositionAppend(db, mmsi, data, now, parseIso);
    if r.out {
      var x := r.db.positions[|db.positions|];
      assert r.db.positions == db.positions + [x];
      forall m ensures RowsOf(db.positions + [x], m) == RowsOf(db.positions, m) + (if x.mmsi == m then [x] else []) {
        RowsAfterAppend(db.positions, x, m);
      }
    }
  }

  /** The older save against the `Position` that database.py imports from
      the `models` package (models/position.py), whose primary key is
      `mmsi`: a row for a vessel that already has one violates the key at
      commit, and the `except` rolls the whole save back, the ship's
      `last_seen` included, and returns False. */
  function SavePositionAppendUnderKey(db: Db, mmsi: string, data: Record, now: int, parseIso: Scalar -> Option<int>): Step<bool> {
    var r := SavePositionAppend(db, mmsi, data, now, parseIso);
    if r.out && FirstIndexOf(db.positions, mmsi).Some? then Step(db, false) else r
  }

  /** Under the `mmsi` key the older save can only insert: it keeps one
      row per vessel; for a vessel that has a row it fails and changes
      nothing, however valid the data; otherwise it behaves as the append,
      which leaves the vessel exactly one row. */
  lemma SavePositionAppendUnderKeyExact(db: Db, mmsi: string, data: Record, now: int, parseIso: Scalar -> Option<int>)
    requires OnePerVessel(db.positions)
    ensures var r := SavePositionAppendUnderKey(db, mmsi, data, now, parseIso);
      && OnePerVessel(r.db.positions)
      && (FirstIndexOf(db.positions, mmsi).Some? ==> !r.out && r.db == db)
      && (FirstIndexOf(db.positions, mmsi).None? ==> r == SavePositionAppend(db, mmsi, data, now, parseIso))
      && (r.out ==> |RowsOf(r.db.positions, mmsi)| == 1)
  {
    var r := SavePositionAppendUnderKey(db, mmsi, data, now, parseIso);
    if r.out {
      SavePositionAppendAddsRow(db, mmsi, data, now, parseIso);
      var x := r.db.positions[|db.positions|];
      assert r.db.positions == db.positions + [x];
      assert x.mmsi == mmsi;
      assert forall i :: 0 <= i < |db.positions| ==> db.positions[i].mmsi != x.mmsi;
      assert RowsOf(db.positions, mmsi) == [] by {
        FilterNone(db.positions, VesselIs(mmsi));
      }
    }
  }

  // ------------------------------------------------------------- cleanup

  /** At anchor, moored or aground. The SQL `NOT IN` on a `NULL` status is
      not modelled: a `NULL` status counts as not stationary. */
  predicate Stationary(nav: Scalar) {
    nav == Int(1) || nav == Int(5) || nav == Int(6)
  }

  function OldUnderway(cutoff: int): PositionRow -> bool {
    (p: PositionRow) => p.timestamp < cutoff && !Stationary(p.navStatus)
  }

  function OldMoored(cutoff: int): PositionRow -> bool {
    (p: PositionRow) => p.timestamp < cutoff && Stationary(p.navStatus)
  }

  /** `timedelta(minutes=m)` and `timedelta(hours=h)` in seconds. */
  function UnderwayCutoff(now: int, minutes: int): int { now - minutes * 60 }
  function MooredCutoff(now: int, hours: int): int { now - hours * 3600 }

  /** A row the navigation-aware cleanup removes. */
  function NavigationExpired(now: int, minutes: int, hours: int): PositionRow -> bool {
    Either(OldUnderway(UnderwayCutoff(now, minutes)), OldMoored(MooredCutoff(now, hours)))
  }

  /** `cleanup_old_positions_by_navigation`: count both classes; when
      neither has a row return zeros, otherwise delete both classes and
      return the counts. */
  function CleanupByNavigation(db: Db, now: int, minutes: int, hours: int): Step<(nat, nat)> {
    var u := CountWhere(db.positions, OldUnderway(UnderwayCutoff(now, minutes)));
    var m := CountWhere(db.positions, OldMoored(MooredCutoff(now, hours)));
    if u == 0 && m == 0 then Step(db, (0, 0))
    else Step(db.(positions := FilterWhere(db.positions, Not(NavigationExpired(now, minutes, hours)))), (u, m))
  }

  lemma ExpiredCount(ps: seq<PositionRow>, now: int, minutes: int, hours: int)
    ensures CountWhere(ps, NavigationExpired(now, minutes, hours)) ==
            CountWhere(ps, OldUnderway(UnderwayCutoff(now, minutes))) + CountWhere(ps, OldMoored(MooredCutoff(now, hours)))
    ensures |FilterWhere(ps, Not(NavigationExpired(now, minutes, hours)))| + CountWhere(ps, NavigationExpired(now, minutes, hours)) == |ps|
  {
    CountEither(ps, OldUnderway(UnderwayCutoff(now, minutes)), OldMoored(MooredCutoff(now, hours)));
    CountComplement(ps, NavigationExpired(now, minutes, hours));
  }

  /** The cleanup keeps exactly the rows that are not expired (the early
      return included, where there are none), in order; it never touches
      ships or tracked ships; the two returned counts are the numbers of
      underway and stationary rows removed, and together the number of
      rows gone. */
  lemma CleanupByNavigationExact(db: Db, now: int, minutes: int, hours: int)
    ensures var r := CleanupByNavigation(db, now, minutes, hours);
      && r.db.positions == FilterWhere(db.positions, Not(NavigationExpired(now, minutes, hours)))
      && r.db.ships == db.ships && r.db.tracked == db.tracked
      && r.out.0 == CountWhere(db.positions, OldUnderway(UnderwayCutoff(now, minutes)))
      && r.out.1 == CountWhere(db.positions, OldMoored(MooredCutoff(now, hours)))
      && r.out.0 + r.out.1 == |db.positions| - |r.db.positions|
  {
    var ps := db.positions;
    var expired := NavigationExpired(now, minutes, hours);
    ExpiredCount(ps, now, minutes, hours);
    if CleanupByNavigation(db, now, minutes, hours).db == db {
      CountZero(ps, expired);
      FilterAll(ps, Not(expired));
    }
  }

  /** A row is kept exactly when it is not older than its class allows. */
  lemma CleanupByNavigationKeeps(db: Db, now: int, minutes: int, hours: int, p: PositionRow)
    requires p in db.positions
    ensures var r := CleanupByNavigation(db, now, minutes, hours);
      p in r.db.positions <==>
        !(p.timestamp < (if Stationary(p.navStatus) then MooredCutoff(now, hours) else UnderwayCutoff(now, minutes)))
  {
    CleanupByNavigationExact(db, now, minutes, hours);
    FilterMembers(db.positions, Not(NavigationExpired(now, minutes, hours)));
  }

  function OlderThan(cutoff: int): PositionRow -> bool {
    (p: PositionRow) => p.timestamp < cutoff
  }

  /** The older `cleanup_old_positions(days)`: delete every row older
      than `days` days and return how many went. */
  function CleanupOldPositions(db: Db, now: int, days: int): Step<nat> {
    var cutoff := now - days * 86400;
    Step(db.(positions := FilterWhere(db.positions, Not(OlderThan(cutoff)))), CountWhere(db.positions, OlderThan(cutoff)))
  }

  /** It deletes exactly the rows older than the cutoff and reports their
      number. */
  lemma CleanupOldPositionsExact(db: Db, now: int, days: int)
    ensures var r := CleanupOldPositions(db, now, days);
      && r.out == |db.positions| - |r.db.positions|
      && r.db.ships == db.ships
      && forall p :: p in db.positions ==> (p in r.db.positions <==> p.timestamp >= now - days * 86400)
  {
    CountComplement(db.positions, OlderThan(now - days * 86400));
    FilterMembers(db.positions, Not(OlderThan(now - days * 86400)));
  }

  // ---------------------------------------------------------- compaction

  /** `SELECT DISTINCT mmsi FROM positions`. */
  function Mmsis(ps: seq<PositionRow>): set<string> {
    set i | 0 <= i < |ps| :: ps[i].mmsi
  }

  /** Index of a row of vessel `m` with the greatest id. */
  function MaxIndex(ps: seq<PositionRow>, m: string): (k: nat)
    requires m in Mmsis(ps)
    ensures k < |ps| && ps[k].mmsi == m
    ensures forall i :: 0 <= i < |ps| && ps[i].mmsi == m ==> ps[i].id <= ps[k].id
  {
    var init := ps[..|ps| - 1];
    var last := ps[|ps| - 1];
    assert forall i :: 0 <= i < |init| ==> init[i] == ps[i];
    if m !in Mmsis(init) then
      |ps| - 1
    else
      var k := MaxIndex(init, m);
      if last.mmsi == m && last.id > init[k].id then |ps| - 1 else k
  }

  /** `max(id)` over the rows of vessel `m`. */
  function MaxId(ps: seq<PositionRow>, m: string): int
    requires m in Mmsis(ps)
  {
    ps[MaxIndex(ps, m)].id
  }

  /** The subquery of max ids, one per vessel. */
  function MaxIds(ps: seq<PositionRow>): set<int> {
    set m | m in Mmsis(ps) :: MaxId(ps, m)
  }

  function IdIn(ids: set<int>): PositionRow -> bool {
    (p: PositionRow) => p.id in ids
  }

  /** `cleanup_old_positions` of database/cleanup.py (its `days` argument
      is unused): nothing when there are no more rows than vessels,
      otherwise delete every row whose id is not its vessel's greatest and
      return how many went. */
  function CompactDuplicates(db: Db): Step<int> {
    var ps := db.positions;
    if |ps| <= |Mmsis(ps)| then Step(db, 0)
    else
      var kept := FilterWhere(ps, IdIn(MaxIds(ps)));
      Step(db.(positions := kept), |ps| - |kept|)
  }

  /** There are never more vessels than rows, and as many exactly when each
      vessel has one row. */
  lemma {:induction false} MmsisCard(ps: seq<PositionRow>)
    ensures |Mmsis(ps)| <= |ps|
    ensures OnePerVessel(ps) <==> |Mmsis(ps)| == |ps|
  {
    if |ps| > 0 {
      var init := ps[..|ps| - 1];
      var last := ps[|ps| - 1];
      assert ps == init + [last];
      MmsisCard(init);
      if last.mmsi in Mmsis(init) {
        var k :| 0 <= k < |init| && init[k].mmsi == last.mmsi;
        SnocRepeats(init, last, k);
      } else {
        SnocNew(init, last);
      }
    }
  }

  lemma MmsisSnoc(init: seq<PositionRow>, last: PositionRow)
    ensures Mmsis(init + [last]) == Mmsis(init) + {last.mmsi}
  {
    var ps := init + [last];
    forall x | x in Mmsis(ps) ensures x in Mmsis(init) + {last.mmsi} {
      var i :| 0 <= i < |ps| && ps[i].mmsi == x;
      if i < |init| { assert ps[i] == init[i]; }
    }
    forall x | x in Mmsis(init) + {last.mmsi} ensures x in Mmsis(ps) {
      if x == last.mmsi {
        assert ps[|init|] == last;
      } else {
        var i :| 0 <= i < |init| && init[i].mmsi == x;
        assert ps[i] == init[i];
      }
    }
  }

  lemma SnocRepeats(init: seq<PositionRow>, last: PositionRow, k: int)
    requires 0 <= k < |init| && init[k].mmsi == last.mmsi
    ensures !OnePerVessel(init + [last])
    ensures Mmsis(init + [last]) == Mmsis(init)
  {
    var ps := init + [last];
    assert ps[k] == init[k] && ps[|init|] == last;
    MmsisSnoc(init, last);
  }

  lemma SnocNew(init: seq<PositionRow>, last: PositionRow)
    requires last.mmsi !in Mmsis(init)
    ensures OnePerVessel(init + [last]) <==> OnePerVessel(init)
    ensures |Mmsis(init + [last])| == |Mmsis(init)| + 1
  {
    var ps := init + [last];
    assert forall i :: 0 <= i < |init| ==> ps[i] == init[i];
    MmsisSnoc(init, last);
  }

  function IdOf(p: PositionRow): int { p.id }

  /** A row kept by compaction holds its vessel's greatest id. */
  lemma KeptHoldsMaxId(ps: seq<PositionRow>, p: PositionRow)
    requires Injective(ps, IdOf)
    requires p in ps && p.id in MaxIds(ps)
    ensures p.mmsi in Mmsis(ps) && p.id == MaxId(ps, p.mmsi)
  {
    var m :| m in Mmsis(ps) && MaxId(ps, m) == p.id;
    var a :| 0 <= a < |ps| && ps[a] == p;
    var b := MaxIndex(ps, m);
    assert IdOf(ps[a]) == IdOf(ps[b]);
  }

  /** The rows kept by the max-id filter: one per vessel, every vessel
      still present, each holding its vessel's greatest id. */
  lemma MaxIdFilter(ps: seq<PositionRow>)
    requires Injective(ps, IdOf)
    ensures var kept := FilterWhere(ps, IdIn(MaxIds(ps)));
      && OnePerVessel(kept)
      && Mmsis(kept) == Mmsis(ps)
      && forall i :: 0 <= i < |kept| ==> kept[i].id == MaxId(ps, kept[i].mmsi)
  {
    var kept := FilterWhere(ps, IdIn(MaxIds(ps)));
    FilterInjective(ps, IdIn(MaxIds(ps)), IdOf);
    FilterMembers(ps, IdIn(MaxIds(ps)));
    forall i | 0 <= i < |kept| ensures kept[i].mmsi in Mmsis(ps) && kept[i].id == MaxId(ps, kept[i].mmsi) {
      KeptHoldsMaxId(ps, kept[i]);
    }
    forall i, j | 0 <= i < j < |kept| ensures kept[i].mmsi != kept[j].mmsi {
      assert IdOf(kept[i]) != IdOf(kept[j]);
    }
    forall m | m in Mmsis(ps) ensures m in Mmsis(kept) {
      var b := MaxIndex(ps, m);
      assert IdIn(MaxIds(ps))(ps[b]);
    }
  }

  /** With distinct ids, compaction leaves exactly one row per vessel,
      loses no vessel, keeps each vessel's greatest-id row, and deletes as
      many rows as there were beyond one per vessel. Ships are untouched. */
  lemma CompactDuplicatesExact(db: Db)
    requires IdsValid(db)
    ensures var r := CompactDuplicates(db);
      && OnePerVessel(r.db.positions)
      && Mmsis(r.db.positions) == Mmsis(db.positions)
      && r.out == |db.positions| - |Mmsis(db.positions)|
      && r.db.ships == db.ships && r.db.tracked == db.tracked
      && (r.out > 0 ==> forall i :: 0 <= i < |r.db.positions| ==>
            r.db.positions[i].id == MaxId(db.positions, r.db.positions[i].mmsi))
  {
    var ps := db.positions;
    MmsisCard(ps);
    assert Injective(ps, IdOf) by {
      forall i, j | 0 <= i < j < |ps| ensures IdOf(ps[i]) != IdOf(ps[j]) {}
    }
    if |ps| > |Mmsis(ps)| {
      MaxIdFilter(ps);
      MmsisCard(FilterWhere(ps, IdIn(MaxIds(ps))));
    }
  }

  /** Under the `mmsi` primary key of models/position.py there is nothing
      to compact: the early return always fires (and the `Position.id`
      column the delete names, which that schema lacks, is never reached). */
  lemma CompactDuplicatesUnderKey(db: Db)
    requires OnePerVessel(db.positions)
    ensures CompactDuplicates(db) == Step(db, 0)
  {
    MmsisCard(db.positions);
  }

  // --------------------------------------------------------------- stats

  datatype OldStats = OldStats(
    oldUnderway: nat, oldMoored: nat, totalOld: nat, totalPositions: nat, totalShips: nat, cleanupNeeded: bool)

  /** `get_old_position_stats`. */
  function OldPositionStats(db: Db, now: int, minutes: int, hours: int): OldStats {
    var u := CountWhere(db.positions, OldUnderway(UnderwayCutoff(now, minutes)));
    var m := CountWhere(db.positions, OldMoored(MooredCutoff(now, hours)));
    OldStats(u, m, u + m, |db.positions|, |db.ships|, u > 0 || m > 0)
  }

  /** The statistics predict the cleanup run with the same arguments: the
      old totals are its two returned counts and the number of rows it
      removes, and a cleanup is "needed" exactly when it would remove a
      row. */
  lemma OldStatsPredictCleanup(db: Db, now: int, minutes: int, hours: int)
    ensures var st := OldPositionStats(db, now, minutes, hours);
      var r := CleanupByNavigation(db, now, minutes, hours);
      && st.oldUnderway == r.out.0 && st.oldMoored == r.out.1
      && st.totalOld == |db.positions| - |r.db.positions|
      && (st.cleanupNeeded <==> |r.db.positions| < |db.positions|)
  {
    CleanupByNavigationExact(db, now, minutes, hours);
  }

  datatype DuplicateStats = DuplicateStats(totalPositions: nat, uniqueShips: nat, duplicatePositions: int, cleanupNeeded: bool)

  /** `get_cleanup_stats`. */
  function CleanupStats(db: Db): DuplicateStats {
    var total := |db.positions|;
    var unique := |Mmsis(db.positions)|;
    DuplicateStats(total, unique, total - unique, total - unique > 0)
  }

  /** With distinct ids the duplicate count is never negative, is what
      compaction deletes, and a cleanup is "needed" exactly when some vessel
      has more than one row. */
  lemma CleanupStatsPredictCompaction(db: Db)
    requires IdsValid(db)
    ensures var st := CleanupStats(db);
      && st.duplicatePositions >= 0
      && st.duplicatePositions == CompactDuplicates(db).out
      && (st.cleanupNeeded <==> !OnePerVessel(db.positions))
  {
    CompactDuplicatesExact(db);
    MmsisCard(db.positions);
  }
}
