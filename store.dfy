/**
  The database object the pipeline writes through (`AISDatabase` of
  database.py and the mixins of database/position.py, database/cleanup.py
  and database/ships.py), as a class over the three tables. Every method
  changes the tables exactly as the function of the same name in Tables or
  Ships says; a committed call is one assignment of the new state and a
  rolled-back one leaves the state as it was.
*/
module Store {
  import opened Common
  import opened Decoded
  import opened Tables
  import opened Ships

  class AisDatabase {
    var ships: map<string, ShipRow>
    var positions: seq<PositionRow>
    var tracked: map<string, TrackedRow>
    var nextId: int

    /** The tables as a value. */
    function Snapshot(): Db
      reads this
    {
      Db(ships, positions, tracked, nextId)
    }

    /** An empty database; ids start at 1. */
    constructor ()
      ensures Snapshot() == Db(map[], [], map[], 1)
    {
      ships := map[];
      positions := [];
      tracked := map[];
      nextId := 1;
    }

    /** `PositionMixin.save_position`. The source touches the ship before
        converting the timestamp; a failed conversion rolls that back, so
        checking first leaves the same state. */
    method SavePosition(mmsi: string, data: Record, now: int, parseIso: Scalar -> Option<int>) returns (ok: bool)
      modifies this
      ensures Step(Snapshot(), ok) == Tables.SavePosition(old(Snapshot()), mmsi, data, now, parseIso)
    {
      if !Saveable(data, parseIso) {
        return false;
      }
      var ts := PositionTimestamp(data, parseIso).value;
      ships := Touch(ships, mmsi, now);
      // Position.query.filter_by(mmsi=mmsi).first()
      var j := 0;
      while j < |positions| && positions[j].mmsi != mmsi
        invariant 0 <= j <= |positions|
        invariant forall i :: 0 <= i < j ==> positions[i].mmsi != mmsi
      {
        j := j + 1;
      }
      if j < |positions| {
        positions := positions[j := RowFrom(positions[j].id, mmsi, data, ts)];
      } else {
        positions := positions + [RowFrom(nextId, mmsi, data, ts)];
        nextId := nextId + 1;
      }
      ok := true;
    }

    /** The older `AISDatabase.save_position`, which appends. */
    method SavePositionAppend(mmsi: string, data: Record, now: int, parseIso: Scalar -> Option<int>) returns (ok: bool)
      modifies this
      ensures Step(Snapshot(), ok) == Tables.SavePositionAppend(old(Snapshot()), mmsi, data, now, parseIso)
    {
      if "timestamp" !in data || !(data["timestamp"].Time? || data["timestamp"].Str?) {
        return false;
      }
      var ts := if data["timestamp"].Time? then Some(data["timestamp"].t) else parseIso(data["timestamp"]);
      if ts.None? || "latitude" !in data || "longitude" !in data || "msg_type" !in data
         || data["latitude"] == Null || data["longitude"] == Null {
        return false;
      }
      ships := Touch(ships, mmsi, now);
      positions := positions + [RowFrom(nextId, mmsi, data, ts.value)];
      nextId := nextId + 1;
      ok := true;
    }

    /** `Ship.update_static_data` on a copy of the row: the `setattr` loop
        over the keys of `data`, then `last_seen` becomes now. */
    static method UpdateShipRow(ship: ShipRow, data: Record, now: int) returns (row: ShipRow)
      ensures row == Ships.UpdateStaticData(ship, data, now)
    {
      row := ship;
      var todo := data.Keys;
      while todo != {}
        invariant todo <= data.Keys
        invariant row == AssignColumns(ship, data, data.Keys - todo)
        decreases todo
      {
        var field :| field in todo;
        AssignColumnsStep(ship, data, data.Keys - todo, field);
        assert data.Keys - (todo - {field}) == (data.Keys - todo) + {field};
        if data[field] != Null && field in ShipColumns {
          row := row[field := data[field]];
        }
        todo := todo - {field};
      }
      assert data.Keys - todo == data.Keys;
      row := row["last_seen" := Time(now)];
    }

    /** `save_ship_static_data`: get or create the ship, then update it. */
    method SaveShipStaticData(mmsi: string, data: Record, now: int) returns (ok: bool)
      modifies this
      ensures Step(Snapshot(), ok) == Ships.SaveShipStaticData(old(Snapshot()), mmsi, data, now)
    {
      var ship := if mmsi in ships then ships[mmsi] else NewShip(mmsi, now, now);
      var row := UpdateShipRow(ship, data, now);
      ships := ships[mmsi := row];
      ok := true;
    }

    /** `cleanup_old_positions_by_navigation`: one pass that counts both
        classes and keeps the other rows, in order. */
    method CleanupByNavigation(now: int, minutes: int, hours: int) returns (underway: nat, moored: nat)
      modifies this
      ensures Step(Snapshot(), (underway, moored)) == Tables.CleanupByNavigation(old(Snapshot()), now, minutes, hours)
    {
      var oldUnderway := OldUnderway(UnderwayCutoff(now, minutes));
      var oldMoored := OldMoored(MooredCutoff(now, hours));
      var keep := Not(NavigationExpired(now, minutes, hours));
      var kept := [];
      underway, moored := 0, 0;
      var i := 0;
      while i < |positions|
        invariant 0 <= i <= |positions|
        invariant kept == FilterWhere(positions[..i], keep)
        invariant underway == CountWhere(positions[..i], oldUnderway)
        invariant moored == CountWhere(positions[..i], oldMoored)
      {
        assert positions[..i + 1][..i] == positions[..i];
        if keep(positions[i]) {
          kept := kept + [positions[i]];
        }
        if oldUnderway(positions[i]) {
          underway := underway + 1;
        }
        if oldMoored(positions[i]) {
          moored := moored + 1;
        }
        i := i + 1;
      }
      assert positions[..i] == positions;
      if underway == 0 && moored == 0 {
        return 0, 0;
      }
      positions := kept;
    }

    /** The older `cleanup_old_positions(days)`. */
    method CleanupOldPositions(now: int, days: int) returns (deleted: nat)
      modifies this
      ensures Step(Snapshot(), deleted) == Tables.CleanupOldPositions(old(Snapshot()), now, days)
    {
      var old_ := OlderThan(now - days * 86400);
      var kept := [];
      deleted := 0;
      var i := 0;
      while i < |positions|
        invariant 0 <= i <= |positions|
        invariant kept == FilterWhere(positions[..i], Not(old_))
        invariant deleted == CountWhere(positions[..i], old_)
      {
        assert positions[..i + 1][..i] == positions[..i];
        if old_(positions[i]) {
          deleted := deleted + 1;
        } else {
          kept := kept + [positions[i]];
        }
        i := i + 1;
      }
      assert positions[..i] == positions;
      positions := kept;
    }

    /** `cleanup_old_positions` of database/cleanup.py: one bulk delete
        of every row that is not its vessel's greatest id. */
    method CompactDuplicates() returns (deleted: int)
      modifies this
      ensures Step(Snapshot(), deleted) == Tables.CompactDuplicates(old(Snapshot()))
    {
      ghost var db := Snapshot();
      if |positions| <= |Mmsis(positions)| {
        return 0;
      }
      var kept := FilterWhere(positions, IdIn(MaxIds(positions)));
      assert Tables.CompactDuplicates(db) == Step(db.(positions := kept), |positions| - |kept|);
      deleted := |positions| - |kept|;
      positions := kept;
      assert Snapshot() == db.(positions := kept);
    }

    /** `get_recent_ships`: a pass over the ships. */
    method GetRecentShips(now: int) returns (recent: set<string>)
      ensures recent == RecentShips(Snapshot(), now)
    {
      recent := {};
      var todo := ships.Keys;
      while todo != {}
        invariant todo <= ships.Keys
        invariant forall m :: m in recent <==> m in ships && m !in todo && Recent(Snapshot(), m, now)
        decreases todo
      {
        var m :| m in todo;
        if Recent(Snapshot(), m, now) {
          recent := recent + {m};
        }
        todo := todo - {m};
      }
    }

    method AddTrackedShip(mmsi: string, name: Scalar, notes: Scalar, addedBy: Scalar, now: int) returns (ok: bool)
      modifies this
      ensures Step(Snapshot(), ok) == Ships.AddTrackedShip(old(Snapshot()), mmsi, name, notes, addedBy, now)
    {
      if mmsi in tracked {
        return false;
      }
      if mmsi !in ships {
        ships := ships[mmsi := NewShip(mmsi, now, now)];
      }
      var shipName := GetOrNull(ships[mmsi], "ship_name");
      tracked := tracked[mmsi := TrackedRow(if Truthy(name) then name else if Truthy(shipName) then shipName else Null,
                                            notes, addedBy, now)];
      ok := true;
    }

    method RemoveTrackedShip(mmsi: string) returns (ok: bool)
      modifies this
      ensures Step(Snapshot(), ok) == Ships.RemoveTrackedShip(old(Snapshot()), mmsi)
    {
      if mmsi !in tracked {
        return false;
      }
      tracked := tracked - {mmsi};
      ok := true;
    }

    method UpdateTrackedShip(mmsi: string, name: Scalar, notes: Scalar) returns (ok: bool)
      modifies this
      ensures Step(Snapshot(), ok) == Ships.UpdateTrackedShip(old(Snapshot()), mmsi, name, notes)
    {
      if mmsi !in tracked {
        return false;
      }
      var entry := tracked[mmsi];
      if name != Null {
        entry := entry.(name := name);
      }
      if notes != Null {
        entry := entry.(notes := notes);
      }
      tracked := tracked[mmsi := entry];
      ok := true;
    }

    /** `get_tracked_mmsis`. */
    method GetTrackedMmsis() returns (mmsis: set<string>)
      ensures mmsis == TrackedMmsis(Snapshot())
    {
      mmsis := tracked.Keys;
    }
  }
}
