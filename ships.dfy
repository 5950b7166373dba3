/**
  The ship-side rules: the sparse static-data update of `Ship`
  (models/ship.py, models.py), activity and latest position, the
  freshness filter and pagination arithmetic of database/ships.py, and the
  tracked-ship list.
*/
module Ships {
  import opened Common
  import opened Decoded
  import opened Tables

  // ----------------------------------------------------- static update

  /** The `setattr` loop of `Ship.update_static_data` after it has seen
      the keys `fields` of `data`: every non-`None` value whose key is a
      column is assigned, everything else is ignored. */
  function AssignColumns(row: ShipRow, data: Record, fields: set<string>): ShipRow {
    map c | c in row.Keys + (set k | k in fields && k in data && data[k] != Null && k in ShipColumns) ::
      if c in fields && c in data && data[c] != Null && c in ShipColumns then data[c]
      else row[c]
  }

  /** One more iteration of the loop. */
  lemma AssignColumnsStep(row: ShipRow, data: Record, fields: set<string>, f: string)
    requires f in data
    ensures AssignColumns(row, data, fields + {f}) ==
      if data[f] != Null && f in ShipColumns then AssignColumns(row, data, fields)[f := data[f]]
      else AssignColumns(row, data, fields)
  {
  }

  /** `Ship.update_static_data`: the loop over all of `data`, then
      `last_seen` becomes now. */
  function UpdateStaticData(row: ShipRow, data: Record, now: int): ShipRow {
    AssignColumns(row, data, data.Keys)["last_seen" := Time(now)]
  }

  /** What the update changes, key by key: `last_seen` is now; a column
      with a non-`None` value in `data` takes it; every other key, and in
      particular every key of `data` that is not a column (`timestamp`,
      `msg_type`, `eta_month`, ...), keeps its old value or stays absent. */
  lemma UpdateStaticDataExact(row: ShipRow, data: Record, now: int, c: string)
    ensures var r := UpdateStaticData(row, data, now);
      Get(r, c) ==
        if c == "last_seen" then Some(Time(now))
        else if c in ShipColumns && c in data && data[c] != Null then Some(data[c])
        else Get(row, c)
  {
  }

  /** The update keeps every column a ship row has. */
  lemma UpdateStaticDataKeepsColumns(row: ShipRow, data: Record, now: int)
    requires row.Keys == ShipColumns
    ensures UpdateStaticData(row, data, now).Keys == ShipColumns
  {
  }

  /** `save_ship_static_data`: get or create the ship, then update it. */
  function SaveShipStaticData(db: Db, mmsi: string, data: Record, now: int): Step<bool> {
    var ship := if mmsi in db.ships then db.ships[mmsi] else NewShip(mmsi, now, now);
    Step(db.(ships := db.ships[mmsi := UpdateStaticData(ship, data, now)]), true)
  }

  /** Saving static data touches only the vessel's ship row, never a
      position or a tracked ship; a new ship is first seen now. */
  lemma SaveShipStaticDataFrame(db: Db, mmsi: string, data: Record, now: int)
    ensures var r := SaveShipStaticData(db, mmsi, data, now);
      && r.out
      && r.db.positions == db.positions && r.db.tracked == db.tracked
      && mmsi in r.db.ships && Get(r.db.ships[mmsi], "last_seen") == Some(Time(now))
      && (mmsi !in db.ships && ("first_seen" !in data || data["first_seen"] == Null) ==>
            Get(r.db.ships[mmsi], "first_seen") == Some(Time(now)))
      && (forall k :: k != mmsi ==> (k in r.db.ships <==> k in db.ships))
      && (forall k :: k != mmsi && k in db.ships ==> r.db.ships[k] == db.ships[k])
  {
    var ship := if mmsi in db.ships then db.ships[mmsi] else NewShip(mmsi, now, now);
    UpdateStaticDataExact(ship, data, now, "last_seen");
    UpdateStaticDataExact(ship, data, now, "first_seen");
  }

  // ------------------------------------------------------------ activity

  /** `Ship.is_active(hours)`: false without `last_seen`, otherwise
      `last_seen` strictly after now minus `hours`. */
  predicate IsActive(lastSeen: Scalar, now: int, hours: int) {
    lastSeen.Time? && lastSeen.t > now - hours * 3600
  }

  /** A ship saved now is active for any positive window, and a ship seen
      at time `t` stops being active once `hours` have passed. */
  lemma IsActiveWindow(t: int, now: int, hours: int)
    ensures hours > 0 ==> IsActive(Time(now), now, hours)
    ensures IsActive(Time(t), now, hours) <==> now < t + hours * 3600
    ensures !IsActive(Null, now, hours)
  {
  }

  /** After a successful position save or any static save, the vessel's
      ship is active for every positive window. */
  lemma ActiveAfterSave(db: Db, mmsi: string, data: Record, now: int, hours: int, parseIso: Scalar -> Option<int>)
    requires hours > 0
    ensures var r := SavePosition(db, mmsi, data, now, parseIso);
      r.out ==> mmsi in r.db.ships && IsActive(r.db.ships[mmsi]["last_seen"], now, hours)
    ensures var r := SaveShipStaticData(db, mmsi, data, now);
      mmsi in r.db.ships && Get(r.db.ships[mmsi], "last_seen") == Some(Time(now)) && IsActive(Time(now), now, hours)
  {
    SavePositionShip(db, mmsi, data, now, parseIso);
    SaveShipStaticDataFrame(db, mmsi, data, now);
  }

  // ----------------------------------------------------- latest position

  /** The row with the greatest timestamp (the first such in table order:
      SQL leaves ties unordered). */
  function LatestOf(rows: seq<PositionRow>): (r: Option<PositionRow>)
    ensures r.None? <==> rows == []
    ensures r.Some? ==> r.value in rows
    ensures r.Some? ==> forall i :: 0 <= i < |rows| ==> rows[i].timestamp <= r.value.timestamp
  {
    if |rows| == 0 then None
    else
      var init := rows[..|rows| - 1];
      var last := rows[|rows| - 1];
      assert forall i :: 0 <= i < |init| ==> init[i] == rows[i];
      match LatestOf(init)
      case None => Some(last)
      case Some(p) => if last.timestamp > p.timestamp then Some(last) else Some(p)
  }

  /** `Ship.latest_position` of models.py: order the vessel's rows by
      timestamp, newest first, and take the first. */
  function LatestPosition(positions: seq<PositionRow>, mmsi: string): (r: Option<PositionRow>)
    ensures r.None? <==> forall i :: 0 <= i < |positions| ==> positions[i].mmsi != mmsi
    ensures r.Some? ==> r.value in positions && r.value.mmsi == mmsi
    ensures r.Some? ==> forall i :: 0 <= i < |positions| && positions[i].mmsi == mmsi ==>
      positions[i].timestamp <= r.value.timestamp
  {
    var rows := RowsOf(positions, mmsi);
    FilterMembers(positions, VesselIs(mmsi));
    var r := LatestOf(rows);
    assert forall i :: 0 <= i < |positions| && positions[i].mmsi == mmsi ==> VesselIs(mmsi)(positions[i]);
    if r.None? then
      assert forall i :: 0 <= i < |positions| ==> positions[i].mmsi != mmsi;
      r
    else
      assert VesselIs(mmsi)(r.value);
      r
  }

  /** A vessel with a single row has that row as its latest position. */
  lemma LatestOfOnlyRow(positions: seq<PositionRow>, mmsi: string, x: PositionRow)
    requires RowsOf(positions, mmsi) == [x]
    ensures LatestPosition(positions, mmsi) == Some(x)
  {
    assert [x][..0] == [];
  }

  // ----------------------------------------------------------- freshness

  /** The freshness rule of `get_recent_ships`: a stationary vessel (at
      anchor, moored, aground) is recent for 2 hours, any other for 2
      minutes; the timestamp must be strictly after the cutoff. */
  predicate Fresh(p: PositionRow, now: int) {
    p.timestamp > now - (if Stationary(p.navStatus) then 2 * 3600 else 2 * 60)
  }

  /** The vessels `get_recent_ships` lists: ships with at least one
      position whose latest one is fresh. */
  predicate Recent(db: Db, m: string, now: int) {
    m in db.ships && LatestPosition(db.positions, m).Some? && Fresh(LatestPosition(db.positions, m).value, now)
  }

  function RecentShips(db: Db, now: int): (r: set<string>)
    ensures forall m :: m in r <==>
      m in db.ships && LatestPosition(db.positions, m).Some? && Fresh(LatestPosition(db.positions, m).value, now)
  {
    set m | m in db.ships && Recent(db, m, now)
  }

  /** A position saved now, stamped now, makes its vessel recent: under
      the one-row-per-vessel schema the saved row is the latest. */
  lemma RecentAfterSave(db: Db, mmsi: string, data: Record, now: int, parseIso: Scalar -> Option<int>)
    requires OnePerVessel(db.positions)
    requires "timestamp" in data && data["timestamp"] == Time(now)
    ensures var r := SavePosition(db, mmsi, data, now, parseIso);
      r.out ==> mmsi in RecentShips(r.db, now)
  {
    var r := SavePosition(db, mmsi, data, now, parseIso);
    if r.out {
      SavePositionOneRow(db, mmsi, data, now, parseIso);
      SavePositionShip(db, mmsi, data, now, parseIso);
      var rows := RowsOf(r.db.positions, mmsi);
      LatestOfOnlyRow(r.db.positions, mmsi, rows[0]);
    }
  }

  /** The join `db.session.query(Ship).join(Position)` is non-empty: some
      ship has a position row. */
  predicate JoinNonEmpty(db: Db) {
    exists i :: 0 <= i < |db.positions| && db.positions[i].mmsi in db.ships
  }

  /** `get_recent_ships` as written, with `None` for the exception it
      raises. database/ships.py imports `Ship` from the `models` package,
      whose `Ship` (models/ship.py) declares no `positions` attribute: the
      relationship is commented out, and the only backref onto `Ship` is
      `current_position` (models/position.py:22). So the read of
      `latest_position` at database/ships.py:143 raises `AttributeError`
      for the first ship the join returns, and the method has no handler.
      Only a database where no ship has a position gives a result, the
      empty list. */
  function RecentShipsAsWritten(db: Db, now: int): (r: Option<set<string>>)
    ensures r.None? <==> exists m :: m in db.ships && LatestPosition(db.positions, m).Some?
    ensures r.Some? ==> r.value == {}
  {
    if JoinNonEmpty(db) then
      var i :| 0 <= i < |db.positions| && db.positions[i].mmsi in db.ships;
      assert LatestPosition(db.positions, db.positions[i].mmsi).Some?;
      None
    else
      Some({})
  }

  /** As written, `get_recent_ships` fails right after any successful
      position save, where the corrected rule lists the vessel
      (`RecentAfterSave`). */
  lemma RecentAfterSaveAsWritten(db: Db, mmsi: string, data: Record, now: int, parseIso: Scalar -> Option<int>)
    requires OnePerVessel(db.positions)
    ensures var r := SavePosition(db, mmsi, data, now, parseIso);
      r.out ==> RecentShipsAsWritten(r.db, now).None?
  {
    var r := SavePosition(db, mmsi, data, now, parseIso);
    if r.out {
      SavePositionOneRow(db, mmsi, data, now, parseIso);
      SavePositionShip(db, mmsi, data, now, parseIso);
      assert mmsi in r.db.ships && LatestPosition(r.db.positions, mmsi).Some?;
    }
  }

  /** A stationary vessel stays recent longer than an underway one: with
      the same timestamp, an underway vessel that is recent is also recent
      when stationary, and a row 10 minutes old is recent only when
      stationary. */
  lemma StationaryStaysLonger(p: PositionRow, now: int)
    ensures Fresh(p.(navStatus := Int(0)), now) ==> Fresh(p.(navStatus := Int(5)), now)
    ensures p.timestamp == now - 600 ==> (Fresh(p, now) <==> Stationary(p.navStatus))
  {
  }

  // ---------------------------------------------------------- pagination

  /** Python's `a // b`: rounds toward negative infinity. */
  function FloorDiv(a: int, b: int): (q: int)
    requires b != 0
    ensures b > 0 ==> q * b <= a < q * b + b
    ensures b < 0 ==> q * b >= a > q * b + b
  {
    if b > 0 then a / b else (-a) / (-b)
  }

  /** `total_pages = (total + per_page - 1) // per_page`. */
  function TotalPages(total: int, perPage: int): int
    requires perPage != 0
  {
    FloorDiv(total + perPage - 1, perPage)
  }

  /** For a positive page size the page count is the ceiling of
      total / per_page: just enough pages to hold every row, and none for
      an empty table. */
  lemma TotalPagesIsCeiling(total: nat, perPage: int)
    requires perPage > 0
    ensures var n := TotalPages(total, perPage);
      && n >= 0
      && n * perPage >= total
      && ((n - 1) * perPage < total || total == 0)
      && (n == 0 <==> total == 0)
  {
    var n := TotalPages(total, perPage);
    assert n * perPage <= total + perPage - 1 < n * perPage + perPage;
    assert (n - 1) * perPage == n * perPage - perPage;
  }

  /** SQLite's `OFFSET o LIMIT l`: a negative offset counts as 0 and a
      negative limit means no limit. */
  function OffsetLimit<T>(rows: seq<T>, offset: int, limit: int): (r: seq<T>)
    ensures |r| <= |rows|
  {
    var start := if offset < 0 then 0 else if offset > |rows| then |rows| else offset;
    var end := if limit < 0 || start + limit > |rows| then |rows| else start + limit;
    rows[start..end]
  }

  /** The part of `get_all_ships_paginated` after sorting and filtering:
      the page of rows, the total and the page count. Any exception is
      caught, and the error result is an empty page with total and page
      count 0. */
  datatype Page<T> = Page(rows: seq<T>, total: int, totalPages: int)

  /** The error result of the `except` branch. */
  function ErrorPage<T>(): Page<T> {
    Page([], 0, 0)
  }

  /** `get_all_ships_paginated` with `latest_position` readable, as in
      models.py: only a zero page size raises (`ZeroDivisionError` when
      the page count is computed). */
  function Paginate<T>(rows: seq<T>, page: int, perPage: int): Page<T> {
    if perPage == 0 then ErrorPage()
    else Page(OffsetLimit(rows, (page - 1) * perPage, perPage), |rows|, TotalPages(|rows|, perPage))
  }

  /** `get_all_ships_paginated` as written: the loop reads
      `ship.latest_position` (database/ships.py:70) for every ship on the
      page, which raises as in `RecentShipsAsWritten`, so every non-empty
      page becomes the error result. */
  function PaginateAsWritten<T>(rows: seq<T>, page: int, perPage: int): Page<T> {
    if OffsetLimit(rows, (page - 1) * perPage, perPage) != [] then ErrorPage()
    else Paginate(rows, page, perPage)
  }

  /** As written no page ever shows a row, and for any non-empty table
      the first page reports no rows at all, where the corrected listing
      shows them (`PagesCoverRows`). */
  lemma PaginateAsWrittenHidesRows<T>(rows: seq<T>, page: int, perPage: int)
    ensures PaginateAsWritten(rows, page, perPage).rows == []
    ensures perPage > 0 && rows != [] ==>
      && PaginateAsWritten(rows, 1, perPage) == ErrorPage()
      && Paginate(rows, 1, perPage).rows != []
      && Paginate(rows, 1, perPage).total == |rows|
  {
    if perPage > 0 && rows != [] {
      assert OffsetLimit(rows, 0, perPage) == rows[0..if perPage > |rows| then |rows| else perPage];
    }
  }

  /** Pages 1 to n, one after the other. */
  function PagesUpTo<T>(rows: seq<T>, perPage: int, n: nat): seq<T> {
    if n == 0 then [] else PagesUpTo(rows, perPage, n - 1) + Paginate(rows, n, perPage).rows
  }

  /** Page n starts where page n - 1 ends. */
  lemma PageOffsets(n: nat, perPage: int)
    requires n > 0 && perPage > 0
    ensures 0 <= (n - 1) * perPage && (n - 1) * perPage + perPage == n * perPage
  {
  }

  /** The rows before offset a, followed by the page of `perPage` rows at a,
      are the rows before a + perPage. */
  lemma PageAfterPrefix<T>(rows: seq<T>, a: int, perPage: int)
    requires 0 <= a && perPage > 0
    ensures var b := a + perPage;
      rows[..if a > |rows| then |rows| else a] + OffsetLimit(rows, a, perPage)
        == rows[..if b > |rows| then |rows| else b]
  {
    var b := a + perPage;
    var lo := if a > |rows| then |rows| else a;
    var hi := if b > |rows| then |rows| else b;
    assert OffsetLimit(rows, a, perPage) == rows[lo..hi];
    assert rows[..lo] + rows[lo..hi] == rows[..hi];
  }

  lemma {:induction false} PagesUpToPrefix<T>(rows: seq<T>, perPage: int, n: nat)
    requires perPage > 0
    ensures PagesUpTo(rows, perPage, n) == rows[..if n * perPage > |rows| then |rows| else n * perPage]
  {
    if n > 0 {
      PagesUpToPrefix(rows, perPage, n - 1);
      PageOffsets(n, perPage);
      PageAfterPrefix(rows, (n - 1) * perPage, perPage);
    }
  }

  /** For a positive page size the pages 1 .. total_pages, read in order,
      are exactly the rows: every row is on exactly one page. */
  lemma PagesCoverRows<T>(rows: seq<T>, perPage: int)
    requires perPage > 0
    ensures PagesUpTo(rows, perPage, TotalPages(|rows|, perPage)) == rows
  {
    TotalPagesIsCeiling(|rows|, perPage);
    PagesUpToPrefix(rows, perPage, TotalPages(|rows|, perPage));
  }

  /** The sortable fields; any other falls back to `ship_name`. */
  const SortFields: set<string> := {"mmsi", "ship_name", "imo", "ship_type", "last_seen", "first_seen"}

  function SortColumn(field: string): (c: string)
    ensures c in SortFields
    ensures c == field <==> field in SortFields
    ensures field !in SortFields ==> c == "ship_name"
  {
    if field in SortFields then field else "ship_name"
  }

  /** `str.lower` on ASCII letters. */
  function LowerAscii(s: string): (r: string)
    ensures |r| == |s|
    ensures forall i :: 0 <= i < |s| ==> r[i] == if 'A' <= s[i] <= 'Z' then (s[i] as int + 32) as char else s[i]
  {
    if |s| == 0 then [] else
      [if 'A' <= s[0] <= 'Z' then (s[0] as int + 32) as char else s[0]] + LowerAscii(s[1..])
  }

  /** `sort_direction.lower() == 'asc'`; anything else sorts descending. */
  predicate SortAscending(direction: string) {
    LowerAscii(direction) == "asc"
  }

  /** Ascending exactly for the three letters a, s, c in any case. */
  lemma SortAscendingExactly(direction: string)
    ensures SortAscending(direction) <==>
      |direction| == 3 && direction[0] in "aA" && direction[1] in "sS" && direction[2] in "cC"
  {
    var l := LowerAscii(direction);
    if SortAscending(direction) {
      assert l[0] == 'a' && l[1] == 's' && l[2] == 'c';
    }
  }

  // -------------------------------------------------------- tracked ships

  /** `add_tracked_ship`, with the time put into `last_seen` of a ship the
      call creates as a parameter: refused when already tracked; otherwise
      the ship is created if missing and the entry is added, named by the
      `name` argument when truthy, else by the ship's name when truthy,
      else `None`. */
  function AddTrackedShipWith(db: Db, mmsi: string, name: Scalar, notes: Scalar, addedBy: Scalar, now: int, newLastSeen: int): Step<bool> {
    if mmsi in db.tracked then Step(db, false)
    else
      var ship := if mmsi in db.ships then db.ships[mmsi] else NewShip(mmsi, now, newLastSeen);
      var shipName := GetOrNull(ship, "ship_name");
      var entry := TrackedRow(if Truthy(name) then name else if Truthy(shipName) then shipName else Null, notes, addedBy, now);
      Step(db.(ships := db.ships[mmsi := ship], tracked := db.tracked[mmsi := entry]), true)
  }

  /** `add_tracked_ship` as written: the new ship gets `first_seen` now, and
      `last_seen` from the column default, which is `datetime.now(...)`
      evaluated once when the model module is imported (`loadTime`). */
  function AddTrackedShipAsWritten(db: Db, mmsi: string, name: Scalar, notes: Scalar, addedBy: Scalar, now: int, loadTime: int): Step<bool> {
    AddTrackedShipWith(db, mmsi, name, notes, addedBy, now, loadTime)
  }

  /** As written, a vessel first added to the tracking list an hour or more
      after start-up is created already inactive. */
  lemma AddTrackedShipAsWrittenStale(db: Db, mmsi: string, name: Scalar, notes: Scalar, addedBy: Scalar, now: int, loadTime: int)
    requires mmsi !in db.ships && mmsi !in db.tracked
    requires loadTime + 3600 <= now
    ensures var r := AddTrackedShipAsWritten(db, mmsi, name, notes, addedBy, now, loadTime);
      r.out && mmsi in r.db.ships && r.db.ships[mmsi]["last_seen"] == Time(loadTime)
      && !IsActive(r.db.ships[mmsi]["last_seen"], now, 1)
  {
  }

  /** `add_tracked_ship` with the ship it creates seen now, as the explicit
      `first_seen` argument beside it evidently intends. */
  function AddTrackedShip(db: Db, mmsi: string, name: Scalar, notes: Scalar, addedBy: Scalar, now: int): Step<bool> {
    AddTrackedShipWith(db, mmsi, name, notes, addedBy, now, now)
  }

  /** A ship created by adding it to the tracking list is active. */
  lemma AddTrackedShipActive(db: Db, mmsi: string, name: Scalar, notes: Scalar, addedBy: Scalar, now: int, hours: int)
    requires mmsi !in db.ships && hours > 0
    ensures var r := AddTrackedShip(db, mmsi, name, notes, addedBy, now);
      (r.out <==> mmsi !in db.tracked)
      && (r.out ==> r.db.ships[mmsi] == NewShip(mmsi, now, now) && IsActive(r.db.ships[mmsi]["last_seen"], now, hours))
  {
  }

  /** `remove_tracked_ship`. */
  function RemoveTrackedShip(db: Db, mmsi: string): Step<bool> {
    if mmsi !in db.tracked then Step(db, false)
    else Step(db.(tracked := db.tracked - {mmsi}), true)
  }

  /** `update_tracked_ship`: only the arguments that are not `None`
      overwrite. */
  function UpdateTrackedShip(db: Db, mmsi: string, name: Scalar, notes: Scalar): Step<bool> {
    if mmsi !in db.tracked then Step(db, false)
    else
      var e := db.tracked[mmsi];
      var e' := e.(name := if name != Null then name else e.name, notes := if notes != Null then notes else e.notes);
      Step(db.(tracked := db.tracked[mmsi := e']), true)
  }

  /** `get_tracked_mmsis`. */
  function TrackedMmsis(db: Db): set<string> {
    db.tracked.Keys
  }

  /** The corrected add (`AddTrackedShip`, a created ship seen now; as
      written it would get the import-time `last_seen` of
      `AddTrackedShipAsWritten`). Adding succeeds exactly for an untracked
      vessel. A success adds
      exactly that entry, holding the given notes and author and stamped
      now, and named by `name` when truthy, else by the ship's name when
      truthy, else `None`; it creates the ship only when missing, and
      changes nothing else. */
  lemma AddTrackedShipExact(db: Db, mmsi: string, name: Scalar, notes: Scalar, addedBy: Scalar, now: int)
    ensures var r := AddTrackedShip(db, mmsi, name, notes, addedBy, now);
      && (r.out <==> mmsi !in TrackedMmsis(db))
      && (!r.out ==> r.db == db)
      && (r.out ==>
            && TrackedMmsis(r.db) == TrackedMmsis(db) + {mmsi}
            && (forall k :: k in db.tracked ==> r.db.tracked[k] == db.tracked[k])
            && (mmsi in db.ships ==> r.db.ships == db.ships)
            && (mmsi !in db.ships ==> r.db.ships == db.ships[mmsi := NewShip(mmsi, now, now)])
            && r.db.positions == db.positions
            && r.db.tracked[mmsi].notes == notes
            && r.db.tracked[mmsi].addedBy == addedBy
            && r.db.tracked[mmsi].addedDate == now
            && (Truthy(name) ==> r.db.tracked[mmsi].name == name)
            && (!Truthy(name) && mmsi in db.ships && Truthy(GetOrNull(db.ships[mmsi], "ship_name")) ==>
                  r.db.tracked[mmsi].name == db.ships[mmsi]["ship_name"])
            && (!Truthy(name) && !(mmsi in db.ships && Truthy(GetOrNull(db.ships[mmsi], "ship_name"))) ==>
                  r.db.tracked[mmsi].name == Null))
  {
    if mmsi !in db.tracked && mmsi !in db.ships {
      assert GetOrNull(NewShip(mmsi, now, now), "ship_name") == Null;
    }
  }

  /** Removing an entry just added restores the tracked list; the ship the
      add created stays. */
  lemma AddThenRemove(db: Db, mmsi: string, name: Scalar, notes: Scalar, addedBy: Scalar, now: int)
    requires mmsi !in db.tracked
    ensures var added := AddTrackedShip(db, mmsi, name, notes, addedBy, now);
      var removed := RemoveTrackedShip(added.db, mmsi);
      removed.out && removed.db.tracked == db.tracked && mmsi in removed.db.ships
  {
    var added := AddTrackedShip(db, mmsi, name, notes, addedBy, now);
    assert added.db.tracked - {mmsi} == db.tracked;
  }

  /** Removing fails on an untracked vessel and otherwise deletes exactly
      that entry; updating fails on an untracked vessel and otherwise
      changes only the given fields of that entry. Neither touches a ship
      or a position. */
  lemma RemoveAndUpdateExact(db: Db, mmsi: string, name: Scalar, notes: Scalar)
    ensures var r := RemoveTrackedShip(db, mmsi);
      && (r.out <==> mmsi in db.tracked)
      && TrackedMmsis(r.db) == TrackedMmsis(db) - {mmsi}
      && r.db.ships == db.ships && r.db.positions == db.positions
      && (forall k :: k in r.db.tracked ==> r.db.tracked[k] == db.tracked[k])
    ensures var u := UpdateTrackedShip(db, mmsi, name, notes);
      && (u.out <==> mmsi in db.tracked)
      && TrackedMmsis(u.db) == TrackedMmsis(db)
      && u.db.ships == db.ships && u.db.positions == db.positions
      && (forall k :: k in db.tracked && k != mmsi ==> u.db.tracked[k] == db.tracked[k])
      && (u.out ==>
            && u.db.tracked[mmsi].name == (if name != Null then name else db.tracked[mmsi].name)
            && u.db.tracked[mmsi].notes == (if notes != Null then notes else db.tracked[mmsi].notes)
            && u.db.tracked[mmsi].addedBy == db.tracked[mmsi].addedBy
            && u.db.tracked[mmsi].addedDate == db.tracked[mmsi].addedDate)
  {
  }
}
