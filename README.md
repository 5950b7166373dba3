# TM-Fleet AIS ingestion pipeline, in Dafny

This project models the AIS ingestion pipeline of TM-Fleet, a Flask ship-tracking service. It also models the store-side rules that act on the pipeline's output. Each stage has a model:

- **Classifying a line.** The model strips a text line received over UDP, recognises it as an `!AIVDM`/`!AIVDO` sentence of NMEA 0183 and reads the fragment header fields (module `Nmea`).
- **Reassembling fragments.** Multipart sentences collect in a buffer keyed by message id and channel. A message is handed out in fragment order once complete, and stale sets are evicted (module `FragmentBuffer`).
- **Decoding.** The decoded message is passed to the message processor, which keeps two in-memory dictionaries (module `Processor`):
  - the last position of each vessel;
  - a detail entry per vessel.

  A position report replaces the detail entry; a static report merges into it.
- **Asking the database.** The processor then asks the database to upsert the position or merge the static data (modules `Tables`, `Ships`, `Store`).
- **Cleaning up.** Periodic jobs evict fragments and remove old position rows.

The database side covers:
- position upsert, one row per vessel;
- navigation-status-aware retention;
- duplicate compaction and its statistics;
- the freshness rule for "recent" ships;
- pagination arithmetic;
- the sparse static-data merge onto a `Ship`;
- the tracked-ship list;
- role-based tracking limits (module `Users`).

Two front ends drive the pipeline (module `Ingestion`):
- `AISService` of services/ais_service.py;
- the older `parse_ais_message` and UDP loop of app.py.

The two count lines differently, and both are modelled.

The model takes the shape of the source. Code that mutates state is a class whose methods are proved to change their fields exactly as a specification function says:
- `MultipartMessageBuffer`;
- `AisMessageProcessor`;
- `AisDatabase` over the three tables;
- `AisService`;
- app.py's `UdpListener`.

The properties the source promises are lemmas about those specification functions. Pure code (the header parser, user roles) is functions and lemmas.

database.py holds an older copy of the parser, the buffer and the processor, each modelled once:
- Its parser (database.py:340-365) and buffer (database.py:273-338) are textually the same as the utils/ files.
- Its processor (database.py:158-270) differs from utils/ais_message_processor.py in four ways, and none of them changes the two dictionaries or the recorded database call:
  - it takes a fixed `highlighted_mmsis` set where the utils/ one takes a callback;
  - it stamps entries with `datetime.utcnow()` where the utils/ one uses `datetime.now(UTC)` (times are an abstract `now` here);
  - it has no tracked-MMSI lookup before printing;
  - its position save calls database.py's own `save_position`.
- So, under the reading of the imports below, app.py's position saves reach the append-only save (`Tables.SavePositionAppend`), and the service's reach the package's upsert (`Tables.SavePosition`). database.py also has an append-only `save_position` and an age-based `cleanup_old_positions`; both are modelled beside their newer counterparts.

Conventions:
- Clocks are an explicit `now` parameter, in seconds.
- `pyais.decode` and ISO-8601 parsing are function-valued parameters.
- Python values are the datatype `Scalar`, with `Null` for `None`.

## Where the source behaves unexpectedly

- **Completion total.** The pending entry stores the total of its first fragment (utils/multipart_message_buffer.py:15-17), but the completion test at line 25 compares the stored count with the `total_fragments` argument of the *current* call. A fragment that claims fewer parts can therefore complete a message early: `FragmentBuffer.CompletionUsesCallTotal`.
- **Missing fragment with a full count.** The "missing fragment" branch at lines 34-36 is reached whenever the count matches while a number in 1..total is absent, which happens as soon as a fragment with an out-of-range number is stored. It returns `None` and keeps the entry: `FragmentBuffer.AddCountMatchesButGap`.
- **Header values.** utils/nmea_parser.py:12-13 accept any integer as either count, 0 and negative numbers included; the model accepts them too.
- **Which database module app.py uses.** app.py imports `AISMessageProcessor`, `MultipartMessageBuffer` and `NMEAParser` from `database`. As written, Python resolves that name to the `database/` package, which takes precedence over database.py. The package defines none of the three names, and its database/__init__.py:4 imports `.positions`, a module that does not exist (the file is position.py), so the import fails. Reading the import as database.py, the only module that defines those classes, is therefore a choice forced by an import that cannot succeed. Under that reading, its 10000-line sweep is read as database.py's age-based `cleanup_old_positions(days=7)`. The model records that sweep as an effect rather than naming which implementation runs it.
- **The service's store path.** services/ais_service.py:6 and utils/ais_message_processor.py:2 reach the store through the same `from database import AISDatabase`, which, by the reasoning above, fails at database/__init__.py:4. The service path is modelled as if that line imported `.position`, the file that exists, so that `AISDatabase` is the package's facade over position.py, ships.py and cleanup.py.
- **Append save conflicts with the package schema.** database.py imports `Position` from `models`, which resolves to the package's models/position.py, whose primary key is `mmsi`. The older save appends a row on every call, which works only with models.py's id-keyed `Position`. Under the `mmsi` key, a second row for a vessel violates the key at commit, and the `except` rolls the whole save back (the ship's `last_seen` included) and returns False: `Tables.SavePositionAppendUnderKeyExact`. `Tables.SavePositionAppend` models the append over models.py's schema.
- **Compaction conflicts with the package schema.** The `database` package's `cleanup_old_positions` compacts duplicates by `Position.id`, but the `Position` of models/position.py has `mmsi` as its primary key and no `id`. Under that key there is never anything to compact, and the early return always fires: `Tables.CompactDuplicatesUnderKey`. The compaction itself is modelled over an abstract row id, as the SQL describes it.

## Model

| member | source | states |
|---|---|---|
| Text.Strip | utils/nmea_parser.py:25 | `str.strip`: the result is empty exactly when every character is stripped, and otherwise neither end character is one that is stripped |
| Text.Split | utils/nmea_parser.py:7 | `str.split(sep)`: at least one part, no part contains the separator, and joining the parts with it gives the input back |
| Text.SplitJoin | utils/nmea_parser.py:7 | splitting the join of separator-free parts gives the parts back, so the header fields are recovered exactly |
| Text.ParseIntToString | utils/nmea_parser.py:13-14 | `int(str(n)) == n` for every integer, so the decimal MMSI key and the header counts read back |
| Nmea.ParseNmeaFields | utils/nmea_parser.py:5-20 | `None` for fewer than six comma-separated fields; a parsed message id is never the empty string and the channel holds no comma |
| Nmea.ParsedFieldsVerbatim | utils/nmea_parser.py:12-17 | on success the two counts are the integer values of fields 1 and 2, the message id is absent exactly when field 3 is empty and is otherwise field 3 verbatim, and the channel is field 4 verbatim |
| Nmea.ParseRejectsNonInteger | utils/nmea_parser.py:18-20 | a line whose field 1 or 2 is not an integer yields `None` and never fails |
| Nmea.ParseSentenceRoundTrip | utils/nmea_parser.py:11-17 | writing any header (counts not required positive) into a sentence and parsing it gives exactly that header |
| Nmea.ParseExample | utils/nmea_parser.py:7-17 | `!AIVDM,2,1,3,A,xxx,0*1B` parses to fragment 1 of 2 of message "3" on channel A |
| Nmea.ParseExampleMalformed | utils/nmea_parser.py:7-9 | `!AIVDM,bad` parses to `None` |
| Nmea.IsAisMessage | utils/nmea_parser.py:23-26 | a line is recognised exactly when its stripped form starts with `!AIVDM` or `!AIVDO`, so a recognised line is never blank |
| Nmea.IsAisMessageIgnoresSpace | utils/nmea_parser.py:25 | a line and its stripped form are classified alike |
| Nmea.IsAisMessageOfSentence | utils/nmea_parser.py:26 | every sentence with a VDM or VDO talker is recognised |
| FragmentBuffer.Assemble | utils/multipart_message_buffer.py:30-36 | the ordered reassembly succeeds exactly when every number 1..n is stored, and then yields n lines |
| FragmentBuffer.AssembleLines | utils/multipart_message_buffer.py:31-33 | the assembled list holds fragment i at position i-1 |
| FragmentBuffer.AddOtherKeysUntouched | utils/multipart_message_buffer.py:12-22 | a call changes only the entry of the key it derives |
| FragmentBuffer.AddIncomplete | utils/multipart_message_buffer.py:14-22 | an incomplete message stays pending with the line stored under its number; an existing entry keeps its total and creation time, and a new one takes the call's total and `now` |
| FragmentBuffer.AddRepeatedFragment | utils/multipart_message_buffer.py:22 | a repeated fragment number overwrites its line without changing the pending count |
| FragmentBuffer.AddComplete | utils/multipart_message_buffer.py:25-42 | a message is handed out exactly when the stored count equals the call's total and no number 1..total is missing; it then has `total` lines in fragment order and its entry is deleted |
| FragmentBuffer.AddCountMatchesButGap | utils/multipart_message_buffer.py:31-36 | a count that matches with a number missing returns `None` and keeps the entry |
| FragmentBuffer.CompletionUsesCallTotal | utils/multipart_message_buffer.py:25 | an entry created by 3-part fragments completes, short of its third part, when a fragment claiming 2 parts arrives |
| FragmentBuffer.AnyOrderReassembles | utils/multipart_message_buffer.py:9-46 | the N fragments of a message arriving at one time in any order yield nothing until the last, then exactly the N lines in fragment order, and the buffer is left as before the first |
| FragmentBuffer.EvictExactly | utils/multipart_message_buffer.py:48-61 | eviction removes exactly the entries strictly older than the maximum age and keeps the rest unchanged |
| FragmentBuffer.EvictedThenFresh | utils/multipart_message_buffer.py:14-19 | after eviction the next fragment with that key starts a fresh entry holding only itself |
| FragmentBuffer.SummaryReadsBack | utils/multipart_message_buffer.py:67 | the per-key `received/total` text reads back as the received count and the total |
| FragmentBuffer.MultipartMessageBuffer.AddFragment | utils/multipart_message_buffer.py:9-46 | the buffer and the result are exactly those of `Add` on the old buffer |
| FragmentBuffer.MultipartMessageBuffer.SortFragments | utils/multipart_message_buffer.py:30-36 | the loop returns exactly `Assemble` of the fragments |
| FragmentBuffer.MultipartMessageBuffer.CleanupOldFragments | utils/multipart_message_buffer.py:48-61 | the collect-then-delete loops leave exactly `Evict` of the old buffer |
| FragmentBuffer.MultipartMessageBuffer.GetStats | utils/multipart_message_buffer.py:63-68 | the count is the number of pending entries, and each pending key, and no other, maps to the `received/total` summary of its entry, which `SummaryReadsBack` reads back |
| Processor.Clean | utils/ais_message_processor.py:112-113 | `strip('@').strip()` keeps the kind of the value and leaves no white space at either end of a string |
| Processor.PositionValue | utils/ais_message_processor.py:60-64 | an optional position field is stored exactly when the attribute exists and is not `None`, holding its value |
| Processor.StaticValue | utils/ais_message_processor.py:107-115 | a static field is stored exactly when its cleaned value is truthy, holding the cleaned value, and never `None` |
| Processor.PositionRecordContents | utils/ais_message_processor.py:42-64 | the entry of a valid position message holds the five fixed keys with the message's values, and each optional key exactly when the attribute is present and not `None` (0 and `False` included) |
| Processor.PositionReplacesEntry | utils/ais_message_processor.py:66 | a valid position message replaces the vessel's entry, so no static key survives it |
| Processor.StaticMergeContents | utils/ais_message_processor.py:83-117 | a static message merges: each static key takes the cleaned truthy value or keeps its previous value; every other key is left as it was |
| Processor.StaticNeverErases | utils/ais_message_processor.py:83-117 | a static message never removes a key of the existing entry and never touches the position map |
| Processor.ProcessIdempotent | utils/ais_message_processor.py:13-128 | processing the same message twice at the same time gives the same maps and the same database call as processing it once |
| Processor.ProcessFrame | utils/ais_message_processor.py:13-35 | only the entry `str(mmsi)` can change; a message is dropped, leaving both maps unchanged, exactly when it is a position message with a missing or not-available coordinate (91/181), or is neither a position message nor of type 5 or 24 |
| Processor.ProcessCall | utils/ais_message_processor.py:74-76 | the database call carries the entry just written under `str(mmsi)`; it is a position save exactly for position messages, whose map entry holds the coordinates |
| Processor.EntryKeyIdentifiesVessel | utils/ais_message_processor.py:16 | the key `str(mmsi)` reads back as the MMSI, and two vessels never share a key |
| Processor.FalsyValuesByPath | utils/ais_message_processor.py:63-114 | a speed of 0 is stored by a position message, while a ship type of 0 or a name made only of `@` is dropped by a static one |
| Processor.CleanPaddingExample | utils/ais_message_processor.py:113 | `NAME@@@@` is cleaned to `NAME` |
| Processor.CleanOrderExample | utils/ais_message_processor.py:113 | the `@` strip runs first: ` @AB@ ` is cleaned to `@AB@` |
| Processor.AisMessageProcessor.ProcessDecodedMessage | utils/ais_message_processor.py:13-28 | the two dictionaries and the returned call are exactly `Process` of the old dictionaries |
| Processor.AisMessageProcessor.ProcessPositionMessage | utils/ais_message_processor.py:30-78 | the dictionaries and the call are exactly `PositionStep`, with the optional-field loop proved against the fold of the field list |
| Processor.AisMessageProcessor.MergePositionFields | utils/ais_message_processor.py:51-64 | the `for attr, key in optional_fields` loop returns exactly the fold `Apply` of the list with the position rule, over any list of pairs |
| Processor.AisMessageProcessor.ProcessStaticMessage | utils/ais_message_processor.py:80-128 | the dictionaries and the call are exactly `StaticStep`, with the static-field loop proved against the fold of the field list |
| Processor.AisMessageProcessor.StaticEntry | utils/ais_message_processor.py:82-115 | the existing entry, or a fresh one, after the static loop is exactly `StaticRecord` of the old dictionary |
| Processor.AisMessageProcessor.MergeStaticFields | utils/ais_message_processor.py:107-115 | the `for attr, key in static_fields` loop, with its `None` test, string clean-up and truthiness test, returns exactly the fold `Apply` of the list with the static rule |
| Tables.NewShip | database/position.py:15 | a new ship row has every column, its MMSI, and the given `first_seen` and `last_seen` |
| Tables.RowFrom | database/position.py:42-54 | a new or overwritten position row takes latitude, longitude, message type and timestamp verbatim and every optional column by `.get`, `None` when missing |
| Tables.FirstIndexOf | database/position.py:22 | the index found is the first row of the vessel, and `None` means the vessel has no row |
| Tables.SavePositionShip | database/position.py:11-19 | a save succeeds exactly when the data has the required keys, a readable timestamp and non-null coordinates; a failure changes nothing; a success gets-or-creates the ship, sets `last_seen` to now, and changes no other ship and no tracked ship |
| Tables.SavePositionOneRow | database/position.py:28-55 | with at most one row per vessel before, a save leaves exactly one row for the vessel holding the saved data (the old id when overwriting, the next id when inserting) and every other vessel's rows as they were |
| Tables.SavePositionAppendUnderKeyExact | database.py:36-71 | under the `mmsi` primary key of models/position.py the older save keeps one row per vessel: it fails and changes nothing for a vessel that already has a row, and otherwise appends, leaving that vessel exactly one row |
| Tables.SavePositionAppendAddsRow | database.py:36-71 | the older save appends one row with the next id after the vessel's existing rows and handles the ship like the upsert |
| Tables.CleanupByNavigationExact | database/cleanup.py:6-60 | the cleanup keeps exactly the rows that are not expired, in order (the zero-count early return included); ships and tracked ships are untouched; the two counts are the underway and stationary rows removed, and they add up to the rows gone |
| Tables.CleanupByNavigationKeeps | database/cleanup.py:16-24 | a row survives exactly when it is not older than the cutoff of its class: 2 h by default for anchored, moored or aground rows, 2 min for the rest |
| Tables.CleanupOldPositionsExact | database.py:119-135 | the older cleanup deletes exactly the rows older than `days` days and returns how many went |
| Tables.MaxIndex | database/cleanup.py:87-90 | the chosen row belongs to the vessel and has the greatest id among its rows |
| Tables.MmsisCard | database/cleanup.py:78-81 | there are never more vessels than rows, and exactly as many when each vessel has one row |
| Tables.CompactDuplicatesExact | database/cleanup.py:72-99 | with distinct ids, compaction leaves one row per vessel, loses no vessel, keeps each vessel's greatest-id row, reports the rows beyond one per vessel, and leaves ships alone |
| Tables.CompactDuplicatesUnderKey | database/cleanup.py:78-83 | under the one-row-per-vessel key the early return fires and nothing changes |
| Tables.OldStatsPredictCleanup | database/cleanup.py:107-141 | the old-position statistics equal the counts the cleanup with the same arguments returns and removes, and "cleanup needed" holds exactly when it would remove a row |
| Tables.CleanupStatsPredictCompaction | database/cleanup.py:155-167 | the duplicate count is never negative, equals what compaction deletes, and "cleanup needed" holds exactly when some vessel has more than one row |
| Ships.UpdateStaticDataExact | models/ship.py:47-53 | key by key: `last_seen` becomes now, a column with a non-`None` value takes it, and every other key keeps its value or stays absent |
| Ships.UpdateStaticDataKeepsColumns | models/ship.py:47-53 | the update keeps the column set of a ship row |
| Ships.SaveShipStaticDataFrame | database/ships.py:100-113 | saving static data always succeeds; it touches only the vessel's ship row, never a position or a tracked ship; `last_seen` becomes now, and a new ship whose data brings no `first_seen` is first seen now |
| Ships.IsActiveWindow | models/ship.py:55-61 | a ship seen at t is active exactly while now < t + hours; a ship without `last_seen` never is |
| Ships.ActiveAfterSave | models/ship.py:53-61 | after any successful position or static save the ship is active for every positive window |
| Ships.LatestOf | models.py:59-61 | the latest position is absent exactly for no rows, is one of the rows, and no row has a later timestamp |
| Ships.LatestPosition | models.py:59-61 | `latest_position` read through the `positions` relationship: a vessel has a latest position exactly when it has a row; it is one of its own rows and none of them is later |
| Ships.RecentShips | database/ships.py:134-162 | corrected: a vessel is recent exactly when it has a position and its latest one is strictly newer than 2 h ago (stationary) or 2 min ago (other) |
| Ships.RecentShipsAsWritten | database/ships.py:140-145 | as written, the call raises exactly when some ship has a position, and otherwise returns no ship |
| Ships.RecentAfterSave | database/ships.py:140-150 | corrected: a position saved now with a timestamp of now makes its vessel recent |
| Ships.RecentAfterSaveAsWritten | database/ships.py:140-143 | as written, the call raises after any successful position save |
| Ships.StationaryStaysLonger | database/ships.py:147-150 | a vessel recent when underway is recent when stationary, and a 10-minute-old row is recent only when stationary |
| Ships.FloorDiv | database/ships.py:88 | Python's `//`: the remainder lies between 0 and the divisor, on the divisor's side |
| Ships.TotalPagesIsCeiling | database/ships.py:88 | for a positive page size the page count is the ceiling of total ÷ page size, and 0 exactly for an empty result |
| Ships.OffsetLimit | database/ships.py:65 | SQLite's `OFFSET`/`LIMIT` slice is never longer than the rows |
| Ships.PagesCoverRows | database/ships.py:65-88 | for a positive page size, pages 1..total_pages read in order are exactly the rows: each row is on exactly one page |
| Ships.PaginateAsWrittenHidesRows | database/ships.py:67-96 | as written no page ever holds a row, and for a non-empty table and a positive page size the first page is the error result with total 0, where the corrected listing shows the rows and their count |
| Ships.SortColumn | database/ships.py:41-49 | the sort column is always a valid one, and is the requested field exactly when that field is valid (else `ship_name`) |
| Ships.SortAscendingExactly | database/ships.py:61-63 | the order is ascending exactly for the letters a, s, c in any case |
| Ships.AddTrackedShipAsWrittenStale | models/ship.py:21 | as written, a vessel first added to the tracking list an hour or more after start-up is created with `last_seen` at start-up and is not active |
| Ships.AddTrackedShipActive | database/ships.py:200-203 | corrected: a ship created by adding it to the tracking list is seen now and is active |
| Ships.AddTrackedShipExact | database/ships.py:193-214 | corrected: adding succeeds exactly for an untracked vessel; a refusal changes nothing; a success adds that key, ensures the ship exists, keeps positions, stamps the entry now, and names it by the argument when truthy, else by a truthy ship name |
| Ships.AddThenRemove | database/ships.py:193-233 | removing an entry just added restores the tracked list; the ship that the add created stays |
| Ships.RemoveAndUpdateExact | database/ships.py:221-251 | remove and update fail exactly on an untracked vessel; remove deletes exactly that entry; update keeps the key set and changes only the fields given as non-`None` |
| Store.AisDatabase.SavePosition | database/position.py:6-63 | the first-row search loop and the in-place overwrite or insert leave exactly `Tables.SavePosition` of the old tables |
| Store.AisDatabase.SavePositionAppend | database.py:36-71 | the tables and result are exactly `Tables.SavePositionAppend` |
| Store.AisDatabase.SaveShipStaticData | database/ships.py:100-113 | the `setattr` loop over the data keys leaves exactly `Ships.SaveShipStaticData` of the old tables |
| Store.AisDatabase.UpdateShipRow | models/ship.py:47-53 | the `setattr` loop over the keys of the data, in any order, then `last_seen`, returns exactly `Ships.UpdateStaticData` of the row |
| Store.AisDatabase.CleanupByNavigation | database/cleanup.py:6-60 | the counting and filtering loop leaves exactly `Tables.CleanupByNavigation` and returns its two counts |
| Store.AisDatabase.CleanupOldPositions | database.py:119-135 | the loop leaves exactly `Tables.CleanupOldPositions` and returns its count |
| Store.AisDatabase.CompactDuplicates | database/cleanup.py:72-99 | the tables and count are exactly `Tables.CompactDuplicates` |
| Store.AisDatabase.GetRecentShips | database/ships.py:134-162 | the loop over the ships returns exactly the recent vessels of the corrected `RecentShips` |
| Store.AisDatabase.AddTrackedShip | database/ships.py:193-218 | the tables and result are exactly the corrected `Ships.AddTrackedShip` |
| Store.AisDatabase.RemoveTrackedShip | database/ships.py:221-233 | the tables and result are exactly `Ships.RemoveTrackedShip` |
| Store.AisDatabase.UpdateTrackedShip | database/ships.py:236-251 | the tables and result are exactly `Ships.UpdateTrackedShip` |
| Store.AisDatabase.GetTrackedMmsis | database/ships.py:254-258 | returns exactly the tracked MMSIs |
| Users.TrackingLimit | models/user.py:49-57 | unlimited exactly for company, company_user and admin; 5 exactly for user; 0 for any other role |
| Users.CanTrackShip | models/user.py:59-80 | a free user who may track one more is told how many slots remain |
| Users.CanTrackAgreesWithLimit | models/user.py:49-80 | one more ship may be tracked exactly when the role is unlimited or the count is below its limit |
| Users.RemainingSlots | models/user.py:76-78 | a free user who may track one more has between 1 and 5 slots left, and the message reads back as that number |
| Users.UnknownRoleTracksNothing | models/user.py:57-80 | an unknown role has limit 0 and gets "No tracking permission" |
| Users.FreeUserCountQuery | models/user.py:75 | as written a free user never gets a verdict; counting by the user's own column, the user is allowed exactly below 5 |
| Ingestion.RouteLine | services/ais_service.py:141-167 | a line is ignored exactly when its stripped form is not an AIS sentence or its header does not parse; otherwise it is decoded directly exactly when the total is 1, and otherwise buffered |
| Ingestion.Deliver | services/ais_service.py:176-186 | decoding never touches the buffer or the counter; a failed or falsy decode changes nothing; at most one database call is recorded |
| Ingestion.CountLine | services/ais_service.py:188-196 | the counter grows by one, and the buffer is evicted exactly when the interval is non-zero and divides the new count |
| Ingestion.BlankNotRouted | services/ais_service.py:124-126 | a blank line is never routed |
| Ingestion.ServiceCountsRoutedLines | services/ais_service.py:124-170 | over a datagram the service counts exactly its routed lines |
| Ingestion.AppCountsNonBlankLines | app.py:167-170 | over a datagram app.py counts every non-blank line, routed or not |
| Ingestion.CountsDiffer | app.py:167-170 | on a non-AIS line the service changes nothing, while app.py counts the line |
| Ingestion.UnroutedLineDoesNothing | app.py:77-92 | routing an unrouted line changes nothing |
| Ingestion.SingleBypassesBuffer | services/ais_service.py:157-159 | a single-part sentence is decoded from itself and never touches the buffer |
| Ingestion.FragmentGoesThroughBuffer | services/ais_service.py:160-167 | a fragment is stored in the buffer and decoded, from its fragments in order, exactly when the buffer completes it |
| Ingestion.AppSweepSchedule | app.py:172-179 | app.py evicts at every 1000th line and records a 7-day sweep at exactly every 10000th, which the nesting inside the 1000 check never hides |
| Ingestion.DatagramLeavesUnroutedAlone | services/ais_service.py:124-126 | a datagram with no routed line leaves the service unchanged |
| Ingestion.AisService.DecodeAndProcess | services/ais_service.py:176-186 | the new state is exactly `Deliver` of the old |
| Ingestion.AisService.UpdateMessageCount | services/ais_service.py:188-196 | the new state is exactly `CountLine` of the old with the configured interval |
| Ingestion.AisService.ProcessAisLine | services/ais_service.py:138-174 | the new state is exactly the service step of the old |
| Ingestion.AisService.ReceiveDatagram | services/ais_service.py:124-126 | the loop over the lines of a datagram leaves exactly the service fold over them |
| Ingestion.AisService.GetStats | services/ais_service.py:198-213 | the statistics report the two dictionary sizes, the counter and the number of pending messages |
| Ingestion.UdpListener.ParseAisMessage | app.py:48-119 | the new state is exactly the shared routing of the old |
| Ingestion.UdpListener.DecodeAndProcess | app.py:96-115 | the new state is exactly `Deliver` of the old |
| Ingestion.UdpListener.ReceiveDatagram | app.py:162-179 | the loop leaves exactly app.py's fold over the datagram's lines |
| Ingestion.UdpListener.CountMessage | app.py:169-177 | counting one line leaves exactly `AppCount` of the old state: the counter grows by one, eviction at every 1000th, a 7-day sweep at every 10000th |

## Left out

- Sockets, the UDP receive loop itself, its UTF-8 decoding, threads and the timer that runs the navigation cleanup every few minutes (services/ais_service.py:44-82, 89-136) are not modelled. The cleanup the timer runs is modelled as `CleanupByNavigation`.
- Printing and logging are not modelled. The tracked-MMSI lookup inside `AISMessageProcessor` only chooses the symbol printed, so it is not modelled either.
- Exceptions:
  - Modelled error paths: `KeyError` and `ValueError` in a save (`Saveable`), `ZeroDivisionError` for a zero page size or cleanup interval, and the swallowed decoding errors (`decode` returns `None`).
  - Database errors caught by the `except Exception` blocks are not modelled.
  - An exception raised inside the processor, which `process_decoded_message` would swallow, is not modelled.
- Tables.Stationary: a `NULL` navigation status counts as not stationary. This is deliberately simpler than SQL, whose `NOT IN` on `NULL` is unknown, so SQL would delete such a row in neither class.
- Tables.PositionTimestamp: ISO-8601 parsing, the `'Z'` replacement and time zones are the parameter `parseIso`; timestamps are integer seconds.
- Floating point: coordinates and `float()` are `real`. Only the exact comparisons with 91.0 and 181.0 are used.
- Ships.AssignColumns: assigns only the 13 column names, where `hasattr` also accepts other attributes of the ORM object (`query`, `positions`, methods and properties).
- The text search of `search_ships` and `get_all_ships_paginated`, and the row order `order_by` produces, are not modelled. `Paginate` takes the rows already filtered and sorted; `SortColumn` and `SortAscending` model the choice of column and direction.
- Ships.LowerAscii: lower-cases ASCII letters only; no other character lower-cases to `a`, `s` or `c`, so `SortAscending` is still exact.
- Ships.IsActive: compares integer times, so it is the intended comparison. In the source, the cutoff of models/ship.py:60 is timezone-aware, while a `last_seen` read back from the SQLite `DateTime` column is naive, and comparing the two raises `TypeError` (database/ships.py:150 re-attaches `tzinfo=UTC` for this reason). Whether a given `Ship` holds an aware or a naive value depends on whether it was reloaded, which the model does not track. `Ships.IsActiveWindow` and `Ships.AddTrackedShipAsWrittenStale` state the comparison as intended.
- Ships.LatestOf: breaks timestamp ties by table order, where SQL leaves them unordered.
- Ships.LatestPosition: follows models.py:59-61. The `Ship` that database/ships.py uses is the one in models/ship.py, whose `latest_position` (models/ship.py:76) reads a `positions` relationship that is commented out and so raises. That as-written behaviour is `RecentShipsAsWritten` and `PaginateAsWritten` (see Findings).
- Ships.RecentShips: the corrected freshness rule. As written, `get_recent_ships` raises whenever some ship has a position (`RecentShipsAsWritten`).
- Ships.RecentAfterSave: states the corrected `get_recent_ships`. As written, that call raises after the save (`RecentAfterSaveAsWritten`).
- Store.AisDatabase.GetRecentShips: computes the corrected `RecentShips`, not the exception the source raises.
- Ships.AddTrackedShip: the corrected add. A ship it creates gets `last_seen` = now, where as written it gets the import-time column default (models/ship.py:21); that behaviour is `Ships.AddTrackedShipAsWritten` (see Findings). `Ships.AddTrackedShipExact` is stated for the corrected add.
- Store.AisDatabase.AddTrackedShip: implements the corrected `Ships.AddTrackedShip`, not `Ships.AddTrackedShipAsWritten`.
- Ships.Paginate: the corrected listing, where only a zero page size gives the error result. As written every non-empty page also gives it (`ships=[]`, `total=0`, `total_pages=0`), because the `latest_position` read raises and is caught (`PaginateAsWritten`).
- Text.ParseInt: reads ASCII digits only. Python's `int()` also accepts every other Unicode decimal digit (fullwidth `２`, say), which the model rejects as not an integer.
- The result dictionaries (`to_dict`, the merging of position fields into them, `is_tracked`) are not modelled. `get_recent_ships` returns the set of recent MMSIs, which also stands for the ORM's per-entity de-duplication of the join.
- `get_ship_details`, `get_ship_track`, `get_tracked_ships` and `get_database_stats` are read-only reports outside this model.
- Store.AisDatabase.SavePosition: the source rolls back the ship update when the timestamp cannot be converted; the method checks first, so it leaves the same state.
- Ingestion: the recorded database calls are not executed against `AisDatabase`; the two are modelled separately.
- Ingestion.AisService.GetStats: the `cleanup_timer_active` flag is left out with the timer.
- Users: the number of ships a user already tracks comes from a database count and is a parameter.

## Findings

| source | as written | input that shows it | evidently intended | confidence | as-written member | corrected member |
|---|---|---|---|---|---|---|
| models/ship.py:20-21 | `default=datetime.now(timezone.utc)` evaluates the time once at import, so a `Ship` created without `last_seen` (`add_tracked_ship`, database/ships.py:202) gets the start-up time | an untracked vessel with no ship row is added to the tracking list an hour after start-up: its `last_seen` is the start-up time, so `is_active()` is false (or, once the row is reloaded as a naive datetime, raises `TypeError`; see Ships.IsActive under Left out) | a callable default, so `last_seen` is the creation time, as the explicit `first_seen=datetime.now(UTC)` beside it suggests | medium, not executed | Ships.AddTrackedShipAsWrittenStale | Ships.AddTrackedShipActive |
| database/ships.py:143 | `get_recent_ships` reads `ship.latest_position` of the models/ship.py `Ship`, which reads `self.positions`; no such attribute exists (the relationship at models/ship.py:24 is commented out, and the backref of models/position.py:22 is `current_position`), and nothing catches the `AttributeError` | any database in which one ship has a position row, e.g. right after a successful `save_position` | read the newest position, as models.py:59-61 does, and list the ships whose latest position is fresh | medium, not executed | Ships.RecentAfterSaveAsWritten | Ships.RecentAfterSave |
| database/ships.py:70 | `get_all_ships_paginated` reads `ship.latest_position` for every ship on the page; the read raises and the `except` at line 91 returns the error result | a non-empty table with `page=1`, `per_page=50`: the result has `ships=[]`, `total=0`, `total_pages=0` | the page of ships with its total and page count; error result only for a zero page size | medium, not executed | Ships.PaginateAsWrittenHidesRows | Ships.PagesCoverRows |
| models/user.py:75 | counts with `filter_by(added_by_user_id=self.id)`, and `TrackedShip` has no such column (it is `added_by_user`, models/tracked_ship.py:14), so the query raises | any user whose role is `user` | count the user's rows by `added_by_user`, giving "allowed exactly below 5" | medium, not executed | Users.FreeUserCountQuery | Users.CanTrackAgreesWithLimit |
