# KDOS planning: a verified model of its protocols

This project models the parts of the KDOS planning repository whose promises range over whole runs, and
proves those promises with Dafny 4.11. `dafny verify dfyconfig.toml` checks all of it.

| files | what they model |
|---|---|
| `Keyset`, `OrderSync`, `OrderSyncProofs`, `OrderSyncTheorems`, `OrderSyncClient`, `OrderSyncConditions` | the ERP order synchroniser: initialisation, compensation and incremental scans with overlap windows, resume, failure and crash, over a source that keeps changing, together with the API that stores pages and cursors |
| `Simulator` | the read-only simulator, which reads one page a run and always re-reads the overlap |
| `ProgressFacts`, `ProgressProbe`, `ProgressMeaning`, `ProgressResults` | the R&D progress evaluator over BOM, plant and routing rows |
| `ProgressRefresh`, `ProgressBundle`, `ProgressReader`, `ProgressLoader` | the incremental reader that decides which order lines to evaluate again, over a source that changes while it is read |
| `ReportDelivery` | the daily report's write-ahead receipt: at most once |
| `Dispatcher` | the notification dispatcher's receipt after the fact: at least once, with counted duplicates |
| `Organization`, `OrganizationIndex`, `OrganizationScope`, `OrganizationStore` | one parent relation, its traversals, and the requests that change it |
| `PrintLayout`, `Csv`, `Biff`, `Calendar` | print widths, CSV writing and reading, the BIFF record scan, dashboard date ranges |
| `Text`, `Wrappers` | trimming; `Option` and `Result` |

## How the model is built

The synchroniser's source is the finite set of all row versions there ever are. A version is stamped when it
is written and becomes visible when its transaction commits; every page is a read of its own and sees what is
current at that moment. A world holds the API's state, the running process and some history; its steps are
begin, page, complete, fail and crash, in any order the process allows and with any delay between them. The
process itself is the class `OrderSyncClient.Synchronizer`, whose loops update locals and fields as the
program does; each of its methods is proved to be a sequence of those steps, so what is proved about all
reachable worlds holds of the program's runs. `ReportDelivery` is built in the same way. Outcomes that the
program does not control (which rows change, whether a call is answered, when a process dies) are chosen
arbitrarily.

The R&D source is a history of its eleven tables. Each statement of a read answers at a moment of its own, and
each parameter of a batched statement may be answered at another; the results kept are compared with the
source at the cutoff.

The evaluator is defined twice: as a function of sets of rows, which says what a result means, and as the
loops over lists, dictionaries and candidates that the program runs. The second is proved equal to the first, and
the first to a decision table that names the rows of each result.

What the repository's own design relies on is stated as a premise where it is used:

- commits become visible within two minutes of their stamp, later versions of a row have no earlier stamps, keys
  lie above the minimum key, the source clock never repeats a reading and reads on the microsecond grid, and
  rows are not physically deleted (`WellFormed` and the guard of `Begin`);
- initialised business dates are not before 1900, the date paging starts from;
- the initialisation scope of a row depends on that row alone;
- one process at a time works on a source, and on a receipt (the program takes a lock);
- for the incremental refresh: changes are stamped, no row a line depends on is deleted or moved to another
  owner between two reads, and incremental reads start more than two minutes after the formal candidate
  start, from which a table without a watermark is read. The source is not assumed to rest: what is promised
  is promised of a line whose rows rest during the last read;
- the messaging provider accepted a message exactly when it answers with error code 0;
- organisation ids are distinct (they are primary keys) and not empty.

## What turned out to need a condition

- `sync.py incremental` marks a source as initialised; truly so exactly if the source was inventoried before.
- A source that is only scanned incrementally loses what is stamped between the anchors of a failed first run
  and the next one. Once any scan has finished, or the source was inventoried, the anchor no longer matters.
- Comparing raw seven-digit stamps with a six-digit cursor never gets past a microsecond that 1000 rows with a
  seventh digit share; the cast in the queries removes this. The comment in the source speaks of truncation;
  the server's cast rounds, and the model rounds.
- An initialisation page stores the stamp truncated to the microsecond, a scan stores it rounded. A row that a scan
  stored with a rounded-up stamp loses that microsecond when an initialisation page reads it again; its version
  never goes back.
- The stored bound of the last scan goes back exactly when a scan with an older bound ends, which a resumed run
  can do. That only re-reads more; nothing is lost.
- The simulator's cursor moves in time exactly while fewer rows than a batch lie in or before its microsecond
  within the overlap, and on a source at rest it is otherwise stuck forever. A row that becomes visible late,
  behind the cursor, is missed exactly when a full batch leaves the cursor as it is and cuts the row off.
- A read of the R&D source is not a snapshot: a row that becomes visible between the cutoff and the reading of
  its table is mixed into the result. The next read sets the line right.
- The incremental refresh looks up the present owner of a changed row. A row moved to another item leaves a
  stale result at the item that lost it.
- A dispatcher answer without an error code counts as success the first time, but its receipt stores null,
  which no later claim can confirm. An id that is not a lower-case UUID gets no receipt, and then nothing
  bounds its duplicates.
- The scope search ends exactly if the unit it starts from does not lie above itself; the requests here keep
  that so.
- A name can be patched to blank, although none can be created blank; nothing else blanks one.
- An exported field that is empty or holds quotes only reads back with one more quote, and a line feed in a
  field splits its row.
- Date ranges: months of the years 0 to 99 end in the 1900s, and a range that ends on 9999-12-31 is empty.

## Model

| member | source | states |
|---|---|---|
| `Keyset.PageIsUnique` | data-operations/order-sync/sync.py:151 | A TOP-1000 answer in key order is determined by the rows that match: two answers to one query are equal. |
| `Keyset.TopRows` | data-operations/order-sync/sync.py:151 | Such an answer exists for every finite set of matching rows with distinct ids: the rows in strict key order, all of them or the first LIMIT. |
| `Keyset.CurrentIsUnique` | data-operations/order-sync/sync.py:92 | A READ COMMITTED statement reads at most one state of a row. |
| `OrderSyncProofs.OverlapSuffices` | data-operations/order-sync/sync.py:201 | A row stamped before a finished scan's bound less two minutes was already visible to that scan, because commits lag their stamp by no more than the overlap. |
| `OrderSyncProofs.PageExtends` | data-operations/order-sync/sync.py:208-216 | If everything the scan wants up to the cursor is staged, it is staged up to the last row of the next page after that page is upserted, and entirely if the page is not full, although rows change between and during pages. |
| `OrderSyncProofs.BeginCoversSession` | data-operations/order-sync/sync.py:201-207 | Wherever a run starts or resumes, everything its scan wants behind the page cursor is already staged. |
| `OrderSyncProofs.CommitIsApplied` | apps/api/src/data-operations/order-sync/order-sync.repository.ts:55-60 | The commit of a live session's non-empty page is never dropped as a repeated idempotency key: it upserts exactly its rows. |
| `OrderSyncProofs.StepKeepsInvariant` | data-operations/order-sync/sync.py:176-218 | Every step of every process (begin, resume, page, complete, fail, crash) keeps the coverage, time, run and ledger invariants, whatever the source does meanwhile. |
| `OrderSyncProofs.RunsKeepInvariant` | data-operations/order-sync/sync.py:176-218 | So does every sequence of steps. |
| `OrderSyncTheorems.NoLostUpdate` | data-operations/order-sync/sync.py:195-218 | After any sequence of completed, failed, crashed and resumed runs, once a scan with bound U has completed, every row visible at U, unchanged since, and stamped from the floor on is staged in all its columns, with its stamp rounded or truncated to the microsecond. The floor is the next rows' subject; InitializationReachesSource does without it. |
| `OrderSyncConditions.RunsKeepFloor` | data-operations/order-sync/sync.py:201 | Once a scan has finished, or the floor has come to the snapshot less the overlap, no sequence of steps moves it. |
| `OrderSyncConditions.CompensationFixesFloor` | data-operations/order-sync/sync.py:193 | The compensation after an inventory brings it there. |
| `OrderSyncConditions.NoLostUpdateFromFixedFloor` | data-operations/order-sync/sync.py:195-218 | So a floor once fixed is the one that counts for every later completed scan. |
| `OrderSyncConditions.FailedFirstScanLosesRows` | data-operations/order-sync/sync.py:201 | A concrete run: a source scanned only incrementally, whose first run fails; a row stamped between the two runs' anchors is not staged although the second run completes. |
| `OrderSyncTheorems.InitializationReachesSource` | data-operations/order-sync/sync.py:176-193 | After initialisation and the compensation that follows it, every in-scope row visible at the compensation bound is staged as it stands in all its columns, with its stamp rounded or truncated to the microsecond, also when its business date moved behind the page cursor. |
| `OrderSyncTheorems.ScanPageIsExact` | data-operations/order-sync/sync.py:151 | A scan page holds exactly rows as they are when it is read, rounded stamp after the cursor and up to the bound, in the order of stamp and key; one that is not full holds all of them. |
| `OrderSyncTheorems.ScanPageMovesCursor` | apps/api/src/data-operations/order-sync/order-sync.repository.ts:108-124 | A scan page leaves the stored page cursor and the last processed row at its last row, or where the session last was if it is empty, and stores the bound exactly if it ends the scan. |
| `OrderSyncTheorems.InitializationPageIsExact` | data-operations/order-sync/sync.py:108 | The same for initialisation: rows of the scope after the cursor, by business date for orders and by key for the other streams. |
| `OrderSyncTheorems.InventoryStagesOnlyScope` | data-operations/order-sync/sync.py:95-96 | As long as no scan begins, over any run, nothing outside the scope is staged. |
| `OrderSyncTheorems.StagedNeverRegresses` | apps/api/src/data-operations/order-sync/order-sync.repository.ts:76-93 | Over any run a staged row stays staged and is never replaced by an earlier version of it. |
| `OrderSyncTheorems.StampLosesAtMostMicrosecond` | apps/api/src/data-operations/order-sync/order-sync.repository.ts:76-93 | So over any run its stored stamp falls by a microsecond at most. |
| `OrderSyncTheorems.StampFallsExactly` | data-operations/order-sync/sync.py:147-148 | A step lowers the stored stamp of a row if and only if it is an initialisation page that reads the row again and the row is stored with a stamp the scan's cast rounded up: init_sql projects the column uncast, and the driver truncates it. |
| `OrderSyncTheorems.ScansNeverLowerStamps` | data-operations/order-sync/sync.py:147-148 | Where no initialisation begins or is under way, no stored stamp ever goes back. |
| `OrderSyncConditions.InventoryLowersStamp` | data-operations/order-sync/sync.py:147-148 | A concrete run from nothing in which one does: a row scanned by the incremental command and read again, unchanged, by the inventory. |
| `OrderSyncTheorems.PagesPassEveryGuard` | data-operations/order-sync/sync.py:154-155 | No page of a live incremental session trips assert_cursor_progress, is refused by the API's order and full-batch checks, or reuses a batch key. |
| `OrderSyncTheorems.InitializationBatchesAreDistinct` | data-operations/order-sync/sync.py:189 | A non-empty initialisation page has an idempotency key no earlier committed batch of any run has. |
| `OrderSyncTheorems.RunCommandInitializes` | data-operations/order-sync/sync.py:157-160 | If incremental scans are only started where the run command starts them, a source counts as initialised only after an inventory and a completed scan, in every reachable world. |
| `OrderSyncConditions.IncrementalInitializesExactly` | apps/api/src/data-operations/order-sync/order-sync.repository.ts:143-146 | An incremental scan that completes leaves the source marked initialised, and truly so if and only if it was inventoried before. |
| `OrderSyncConditions.BoundGoesBackExactly` | apps/api/src/data-operations/order-sync/order-sync.repository.ts:117 | A page lowers the stored bound of the last scan if and only if it ends a scan whose own bound is older. |
| `OrderSyncConditions.StoredBoundGoesBack` | apps/api/src/data-operations/order-sync/order-sync.repository.ts:117 | A concrete run in which that happens: a crashed incremental run resumed after a compensation. |
| `OrderSyncTheorems.RunCommandReachesSource` | data-operations/order-sync/sync.py:230-235 | Driven by the run command alone, a source that no longer needs initialisation has every in-scope row visible at its last bound staged as it stands in all its columns, with its stamp rounded or truncated to the microsecond. |
| `OrderSyncTheorems.IncrementalFirstSkipsInitialization` | apps/api/src/data-operations/order-sync/order-sync.repository.ts:143-146 | A concrete run: issued first, the incremental command marks a source initialised although nothing was inventoried, and an old row is missing. |
| `OrderSyncTheorems.StaticPagesTile` | data-operations/order-sync/sync.py:208-216 | On a source at rest the pages put together are the whole window in strict key order, each row once, in |window| / 1000 + 1 queries. |
| `OrderSyncTheorems.RawPageStaysInMicrosecond` | data-operations/order-sync/sync.py:133-141 | Comparing raw seven-digit stamps with the six-digit cursor, a full page leaves the cursor in its microsecond if and only if 1000 of the rows it finds lie in that microsecond. |
| `OrderSyncTheorems.RawPagingLoopsForever` | data-operations/order-sync/sync.py:133-141 | With 1000 rows of one microsecond that carry a seventh digit, every page is full and no number of pages gets past it. |
| `OrderSyncTheorems.RawPagesRepeat` | data-operations/order-sync/sync.py:133-141 | If no row lies on the microsecond itself, every page is the first page again, and assert_cursor_progress would raise on the second. |
| `OrderSyncClient.PageAdvances` | data-operations/order-sync/sync.py:216 | A non-empty page leaves strictly fewer versions ahead of the cursor; the paging loops end although the source changes. |
| `OrderSyncClient.Synchronizer.IncrementalPage` | data-operations/order-sync/sync.py:208-216 | One turn of the loop is one page step of the state machine: the API state and the locals after it are those of that step. |
| `OrderSyncClient.Synchronizer.InitializationPage` | data-operations/order-sync/sync.py:182-191 | The same for a turn of the initialisation loop. |
| `OrderSyncClient.Synchronizer.Incremental` | data-operations/order-sync/sync.py:195-218 | The loop ends and its history is a run of the state machine that begins once and ends completed, failed or crashed; a completed one records its own or the resumed run's bound. |
| `OrderSyncClient.Synchronizer.Initialize` | data-operations/order-sync/sync.py:176-193 | Initialisation, then compensation if it completed; if both complete the source is inventoried and scanned. |
| `OrderSyncClient.Synchronizer.Sync` | data-operations/order-sync/sync.py:230-243 | A whole process is a run of the state machine: an inventory, followed by a compensation if it completes, when the command is initialize, or run on a source not marked initialised; otherwise one incremental scan. It ends completed, failed or crashed as it reports; a completed one leaves the source marked. Without the incremental command it is a run the run command may make. |
| `Simulator.SimulatorIsSafe` | data-operations/order-sync-simulator/simulate.py:514-574 | Over any number of one-page runs, and whatever primary_key_after answers: every row between the first query key and the saved cursor that was visible when the cursor was last moved, and is still current, has been handed out; so has every row currently visible and older than the cursor less the overlap; an initialised cursor's time never decreases. |
| `Simulator.FirstRunOnIsSafe` | data-operations/order-sync-simulator/simulate.py:514-574 | So it is from a stream's first run on, back to its initial cursor less the overlap. |
| `Simulator.UpToDateExactly` | data-operations/order-sync-simulator/simulate.py:537-563 | From a stream's first run on, for every stamp and key comparison: after the last of any number of runs every row the source holds at that run's read, from the first query key to the cursor, has been handed out, except if and only if that run's batch is full, leaves the cursor as it is, and cuts off a row at or before it that is new. |
| `Simulator.LargeBatchIsUpToDate` | data-operations/order-sync-simulator/simulate.py:537-563 | In any state the invariant holds of, all of it has been handed out if the rows of the window at or before the cursor are no more than a batch holds. |
| `Simulator.UnmovedCursorMissesLateRow` | data-operations/order-sync-simulator/simulate.py:561-563 | A concrete history of three runs of a fresh stream, with batches of one row: the cursor moves once, then a row that becomes visible late behind it is cut off and not handed out. |
| `Simulator.FullBatchAdvancesExactly` | data-operations/order-sync-simulator/simulate.py:537-563 | For every stamp and every answer of primary_key_after: a full batch moves the cursor's time forward if and only if fewer than limit rows of its window lie in or before the cursor's microsecond. |
| `Simulator.FullBatchIsStuckExactly` | data-operations/order-sync-simulator/simulate.py:540-563 | For every stamp and key comparison: a full batch leaves an initialised cursor as it is if and only if the rows before its microsecond fill the batch, or those up to its end do and the key of the last one is not after the cursor's. |
| `Simulator.TimeMovesExactly` | data-operations/order-sync-simulator/simulate.py:537-574 | On a source at rest, for every stamp and key comparison, the next run leaves the cursor's time if at least limit rows lie in or before its microsecond, and otherwise moves it forward or to the present. |
| `Simulator.TimeStuckForever` | data-operations/order-sync-simulator/simulate.py:561-563 | In the first case no number of runs ever moves it. |
| `Simulator.CursorStuckForever` | data-operations/order-sync-simulator/simulate.py:561-563 | On a source at rest, for every stamp and key comparison: once a full batch of what there is leaves the cursor as it is, no number of runs ever moves it. |
| `Simulator.CursorDocument.SimulateSource` | data-operations/order-sync-simulator/simulate.py:659-678 | Each stream whose query does not raise is read once up to one bound, and its cursor becomes the one its batch determines; exactly the others are reported as failed and keep their cursors. |
| `Simulator.DuplicateSourceIds` | data-operations/order-sync-simulator/simulate.py:503-511 | The result is exactly the ids that occur at two places. |
| `Simulator.BatchHasNoDuplicates` | data-operations/order-sync-simulator/simulate.py:535 | The batch of one query has no duplicate ids to report. |
| `ProgressProbe.EvaluateDesignBom` | data-operations/e10/pmc_rd_progress_probe.py:224-297 | The loop over candidate rows gives the evaluation defined on the set of BOMs: neither the order of rows nor of details matters. |
| `ProgressProbe.EvaluateRoutingCandidate` | data-operations/e10/pmc_rd_progress_probe.py:300-355 | COMPLETE exactly for an approved routing with approved operations that all exist, with their number; an approved one with dangling operations reports how many are sound. |
| `ProgressResults.GroupRows` | data-operations/e10/pmc_rd_progress_probe.py:847-858 | Each key is grouped with exactly its rows, in row order. |
| `ProgressResults.IndexRoutings` | data-operations/e10/pmc_rd_progress_probe.py:856 | Looking up an id gives the routing that has it, and nothing for other ids. |
| `ProgressResults.EvaluateRouting` | data-operations/e10/pmc_rd_progress_probe.py:358-437 | On rows in any order, the evaluation defined on the set of routings, the standard routing first. |
| `ProgressResults.RdLastModifiedAt` | data-operations/e10/pmc_rd_progress_probe.py:824-836 | The latest of all creation and change times of the scoped BOMs, routings and their details; none exactly if there are none. |
| `ProgressResults.EvaluateLine` | data-operations/e10/pmc_rd_progress_probe.py:861-1005 | One turn of the loop gives the result defined on sets of plants, BOMs and routings. |
| `ProgressResults.CalculateResults` | data-operations/e10/pmc_rd_progress_probe.py:839-1006 | Every result depends on the sets of plant, BOM and routing rows only, so no order of rows changes any field of any result. |
| `ProgressMeaning.FinalMeansExactly` | data-operations/e10/pmc_rd_progress_probe.py:839-1006 | A decision table over plant, BOM and routing rows alone, with approval, effective and expiry dates written out: a line has a status for a reason if and only if its rows are those the table names. All eighteen reasons that occur, with no row of the table for any other, so the two UNEXPECTED reasons are never given. |
| `ProgressMeaning.DesignColumns` | data-operations/e10/pmc_rd_progress_probe.py:224-297 | The design columns of a made item: the one usable BOM with the number of its details in force; none if several are usable; otherwise the only BOM, or the only approved one. |
| `ProgressMeaning.RoutingColumns` | data-operations/e10/pmc_rd_progress_probe.py:300-437 | The routing columns: the routing that counts with the number of its approved operations that exist, whether the plant row names it or it is the only approved one; none if the choice is unclear. |
| `ProgressMeaning.HeadColumns` | data-operations/e10/pmc_rd_progress_probe.py:942-948 | The columns copied from BOM and routing are those of the rows with the selected ids. |
| `ProgressMeaning.LastModifiedColumn` | data-operations/e10/pmc_rd_progress_probe.py:824-836 | The last change is the latest creation or change time of any BOM, routing or detail row in scope, used or not; none exactly if there is none. |
| `ProgressRefresh.ResultIsLocal` | data-operations/e10/pmc_rd_progress_probe.py:861-940 | A line's result depends on nothing but its own join, its item's plants, BOMs and routings, the standard routings of those plants, and which details are in force. |
| `ProgressRefresh.TimeAloneIsCovered` | data-operations/e10/pmc_rd_progress_reader.py:458-462 | A detail with no effective or expiry date between previous snapshot less two minutes and cutoff is in force at both times or at neither. |
| `ProgressRefresh.SameRowsSameResult` | data-operations/e10/pmc_rd_progress_probe.py:861-940 | Two states of the source that hold the same rows for a line give it the same result, also at different times if no detail comes or goes in between. |
| `ProgressBundle.UnselectedKeepsResult` | data-operations/e10/pmc_rd_progress_reader.py:463 | A candidate line at rest during the read that read_bundle does not select was at rest during the previous read, and evaluates the same at both cutoffs, if no row of it was deleted or moved away; every statement reads at its own moment. |
| `ProgressBundle.BundleSuffices` | data-operations/e10/pmc_rd_progress_reader.py:464-467 | A selected line at rest during the read evaluates on the bundle as on the whole source at the cutoff, although each item, BOM and routing may have been read at a different moment. |
| `ProgressBundle.RefreshEqualsFull` | data-operations/e10/pmc_rd_progress_reader.py:442-468 | After one read, full or incremental, what is stored for a line at rest during it is the evaluation of the source at its cutoff, and the line is stored exactly if it is a candidate. |
| `ProgressBundle.RefreshesEqualFull` | data-operations/e10/pmc_rd_progress_reader.py:442-468 | So after a full read and any number of further reads of a source that changes all the time, whatever happened to the line during earlier reads. |
| `ProgressBundle.RestingSourceEqualsFull` | data-operations/e10/pmc_rd_progress_reader.py:442-468 | If the source rests during the last read, what is stored is the full recomputation, no line more or less. |
| `ProgressBundle.QuietReadOccurs` | data-operations/e10/pmc_rd_progress_reader.py:442-468 | A concrete incremental read with a line at rest that is not selected: what the rows above suppose does occur. |
| `ProgressBundle.LateRowIsMixedIn` | data-operations/e10/pmc_rd_progress_reader.py:465 | A concrete full read: a plant row that becomes visible after the cutoff and before its table is read gives a result the source at the cutoff does not give. |
| `ProgressReader.ReadChanges` | data-operations/e10/pmc_rd_progress_reader.py:446-453 | The loop over the eleven tables: every row at rest until the last scan ends and stamped from the table's watermark less two minutes on is among the changes, and no table's newest mark is below such a row. |
| `ProgressReader.ScanTable` | data-operations/e10/pmc_rd_progress_reader.py:383-398 | The same for one table, from the contract of source_changes; the newest mark is that of a yielded row, there is one if any row is yielded, and it is not below any row at rest that was to be read. |
| `ProgressReader.HistoryIsStamped` | data-operations/e10/pmc_rd_progress_reader.py:384 | If every table's commits are visible within two minutes of their stamp, a row that is new at a later moment was stamped no more than two minutes before the earlier one. |
| `ProgressRefresh.PlantsUnchangedExactly` | data-operations/e10/pmc_rd_progress_reader.py:409 | With changes reported and its item not affected, an item's plants are the same before and after if and only if no plant row of it was deleted or moved to another item. |
| `ProgressRefresh.BomsUnchangedExactly` | data-operations/e10/pmc_rd_progress_reader.py:410-411 | Its BOMs with their details are the same if and only if no BOM of it and no detail of its BOMs was deleted or moved. |
| `ProgressRefresh.RoutingsUnchangedExactly` | data-operations/e10/pmc_rd_progress_reader.py:412-417 | Its routings with their steps are the same if and only if no routing of it, no step of its routings and no operation they refer to was deleted or moved. |
| `ProgressRefresh.LineUnchangedExactly` | data-operations/e10/pmc_rd_progress_reader.py:400-421 | When every row a line has now was there before, all its rows are unchanged if and only if none has left. |
| `ProgressRefresh.RepointedPlantIsMissed` | data-operations/e10/pmc_rd_progress_reader.py:409 | A concrete source: a plant row moved to another item is reported, yet a line of the item that lost it is not selected and its result changes. |
| `ProgressReader.Repository.SourceChanges` | data-operations/e10/pmc_rd_progress_reader.py:383-398 | The scan ends on a changing source; its rows are in strict key order, all lie in the window, and include every row visible when it began and unchanged when it ended. |
| `ProgressReader.Chunks` | data-operations/e10/pmc_rd_progress_probe.py:210-213 | The batches are non-empty, at most the given size, and together hold each present value exactly once. |
| `ProgressLoader.AskAll` | data-operations/e10/pmc_rd_progress_reader.py:87-90 | A batched statement answers for exactly the ids present, each at some moment between its start and its end, not all at the same. |
| `ProgressLoader.QueryBatches` | data-operations/e10/pmc_rd_progress_reader.py:402-405 | What is found is the image of all ids under a lookup that the source answered at moments of the query. |
| `ProgressLoader.AffectedFacts` | data-operations/e10/pmc_rd_progress_reader.py:400-421 | The two sets grown statement by statement, while the source changes in between, are the affected items and orders of the selection above. |
| `ProgressLoader.LoadBoms` | data-operations/e10/pmc_rd_progress_reader.py:212-280 | Each BOM found for the items is loaded once, with a head row found for its id and its details as read at some later moment. |
| `ProgressLoader.LoadRoutings` | data-operations/e10/pmc_rd_progress_reader.py:282-365 | The same for the routings of the items and the standard routings. |
| `ProgressLoader.NewestRow` | data-operations/e10/pmc_rd_progress_reader.py:449 | A full read's mark is that of the last row of the table up to the cutoff, none exactly if there is no such row. |
| `ProgressLoader.SelectLines` | data-operations/e10/pmc_rd_progress_reader.py:446-463 | Scanning, loading the inventory, tracing the changes and filtering the lines gives exactly the candidate lines the selection names, on a reading that may follow the last. |
| `ProgressBundle.InventoryIs` | data-operations/e10/pmc_rd_progress_reader.py:142-188 | The inventory holds exactly the lines of orders created or changed on or after 2026-09-01, each with the codes of its item and of its order's customer, absent where the reference or the row is. |
| `ProgressBundle.TimedItemsAre` | data-operations/e10/pmc_rd_progress_reader.py:460-461 | The items with a scheduled boundary are exactly those of whose BOMs a detail comes into effect or expires in the interval, both ends included. |
| `ProgressLoader.ReadBundle` | data-operations/e10/pmc_rd_progress_reader.py:442-468 | Whatever the source does between its statements, read_bundle makes a reading that may follow the last one and returns exactly the selected lines with the plants, BOMs and routings of that reading. Each watermark it leaves is the old one or the mark of a row up to the cutoff, not below the old one and not below any row at rest that was to be read. Every stored result that was right, and lost no row, stays right; after a full read every one is. |
| `ReportDelivery.StepKeepsInvariant` | automation/wechat_push_projects/equipment-governance-daily/report.py:409-436 | Every step of send_report, with a crash or exception possible anywhere, keeps the receipt in delivery order and in step with what the provider accepted. |
| `ReportDelivery.RunsKeepInvariant` | automation/wechat_push_projects/equipment-governance-daily/report.py:390-438 | So does any number of runs. |
| `ReportDelivery.AtMostOnce` | automation/wechat_push_projects/equipment-governance-daily/report.py:413-423 | Over any number of runs, crashes and errors, no recipient is sent a component twice. |
| `ReportDelivery.DeliveryOrder` | automation/wechat_push_projects/equipment-governance-daily/report.py:409-436 | In every reachable persisted receipt text comes before operation image before reporting image and nothing for the next recipient before this one is complete; the provider accepted in the same order; what is marked sent was accepted. A user id listed twice is served at its first place. |
| `ReportDelivery.ReceiptSettles` | automation/wechat_push_projects/equipment-governance-daily/report.py:401-431 | Recipients, decisions and sent marks, once persisted, never change. |
| `ReportDelivery.UnknownOutcomeBlocks` | automation/wechat_push_projects/equipment-governance-daily/report.py:416-417 | A component left as sending stays so, and the provider is never called again under that receipt. |
| `ReportDelivery.RetryNeedsErrorCode` | automation/wechat_push_projects/equipment-governance-daily/report.py:413-423 | Over any number of runs: between two provider calls of one component for one recipient, the provider answered that call with an error code. |
| `ReportDelivery.CalledExactly` | automation/wechat_push_projects/equipment-governance-daily/report.py:413-418 | When it is a component's turn the provider is called if and only if the component is not marked as being sent or sent. |
| `ReportDelivery.StartsExactly` | automation/wechat_push_projects/equipment-governance-daily/report.py:402-406 | In every reachable state a run starts if and only if the receipt is for no recipients yet or for the same ones. |
| `ReportDelivery.SomeRunFinishes` | automation/wechat_push_projects/equipment-governance-daily/report.py:407-438 | From every receipt for these recipients without an unknown outcome, whatever failed before and whatever is decided now, some run ends with everything delivered to all. |
| `ReportDelivery.FinishesExactly` | automation/wechat_push_projects/equipment-governance-daily/report.py:402-438 | And from no other: a run can finish if and only if the receipt is new or for the same recipients, and no outcome is unknown. |
| `ReportDelivery.AbortedCallIsUnconfirmed` | automation/wechat_push_projects/equipment-governance-daily/report.py:418-419 | A crash or exception anywhere in the provider call leaves the component in that state. |
| `ReportDelivery.FinishedMeansDelivered` | automation/wechat_push_projects/equipment-governance-daily/report.py:424-437 | A run that reaches its end has delivered text and operation image to every recipient, and the reporting image to exactly those it was decided for. |
| `ReportDelivery.ReportSender.Send` | automation/wechat_push_projects/equipment-governance-daily/report.py:413-423 | Skips what is sent, refuses what is unconfirmed, otherwise write, call, write, as steps of the machine. |
| `ReportDelivery.ReportSender.SendReport` | automation/wechat_push_projects/equipment-governance-daily/report.py:390-438 | Unless the receipt is for other recipients, when nothing happens, the run begins and attempts a component. It ends with everything delivered to all, or cut off, answered with an error code, or stopped by an unknown outcome. |
| `Dispatcher.AttemptKeepsAccounts` | automation/wechat_push_projects/kdos-notification-dispatcher/dispatcher.py:85-151 | For every valid delivery id the provider accepted it once per lapse and once for its receipt, no more and no less; every attempt keeps that. |
| `Dispatcher.DuplicatesAreBounded` | automation/wechat_push_projects/kdos-notification-dispatcher/dispatcher.py:69-155 | So over all claims acceptances are at most one plus the number of failures between acceptance and the receipt. |
| `Dispatcher.AttemptMeans` | automation/wechat_push_projects/kdos-notification-dispatcher/dispatcher.py:86-151 | Every attempt by what happened in it: when the provider accepts, when a receipt is left, when a lapse is counted, and when the delivery is confirmed. |
| `Dispatcher.ReceiptEndsCalls` | automation/wechat_push_projects/kdos-notification-dispatcher/dispatcher.py:86-89 | Once a receipt exists no later claim calls the provider for that id, and the receipt stays. |
| `Dispatcher.ConfirmableExactly` | automation/wechat_push_projects/kdos-notification-dispatcher/dispatcher.py:131-141 | In every reachable state a delivery with a receipt can be confirmed by later claims if and only if the receipt holds an error code. |
| `Dispatcher.NullAnswerIsNeverConfirmedLater` | automation/wechat_push_projects/kdos-notification-dispatcher/dispatcher.py:131-133 | An answer without an error code is accepted once and leaves a receipt that holds null; if its callback failed, no later claims whatever confirm it. |
| `Dispatcher.InvalidIdsAreUnbounded` | automation/wechat_push_projects/kdos-notification-dispatcher/dispatcher.py:168-170 | An id of another shape gets no receipt: n undisturbed claims are n deliveries. |
| `Dispatcher.ValidIdExactly` | automation/wechat_push_projects/kdos-notification-dispatcher/dispatcher.py:169 | An id is valid if and only if it is groups of 8, 4, 4, 4 and 12 lower-case hexadecimal digits with hyphens between them. |
| `Dispatcher.Worker.DeliverOne` | automation/wechat_push_projects/kdos-notification-dispatcher/dispatcher.py:86-151 | Reading the receipt, calling, checking the error code, replacing the receipt and calling back are together one attempt. It reports a delivery if and only if the receipt says 0, or the provider answers 0 or nothing, and the receipt was written; then the provider accepted it. |
| `Dispatcher.Worker.RunOnce` | automation/wechat_push_projects/kdos-notification-dispatcher/dispatcher.py:69-155 | The nested loops attempt every recipient of every notification that is not skipped, but for the rest of a notification after a failure that cannot be reported; sent counts exactly the confirmed ones, failed the others. |
| `Dispatcher.NobodyIsForgotten` | automation/wechat_push_projects/kdos-notification-dispatcher/dispatcher.py:76-155 | If failures can be reported, every recipient of every notification that is not skipped is attempted once, in order. |
| `Organization.WalkIsReachability` | packages/permissions/src/index.ts:36-40 | On any parent graph, cycles included, the walk up ends and meets exactly what parent links reach. |
| `Organization.AncestorLevel` | apps/api/src/controllers.ts:1014 | In a forest an ancestor n links up has a level exactly n less. |
| `OrganizationIndex.MembershipIndex.PathFor` | packages/permissions/src/index.ts:30-44 | The memoised path equals the uncached walk's path, also after any number of earlier calls. |
| `OrganizationIndex.MembershipIndex.NamesAbove` | packages/permissions/src/index.ts:36-40 | The loop gives the names of what is met, topmost first, and ends on every graph. |
| `OrganizationIndex.MembershipIndex.IsDescendantOrSelf` | packages/permissions/src/index.ts:57-66 | True exactly if parent links lead from the unit to the ancestor. |
| `OrganizationIndex.MembershipIndex.ResolveDepartmentPath` | packages/permissions/src/index.ts:50-56 | The result is the candidate deeper than all others if there is one, nothing otherwise. |
| `OrganizationIndex.MembershipIndex.DepartmentPathBelongsTo` | packages/permissions/src/index.ts:50-72 | True if and only if one unit with the canonical path is deeper than every other such unit and the organisation is reachable from it; on any parent graph with distinct ids. |
| `OrganizationIndex.KeysAreCanonicalPaths` | packages/permissions/src/index.ts:14-24 | Keys of paths without the separator are equal exactly when the canonical paths are. |
| `OrganizationIndex.CanonicalIgnores` | packages/permissions/src/index.ts:14-20 | White space around a part, a blank part, and a part repeated in place change no canonical path. |
| `OrganizationIndex.CanonicalKeeps` | packages/permissions/src/index.ts:14-20 | Nothing else is changed: a path of trimmed parts, none blank and no two neighbours equal, is canonical as it is. |
| `OrganizationIndex.RepeatBelongsAlike` | packages/permissions/src/index.ts:26-72 | A department path with a part repeated in place belongs to the same organisations. |
| `OrganizationIndex.PathOfChild` | packages/permissions/src/index.ts:30-44 | A unit's path is its parent's path and its own trimmed name; without a parent in the index, its name alone. |
| `OrganizationScope.Closure` | apps/api/src/auth.ts:51-58 | Passing over the rows until nothing is added ends with the least set that holds the start and is closed under (enabled) children. |
| `OrganizationScope.ClosureIsLeast` | apps/api/src/auth.ts:51-58 | Every closed set around the start holds it. |
| `OrganizationScope.RowOrderIsIrrelevant` | apps/api/src/auth.ts:54 | Row order and repetition make no difference to it. |
| `OrganizationScope.ManagedUnits` | apps/api/src/auth.ts:51-58 | The managed units are the closure of the enabled units the user leads under enabled children. |
| `OrganizationScope.ManagedIsBelowLed` | apps/api/src/auth.ts:51-58 | Each managed unit is enabled and lies at or below an enabled unit the user leads. |
| `OrganizationScope.Subtree` | apps/api/src/auth.ts:82-91 | When the root does not lie above itself the search ends and lists each unit at or below it exactly once, on any rows with distinct ids: any levels, dangling parents, cycles elsewhere. |
| `OrganizationScope.SearchEndsExactly` | apps/api/src/auth.ts:84-91 | The frontier becomes empty if and only if the root does not lie above itself, and then within as many rounds as there are rows. |
| `OrganizationScope.ForestIsOffCycle` | apps/api/src/controllers.ts:1014 | In a forest no unit lies above itself. |
| `OrganizationScope.AddDivisions` | apps/api/src/auth.ts:79-94 | When the search ends, a scope adds exactly the non-empty divisions of units at or below its unit, and nothing when the unit is missing. |
| `OrganizationStore.CreateKeepsForest` | apps/api/src/controllers.ts:1008-1018 | A unit that passes the checks leaves a forest: every parent exists one level above, top units have none. |
| `OrganizationStore.UpdateKeepsForest` | apps/api/src/controllers.ts:1020-1028 | So does a patch, which touches no parent and no level. |
| `OrganizationStore.DeleteKeepsForest` | apps/api/src/controllers.ts:1032-1042 | So does a deletion: no kept unit loses its parent. |
| `OrganizationStore.RunsKeepForest` | apps/api/src/controllers.ts:1007-1043 | From nothing, every sequence of requests leaves a forest. |
| `OrganizationStore.DeleteTakesTheBranch` | apps/api/src/controllers.ts:1032-1042 | After any run, deletion removes exactly the descendants-or-self. |
| `OrganizationStore.ClosureIsBranch` | apps/api/src/controllers.ts:1036-1038 | The loop of the deletion collects exactly that branch. |
| `OrganizationStore.TraversalsAgree` | apps/api/src/auth.ts:51-94 | The deletion's closure, the scope search, the managed-unit loop (all units enabled, only the root led) and the walk up agree on every unit. |
| `OrganizationStore.BlankedExactly` | apps/api/src/controllers.ts:1023 | Where all units are named, a request leaves one unnamed if and only if it patches the name of an existing unit to blank. |
| `OrganizationStore.RefusedExactly` | apps/api/src/controllers.ts:1010-1015 | The three refusals, each with exactly the requests it is for, in the order of the checks. |
| `OrganizationStore.CreationSets` | apps/api/src/controllers.ts:1016 | Every field of a new unit, defaults and trimming included. |
| `OrganizationStore.PatchSets` | apps/api/src/controllers.ts:1022-1026 | Every field of a patched unit, present or absent in the patch by itself. |
| `OrganizationStore.RunsKeepNames` | apps/api/src/controllers.ts:1007-1043 | Names stay over every sequence of requests without such a patch. |
| `OrganizationStore.NameCanBeBlanked` | apps/api/src/controllers.ts:1023 | Two accepted requests that leave a unit without a name. |
| `OrganizationStore.Store.CreateOrganizationUnit` | apps/api/src/controllers.ts:1008-1018 | Refuses in the order of the checks and changes nothing then; otherwise appends the unit with trimmed non-empty name, given level and parent. |
| `OrganizationStore.Store.UpdateOrganizationUnit` | apps/api/src/controllers.ts:1020-1028 | Changes no other unit, and no id, level or parent. |
| `OrganizationStore.Store.DeleteOrganizationUnit` | apps/api/src/controllers.ts:1031-1043 | Removes the branch and every role scope on it, nothing else, and answers the size of the branch; refuses an unknown id without change. |
| `PrintLayout.NormalizePrintPreferences` | packages/contracts/src/table-print-layout.ts:24-37 | Widths kept are exactly those of allowed keys within 8 to 1000 mm, each with its saved value; saved columns are the allowed ones, each once, in the order of their first places; unknown paper, orientation and mode become A4, portrait and fit; another version gives the defaults. |
| `PrintLayout.RoundKeeps` | packages/contracts/src/table-print-layout.ts:50-55 | One round keeps enough remaining for the pending columns, keeps settled columns at the minimum because the level only falls, and leaves fewer pending. |
| `PrintLayout.SomeStay` | packages/contracts/src/table-print-layout.ts:50-55 | Never are all pending columns too small. |
| `PrintLayout.Fill` | packages/contracts/src/table-print-layout.ts:46-56 | The loop ends; with at least one column there is one level with width = max(8, level * desired) for every column and the widths add up to the available width. |
| `PrintLayout.ComputePrintLayout` | packages/contracts/src/table-print-layout.ts:39-60 | The available width is 190, 277, 277 or 400 mm by paper and orientation. Every width is at least 8 mm; fit mode overflows if and only if the minimum widths do not fit, and otherwise is the water fill of the saved widths and of twice the weights; custom widths are kept. |
| `PrintLayout.WaterFillIsUnique` | packages/contracts/src/table-print-layout.ts:46-56 | Desired widths and available width leave one water fill only. |
| `PrintLayout.WaterFillKeepsOrder` | packages/contracts/src/table-print-layout.ts:46-56 | A wider wish never gets less, and columns above the minimum keep the ratio of their wishes. |
| `PrintLayout.OrderedPrintHeaderGroups` | packages/contracts/src/table-print-layout.ts:63-73 | The groups hold the chosen columns in order, none empty, each column under its own label, neighbours with different labels. |
| `PrintLayout.RunsAreUnique` | packages/contracts/src/table-print-layout.ts:63-73 | There is only one such grouping. |
| `PrintLayout.LabelIsFirst` | packages/contracts/src/table-print-layout.ts:67 | A column's label is that of the first group that lists it. |
| `Csv.Parse` | apps/api/src/controllers.ts:234 | The index loop reads what the character-by-character definition reads. |
| `Csv.LineReads` | apps/api/src/controllers.ts:234 | Every line of bare and quoted fields in any mixture gives each field's own text: bare ones trimmed, quoted ones with their commas and quotes. |
| `Csv.RowReadsBack` | apps/api/src/controllers.ts:534-541 | Reading an escaped row gives every field back trimmed, except that a field of n quotes only (n = 0 included) comes back as n + 1 quotes, without disturbing its neighbours. |
| `Csv.RowRoundTrip` | apps/api/src/controllers.ts:231-238 | The row comes back unchanged if and only if every field is trimmed and has a character other than a quote. |
| `Csv.CsvRows` | apps/api/src/controllers.ts:231-238 | The loops give one record per non-blank line after the first, numbered from 2: the records TableReads, ExportReadsBack and ExportRoundTrip speak of. |
| `Csv.TableReads` | apps/api/src/controllers.ts:231-238 | Every such table, its lines ended by line feeds with or without carriage returns, the last one open or closed, with a byte order mark or without, gives one record per row, numbered from 2, with each field under its header and nothing else. |
| `Csv.NamedHolds` | apps/api/src/controllers.ts:237 | Under distinct headers every value is found under its own, and nothing else. |
| `Csv.FileReadsBack` | apps/api/src/controllers.ts:231-238 | Reading an exported file whose fields have no line feed gives exactly its rows, decoded: none lost, added or merged. |
| `Csv.ExportReadsBack` | apps/api/src/controllers.ts:231-238 | csvRows of an exported table whose headers read differently and whose fields have no line feed: one record per row, numbered from 2, with every field, decoded, under its header and nothing else. |
| `Csv.ExportRoundTrip` | apps/api/src/controllers.ts:231-238 | Under headers that survive, every row comes back unchanged if and only if every field is trimmed and has a character other than a quote. |
| `Csv.FileKeepsRowsExactly` | apps/api/src/controllers.ts:233 | An exported file has as many lines to parse as rows if and only if no field has a line feed. |
| `Biff.IsEncryptedWorkbook` | apps/api/src/spreadsheet-upload.ts:33-38 | In bounds and ending on every stream; true if and only if a FilePass record fits at an offset reached by whole records from 0. |
| `Biff.ScanDecidesMembership` | apps/api/src/spreadsheet-upload.ts:33-38 | On serialised records followed by bytes in which no record fits, true if and only if the list holds a FilePass record: payload bytes never count. |
| `Biff.EveryStreamIsRecords` | apps/api/src/spreadsheet-upload.ts:33-38 | Every stream is such a list and such a rest. |
| `Calendar.TomorrowIsNext` | packages/contracts/src/master-plan-dashboard.ts:19 | The next date has the next day number. |
| `Calendar.NumberIsGregorian` | packages/contracts/src/master-plan-dashboard.ts:19 | The day numbers are those of the Gregorian calendar in closed form. |
| `Calendar.TextOrder` | packages/contracts/src/master-plan-dashboard.ts:26 | Comparing YYYY-MM-DD texts is comparing day numbers. |
| `Calendar.ParseFormat` | packages/contracts/src/master-plan-dashboard.ts:18 | Every real day's text is valid and reads back as the day. |
| `Calendar.RangeCovers` | packages/contracts/src/master-plan-dashboard.ts:23-26 | A range from a to the day after b holds exactly the days a to b if and only if b is not 9999-12-31; then it is empty at b. |
| `Calendar.CustomCovers` | packages/contracts/src/master-plan-dashboard.ts:26 | CUSTOM is refused exactly if a day does not exist or the days are out of order; otherwise it covers the days chosen, with that one exception. |
| `Calendar.CustomOfOneDay` | packages/contracts/src/master-plan-dashboard.ts:23-26 | CUSTOM(d, d) is DAY(d). |
| `Calendar.OtherwiseRefused` | packages/contracts/src/master-plan-dashboard.ts:17-28 | No date type, or NONE, gives no range; any other unknown date type or period is refused; ORDER and DELIVERY give the same range. |
| `Calendar.MonthCovers` | packages/contracts/src/master-plan-dashboard.ts:24 | MONTH covers exactly the month if and only if the year is 100 or later and it is not December 9999. |
| `Calendar.EarlyMonthsRunOn` | packages/contracts/src/master-plan-dashboard.ts:24 | A month of the years 0 to 99 runs on to the end of that month 1900 years later. |
| `Calendar.MonthIsRead` | packages/contracts/src/master-plan-dashboard.ts:24 | MONTH with the text of a year and a month gives that month's range. |
| `Calendar.YearIsRead` | packages/contracts/src/master-plan-dashboard.ts:25 | YEAR with the text of a year gives that year's range. |
| `Calendar.YearCovers` | packages/contracts/src/master-plan-dashboard.ts:25 | YEAR covers exactly the year. |
| `Calendar.MonthsTileYear` | packages/contracts/src/master-plan-dashboard.ts:24-25 | Each month begins where the one before ends; the first begins and the last ends with the year. |

## Left out

- Streams of one source: they do not influence each other apart from the source-wide completion, so one stream is modelled at a time.
- SQL text, drivers, HTTP, retries with waiting, file permissions and locks: a query is an ordered read of the rows that match at one moment, an API call and a file replacement are atomic.
- Outbox events, batch statistics, audit rows and reports of the order-sync API: they do not feed back into the protocol.
- Content hashes: a record is upserted whenever it is sent; that an equal hash skips the update does not change what is staged.
- Scope conditions that look at other rows, and physical deletion in the source: the program does not promise to follow them.
- The other keyset readers (R&D, finance orders, finance movements): the same pattern again.
- The TypeScript evaluator, order summaries, order groups and candidate summaries, message texts and debug lines of the R&D probe: they read the results shown here or repeat them.
- GUID and text normalisation in the R&D reader: ids and texts enter already normalised.
- SourceChanges: a row that changes during the scan may be missed by it; the next read finds it by its new stamp.
- RetriedCommitIsIdempotent: incremental batches; initialisation batches are kept once by the same key test.
- Image rendering, waiting times and the choice of receipt file in the daily report.
- SendReport: which recipients exist and whether the reporting image is needed are parameters; user ids are assumed to hold no separator.
- Message formats, attachments and targets of the dispatcher: whatever stops a message before the provider is called is one outcome.
- RunOnce: which claims the API hands out, how often, and what happens at each attempt are parameters.
- Permission checks, tenants, and the rest of the session claims around the organisation part.
- CreateOrganizationUnit: the database key is a parameter; an empty parent id is stored as it is and read as absent everywhere, so the model stores none.
- UpdateOrganizationUnit: an empty patch changes nothing here; the library refuses to run it.
- Organisation rows written by the contact synchronisation, whose levels follow path lengths: the traversals are proved on such rows too, the writing is not modelled.
- Concurrent organisation requests: a unit created under a unit that is being deleted is not covered by the code either.
- Floating point in the print layout: widths are real numbers.
- ComputePrintLayout: widths are listed by position; that a key listed twice keeps the later width is not modelled.
- CsvRows: the row number is kept apart from the values, so a column headed `__row`, which the program overwrites with the number, is still seen here.
- ReadBundle: the source clock is a parameter, and the order of rows within its lists is not kept; of two head rows with one id either may count.
- The container around a workbook stream, and the other signatures of encrypted files.
- Time zones: dashboard dates are plain calendar dates in the source too.
