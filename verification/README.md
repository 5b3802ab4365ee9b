# Inventory import and print job, modelled in Dafny

The system copies inventory-count rows from a DB2 table (D01.INVC) into a
MySQL database and treats sentinel rows as commands. A row flagged as a
marker either moves an operator to another area (AREA) or asks for a print
of the operator's counts (STAMPA). Two runners do this:

- a long-running daemon (`bin/daemon-import.php`). It stops after a
  runtime cap, takes a non-blocking flock for each cycle, fetches up to 1000
  rows and dispatches them;
- a one-shot cron script (`bin/import_invc.php`). It is guarded by a lock
  file that goes stale after 300 seconds, recognises markers through the
  MARKER catalogue, and upserts every other row into CONTEGGI.

The model covers:

- the two runners;
- the lock-file manager and the marker processor (`src/Import/Importer.php`);
- the CONTEGGI, CONF_OPERATORE, STAMPANTI and MARKER repositories;
- the text report and the CUPS listing (`StampaManager`, `PrinterManager`);
- the `.env` configuration reader.

How the source becomes Dafny:

- Every table is a sequence of row datatypes in insertion order.
- An SQL statement is a function on that sequence. `ORDER BY` is a sort
  with a total preorder, and its contract says "sorted and a permutation".
- A repository or manager object whose state changes is a class whose
  methods are proved against those functions.
- The clock, file-system outcomes, lpr's exit code and SQL failures are
  parameters.

Modules, one per file:

- `Util`: Option/Result, filter, sort, count.
- `Text`: `trim`, integer rendering and the `(int)` cast, padding, lexicographic order.
- `Clock`: the `date()` formats.
- `Config`: the `.env` loader and getters.
- `ConfigOperatore`, `Conteggi`, `Stampanti`, `Markers`: the repositories.
- `Printer`: PrinterManager.
- `Stampa`: StampaManager.
- `Importer`: LockManager, MarkerProcessor and Importer.
- `Daemon`: `bin/daemon-import.php`.
- `ImportInvc`: `bin/import_invc.php`.

## Model

| member | source | states |
|---|---|---|
| Daemon.TrimKeysTrimmed | bin/daemon-import.php:112-116 | PRE_CODICE, CODICE_ART and OPER_CREAZ of a fetched row carry no padding: trimming them again changes nothing |
| Daemon.Fetched | bin/daemon-import.php:100-117 | a cycle works on at most 1000 rows, each the corresponding source row with its three key columns trimmed |
| Daemon.FetchRecords | bin/daemon-import.php:107-117 | the fetch loop yields exactly the limited, trimmed row list |
| Daemon.Classify | bin/daemon-import.php:128-133 | a row is ordinary iff its trimmed MARKER is not "ZZZ"; a ZZZ row is AREA or STAMPA iff its trimmed PRE_CODICE is that word |
| Daemon.ClassifyFetched | bin/daemon-import.php:131-148 | a fetched row's kind is decided by the trimmed PRE_CODICE it was fetched with |
| Daemon.OperatorKey | bin/daemon-import.php:71 | the "REP:NUMERO:OPER" key; Daemon.OperatorKeyInjective proves it determines the triple |
| Daemon.OperatorKeyInjective | bin/daemon-import.php:205 | two "REP:NUMERO:OPER" keys are equal only for the same department, inventory and operator |
| Daemon.LastByKeyKeys | bin/daemon-import.php:70-74 | the operator map's keys are exactly the configurations' keys |
| Daemon.LastByKeyLastWins | bin/daemon-import.php:70-74 | each key maps to the last configuration with that key: no later configuration has the same key |
| Daemon.AuthorisedIffConfigured | bin/daemon-import.php:205-207 | an inventory row is authorised iff some CONF_OPERATORE row (keyed at line 71) has its department, inventory and trimmed operator code |
| Daemon.BuildOperatorMap | bin/daemon-import.php:70-74 | the foreach builds exactly that map |
| Daemon.Step | bin/daemon-import.php:126-219 | the foreach body for one record as a state transition; its effect is stated by Daemon.StepEffect and Daemon.StampaCounting |
| Daemon.StepEffect | bin/daemon-import.php:126-219 | an inventory row adds one to imported (authorised) or skipped (not authorised) and writes nothing; a ZZZ row of another kind changes nothing; a marker adds at most one; an AREA marker counts iff its update did not throw |
| Daemon.StampaCounting | bin/daemon-import.php:148-196 | an unknown TIPO_STAMPA code or an area of -1 changes nothing; otherwise the marker counts iff the selection is empty or the report file was written; CONF_OPERATORE is untouched |
| Daemon.Cycle | bin/daemon-import.php:121-221 | the foreach over a cycle's records as a fold of Daemon.Step; its counters are stated by Daemon.CycleCounters |
| Daemon.CycleCounters | bin/daemon-import.php:121-221 | after a cycle, imported is the number of authorised inventory rows, skipped the number of unauthorised ones, and markers at most the number of ZZZ rows |
| Daemon.OrdinaryRowsCountedOnce | bin/daemon-import.php:199-218 | every inventory row lands in exactly one of imported and skipped |
| Daemon.InventoryRowsWriteNothing | bin/daemon-import.php:199-218 | a cycle of inventory rows and unknown markers changes neither CONF_OPERATORE nor the report directory |
| Daemon.DaemonExitReasons | bin/daemon-import.php:235-244 | the daemon exits 0 only at a pass past the runtime cap, and 255 only at a pass that held the lock and then threw |
| Daemon.Daemon.ProcessRecord | bin/daemon-import.php:126-219 | the body of the foreach on the live tables does what the record step says |
| Daemon.Daemon.ProcessStampa | bin/daemon-import.php:148-175 | validation of the type code and the current-area lookup, as in the STAMPA step |
| Daemon.Daemon.WriteReport | bin/daemon-import.php:176-193 | selection, then the report file when rows were found, as in the STAMPA step |
| Daemon.Daemon.RunCycle | bin/daemon-import.php:121-221 | the foreach over a cycle's records leaves the tables and counters the cycle fold computes |
| Daemon.Daemon.Iteration | bin/daemon-import.php:80-233 | past the cap it stops with 0 before the lock; without the flock it changes nothing; a fetch that throws gives 255; otherwise the cycle runs and its counters are logged; the lock is never left held |
| Daemon.Daemon.Run | bin/daemon-import.php:61-244 | the operator map is built once; the daemon's exit code is the first pass's verdict, and no pass ends with the lock held |
| ImportInvc.UpsertDataOf | bin/import_invc.php:120-132 | a non-marker row is upserted under its natural key with area -1 |
| ImportInvc.Tally | bin/import_invc.php:93-143 | the two counters after the foreach, given which marker rows threw; stated by ImportInvc.TallyAccountsForEveryRow |
| ImportInvc.TallyAccountsForEveryRow | bin/import_invc.php:93-143 | conteggiCount + markerCount never exceeds the rows read, and conteggiCount is exactly the number of rows upserted; when no lookup, upsert or marker throws, the two add up to the rows read and markerCount is the number of rows whose pair is in the catalogue |
| ImportInvc.UpsertedKeysMembers | bin/import_invc.php:93-143 | a key is among the imported keys iff some row carrying it was upserted |
| ImportInvc.ImportJob.ProcessRow | bin/import_invc.php:97-142 | a marker row runs under the kind its CODICE_ART names and throws exactly when the marker processing does, which needs a fault; any other row is upserted; a failed lookup or upsert, or a failed AREA marker, leaves every table as it was; a failed STAMPA leaves CONTEGGI and CONF_OPERATORE as they were but may already have queued its job; the marker cache stays coherent with the catalogue |
| ImportInvc.ImportJob.ProcessAll | bin/import_invc.php:93-143 | the counters are the tally of the outcomes, and CONTEGGI's key set grows by exactly the keys of the upserted rows |
| ImportInvc.ImportJob.Run | bin/import_invc.php:37-173 | a refused lock gives exit 0 with nothing read, and the lock file stays as acquire left it (a fresh lock untouched, the file a failed flock created kept, a stale file whose fopen failed gone), since exit skips the finally block; a failed read gives exit 1 with the lock held and its file in place; otherwise every row is processed and the lock released |
| Importer.AcquireStep | src/Import/Importer.php:20-48 | acquire as a transition on the lock file; its behaviour is stated by Importer.FreshLockRefuses, Importer.StaleLockNeverBlocks and Importer.AcquiredExcludesUntilTimeout |
| Importer.FreshLockRefuses | src/Import/Importer.php:27-31 | a lock file younger than the timeout makes acquire fail and leaves the file as it was |
| Importer.StaleLockNeverBlocks | src/Import/Importer.php:27-47 | a stale or missing lock file never blocks: acquire succeeds iff fopen and flock do |
| Importer.AcquiredExcludesUntilTimeout | src/Import/Importer.php:20-48 | once an acquire at time t succeeded, every acquire before t + timeout fails |
| Importer.LockManager.Acquire | src/Import/Importer.php:20-48 | the result and the lock file are the acquire transition's; the handle is held iff acquire succeeded past the age check |
| Importer.LockManager.Release | src/Import/Importer.php:50-59 | the handle is dropped and the lock file deleted, whoever created it |
| Importer.QtaAsInt | src/Import/Importer.php:104-106 | a null quantity is cast to 0 |
| Importer.AreaMarkerChangesOnlyArea | src/Import/Importer.php:113-131 | an AREA marker changes only ID_AREA of the operator's configuration, and nothing when there is none |
| Importer.AreaMarkerAgreesWithImporter | src/Import/Importer.php:113-131 | with one configuration per triple, the marker's find-then-update and the importer's UPDATE by triple write the same table |
| Importer.ItemOf | src/Import/Importer.php:164-167 | a count row becomes a listing row with every column present |
| Importer.Items | src/Import/Importer.php:164-167 | one listing row per count row, in order |
| Importer.StampaMetadata | src/Import/Importer.php:164-167 | the listing's metadata holds the operator and the area |
| Importer.StampaListingContents | src/Import/Importer.php:164-167 | the STAMPA listing has 14 lines plus one per row, naming the operator, the area and the date |
| Importer.MarkerProcessor.Process | src/Import/Importer.php:96-108 | only "AREA" and "STAMPA" act; any other kind changes nothing; CONTEGGI's keys never change |
| Importer.MarkerProcessor.HandleMarkerArea | src/Import/Importer.php:113-131 | the configuration becomes the AREA-marked table |
| Importer.MarkerProcessor.HandleMarkerStampa | src/Import/Importer.php:136-188 | with no configuration, no rows or no printer nothing is printed or marked, and a query that throws fails the call; otherwise one job with the formatted listing goes to the configured queue iff the write and lpr succeeded, and exactly then, unless markAsPrinted throws, STAMPATO is set on the rows whose REPARTO is among the printed rows' ID_CONTEGGIO values, as the statement is written |
| Importer.MarkerProcessor.PrintSelection | src/Import/Importer.php:163-181 | the formatted listing goes to the configured printer; on success markAsPrinted runs with the rows' ID_CONTEGGIO values, compared with REPARTO as written, unless it throws |
| Importer.MarkerProcessor.SendListing | src/Import/Importer.php:170-181 | print; only if the print succeeded, markAsPrinted on the listed ids (matched against REPARTO as written), which may throw and then changes nothing |
| Importer.StampaPlan | src/Import/Importer.php:136-161 | the three queries of handleMarkerStampa and what they lead to; stated by Importer.StampaPlanSends |
| Importer.StampaPlanSends | src/Import/Importer.php:136-161 | a STAMPA sends iff the configuration, a non-empty selection and the configured printer all exist and no query throws; the listing is the configuration's unprinted selection, sent to that printer's queue; it throws only where a query throws |
| Importer.ProcessThrowsOnlyOnFault | src/Import/Importer.php:96-188 | with no fault process never throws, and a kind other than AREA and STAMPA never throws |
| Importer.StampaAsWrittenLeavesPrintedRowUnprinted | src/Import/Importer.php:172-181 | a STAMPA can send a row (ID_CONTEGGIO 1, REPARTO 10) and leave it unprinted after markAsPrinted |
| Importer.ImporterWrapper.Process | src/Import/Importer.php:211-222 | a null area changes nothing; otherwise ID_AREA is set on the rows with the triple |
| Conteggi.FindKey | src/Repository/ConteggiRepository.php:24 | the position of the first row carrying a natural key, or none |
| Conteggi.FindKeyFirst | src/Repository/ConteggiRepository.php:24 | the first row carrying the key is the one found |
| Conteggi.Upsert | src/Repository/ConteggiRepository.php:16-47 | INSERT ... ON DUPLICATE KEY UPDATE on the table |
| Conteggi.UpsertLeavesExactlyOneRow | src/Repository/ConteggiRepository.php:19-27 | afterwards exactly one row carries the key, and the table invariant holds |
| Conteggi.UpsertNewKey | src/Repository/ConteggiRepository.php:19-23 | a new key adds one row carrying the given fields, STAMPATO 0, with nothing else changed |
| Conteggi.UpsertExistingKey | src/Repository/ConteggiRepository.php:24-27 | an existing key changes only QTA_CONTEGGIATA and ID_AREA and resets STAMPATO; every other row is untouched |
| Conteggi.UpsertIdempotent | src/Repository/ConteggiRepository.php:19-27 | upserting the same data twice equals upserting it once |
| Conteggi.UpsertKeys | src/Repository/ConteggiRepository.php:19-27 | the key set grows by exactly the upserted key |
| Conteggi.TsAscPreorder | src/Repository/ConteggiRepository.php:61 | ORDER BY TS_CREAZIONE is a total preorder |
| Conteggi.TsDescPreorder | src/Repository/ConteggiRepository.php:73 | ORDER BY TS_CREAZIONE DESC is a total preorder |
| Conteggi.RepartoInvPreorder | src/Repository/ConteggiRepository.php:67 | ORDER BY REPARTO, NUMERO_INV is a total preorder |
| Conteggi.UnprintedOfArea | src/Repository/ConteggiRepository.php:61 | exactly the unprinted rows of the area |
| Conteggi.AllUnprinted | src/Repository/ConteggiRepository.php:67 | exactly the unprinted rows |
| Conteggi.AreaByTime | src/Repository/ConteggiRepository.php:57-64 | type 1: the unprinted rows of the area, sorted by creation time, a permutation of the filter |
| Conteggi.AllByReparto | src/Repository/ConteggiRepository.php:66-70 | types 3 and 5: every unprinted row, sorted by department and inventory |
| Conteggi.LatestFifty | src/Repository/ConteggiRepository.php:72-76 | type 4: min(n, 50) of the n unprinted rows, newest first, drawn from the unprinted rows, and no unprinted row left out is newer than one taken |
| Util.TakeSortedIsFirstN | src/Repository/ConteggiRepository.php:72-76 | ORDER BY ... LIMIT n: the first n rows of a sorted permutation are sorted, min(n, size) many, drawn from the rows, and nothing left out comes before anything taken |
| Conteggi.GetForPrint | src/Repository/ConteggiRepository.php:53-92 | type 1 with a zero or null area is empty; type 1 is the area's unprinted rows by creation time, types 3 and 5 every unprinted row by department and inventory (sorted permutations), type 4 the 50 newest unprinted rows as in LatestFifty; every other type is empty |
| Conteggi.SelectAllSingle | src/Repository/ConteggiRepository.php:66-70 | a table holding one unprinted row selects exactly that row under type 3 |
| Conteggi.TypesThreeAndFiveAgree | src/Repository/ConteggiRepository.php:66-82 | types 3 and 5 return the same rows |
| Conteggi.CountUnprinted | src/Repository/ConteggiRepository.php:117-131 | COUNT(*) of the unprinted rows: of the area when it is non-zero and non-NULL, of the whole table otherwise |
| Conteggi.CountUnprintedMatchesSelection | src/Repository/ConteggiRepository.php:117-131 | countUnprinted is the size of type 1 with an area and of type 3 without one |
| Conteggi.MarkRepartiPrinted | src/Repository/ConteggiRepository.php:97-112 | as written: STAMPATO = 1 on the rows whose REPARTO is in the list |
| Conteggi.StampatoKeepsTable | src/Repository/ConteggiRepository.php:105 | setting STAMPATO keeps the table invariant and the key set |
| Conteggi.MarkRepartiPrintedMissesPrintedRow | src/Repository/ConteggiRepository.php:105 | the as-written statement leaves a printed row unprinted and marks an unrelated one |
| Conteggi.MarkIdsPrinted | src/Repository/ConteggiRepository.php:97-112 | STAMPATO = 1 on the rows whose ID_CONTEGGIO is listed; nothing else changes |
| Conteggi.IdsOf | src/Import/Importer.php:180 | the ID_CONTEGGIO column of the selection, in order |
| Conteggi.MarkIdsPrintsExactlySelection | src/Repository/ConteggiRepository.php:97-112 | marking a selection's ids prints exactly the selected rows |
| Conteggi.ConteggiRepository.UpsertFromInvc | src/Repository/ConteggiRepository.php:16-47 | the table becomes the upserted one; the key set grows by the upserted key |
| Conteggi.ConteggiRepository.MarkAsPrinted | src/Repository/ConteggiRepository.php:97-112 | an empty list changes nothing; otherwise STAMPATO = 1 on the rows whose REPARTO is listed, as written; keys never change |
| Markers.MarkerLePreorder | src/Repository/MarkerRepository.php:32 | ORDER BY PRECODICE, CODICE_ART is a total preorder |
| Markers.Query | src/Repository/MarkerRepository.php:32-35 | the reload returns the catalogue, sorted |
| Markers.Served | src/Repository/MarkerRepository.php:24-42 | a fresh cache is served as is; otherwise the catalogue is returned |
| Markers.ServedAgreesWithCatalogue | src/Repository/MarkerRepository.php:24-56 | a cache loaded from the current catalogue answers isMarker as the catalogue does |
| Markers.StaleCacheAnswersOldCatalogue | src/Repository/MarkerRepository.php:28-30 | for up to 300 seconds the cache can answer from a catalogue that has changed |
| Markers.Scan | src/Repository/MarkerRepository.php:50-55 | the scan finds a pair iff some entry matches both columns exactly |
| Markers.MarkerRepository.GetAll | src/Repository/MarkerRepository.php:24-42 | queries iff the cache is empty or at least 300 seconds old; after a query the cache is the result and is stamped now |
| Markers.MarkerRepository.IsMarker | src/Repository/MarkerRepository.php:47-56 | true iff the served list has the pair, i.e. iff the catalogue has it when the cache is coherent |
| Markers.MarkerRepository.GetMarkerType | src/Repository/MarkerRepository.php:61-67 | the CODICE_ART itself for a marker, otherwise null |
| Markers.MarkerRepository.InvalidateCache | src/Repository/MarkerRepository.php:72-76 | the cache is emptied, so the next getAll queries whatever the clock says |
| ConfigOperatore.FindByKey | src/Repository/ConfigOperatoreRepository.php:31-40 | a row with the triple, or none exactly when no row has it |
| ConfigOperatore.FindById | src/Repository/ConfigOperatoreRepository.php:45-52 | the row with the id, or none exactly when no row has it |
| ConfigOperatore.FindByIdUnique | src/Repository/ConfigOperatoreRepository.php:45-52 | with unique ids, the row found is the only one with that id |
| ConfigOperatore.ConfLePreorder | src/Repository/ConfigOperatoreRepository.php:22 | ORDER BY CODICE, ID_REP, ID_INVENTARIO is a total preorder |
| ConfigOperatore.GetAll | src/Repository/ConfigOperatoreRepository.php:20-26 | every configuration, sorted |
| ConfigOperatore.Codes | src/Repository/ConfigOperatoreRepository.php:139-145 | the CODICE column in row order |
| ConfigOperatore.Dedup | src/Repository/ConfigOperatoreRepository.php:141 | a sorted list without repeats, holding the same values |
| ConfigOperatore.GetOperators | src/Repository/ConfigOperatoreRepository.php:139-145 | the distinct codes, sorted strictly, exactly those of the table |
| ConfigOperatore.LexLeTotalPreorder | src/Repository/ConfigOperatoreRepository.php:141 | ORDER BY CODICE is a total preorder |
| ConfigOperatore.Inserted | src/Repository/ConfigOperatoreRepository.php:57-64 | create appends one row with the given fields and returns its new id |
| ConfigOperatore.CreateFresh | src/Repository/ConfigOperatoreRepository.php:57-64 | the new id is fresh, and findById then finds the new row |
| ConfigOperatore.GuardedCreateKeepsTriplesUnique | src/Repository/ConfigOperatoreRepository.php:57-64 | behind the page's guard (no row with the triple yet), create keeps one configuration per triple |
| ConfigOperatore.UnguardedCreateDuplicates | src/Repository/ConfigOperatoreRepository.php:57-64 | create by itself can add a second row with the same triple |
| ConfigOperatore.Updated | src/Repository/ConfigOperatoreRepository.php:69-76 | update changes NOME, ID_AREA and IP_STAMPANTE of the row with the id, and nothing else |
| ConfigOperatore.UpdateKeepsInvariants | src/Repository/ConfigOperatoreRepository.php:69-76 | update keeps unique ids and one configuration per triple |
| ConfigOperatore.Deleted | src/Repository/ConfigOperatoreRepository.php:81-86 | delete removes the rows with the id and keeps the others in order |
| ConfigOperatore.DeleteOnlyThatRow | src/Repository/ConfigOperatoreRepository.php:81-86 | after delete the id is gone and every other id still finds its row |
| ConfigOperatore.FilterKeepsValid | src/Repository/ConfigOperatoreRepository.php:81-102 | removing rows keeps ids unique and below the counter |
| ConfigOperatore.BulkDeleted | src/Repository/ConfigOperatoreRepository.php:91-102 | an empty list deletes nothing and returns 0; otherwise exactly the listed ids go, and the count is the rows removed |
| ConfigOperatore.AreaBulkUpdated | src/Repository/ConfigOperatoreRepository.php:107-118 | an empty list returns 0; otherwise only ID_AREA of the listed rows changes, and the count is the rows changed |
| ConfigOperatore.PrinterBulkUpdated | src/Repository/ConfigOperatoreRepository.php:123-134 | an empty list returns 0; otherwise only IP_STAMPANTE of the listed rows changes, and the count is the rows changed |
| ConfigOperatore.AreaSetByTriple | src/Import/Importer.php:215-219 | ID_AREA is set on every row with the triple and on no other |
| ConfigOperatore.SetAreaKeepsInvariants | src/Import/Importer.php:215-219 | the update by triple keeps both table invariants |
| ConfigOperatore.SetAreaWithoutMatch | src/Import/Importer.php:215-219 | with no row for the triple the update changes nothing |
| ConfigOperatore.SetAreaThenFind | src/Import/Importer.php:215-219 | with one row per triple, findByKey afterwards reports the new area |
| ConfigOperatore.ConfigOperatoreRepository.Create | src/Repository/ConfigOperatoreRepository.php:57-64 | the table becomes the inserted one and the new id is returned |
| ConfigOperatore.ConfigOperatoreRepository.Update | src/Repository/ConfigOperatoreRepository.php:69-76 | the table becomes the updated one |
| ConfigOperatore.ConfigOperatoreRepository.Delete | src/Repository/ConfigOperatoreRepository.php:81-86 | the table becomes the one without the id |
| ConfigOperatore.ConfigOperatoreRepository.BulkDelete | src/Repository/ConfigOperatoreRepository.php:91-102 | the table and the count of bulkDelete |
| ConfigOperatore.ConfigOperatoreRepository.BulkUpdateArea | src/Repository/ConfigOperatoreRepository.php:107-118 | the table and the count of bulkUpdateArea |
| ConfigOperatore.ConfigOperatoreRepository.BulkUpdatePrinter | src/Repository/ConfigOperatoreRepository.php:123-134 | the table and the count of bulkUpdatePrinter |
| ConfigOperatore.ConfigOperatoreRepository.SetAreaByTriple | src/Import/Importer.php:215-219 | the table becomes the one updated by triple |
| Stampanti.FindByIp | src/Repository/StampantiRepository.php:31-38 | the row with the IP, or none exactly when no row has it |
| Stampanti.FindByIpUnique | src/Repository/StampantiRepository.php:31-38 | with one row per IP, that row is the one found |
| Stampanti.IpLePreorder | src/Repository/StampantiRepository.php:22 | ORDER BY IP is a total preorder |
| Stampanti.GetAll | src/Repository/StampantiRepository.php:20-26 | every printer, sorted by IP |
| Stampanti.GetDefault | src/Repository/StampantiRepository.php:76-83 | none iff there are no printers; otherwise a printer whose IP is not above any other |
| Stampanti.Created | src/Repository/StampantiRepository.php:43-51 | create inserts the IP or updates its queue |
| Stampanti.CreateUpserts | src/Repository/StampantiRepository.php:43-51 | afterwards exactly one row has the IP, with the given queue, and no other printer changed |
| Stampanti.CreatedKeepsUnique | src/Repository/StampantiRepository.php:43-51 | creating a printer keeps the IP a unique key of the table |
| Stampanti.Updated | src/Repository/StampantiRepository.php:56-61 | update changes the queue of the IP's row only |
| Stampanti.UpdateUnknownIp | src/Repository/StampantiRepository.php:56-61 | an unknown IP leaves the table unchanged |
| Stampanti.Deleted | src/Repository/StampantiRepository.php:66-71 | delete removes only the row with the IP |
| Stampanti.DeletedKeepsUnique | src/Repository/StampantiRepository.php:66-71 | delete keeps one row per IP |
| Stampanti.CountUsage | src/Repository/StampantiRepository.php:88-94 | exactly the number of configurations whose IP_STAMPANTE is the IP, 0 iff none uses it |
| Util.FilterCount | src/Repository/StampantiRepository.php:88-94 | the rows a WHERE keeps are as many as the rows satisfying it |
| Stampanti.StampantiRepository.Create | src/Repository/StampantiRepository.php:43-51 | the rows become the upserted ones |
| Stampanti.StampantiRepository.Update | src/Repository/StampantiRepository.php:56-61 | the rows become the updated ones |
| Stampanti.StampantiRepository.Delete | src/Repository/StampantiRepository.php:66-71 | the rows lose the IP |
| Stampa.GetAreaCorrente | src/Print/StampaManager.php:26-43 | the stored ID_AREA of the triple's configuration, or -1 when there is none or the query fails |
| Stampa.StoredMinusOneLooksMissing | src/Print/StampaManager.php:38 | a stored area of -1 cannot be told apart from a missing configuration |
| Stampa.Owned | src/Print/StampaManager.php:57-101 | exactly the operator's rows for the department and inventory, filtered by area and printed flag as asked |
| Stampa.OwnedByTime | src/Print/StampaManager.php:61-79 | those rows sorted by creation time, a permutation of the filter |
| Stampa.OwnedLatest | src/Print/StampaManager.php:81-89 | min(n, 50) of the operator's n rows, newest first, and none of the operator's rows left out is newer than one taken |
| Stampa.SelectRighePerTipo | src/Print/StampaManager.php:48-123 | every returned row is the operator's; AREA_ATTUALE, TUTTI and AREA_ATTUALE_NON_STAMPATI are the sorted permutations of their filters, ULTIMI_50 the operator's 50 newest rows; an unknown code or a failing query gives no rows |
| Stampa.NonStampatiNarrowsAreaAttuale | src/Print/StampaManager.php:61-101 | AREA_ATTUALE_NON_STAMPATI is AREA_ATTUALE without the printed rows |
| Stampa.Columns | src/Print/StampaManager.php:165-172 | the fixed-width column layout |
| Stampa.PrintedFlag | src/Print/StampaManager.php:190 | STAMPATO 1 shows as "SI", anything else as "NO" |
| Stampa.RowLines | src/Print/StampaManager.php:176-193 | one line per row, in input order |
| Stampa.HeaderLines | src/Print/StampaManager.php:155-174 | the nine header writes, the column header and the 70-dash rule |
| Stampa.FooterLines | src/Print/StampaManager.php:195-197 | the rule, "TOTALE RIGHE: n" and the closing rule |
| Stampa.ReportLayout | src/Print/StampaManager.php:155-197 | for n rows: n + 15 lines, the rows in order after the header, then the footer |
| Stampa.RowsTextIsUnlines | src/Print/StampaManager.php:176-193 | the rows written one fwrite at a time are the row lines joined, each with its newline |
| Stampa.ReportText | src/Print/StampaManager.php:155-197 | the report file's text; its layout is stated by Stampa.ReportLayout and Stampa.ReportTextSplit |
| Stampa.ReportTextSplit | src/Print/StampaManager.php:155-197 | the file's text is the header, the rows and the footer |
| Stampa.ReportPath | src/Print/StampaManager.php:145-147 | basePath/operator-department-inventory_timestamp.txt |
| Stampa.ReportPathShape | src/Print/StampaManager.php:145-147 | the name ends with "_", a 14-digit timestamp and ".txt", and sits under the base path |
| Stampa.ReportDir.GenerateTxtFile | src/Print/StampaManager.php:130-208 | no rows, or a file that will not open, gives "" and writes nothing; otherwise the report is written at its path |
| Stampa.ReportDir.WriteRows | src/Print/StampaManager.php:176-193 | the foreach appends each row's line to the open file |
| Printer.SanitizeQueue | src/Print/PrinterManager.php:52 | every character outside [A-Za-z0-9_-] is removed and the rest kept in order |
| Printer.SanitizeQueueKeepsSafeNames | src/Print/PrinterManager.php:52 | a name made only of kept characters passes unchanged |
| Printer.SanitizeQueueIdempotent | src/Print/PrinterManager.php:52 | filtering twice equals filtering once |
| Printer.TrimSlashes | src/Print/PrinterManager.php:51 | the directory without its trailing slashes |
| Printer.TempFileName | src/Print/PrinterManager.php:49-54 | the temporary file name; its shape is stated by Printer.TempFileNameShape |
| Printer.TempFileNameShape | src/Print/PrinterManager.php:49-54 | the name is the trimmed directory, "/print_", the filtered queue, "_", the time and ".txt" |
| Printer.TempFileNameIgnoresTrailingSlash | src/Print/PrinterManager.php:51 | directories differing only in trailing slashes give the same name |
| Printer.FileContent | src/Print/PrinterManager.php:57 | the lines joined by newlines with one trailing newline |
| Printer.PrintSpool.PrintToQueue | src/Print/PrinterManager.php:36-107 | no printer row: false, nothing written; a failed write: false; otherwise the file is written, lpr runs, the file is removed, and the result is lpr's success |
| Printer.OrNa | src/Print/PrinterManager.php:124-125 | a missing metadata value prints as "N/A" |
| Printer.Fixed3 | src/Print/PrinterManager.php:144-150 | an integral quantity in 12 columns with three decimals |
| Printer.Fixed3RoundTrip | src/Print/PrinterManager.php:144-150 | the quantity can be read back from its rendering |
| Printer.ItemLines | src/Print/PrinterManager.php:143-153 | one line per row, in order |
| Printer.SumQtaAppend | src/Print/PrinterManager.php:142-152 | the total of two lists is the sum of their totals |
| Printer.SumQtaOfMissing | src/Print/PrinterManager.php:152 | rows with no quantity add nothing |
| Printer.Opening | src/Print/PrinterManager.php:116-120 | the banner, the title, the banner and a blank line |
| Printer.MetadataBlock | src/Print/PrinterManager.php:122-128 | the operator, area and date lines and a blank, only with non-empty metadata |
| Printer.TableHead | src/Print/PrinterManager.php:130-139 | the column header and the 80-dash rule |
| Printer.InventoryHeader | src/Print/PrinterManager.php:116-139 | the opening, the metadata block and the column head |
| Printer.InventoryFooter | src/Print/PrinterManager.php:156-166 | the rule, the TOTALE line with the total and the row count, a blank and the banner |
| Printer.InventoryLines | src/Print/PrinterManager.php:112-169 | the listing formatInventoryPrint builds; its parts are stated by the Printer.Inventory lemmas below |
| Printer.InventoryLength | src/Print/PrinterManager.php:114-168 | 4 header lines, 4 more iff metadata is non-empty, 2, one per row, then 4 |
| Printer.InventoryOpening | src/Print/PrinterManager.php:116-119 | the banner and the title come first |
| Printer.InventoryMetadata | src/Print/PrinterManager.php:122-128 | non-empty metadata adds the operator, area and date lines |
| Printer.InventoryWithoutMetadata | src/Print/PrinterManager.php:122-131 | with empty metadata the column header follows the blank line |
| Printer.InventoryRowsInOrder | src/Print/PrinterManager.php:142-153 | row i of the input is line k + i of the listing |
| Printer.InventoryClosing | src/Print/PrinterManager.php:156-166 | the last four lines carry the total and the row count |
| Printer.FormatInventoryPrint | src/Print/PrinterManager.php:112-169 | the loop builds exactly the listing described above |
| Config.FirstEquals | src/Config.php:30-34 | the position of the first "=" |
| Config.TrailingRegexSpace | src/Config.php:39 | the number of \s characters at the end |
| Config.StripQuotes | src/Config.php:39-41 | a value opening with a quote and closing with one (not necessarily the same) loses both; any other value is kept |
| Config.StripQuotesOfQuoted | src/Config.php:39-41 | a quoted value without a newline loses exactly its two quotes |
| Config.StripQuotesOfUnquoted | src/Config.php:39-41 | a value not opening with a quote is kept |
| Config.ParseLine | src/Config.php:24-43 | a comment or a line without "=" gives nothing; otherwise the trimmed key and the trimmed, unquoted value |
| Config.SplitLine | src/Config.php:34-41 | the key is trimmed and holds no "=" |
| Config.ParseLineRoundTrip | src/Config.php:34-36 | "key=value" is read back as (key, value) |
| Config.ParseLineQuoted | src/Config.php:39-41 | a quoted value is read back without its quotes |
| Config.SplitAtKey | src/Config.php:34 | "key=value" splits after the key |
| Config.FirstEqualsAt | src/Config.php:34 | the first "=" is the one with none before it |
| Config.KeyLineNotComment | src/Config.php:26 | a line opening with a key not starting with "#" is no comment |
| Config.IgnoredLines | src/Config.php:26-32 | comment lines and lines with no "=" contribute nothing |
| Config.Entries | src/Config.php:24-45 | each line's contribution, in file order |
| Config.LastEntryWins | src/Config.php:43 | a key's value is the one from the last entry that sets it |
| Config.Parsed | src/Config.php:24-45 | the array after a load on top of an earlier one; stated by Config.LastLineWins and Config.UnsetKeyUnchanged |
| Config.LastLineWins | src/Config.php:43 | a key's value is the one on the last line that sets it |
| Config.UnsetKeyUnchanged | src/Config.php:43 | a key no line sets keeps its old value, or stays absent |
| Config.Config.Load | src/Config.php:13-48 | a no-op once loaded; a missing file fails and changes nothing; otherwise every line is applied to the array and the environment and the flag is set, except that a line whose key trims to "" is stored in the array and then putenv throws: the load stops with the environment holding only the earlier lines and the flag unset |
| Config.FirstEmptyKey | src/Config.php:43-44 | the first line whose key trims to "", before which no line has an empty key; the length when there is none |
| Config.Get | src/Config.php:54-69 | a missing key fails when required with no default and otherwise gives the default; an empty value fails when required; any other value is returned |
| Config.GetAfterLoad | src/Config.php:54-69 | after a load, get returns the last line's value for the key |
| Config.GetInt | src/Config.php:74-78 | get with the default cast to a string, then the (int) cast |
| Config.GetIntMissing | src/Config.php:74-78 | a missing key gives the default (any int PHP can hold), or 0 with none, even when required |
| Config.GetIntPresent | src/Config.php:74-78 | a present value is cast with (int), unless it is empty and required |
| Config.Messages | src/Config.php:83-104 | one message per unset key, in key order |
| Config.MessagesExact | src/Config.php:83-104 | a key's message is there iff the key is unset |
| Config.MessagesNone | src/Config.php:83-104 | no message iff every key is set |
| Config.ValidateEmptyIffConfigured | src/Config.php:83-104 | validate reports nothing iff the four keys all have non-empty values |
| Config.MessagesOfRequired | src/Config.php:88-101 | the four checks, in order |
| Config.Validate | src/Config.php:83-104 | validate returns the messages of the unset keys, in order |
| Text.Trim | src/Config.php:35-36 | PHP trim with its default character set; stated by Text.TrimShape and Text.TrimIdempotent |
| Text.TrimShape | src/Config.php:35-36 | PHP trim: the result is the slice of the string after its leading trim characters, followed only by trim characters, and starts and ends with a non-trim character |
| Text.TrimLeftDrops | src/Config.php:35-36 | removing trim characters one at a time from the front removes exactly the leading run |
| Text.TrimRightTakes | src/Config.php:35-36 | removing trim characters one at a time from the back removes exactly the trailing run |
| Text.TrimIdempotent | bin/daemon-import.php:113-115 | trimming twice is trimming once |
| Text.IntToString | src/Config.php:77 | (string)$n; stated by Text.IntToStringDigits, Text.IntToStringRoundTrip and Text.IntToStringInjective |
| Text.StrToInt | src/Config.php:77 | the (int) cast of a string: white space, sign, numeric prefix with fraction and exponent, truncated and clamped; stated by the Text.StrToInt lemmas below |
| Text.IntToStringRoundTrip | src/Config.php:77 | (int)(string)$n == $n for every int between PHP_INT_MIN and PHP_INT_MAX |
| Text.NatRoundTrip | src/Config.php:77 | (int) of the decimal rendering of a natural number up to PHP_INT_MAX gives it back |
| Text.NegativeRoundTrip | src/Config.php:77 | (int) of "-" and the decimal rendering of n gives -n back while -n is at least PHP_INT_MIN |
| Text.IntToStringInjective | bin/daemon-import.php:205 | different ints render differently |
| Text.IntToStringDecodes | bin/daemon-import.php:205 | reading a rendering back digit by digit, with "-" negating, gives the int |
| Text.IntToStringDigits | src/Print/StampaManager.php:146 | %d renders a non-empty string of digits, with a leading "-" only for negatives |
| Text.StrToIntOfDigits | src/Print/StampaManager.php:38 | (int) of a digit string is its decimal value, clamped to PHP_INT_MAX |
| Text.StrToIntOfNegative | src/Config.php:77 | (int) of "-" and digits is the negated decimal value, clamped to PHP_INT_MIN |
| Text.Saturate | src/Config.php:77 | a value beyond the int range is clamped to PHP_INT_MIN or PHP_INT_MAX; one inside is kept |
| Text.StrToIntSkipsSpace | src/Config.php:77 | leading white space does not change the cast |
| Text.StrToIntScientific | src/Config.php:77 | (int)"<d>e<e>" is d times 10 to the e, clamped |
| Text.StrToIntDecimalScientific | src/Config.php:77 | (int)"<d>.<f>e<e>" moves the point e places right in the digits of d and f, truncates toward zero and clamps |
| Text.StrToIntThousand | src/Config.php:77 | (int)"1e3" is 1000 |
| Text.StrToIntTwoFifty | src/Config.php:77 | (int)"2.5e2" is 250 |
| Text.StrToIntClamps | src/Config.php:77 | (int)"1e<e>" is PHP_INT_MAX once e is 19 or more |
| Text.PadRight | src/Print/StampaManager.php:165-172 | %-Ns is N characters wide, or the string's own width when longer; never cut |
| Text.PadRightContents | src/Print/StampaManager.php:165-172 | %-Ns: the string, then only spaces up to width N |
| Text.PadLeft | src/Print/PrinterManager.php:144-150 | %Ns is N characters wide, or the string's own width when longer; never cut |
| Text.PadLeftContents | src/Print/PrinterManager.php:144-150 | %Ns: only spaces up to width N, then the string |
| Text.LexLeTotal | src/Repository/ConfigOperatoreRepository.php:22 | string order on codes is total |
| Text.LexLeTransitive | src/Repository/ConfigOperatoreRepository.php:22 | string order on codes is transitive |
| Text.LexLeAntisymmetric | src/Repository/ConfigOperatoreRepository.php:22 | string order on codes is antisymmetric, so equal-ranked codes are equal |
| Config.MessageInjective | src/Config.php:88-101 | different keys give different validation messages |
| Clock.ZeroPadDigits | src/Print/StampaManager.php:145 | a zero-padded date field is made of digits only |
| Clock.Compact | src/Print/StampaManager.php:145 | date('YmdHis'); stated by Clock.CompactIsFourteenDigits |
| Clock.CompactIsFourteenDigits | src/Print/StampaManager.php:145 | date('YmdHis') is 14 digits |
| Clock.Stamp | src/Print/StampaManager.php:162 | date('Y-m-d H:i:s'); stated by Clock.StampLayout |
| Clock.StampLayout | src/Print/StampaManager.php:162 | date('Y-m-d H:i:s') has the fixed 19-character layout |

## Left out

- Logging is not modelled: every logger call is a no-op, and `src/Logger.php` is not part of this model.
- Time is a parameter. `time()` and `date()` become an epoch and a broken-down time given to each operation, and `sleep(LOOP_INTERVAL)` is dropped. The daemon takes one clock reading per pass and one per record.
- Connections, `Config::load` wiring and PDO/ODBC setup are not modelled. So are the wiring defects: a method called on the void result of `load`, connection constructors given the wrong arguments, and `src/Import/Importer.php` having no `use` lines, so its constructors' type hints resolve inside `App\Import` and the calls at `bin/import_invc.php:77-85` would fail with a TypeError.
- `getForPrint` is called with five arguments at `src/Import/Importer.php:147` against its `(type, area)` signature. It is modelled as `getForPrint(tipo, area)`.
- PHP type errors are not modelled.
- Quantities are integers. Float quantities, their sums and the float-to-int casts are not modelled. `%12.3f` of an integral quantity is written out exactly.
- String order is character-code order. Database collations are not modelled, and neither is the order of ties in `ORDER BY`.
- The unique key behind `ON DUPLICATE KEY` is taken to be the seven identity columns of CONTEGGI, and IP for STAMPANTI.
- `putenv` is modelled as an environment map updated by `load`.
- The file system is abstract: the lock file is (present, mtime) and reports are a path-to-text map.
  - `mkdir` of the lock directory is not modelled.
  - The handle left behind by a failed flock is treated as closed.
  - `release` after a failed flock is not modelled: PHP would call flock on a closed handle.
  - Concurrency exists only through lock-file transitions.
- `exec('lpr')` is reduced to its exit code, and the temporary-file write to a success flag.
- TIPO_STAMPA is a map from CODICE to ID_TIPO, so a code has one type.
- The daemon's operator map keys rows by the order CONF_OPERATORE returns them, with no ORDER BY. The model uses the given row order.
- CODICE_OPERATORE is never written by the upsert. A row it inserts carries NULL there, so StampaManager's selections never return such a row.
- In the daemon, an authorised inventory row calls `Importer::process` with a null area. That call does nothing, so "imported" rows are counted but nothing is written. Because it cannot throw, its catch branch is not modelled.
- In the daemon, only the fetch is modelled as throwing out of the cycle. Exceptions inside the foreach are the per-record flags.
- In the cron script, NULL PRECODICE, CODICE_ART and OPER_CREAZ are taken to be strings.
- In the cron script, each statement that can throw is a per-row flag: the MARKER lookup, the upsert, and each query of the marker processing (findByKey, update, getForPrint, findByIp, markAsPrinted).
- Text.StrToInt: a string with a fraction or an exponent is read by PHP as a double, so it is rounded to 53 bits before the cast. The model computes the exact decimal value, truncated toward zero. A value beyond the double range (such as "1e400") is cast by PHP to 0, while the model clamps it to PHP_INT_MAX.
- Text.PadRight: widths are counted in characters, while sprintf's `%-Ns` counts bytes. The two agree only for ASCII text; a UTF-8 POSIZIONE, PRECODICE or CODICE_ART such as "à" gets one pad space fewer in PHP than Text.PadRight and Text.PadRightContents state.
- Config.GetInt: inherits the two gaps of Text.StrToInt.
- Daemon.OperatorKey: REPARTO and NUMERO_INVENTARIO are assumed to arrive from DB2 as canonical decimal text. PHP builds the key from the raw strings, so a value such as "007" or a padded CHAR would not match a key built from CONF_OPERATORE, while the model renders the parsed int and would match.
- Printer.PrintSpool.PrintToQueue: its own findByIp is taken not to throw. In PHP a throw there is caught and returns false, the same result as a missing printer row, with nothing written.
- Daemon.Daemon.Run: the loop runs over a finite list of passes; None means the passes ran out before the daemon ended.
- Daemon.CycleCounters: bounds the marker counter by the number of ZZZ rows instead of giving its exact value; the exact per-record rule is in Daemon.StepEffect and Daemon.StampaCounting.
- Importer.MarkerProcessor.Process: for STAMPA it states only that CONF_OPERATORE and CONTEGGI's keys are kept. The print and marking outcome is stated by Importer.MarkerProcessor.HandleMarkerStampa.
- ImportInvc.ImportJob.ProcessAll: states CONTEGGI's key set and the counters. It does not give the whole table, since STAMPA markers in the batch also mark rows printed.

## Findings

| source | as written | input that shows it | evidently intended | confidence | as-written member | corrected member |
|---|---|---|---|---|---|---|
| src/Repository/ConteggiRepository.php:105 | `markAsPrinted` sets STAMPATO = 1 `WHERE REPARTO IN (ids)`, while its caller (src/Import/Importer.php:180-181) passes ID_CONTEGGIO values | a row with ID_CONTEGGIO 1 and REPARTO 10 is printed and stays unprinted; another row with REPARTO 1 is marked printed | `WHERE ID_CONTEGGIO IN (ids)` | not executed; high, from reading the statement against its only caller | Conteggi.MarkRepartiPrinted, Conteggi.MarkRepartiPrintedMissesPrintedRow, Importer.StampaAsWrittenLeavesPrintedRowUnprinted | Conteggi.MarkIdsPrinted, Conteggi.MarkIdsPrintsExactlySelection (the intended marking; the modelled STAMPA path keeps the statement as written) |
