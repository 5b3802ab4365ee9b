/**
 * The cron import: takes the file lock (stale after 300 seconds), reads
 * today's D01.INVC rows, and for each one either runs the marker it names
 * or upserts it into CONTEGGI with no area; a failing row is logged and
 * skipped.
 *
 * The clock, the outcome of the lock's fopen and flock, whether the DB2
 * read succeeds, the rows it returns, the marker catalogue and which
 * per-row statements throw are all inputs. A marker row's processing can
 * throw part-way (a STAMPA whose markAsPrinted throws has already queued
 * its job), so whether it threw is read off the tables the row starts from.
 */
module ImportInvc {
  import opened Util
  import Clock
  import Conteggi
  import Markers
  import Importer

  /** The lock's staleness timeout passed to the LockManager. */
  const LockTimeout := 300

  /** A row of today's D01.INVC read, NULL columns as None. */
  datatype DbRow = DbRow(
    reparto: int, numeroInv: int, precodice: string, codiceArt: string,
    posizione: Option<string>, numeroConta: Option<int>, prog: Option<int>,
    qta: Option<int>, operCreaz: string, dataCreaz: Option<string>, oraCreaz: Option<string>)

  /** `$x ?? $default` */
  function OrElse<T>(x: Option<T>, default: T): T
  {
    if x.Some? then x.value else default
  }

  /** The natural key the upsert writes, with the missing position, count and progressive defaulted. */
  function KeyOf(row: DbRow): Conteggi.NaturalKey
  {
    Conteggi.NaturalKey(row.reparto, row.numeroInv, row.precodice, row.codiceArt,
                        OrElse(row.posizione, ""), OrElse(row.numeroConta, 0), OrElse(row.prog, 0))
  }

  /** The creation timestamp: the row's date and time, today's where either is NULL. */
  function Timestamp(row: DbRow, now: Clock.DateTime): string
  {
    OrElse(row.dataCreaz, Clock.DateText(now)) + " " + OrElse(row.oraCreaz, Clock.TimeText(now))
  }

  /** The array handed to upsertFromINVC: area -1, quantity 0 when NULL. */
  function UpsertDataOf(row: DbRow, now: Clock.DateTime): (d: Conteggi.UpsertData)
    ensures d.key == KeyOf(row) && d.idArea == -1
  {
    Conteggi.UpsertData(KeyOf(row), OrElse(row.qta, 0), row.operCreaz, Timestamp(row, now), -1)
  }

  /**
   * What the try block of one row meets: whether the marker lookup throws,
   * whether the upsert throws, which statements of a marker's processing
   * throw, the clock, and the outcome of the temporary file write and of
   * lpr for a STAMPA marker.
   */
  datatype RecordEnv = RecordEnv(
    lookupThrows: bool, upsertThrows: bool, faults: Importer.Faults,
    now: Clock.DateTime, epoch: int, writeOk: bool, lprExit: int)

  datatype Outcome = Upserted | MarkerProcessed | Failed

  /** A row is a marker when its (PRECODICE, CODICE_ART) pair is in the catalogue. */
  predicate IsMarkerRow(catalogue: seq<Markers.MarkerRow>, row: DbRow)
  {
    Markers.MarkerRow(row.precodice, row.codiceArt) in catalogue
  }

  /**
   * How one row ends: counted as a marker, counted as a CONTEGGI row, or
   * caught and logged; `threw` is whether a marker's processing threw.
   */
  function OutcomeOf(catalogue: seq<Markers.MarkerRow>, row: DbRow, env: RecordEnv, threw: bool): Outcome
  {
    if env.lookupThrows then Failed
    else if IsMarkerRow(catalogue, row) then (if threw then Failed else MarkerProcessed)
    else if env.upsertThrows then Failed
    else Upserted
  }

  /** A row reaches the upsert and the upsert does not throw. */
  predicate Upserts(catalogue: seq<Markers.MarkerRow>, row: DbRow, env: RecordEnv)
  {
    !env.lookupThrows && !IsMarkerRow(catalogue, row) && !env.upsertThrows
  }

  /** Nothing the row's try block reaches throws. */
  predicate Clean(env: RecordEnv)
  {
    !env.lookupThrows && !env.upsertThrows && Importer.NoFaults(env.faults)
  }

  datatype Counts = Counts(conteggi: nat, markers: nat)

  /** The counter a row's outcome increments. */
  function Bump(c: Counts, outcome: Outcome): Counts
  {
    match outcome
    case Upserted => c.(conteggi := c.conteggi + 1)
    case MarkerProcessed => c.(markers := c.markers + 1)
    case Failed => c
  }

  /** $conteggiCount and $markerCount after the foreach, given which marker rows threw. */
  function Tally(catalogue: seq<Markers.MarkerRow>, rows: seq<DbRow>, envs: seq<RecordEnv>, threw: seq<bool>): Counts
    requires |envs| == |rows| && |threw| == |rows|
  {
    if rows == [] then Counts(0, 0)
    else
      var n := |rows| - 1;
      Bump(Tally(catalogue, rows[..n], envs[..n], threw[..n]), OutcomeOf(catalogue, rows[n], envs[n], threw[n]))
  }

  /** The keys of the rows that were upserted, collected row by row. */
  function UpsertedKeys(catalogue: seq<Markers.MarkerRow>, rows: seq<DbRow>, envs: seq<RecordEnv>): set<Conteggi.NaturalKey>
    requires |envs| == |rows|
  {
    if rows == [] then {}
    else
      var n := |rows| - 1;
      UpsertedKeys(catalogue, rows[..n], envs[..n]) +
        (if Upserts(catalogue, rows[n], envs[n]) then {KeyOf(rows[n])} else {})
  }

  /**
   * No row is counted twice: the two counters add up to at most the rows
   * read, the CONTEGGI counter counts exactly the rows that were upserted,
   * and when no row throws the counters add up to the rows read and the
   * marker counter is the number of rows whose pair is in the catalogue.
   */
  lemma {:induction false} TallyAccountsForEveryRow(catalogue: seq<Markers.MarkerRow>, rows: seq<DbRow>, envs: seq<RecordEnv>,
                                                    threw: seq<bool>)
    requires |envs| == |rows| && |threw| == |rows|
    ensures Tally(catalogue, rows, envs, threw).conteggi + Tally(catalogue, rows, envs, threw).markers <= |rows|
    ensures Tally(catalogue, rows, envs, threw).conteggi == CountUpserts(catalogue, rows, envs)
    ensures (forall i :: 0 <= i < |envs| ==> !envs[i].lookupThrows && !envs[i].upsertThrows && !threw[i]) ==>
      && Tally(catalogue, rows, envs, threw).conteggi + Tally(catalogue, rows, envs, threw).markers == |rows|
      && Tally(catalogue, rows, envs, threw).markers == Count(rows, (row: DbRow) => IsMarkerRow(catalogue, row))
  {
    if rows != [] {
      var n := |rows| - 1;
      TallyAccountsForEveryRow(catalogue, rows[..n], envs[..n], threw[..n]);
      InitLast(rows);
      CountSnoc(rows[..n], rows[n], (row: DbRow) => IsMarkerRow(catalogue, row));
    }
  }

  /** The number of rows that reach the upsert without a throw. */
  function CountUpserts(catalogue: seq<Markers.MarkerRow>, rows: seq<DbRow>, envs: seq<RecordEnv>): nat
    requires |envs| == |rows|
  {
    if rows == [] then 0
    else
      var n := |rows| - 1;
      CountUpserts(catalogue, rows[..n], envs[..n]) + (if Upserts(catalogue, rows[n], envs[n]) then 1 else 0)
  }

  /** A key was upserted iff some row carrying it had the Upserted outcome. */
  lemma {:induction false} UpsertedKeysMembers(catalogue: seq<Markers.MarkerRow>, rows: seq<DbRow>, envs: seq<RecordEnv>,
                                               k: Conteggi.NaturalKey)
    requires |envs| == |rows|
    ensures k in UpsertedKeys(catalogue, rows, envs) <==>
      exists i :: 0 <= i < |rows| && Upserts(catalogue, rows[i], envs[i]) && KeyOf(rows[i]) == k
  {
    if rows != [] {
      var n := |rows| - 1;
      UpsertedKeysMembers(catalogue, rows[..n], envs[..n], k);
      if k in UpsertedKeys(catalogue, rows[..n], envs[..n]) {
        var i :| 0 <= i < n && Upserts(catalogue, rows[..n][i], envs[..n][i]) && KeyOf(rows[..n][i]) == k;
        assert rows[..n][i] == rows[i] && envs[..n][i] == envs[i];
      }
      if exists i :: 0 <= i < |rows| && Upserts(catalogue, rows[i], envs[i]) && KeyOf(rows[i]) == k {
        var i :| 0 <= i < |rows| && Upserts(catalogue, rows[i], envs[i]) && KeyOf(rows[i]) == k;
        if i < n {
          assert rows[..n][i] == rows[i] && envs[..n][i] == envs[i];
        }
      }
    }
  }

  /** Tally over one more row. */
  lemma TallySnoc(catalogue: seq<Markers.MarkerRow>, rows: seq<DbRow>, envs: seq<RecordEnv>, threw: seq<bool>, i: nat)
    requires |envs| == |rows| && |threw| == i + 1 && i < |rows|
    ensures Tally(catalogue, rows[..i + 1], envs[..i + 1], threw) ==
      Bump(Tally(catalogue, rows[..i], envs[..i], threw[..i]), OutcomeOf(catalogue, rows[i], envs[i], threw[i]))
  {
    assert rows[..i + 1][..i] == rows[..i] && envs[..i + 1][..i] == envs[..i];
  }

  /** One more row carries the key-set invariant of the foreach from table `t1` to table `t2`. */
  lemma KeysStep(catalogue: seq<Markers.MarkerRow>, rows: seq<DbRow>, envs: seq<RecordEnv>, i: nat,
                 t0: Conteggi.CountTable, t1: Conteggi.CountTable, t2: Conteggi.CountTable)
    requires |envs| == |rows| && i < |rows|
    requires Conteggi.KeysOf(t1) == Conteggi.KeysOf(t0) + UpsertedKeys(catalogue, rows[..i], envs[..i])
    requires Conteggi.KeysOf(t2) ==
      Conteggi.KeysOf(t1) + (if Upserts(catalogue, rows[i], envs[i]) then {KeyOf(rows[i])} else {})
    ensures Conteggi.KeysOf(t2) == Conteggi.KeysOf(t0) + UpsertedKeys(catalogue, rows[..i + 1], envs[..i + 1])
  {
    assert rows[..i + 1][..i] == rows[..i] && envs[..i + 1][..i] == envs[..i];
  }

  /** The script's objects: the lock, the marker cache and the marker processor with its repositories. */
  class ImportJob {
    const lock: Importer.LockManager
    const markerRepo: Markers.MarkerRepository
    const processor: Importer.MarkerProcessor

    constructor(lock: Importer.LockManager, markerRepo: Markers.MarkerRepository, processor: Importer.MarkerProcessor)
      ensures this.lock == lock && this.markerRepo == markerRepo && this.processor == processor
    {
      this.lock := lock;
      this.markerRepo := markerRepo;
      this.processor := processor;
    }

    /**
     * The try block for one row: a marker is processed under the kind its
     * CODICE_ART names, with the quantity defaulted to 0; any other row is
     * upserted with area -1. `threw` is whether the marker's processing
     * threw. A failed lookup or upsert leaves every table as it was; a failed
     * AREA marker leaves every table as it was; a failed STAMPA leaves
     * CONTEGGI as it was, even when its job was already queued.
     */
    method ProcessRow(catalogue: seq<Markers.MarkerRow>, row: DbRow, env: RecordEnv) returns (outcome: Outcome, ghost threw: bool)
      requires processor.confRepo.Valid() && processor.conteggiRepo.Valid()
      requires Markers.Coherent(markerRepo.cache, catalogue)
      modifies markerRepo, processor.confRepo, processor.conteggiRepo, processor.spool
      ensures processor.confRepo.Valid() && processor.conteggiRepo.Valid()
      ensures Markers.Coherent(markerRepo.cache, catalogue)
      ensures threw == (!env.lookupThrows && IsMarkerRow(catalogue, row) &&
        Importer.ProcessThrows(old(processor.confRepo.table), old(processor.conteggiRepo.table), processor.stampantiRepo.rows,
                               row.operCreaz, row.reparto, row.numeroInv, row.codiceArt, Some(OrElse(row.qta, 0)),
                               env.faults, env.writeOk, env.lprExit))
      ensures threw ==> !Importer.NoFaults(env.faults)
      ensures outcome == OutcomeOf(catalogue, row, env, threw)
      ensures Conteggi.KeysOf(processor.conteggiRepo.table) ==
        Conteggi.KeysOf(old(processor.conteggiRepo.table)) + (if Upserts(catalogue, row, env) then {KeyOf(row)} else {})
      ensures Upserts(catalogue, row, env) ==>
        && processor.conteggiRepo.table == Conteggi.Upsert(old(processor.conteggiRepo.table), UpsertDataOf(row, env.now))
        && unchanged(processor.confRepo, processor.spool)
      ensures (env.lookupThrows || !IsMarkerRow(catalogue, row)) && outcome == Failed ==>
        unchanged(processor.confRepo, processor.conteggiRepo, processor.spool)
      ensures outcome != Upserted && row.codiceArt != "STAMPA" ==> processor.conteggiRepo.table == old(processor.conteggiRepo.table)
      ensures outcome == Failed ==> processor.conteggiRepo.table == old(processor.conteggiRepo.table) &&
                                    processor.confRepo.table == old(processor.confRepo.table)
      ensures outcome == MarkerProcessed && row.codiceArt == "AREA" ==>
        processor.confRepo.table == Importer.AreaMarked(old(processor.confRepo.table), row.operCreaz, row.reparto, row.numeroInv,
                                                        OrElse(row.qta, 0))
      ensures outcome == MarkerProcessed && row.codiceArt != "AREA" && row.codiceArt != "STAMPA" ==>
        unchanged(processor.confRepo, processor.conteggiRepo, processor.spool)
    {
      threw := false;
      if env.lookupThrows {
        return Failed, threw;
      }
      var isMarker := markerRepo.IsMarker(env.epoch, catalogue, row.precodice, row.codiceArt);
      if isMarker {
        var markerType := markerRepo.GetMarkerType(env.epoch, catalogue, row.precodice, row.codiceArt);
        Importer.ProcessThrowsOnlyOnFault(processor.confRepo.table, processor.conteggiRepo.table, processor.stampantiRepo.rows,
                                          row.operCreaz, row.reparto, row.numeroInv, row.codiceArt, Some(OrElse(row.qta, 0)),
                                          env.faults, env.writeOk, env.lprExit);
        var ok := processor.Process(row.operCreaz, row.reparto, row.numeroInv, markerType.value, Some(OrElse(row.qta, 0)),
                                    env.now, env.epoch, env.writeOk, env.lprExit, env.faults);
        threw := !ok;
        return if ok then MarkerProcessed else Failed, threw;
      }
      if env.upsertThrows {
        return Failed, threw;
      }
      processor.conteggiRepo.UpsertFromInvc(UpsertDataOf(row, env.now));
      return Upserted, threw;
    }

    /** ProcessRow, seen from the foreach: its outcome and the keys it adds. */
    method ProcessNext(catalogue: seq<Markers.MarkerRow>, row: DbRow, env: RecordEnv) returns (outcome: Outcome, ghost threw: bool)
      requires processor.confRepo.Valid() && processor.conteggiRepo.Valid()
      requires Markers.Coherent(markerRepo.cache, catalogue)
      modifies markerRepo, processor.confRepo, processor.conteggiRepo, processor.spool
      ensures processor.confRepo.Valid() && processor.conteggiRepo.Valid()
      ensures Markers.Coherent(markerRepo.cache, catalogue)
      ensures threw ==> !Importer.NoFaults(env.faults)
      ensures outcome == OutcomeOf(catalogue, row, env, threw)
      ensures Conteggi.KeysOf(processor.conteggiRepo.table) ==
        Conteggi.KeysOf(old(processor.conteggiRepo.table)) + (if Upserts(catalogue, row, env) then {KeyOf(row)} else {})
    {
      outcome, threw := ProcessRow(catalogue, row, env);
    }

    /**
     * The foreach over the rows read, with its two counters; `threw` records
     * which rows' marker processing threw.
     */
    method ProcessAll(catalogue: seq<Markers.MarkerRow>, rows: seq<DbRow>, envs: seq<RecordEnv>)
      returns (counts: Counts, ghost threw: seq<bool>)
      requires |envs| == |rows|
      requires processor.confRepo.Valid() && processor.conteggiRepo.Valid()
      requires Markers.Coherent(markerRepo.cache, catalogue)
      modifies markerRepo, processor.confRepo, processor.conteggiRepo, processor.spool
      ensures processor.confRepo.Valid() && processor.conteggiRepo.Valid()
      ensures |threw| == |rows|
      ensures forall i :: 0 <= i < |rows| && threw[i] ==> !Importer.NoFaults(envs[i].faults)
      ensures counts == Tally(catalogue, rows, envs, threw)
      ensures counts.conteggi == CountUpserts(catalogue, rows, envs)
      ensures (forall i :: 0 <= i < |rows| ==> Clean(envs[i])) ==>
        && counts.conteggi + counts.markers == |rows|
        && counts.markers == Count(rows, (row: DbRow) => IsMarkerRow(catalogue, row))
      ensures Conteggi.KeysOf(processor.conteggiRepo.table) ==
        Conteggi.KeysOf(old(processor.conteggiRepo.table)) + UpsertedKeys(catalogue, rows, envs)
    {
      counts := Counts(0, 0);
      threw := [];
      var i := 0;
      while i < |rows|
        invariant 0 <= i <= |rows|
        invariant |threw| == i
        invariant forall k :: 0 <= k < i && threw[k] ==> !Importer.NoFaults(envs[k].faults)
        invariant processor.confRepo.Valid() && processor.conteggiRepo.Valid()
        invariant Markers.Coherent(markerRepo.cache, catalogue)
        invariant counts == Tally(catalogue, rows[..i], envs[..i], threw)
        invariant Conteggi.KeysOf(processor.conteggiRepo.table) ==
          Conteggi.KeysOf(old(processor.conteggiRepo.table)) + UpsertedKeys(catalogue, rows[..i], envs[..i])
      {
        ghost var before := processor.conteggiRepo.table;
        var outcome, rowThrew := ProcessNext(catalogue, rows[i], envs[i]);
        KeysStep(catalogue, rows, envs, i, old(processor.conteggiRepo.table), before, processor.conteggiRepo.table);
        threw := threw + [rowThrew];
        assert threw[..i] == threw[..|threw| - 1];
        TallySnoc(catalogue, rows, envs, threw, i);
        counts := Bump(counts, outcome);
        i := i + 1;
      }
      assert rows[..|rows|] == rows && envs[..|envs|] == envs;
      TallyAccountsForEveryRow(catalogue, rows, envs, threw);
    }

    /**
     * The script: exits 0 at once when acquire fails, and since exit skips
     * the finally block the lock file stays as acquire left it (a fresh
     * lock untouched, the file a failed flock created kept, a stale file
     * whose re-creation failed gone); exits 1 with the lock left in place
     * when the DB2 read fails; otherwise
     * processes every row, releases the lock and exits 0. A marker row counts
     * as failed only when one of its processing statements throws.
     */
    method Run(now: int, openOk: bool, flockOk: bool, readOk: bool,
               catalogue: seq<Markers.MarkerRow>, rows: seq<DbRow>, envs: seq<RecordEnv>)
      returns (exit: int, counts: Counts, ghost threw: seq<bool>)
      requires |envs| == |rows|
      requires lock.timeout == LockTimeout
      requires processor.confRepo.Valid() && processor.conteggiRepo.Valid()
      requires Markers.Coherent(markerRepo.cache, catalogue)
      modifies lock, lock.file, markerRepo, processor.confRepo, processor.conteggiRepo, processor.spool
      ensures processor.confRepo.Valid() && processor.conteggiRepo.Valid()
      ensures var step := Importer.AcquireStep(old(lock.file.State()), now, LockTimeout, openOk, flockOk);
        var acquired := step.0;
        && (!acquired ==>
              exit == 0 && counts == Counts(0, 0) &&
              lock.file.State() == step.1 &&
              lock.handle == (Importer.Held(old(lock.file.State()), now, LockTimeout) && old(lock.handle)) &&
              unchanged(processor.confRepo, processor.conteggiRepo, processor.spool))
        && (acquired && !readOk ==>
              exit == 1 && lock.handle && lock.file.State() == step.1 &&
              unchanged(processor.confRepo, processor.conteggiRepo, processor.spool))
        && (acquired && readOk ==>
              exit == 0 && !lock.handle && !lock.file.present &&
              |threw| == |rows| && counts == Tally(catalogue, rows, envs, threw) &&
              (forall i :: 0 <= i < |rows| && threw[i] ==> !Importer.NoFaults(envs[i].faults)) &&
              Conteggi.KeysOf(processor.conteggiRepo.table) ==
                Conteggi.KeysOf(old(processor.conteggiRepo.table)) + UpsertedKeys(catalogue, rows, envs))
    {
      var acquired := lock.Acquire(now, openOk, flockOk);
      threw := [];
      if !acquired {
        return 0, Counts(0, 0), threw;
      }
      if !readOk {
        return 1, Counts(0, 0), threw;
      }
      counts, threw := ProcessAll(catalogue, rows, envs);
      lock.Release();
      exit := 0;
    }
  }
}
