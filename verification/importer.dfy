/**
 * The import package: the lock file that keeps two imports from running at
 * once, the processor that turns AREA and STAMPA markers into table updates
 * and print jobs, and the importer wrapper the daemon calls for area changes.
 *
 * The lock file is file-system state shared by every manager that names the
 * same path; the clock and the outcome of fopen and flock are parameters.
 */
module Importer {
  import opened Util
  import opened Text
  import Clock
  import ConfigOperatore
  import Conteggi
  import Stampanti
  import Printer

  // ---------------------------------------------------------------------
  // LockManager
  // ---------------------------------------------------------------------

  /** The constructor's default staleness timeout, in seconds. */
  const DefaultLockTimeout := 300

  /** What the file system knows about the lock file: whether it is there and its mtime. */
  datatype LockFileState = LockFileState(present: bool, mtime: int)

  /** A lock file younger than the timeout refuses a new acquire. */
  predicate Held(s: LockFileState, now: int, timeout: int)
  {
    s.present && now - s.mtime < timeout
  }

  /**
   * acquire as a transition: the result and the lock file afterwards.
   * A held file is left alone; otherwise a stale file is unlinked and
   * fopen(.., 'w') re-creates it, stamped `now`, before flock is tried.
   */
  function AcquireStep(s: LockFileState, now: int, timeout: int, openOk: bool, flockOk: bool): (bool, LockFileState)
  {
    if Held(s, now, timeout) then (false, s)
    else if !openOk then (false, s.(present := false))
    else (flockOk, LockFileState(true, now))
  }

  /** A lock file younger than the timeout makes acquire fail and stay off the file. */
  lemma FreshLockRefuses(s: LockFileState, now: int, timeout: int, openOk: bool, flockOk: bool)
    requires s.present && now - s.mtime < timeout
    ensures AcquireStep(s, now, timeout, openOk, flockOk) == (false, s)
  {
  }

  /**
   * A stale or missing lock file never blocks by itself: the result is
   * exactly whether fopen and flock succeeded.
   */
  lemma StaleLockNeverBlocks(s: LockFileState, now: int, timeout: int, openOk: bool, flockOk: bool)
    requires !s.present || now - s.mtime >= timeout
    ensures AcquireStep(s, now, timeout, openOk, flockOk).0 <==> openOk && flockOk
    ensures openOk ==> AcquireStep(s, now, timeout, openOk, flockOk).1 == LockFileState(true, now)
    ensures !openOk ==> !AcquireStep(s, now, timeout, openOk, flockOk).1.present
  {
  }

  /**
   * Mutual exclusion through the lock file: once an acquire at time t
   * succeeded, every acquire before t + timeout fails, whatever fopen and
   * flock would do, as long as nobody released the file in between.
   */
  lemma AcquiredExcludesUntilTimeout(s: LockFileState, t: int, timeout: int, now: int, openOk: bool, flockOk: bool)
    requires timeout > 0
    requires AcquireStep(s, t, timeout, true, true).0
    requires t <= now < t + timeout
    ensures !AcquireStep(AcquireStep(s, t, timeout, true, true).1, now, timeout, openOk, flockOk).0
  {
  }

  /** The lock file itself, shared by every manager of the same path. */
  class LockFile {
    var present: bool
    var mtime: int

    constructor(present0: bool, mtime0: int)
      ensures present == present0 && mtime == mtime0
    {
      present := present0;
      mtime := mtime0;
    }

    function State(): LockFileState
      reads this
    {
      LockFileState(present, mtime)
    }
  }

  class LockManager {
    const file: LockFile
    const timeout: int
    /** Whether this manager holds an open, locked handle on the file. */
    var handle: bool

    constructor(file: LockFile, timeout: int)
      ensures this.file == file && this.timeout == timeout && !handle
    {
      this.file := file;
      this.timeout := timeout;
      handle := false;
    }

    /**
     * acquire: false without touching the file while it is younger than the
     * timeout; otherwise unlink it if it is there, open it for writing (which
     * creates it) and take a non-blocking exclusive flock. A failed flock
     * closes the handle again; the file stays.
     */
    method Acquire(now: int, openOk: bool, flockOk: bool) returns (ok: bool)
      modifies this, file
      ensures (ok, file.State()) == AcquireStep(old(file.State()), now, timeout, openOk, flockOk)
      ensures Held(old(file.State()), now, timeout) ==> !ok && handle == old(handle)
      ensures !Held(old(file.State()), now, timeout) ==> (ok <==> openOk && flockOk) && handle == ok
    {
      if file.present {
        var age := now - file.mtime;
        if age < timeout {
          return false;
        }
        file.present := false;
      }
      if !openOk {
        handle := false;
        return false;
      }
      file.present := true;
      file.mtime := now;
      handle := true;
      if !flockOk {
        handle := false;
        return false;
      }
      return true;
    }

    /**
     * release: drops the handle if one is held, then deletes the lock file
     * if it is there, whether or not this manager created it.
     */
    method Release()
      modifies this, file
      ensures !handle && !file.present && file.mtime == old(file.mtime)
    {
      if handle {
        handle := false;
      }
      if file.present {
        file.present := false;
      }
    }
  }

  // ---------------------------------------------------------------------
  // MarkerProcessor
  // ---------------------------------------------------------------------

  /** (int) of the nullable quantity: null becomes 0. */
  function QtaAsInt(q: Option<int>): (r: int)
    ensures q.None? ==> r == 0
    ensures q.Some? ==> r == q.value
  {
    if q.Some? then q.value else 0
  }

  /**
   * An AREA marker: the operator's configuration found by its triple is
   * written back with the new ID_AREA and its own NOME and IP_STAMPANTE;
   * with no configuration nothing is written.
   */
  function AreaMarked(t: ConfigOperatore.ConfTable, operatore: string, reparto: int, numeroInv: int, area: int)
    : ConfigOperatore.ConfTable
  {
    match ConfigOperatore.FindByKey(t, operatore, reparto, numeroInv)
    case None => t
    case Some(c) => ConfigOperatore.Updated(t, c.idConf, c.nome, area, c.ipStampante)
  }

  /**
   * An AREA marker changes only ID_AREA of the configuration with the
   * triple, and nothing when there is none.
   */
  lemma AreaMarkerChangesOnlyArea(t: ConfigOperatore.ConfTable, operatore: string, reparto: int, numeroInv: int, area: int)
    requires ConfigOperatore.ValidConf(t)
    ensures ConfigOperatore.FindByKey(t, operatore, reparto, numeroInv).None? ==>
      AreaMarked(t, operatore, reparto, numeroInv, area) == t
    ensures ConfigOperatore.FindByKey(t, operatore, reparto, numeroInv).Some? ==>
      var c := ConfigOperatore.FindByKey(t, operatore, reparto, numeroInv).value;
      var r := AreaMarked(t, operatore, reparto, numeroInv, area);
      && r.nextId == t.nextId && |r.rows| == |t.rows|
      && forall i :: 0 <= i < |t.rows| ==>
        r.rows[i] == if t.rows[i] == c then t.rows[i].(idArea := area) else t.rows[i]
  {
    var found := ConfigOperatore.FindByKey(t, operatore, reparto, numeroInv);
    if found.Some? {
      var c := found.value;
      var r := AreaMarked(t, operatore, reparto, numeroInv, area);
      var j :| 0 <= j < |t.rows| && t.rows[j] == c;
      forall i | 0 <= i < |t.rows|
        ensures r.rows[i] == if t.rows[i] == c then t.rows[i].(idArea := area) else t.rows[i]
      {
        if t.rows[i].idConf == c.idConf {
          assert ConfigOperatore.IdOf(t.rows[i]) == ConfigOperatore.IdOf(t.rows[j]);
          assert i == j;
        }
      }
    }
  }

  /**
   * With one configuration per triple, the AREA marker (find, then update
   * by ID_CONF) and the importer's UPDATE by triple write the same table.
   */
  lemma AreaMarkerAgreesWithImporter(t: ConfigOperatore.ConfTable, operatore: string, reparto: int, numeroInv: int, area: int)
    requires ConfigOperatore.ValidConf(t) && ConfigOperatore.UniqueTriples(t)
    ensures AreaMarked(t, operatore, reparto, numeroInv, area) == ConfigOperatore.AreaSetByTriple(t, operatore, reparto, numeroInv, area)
  {
    var r := AreaMarked(t, operatore, reparto, numeroInv, area);
    var s := ConfigOperatore.AreaSetByTriple(t, operatore, reparto, numeroInv, area);
    AreaMarkerChangesOnlyArea(t, operatore, reparto, numeroInv, area);
    var found := ConfigOperatore.FindByKey(t, operatore, reparto, numeroInv);
    forall i | 0 <= i < |t.rows| ensures r.rows[i] == s.rows[i] {
      assert t.rows[i] in t.rows;
      if found.Some? {
        var c := found.value;
        var j :| 0 <= j < |t.rows| && t.rows[j] == c;
        if ConfigOperatore.SameTriple(t.rows[i], operatore, reparto, numeroInv) {
          assert i == j;
        }
      }
    }
    assert r.rows == s.rows;
  }

  /** A count row as the listing reads it: every column is there. */
  function ItemOf(x: Conteggi.CountRow): (r: Printer.ItemRow)
    ensures r.idConteggio == Some(x.idConteggio as int) && r.qta == Some(x.qta)
  {
    Printer.ItemRow(Some(x.key.precodice), Some(x.key.codiceArt), Some(x.key.posizione), Some(x.qta), Some(x.idConteggio))
  }

  function Items(rows: seq<Conteggi.CountRow>): (r: seq<Printer.ItemRow>)
    ensures |r| == |rows| && forall i :: 0 <= i < |rows| ==> r[i] == ItemOf(rows[i])
  {
    seq(|rows|, i requires 0 <= i < |rows| => ItemOf(rows[i]))
  }

  /** The listing's metadata: the operator and the configured area. */
  function StampaMetadata(operatore: string, area: int): (m: map<string, Option<string>>)
    ensures |m| > 0
    ensures Printer.OrNa(m, "operatore") == operatore && Printer.OrNa(m, "area") == IntToString(area)
  {
    map["operatore" := Some(operatore), "area" := Some(IntToString(area))]
  }

  /** The listing a STAMPA marker sends for the selected rows. */
  function StampaLines(rows: seq<Conteggi.CountRow>, operatore: string, area: int, now: Clock.DateTime): seq<string>
  {
    Printer.InventoryLines(Items(rows), StampaMetadata(operatore, area), Clock.Stamp(now))
  }

  /**
   * The listing names the operator, the area and the date in its metadata
   * block and carries one line per selected row.
   */
  lemma StampaListingContents(rows: seq<Conteggi.CountRow>, operatore: string, area: int, now: Clock.DateTime)
    ensures var lines := StampaLines(rows, operatore, area, now);
      && |lines| == |rows| + 14
      && lines[4] == "Operatore: " + operatore
      && lines[5] == "Area: " + IntToString(area)
      && lines[6] == "Data: " + Clock.Stamp(now)
  {
    var m := StampaMetadata(operatore, area);
    Printer.InventoryLength(Items(rows), m, Clock.Stamp(now));
    Printer.InventoryMetadata(Items(rows), m, Clock.Stamp(now));
  }

  /** The rows a STAMPA marker selects for a configuration: getForPrint(tipo, its area). */
  function StampaSelection(counts: Conteggi.CountTable, c: ConfigOperatore.ConfRow, tipo: int): seq<Conteggi.CountRow>
  {
    Conteggi.GetForPrint(counts, tipo, Some(c.idArea))
  }

  /**
   * Which of the repository statements a marker's processing reaches would
   * throw: findByKey, update, getForPrint, findByIp and markAsPrinted. None
   * of them is caught inside the processor.
   */
  datatype Faults = Faults(findThrows: bool, updateThrows: bool, selectThrows: bool, printerThrows: bool, markThrows: bool)

  predicate NoFaults(f: Faults)
  {
    !f.findThrows && !f.updateThrows && !f.selectThrows && !f.printerThrows && !f.markThrows
  }

  /** handleMarkerArea throws when findByKey does, or when it finds the row and the update throws. */
  predicate AreaThrows(conf: ConfigOperatore.ConfTable, operatore: string, reparto: int, numeroInv: int, f: Faults)
  {
    f.findThrows || (ConfigOperatore.FindByKey(conf, operatore, reparto, numeroInv).Some? && f.updateThrows)
  }

  /** How far handleMarkerStampa gets before printing: where it returns or throws, or the print it sends. */
  datatype StampaStep =
    | NoConfig
    | NothingToPrint
    | NoPrinter
    | Threw
    | Sends(c: ConfigOperatore.ConfRow, rows: seq<Conteggi.CountRow>, queue: string)

  /**
   * The queries of handleMarkerStampa in order: the configuration, the
   * selection for its area, the printer at its IP; each may be missing or
   * throw, and only after all three does the listing go out.
   */
  function StampaPlan(conf: ConfigOperatore.ConfTable, counts: Conteggi.CountTable, printers: seq<Stampanti.PrinterRow>,
                      operatore: string, reparto: int, numeroInv: int, tipo: int, f: Faults): StampaStep
  {
    if f.findThrows then Threw
    else match ConfigOperatore.FindByKey(conf, operatore, reparto, numeroInv)
      case None => NoConfig
      case Some(c) =>
        if f.selectThrows then Threw
        else
          var rows := StampaSelection(counts, c, tipo);
          if rows == [] then NothingToPrint
          else if f.printerThrows then Threw
          else match Stampanti.FindByIp(printers, c.ipStampante)
            case None => NoPrinter
            case Some(p) => Sends(c, rows, p.codaCups)
  }

  /**
   * A STAMPA marker sends a listing exactly when the configuration, a
   * non-empty selection and the configured printer are all there and none
   * of the three queries throws; the listing is the selection for the
   * configured area, sent to that printer's queue. It throws only where a
   * statement it reaches throws.
   */
  lemma StampaPlanSends(conf: ConfigOperatore.ConfTable, counts: Conteggi.CountTable, printers: seq<Stampanti.PrinterRow>,
                        operatore: string, reparto: int, numeroInv: int, tipo: int, f: Faults)
    ensures var plan := StampaPlan(conf, counts, printers, operatore, reparto, numeroInv, tipo, f);
      && (plan.Sends? <==>
            && !f.findThrows && !f.selectThrows && !f.printerThrows
            && ConfigOperatore.FindByKey(conf, operatore, reparto, numeroInv).Some?
            && StampaSelection(counts, ConfigOperatore.FindByKey(conf, operatore, reparto, numeroInv).value, tipo) != []
            && Stampanti.FindByIp(printers, ConfigOperatore.FindByKey(conf, operatore, reparto, numeroInv).value.ipStampante).Some?)
      && (plan.Sends? ==>
            && plan.c in conf.rows && ConfigOperatore.SameTriple(plan.c, operatore, reparto, numeroInv)
            && plan.rows == StampaSelection(counts, plan.c, tipo)
            && (forall x :: x in plan.rows ==> x in counts.rows && x.stampato == 0)
            && exists p :: p in printers && p.ip == plan.c.ipStampante && p.codaCups == plan.queue)
      && (plan.Threw? ==> f.findThrows || f.selectThrows || f.printerThrows)
  {
  }

  /** Whether process throws for a marker of the given kind, read off the tables it starts from. */
  predicate ProcessThrows(conf: ConfigOperatore.ConfTable, counts: Conteggi.CountTable, printers: seq<Stampanti.PrinterRow>,
                          operatore: string, reparto: int, numeroInv: int, markerType: string, qta: Option<int>,
                          f: Faults, writeOk: bool, lprExit: int)
  {
    if markerType == "AREA" then AreaThrows(conf, operatore, reparto, numeroInv, f)
    else if markerType == "STAMPA" then
      var plan := StampaPlan(conf, counts, printers, operatore, reparto, numeroInv, QtaAsInt(qta), f);
      plan.Threw? || (plan.Sends? && writeOk && lprExit == 0 && f.markThrows)
    else false
  }

  /** Processing throws only when one of the statements it reaches throws. */
  lemma ProcessThrowsOnlyOnFault(conf: ConfigOperatore.ConfTable, counts: Conteggi.CountTable, printers: seq<Stampanti.PrinterRow>,
                                 operatore: string, reparto: int, numeroInv: int, markerType: string, qta: Option<int>,
                                 f: Faults, writeOk: bool, lprExit: int)
    ensures NoFaults(f) ==> !ProcessThrows(conf, counts, printers, operatore, reparto, numeroInv, markerType, qta, f, writeOk, lprExit)
    ensures markerType != "AREA" && markerType != "STAMPA" ==>
      !ProcessThrows(conf, counts, printers, operatore, reparto, numeroInv, markerType, qta, f, writeOk, lprExit)
  {
    if markerType == "STAMPA" {
      StampaPlanSends(conf, counts, printers, operatore, reparto, numeroInv, QtaAsInt(qta), f);
    }
  }

  /** The MarkerProcessor and the repositories it was built with. */
  class MarkerProcessor {
    const confRepo: ConfigOperatore.ConfigOperatoreRepository
    const conteggiRepo: Conteggi.ConteggiRepository
    const stampantiRepo: Stampanti.StampantiRepository
    const spool: Printer.PrintSpool

    constructor(confRepo: ConfigOperatore.ConfigOperatoreRepository, conteggiRepo: Conteggi.ConteggiRepository,
                stampantiRepo: Stampanti.StampantiRepository, spool: Printer.PrintSpool)
      ensures this.confRepo == confRepo && this.conteggiRepo == conteggiRepo
      ensures this.stampantiRepo == stampantiRepo && this.spool == spool
    {
      this.confRepo := confRepo;
      this.conteggiRepo := conteggiRepo;
      this.stampantiRepo := stampantiRepo;
      this.spool := spool;
    }

    /**
     * process: an "AREA" marker sets the operator's area, a "STAMPA" marker
     * prints a listing, both reading the quantity cast to int; any other kind
     * does nothing. `now` is the clock as a date, `epoch` as seconds; `writeOk`
     * and `lprExit` are the outcome of writing the temporary file and of lpr;
     * `f` says which statements throw. `ok` is false when process throws.
     */
    method Process(operatore: string, reparto: int, numeroInv: int, markerType: string, qta: Option<int>,
                   now: Clock.DateTime, epoch: int, writeOk: bool, lprExit: int, f: Faults) returns (ok: bool)
      requires confRepo.Valid() && conteggiRepo.Valid()
      modifies confRepo, conteggiRepo, spool
      ensures confRepo.Valid() && conteggiRepo.Valid()
      ensures ok == !ProcessThrows(old(confRepo.table), old(conteggiRepo.table), stampantiRepo.rows,
                                   operatore, reparto, numeroInv, markerType, qta, f, writeOk, lprExit)
      ensures Conteggi.KeysOf(conteggiRepo.table) == Conteggi.KeysOf(old(conteggiRepo.table))
      ensures !ok ==> conteggiRepo.table == old(conteggiRepo.table)
      ensures markerType != "AREA" && markerType != "STAMPA" ==>
        unchanged(confRepo, conteggiRepo, spool)
      ensures markerType == "AREA" ==>
        && confRepo.table == (if ok then AreaMarked(old(confRepo.table), operatore, reparto, numeroInv, QtaAsInt(qta))
                              else old(confRepo.table))
        && unchanged(conteggiRepo, spool)
      ensures markerType == "STAMPA" ==> unchanged(confRepo)
    {
      ok := true;
      if markerType == "AREA" {
        ok := HandleMarkerArea(operatore, reparto, numeroInv, QtaAsInt(qta), f);
      } else if markerType == "STAMPA" {
        var _, stampaOk := HandleMarkerStampa(operatore, reparto, numeroInv, QtaAsInt(qta), now, epoch, writeOk, lprExit, f);
        ok := stampaOk;
      }
    }

    /**
     * handleMarkerArea: update the found configuration with the new area, or
     * do nothing; a throw of either statement changes nothing.
     */
    method HandleMarkerArea(operatore: string, reparto: int, numeroInv: int, nuovaArea: int, f: Faults) returns (ok: bool)
      requires confRepo.Valid()
      modifies confRepo
      ensures confRepo.Valid()
      ensures ok == !AreaThrows(old(confRepo.table), operatore, reparto, numeroInv, f)
      ensures confRepo.table == if ok then AreaMarked(old(confRepo.table), operatore, reparto, numeroInv, nuovaArea)
                                else old(confRepo.table)
    {
      if f.findThrows {
        return false;
      }
      var conf := ConfigOperatore.FindByKey(confRepo.table, operatore, reparto, numeroInv);
      if conf.Some? {
        if f.updateThrows {
          return false;
        }
        confRepo.Update(conf.value.idConf, conf.value.nome, nuovaArea, conf.value.ipStampante);
      }
      return true;
    }

    /**
     * handleMarkerStampa: returns without printing when there is no
     * configuration, nothing to print or no printer, and throws where a query
     * does; otherwise sends the listing and, only if the print succeeded,
     * runs markAsPrinted on the printed rows' ID_CONTEGGIO values, which the
     * statement compares with REPARTO. A throw of markAsPrinted comes after
     * the job was queued and leaves CONTEGGI as it was.
     */
    method HandleMarkerStampa(operatore: string, reparto: int, numeroInv: int, tipo: int,
                              now: Clock.DateTime, epoch: int, writeOk: bool, lprExit: int, f: Faults)
      returns (printed: bool, ok: bool)
      requires conteggiRepo.Valid()
      modifies conteggiRepo, spool
      ensures conteggiRepo.Valid()
      ensures Conteggi.KeysOf(conteggiRepo.table) == Conteggi.KeysOf(old(conteggiRepo.table))
      ensures var plan := StampaPlan(confRepo.table, old(conteggiRepo.table), stampantiRepo.rows,
                                     operatore, reparto, numeroInv, tipo, f);
        && (!plan.Sends? ==> !printed && ok == !plan.Threw? && unchanged(conteggiRepo, spool))
        && (plan.Sends? ==>
              && (printed <==> writeOk && lprExit == 0)
              && ok == !(printed && f.markThrows)
              && spool.jobs == old(spool.jobs) +
                   (if printed then [Printer.Job(plan.queue, plan.c.ipStampante,
                                                 Printer.FileContent(StampaLines(plan.rows, operatore, plan.c.idArea, now)))]
                    else [])
              && spool.files == (if writeOk then old(spool.files) - {Printer.TempFileName(spool.tempDir, plan.queue, epoch)}
                                 else old(spool.files))
              && conteggiRepo.table == (if ok && printed then Conteggi.MarkRepartiPrinted(old(conteggiRepo.table), Conteggi.IdsOf(plan.rows))
                                        else old(conteggiRepo.table)))
    {
      if f.findThrows {
        return false, false;
      }
      var conf := ConfigOperatore.FindByKey(confRepo.table, operatore, reparto, numeroInv);
      if conf.None? {
        return false, true;
      }
      if f.selectThrows {
        return false, false;
      }
      var area := conf.value.idArea;
      var rows := Conteggi.GetForPrint(conteggiRepo.table, tipo, Some(area));
      if rows == [] {
        return false, true;
      }
      if f.printerThrows {
        return false, false;
      }
      var printerIp := conf.value.ipStampante;
      var printer := Stampanti.FindByIp(stampantiRepo.rows, printerIp);
      if printer.None? {
        return false, true;
      }
      printed, ok := PrintSelection(operatore, conf.value, rows, now, epoch, writeOk, lprExit, f.markThrows);
    }

    /** formatInventoryPrint of the selected rows, then the listing goes to the configured printer. */
    method PrintSelection(operatore: string, c: ConfigOperatore.ConfRow, rows: seq<Conteggi.CountRow>,
                          now: Clock.DateTime, epoch: int, writeOk: bool, lprExit: int, markThrows: bool)
      returns (printed: bool, ok: bool)
      requires conteggiRepo.Valid()
      requires rows != []
      requires Stampanti.FindByIp(stampantiRepo.rows, c.ipStampante).Some?
      modifies conteggiRepo, spool
      ensures conteggiRepo.Valid()
      ensures Conteggi.KeysOf(conteggiRepo.table) == Conteggi.KeysOf(old(conteggiRepo.table))
      ensures var queue := Stampanti.FindByIp(stampantiRepo.rows, c.ipStampante).value.codaCups;
        && (printed <==> writeOk && lprExit == 0)
        && ok == !(printed && markThrows)
        && spool.jobs == old(spool.jobs) +
             (if printed then [Printer.Job(queue, c.ipStampante, Printer.FileContent(StampaLines(rows, operatore, c.idArea, now)))] else [])
        && spool.files == (if writeOk then old(spool.files) - {Printer.TempFileName(spool.tempDir, queue, epoch)} else old(spool.files))
        && conteggiRepo.table == (if ok && printed then Conteggi.MarkRepartiPrinted(old(conteggiRepo.table), Conteggi.IdsOf(rows))
                                  else old(conteggiRepo.table))
    {
      var printLines := Printer.FormatInventoryPrint(Items(rows), StampaMetadata(operatore, c.idArea), Clock.Stamp(now));
      assert printLines == StampaLines(rows, operatore, c.idArea, now);
      printed, ok := SendListing(c.ipStampante, printLines, rows, epoch, writeOk, lprExit, markThrows);
    }

    /**
     * The second half of handleMarkerStampa: send the formatted listing to
     * the printer at `ip` and, only on success, mark the listed rows with
     * markAsPrinted, which may throw.
     */
    method SendListing(ip: string, lines: seq<string>, rows: seq<Conteggi.CountRow>,
                       epoch: int, writeOk: bool, lprExit: int, markThrows: bool) returns (printed: bool, ok: bool)
      requires conteggiRepo.Valid()
      requires rows != []
      requires Stampanti.FindByIp(stampantiRepo.rows, ip).Some?
      modifies conteggiRepo, spool
      ensures conteggiRepo.Valid()
      ensures Conteggi.KeysOf(conteggiRepo.table) == Conteggi.KeysOf(old(conteggiRepo.table))
      ensures var queue := Stampanti.FindByIp(stampantiRepo.rows, ip).value.codaCups;
        && (printed <==> writeOk && lprExit == 0)
        && ok == !(printed && markThrows)
        && spool.jobs == old(spool.jobs) + (if printed then [Printer.Job(queue, ip, Printer.FileContent(lines))] else [])
        && spool.files == (if writeOk then old(spool.files) - {Printer.TempFileName(spool.tempDir, queue, epoch)} else old(spool.files))
        && conteggiRepo.table == (if ok && printed then Conteggi.MarkRepartiPrinted(old(conteggiRepo.table), Conteggi.IdsOf(rows))
                                  else old(conteggiRepo.table))
    {
      printed := spool.PrintToQueue(stampantiRepo.rows, ip, lines, epoch, writeOk, lprExit);
      ok := true;
      if printed {
        if markThrows {
          return printed, false;
        }
        conteggiRepo.MarkAsPrinted(Conteggi.IdsOf(rows));
      }
    }
  }

  /** With the configuration, a non-empty selection and the printer found and no query throwing, the listing is sent. */
  lemma StampaPlanSendsWith(conf: ConfigOperatore.ConfTable, counts: Conteggi.CountTable, printers: seq<Stampanti.PrinterRow>,
                            operatore: string, reparto: int, numeroInv: int, tipo: int, f: Faults,
                            c: ConfigOperatore.ConfRow, p: Stampanti.PrinterRow)
    requires !f.findThrows && !f.selectThrows && !f.printerThrows
    requires ConfigOperatore.FindByKey(conf, operatore, reparto, numeroInv) == Some(c)
    requires StampaSelection(counts, c, tipo) != []
    requires Stampanti.FindByIp(printers, c.ipStampante) == Some(p)
    ensures StampaPlan(conf, counts, printers, operatore, reparto, numeroInv, tipo, f) ==
      Sends(c, StampaSelection(counts, c, tipo), p.codaCups)
  {
  }

  /**
   * A STAMPA that sends its listing and marks without a throw can leave a
   * row it printed unprinted: the only configured operator has a row with
   * ID_CONTEGGIO 1 in REPARTO 10, the marking compares 1 with REPARTO, and
   * the row keeps STAMPATO = 0, so the next STAMPA prints it again.
   */
  lemma StampaAsWrittenLeavesPrintedRowUnprinted()
    ensures var row := Conteggi.CountRow(1, Conteggi.NaturalKey(10, 3, "P", "A", "", 0, 0), 5, "OP1", Some("OP1"),
                                         "2025-01-28 10:00:00", 7, 0);
      var counts := Conteggi.CountTable([row], 2);
      var conf := ConfigOperatore.ConfTable([ConfigOperatore.ConfRow(1, "OP1", None, 10, 3, 7, "10.0.0.5")], 2);
      var printers := [Stampanti.PrinterRow("10.0.0.5", "Q1")];
      var plan := StampaPlan(conf, counts, printers, "OP1", 10, 3, 3, Faults(false, false, false, false, false));
      && plan == Sends(conf.rows[0], [row], "Q1")
      && Conteggi.MarkRepartiPrinted(counts, Conteggi.IdsOf(plan.rows)).rows == [row]
  {
    var row := Conteggi.CountRow(1, Conteggi.NaturalKey(10, 3, "P", "A", "", 0, 0), 5, "OP1", Some("OP1"),
                                 "2025-01-28 10:00:00", 7, 0);
    var counts := Conteggi.CountTable([row], 2);
    var c := ConfigOperatore.ConfRow(1, "OP1", None, 10, 3, 7, "10.0.0.5");
    var conf := ConfigOperatore.ConfTable([c], 2);
    var printers := [Stampanti.PrinterRow("10.0.0.5", "Q1")];
    assert ConfigOperatore.FindByKey(conf, "OP1", 10, 3) == Some(c);
    Conteggi.SelectAllSingle(counts, row, Some(c.idArea));
    assert StampaSelection(counts, c, 3) == [row];
    assert Stampanti.FindByIp(printers, "10.0.0.5") == Some(printers[0]);
    StampaPlanSendsWith(conf, counts, printers, "OP1", 10, 3, 3, Faults(false, false, false, false, false), c, printers[0]);
    assert Conteggi.IdsOf([row]) == [1];
    var marked := Conteggi.MarkRepartiPrinted(counts, [1]);
    assert marked.rows[0] == row;
  }

  // ---------------------------------------------------------------------
  // Importer
  // ---------------------------------------------------------------------

  /** The daemon's importer wrapper over the CONF_OPERATORE table. */
  class ImporterWrapper {
    const confRepo: ConfigOperatore.ConfigOperatoreRepository

    constructor(confRepo: ConfigOperatore.ConfigOperatoreRepository)
      ensures this.confRepo == confRepo
    {
      this.confRepo := confRepo;
    }

    /**
     * process: with an area, UPDATE ... SET ID_AREA WHERE the triple
     * matches; without one, nothing at all.
     */
    method Process(operatore: string, reparto: int, numInv: int, area: Option<int>)
      requires confRepo.Valid()
      modifies confRepo
      ensures confRepo.Valid()
      ensures area.None? ==> confRepo.table == old(confRepo.table)
      ensures area.Some? ==> confRepo.table == ConfigOperatore.AreaSetByTriple(old(confRepo.table), operatore, reparto, numInv, area.value)
    {
      if area.Some? {
        confRepo.SetAreaByTriple(operatore, reparto, numInv, area.value);
      }
    }
  }
}
