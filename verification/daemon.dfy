/**
 * The long-running import daemon: a loop that stops after a runtime cap,
 * takes a non-blocking flock before each cycle, fetches up to 1000 D01.INVC
 * rows, and turns each into an AREA update, a STAMPA report, an imported or
 * a skipped row.
 *
 * The clock, the flock outcome, the rows DB2 returns and the failures of
 * each statement are inputs; CONF_OPERATORE and the report directory are
 * the state a cycle changes. CONTEGGI and TIPO_STAMPA are only read.
 */
module Daemon {
  import opened Util
  import opened Text
  import Clock
  import ConfigOperatore
  import Conteggi
  import Stampa
  import Printer
  import Importer

  /** MAX_RECORDS_PER_ITERATION: the LIMIT of the D01.INVC query. */
  const MaxRecords := 1000

  /** MAX_RUNTIME: seconds after start past which the loop stops. */
  const MaxRuntime := 3600

  /** The MARKER value that makes a row a command. */
  const MarkerTag := "ZZZ"

  // ---------------------------------------------------------------------
  // Fetching and trimming
  // ---------------------------------------------------------------------

  /** A D01.INVC row as DB2 returns it, NULL columns as None (the columns the daemon reads). */
  datatype InvcRow = InvcRow(
    reparto: int, numeroInventario: int,
    preCodice: Option<string>, codiceArt: Option<string>,
    marker: Option<string>, operCreaz: Option<string>, area: Option<int>)

  /** A fetched row once PRE_CODICE, CODICE_ART and OPER_CREAZ have been trimmed. */
  datatype Record = Record(
    reparto: int, numeroInventario: int,
    preCodice: string, codiceArt: string,
    marker: Option<string>, operCreaz: string, area: Option<int>)

  /** trim($row[k] ?? '') on the three key columns; the rest is copied. */
  function TrimKeys(row: InvcRow): Record
  {
    Record(row.reparto, row.numeroInventario,
           Trim(Printer.OrEmpty(row.preCodice)), Trim(Printer.OrEmpty(row.codiceArt)),
           row.marker, Trim(Printer.OrEmpty(row.operCreaz)), row.area)
  }

  /** The trimmed columns carry no padding left: trimming them again changes nothing. */
  lemma TrimKeysTrimmed(row: InvcRow)
    ensures var r := TrimKeys(row);
      Trim(r.preCodice) == r.preCodice && Trim(r.codiceArt) == r.codiceArt && Trim(r.operCreaz) == r.operCreaz
  {
    TrimIdempotent(Printer.OrEmpty(row.preCodice));
    TrimIdempotent(Printer.OrEmpty(row.codiceArt));
    TrimIdempotent(Printer.OrEmpty(row.operCreaz));
  }

  /** What a cycle works on: the first 1000 rows, trimmed, in the order DB2 gave them. */
  function Fetched(source: seq<InvcRow>): (records: seq<Record>)
    ensures |records| <= MaxRecords && |records| <= |source|
    ensures forall i :: 0 <= i < |records| ==> records[i] == TrimKeys(source[i])
  {
    var rows := Take(source, MaxRecords);
    seq(|rows|, i requires 0 <= i < |rows| => TrimKeys(rows[i]))
  }

  /** The fetch loop: reads the limited result set row by row, trimming the key columns. */
  method FetchRecords(source: seq<InvcRow>) returns (records: seq<Record>)
    ensures records == Fetched(source)
  {
    var rows := Take(source, MaxRecords);
    records := [];
    var i := 0;
    while i < |rows|
      invariant 0 <= i <= |rows|
      invariant |records| == i
      invariant forall k :: 0 <= k < i ==> records[k] == TrimKeys(rows[k])
    {
      records := records + [TrimKeys(rows[i])];
      i := i + 1;
    }
    assert forall k :: 0 <= k < |records| ==> records[k] == Fetched(source)[k];
  }

  // ---------------------------------------------------------------------
  // Classification
  // ---------------------------------------------------------------------

  datatype Kind = AreaMarker | StampaMarker | OtherMarker | Ordinary

  /** trim($row['MARKER'] ?? '') === 'ZZZ' */
  predicate IsZzz(r: Record)
  {
    Trim(Printer.OrEmpty(r.marker)) == MarkerTag
  }

  /** A ZZZ row is a command named by its trimmed PRE_CODICE; any other row is an inventory row. */
  function Classify(r: Record): (k: Kind)
    ensures k == Ordinary <==> !IsZzz(r)
    ensures k == AreaMarker <==> IsZzz(r) && Trim(r.preCodice) == "AREA"
    ensures k == StampaMarker <==> IsZzz(r) && Trim(r.preCodice) == "STAMPA"
  {
    if !IsZzz(r) then Ordinary
    else if Trim(r.preCodice) == "AREA" then AreaMarker
    else if Trim(r.preCodice) == "STAMPA" then StampaMarker
    else OtherMarker
  }

  /** A fetched row is classified by its key columns as fetched: trimming them again changes nothing. */
  lemma ClassifyFetched(row: InvcRow)
    ensures var r := TrimKeys(row);
      && (Classify(r) == AreaMarker <==> IsZzz(r) && Trim(Printer.OrEmpty(row.preCodice)) == "AREA")
      && (Classify(r) == StampaMarker <==> IsZzz(r) && Trim(Printer.OrEmpty(row.preCodice)) == "STAMPA")
  {
    TrimKeysTrimmed(row);
  }

  // ---------------------------------------------------------------------
  // The operator map
  // ---------------------------------------------------------------------

  /** "REP:NUMERO:OPER" */
  function OperatorKey(reparto: int, numInv: int, operatore: string): string
  {
    IntToString(reparto) + ":" + IntToString(numInv) + ":" + operatore
  }

  /** Two keys are equal only for the same department, inventory and operator. */
  lemma OperatorKeyInjective(r1: int, n1: int, o1: string, r2: int, n2: int, o2: string)
    requires OperatorKey(r1, n1, o1) == OperatorKey(r2, n2, o2)
    ensures r1 == r2 && n1 == n2 && o1 == o2
  {
    NoColonInInt(r1);
    NoColonInInt(r2);
    NoColonInInt(n1);
    NoColonInInt(n2);
    assert OperatorKey(r1, n1, o1) == IntToString(r1) + ":" + (IntToString(n1) + ":" + o1);
    assert OperatorKey(r2, n2, o2) == IntToString(r2) + ":" + (IntToString(n2) + ":" + o2);
    ColonSplit(IntToString(r1), IntToString(n1) + ":" + o1, IntToString(r2), IntToString(n2) + ":" + o2);
    ColonSplit(IntToString(n1), o1, IntToString(n2), o2);
    IntToStringInjective(r1, r2);
    IntToStringInjective(n1, n2);
  }

  /** The key a configuration is filed under: its department, inventory and trimmed CODICE. */
  function ConfKey(c: ConfigOperatore.ConfRow): string
  {
    OperatorKey(c.idRep, c.idInventario, Trim(c.codice))
  }

  /** Every element filed under its key, a later element replacing an earlier one with the same key. */
  function LastByKey<T>(s: seq<T>, key: T -> string): map<string, T>
  {
    if s == [] then map[]
    else LastByKey(s[..|s| - 1], key)[key(s[|s| - 1]) := s[|s| - 1]]
  }

  /** The keys are exactly the elements' keys. */
  lemma {:induction false} LastByKeyKeys<T>(s: seq<T>, key: T -> string, k: string)
    ensures k in LastByKey(s, key) <==> exists i :: 0 <= i < |s| && key(s[i]) == k
  {
    if s != [] {
      var n := |s| - 1;
      var init := s[..n];
      LastByKeyKeys(init, key, k);
      assert LastByKey(s, key) == LastByKey(init, key)[key(s[n]) := s[n]];
      if k in LastByKey(init, key) {
        var i :| 0 <= i < |init| && key(init[i]) == k;
        assert s[i] == init[i];
      }
      if exists i :: 0 <= i < |s| && key(s[i]) == k {
        var i :| 0 <= i < |s| && key(s[i]) == k;
        if i < n {
          assert init[i] == s[i];
        }
      }
    }
  }

  /** Each key maps to the last element filed under it. */
  lemma {:induction false} LastByKeyLastWins<T>(s: seq<T>, key: T -> string, k: string)
    requires k in LastByKey(s, key)
    ensures exists i :: 0 <= i < |s| && s[i] == LastByKey(s, key)[k] && key(s[i]) == k && forall j :: i < j < |s| ==> key(s[j]) != k
  {
    var n := |s| - 1;
    var init := s[..n];
    assert LastByKey(s, key) == LastByKey(init, key)[key(s[n]) := s[n]];
    if key(s[n]) == k {
      assert s[n] == LastByKey(s, key)[k];
    } else {
      LastByKeyLastWins(init, key, k);
      var i :| 0 <= i < |init| && init[i] == LastByKey(init, key)[k] && key(init[i]) == k &&
        forall j :: i < j < |init| ==> key(init[j]) != k;
      assert s[i] == init[i];
      forall j | i < j < |s| ensures key(s[j]) != k {
        if j < n {
          assert s[j] == init[j];
        }
      }
    }
  }

  /** $operatoriMap: the configurations by "REP:NUMERO:CODICE". */
  function OperatorMap(confs: seq<ConfigOperatore.ConfRow>): map<string, ConfigOperatore.ConfRow>
  {
    LastByKey(confs, ConfKey)
  }

  /**
   * An inventory row is authorised exactly when some configuration has its
   * department, its inventory and, once trimmed, its operator code.
   */
  lemma AuthorisedIffConfigured(confs: seq<ConfigOperatore.ConfRow>, r: Record)
    ensures OperatorKey(r.reparto, r.numeroInventario, r.operCreaz) in OperatorMap(confs) <==>
      exists c :: c in confs && c.idRep == r.reparto && c.idInventario == r.numeroInventario && Trim(c.codice) == r.operCreaz
  {
    var k := OperatorKey(r.reparto, r.numeroInventario, r.operCreaz);
    LastByKeyKeys(confs, ConfKey, k);
    if k in OperatorMap(confs) {
      var i :| 0 <= i < |confs| && ConfKey(confs[i]) == k;
      OperatorKeyInjective(confs[i].idRep, confs[i].idInventario, Trim(confs[i].codice), r.reparto, r.numeroInventario, r.operCreaz);
    }
    if exists c :: c in confs && c.idRep == r.reparto && c.idInventario == r.numeroInventario && Trim(c.codice) == r.operCreaz {
      var c :| c in confs && c.idRep == r.reparto && c.idInventario == r.numeroInventario && Trim(c.codice) == r.operCreaz;
      var i :| 0 <= i < |confs| && confs[i] == c;
      assert ConfKey(confs[i]) == k;
    }
  }

  /** The foreach over the loaded configurations. */
  method BuildOperatorMap(confs: seq<ConfigOperatore.ConfRow>) returns (m: map<string, ConfigOperatore.ConfRow>)
    ensures m == OperatorMap(confs)
  {
    m := map[];
    var i := 0;
    while i < |confs|
      invariant 0 <= i <= |confs|
      invariant m == LastByKey(confs[..i], ConfKey)
    {
      PrefixStep(confs, i);
      m := m[ConfKey(confs[i]) := confs[i]];
      i := i + 1;
    }
    assert confs[..|confs|] == confs;
  }

  // ---------------------------------------------------------------------
  // One record
  // ---------------------------------------------------------------------

  datatype Counters = Counters(imported: nat, skipped: nat, markers: nat)

  /** What every record of a cycle sees and does not change. */
  datatype CycleContext = CycleContext(
    counts: Conteggi.CountTable,
    tipi: map<string, int>,
    opMap: map<string, ConfigOperatore.ConfRow>,
    basePath: string)

  /**
   * The outcome of the statements a record runs: whether the area UPDATE
   * throws (it runs only when AREA is not null), whether the TIPO_STAMPA query throws, whether the area and the
   * selection queries fail (each caught inside StampaManager), whether the
   * report file opens, and the clock when the report is named.
   */
  datatype RecordEnv = RecordEnv(
    updateThrows: bool, validateThrows: bool, areaQueryFails: bool,
    selectFails: bool, openOk: bool, now: Clock.DateTime)

  /** The tables a cycle changes, and its counters. */
  datatype CycleState = CycleState(conf: ConfigOperatore.ConfTable, files: map<string, string>, counters: Counters)

  /** An inventory row whose key is in the operator map. */
  predicate Authorised(opMap: map<string, ConfigOperatore.ConfRow>, r: Record)
  {
    Classify(r) == Ordinary && OperatorKey(r.reparto, r.numeroInventario, r.operCreaz) in opMap
  }

  /** An inventory row whose key is not in the operator map. */
  predicate Unauthorised(opMap: map<string, ConfigOperatore.ConfRow>, r: Record)
  {
    Classify(r) == Ordinary && OperatorKey(r.reparto, r.numeroInventario, r.operCreaz) !in opMap
  }

  /** Importer::process with the row's AREA: nothing when it is null. */
  function AreaUpdate(conf: ConfigOperatore.ConfTable, r: Record): ConfigOperatore.ConfTable
  {
    if r.area.Some? then ConfigOperatore.AreaSetByTriple(conf, r.operCreaz, r.reparto, r.numeroInventario, r.area.value)
    else conf
  }

  /**
   * A STAMPA row: the type code must be in TIPO_STAMPA and the operator's
   * current area must not read as -1; then StampaReport.
   */
  function StampaStep(ctx: CycleContext, s: CycleState, r: Record, e: RecordEnv): CycleState
  {
    var code := Trim(r.codiceArt);
    if e.validateThrows || code !in ctx.tipi then s
    else
      var area := Stampa.GetAreaCorrente(s.conf, r.operCreaz, r.reparto, r.numeroInventario, e.areaQueryFails);
      if area == -1 then s else StampaReport(ctx, s, r, e, code, area)
  }

  /**
   * A validated STAMPA row with its area: an empty selection counts the
   * marker; a non-empty one writes the report and counts it if the file opened.
   */
  function StampaReport(ctx: CycleContext, s: CycleState, r: Record, e: RecordEnv, code: string, area: int): CycleState
    requires code in ctx.tipi
  {
    var righe := Stampa.SelectRighePerTipo(ctx.counts, code, r.operCreaz, r.reparto, r.numeroInventario, area, e.selectFails);
    if |righe| == 0 then s.(counters := s.counters.(markers := s.counters.markers + 1))
    else if !e.openOk then s
    else
      var path := Stampa.ReportPath(ctx.basePath, r.operCreaz, r.reparto, r.numeroInventario, e.now);
      var text := Stampa.ReportText(righe, r.operCreaz, r.reparto, r.numeroInventario, ctx.tipi[code], e.now);
      CycleState(s.conf, s.files[path := text], s.counters.(markers := s.counters.markers + 1))
  }

  /** The body of the foreach for one record. */
  function Step(ctx: CycleContext, s: CycleState, r: Record, e: RecordEnv): CycleState
  {
    match Classify(r)
    case Ordinary =>
      if OperatorKey(r.reparto, r.numeroInventario, r.operCreaz) in ctx.opMap
      then s.(counters := s.counters.(imported := s.counters.imported + 1))
      else s.(counters := s.counters.(skipped := s.counters.skipped + 1))
    case AreaMarker =>
      if e.updateThrows && r.area.Some? then s
      else CycleState(AreaUpdate(s.conf, r), s.files, s.counters.(markers := s.counters.markers + 1))
    case StampaMarker => StampaStep(ctx, s, r, e)
    case OtherMarker => s
  }

  /**
   * What one record does to the counters and the tables: an inventory row
   * adds one to imported or skipped and writes nothing; a ZZZ row of any
   * other kind than AREA or STAMPA does nothing; a marker adds at most one.
   */
  lemma StepEffect(ctx: CycleContext, s: CycleState, r: Record, e: RecordEnv)
    ensures var t := Step(ctx, s, r, e);
      && (Classify(r) == Ordinary ==>
            t.conf == s.conf && t.files == s.files && t.counters.markers == s.counters.markers
            && (Authorised(ctx.opMap, r) ==> t.counters == s.counters.(imported := s.counters.imported + 1))
            && (Unauthorised(ctx.opMap, r) ==> t.counters == s.counters.(skipped := s.counters.skipped + 1)))
      && (Classify(r) == OtherMarker ==> t == s)
      && (Classify(r) != Ordinary ==>
            t.counters.imported == s.counters.imported && t.counters.skipped == s.counters.skipped
            && s.counters.markers <= t.counters.markers <= s.counters.markers + 1)
      && (Classify(r) == AreaMarker ==> (t.counters.markers == s.counters.markers + 1 <==> !(e.updateThrows && r.area.Some?)))
  {
  }

  /**
   * The STAMPA counting rule: an unknown type code or an area of -1 leaves
   * everything as it was; otherwise the marker counts exactly when the
   * selection is empty or the report file was written.
   */
  lemma StampaCounting(ctx: CycleContext, s: CycleState, r: Record, e: RecordEnv)
    requires Classify(r) == StampaMarker
    ensures var t := Step(ctx, s, r, e);
      var code := Trim(r.codiceArt);
      && (e.validateThrows || code !in ctx.tipi ==> t == s)
      && (!e.validateThrows && code in ctx.tipi &&
          Stampa.GetAreaCorrente(s.conf, r.operCreaz, r.reparto, r.numeroInventario, e.areaQueryFails) == -1 ==>
            t == s)
      && t.conf == s.conf
      && (!e.validateThrows && code in ctx.tipi &&
          Stampa.GetAreaCorrente(s.conf, r.operCreaz, r.reparto, r.numeroInventario, e.areaQueryFails) != -1 ==>
            var righe := Stampa.SelectRighePerTipo(ctx.counts, code, r.operCreaz, r.reparto, r.numeroInventario,
                           Stampa.GetAreaCorrente(s.conf, r.operCreaz, r.reparto, r.numeroInventario, e.areaQueryFails), e.selectFails);
            (t.counters.markers == s.counters.markers + 1 <==> righe == [] || e.openOk))
  {
  }

  // ---------------------------------------------------------------------
  // The whole cycle
  // ---------------------------------------------------------------------

  /** The foreach over the fetched records, as a fold from the last record back. */
  function Cycle(ctx: CycleContext, s: CycleState, records: seq<Record>, envs: seq<RecordEnv>): CycleState
    requires |envs| == |records|
  {
    if records == [] then s
    else Step(ctx, Cycle(ctx, s, records[..|records| - 1], envs[..|envs| - 1]), records[|records| - 1], envs[|envs| - 1])
  }

  /**
   * The counters of a cycle: imported counts the authorised inventory rows,
   * skipped the others, and markers at most the ZZZ rows.
   */
  lemma {:induction false} CycleCounters(ctx: CycleContext, s: CycleState, records: seq<Record>, envs: seq<RecordEnv>)
    requires |envs| == |records|
    ensures var t := Cycle(ctx, s, records, envs);
      && t.counters.imported == s.counters.imported + Count(records, (r: Record) => Authorised(ctx.opMap, r))
      && t.counters.skipped == s.counters.skipped + Count(records, (r: Record) => Unauthorised(ctx.opMap, r))
      && t.counters.markers <= s.counters.markers + Count(records, IsZzz)
  {
    if records != [] {
      var n := |records| - 1;
      CycleCounters(ctx, s, records[..n], envs[..n]);
      StepEffect(ctx, Cycle(ctx, s, records[..n], envs[..n]), records[n], envs[n]);
      InitLast(records);
      CountSnoc(records[..n], records[n], (r: Record) => Authorised(ctx.opMap, r));
      CountSnoc(records[..n], records[n], (r: Record) => Unauthorised(ctx.opMap, r));
      CountSnoc(records[..n], records[n], IsZzz);
    }
  }

  /** Each inventory row lands in exactly one of imported and skipped. */
  lemma {:induction false} OrdinaryRowsCountedOnce(ctx: CycleContext, records: seq<Record>)
    ensures Count(records, (r: Record) => Authorised(ctx.opMap, r)) + Count(records, (r: Record) => Unauthorised(ctx.opMap, r))
      == Count(records, (r: Record) => Classify(r) == Ordinary)
  {
    if records != [] {
      var n := |records| - 1;
      OrdinaryRowsCountedOnce(ctx, records[..n]);
    }
  }

  /** A cycle of inventory rows and unknown markers writes nothing to either table. */
  lemma {:induction false} InventoryRowsWriteNothing(ctx: CycleContext, s: CycleState, records: seq<Record>, envs: seq<RecordEnv>)
    requires |envs| == |records|
    requires forall i :: 0 <= i < |records| ==> Classify(records[i]) == Ordinary || Classify(records[i]) == OtherMarker
    ensures Cycle(ctx, s, records, envs).conf == s.conf && Cycle(ctx, s, records, envs).files == s.files
  {
    if records != [] {
      var n := |records| - 1;
      InventoryRowsWriteNothing(ctx, s, records[..n], envs[..n]);
      StepEffect(ctx, Cycle(ctx, s, records[..n], envs[..n]), records[n], envs[n]);
    }
  }

  // ---------------------------------------------------------------------
  // The daemon
  // ---------------------------------------------------------------------

  /** The inputs of one pass of the loop: the clock, the flock outcome and what DB2 returns. */
  datatype IterationEnv = IterationEnv(now: int, lockOk: bool, fetchThrows: bool, source: seq<InvcRow>, envs: seq<RecordEnv>)

  predicate Exceeded(start: int, now: int)
  {
    now - start > MaxRuntime
  }

  /** How a pass ends the daemon: 0 past the runtime cap, 255 when the held cycle throws, or it goes on. */
  function IterationExit(start: int, env: IterationEnv): Option<int>
  {
    if Exceeded(start, env.now) then Some(0)
    else if !env.lockOk then None
    else if env.fetchThrows then Some(255)
    else None
  }

  /** The daemon's exit code over a sequence of passes, or None if it is still running after them. */
  function DaemonExit(start: int, iters: seq<IterationEnv>): Option<int>
  {
    if iters == [] then None
    else if IterationExit(start, iters[0]).Some? then IterationExit(start, iters[0])
    else DaemonExit(start, iters[1..])
  }

  /**
   * The daemon ends with 0 only at a pass whose clock is past the cap, and
   * with 255 only at a pass that held the lock.
   */
  lemma {:induction false} DaemonExitReasons(start: int, iters: seq<IterationEnv>)
    ensures DaemonExit(start, iters) == Some(0) ==> exists k :: 0 <= k < |iters| && Exceeded(start, iters[k].now)
    ensures DaemonExit(start, iters) == Some(255) ==>
      exists k :: 0 <= k < |iters| && !Exceeded(start, iters[k].now) && iters[k].lockOk && iters[k].fetchThrows
    ensures DaemonExit(start, iters).Some? ==> DaemonExit(start, iters) == Some(0) || DaemonExit(start, iters) == Some(255)
  {
    if iters != [] && IterationExit(start, iters[0]).None? {
      DaemonExitReasons(start, iters[1..]);
      if DaemonExit(start, iters) == Some(0) {
        var k :| 0 <= k < |iters[1..]| && Exceeded(start, iters[1..][k].now);
        assert iters[k + 1] == iters[1..][k];
      }
      if DaemonExit(start, iters) == Some(255) {
        var k :| 0 <= k < |iters[1..]| && !Exceeded(start, iters[1..][k].now) && iters[1..][k].lockOk && iters[1..][k].fetchThrows;
        assert iters[k + 1] == iters[1..][k];
      }
    }
  }

  class Daemon {
    const importer: Importer.ImporterWrapper
    const reports: Stampa.ReportDir
    /** Whether the daemon holds the flock on LOCK_FILE. */
    var lockHeld: bool
    var iteration: nat
    /** The counters each completed cycle logged, oldest first. */
    var log: seq<Counters>

    constructor(importer: Importer.ImporterWrapper, reports: Stampa.ReportDir)
      ensures this.importer == importer && this.reports == reports
      ensures !lockHeld && iteration == 0 && log == []
    {
      this.importer := importer;
      this.reports := reports;
      lockHeld := false;
      iteration := 0;
      log := [];
    }

    /** The body of the foreach for one record, on the live tables. */
    method ProcessRecord(ctx: CycleContext, counters: Counters, r: Record, e: RecordEnv) returns (next: Counters)
      requires importer.confRepo.Valid()
      modifies importer.confRepo, reports
      ensures importer.confRepo.Valid()
      ensures CycleState(importer.confRepo.table, reports.files, next)
        == Step(ctx, CycleState(old(importer.confRepo.table), old(reports.files), counters), r, e)
    {
      var kind := Classify(r);
      if kind == Ordinary {
        if OperatorKey(r.reparto, r.numeroInventario, r.operCreaz) in ctx.opMap {
          importer.Process(r.operCreaz, r.reparto, r.numeroInventario, None);
          next := counters.(imported := counters.imported + 1);
        } else {
          next := counters.(skipped := counters.skipped + 1);
        }
      } else if kind == AreaMarker {
        if e.updateThrows && r.area.Some? {
          next := counters;
        } else {
          importer.Process(r.operCreaz, r.reparto, r.numeroInventario, r.area);
          next := counters.(markers := counters.markers + 1);
        }
      } else if kind == StampaMarker {
        next := ProcessStampa(ctx, counters, r, e);
      } else {
        next := counters;
      }
    }

    /** The STAMPA branch: validate the code, read the area, select, write the report. */
    method ProcessStampa(ctx: CycleContext, counters: Counters, r: Record, e: RecordEnv) returns (next: Counters)
      requires Classify(r) == StampaMarker
      modifies reports
      ensures CycleState(importer.confRepo.table, reports.files, next)
        == StampaStep(ctx, CycleState(importer.confRepo.table, old(reports.files), counters), r, e)
    {
      var codiceTipo := Trim(r.codiceArt);
      if e.validateThrows || codiceTipo !in ctx.tipi {
        return counters;
      }
      var areaCorrente := Stampa.GetAreaCorrente(importer.confRepo.table, r.operCreaz, r.reparto, r.numeroInventario, e.areaQueryFails);
      if areaCorrente == -1 {
        return counters;
      }
      next := WriteReport(ctx, counters, r, e, codiceTipo, areaCorrente);
    }

    /** selectRighePerTipo, then generateTxtFile when rows were found. */
    method WriteReport(ctx: CycleContext, counters: Counters, r: Record, e: RecordEnv, codiceTipo: string, areaCorrente: int)
      returns (next: Counters)
      requires codiceTipo in ctx.tipi
      modifies reports
      ensures CycleState(importer.confRepo.table, reports.files, next)
        == StampaReport(ctx, CycleState(importer.confRepo.table, old(reports.files), counters), r, e, codiceTipo, areaCorrente)
    {
      var righe := Stampa.SelectRighePerTipo(ctx.counts, codiceTipo, r.operCreaz, r.reparto, r.numeroInventario, areaCorrente, e.selectFails);
      if |righe| == 0 {
        return counters.(markers := counters.markers + 1);
      }
      var filePath := reports.GenerateTxtFile(righe, r.operCreaz, r.reparto, r.numeroInventario, ctx.tipi[codiceTipo], ctx.basePath, e.now, e.openOk);
      if filePath != "" {
        next := counters.(markers := counters.markers + 1);
      } else {
        next := counters;
      }
    }

    /** The foreach over a cycle's records, counters starting at zero. */
    method RunCycle(ctx: CycleContext, records: seq<Record>, envs: seq<RecordEnv>) returns (counters: Counters)
      requires |envs| == |records|
      requires importer.confRepo.Valid()
      modifies importer.confRepo, reports
      ensures importer.confRepo.Valid()
      ensures CycleState(importer.confRepo.table, reports.files, counters)
        == Cycle(ctx, CycleState(old(importer.confRepo.table), old(reports.files), Counters(0, 0, 0)), records, envs)
    {
      ghost var init := CycleState(importer.confRepo.table, reports.files, Counters(0, 0, 0));
      counters := Counters(0, 0, 0);
      var i := 0;
      while i < |records|
        invariant 0 <= i <= |records|
        invariant importer.confRepo.Valid()
        invariant CycleState(importer.confRepo.table, reports.files, counters) == Cycle(ctx, init, records[..i], envs[..i])
      {
        PrefixStep(records, i);
        PrefixStep(envs, i);
        counters := ProcessRecord(ctx, counters, records[i], envs[i]);
        i := i + 1;
      }
      assert records[..|records|] == records && envs[..|envs|] == envs;
    }

    /**
     * One pass of the loop: past the runtime cap it stops before the lock;
     * without the flock it changes nothing; with it, a fetch that throws
     * releases the lock and ends the daemon with 255, and otherwise the
     * cycle runs, its counters are logged and the lock is released.
     */
    method Iteration(start: int, ctx: CycleContext, env: IterationEnv) returns (stop: Option<int>)
      requires !lockHeld && importer.confRepo.Valid()
      requires |env.envs| == |Fetched(env.source)|
      modifies this, importer.confRepo, reports
      ensures !lockHeld && importer.confRepo.Valid()
      ensures stop == IterationExit(start, env)
      ensures iteration == old(iteration) + 1
      ensures Exceeded(start, env.now) || !env.lockOk || env.fetchThrows ==>
        importer.confRepo.table == old(importer.confRepo.table) && reports.files == old(reports.files) && log == old(log)
      ensures !Exceeded(start, env.now) && env.lockOk && !env.fetchThrows ==>
        var t := Cycle(ctx, CycleState(old(importer.confRepo.table), old(reports.files), Counters(0, 0, 0)),
                       Fetched(env.source), env.envs);
        importer.confRepo.table == t.conf && reports.files == t.files && log == old(log) + [t.counters]
    {
      iteration := iteration + 1;
      if env.now - start > MaxRuntime {
        return Some(0);
      }
      if !env.lockOk {
        return None;
      }
      lockHeld := true;
      if env.fetchThrows {
        lockHeld := false;
        return Some(255);
      }
      var records := FetchRecords(env.source);
      var counters := RunCycle(ctx, records, env.envs);
      log := log + [counters];
      lockHeld := false;
      return None;
    }

    /**
     * The daemon: builds the operator map once from CONF_OPERATORE, then
     * runs passes until one ends it. Returns the exit code, or None when
     * the passes given run out first.
     */
    method Run(start: int, counts: Conteggi.CountTable, tipi: map<string, int>, basePath: string, iters: seq<IterationEnv>)
      returns (exit: Option<int>)
      requires !lockHeld && importer.confRepo.Valid()
      requires forall k :: 0 <= k < |iters| ==> |iters[k].envs| == |Fetched(iters[k].source)|
      modifies this, importer.confRepo, reports
      ensures !lockHeld && importer.confRepo.Valid()
      ensures exit == DaemonExit(start, iters)
    {
      var opMap := BuildOperatorMap(importer.confRepo.table.rows);
      var ctx := CycleContext(counts, tipi, opMap, basePath);
      var i := 0;
      while i < |iters|
        invariant 0 <= i <= |iters|
        invariant !lockHeld && importer.confRepo.Valid()
        invariant DaemonExit(start, iters) == DaemonExit(start, iters[i..])
      {
        var stop := Iteration(start, ctx, iters[i]);
        if stop.Some? {
          return stop;
        }
        assert iters[i..][1..] == iters[i + 1..];
        i := i + 1;
      }
      return None;
    }
  }
}
