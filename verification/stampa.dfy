/**
 * StampaManager: the operator's current area, the four selection codes of a
 * STAMPA marker, and the fixed-width text report written for a selection.
 * Reports are files in a directory, modelled as a map from path to content;
 * whether fopen succeeds is a parameter.
 */
module Stampa {
  import opened Util
  import opened Text
  import opened Clock
  import opened Conteggi
  import ConfigOperatore

  // ---------------------------------------------------------------------
  // getAreaCorrente
  // ---------------------------------------------------------------------

  /**
   * getAreaCorrente: ID_AREA of the operator's configuration for the
   * department and inventory, or -1 when there is none or the query fails.
   */
  function GetAreaCorrente(conf: ConfigOperatore.ConfTable, operatore: string, reparto: int, numInv: int, queryFails: bool): (area: int)
    ensures queryFails ==> area == -1
    ensures !queryFails && ConfigOperatore.FindByKey(conf, operatore, reparto, numInv).None? ==> area == -1
    ensures !queryFails && ConfigOperatore.FindByKey(conf, operatore, reparto, numInv).Some? ==>
      exists x :: x in conf.rows && ConfigOperatore.SameTriple(x, operatore, reparto, numInv) && x.idArea == area
  {
    if queryFails then -1
    else match ConfigOperatore.FindByKey(conf, operatore, reparto, numInv)
      case None => -1
      case Some(x) => x.idArea
  }

  /** A configuration whose stored area is -1 cannot be told apart from a missing one. */
  lemma StoredMinusOneLooksMissing()
    ensures var row := ConfigOperatore.ConfRow(1, "OP1", None, 10, 3, -1, "10.0.0.5");
      var withRow := ConfigOperatore.ConfTable([row], 2);
      GetAreaCorrente(withRow, "OP1", 10, 3, false) == GetAreaCorrente(ConfigOperatore.ConfTable([], 1), "OP1", 10, 3, false)
  {
    var row := ConfigOperatore.ConfRow(1, "OP1", None, 10, 3, -1, "10.0.0.5");
    assert row in ConfigOperatore.ConfTable([row], 2).rows;
  }

  // ---------------------------------------------------------------------
  // selectRighePerTipo
  // ---------------------------------------------------------------------

  /** WHERE CODICE_OPERATORE = ? AND REPARTO = ? AND NUMERO_INV = ? */
  predicate OwnedBy(x: CountRow, operatore: string, reparto: int, numInv: int)
  {
    x.codiceOperatore == Some(operatore) && x.key.reparto == reparto && x.key.numeroInv == numInv
  }

  /** The WHERE clause of a selection: the operator's rows, optionally of one area, optionally unprinted. */
  predicate Selects(x: CountRow, operatore: string, reparto: int, numInv: int, area: Option<int>, unprintedOnly: bool)
  {
    OwnedBy(x, operatore, reparto, numInv) && (area.None? || x.idArea == area.value) && (!unprintedOnly || x.stampato == 0)
  }

  function Owned(rows: seq<CountRow>, operatore: string, reparto: int, numInv: int, area: Option<int>, unprintedOnly: bool): (r: seq<CountRow>)
    ensures forall x :: multiset(r)[x] == if Selects(x, operatore, reparto, numInv, area, unprintedOnly) then multiset(rows)[x] else 0
  {
    Filter(rows, (x: CountRow) => Selects(x, operatore, reparto, numInv, area, unprintedOnly))
  }

  /** ... ORDER BY TS_CREAZIONE ASC */
  function OwnedByTime(rows: seq<CountRow>, operatore: string, reparto: int, numInv: int, area: Option<int>, unprintedOnly: bool): (r: seq<CountRow>)
    ensures SortedBy(r, TsAscLe)
    ensures multiset(r) == multiset(Owned(rows, operatore, reparto, numInv, area, unprintedOnly))
  {
    TsAscPreorder();
    SortBy(Owned(rows, operatore, reparto, numInv, area, unprintedOnly), TsAscLe)
  }

  /** ... ORDER BY TS_CREAZIONE DESC LIMIT 50: the operator's 50 newest rows, newest first. */
  function OwnedLatest(rows: seq<CountRow>, operatore: string, reparto: int, numInv: int): (r: seq<CountRow>)
    ensures FirstNBy(r, Owned(rows, operatore, reparto, numInv, None, false), 50, TsDescLe)
  {
    TsDescPreorder();
    var s := SortBy(Owned(rows, operatore, reparto, numInv, None, false), TsDescLe);
    TakeSortedIsFirstN(s, Owned(rows, operatore, reparto, numInv, None, false), 50, TsDescLe);
    Take(s, 50)
  }

  /**
   * selectRighePerTipo: AREA_ATTUALE, TUTTI, ULTIMI_50 and
   * AREA_ATTUALE_NON_STAMPATI; any other code, or a failing query, gives no rows.
   */
  function SelectRighePerTipo(t: CountTable, code: string, operatore: string, reparto: int, numInv: int, area: int, queryFails: bool): (r: seq<CountRow>)
    ensures forall x :: x in r ==> x in t.rows && OwnedBy(x, operatore, reparto, numInv)
    ensures queryFails || code !in {"AREA_ATTUALE", "TUTTI", "ULTIMI_50", "AREA_ATTUALE_NON_STAMPATI"} ==> r == []
    ensures !queryFails && code == "AREA_ATTUALE" ==>
      SortedBy(r, TsAscLe) && multiset(r) == multiset(Owned(t.rows, operatore, reparto, numInv, Some(area), false))
    ensures !queryFails && code == "TUTTI" ==>
      SortedBy(r, TsAscLe) && multiset(r) == multiset(Owned(t.rows, operatore, reparto, numInv, None, false))
    ensures !queryFails && code == "ULTIMI_50" ==>
      FirstNBy(r, Owned(t.rows, operatore, reparto, numInv, None, false), 50, TsDescLe)
    ensures !queryFails && code == "AREA_ATTUALE_NON_STAMPATI" ==>
      SortedBy(r, TsAscLe) && multiset(r) == multiset(Owned(t.rows, operatore, reparto, numInv, Some(area), true))
  {
    var r :=
      if queryFails then []
      else if code == "AREA_ATTUALE" then OwnedByTime(t.rows, operatore, reparto, numInv, Some(area), false)
      else if code == "TUTTI" then OwnedByTime(t.rows, operatore, reparto, numInv, None, false)
      else if code == "ULTIMI_50" then OwnedLatest(t.rows, operatore, reparto, numInv)
      else if code == "AREA_ATTUALE_NON_STAMPATI" then OwnedByTime(t.rows, operatore, reparto, numInv, Some(area), true)
      else [];
    assert forall x :: x in r ==> x in multiset(r);
    r
  }

  /** AREA_ATTUALE_NON_STAMPATI is AREA_ATTUALE without the printed rows. */
  lemma NonStampatiNarrowsAreaAttuale(t: CountTable, operatore: string, reparto: int, numInv: int, area: int, x: CountRow)
    ensures multiset(SelectRighePerTipo(t, "AREA_ATTUALE_NON_STAMPATI", operatore, reparto, numInv, area, false))[x]
      == if x.stampato == 0 then multiset(SelectRighePerTipo(t, "AREA_ATTUALE", operatore, reparto, numInv, area, false))[x] else 0
  {
  }

  // ---------------------------------------------------------------------
  // generateTxtFile: report text and file name
  // ---------------------------------------------------------------------

  /** The 37-character '=' rule of the report. */
  function Rule(): string
  {
    Repeat('=', 37)
  }

  /** sprintf("%-8s %-3s %-20s %10s %8s %10s", ...). */
  function Columns(a: string, b: string, c: string, d: string, e: string, f: string): (r: string)
    ensures |r| >= 8 + 1 + 3 + 1 + 20 + 1 + 10 + 1 + 8 + 1 + 10
  {
    PadRight(a, 8) + " " + PadRight(b, 3) + " " + PadRight(c, 20) + " "
      + PadLeft(d, 10) + " " + PadLeft(e, 8) + " " + PadLeft(f, 10)
  }

  /** STAMPATO == 1 prints as "SI", every other value as "NO". */
  function PrintedFlag(stampato: int): (r: string)
    ensures r == "SI" <==> stampato == 1
    ensures r == "NO" <==> stampato != 1
  {
    if stampato == 1 then "SI" else "NO"
  }

  /** One report line per row: trimmed POSIZIONE, PRECODICE, CODICE_ART, then QTA, area and printed flag. */
  function RowLine(x: CountRow): string
  {
    Columns(Trim(x.key.posizione), Trim(x.key.precodice), Trim(x.key.codiceArt),
      IntToString(x.qta), IntToString(x.idArea), PrintedFlag(x.stampato))
  }

  function RowLines(rows: seq<CountRow>): (r: seq<string>)
    ensures |r| == |rows|
    ensures forall i :: 0 <= i < |rows| ==> r[i] == RowLine(rows[i])
  {
    seq(|rows|, i requires 0 <= i < |rows| => RowLine(rows[i]))
  }

  /** The nine header writes (the last one ends in a blank line), the column header and its rule. */
  function HeaderLines(operatore: string, reparto: int, numInv: int, idTipo: int, now: DateTime): (r: seq<string>)
    ensures |r| == 12
  {
    [ Rule(),
      "RAPPORTO CONTEGGI",
      Rule(),
      "Operatore:  " + operatore,
      "Reparto:    " + IntToString(reparto),
      "Inventario: " + IntToString(numInv),
      "Tipo Stampa: " + IntToString(idTipo),
      "Data/Ora:   " + Stamp(now),
      Rule(),
      "",
      Columns("POSIZ", "PRE", "CODICE ART", "QTA", "AREA", "STAMP"),
      Repeat('-', 70) ]
  }

  function FooterLines(n: nat): (r: seq<string>)
    ensures |r| == 3
  {
    [Repeat('-', 70), "TOTALE RIGHE: " + IntToString(n), Rule()]
  }

  /** The report as a list of lines. */
  function ReportLines(rows: seq<CountRow>, operatore: string, reparto: int, numInv: int, idTipo: int, now: DateTime): seq<string>
  {
    HeaderLines(operatore, reparto, numInv, idTipo, now) + RowLines(rows) + FooterLines(|rows|)
  }

  /**
   * The layout for n rows: n + 15 lines, the rows at 12 .. 11 + n in input
   * order, then a dash rule, "TOTALE RIGHE: n" and the closing '=' rule.
   */
  lemma ReportLayout(rows: seq<CountRow>, operatore: string, reparto: int, numInv: int, idTipo: int, now: DateTime)
    ensures var l := ReportLines(rows, operatore, reparto, numInv, idTipo, now);
      && |l| == |rows| + 15
      && l[..12] == HeaderLines(operatore, reparto, numInv, idTipo, now)
      && (forall i :: 0 <= i < |rows| ==> l[12 + i] == RowLine(rows[i]))
      && l[12 + |rows|] == Repeat('-', 70)
      && l[13 + |rows|] == "TOTALE RIGHE: " + IntToString(|rows|)
      && l[14 + |rows|] == Rule()
  {
    var h := HeaderLines(operatore, reparto, numInv, idTipo, now);
    var m := RowLines(rows);
    var f := FooterLines(|rows|);
    var l := h + m + f;
    assert l[..12] == h;
    forall i | 0 <= i < |rows| ensures l[12 + i] == RowLine(rows[i]) {
      assert l[12 + i] == m[i];
    }
    assert l[12 + |rows|] == f[0];
    assert l[13 + |rows|] == f[1];
    assert l[14 + |rows|] == f[2];
  }

  lemma RowLinesSnoc(rows: seq<CountRow>, x: CountRow)
    ensures RowLines(rows + [x]) == RowLines(rows) + [RowLine(x)]
  {
    var a, b := RowLines(rows + [x]), RowLines(rows) + [RowLine(x)];
    assert |a| == |b|;
    forall i | 0 <= i < |a| ensures a[i] == b[i] {
      if i < |rows| {
        assert (rows + [x])[i] == rows[i];
      }
    }
  }

  /** The row lines as the foreach writes them, one fwrite after another. */
  function RowsText(rows: seq<CountRow>): string
  {
    if rows == [] then "" else RowsText(rows[..|rows| - 1]) + RowLine(rows[|rows| - 1]) + "\n"
  }

  lemma RowsTextStep(rows: seq<CountRow>, i: nat)
    requires i < |rows|
    ensures RowsText(rows[..i + 1]) == RowsText(rows[..i]) + RowLine(rows[i]) + "\n"
  {
    assert rows[..i + 1][..i] == rows[..i];
  }

  lemma {:induction false} RowsTextIsUnlines(rows: seq<CountRow>)
    ensures RowsText(rows) == Unlines(RowLines(rows))
  {
    if rows != [] {
      var init := rows[..|rows| - 1];
      var line := RowLine(rows[|rows| - 1]);
      RowsTextIsUnlines(init);
      RowLinesSnoc(init, rows[|rows| - 1]);
      InitLast(rows);
      UnlinesAppend(RowLines(init), [line]);
      UnlinesSingle(line);
    }
  }

  /** The file's text is the header, the rows written one by one, and the footer. */
  lemma ReportTextSplit(rows: seq<CountRow>, operatore: string, reparto: int, numInv: int, idTipo: int, now: DateTime)
    ensures ReportText(rows, operatore, reparto, numInv, idTipo, now)
      == Unlines(HeaderLines(operatore, reparto, numInv, idTipo, now)) + RowsText(rows) + Unlines(FooterLines(|rows|))
  {
    var h := HeaderLines(operatore, reparto, numInv, idTipo, now);
    RowsTextIsUnlines(rows);
    UnlinesAppend(h, RowLines(rows));
    UnlinesAppend(h + RowLines(rows), FooterLines(|rows|));
  }

  /** The report file's full text. */
  function ReportText(rows: seq<CountRow>, operatore: string, reparto: int, numInv: int, idTipo: int, now: DateTime): string
  {
    Unlines(ReportLines(rows, operatore, reparto, numInv, idTipo, now))
  }

  /** basePath/operatore-reparto-numInv_YYYYMMDDHHMMSS.txt */
  function ReportPath(basePath: string, operatore: string, reparto: int, numInv: int, now: DateTime): (p: string)
    ensures p != "" && p != "0"
  {
    basePath + "/" + operatore + "-" + IntToString(reparto) + "-" + IntToString(numInv) + "_" + Compact(now) + ".txt"
  }

  /** The layout of "<d>/<o>-<r>-<n>_<c>.txt" for a 14-character stamp c, whatever the other parts. */
  lemma PathLayout(d: string, o: string, r: string, n: string, c: string)
    requires |c| == 14
    ensures var p := d + "/" + o + "-" + r + "-" + n + "_" + c + ".txt";
      && |p| >= |d| + 20
      && p[..|d| + 1] == d + "/"
      && p[|p| - 19..] == "_" + c + ".txt"
  {
    var mid := o + "-" + r + "-" + n;
    var tail := "_" + c + ".txt";
    var p := d + "/" + o + "-" + r + "-" + n + "_" + c + ".txt";
    assert p == (d + "/") + mid + tail;
    assert |tail| == 19;
  }

  /** The name ends in '_', the 14-digit timestamp and ".txt", and sits under the directory. */
  lemma ReportPathShape(basePath: string, operatore: string, reparto: int, numInv: int, now: DateTime)
    requires ValidDateTime(now)
    ensures var p := ReportPath(basePath, operatore, reparto, numInv, now);
      && |p| >= |basePath| + 20
      && p[..|basePath| + 1] == basePath + "/"
      && p[|p| - 19..] == "_" + Compact(now) + ".txt"
  {
    CompactIsFourteenDigits(now);
    PathLayout(basePath, operatore, IntToString(reparto), IntToString(numInv), Compact(now));
  }

  /** The report directory: path to file content. */
  class ReportDir {
    var files: map<string, string>

    constructor()
      ensures files == map[]
    {
      files := map[];
    }

    /**
     * generateTxtFile: no rows, or a file that will not open, gives "" and
     * writes nothing; otherwise the report is written line by line and its
     * path returned.
     */
    method GenerateTxtFile(rows: seq<CountRow>, operatore: string, reparto: int, numInv: int, idTipo: int,
                           basePath: string, now: DateTime, openOk: bool) returns (path: string)
      modifies this
      ensures rows == [] || !openOk ==> path == "" && files == old(files)
      ensures rows != [] && openOk ==>
        && path == ReportPath(basePath, operatore, reparto, numInv, now)
        && files == old(files)[path := ReportText(rows, operatore, reparto, numInv, idTipo, now)]
    {
      if rows == [] {
        return "";
      }
      path := ReportPath(basePath, operatore, reparto, numInv, now);
      if !openOk {
        return "";
      }
      var header := Unlines(HeaderLines(operatore, reparto, numInv, idTipo, now));
      var footer := Unlines(FooterLines(|rows|));
      ghost var before := files;
      files := files[path := header];
      WriteRows(path, rows);
      UpdateTwice(before, path, header, header + RowsText(rows));
      files := files[path := files[path] + footer];
      UpdateTwice(before, path, header + RowsText(rows), header + RowsText(rows) + footer);
      ReportTextSplit(rows, operatore, reparto, numInv, idTipo, now);
    }

    /** The foreach over the rows: one fwrite of a formatted line per row, appended to the open file. */
    method WriteRows(path: string, rows: seq<CountRow>)
      requires path in files
      modifies this
      ensures files == old(files)[path := old(files)[path] + RowsText(rows)]
    {
      ghost var start := files[path];
      assert rows[..0] == [] && start + RowsText([]) == start;
      var i := 0;
      while i < |rows|
        invariant 0 <= i <= |rows|
        invariant path in files && files[path] == start + RowsText(rows[..i])
        invariant files == old(files)[path := files[path]]
      {
        ghost var written := files[path];
        var next := files[path] + RowLine(rows[i]) + "\n";
        RowsTextStep(rows, i);
        AppendThree(start, RowsText(rows[..i]), RowLine(rows[i]), "\n");
        UpdateTwice(old(files), path, written, next);
        files := files[path := next];
        i := i + 1;
      }
      assert rows[..i] == rows;
    }
  }
}
