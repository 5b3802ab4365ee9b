/**
 * PrinterManager: the temporary spool file handed to lpr, and the plain
 * inventory listing built by formatInventoryPrint. The temporary directory is
 * a map from path to content; whether file_put_contents succeeds and the exit
 * code of lpr are parameters; the clock is the integer time() and the
 * formatted date() string, both passed in. Log calls are left out.
 */
module Printer {
  import opened Util
  import opened Text
  import Stampanti

  // ---------------------------------------------------------------------
  // printToQueue: file name and content
  // ---------------------------------------------------------------------

  /** The characters the queue-name filter [^a-zA-Z0-9_-] keeps. */
  predicate IsQueueChar(c: char)
  {
    ('a' <= c <= 'z') || ('A' <= c <= 'Z') || ('0' <= c <= '9') || c == '_' || c == '-'
  }

  /** preg_replace('/[^a-zA-Z0-9_-]/', '', $queue): every other character removed, the rest kept in order. */
  function SanitizeQueue(queue: string): (r: string)
    ensures forall i :: 0 <= i < |r| ==> IsQueueChar(r[i])
    ensures forall c :: IsQueueChar(c) ==> multiset(r)[c] == multiset(queue)[c]
    ensures forall c :: !IsQueueChar(c) ==> c !in r
  {
    var r := Filter(queue, IsQueueChar);
    assert forall c :: c in r ==> c in multiset(r);
    r
  }

  /** A name made only of kept characters passes the filter unchanged, so the filter is idempotent. */
  lemma SanitizeQueueKeepsSafeNames(queue: string)
    requires forall i :: 0 <= i < |queue| ==> IsQueueChar(queue[i])
    ensures SanitizeQueue(queue) == queue
  {
    FilterAllPass(queue, IsQueueChar);
  }

  lemma SanitizeQueueIdempotent(queue: string)
    ensures SanitizeQueue(SanitizeQueue(queue)) == SanitizeQueue(queue)
  {
    SanitizeQueueKeepsSafeNames(SanitizeQueue(queue));
  }

  /** rtrim($dir, '/'): the directory without its trailing slashes. */
  function TrimSlashes(dir: string): (r: string)
    ensures |r| <= |dir| && r == dir[..|r|]
    ensures r == [] || r[|r| - 1] != '/'
    ensures forall i :: |r| <= i < |dir| ==> dir[i] == '/'
  {
    if dir == [] || dir[|dir| - 1] != '/' then dir else TrimSlashes(dir[..|dir| - 1])
  }

  /** sprintf('%s/print_%s_%d.txt', rtrim($tempDir, '/'), <sanitised queue>, time()). */
  function TempFileName(tempDir: string, queue: string, now: int): (r: string)
  {
    TrimSlashes(tempDir) + "/print_" + SanitizeQueue(queue) + "_" + IntToString(now) + ".txt"
  }

  /** The layout of "<d>/print_<q>_<t>.txt", whatever the three parts. */
  lemma NameLayout(d: string, q: string, t: string)
    ensures var p := d + "/print_" + q + "_" + t + ".txt";
      && p[..|d|] == d
      && p[|d|..|d| + 7] == "/print_"
      && p[|d| + 7..|d| + 7 + |q|] == q
      && p[|d| + 7 + |q|] == '_'
      && p[|p| - 4..] == ".txt"
  {
    var p := d + "/print_" + q + "_" + t + ".txt";
    FiveParts(d, "/print_", q, "_", t + ".txt");
    assert p == d + "/print_" + q + "_" + (t + ".txt");
    assert p[|d| + 7 + |q|..|d| + 7 + |q| + 1] == "_";
  }

  /** The name is the trimmed directory, "/print_", the filtered queue name, '_', the time and ".txt". */
  lemma TempFileNameShape(tempDir: string, queue: string, now: int)
    ensures var p := TempFileName(tempDir, queue, now);
      var d := TrimSlashes(tempDir);
      var q := SanitizeQueue(queue);
      && p[..|d|] == d
      && p[|d|..|d| + 7] == "/print_"
      && p[|d| + 7..|d| + 7 + |q|] == q
      && p[|d| + 7 + |q|] == '_'
      && p[|p| - 4..] == ".txt"
  {
    NameLayout(TrimSlashes(tempDir), SanitizeQueue(queue), IntToString(now));
  }

  /** Two directories that differ only in trailing slashes give the same file name. */
  lemma TempFileNameIgnoresTrailingSlash(tempDir: string, queue: string, now: int)
    ensures TempFileName(tempDir + "/", queue, now) == TempFileName(tempDir, queue, now)
  {
    assert (tempDir + "/")[..|tempDir|] == tempDir;
  }

  /** implode("\n", $lines) . "\n" */
  function FileContent(lines: seq<string>): (r: string)
    ensures lines != [] ==> r == Unlines(lines)
    ensures lines == [] ==> r == "\n"
  {
    var r := Join(lines, "\n") + "\n";
    if lines == [] then r else JoinNewlineIsUnlines(lines); r
  }

  // ---------------------------------------------------------------------
  // printToQueue: write, lpr, unlink
  // ---------------------------------------------------------------------

  /** A job accepted by lpr: queue, printer host and the content of the file it was given. */
  datatype Job = Job(queue: string, host: string, content: string)

  /** The temporary directory and the jobs handed to CUPS. */
  class PrintSpool {
    const tempDir: string
    var files: map<string, string>
    var jobs: seq<Job>

    constructor(dir: string)
      ensures tempDir == dir && files == map[] && jobs == []
    {
      tempDir := dir;
      files := map[];
      jobs := [];
    }

    /**
     * printToQueue: no printer row for the IP gives false and writes nothing;
     * a failed write gives false; otherwise the file is written, lpr is run and
     * the file is unlinked whatever lpr's exit code, which alone decides the result.
     */
    method PrintToQueue(printers: seq<Stampanti.PrinterRow>, ip: string, lines: seq<string>, now: int,
                        writeOk: bool, lprExit: int) returns (ok: bool)
      modifies this
      ensures ok <==> Stampanti.FindByIp(printers, ip).Some? && writeOk && lprExit == 0
      ensures Stampanti.FindByIp(printers, ip).None? || !writeOk ==> files == old(files) && jobs == old(jobs)
      ensures Stampanti.FindByIp(printers, ip).Some? && writeOk ==>
        var queue := Stampanti.FindByIp(printers, ip).value.codaCups;
        && files == old(files) - {TempFileName(tempDir, queue, now)}
        && jobs == old(jobs) + (if lprExit == 0 then [Job(queue, ip, FileContent(lines))] else [])
    {
      var printer := Stampanti.FindByIp(printers, ip);
      if printer.None? {
        return false;
      }
      var queue := printer.value.codaCups;
      var filename := TempFileName(tempDir, queue, now);
      if !writeOk {
        return false;
      }
      var content := FileContent(lines);
      UpdateThenRemove(files, filename, content);
      files := files[filename := content];
      if lprExit != 0 {
        files := files - {filename};
        return false;
      }
      jobs := jobs + [Job(queue, ip, files[filename])];
      files := files - {filename};
      return true;
    }
  }

  // ---------------------------------------------------------------------
  // formatInventoryPrint
  // ---------------------------------------------------------------------

  /** A count row as the listing reads it: every column may be missing (null). */
  datatype ItemRow = ItemRow(precodice: Option<string>, codiceArt: Option<string>, posizione: Option<string>,
                             qta: Option<int>, idConteggio: Option<int>)

  /** $x ?? '' */
  function OrEmpty(x: Option<string>): string
  {
    if x.Some? then x.value else ""
  }

  /** $metadata[$k] ?? 'N/A' */
  function OrNa(metadata: map<string, Option<string>>, k: string): (r: string)
    ensures k !in metadata || metadata[k].None? ==> r == "N/A"
    ensures k in metadata && metadata[k].Some? ==> r == metadata[k].value
  {
    if k in metadata && metadata[k].Some? then metadata[k].value else "N/A"
  }

  /** $row['QTA_CONTEGGIATA'] ?? 0 */
  function QtaOf(x: ItemRow): int
  {
    if x.qta.Some? then x.qta.value else 0
  }

  /** $row['ID_CONTEGGIO'] ?? '' as %10s prints it. */
  function IdText(id: Option<int>): string
  {
    if id.Some? then IntToString(id.value) else ""
  }

  /** %12.3f of an integral quantity: the digits, ".000", right-justified in 12 columns. */
  function Fixed3(q: int): (r: string)
    ensures |r| >= 12 && |r| >= |IntToString(q)| + 4
    ensures r[|r| - 4..] == ".000"
    ensures r[|r| - 4 - |IntToString(q)|..|r| - 4] == IntToString(q)
  {
    var digits := IntToString(q);
    var r := PadLeft(digits + ".000", 12);
    SuffixOfAppend(digits, ".000", r);
    r
  }

  /** The quantity can be read back from its rendering: the digits before ".000" parse to it. */
  lemma Fixed3RoundTrip(q: int)
    requires InIntRange(q)
    ensures var r := Fixed3(q); StrToInt(r[|r| - 4 - |IntToString(q)|..|r| - 4]) == q
  {
    IntToStringRoundTrip(q);
  }

  /** '%-10s | %-6s | %-6s | %s | %10s' with the quantity already rendered. */
  function ItemColumns(a: string, b: string, c: string, qty: string, e: string): string
  {
    PadRight(a, 10) + " | " + PadRight(b, 6) + " | " + PadRight(c, 6) + " | " + qty + " | " + PadLeft(e, 10)
  }

  function ItemLine(x: ItemRow): string
  {
    ItemColumns(OrEmpty(x.precodice), OrEmpty(x.codiceArt), OrEmpty(x.posizione), Fixed3(QtaOf(x)), IdText(x.idConteggio))
  }

  function ItemLines(rows: seq<ItemRow>): (r: seq<string>)
    ensures |r| == |rows|
    ensures forall i :: 0 <= i < |rows| ==> r[i] == ItemLine(rows[i])
  {
    seq(|rows|, i requires 0 <= i < |rows| => ItemLine(rows[i]))
  }

  /** The total quantity, a missing quantity counting as 0, summed in list order. */
  function SumQta(rows: seq<ItemRow>): int
  {
    if rows == [] then 0 else SumQta(rows[..|rows| - 1]) + QtaOf(rows[|rows| - 1])
  }

  /** The total of two lists one after the other is the sum of their totals. */
  lemma {:induction false} SumQtaAppend(a: seq<ItemRow>, b: seq<ItemRow>)
    ensures SumQta(a + b) == SumQta(a) + SumQta(b)
  {
    if b != [] {
      var init := b[..|b| - 1];
      SumQtaAppend(a, init);
      assert (a + b)[..|a + b| - 1] == a + init;
      assert (a + b)[|a + b| - 1] == b[|b| - 1];
    } else {
      assert a + b == a;
    }
  }

  /** Rows without a quantity add nothing to the total. */
  lemma {:induction false} SumQtaOfMissing(rows: seq<ItemRow>)
    requires forall i :: 0 <= i < |rows| ==> rows[i].qta.None?
    ensures SumQta(rows) == 0
  {
    if rows != [] {
      SumQtaOfMissing(rows[..|rows| - 1]);
    }
  }

  /** The listing's title line. */
  const Title: string := "INVENTARIO CONTEGGI"

  function Banner(): string
  {
    Repeat('=', 32)
  }

  function ColumnHeader(): string
  {
    PadRight("PRECODICE", 10) + " | " + PadRight("CODART", 6) + " | " + PadRight("POSIZ", 6) + " | "
      + PadRight("QTA", 12) + " | " + PadRight("CONTEGGI", 10)
  }

  /** Banner, title, banner, blank line. */
  function Opening(): (r: seq<string>)
    ensures |r| == 4 && r[0] == Banner() && r[1] == Title && r[2] == Banner() && r[3] == ""
  {
    [Banner(), Title, Banner(), ""]
  }

  /** The operator, area and date lines and a blank line, only when the metadata array is non-empty. */
  function MetadataBlock(metadata: map<string, Option<string>>, date: string): (r: seq<string>)
    ensures |metadata| == 0 ==> r == []
    ensures |metadata| > 0 ==>
      && |r| == 4
      && r[0] == "Operatore: " + OrNa(metadata, "operatore")
      && r[1] == "Area: " + OrNa(metadata, "area")
      && r[2] == "Data: " + date
      && r[3] == ""
  {
    if |metadata| > 0
    then ["Operatore: " + OrNa(metadata, "operatore"), "Area: " + OrNa(metadata, "area"), "Data: " + date, ""]
    else []
  }

  /** The column header and the 80-dash rule under it. */
  function TableHead(): (r: seq<string>)
    ensures |r| == 2 && r[0] == ColumnHeader() && r[1] == Repeat('-', 80)
  {
    [ColumnHeader(), Repeat('-', 80)]
  }

  function InventoryHeader(metadata: map<string, Option<string>>, date: string): (r: seq<string>)
    ensures |r| == if |metadata| > 0 then 10 else 6
  {
    Opening() + MetadataBlock(metadata, date) + TableHead()
  }

  /** Rule, the TOTALE line with the quantity total and the row count, blank, banner. */
  function InventoryFooter(total: int, count: nat): (r: seq<string>)
    ensures |r| == 4
  {
    [Repeat('-', 80), ItemColumns("TOTALE", "", "", Fixed3(total), IntToString(count)), "", Banner()]
  }

  function InventoryLines(rows: seq<ItemRow>, metadata: map<string, Option<string>>, date: string): seq<string>
  {
    InventoryHeader(metadata, date) + ItemLines(rows) + InventoryFooter(SumQta(rows), |rows|)
  }

  /** The listing's length: 4 header lines, 4 more exactly when metadata is non-empty, 2, one per row, 4. */
  lemma InventoryLength(rows: seq<ItemRow>, metadata: map<string, Option<string>>, date: string)
    ensures |InventoryLines(rows, metadata, date)| == (if |metadata| > 0 then 10 else 6) + |rows| + 4
  {
  }

  /** The banner and the title come first. */
  lemma InventoryOpening(rows: seq<ItemRow>, metadata: map<string, Option<string>>, date: string)
    ensures var l := InventoryLines(rows, metadata, date);
      l[0] == Banner() && l[1] == Title && l[2] == Banner() && l[3] == ""
  {
    IndexThree(InventoryHeader(metadata, date), ItemLines(rows), InventoryFooter(SumQta(rows), |rows|));
    IndexThree(Opening(), MetadataBlock(metadata, date), TableHead());
  }

  /** Non-empty metadata adds the operator, area and date lines (missing values as "N/A") before the column header. */
  lemma InventoryMetadata(rows: seq<ItemRow>, metadata: map<string, Option<string>>, date: string)
    requires |metadata| > 0
    ensures var l := InventoryLines(rows, metadata, date);
      && l[4] == "Operatore: " + OrNa(metadata, "operatore")
      && l[5] == "Area: " + OrNa(metadata, "area")
      && l[6] == "Data: " + date
      && l[8] == ColumnHeader()
  {
    IndexThree(InventoryHeader(metadata, date), ItemLines(rows), InventoryFooter(SumQta(rows), |rows|));
    IndexThree(Opening(), MetadataBlock(metadata, date), TableHead());
  }

  /** Empty metadata: the column header follows the blank line straight away. */
  lemma InventoryWithoutMetadata(rows: seq<ItemRow>, metadata: map<string, Option<string>>, date: string)
    requires |metadata| == 0
    ensures InventoryLines(rows, metadata, date)[4] == ColumnHeader()
  {
    IndexThree(InventoryHeader(metadata, date), ItemLines(rows), InventoryFooter(SumQta(rows), |rows|));
    IndexThree(Opening(), MetadataBlock(metadata, date), TableHead());
  }

  /** Row i of the input is line k + i of the listing, k being the header's length: input order is kept. */
  lemma InventoryRowsInOrder(rows: seq<ItemRow>, metadata: map<string, Option<string>>, date: string)
    ensures var l := InventoryLines(rows, metadata, date);
      var k := |InventoryHeader(metadata, date)|;
      forall i :: 0 <= i < |rows| ==> l[k + i] == ItemLine(rows[i])
  {
    IndexThree(InventoryHeader(metadata, date), ItemLines(rows), InventoryFooter(SumQta(rows), |rows|));
  }

  /** The last four lines: rule, the TOTALE line with the quantity total and the row count, blank, banner. */
  lemma InventoryClosing(rows: seq<ItemRow>, metadata: map<string, Option<string>>, date: string)
    ensures var l := InventoryLines(rows, metadata, date);
      && |l| >= 4
      && l[|l| - 3] == ItemColumns("TOTALE", "", "", Fixed3(SumQta(rows)), IntToString(|rows|))
      && l[|l| - 2] == ""
      && l[|l| - 1] == Banner()
  {
    var h := InventoryHeader(metadata, date);
    IndexThree(h, ItemLines(rows), InventoryFooter(SumQta(rows), |rows|));
  }

  lemma ItemLinesSnoc(rows: seq<ItemRow>, x: ItemRow)
    ensures ItemLines(rows + [x]) == ItemLines(rows) + [ItemLine(x)]
  {
    var a, b := ItemLines(rows + [x]), ItemLines(rows) + [ItemLine(x)];
    assert |a| == |b|;
    forall i | 0 <= i < |a| ensures a[i] == b[i] {
      if i < |rows| {
        assert (rows + [x])[i] == rows[i];
      }
    }
  }

  /** formatInventoryPrint: appends the header, one line per row while summing the quantities, then the footer. */
  method FormatInventoryPrint(rows: seq<ItemRow>, metadata: map<string, Option<string>>, date: string) returns (lines: seq<string>)
    ensures lines == InventoryLines(rows, metadata, date)
  {
    var body := [];
    var total := 0;
    var i := 0;
    while i < |rows|
      invariant 0 <= i <= |rows|
      invariant body == ItemLines(rows[..i])
      invariant total == SumQta(rows[..i])
    {
      PrefixStep(rows, i);
      ItemLinesSnoc(rows[..i], rows[i]);
      body := body + [ItemLine(rows[i])];
      total := total + QtaOf(rows[i]);
      i := i + 1;
    }
    assert rows[..i] == rows;
    lines := InventoryHeader(metadata, date) + body + InventoryFooter(total, |rows|);
  }
}
