/**
 * The STAMPANTI table (printers by IP address and their CUPS queue) and the
 * statements of StampantiRepository. IP is taken to be the table's unique
 * key, the one its ON DUPLICATE KEY upsert relies on.
 */
module Stampanti {
  import opened Util
  import opened Text
  import ConfigOperatore

  datatype PrinterRow = PrinterRow(ip: string, codaCups: string)

  /** One row per IP. */
  predicate UniqueIps(rows: seq<PrinterRow>)
  {
    DistinctBy(rows, IpOf)
  }

  function IpOf(r: PrinterRow): string
  {
    r.ip
  }

  /** findByIp: the row with that IP, or None. */
  function FindByIp(rows: seq<PrinterRow>, ip: string): (r: Option<PrinterRow>)
    ensures r.Some? ==> r.value in rows && r.value.ip == ip
    ensures r.None? <==> forall x :: x in rows ==> x.ip != ip
  {
    var hits := Filter(rows, (x: PrinterRow) => x.ip == ip);
    if hits == [] then
      assert forall x :: x in rows && x.ip == ip ==> x in multiset(hits);
      None
    else
      Some(hits[0])
  }

  /** With one row per IP, findByIp returns that row. */
  lemma FindByIpUnique(rows: seq<PrinterRow>, x: PrinterRow)
    requires UniqueIps(rows)
    requires x in rows
    ensures FindByIp(rows, x.ip) == Some(x)
  {
    var y := FindByIp(rows, x.ip).value;
    var i :| 0 <= i < |rows| && rows[i] == x;
    var j :| 0 <= j < |rows| && rows[j] == y;
    assert i == j;
  }

  /** ORDER BY IP (as text). */
  predicate IpLe(a: PrinterRow, b: PrinterRow)
  {
    LexLe(a.ip, b.ip)
  }

  lemma IpLePreorder()
    ensures TotalPreorder(IpLe)
  {
    forall a: PrinterRow, b: PrinterRow ensures IpLe(a, b) || IpLe(b, a) {
      LexLeTotal(a.ip, b.ip);
    }
    forall a: PrinterRow, b: PrinterRow, c: PrinterRow | IpLe(a, b) && IpLe(b, c) ensures IpLe(a, c) {
      LexLeTransitive(a.ip, b.ip, c.ip);
    }
  }

  /** getAll: every printer, ordered by IP. */
  function GetAll(rows: seq<PrinterRow>): (r: seq<PrinterRow>)
    ensures SortedBy(r, IpLe)
    ensures multiset(r) == multiset(rows)
  {
    IpLePreorder();
    SortBy(rows, IpLe)
  }

  /** getDefault: the printer with the smallest IP, or None when there is none. */
  function GetDefault(rows: seq<PrinterRow>): (r: Option<PrinterRow>)
    ensures r.None? <==> rows == []
    ensures r.Some? ==> r.value in rows && forall x :: x in rows ==> LexLe(r.value.ip, x.ip)
  {
    var sorted := GetAll(rows);
    if sorted == [] then None
    else
      assert sorted[0] in multiset(rows);
      forall x | x in rows ensures LexLe(sorted[0].ip, x.ip) {
        assert x in multiset(sorted);
        var k :| 0 <= k < |sorted| && sorted[k] == x;
        if k > 0 {
          assert IpLe(sorted[0], sorted[k]);
        } else {
          LexLeTotal(x.ip, x.ip);
        }
      }
      Some(sorted[0])
  }

  /** create: INSERT ... ON DUPLICATE KEY UPDATE CODA_CUPS. */
  function Created(rows: seq<PrinterRow>, ip: string, coda: string): (r: seq<PrinterRow>)
    ensures FindByIp(rows, ip).None? ==> r == rows + [PrinterRow(ip, coda)]
    ensures FindByIp(rows, ip).Some? ==> |r| == |rows|
    ensures forall i :: 0 <= i < |rows| ==>
      r[i] == if rows[i].ip == ip then PrinterRow(ip, coda) else rows[i]
  {
    if FindByIp(rows, ip).None? then
      rows + [PrinterRow(ip, coda)]
    else
      seq(|rows|, i requires 0 <= i < |rows| => if rows[i].ip == ip then PrinterRow(ip, coda) else rows[i])
  }

  /** create keeps one row per IP: an existing IP keeps its position, a new one is appended. */
  lemma CreatedKeepsUnique(rows: seq<PrinterRow>, ip: string, coda: string)
    requires UniqueIps(rows)
    ensures UniqueIps(Created(rows, ip, coda))
  {
    var r := Created(rows, ip, coda);
    forall i, j | 0 <= i < j < |r| ensures IpOf(r[i]) != IpOf(r[j]) {
      assert r[i].ip == rows[i].ip;
      if j < |rows| {
        assert r[j].ip == rows[j].ip;
      } else {
        assert rows[i] in rows;
      }
    }
  }

  /** After create exactly one row has the IP, it carries the given queue, and no other printer changed. */
  lemma CreateUpserts(rows: seq<PrinterRow>, ip: string, coda: string)
    requires UniqueIps(rows)
    ensures UniqueIps(Created(rows, ip, coda))
    ensures FindByIp(Created(rows, ip, coda), ip) == Some(PrinterRow(ip, coda))
    ensures forall x :: x in rows && x.ip != ip ==> x in Created(rows, ip, coda)
  {
    var r := Created(rows, ip, coda);
    CreatedKeepsUnique(rows, ip, coda);
    if FindByIp(rows, ip).None? {
      assert r[|rows|] in r;
    } else {
      var k :| 0 <= k < |rows| && rows[k] == FindByIp(rows, ip).value;
      assert r[k] in r;
    }
    FindByIpUnique(r, PrinterRow(ip, coda));
    forall x | x in rows && x.ip != ip ensures x in r {
      var k :| 0 <= k < |rows| && rows[k] == x;
      assert r[k] == x;
    }
  }

  /** update: SET CODA_CUPS WHERE IP = ip; a missing IP adds nothing. */
  function Updated(rows: seq<PrinterRow>, ip: string, coda: string): (r: seq<PrinterRow>)
    ensures |r| == |rows|
    ensures forall i :: 0 <= i < |rows| ==> r[i].ip == rows[i].ip
    ensures forall i :: 0 <= i < |rows| ==> r[i] == if rows[i].ip == ip then rows[i].(codaCups := coda) else rows[i]
  {
    seq(|rows|, i requires 0 <= i < |rows| => if rows[i].ip == ip then rows[i].(codaCups := coda) else rows[i])
  }

  /** update never creates a printer: for an unknown IP the table is unchanged. */
  lemma UpdateUnknownIp(rows: seq<PrinterRow>, ip: string, coda: string)
    requires FindByIp(rows, ip).None?
    ensures Updated(rows, ip, coda) == rows
  {
    var r := Updated(rows, ip, coda);
    forall i | 0 <= i < |rows| ensures r[i] == rows[i] {
      assert rows[i] in rows;
    }
  }

  /** delete: DELETE WHERE IP = ip. */
  function Deleted(rows: seq<PrinterRow>, ip: string): (r: seq<PrinterRow>)
    ensures forall x :: x in r <==> x in rows && x.ip != ip
    ensures FindByIp(r, ip).None?
  {
    var kept := Filter(rows, (x: PrinterRow) => x.ip != ip);
    assert forall x :: x in rows && x.ip != ip ==> x in multiset(kept);
    kept
  }

  /** countUsage: SELECT COUNT(*) FROM CONF_OPERATORE WHERE IP_STAMPANTE = ip. */
  function CountUsage(conf: ConfigOperatore.ConfTable, ip: string): (n: nat)
    ensures n <= |conf.rows|
    ensures n == Count(conf.rows, (x: ConfigOperatore.ConfRow) => x.ipStampante == ip)
    ensures n == 0 <==> forall x :: x in conf.rows ==> x.ipStampante != ip
  {
    var used := Filter(conf.rows, (x: ConfigOperatore.ConfRow) => x.ipStampante == ip);
    assert forall x :: x in conf.rows && x.ipStampante == ip ==> x in multiset(used);
    FilterCount(conf.rows, (x: ConfigOperatore.ConfRow) => x.ipStampante == ip);
    |used|
  }

  /** The repository object: the STAMPANTI rows as state. */
  class StampantiRepository {
    var rows: seq<PrinterRow>

    ghost predicate Valid()
      reads this
    {
      UniqueIps(rows)
    }

    constructor(initial: seq<PrinterRow>)
      requires UniqueIps(initial)
      ensures Valid() && rows == initial
    {
      rows := initial;
    }

    method Create(ip: string, coda: string)
      requires Valid()
      modifies this
      ensures Valid()
      ensures rows == Created(old(rows), ip, coda)
      ensures FindByIp(rows, ip) == Some(PrinterRow(ip, coda))
    {
      CreateUpserts(rows, ip, coda);
      rows := Created(rows, ip, coda);
    }

    method Update(ip: string, coda: string)
      requires Valid()
      modifies this
      ensures Valid()
      ensures rows == Updated(old(rows), ip, coda)
    {
      rows := Updated(rows, ip, coda);
    }

    method Delete(ip: string)
      requires Valid()
      modifies this
      ensures Valid()
      ensures rows == Deleted(old(rows), ip)
    {
      var kept := Deleted(rows, ip);
      DeletedKeepsUnique(rows, ip);
      rows := kept;
    }
  }

  lemma DeletedKeepsUnique(rows: seq<PrinterRow>, ip: string)
    requires UniqueIps(rows)
    ensures UniqueIps(Deleted(rows, ip))
  {
    FilterKeepsDistinctBy(rows, IpOf, (x: PrinterRow) => x.ip != ip);
  }
}
