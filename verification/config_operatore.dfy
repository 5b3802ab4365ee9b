/**
 * The CONF_OPERATORE table (which area and printer an operator works with,
 * per department and inventory) and the statements of
 * ConfigOperatoreRepository.
 *
 * Rows are kept in insertion order; ID_CONF is an AUTO_INCREMENT key below
 * `nextId`. UPDATE row counts are MySQL's default "changed rows": a row the
 * statement matches but leaves with the same value does not count.
 */
module ConfigOperatore {
  import opened Util
  import opened Text

  datatype ConfRow = ConfRow(
    idConf: nat,
    codice: string,
    nome: Option<string>,
    idRep: int,
    idInventario: int,
    idArea: int,
    ipStampante: string)

  datatype ConfTable = ConfTable(rows: seq<ConfRow>, nextId: nat)

  /** ID_CONF is unique and below the AUTO_INCREMENT counter. */
  predicate ValidConf(t: ConfTable)
  {
    && IdsDistinct(t.rows)
    && (forall i :: 0 <= i < |t.rows| ==> t.rows[i].idConf < t.nextId)
  }

  predicate IdsDistinct(rows: seq<ConfRow>)
  {
    DistinctBy(rows, IdOf)
  }

  function IdOf(r: ConfRow): nat
  {
    r.idConf
  }

  /** At most one configuration per (CODICE, ID_REP, ID_INVENTARIO), as the create page enforces. */
  ghost predicate UniqueTriples(t: ConfTable)
  {
    forall i, j :: 0 <= i < j < |t.rows| ==>
      !SameTriple(t.rows[i], t.rows[j].codice, t.rows[j].idRep, t.rows[j].idInventario)
  }

  predicate SameTriple(r: ConfRow, codice: string, idRep: int, idInventario: int)
  {
    r.codice == codice && r.idRep == idRep && r.idInventario == idInventario
  }

  // ---------------------------------------------------------------------
  // Lookups
  // ---------------------------------------------------------------------

  /** findByKey: a row with that triple, or None when there is none. */
  function FindByKey(t: ConfTable, codice: string, idRep: int, idInventario: int): (r: Option<ConfRow>)
    ensures r.Some? ==> r.value in t.rows && SameTriple(r.value, codice, idRep, idInventario)
    ensures r.None? <==> forall x :: x in t.rows ==> !SameTriple(x, codice, idRep, idInventario)
  {
    var hits := Filter(t.rows, (x: ConfRow) => SameTriple(x, codice, idRep, idInventario));
    if hits == [] then
      assert forall x :: x in t.rows && SameTriple(x, codice, idRep, idInventario) ==> x in multiset(hits);
      None
    else
      Some(hits[0])
  }

  /** findById: the row with that ID_CONF, or None. */
  function FindById(t: ConfTable, id: int): (r: Option<ConfRow>)
    ensures r.Some? ==> r.value in t.rows && r.value.idConf == id
    ensures r.None? <==> forall x :: x in t.rows ==> x.idConf != id
  {
    var hits := Filter(t.rows, (x: ConfRow) => x.idConf == id);
    if hits == [] then
      assert forall x :: x in t.rows && x.idConf == id ==> x in multiset(hits);
      None
    else
      Some(hits[0])
  }

  /** With unique ids, the row findById returns is the only one with that id. */
  lemma FindByIdUnique(t: ConfTable, id: int, x: ConfRow)
    requires ValidConf(t)
    requires x in t.rows && x.idConf == id
    ensures FindById(t, id) == Some(x)
  {
    var y := FindById(t, id).value;
    var i :| 0 <= i < |t.rows| && t.rows[i] == x;
    var j :| 0 <= j < |t.rows| && t.rows[j] == y;
    assert i == j;
  }

  /** ORDER BY CODICE, ID_REP, ID_INVENTARIO. */
  predicate ConfLe(a: ConfRow, b: ConfRow)
  {
    if a.codice != b.codice then LexLe(a.codice, b.codice)
    else a.idRep < b.idRep || (a.idRep == b.idRep && a.idInventario <= b.idInventario)
  }

  lemma ConfLePreorder()
    ensures TotalPreorder(ConfLe)
  {
    forall a: ConfRow, b: ConfRow ensures ConfLe(a, b) || ConfLe(b, a) {
      LexLeTotal(a.codice, b.codice);
    }
    forall a: ConfRow, b: ConfRow, c: ConfRow | ConfLe(a, b) && ConfLe(b, c) ensures ConfLe(a, c) {
      if a.codice != b.codice && b.codice != c.codice {
        LexLeTransitive(a.codice, b.codice, c.codice);
        if a.codice == c.codice {
          LexLeAntisymmetric(a.codice, b.codice);
        }
      }
    }
  }

  /** getAll: every configuration, ordered by CODICE, ID_REP, ID_INVENTARIO. */
  function GetAll(t: ConfTable): (r: seq<ConfRow>)
    ensures SortedBy(r, ConfLe)
    ensures multiset(r) == multiset(t.rows)
  {
    ConfLePreorder();
    SortBy(t.rows, ConfLe)
  }

  function Codes(rows: seq<ConfRow>): (r: seq<string>)
    ensures |r| == |rows| && forall i :: 0 <= i < |rows| ==> r[i] == rows[i].codice
  {
    seq(|rows|, i requires 0 <= i < |rows| => rows[i].codice)
  }

  /** Collapse runs of equal neighbours in a sorted list (SELECT DISTINCT over ORDER BY). */
  function Dedup(s: seq<string>): (r: seq<string>)
    requires SortedBy(s, LexLe)
    ensures SortedBy(r, LexLe)
    ensures forall i, j :: 0 <= i < j < |r| ==> r[i] != r[j]
    ensures forall x :: x in r <==> x in s
    ensures s != [] ==> r != [] && r[0] == s[0]
  {
    if |s| <= 1 then s
    else
      var rest := Dedup(s[1..]);
      if s[0] == s[1] then rest
      else
        forall x | x in rest ensures LexLe(s[0], x) && x != s[0] {
          var k :| 1 <= k < |s| && s[k] == x;
          assert LexLe(s[0], s[k]);
          if x == s[0] {
            assert LexLe(s[1], s[k]);
            LexLeAntisymmetric(s[0], s[1]);
          }
        }
        [s[0]] + rest
  }

  /** getOperators: the distinct CODICE values, sorted, each once. */
  function GetOperators(t: ConfTable): (r: seq<string>)
    ensures SortedBy(r, LexLe)
    ensures forall i, j :: 0 <= i < j < |r| ==> r[i] != r[j]
    ensures forall c :: c in r <==> exists x :: x in t.rows && x.codice == c
  {
    LexLeTotalPreorder();
    var codes := SortBy(Codes(t.rows), LexLe);
    var r := Dedup(codes);
    forall c | c in r ensures exists x :: x in t.rows && x.codice == c {
      assert c in multiset(Codes(t.rows));
      var i :| 0 <= i < |t.rows| && Codes(t.rows)[i] == c;
      assert t.rows[i] in t.rows;
    }
    forall c | exists x :: x in t.rows && x.codice == c ensures c in r {
      var x :| x in t.rows && x.codice == c;
      var i :| 0 <= i < |t.rows| && t.rows[i] == x;
      assert Codes(t.rows)[i] == c;
      assert c in multiset(codes);
    }
    r
  }

  lemma LexLeTotalPreorder()
    ensures TotalPreorder(LexLe)
  {
    forall a: string, b: string ensures LexLe(a, b) || LexLe(b, a) {
      LexLeTotal(a, b);
    }
    forall a: string, b: string, c: string | LexLe(a, b) && LexLe(b, c) ensures LexLe(a, c) {
      LexLeTransitive(a, b, c);
    }
  }

  // ---------------------------------------------------------------------
  // Single-row statements
  // ---------------------------------------------------------------------

  /** create: INSERT one row; lastInsertId is the new ID_CONF. */
  function Inserted(t: ConfTable, codice: string, nome: Option<string>, idRep: int, idInventario: int, idArea: int, ip: string): (r: (ConfTable, nat))
    ensures r.0.rows == t.rows + [ConfRow(r.1, codice, nome, idRep, idInventario, idArea, ip)]
    ensures r.1 == t.nextId && r.0.nextId == r.1 + 1
  {
    (ConfTable(t.rows + [ConfRow(t.nextId, codice, nome, idRep, idInventario, idArea, ip)], t.nextId + 1), t.nextId)
  }

  /** The new row gets a fresh id, and findById then finds exactly it. */
  lemma CreateFresh(t: ConfTable, codice: string, nome: Option<string>, idRep: int, idInventario: int, idArea: int, ip: string)
    requires ValidConf(t)
    ensures var (t', id) := Inserted(t, codice, nome, idRep, idInventario, idArea, ip);
      && ValidConf(t')
      && FindById(t, id).None?
      && FindById(t', id) == Some(ConfRow(id, codice, nome, idRep, idInventario, idArea, ip))
  {
    var (t', id) := Inserted(t, codice, nome, idRep, idInventario, idArea, ip);
    assert t'.rows[|t.rows|] in t'.rows;
    FindByIdUnique(t', id, t'.rows[|t.rows|]);
  }

  /**
   * create itself does not reject a second row for a triple; behind the
   * page's guard (no row with that triple yet) the one-per-triple rule holds.
   */
  lemma GuardedCreateKeepsTriplesUnique(t: ConfTable, codice: string, nome: Option<string>, idRep: int, idInventario: int, idArea: int, ip: string)
    requires UniqueTriples(t)
    requires FindByKey(t, codice, idRep, idInventario).None?
    ensures UniqueTriples(Inserted(t, codice, nome, idRep, idInventario, idArea, ip).0)
  {
    var t' := Inserted(t, codice, nome, idRep, idInventario, idArea, ip).0;
    forall i | 0 <= i < |t.rows|
      ensures !SameTriple(t.rows[i], codice, idRep, idInventario)
    {
      assert t.rows[i] in t.rows;
    }
  }

  /** Without the guard a duplicate triple is possible. */
  lemma UnguardedCreateDuplicates()
    ensures var t := Inserted(ConfTable([], 1), "OP1", None, 10, 3, 7, "10.0.0.5").0;
      !UniqueTriples(Inserted(t, "OP1", None, 10, 3, 8, "10.0.0.6").0)
  {
    var t := Inserted(ConfTable([], 1), "OP1", None, 10, 3, 7, "10.0.0.5").0;
    var t' := Inserted(t, "OP1", None, 10, 3, 8, "10.0.0.6").0;
    assert SameTriple(t'.rows[0], t'.rows[1].codice, t'.rows[1].idRep, t'.rows[1].idInventario);
  }

  /** update: SET NOME, ID_AREA, IP_STAMPANTE WHERE ID_CONF = id. */
  function Updated(t: ConfTable, id: int, nome: Option<string>, idArea: int, ip: string): (r: ConfTable)
    ensures r.nextId == t.nextId && |r.rows| == |t.rows|
    ensures forall i :: 0 <= i < |t.rows| ==>
      && r.rows[i].idConf == t.rows[i].idConf
      && r.rows[i].codice == t.rows[i].codice
      && r.rows[i].idRep == t.rows[i].idRep
      && r.rows[i].idInventario == t.rows[i].idInventario
    ensures forall i :: 0 <= i < |t.rows| && t.rows[i].idConf != id ==> r.rows[i] == t.rows[i]
    ensures forall i :: 0 <= i < |t.rows| && t.rows[i].idConf == id ==>
      r.rows[i].nome == nome && r.rows[i].idArea == idArea && r.rows[i].ipStampante == ip
  {
    ConfTable(seq(|t.rows|, i requires 0 <= i < |t.rows| =>
      if t.rows[i].idConf == id then t.rows[i].(nome := nome, idArea := idArea, ipStampante := ip) else t.rows[i]),
      t.nextId)
  }

  /** update keeps both table invariants, since it never touches ID_CONF or the triple. */
  lemma UpdateKeepsInvariants(t: ConfTable, id: int, nome: Option<string>, idArea: int, ip: string)
    requires ValidConf(t) && UniqueTriples(t)
    ensures ValidConf(Updated(t, id, nome, idArea, ip)) && UniqueTriples(Updated(t, id, nome, idArea, ip))
  {
  }

  /** delete: DELETE WHERE ID_CONF = id. */
  function Deleted(t: ConfTable, id: int): (r: ConfTable)
    ensures r.nextId == t.nextId
    ensures forall x :: x in r.rows <==> x in t.rows && x.idConf != id
    ensures ValidConf(t) ==> ValidConf(r)
  {
    var p := (x: ConfRow) => x.idConf != id;
    var kept := Filter(t.rows, p);
    assert forall x :: x in t.rows && x.idConf != id ==> x in multiset(kept);
    if ValidConf(t) then FilterKeepsValid(t, p); ConfTable(kept, t.nextId)
    else ConfTable(kept, t.nextId)
  }

  /** After delete the id is gone and every other id still finds its row. */
  lemma DeleteOnlyThatRow(t: ConfTable, id: int, other: int)
    requires ValidConf(t)
    requires other != id
    ensures FindById(Deleted(t, id), id).None?
    ensures FindById(Deleted(t, id), other) == FindById(t, other)
  {
    var d := Deleted(t, id);
    if FindById(t, other).Some? {
      var x := FindById(t, other).value;
      assert x in d.rows;
      FindByIdUnique(t, other, x);
      FindByIdUnique(d, other, x);
    }
  }

  /** Keeping only some rows keeps ID_CONF unique and below the counter. */
  lemma FilterKeepsValid(t: ConfTable, p: ConfRow -> bool)
    requires ValidConf(t)
    ensures ValidConf(ConfTable(Filter(t.rows, p), t.nextId))
  {
    FilterKeepsDistinctBy(t.rows, IdOf, p);
    var f := Filter(t.rows, p);
    forall i | 0 <= i < |f| ensures f[i].idConf < t.nextId {
      assert f[i] in f;
    }
  }

  // ---------------------------------------------------------------------
  // Bulk statements
  // ---------------------------------------------------------------------

  /** bulkDelete: an empty list deletes nothing; otherwise DELETE WHERE ID_CONF IN (ids), returning rows deleted. */
  function BulkDeleted(t: ConfTable, ids: seq<int>): (r: (ConfTable, nat))
    ensures ids == [] ==> r == (t, 0)
    ensures forall x :: x in r.0.rows <==> x in t.rows && x.idConf !in ids
    ensures r.0.nextId == t.nextId
    ensures r.1 == |t.rows| - |r.0.rows|
    ensures ValidConf(t) ==> ValidConf(r.0)
  {
    if ids == [] then
      (t, 0)
    else
      var keep := (x: ConfRow) => x.idConf !in ids;
      var kept := Filter(t.rows, keep);
      assert forall x :: x in t.rows && x.idConf !in ids ==> x in multiset(kept);
      var d := ConfTable(kept, t.nextId);
      if ValidConf(t) then FilterKeepsValid(t, keep); (d, |t.rows| - |kept|)
      else (d, |t.rows| - |kept|)
  }

  /** bulkUpdateArea: SET ID_AREA = a WHERE ID_CONF IN (ids); returns the rows changed. */
  function AreaBulkUpdated(t: ConfTable, ids: seq<int>, a: int): (r: (ConfTable, nat))
    ensures r.0.nextId == t.nextId && |r.0.rows| == |t.rows|
    ensures ids == [] ==> r == (t, 0)
    ensures forall i :: 0 <= i < |t.rows| ==>
      r.0.rows[i] == if t.rows[i].idConf in ids then t.rows[i].(idArea := a) else t.rows[i]
    ensures r.1 == CountDiff(t.rows, r.0.rows)
  {
    if ids == [] then
      CountDiffSelf(t.rows);
      (t, 0)
    else
      var rows := seq(|t.rows|, i requires 0 <= i < |t.rows| =>
        if t.rows[i].idConf in ids then t.rows[i].(idArea := a) else t.rows[i]);
      var p := (x: ConfRow) => x.idConf in ids && x.idArea != a;
      FilterCountsChanges(t.rows, rows, p);
      (ConfTable(rows, t.nextId), |Filter(t.rows, p)|)
  }

  /** bulkUpdatePrinter: SET IP_STAMPANTE = ip WHERE ID_CONF IN (ids); returns the rows changed. */
  function PrinterBulkUpdated(t: ConfTable, ids: seq<int>, ip: string): (r: (ConfTable, nat))
    ensures r.0.nextId == t.nextId && |r.0.rows| == |t.rows|
    ensures ids == [] ==> r == (t, 0)
    ensures forall i :: 0 <= i < |t.rows| ==>
      r.0.rows[i] == if t.rows[i].idConf in ids then t.rows[i].(ipStampante := ip) else t.rows[i]
    ensures r.1 == CountDiff(t.rows, r.0.rows)
  {
    if ids == [] then
      CountDiffSelf(t.rows);
      (t, 0)
    else
      var rows := seq(|t.rows|, i requires 0 <= i < |t.rows| =>
        if t.rows[i].idConf in ids then t.rows[i].(ipStampante := ip) else t.rows[i]);
      var p := (x: ConfRow) => x.idConf in ids && x.ipStampante != ip;
      FilterCountsChanges(t.rows, rows, p);
      (ConfTable(rows, t.nextId), |Filter(t.rows, p)|)
  }

  /**
   * UPDATE CONF_OPERATORE SET ID_AREA = a WHERE CODICE = c AND ID_REP = r
   * AND ID_INVENTARIO = i (the statement Importer::process runs).
   */
  function AreaSetByTriple(t: ConfTable, codice: string, idRep: int, idInventario: int, a: int): (r: ConfTable)
    ensures r.nextId == t.nextId && |r.rows| == |t.rows|
    ensures forall i :: 0 <= i < |t.rows| ==>
      r.rows[i] == if SameTriple(t.rows[i], codice, idRep, idInventario) then t.rows[i].(idArea := a) else t.rows[i]
  {
    ConfTable(seq(|t.rows|, i requires 0 <= i < |t.rows| =>
      if SameTriple(t.rows[i], codice, idRep, idInventario) then t.rows[i].(idArea := a) else t.rows[i]),
      t.nextId)
  }

  /** Changing only ID_AREA keeps both table invariants. */
  lemma SetAreaKeepsInvariants(t: ConfTable, codice: string, idRep: int, idInventario: int, a: int)
    requires ValidConf(t) && UniqueTriples(t)
    ensures ValidConf(AreaSetByTriple(t, codice, idRep, idInventario, a))
    ensures UniqueTriples(AreaSetByTriple(t, codice, idRep, idInventario, a))
  {
  }

  /** With no configuration for the triple the statement changes nothing. */
  lemma SetAreaWithoutMatch(t: ConfTable, codice: string, idRep: int, idInventario: int, a: int)
    requires FindByKey(t, codice, idRep, idInventario).None?
    ensures AreaSetByTriple(t, codice, idRep, idInventario, a) == t
  {
    var t' := AreaSetByTriple(t, codice, idRep, idInventario, a);
    forall i | 0 <= i < |t.rows| ensures t'.rows[i] == t.rows[i] {
      assert t.rows[i] in t.rows;
    }
  }

  /** With one configuration per triple, findByKey afterwards reports the new area. */
  lemma SetAreaThenFind(t: ConfTable, codice: string, idRep: int, idInventario: int, a: int)
    requires UniqueTriples(t)
    requires FindByKey(t, codice, idRep, idInventario).Some?
    ensures FindByKey(AreaSetByTriple(t, codice, idRep, idInventario, a), codice, idRep, idInventario)
      == Some(FindByKey(t, codice, idRep, idInventario).value.(idArea := a))
  {
    var t' := AreaSetByTriple(t, codice, idRep, idInventario, a);
    var x := FindByKey(t, codice, idRep, idInventario).value;
    var k :| 0 <= k < |t.rows| && t.rows[k] == x;
    assert t'.rows[k] in t'.rows && SameTriple(t'.rows[k], codice, idRep, idInventario);
    var y := FindByKey(t', codice, idRep, idInventario).value;
    var j :| 0 <= j < |t'.rows| && t'.rows[j] == y;
    assert t'.rows[j] == t.rows[j].(idArea := a);
    assert SameTriple(t.rows[j], codice, idRep, idInventario);
    UniqueTriplesIndex(t, j, k);
  }

  lemma UniqueTriplesIndex(t: ConfTable, j: nat, k: nat)
    requires UniqueTriples(t)
    requires j < |t.rows| && k < |t.rows|
    requires SameTriple(t.rows[j], t.rows[k].codice, t.rows[k].idRep, t.rows[k].idInventario)
    ensures j == k
  {
  }

  // ---------------------------------------------------------------------
  // The repository object
  // ---------------------------------------------------------------------

  class ConfigOperatoreRepository {
    var table: ConfTable

    ghost predicate Valid()
      reads this
    {
      ValidConf(table)
    }

    constructor(t: ConfTable)
      requires ValidConf(t)
      ensures Valid() && table == t
    {
      table := t;
    }

    method Create(codice: string, nome: Option<string>, idRep: int, idInventario: int, idArea: int, ip: string) returns (id: nat)
      requires Valid()
      modifies this
      ensures Valid()
      ensures (table, id) == Inserted(old(table), codice, nome, idRep, idInventario, idArea, ip)
      ensures FindById(table, id) == Some(ConfRow(id, codice, nome, idRep, idInventario, idArea, ip))
    {
      CreateFresh(table, codice, nome, idRep, idInventario, idArea, ip);
      var r := Inserted(table, codice, nome, idRep, idInventario, idArea, ip);
      table, id := r.0, r.1;
    }

    method Update(id: int, nome: Option<string>, idArea: int, ip: string)
      requires Valid()
      modifies this
      ensures Valid()
      ensures table == Updated(old(table), id, nome, idArea, ip)
    {
      table := Updated(table, id, nome, idArea, ip);
    }

    method Delete(id: int)
      requires Valid()
      modifies this
      ensures Valid()
      ensures table == Deleted(old(table), id)
      ensures FindById(table, id).None?
    {
      table := Deleted(table, id);
    }

    method BulkDelete(ids: seq<int>) returns (count: nat)
      requires Valid()
      modifies this
      ensures Valid()
      ensures (table, count) == BulkDeleted(old(table), ids)
    {
      var r := BulkDeleted(table, ids);
      table, count := r.0, r.1;
    }

    method BulkUpdateArea(ids: seq<int>, a: int) returns (count: nat)
      requires Valid()
      modifies this
      ensures Valid()
      ensures (table, count) == AreaBulkUpdated(old(table), ids, a)
    {
      var r := AreaBulkUpdated(table, ids, a);
      table, count := r.0, r.1;
    }

    method BulkUpdatePrinter(ids: seq<int>, ip: string) returns (count: nat)
      requires Valid()
      modifies this
      ensures Valid()
      ensures (table, count) == PrinterBulkUpdated(old(table), ids, ip)
    {
      var r := PrinterBulkUpdated(table, ids, ip);
      table, count := r.0, r.1;
    }

    method SetAreaByTriple(codice: string, idRep: int, idInventario: int, a: int)
      requires Valid()
      modifies this
      ensures Valid()
      ensures table == AreaSetByTriple(old(table), codice, idRep, idInventario, a)
    {
      table := AreaSetByTriple(table, codice, idRep, idInventario, a);
    }
  }
}
