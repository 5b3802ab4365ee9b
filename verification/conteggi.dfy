/**
 * The CONTEGGI table (persisted inventory counts) and the statements of
 * ConteggiRepository: the ON DUPLICATE KEY upsert, the print selections by
 * type, the "mark as printed" update and the unprinted count.
 *
 * The table is a sequence of rows in insertion order. Which columns form the
 * unique key behind ON DUPLICATE KEY is not part of the repository's code;
 * the model takes the seven identity columns of `NaturalKey`.
 */
module Conteggi {
  import opened Util
  import opened Text

  /** REPARTO, NUMERO_INV, PRECODICE, CODICE_ART, POSIZIONE, NUMERO_CONTA, PROG. */
  datatype NaturalKey = NaturalKey(
    reparto: int, numeroInv: int, precodice: string, codiceArt: string,
    posizione: string, numeroConta: int, prog: int)

  /**
   * One CONTEGGI row. `codiceOperatore` is the CODICE_OPERATORE column the
   * print selections filter on; the upsert does not write it, so a row it
   * inserts carries the column default, taken to be NULL.
   */
  datatype CountRow = CountRow(
    idConteggio: nat,
    key: NaturalKey,
    qta: int,
    operCreaz: string,
    codiceOperatore: Option<string>,
    tsCreazione: string,
    idArea: int,
    stampato: int)

  /** The table and its AUTO_INCREMENT counter. */
  datatype CountTable = CountTable(rows: seq<CountRow>, nextId: nat)

  /** The values upsertFromINVC binds. */
  datatype UpsertData = UpsertData(key: NaturalKey, qty: int, operCreaz: string, tsCreazione: string, idArea: int)

  /** The unique natural key and the unique ID_CONTEGGIO below the counter. */
  ghost predicate ValidTable(t: CountTable)
  {
    && (forall i, j :: 0 <= i < j < |t.rows| ==> t.rows[i].key != t.rows[j].key)
    && (forall i, j :: 0 <= i < j < |t.rows| ==> t.rows[i].idConteggio != t.rows[j].idConteggio)
    && (forall i :: 0 <= i < |t.rows| ==> t.rows[i].idConteggio < t.nextId)
  }

  function KeysOf(t: CountTable): set<NaturalKey>
  {
    set r | r in t.rows :: r.key
  }

  // ---------------------------------------------------------------------
  // upsertFromINVC
  // ---------------------------------------------------------------------

  /** Position of the first row carrying key `k`. */
  function FindKey(rows: seq<CountRow>, k: NaturalKey): (r: Option<nat>)
    ensures r.Some? ==> r.value < |rows| && rows[r.value].key == k
    ensures r.Some? ==> forall i :: 0 <= i < r.value ==> rows[i].key != k
    ensures r.None? ==> forall i :: 0 <= i < |rows| ==> rows[i].key != k
  {
    if rows == [] then None
    else if rows[0].key == k then Some(0)
    else match FindKey(rows[1..], k)
      case None => None
      case Some(i) => Some(i + 1)
  }

  /** A row carrying the key with no such row before it is the one FindKey returns. */
  lemma FindKeyFirst(rows: seq<CountRow>, k: NaturalKey, i: nat)
    requires i < |rows| && rows[i].key == k
    requires forall j :: 0 <= j < i ==> rows[j].key != k
    ensures FindKey(rows, k) == Some(i)
  {
  }

  /** The row INSERT adds: STAMPATO takes its default 0, CODICE_OPERATORE its default NULL. */
  function NewRow(id: nat, d: UpsertData): CountRow
  {
    CountRow(id, d.key, d.qty, d.operCreaz, None, d.tsCreazione, d.idArea, 0)
  }

  /** ON DUPLICATE KEY UPDATE QTA_CONTEGGIATA, STAMPATO = 0, ID_AREA. */
  function Merged(row: CountRow, d: UpsertData): CountRow
  {
    row.(qta := d.qty, stampato := 0, idArea := d.idArea)
  }

  /** INSERT ... ON DUPLICATE KEY UPDATE, on the whole table. */
  function Upsert(t: CountTable, d: UpsertData): (r: CountTable)
    ensures FindKey(t.rows, d.key).None? ==>
      r.rows == t.rows + [NewRow(t.nextId, d)] && r.nextId == t.nextId + 1
    ensures FindKey(t.rows, d.key).Some? ==> |r.rows| == |t.rows| && r.nextId == t.nextId
    ensures forall i :: 0 <= i < |t.rows| ==>
      r.rows[i] == if t.rows[i].key == d.key && FindKey(t.rows, d.key) == Some(i) then Merged(t.rows[i], d) else t.rows[i]
  {
    match FindKey(t.rows, d.key)
    case None => CountTable(t.rows + [NewRow(t.nextId, d)], t.nextId + 1)
    case Some(i) => CountTable(t.rows[i := Merged(t.rows[i], d)], t.nextId)
  }

  /** Afterwards exactly one row carries the key, and the table invariant still holds. */
  lemma UpsertLeavesExactlyOneRow(t: CountTable, d: UpsertData)
    requires ValidTable(t)
    ensures ValidTable(Upsert(t, d))
    ensures FindKey(Upsert(t, d).rows, d.key).Some?
    ensures forall i, j :: 0 <= i < j < |Upsert(t, d).rows| ==> Upsert(t, d).rows[i].key != Upsert(t, d).rows[j].key
  {
    var r := Upsert(t, d);
    match FindKey(t.rows, d.key)
    case None =>
      assert r.rows[|t.rows|].key == d.key;
    case Some(k) =>
      assert r.rows[k].key == d.key;
  }

  /** A new key adds one row carrying exactly the given fields; nothing else changes. */
  lemma UpsertNewKey(t: CountTable, d: UpsertData)
    requires d.key !in KeysOf(t)
    ensures |Upsert(t, d).rows| == |t.rows| + 1
    ensures Upsert(t, d).rows[..|t.rows|] == t.rows
    ensures var n := Upsert(t, d).rows[|t.rows|];
      && n.key == d.key && n.qta == d.qty && n.operCreaz == d.operCreaz
      && n.tsCreazione == d.tsCreazione && n.idArea == d.idArea && n.stampato == 0
  {
    if FindKey(t.rows, d.key).Some? {
      assert false;
    }
  }

  /**
   * An existing key: only QTA_CONTEGGIATA, ID_AREA and STAMPATO (reset to 0)
   * change; TS_CREAZIONE, OPER_CREAZ, the key and the id keep their values,
   * and every other row is untouched.
   */
  lemma UpsertExistingKey(t: CountTable, d: UpsertData, i: nat)
    requires ValidTable(t)
    requires i < |t.rows| && t.rows[i].key == d.key
    ensures |Upsert(t, d).rows| == |t.rows|
    ensures var n := Upsert(t, d).rows[i];
      && n.qta == d.qty && n.idArea == d.idArea && n.stampato == 0
      && n.tsCreazione == t.rows[i].tsCreazione && n.operCreaz == t.rows[i].operCreaz
      && n.key == t.rows[i].key && n.idConteggio == t.rows[i].idConteggio
      && n.codiceOperatore == t.rows[i].codiceOperatore
    ensures forall j :: 0 <= j < |t.rows| && j != i ==> Upsert(t, d).rows[j] == t.rows[j]
  {
    var f := FindKey(t.rows, d.key);
    assert f.Some?;
    assert f.value == i;
  }

  /** Upserting the same data twice leaves the table as upserting it once. */
  lemma UpsertIdempotent(t: CountTable, d: UpsertData)
    ensures Upsert(Upsert(t, d), d) == Upsert(t, d)
  {
    var r := Upsert(t, d);
    match FindKey(t.rows, d.key)
    case None =>
      FindKeyFirst(r.rows, d.key, |t.rows|);
      assert r.rows[|t.rows| := Merged(r.rows[|t.rows|], d)] == r.rows;
    case Some(k) =>
      FindKeyFirst(r.rows, d.key, k);
      assert r.rows[k := Merged(r.rows[k], d)] == r.rows;
  }

  /** The upsert never loses a key and adds exactly the upserted one. */
  lemma UpsertKeys(t: CountTable, d: UpsertData)
    ensures KeysOf(Upsert(t, d)) == KeysOf(t) + {d.key}
  {
    var r := Upsert(t, d);
    match FindKey(t.rows, d.key)
    case None =>
      assert r.rows[|t.rows|] in r.rows;
    case Some(k) =>
      assert t.rows[k] in t.rows;
      assert r.rows[k] in r.rows;
      forall x | x in KeysOf(t) ensures x in KeysOf(r) {
        var row :| row in t.rows && row.key == x;
        var j :| 0 <= j < |t.rows| && t.rows[j] == row;
        assert r.rows[j].key == x;
        assert r.rows[j] in r.rows;
      }
      forall x | x in KeysOf(r) ensures x in KeysOf(t) + {d.key} {
        var row :| row in r.rows && row.key == x;
        var j :| 0 <= j < |r.rows| && r.rows[j] == row;
        assert t.rows[j] in t.rows;
      }
  }

  // ---------------------------------------------------------------------
  // getForPrint
  // ---------------------------------------------------------------------

  predicate Unprinted(x: CountRow)
  {
    x.stampato == 0
  }

  /** ORDER BY TS_CREAZIONE. */
  predicate TsAscLe(a: CountRow, b: CountRow)
  {
    LexLe(a.tsCreazione, b.tsCreazione)
  }

  /** ORDER BY TS_CREAZIONE DESC. */
  predicate TsDescLe(a: CountRow, b: CountRow)
  {
    LexLe(b.tsCreazione, a.tsCreazione)
  }

  /** ORDER BY REPARTO, NUMERO_INV. */
  predicate RepartoInvLe(a: CountRow, b: CountRow)
  {
    a.key.reparto < b.key.reparto || (a.key.reparto == b.key.reparto && a.key.numeroInv <= b.key.numeroInv)
  }

  lemma TsAscPreorder()
    ensures TotalPreorder(TsAscLe)
  {
    forall a: CountRow, b: CountRow ensures TsAscLe(a, b) || TsAscLe(b, a) {
      LexLeTotal(a.tsCreazione, b.tsCreazione);
    }
    forall a: CountRow, b: CountRow, c: CountRow | TsAscLe(a, b) && TsAscLe(b, c) ensures TsAscLe(a, c) {
      LexLeTransitive(a.tsCreazione, b.tsCreazione, c.tsCreazione);
    }
  }

  lemma TsDescPreorder()
    ensures TotalPreorder(TsDescLe)
  {
    forall a: CountRow, b: CountRow ensures TsDescLe(a, b) || TsDescLe(b, a) {
      LexLeTotal(a.tsCreazione, b.tsCreazione);
    }
    forall a: CountRow, b: CountRow, c: CountRow | TsDescLe(a, b) && TsDescLe(b, c) ensures TsDescLe(a, c) {
      LexLeTransitive(c.tsCreazione, b.tsCreazione, a.tsCreazione);
    }
  }

  lemma RepartoInvPreorder()
    ensures TotalPreorder(RepartoInvLe)
  {
  }

  /** WHERE ID_AREA = ? AND STAMPATO = 0. */
  function UnprintedOfArea(rows: seq<CountRow>, area: int): (r: seq<CountRow>)
    ensures forall x :: multiset(r)[x] == if x.idArea == area && x.stampato == 0 then multiset(rows)[x] else 0
  {
    Filter(rows, (x: CountRow) => x.idArea == area && x.stampato == 0)
  }

  /** WHERE STAMPATO = 0. */
  function AllUnprinted(rows: seq<CountRow>): (r: seq<CountRow>)
    ensures forall x :: multiset(r)[x] == if x.stampato == 0 then multiset(rows)[x] else 0
  {
    Filter(rows, Unprinted)
  }

  /** Type 1: WHERE ID_AREA = ? AND STAMPATO = 0 ORDER BY TS_CREAZIONE. */
  function AreaByTime(rows: seq<CountRow>, area: int): (r: seq<CountRow>)
    ensures SortedBy(r, TsAscLe)
    ensures forall x :: multiset(r)[x] == if x.idArea == area && x.stampato == 0 then multiset(rows)[x] else 0
  {
    TsAscPreorder();
    SortBy(UnprintedOfArea(rows, area), TsAscLe)
  }

  /** Types 3 and 5: WHERE STAMPATO = 0 ORDER BY REPARTO, NUMERO_INV. */
  function AllByReparto(rows: seq<CountRow>): (r: seq<CountRow>)
    ensures SortedBy(r, RepartoInvLe)
    ensures forall x :: multiset(r)[x] == if x.stampato == 0 then multiset(rows)[x] else 0
  {
    RepartoInvPreorder();
    SortBy(AllUnprinted(rows), RepartoInvLe)
  }

  /**
   * Type 4: WHERE STAMPATO = 0 ORDER BY TS_CREAZIONE DESC LIMIT 50: the 50
   * newest unprinted rows (all of them when fewer), newest first.
   */
  function LatestFifty(rows: seq<CountRow>): (r: seq<CountRow>)
    ensures FirstNBy(r, AllUnprinted(rows), 50, TsDescLe)
  {
    TsDescPreorder();
    var s := SortBy(AllUnprinted(rows), TsDescLe);
    TakeSortedIsFirstN(s, AllUnprinted(rows), 50, TsDescLe);
    Take(s, 50)
  }

  /**
   * getForPrint($type, $idArea): 1 = the unprinted rows of the area by
   * creation time (none when the area is 0 or NULL), 3 and 5 = every
   * unprinted row by REPARTO, NUMERO_INV, 4 = the 50 most recent unprinted
   * rows, anything else = nothing.
   */
  function GetForPrint(t: CountTable, printType: int, idArea: Option<int>): (r: seq<CountRow>)
    ensures forall x :: x in r ==> x in t.rows && x.stampato == 0
    ensures printType == 1 && (idArea.None? || idArea.value == 0) ==> r == []
    ensures printType == 1 && idArea.Some? && idArea.value != 0 ==>
      && SortedBy(r, TsAscLe)
      && forall x :: multiset(r)[x] == if x.idArea == idArea.value && x.stampato == 0 then multiset(t.rows)[x] else 0
    ensures printType == 3 || printType == 5 ==>
      && SortedBy(r, RepartoInvLe)
      && forall x :: multiset(r)[x] == if x.stampato == 0 then multiset(t.rows)[x] else 0
    ensures printType == 4 ==> FirstNBy(r, AllUnprinted(t.rows), 50, TsDescLe)
    ensures printType !in {1, 3, 4, 5} ==> r == []
  {
    var r :=
      if printType == 1 then
        if idArea.None? || idArea.value == 0 then [] else AreaByTime(t.rows, idArea.value)
      else if printType == 3 || printType == 5 then AllByReparto(t.rows)
      else if printType == 4 then LatestFifty(t.rows)
      else [];
    assert forall x :: x in r ==> x in multiset(r);
    if printType == 4 then
      assert forall x :: x in r ==> x in multiset(AllUnprinted(t.rows));
      r
    else
      r
  }

  /** A table holding a single unprinted row selects exactly that row under type 3. */
  lemma SelectAllSingle(t: CountTable, x: CountRow, a: Option<int>)
    requires t.rows == [x] && x.stampato == 0
    ensures GetForPrint(t, 3, a) == [x]
  {
    var r := GetForPrint(t, 3, a);
    assert forall y :: multiset(r)[y] == multiset([x])[y];
    assert multiset(r) == multiset([x]);
    SameMultisetSameLength(r, [x]);
    assert r[0] in multiset(r);
  }

  /** Types 3 and 5 are the same selection. */
  lemma TypesThreeAndFiveAgree(t: CountTable, a: Option<int>, b: Option<int>)
    ensures GetForPrint(t, 3, a) == GetForPrint(t, 5, b)
  {
  }

  // ---------------------------------------------------------------------
  // countUnprinted
  // ---------------------------------------------------------------------

  /**
   * countUnprinted($idArea): SELECT COUNT(*) of the unprinted rows, of the
   * area when it is non-zero and non-NULL, of the whole table otherwise.
   */
  function CountUnprinted(t: CountTable, idArea: Option<int>): (n: nat)
    ensures n <= |t.rows|
    ensures idArea.Some? && idArea.value != 0 ==>
      n == Count(t.rows, (x: CountRow) => x.idArea == idArea.value && x.stampato == 0)
    ensures idArea.None? || idArea.value == 0 ==> n == Count(t.rows, Unprinted)
  {
    if idArea.Some? && idArea.value != 0 then
      FilterCount(t.rows, (x: CountRow) => x.idArea == idArea.value && x.stampato == 0);
      |UnprintedOfArea(t.rows, idArea.value)|
    else
      FilterCount(t.rows, Unprinted);
      |AllUnprinted(t.rows)|
  }

  /**
   * The count agrees with the print selections: with an area it is the size
   * of type 1, without one the size of type 3.
   */
  lemma CountUnprintedMatchesSelection(t: CountTable, idArea: Option<int>)
    ensures idArea.Some? && idArea.value != 0 ==> CountUnprinted(t, idArea) == |GetForPrint(t, 1, idArea)|
    ensures idArea.None? || idArea.value == 0 ==> CountUnprinted(t, idArea) == |GetForPrint(t, 3, idArea)|
  {
    if idArea.Some? && idArea.value != 0 {
      var s := UnprintedOfArea(t.rows, idArea.value);
      SameMultisetSameLength(GetForPrint(t, 1, idArea), s);
    } else {
      SameMultisetSameLength(GetForPrint(t, 3, idArea), AllUnprinted(t.rows));
    }
  }

  // ---------------------------------------------------------------------
  // markAsPrinted
  // ---------------------------------------------------------------------

  /** UPDATE CONTEGGI SET STAMPATO = 1 WHERE REPARTO IN (ids), as the repository writes it. */
  function MarkRepartiPrinted(t: CountTable, ids: seq<int>): (r: CountTable)
    ensures r.nextId == t.nextId && |r.rows| == |t.rows|
    ensures forall i :: 0 <= i < |t.rows| ==>
      r.rows[i] == if t.rows[i].key.reparto in ids then t.rows[i].(stampato := 1) else t.rows[i]
  {
    CountTable(seq(|t.rows|, i requires 0 <= i < |t.rows| =>
      if t.rows[i].key.reparto in ids then t.rows[i].(stampato := 1) else t.rows[i]), t.nextId)
  }

  /** The second table differs from the first at most by STAMPATO = 1 on some rows. */
  predicate OnlyStampatoSet(t: CountTable, r: CountTable)
  {
    && r.nextId == t.nextId && |r.rows| == |t.rows|
    && forall i :: 0 <= i < |t.rows| ==> r.rows[i] == t.rows[i] || r.rows[i] == t.rows[i].(stampato := 1)
  }

  /** Marking only touches STAMPATO, so the table invariant and the key set survive. */
  lemma StampatoKeepsTable(t: CountTable, r: CountTable)
    requires ValidTable(t)
    requires OnlyStampatoSet(t, r)
    ensures ValidTable(r)
    ensures KeysOf(r) == KeysOf(t)
  {
    forall x | x in KeysOf(t) ensures x in KeysOf(r) {
      var row :| row in t.rows && row.key == x;
      var j :| 0 <= j < |t.rows| && t.rows[j] == row;
      assert r.rows[j] in r.rows;
    }
    forall x | x in KeysOf(r) ensures x in KeysOf(t) {
      var row :| row in r.rows && row.key == x;
      var j :| 0 <= j < |r.rows| && r.rows[j] == row;
      assert t.rows[j] in t.rows;
    }
  }

  /**
   * The selection's ID_CONTEGGIO values are compared with REPARTO: the row
   * that was printed (id 1, reparto 10) stays unprinted, and an unrelated
   * row of reparto 1 is marked.
   */
  lemma MarkRepartiPrintedMissesPrintedRow()
    ensures var k1 := NaturalKey(10, 3, "P", "A", "", 0, 0);
      var k2 := NaturalKey(1, 3, "P", "B", "", 0, 0);
      var printed := CountRow(1, k1, 5, "OP1", Some("OP1"), "2025-01-28 10:00:00", 7, 0);
      var other := CountRow(2, k2, 4, "OP2", Some("OP2"), "2025-01-28 10:01:00", 8, 0);
      var r := MarkRepartiPrinted(CountTable([printed, other], 3), [printed.idConteggio]);
      r.rows[0].stampato == 0 && r.rows[1].stampato == 1
  {
  }

  /** UPDATE CONTEGGI SET STAMPATO = 1 WHERE ID_CONTEGGIO IN (ids): what the caller means. */
  function MarkIdsPrinted(t: CountTable, ids: seq<int>): (r: CountTable)
    ensures r.nextId == t.nextId && |r.rows| == |t.rows|
    ensures forall i :: 0 <= i < |t.rows| ==>
      r.rows[i] == if t.rows[i].idConteggio in ids then t.rows[i].(stampato := 1) else t.rows[i]
  {
    CountTable(seq(|t.rows|, i requires 0 <= i < |t.rows| =>
      if t.rows[i].idConteggio in ids then t.rows[i].(stampato := 1) else t.rows[i]), t.nextId)
  }

  function IdsOf(rows: seq<CountRow>): (ids: seq<int>)
    ensures |ids| == |rows|
    ensures forall i :: 0 <= i < |rows| ==> ids[i] == rows[i].idConteggio
  {
    seq(|rows|, i requires 0 <= i < |rows| => rows[i].idConteggio)
  }

  /**
   * Marking the ids of a selection drawn from a valid table prints exactly
   * the selected rows and leaves every other row as it was.
   */
  lemma MarkIdsPrintsExactlySelection(t: CountTable, sel: seq<CountRow>)
    requires ValidTable(t)
    requires forall x :: x in sel ==> x in t.rows
    ensures forall i :: 0 <= i < |t.rows| ==>
      && (t.rows[i] in sel ==> MarkIdsPrinted(t, IdsOf(sel)).rows[i].stampato == 1)
      && (t.rows[i] !in sel ==> MarkIdsPrinted(t, IdsOf(sel)).rows[i] == t.rows[i])
  {
    var ids := IdsOf(sel);
    forall i | 0 <= i < |t.rows| && t.rows[i] !in sel
      ensures t.rows[i].idConteggio !in ids
    {
      forall k | 0 <= k < |ids|
        ensures ids[k] != t.rows[i].idConteggio
      {
        assert sel[k] in sel;
        var j :| 0 <= j < |t.rows| && t.rows[j] == sel[k];
        assert j != i;
      }
    }
    forall i | 0 <= i < |t.rows| && t.rows[i] in sel
      ensures t.rows[i].idConteggio in ids
    {
      var k :| 0 <= k < |sel| && sel[k] == t.rows[i];
      assert ids[k] == t.rows[i].idConteggio;
    }
  }

  // ---------------------------------------------------------------------
  // The repository object: the table as state the statements update in place
  // ---------------------------------------------------------------------

  class ConteggiRepository {
    var table: CountTable

    ghost predicate Valid()
      reads this
    {
      ValidTable(table)
    }

    constructor(t: CountTable)
      requires ValidTable(t)
      ensures Valid() && table == t
    {
      table := t;
    }

    /** upsertFromINVC. */
    method UpsertFromInvc(d: UpsertData)
      requires Valid()
      modifies this
      ensures Valid()
      ensures table == Upsert(old(table), d)
      ensures KeysOf(table) == KeysOf(old(table)) + {d.key}
    {
      UpsertLeavesExactlyOneRow(table, d);
      UpsertKeys(table, d);
      table := Upsert(table, d);
    }

    /**
     * markAsPrinted: an empty list is a no-op; otherwise STAMPATO = 1 on the
     * rows whose REPARTO is among the listed values, as the statement is
     * written (the caller lists ID_CONTEGGIO values; see MarkIdsPrinted).
     */
    method MarkAsPrinted(ids: seq<int>)
      requires Valid()
      modifies this
      ensures Valid()
      ensures KeysOf(table) == KeysOf(old(table))
      ensures ids == [] ==> table == old(table)
      ensures ids != [] ==> table == MarkRepartiPrinted(old(table), ids)
    {
      if ids == [] {
        return;
      }
      StampatoKeepsTable(table, MarkRepartiPrinted(table, ids));
      table := MarkRepartiPrinted(table, ids);
    }
  }
}
