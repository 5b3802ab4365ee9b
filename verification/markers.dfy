/**
 * The MARKER catalogue: the (PRECODICE, CODICE_ART) pairs that turn an INVC
 * record into a command, read through a process-wide cache that is served
 * for 300 seconds. The cache and its load time are the repository's static
 * state; the catalogue as it stands in the database, and the clock, are
 * parameters of each call.
 */
module Markers {
  import opened Util
  import opened Text

  /** CACHE_TTL: seconds a loaded catalogue is served without a query. */
  const CacheTtl := 300

  datatype MarkerRow = MarkerRow(precodice: string, codiceArt: string)

  /** ORDER BY PRECODICE, CODICE_ART. */
  predicate MarkerLe(a: MarkerRow, b: MarkerRow)
  {
    if a.precodice != b.precodice then LexLe(a.precodice, b.precodice) else LexLe(a.codiceArt, b.codiceArt)
  }

  lemma MarkerLePreorder()
    ensures TotalPreorder(MarkerLe)
  {
    forall a: MarkerRow, b: MarkerRow ensures MarkerLe(a, b) || MarkerLe(b, a) {
      LexLeTotal(a.precodice, b.precodice);
      LexLeTotal(a.codiceArt, b.codiceArt);
    }
    forall a: MarkerRow, b: MarkerRow, c: MarkerRow | MarkerLe(a, b) && MarkerLe(b, c) ensures MarkerLe(a, c) {
      if a.precodice == b.precodice && b.precodice == c.precodice {
        LexLeTransitive(a.codiceArt, b.codiceArt, c.codiceArt);
      } else if a.precodice != b.precodice && b.precodice != c.precodice {
        LexLeTransitive(a.precodice, b.precodice, c.precodice);
        if a.precodice == c.precodice {
          LexLeAntisymmetric(a.precodice, b.precodice);
        }
      }
    }
  }

  /** The SELECT behind a reload: the whole catalogue in key order. */
  function Query(catalogue: seq<MarkerRow>): (r: seq<MarkerRow>)
    ensures SortedBy(r, MarkerLe)
    ensures multiset(r) == multiset(catalogue)
  {
    MarkerLePreorder();
    SortBy(catalogue, MarkerLe)
  }

  /** The cache is served only when it is non-empty and younger than the TTL. */
  predicate Fresh(cache: seq<MarkerRow>, cacheTime: int, now: int)
  {
    cache != [] && now - cacheTime < CacheTtl
  }

  /** What getAll returns, as a function of the cache, the clock and the catalogue. */
  function Served(cache: seq<MarkerRow>, cacheTime: int, now: int, catalogue: seq<MarkerRow>): (r: seq<MarkerRow>)
    ensures Fresh(cache, cacheTime, now) ==> r == cache
    ensures !Fresh(cache, cacheTime, now) ==> multiset(r) == multiset(catalogue)
  {
    if Fresh(cache, cacheTime, now) then cache else Query(catalogue)
  }

  /** A cache that is empty or holds exactly the catalogue's rows. */
  predicate Coherent(cache: seq<MarkerRow>, catalogue: seq<MarkerRow>)
  {
    cache == [] || multiset(cache) == multiset(catalogue)
  }

  /** The pair is in a list of markers. */
  predicate Listed(markers: seq<MarkerRow>, precodice: string, codiceArt: string)
  {
    exists i :: 0 <= i < |markers| && markers[i].precodice == precodice && markers[i].codiceArt == codiceArt
  }

  /**
   * A cache that was loaded from the current catalogue answers as the
   * catalogue does: isMarker then agrees with the table whatever the clock.
   */
  lemma ServedAgreesWithCatalogue(cache: seq<MarkerRow>, cacheTime: int, now: int, catalogue: seq<MarkerRow>, p: string, c: string)
    requires Coherent(cache, catalogue)
    ensures Listed(Served(cache, cacheTime, now, catalogue), p, c) <==> MarkerRow(p, c) in catalogue
  {
    var s := Served(cache, cacheTime, now, catalogue);
    assert multiset(s) == multiset(catalogue);
    if MarkerRow(p, c) in catalogue {
      assert MarkerRow(p, c) in multiset(s);
      var i :| 0 <= i < |s| && s[i] == MarkerRow(p, c);
    }
    if Listed(s, p, c) {
      var i :| 0 <= i < |s| && s[i].precodice == p && s[i].codiceArt == c;
      assert s[i] in multiset(catalogue);
    }
  }

  /** A stale cache can answer differently from the catalogue for up to the TTL. */
  lemma StaleCacheAnswersOldCatalogue()
    ensures var cache := [MarkerRow("ZZZ", "AREA")];
      Served(cache, 1000, 1299, []) == cache && Listed(Served(cache, 1000, 1299, []), "ZZZ", "AREA")
  {
    var cache := [MarkerRow("ZZZ", "AREA")];
    assert cache[0].precodice == "ZZZ" && cache[0].codiceArt == "AREA";
  }

  /** The foreach of isMarker: true at the first entry matching both columns exactly. */
  method Scan(markers: seq<MarkerRow>, precodice: string, codiceArt: string) returns (found: bool)
    ensures found <==> Listed(markers, precodice, codiceArt)
  {
    var i := 0;
    while i < |markers|
      invariant 0 <= i <= |markers|
      invariant forall j :: 0 <= j < i ==> !(markers[j].precodice == precodice && markers[j].codiceArt == codiceArt)
    {
      if markers[i].precodice == precodice && markers[i].codiceArt == codiceArt {
        return true;
      }
      i := i + 1;
    }
    return false;
  }

  /** The repository's static state: the cached rows and the time they were loaded. */
  class MarkerRepository {
    var cache: seq<MarkerRow>
    var cacheTime: int

    constructor()
      ensures cache == [] && cacheTime == 0
    {
      cache := [];
      cacheTime := 0;
    }

    /**
     * getAll: serves the cache while fresh, otherwise queries the catalogue,
     * stores the result and stamps it with `now`.
     */
    method GetAll(now: int, catalogue: seq<MarkerRow>) returns (markers: seq<MarkerRow>, queried: bool)
      modifies this
      ensures markers == Served(old(cache), old(cacheTime), now, catalogue)
      ensures queried <==> !Fresh(old(cache), old(cacheTime), now)
      ensures old(cache) == [] ==> queried
      ensures queried ==> cache == markers && cacheTime == now
      ensures !queried ==> cache == old(cache) && cacheTime == old(cacheTime)
      ensures cache == markers && (markers != [] ==> Fresh(cache, cacheTime, now))
      ensures Coherent(old(cache), catalogue) ==> Coherent(cache, catalogue)
    {
      if cache != [] && now - cacheTime < CacheTtl {
        return cache, false;
      }
      markers := Query(catalogue);
      cache := markers;
      cacheTime := now;
      queried := true;
    }

    /** isMarker: a linear scan of getAll's list for an exact match of both columns. */
    method IsMarker(now: int, catalogue: seq<MarkerRow>, precodice: string, codiceArt: string) returns (found: bool)
      modifies this
      ensures found <==> Listed(Served(old(cache), old(cacheTime), now, catalogue), precodice, codiceArt)
      ensures Coherent(old(cache), catalogue) ==> (found <==> MarkerRow(precodice, codiceArt) in catalogue)
      ensures Coherent(old(cache), catalogue) ==> Coherent(cache, catalogue)
      ensures found ==> Fresh(cache, cacheTime, now) && Listed(cache, precodice, codiceArt)
    {
      ghost var coherent := Coherent(cache, catalogue);
      if coherent {
        ServedAgreesWithCatalogue(cache, cacheTime, now, catalogue, precodice, codiceArt);
      }
      var markers, _ := GetAll(now, catalogue);
      found := Scan(markers, precodice, codiceArt);
    }

    /** getMarkerType: the CODICE_ART itself when the pair is a marker, otherwise None. */
    method GetMarkerType(now: int, catalogue: seq<MarkerRow>, precodice: string, codiceArt: string) returns (kind: Option<string>)
      modifies this
      ensures kind.Some? <==> Listed(Served(old(cache), old(cacheTime), now, catalogue), precodice, codiceArt)
      ensures kind.Some? ==> kind.value == codiceArt
      ensures Coherent(old(cache), catalogue) ==> Coherent(cache, catalogue)
    {
      var isMarker := IsMarker(now, catalogue, precodice, codiceArt);
      if isMarker {
        return Some(codiceArt);
      }
      return None;
    }

    /** invalidateCache: empties the cache, so the next getAll queries whatever the clock says. */
    method InvalidateCache()
      modifies this
      ensures cache == [] && cacheTime == 0
      ensures forall now :: !Fresh(cache, cacheTime, now)
    {
      cache := [];
      cacheTime := 0;
    }
  }
}
