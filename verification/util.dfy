/**
 * Sequence helpers shared by the model: an Option type for SQL NULL and
 * "no row", a Result type for a thrown exception, filtering (SQL WHERE),
 * counting (COUNT(*)), sorting (ORDER BY) and truncation (LIMIT).
 */
module Util {

  datatype Option<+T> = None | Some(value: T)

  /** A value, or the message of the RuntimeException thrown instead. */
  datatype Result<+T> = Ok(value: T) | Err(message: string)

  /** The rows of `s` that satisfy `p`, in their original order (a WHERE clause). */
  function Filter<T(!new)>(s: seq<T>, p: T -> bool): (r: seq<T>)
    ensures |r| <= |s|
    ensures forall x :: x in r ==> x in s && p(x)
    ensures forall x :: multiset(r)[x] == if p(x) then multiset(s)[x] else 0
  {
    if s == [] then []
    else
      assert s == [s[0]] + s[1..];
      (if p(s[0]) then [s[0]] else []) + Filter(s[1..], p)
  }

  /** COUNT(*) of the rows satisfying `p`. */
  function Count<T>(s: seq<T>, p: T -> bool): (n: nat)
    ensures n <= |s|
  {
    if s == [] then 0 else Count(s[..|s| - 1], p) + (if p(s[|s| - 1]) then 1 else 0)
  }

  /** Count read from the front. */
  lemma {:induction false} CountFront<T>(s: seq<T>, p: T -> bool)
    requires s != []
    ensures Count(s, p) == (if p(s[0]) then 1 else 0) + Count(s[1..], p)
  {
    if |s| > 1 {
      var init := s[..|s| - 1];
      CountFront(init, p);
      assert init[1..] == s[1..][..|s| - 2];
    }
  }

  /** Filter keeps exactly the elements Count counts. */
  lemma {:induction false} FilterCount<T(!new)>(s: seq<T>, p: T -> bool)
    ensures |Filter(s, p)| == Count(s, p)
  {
    if s != [] {
      FilterCount(s[1..], p);
      CountFront(s, p);
    }
  }

  /** A sequence of a given size and its multiset have the same size. */
  lemma SameMultisetSameLength<T>(a: seq<T>, b: seq<T>)
    requires multiset(a) == multiset(b)
    ensures |a| == |b|
  {
    calc {
      |a|;
      |multiset(a)|;
      |multiset(b)|;
      |b|;
    }
  }

  /** `le` is reflexive-total and transitive: what ORDER BY needs of its comparison. */
  ghost predicate TotalPreorder<T(!new)>(le: (T, T) -> bool)
  {
    Total(le) && Transitive(le)
  }

  ghost predicate Total<T(!new)>(le: (T, T) -> bool)
  {
    forall a, b :: le(a, b) || le(b, a)
  }

  ghost predicate Transitive<T(!new)>(le: (T, T) -> bool)
  {
    forall a, b, c :: le(a, b) && le(b, c) ==> le(a, c)
  }

  predicate SortedBy<T>(s: seq<T>, le: (T, T) -> bool)
  {
    forall i, j :: 0 <= i < j < |s| ==> le(s[i], s[j])
  }

  /** Every element of a sequence with a known multiset is bounded below by `y`. */
  lemma BoundedBelow<T>(y: T, r: seq<T>, s: seq<T>, x: T, le: (T, T) -> bool)
    requires multiset(r) == multiset(s) + multiset{x}
    requires le(y, x)
    requires forall j :: 0 <= j < |s| ==> le(y, s[j])
    ensures forall j :: 0 <= j < |r| ==> le(y, r[j])
  {
    forall j | 0 <= j < |r|
      ensures le(y, r[j])
    {
      assert r[j] in multiset(r);
      if r[j] != x {
        assert r[j] in multiset(s);
        var k :| 0 <= k < |s| && s[k] == r[j];
      }
    }
  }

  function Insert<T(!new)>(x: T, s: seq<T>, le: (T, T) -> bool): (r: seq<T>)
    requires TotalPreorder(le) && SortedBy(s, le)
    ensures SortedBy(r, le)
    ensures multiset(r) == multiset(s) + multiset{x}
  {
    if s == [] then [x]
    else if le(x, s[0]) then
      assert forall j :: 0 < j < |s| ==> le(x, s[j]) by {
        forall j | 0 < j < |s| ensures le(x, s[j]) {
          assert le(s[0], s[j]);
        }
      }
      [x] + s
    else
      var rest := Insert(x, s[1..], le);
      assert s == [s[0]] + s[1..];
      assert le(s[0], x);
      BoundedBelow(s[0], rest, s[1..], x, le);
      [s[0]] + rest
  }

  /** The rows of `s` rearranged into `le` order (ties in an unspecified but fixed order). */
  function SortBy<T(!new)>(s: seq<T>, le: (T, T) -> bool): (r: seq<T>)
    requires TotalPreorder(le)
    ensures SortedBy(r, le)
    ensures multiset(r) == multiset(s)
    ensures |r| == |s|
  {
    if s == [] then []
    else
      assert s == [s[0]] + s[1..];
      var r := Insert(s[0], SortBy(s[1..], le), le);
      SameMultisetSameLength(r, s);
      r
  }

  /**
   * `r` holds the first `n` elements of `s` under `le` (all of them when
   * `s` is shorter), in order: sorted, drawn from `s`, and nothing of `s`
   * left out comes before anything taken.
   */
  ghost predicate FirstNBy<T>(r: seq<T>, s: seq<T>, n: nat, le: (T, T) -> bool)
  {
    && SortedBy(r, le)
    && |r| == (if |s| < n then |s| else n)
    && multiset(r) <= multiset(s)
    && forall x, y :: x in r && y in multiset(s) - multiset(r) ==> le(x, y)
  }

  /** ORDER BY ... LIMIT n: the first n of a sorted permutation of `s` are the first n of `s`. */
  lemma TakeSortedIsFirstN<T>(sorted: seq<T>, s: seq<T>, n: nat, le: (T, T) -> bool)
    requires SortedBy(sorted, le) && multiset(sorted) == multiset(s)
    ensures FirstNBy(Take(sorted, n), s, n, le)
  {
    SameMultisetSameLength(sorted, s);
    var r := Take(sorted, n);
    SplitMultiset(sorted, |r|);
    forall x, y | x in r && y in multiset(s) - multiset(r)
      ensures le(x, y)
    {
      PrefixBeforeSuffix(sorted, |r|, x, y, le);
    }
  }

  /** Cutting a sequence at `k` splits its multiset in two. */
  lemma SplitMultiset<T>(s: seq<T>, k: nat)
    requires k <= |s|
    ensures multiset(s) - multiset(s[..k]) == multiset(s[k..])
    ensures multiset(s[..k]) <= multiset(s)
  {
    assert s == s[..k] + s[k..];
  }

  /** In a sorted sequence, whatever lies before position `k` comes before whatever lies after it. */
  lemma PrefixBeforeSuffix<T>(s: seq<T>, k: nat, x: T, y: T, le: (T, T) -> bool)
    requires SortedBy(s, le) && k <= |s|
    requires x in s[..k] && y in multiset(s[k..])
    ensures le(x, y)
  {
    var i :| 0 <= i < k && s[..k][i] == x;
    var j :| 0 <= j < |s| - k && s[k..][j] == y;
    assert s[i] == x && s[k + j] == y;
  }

  /** Filtering a filtered sequence again changes nothing. */
  lemma FilterIdempotent<T(!new)>(s: seq<T>, p: T -> bool)
    ensures Filter(Filter(s, p), p) == Filter(s, p)
  {
    var r := Filter(s, p);
    assert forall i :: 0 <= i < |r| ==> r[i] in r;
    FilterAllPass(r, p);
  }

  /** Filtering keeps everything exactly when every element passes. */
  lemma {:induction false} FilterAllPass<T(!new)>(s: seq<T>, p: T -> bool)
    requires forall i :: 0 <= i < |s| ==> p(s[i])
    ensures Filter(s, p) == s
  {
    if s != [] {
      FilterAllPass(s[1..], p);
      assert s == [s[0]] + s[1..];
    }
  }

  /** LIMIT n. */
  function Take<T>(s: seq<T>, n: nat): (r: seq<T>)
    ensures |r| == if |s| < n then |s| else n
    ensures r == s[..|r|]
  {
    if |s| <= n then s else s[..n]
  }

  /** Number of positions at which two equally long sequences differ (rows an UPDATE changed). */
  function CountDiff<T(==)>(a: seq<T>, b: seq<T>): nat
    requires |a| == |b|
  {
    if a == [] then 0 else (if a[0] != b[0] then 1 else 0) + CountDiff(a[1..], b[1..])
  }

  lemma CountDiffSelf<T>(a: seq<T>)
    ensures CountDiff(a, a) == 0
  {
  }

  /**
   * When `p` picks out exactly the positions where `a` and `b` differ, the
   * rows matching `p` are the rows that changed.
   */
  lemma {:induction false} FilterCountsChanges<T(!new)>(a: seq<T>, b: seq<T>, p: T -> bool)
    requires |a| == |b|
    requires forall i :: 0 <= i < |a| ==> (p(a[i]) <==> a[i] != b[i])
    ensures |Filter(a, p)| == CountDiff(a, b)
  {
    if a != [] {
      FilterCountsChanges(a[1..], b[1..], p);
    }
  }

  /** A row added at the end is counted once if it satisfies the condition. */
  lemma CountSnoc<T>(s: seq<T>, x: T, p: T -> bool)
    ensures Count(s + [x], p) == Count(s, p) + (if p(x) then 1 else 0)
  {
    assert (s + [x])[..|s|] == s;
  }

  /** A non-empty sequence is its prefix followed by its last element. */
  lemma InitLast<T>(s: seq<T>)
    requires s != []
    ensures s[..|s| - 1] + [s[|s| - 1]] == s
  {
  }

  /** Appending three pieces one after another is appending their concatenation. */
  lemma AppendThree<T>(a: seq<T>, b: seq<T>, c: seq<T>, d: seq<T>)
    ensures a + b + c + d == a + (b + c + d)
  {
  }

  lemma AppendAssoc<T>(a: seq<T>, b: seq<T>, c: seq<T>)
    ensures a + b + c == a + (b + c)
  {
  }

  /** A second write to the same key replaces the first. */
  lemma UpdateTwice<K, V>(m: map<K, V>, k: K, a: V, b: V)
    ensures m[k := a][k := b] == m[k := b]
  {
  }

  /** One more element of a prefix. */
  lemma PrefixStep<T>(s: seq<T>, i: nat)
    requires i < |s|
    ensures s[..i + 1] == s[..i] + [s[i]]
    ensures s[..i + 1][..i] == s[..i]
  {
  }

  /** The elements of a three-piece concatenation, by position. */
  lemma IndexThree<T>(h: seq<T>, m: seq<T>, f: seq<T>)
    ensures forall i :: 0 <= i < |h| ==> (h + m + f)[i] == h[i]
    ensures forall i :: 0 <= i < |m| ==> (h + m + f)[|h| + i] == m[i]
    ensures forall i :: 0 <= i < |f| ==> (h + m + f)[|h| + |m| + i] == f[i]
  {
  }

  /** A sequence around one element, read back by position. */
  lemma SplitThree<T>(a: seq<T>, x: T, c: seq<T>)
    ensures var s := a + [x] + c;
      |s| == |a| + 1 + |c| && s[..|a|] == a && s[|a|] == x && s[|a| + 1..] == c
  {
  }

  /** Removing a key undoes any write to it. */
  lemma UpdateThenRemove<K, V>(m: map<K, V>, k: K, v: V)
    ensures m[k := v] - {k} == m - {k}
  {
  }

  /** The two pieces of a concatenation that ends a sequence can be read back from its end. */
  lemma SuffixOfAppend<T>(a: seq<T>, b: seq<T>, s: seq<T>)
    requires |s| >= |a| + |b| && s[|s| - |a| - |b|..] == a + b
    ensures s[|s| - |b|..] == b && s[|s| - |b| - |a|..|s| - |b|] == a
  {
    assert s[|s| - |b|..] == (a + b)[|a|..];
    assert s[|s| - |b| - |a|..|s| - |b|] == (a + b)[..|a|];
  }

  /** The five pieces of a concatenation, read back by position. */
  lemma FiveParts<T>(a: seq<T>, b: seq<T>, c: seq<T>, d: seq<T>, e: seq<T>)
    ensures var p := a + b + c + d + e;
      && p[..|a|] == a
      && p[|a|..|a| + |b|] == b
      && p[|a| + |b|..|a| + |b| + |c|] == c
      && p[|a| + |b| + |c|..|a| + |b| + |c| + |d|] == d
      && p[|p| - |e|..] == e
  {
  }

  predicate DistinctBy<T, K(==)>(s: seq<T>, key: T -> K)
  {
    forall i, j :: 0 <= i < j < |s| ==> key(s[i]) != key(s[j])
  }

  /** Deleting rows never breaks a UNIQUE column. */
  lemma {:induction false} FilterKeepsDistinctBy<T(!new), K>(s: seq<T>, key: T -> K, p: T -> bool)
    requires DistinctBy(s, key)
    ensures DistinctBy(Filter(s, p), key)
  {
    if s != [] {
      var tail := s[1..];
      FilterKeepsDistinctBy(tail, key, p);
      var f := Filter(tail, p);
      if p(s[0]) {
        forall j | 0 <= j < |f| ensures key(f[j]) != key(s[0]) {
          assert f[j] in f;
          var k :| 0 <= k < |tail| && tail[k] == f[j];
          assert s[k + 1] == f[j];
        }
        ConsKeepsDistinctBy(s[0], f, key);
      }
    }
  }

  lemma ConsKeepsDistinctBy<T, K>(x: T, f: seq<T>, key: T -> K)
    requires DistinctBy(f, key)
    requires forall j :: 0 <= j < |f| ==> key(f[j]) != key(x)
    ensures DistinctBy([x] + f, key)
  {
    var r := [x] + f;
    forall i, j | 0 <= i < j < |r| ensures key(r[i]) != key(r[j]) {
      assert r[j] == f[j - 1];
      if i > 0 {
        assert r[i] == f[i - 1];
      }
    }
  }
}
