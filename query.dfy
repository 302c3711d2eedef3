/** The in-memory stand-in for the table store's `select`: filtering, lookup,
    ordering and limits over a table kept as a sequence in insertion order. */
module Query {
  import opened Common

  /** Rows satisfying `p`, in table order (`select ... where p`). */
  function Filter<T>(s: seq<T>, p: T -> bool): (r: seq<T>)
    ensures |r| <= |s|
    ensures forall i :: 0 <= i < |r| ==> r[i] in s && p(r[i])
    ensures forall i :: 0 <= i < |s| && p(s[i]) ==> s[i] in r
  {
    if s == [] then []
    else if p(s[0]) then [s[0]] + Filter(s[1..], p)
    else Filter(s[1..], p)
  }

  lemma {:induction false} FilterConcat<T>(a: seq<T>, b: seq<T>, p: T -> bool)
    ensures Filter(a + b, p) == Filter(a, p) + Filter(b, p)
  {
    if a == [] {
      assert a + b == b;
    } else {
      assert (a + b)[1..] == a[1..] + b;
      FilterConcat(a[1..], b, p);
    }
  }

  lemma FilterSnoc<T>(s: seq<T>, x: T, p: T -> bool)
    ensures Filter(s + [x], p) == Filter(s, p) + (if p(x) then [x] else [])
  {
    FilterConcat(s, [x], p);
    assert Filter([x], p) == (if p(x) then [x] else []) by {
      assert [x][1..] == [];
    }
  }

  /** Filtering first by a wider condition changes nothing for a narrower one. */
  lemma {:induction false} FilterNarrow<T>(s: seq<T>, p: T -> bool, q: T -> bool)
    requires forall i :: 0 <= i < |s| && q(s[i]) ==> p(s[i])
    ensures Filter(Filter(s, p), q) == Filter(s, q)
  {
    if s != [] {
      FilterNarrow(s[1..], p, q);
      if p(s[0]) {
        var t := Filter(s[1..], p);
        assert ([s[0]] + t)[1..] == t;
      }
    }
  }

  /** Two conditions that agree on every row select the same rows. */
  lemma {:induction false} FilterEquiv<T>(s: seq<T>, p: T -> bool, q: T -> bool)
    requires forall i :: 0 <= i < |s| ==> (p(s[i]) <==> q(s[i]))
    ensures Filter(s, p) == Filter(s, q)
  {
    if s != [] {
      FilterEquiv(s[1..], p, q);
    }
  }

  /** A filter that every row passes keeps the whole table. */
  lemma {:induction false} FilterAllOrNothing<T>(s: seq<T>, p: T -> bool)
    requires forall i :: 0 <= i < |s| ==> p(s[i])
    ensures Filter(s, p) == s
  {
    if s != [] {
      FilterAllOrNothing(s[1..], p);
    }
  }

  /** The index of the first row satisfying `p`, as a `select ... limit 1`. */
  function Find<T>(s: seq<T>, p: T -> bool): (r: Option<nat>)
    ensures r.Some? ==> r.value < |s| && p(s[r.value])
    ensures r.Some? ==> forall j :: 0 <= j < r.value ==> !p(s[j])
    ensures r.None? <==> forall j :: 0 <= j < |s| ==> !p(s[j])
  {
    if s == [] then None
    else if p(s[0]) then Some(0)
    else match Find(s[1..], p)
      case None => None
      case Some(k) => Some(k + 1)
  }

  predicate Exists<T>(s: seq<T>, p: T -> bool) {
    exists i :: 0 <= i < |s| && p(s[i])
  }

  /** The table without its k-th row. */
  function RemoveAt<T>(s: seq<T>, k: nat): (r: seq<T>)
    requires k < |s|
    ensures |r| == |s| - 1
    ensures forall i :: 0 <= i < k ==> r[i] == s[i]
    ensures forall i :: k <= i < |r| ==> r[i] == s[i + 1]
  {
    s[..k] + s[k + 1..]
  }

  function Reverse<T>(s: seq<T>): (r: seq<T>)
    ensures |r| == |s|
    ensures forall i :: 0 <= i < |s| ==> r[i] == s[|s| - 1 - i]
  {
    if s == [] then [] else Reverse(s[1..]) + [s[0]]
  }

  lemma ReverseMembers<T>(s: seq<T>)
    ensures forall i :: 0 <= i < |s| ==> s[i] in Reverse(s)
    ensures forall i :: 0 <= i < |s| ==> Reverse(s)[i] in s
  {
    var r := Reverse(s);
    forall i | 0 <= i < |s| ensures s[i] in r {
      assert r[|s| - 1 - i] == s[i];
    }
  }

  /** `limit n`. */
  function Take<T>(s: seq<T>, n: nat): (r: seq<T>)
    ensures |r| == Min(n, |s|)
    ensures r == s[..|r|]
  {
    if |s| <= n then s else s[..n]
  }

  /** Strictly increasing by `key`: how the store's clock stamps rows. */
  predicate Ascending<T>(s: seq<T>, key: T -> int) {
    forall i, j :: 0 <= i < j < |s| ==> key(s[i]) < key(s[j])
  }

  predicate Descending<T>(s: seq<T>, key: T -> int) {
    forall i, j :: 0 <= i < j < |s| ==> key(s[i]) > key(s[j])
  }

  predicate NonDecreasing<T>(s: seq<T>, key: T -> int) {
    forall i, j :: 0 <= i < j < |s| ==> key(s[i]) <= key(s[j])
  }

  /** Every row a filter keeps has any property all rows of the table have. */
  lemma {:induction false} FilterKeeps<T>(s: seq<T>, p: T -> bool, q: T -> bool)
    requires forall i :: 0 <= i < |s| ==> q(s[i])
    ensures forall i :: 0 <= i < |Filter(s, p)| ==> q(Filter(s, p)[i])
  {
    if s != [] {
      FilterKeeps(s[1..], p, q);
    }
  }

  lemma {:induction false} AscendingFilter<T>(s: seq<T>, p: T -> bool, key: T -> int)
    requires Ascending(s, key)
    ensures Ascending(Filter(s, p), key)
  {
    if s != [] {
      AscendingFilter(s[1..], p, key);
      var t := Filter(s[1..], p);
      if p(s[0]) {
        assert Filter(s, p) == [s[0]] + t;
        forall j | 0 <= j < |t| ensures key(s[0]) < key(t[j]) {
          var m :| 0 <= m < |s[1..]| && s[1..][m] == t[j];
          assert s[m + 1] == t[j];
        }
        AscendingCons(s[0], t, key);
      }
    }
  }

  lemma AscendingCons<T>(x: T, t: seq<T>, key: T -> int)
    requires Ascending(t, key) && forall j :: 0 <= j < |t| ==> key(x) < key(t[j])
    ensures Ascending([x] + t, key)
  {
    var r := [x] + t;
    forall i, j | 0 <= i < j < |r| ensures key(r[i]) < key(r[j]) {
      assert r[j] == t[j - 1];
      if i > 0 {
        assert r[i] == t[i - 1];
      }
    }
  }

  lemma AscendingReverse<T>(s: seq<T>, key: T -> int)
    requires Ascending(s, key)
    ensures Descending(Reverse(s), key)
  {
  }

  /** `order(key, desc=True)` on a table kept in ascending key order. */
  function NewestFirst<T>(s: seq<T>, p: T -> bool): (r: seq<T>)
  {
    Reverse(Filter(s, p))
  }

  lemma NewestFirstFacts<T>(s: seq<T>, p: T -> bool, key: T -> int)
    requires Ascending(s, key)
    ensures Descending(NewestFirst(s, p), key)
    ensures forall i :: 0 <= i < |NewestFirst(s, p)| ==> NewestFirst(s, p)[i] in s && p(NewestFirst(s, p)[i])
    ensures forall i :: 0 <= i < |s| && p(s[i]) ==> s[i] in NewestFirst(s, p)
    ensures |NewestFirst(s, p)| == |Filter(s, p)|
  {
    AscendingFilter(s, p, key);
    AscendingReverse(Filter(s, p), key);
    ReverseMembers(Filter(s, p));
  }

  /** `select` of some columns: each row projected, in the same order. */
  function Project<T, U>(s: seq<T>, f: T -> U): (r: seq<U>)
    ensures |r| == |s| && forall i :: 0 <= i < |s| ==> r[i] == f(s[i])
  {
    seq(|s|, i requires 0 <= i < |s| => f(s[i]))
  }

  /** Columns selected from a newest-first query: the projection of matching
      rows only, and of every matching row, one per row. */
  lemma ProjectNewestFirst<T, U>(s: seq<T>, p: T -> bool, key: T -> int, f: T -> U, listed: seq<U>)
    requires Ascending(s, key) && listed == Project(NewestFirst(s, p), f)
    ensures |listed| == |Filter(s, p)|
    ensures forall i :: 0 <= i < |listed| ==> exists j :: 0 <= j < |s| && p(s[j]) && listed[i] == f(s[j])
    ensures forall j :: 0 <= j < |s| && p(s[j]) ==> f(s[j]) in listed
  {
    var own := NewestFirst(s, p);
    NewestFirstFacts(s, p, key);
    forall i | 0 <= i < |listed| ensures exists j :: 0 <= j < |s| && p(s[j]) && listed[i] == f(s[j]) {
      var j :| 0 <= j < |s| && s[j] == own[i];
    }
    forall j | 0 <= j < |s| && p(s[j]) ensures f(s[j]) in listed {
      var i :| 0 <= i < |own| && own[i] == s[j];
      assert listed[i] == f(s[j]);
    }
  }

  /** The table invariant the store keeps: ids and timestamps it hands out are
      strictly increasing along the table and below its counters. */
  predicate Stamped<T>(s: seq<T>, id: T -> int, at: T -> int, nextId: int, clock: int) {
    && Ascending(s, id)
    && Ascending(s, at)
    && (forall i :: 0 <= i < |s| ==> id(s[i]) < nextId && at(s[i]) < clock)
  }

  lemma StampedAppend<T>(s: seq<T>, x: T, id: T -> int, at: T -> int, nextId: int, clock: int)
    requires Stamped(s, id, at, nextId, clock)
    requires id(x) == nextId && at(x) == clock
    ensures Stamped(s + [x], id, at, nextId + 1, clock + 1)
  {
    var r := s + [x];
    forall i, j | 0 <= i < j < |r| ensures id(r[i]) < id(r[j]) && at(r[i]) < at(r[j]) {
      assert r[i] == s[i];
      if j < |s| {
        assert r[j] == s[j];
      }
    }
  }

  lemma StampedRemove<T>(s: seq<T>, k: nat, id: T -> int, at: T -> int, nextId: int, clock: int)
    requires k < |s| && Stamped(s, id, at, nextId, clock)
    ensures Stamped(RemoveAt(s, k), id, at, nextId, clock)
  {
  }

  lemma StampedReplace<T>(s: seq<T>, k: nat, x: T, id: T -> int, at: T -> int, nextId: int, clock: int)
    requires k < |s| && Stamped(s, id, at, nextId, clock)
    requires id(x) == id(s[k]) && at(x) == at(s[k])
    ensures Stamped(s[k := x], id, at, nextId, clock)
  {
    var r := s[k := x];
    forall i, j | 0 <= i < j < |r| ensures id(r[i]) < id(r[j]) && at(r[i]) < at(r[j]) {
      assert id(r[i]) == id(s[i]) && at(r[i]) == at(s[i]);
      assert id(r[j]) == id(s[j]) && at(r[j]) == at(s[j]);
    }
  }

  /** Counters that moved on keep a stamped table stamped. */
  lemma StampedGrow<T>(s: seq<T>, id: T -> int, at: T -> int, nextId: int, clock: int, nextId': int, clock': int)
    requires Stamped(s, id, at, nextId, clock) && nextId <= nextId' && clock <= clock'
    ensures Stamped(s, id, at, nextId', clock')
  {
  }

  lemma StampedFilter<T>(s: seq<T>, p: T -> bool, id: T -> int, at: T -> int, nextId: int, clock: int)
    requires Stamped(s, id, at, nextId, clock)
    ensures Stamped(Filter(s, p), id, at, nextId, clock)
  {
    FilterKeeps(s, p, x => id(x) < nextId && at(x) < clock);
    AscendingFilter(s, p, id);
    AscendingFilter(s, p, at);
  }

  lemma StampedAscending<T>(s: seq<T>, id: T -> int, at: T -> int, nextId: int, clock: int)
    requires Stamped(s, id, at, nextId, clock)
    ensures Ascending(s, at)
  {
  }

  /** ``list(reversed(rows))`` of the newest `n` rows: the last `n` rows of
      the table, still in table order. */
  lemma {:induction false} LatestInOrder<T>(s: seq<T>, n: nat)
    ensures Reverse(Take(Reverse(s), n)) == s[|s| - Min(n, |s|)..]
  {
    var t := Take(Reverse(s), n);
    var m := |t|;
    forall i | 0 <= i < m ensures Reverse(t)[i] == s[|s| - m + i] {
      assert Reverse(t)[i] == t[m - 1 - i];
    }
  }

  /** Filtering a table without one row the filter drops anyway changes nothing. */
  lemma {:induction false} FilterRemoveAt<T>(s: seq<T>, k: nat, p: T -> bool)
    requires k < |s| && !p(s[k])
    ensures Filter(RemoveAt(s, k), p) == Filter(s, p)
  {
    var a := s[..k];
    var b := s[k + 1..];
    var c := [s[k]] + b;
    assert s == a + c;
    assert c[1..] == b;
    assert Filter(c, p) == Filter(b, p);
    FilterConcat(a, c, p);
    FilterConcat(a, b, p);
  }

  /** No two rows share a key: the shape of a unique constraint. */
  ghost predicate UniqueBy<T, K>(s: seq<T>, key: T -> K) {
    forall i, j :: 0 <= i < j < |s| ==> key(s[i]) != key(s[j])
  }

  /** The keys present in a table. */
  ghost function KeysOf<T, K>(s: seq<T>, key: T -> K): set<K> {
    set i | 0 <= i < |s| :: key(s[i])
  }

  lemma UniqueByRemove<T, K>(s: seq<T>, k: nat, key: T -> K)
    requires k < |s| && UniqueBy(s, key)
    ensures UniqueBy(RemoveAt(s, k), key)
    ensures KeysOf(RemoveAt(s, k), key) == KeysOf(s, key) - {key(s[k])}
  {
    var r := RemoveAt(s, k);
    forall x | x in KeysOf(s, key) - {key(s[k])} ensures x in KeysOf(r, key) {
      var i :| 0 <= i < |s| && key(s[i]) == x;
      if i < k {
        assert key(r[i]) == x;
      } else {
        assert key(r[i - 1]) == x;
      }
    }
    forall x | x in KeysOf(r, key) ensures x in KeysOf(s, key) - {key(s[k])} {
      var i :| 0 <= i < |r| && key(r[i]) == x;
      if i < k {
        assert r[i] == s[i];
      } else {
        assert r[i] == s[i + 1];
      }
    }
  }

  lemma UniqueByAppend<T, K>(s: seq<T>, x: T, key: T -> K)
    requires UniqueBy(s, key)
    requires forall i :: 0 <= i < |s| ==> key(s[i]) != key(x)
    ensures UniqueBy(s + [x], key)
    ensures KeysOf(s + [x], key) == KeysOf(s, key) + {key(x)}
  {
    var r := s + [x];
    forall y | y in KeysOf(s, key) ensures y in KeysOf(r, key) {
      var i :| 0 <= i < |s| && key(s[i]) == y;
      assert r[i] == s[i];
    }
    assert key(r[|s|]) == key(x);
    forall i, j | 0 <= i < j < |r| ensures key(r[i]) != key(r[j]) {
      assert r[i] == s[i];
      if j < |s| {
        assert r[j] == s[j];
      }
    }
  }

  /** Rows whose key is `k`. */
  function KeyIs<T, K(==)>(key: T -> K, k: K): T -> bool {
    (y: T) => key(y) == k
  }

  /** `upsert(x, on_conflict=key)`: the row holding `x`'s key becomes
      `merge(row, x)`, or `x` is appended when no row holds that key. */
  function Upsert<T, K(==)>(s: seq<T>, key: T -> K, x: T, merge: (T, T) -> T): seq<T> {
    match Find(s, KeyIs(key, key(x)))
    case Some(k) => s[k := merge(s[k], x)]
    case None => s + [x]
  }

  /** An upsert keeps keys unique, leaves exactly one row with the key
      upserted, and adds that key and no other. */
  lemma UpsertUnique<T, K>(s: seq<T>, key: T -> K, x: T, merge: (T, T) -> T)
    requires UniqueBy(s, key)
    requires forall a :: key(merge(a, x)) == key(x)
    ensures UniqueBy(Upsert(s, key, x, merge), key)
    ensures KeysOf(Upsert(s, key, x, merge), key) == KeysOf(s, key) + {key(x)}
    ensures |Filter(Upsert(s, key, x, merge), KeyIs(key, key(x)))| == 1
    ensures forall i :: 0 <= i < |Upsert(s, key, x, merge)| ==>
      Upsert(s, key, x, merge)[i] in s || key(Upsert(s, key, x, merge)[i]) == key(x)
  {
    var r := Upsert(s, key, x, merge);
    match Find(s, KeyIs(key, key(x)))
    case Some(k) =>
      assert key(r[k]) == key(s[k]);
      forall i, j | 0 <= i < j < |r| ensures key(r[i]) != key(r[j]) {
        assert key(r[i]) == key(s[i]) && key(r[j]) == key(s[j]);
      }
      forall y | y in KeysOf(s, key) ensures y in KeysOf(r, key) {
        var i :| 0 <= i < |s| && key(s[i]) == y;
        assert key(r[i]) == y;
      }
      assert KeysOf(r, key) <= KeysOf(s, key) by {
        forall y | y in KeysOf(r, key) ensures y in KeysOf(s, key) {
          var i :| 0 <= i < |r| && key(r[i]) == y;
          assert key(s[i]) == y;
        }
      }
      assert key(x) in KeysOf(s, key) by { assert key(s[k]) == key(x); }
      UniqueSingleKey(r, key, k);
    case None =>
      UniqueByAppend(s, x, key);
      UniqueSingleKey(r, key, |s|);
  }

  /** In a table with unique keys, the row `k` is the only one with its key. */
  lemma UniqueSingleKey<T, K>(s: seq<T>, key: T -> K, k: nat)
    requires UniqueBy(s, key) && k < |s|
    ensures |Filter(s, KeyIs(key, key(s[k])))| == 1
  {
    var p := KeyIs(key, key(s[k]));
    assert forall i :: 0 <= i < |s| && i != k ==> !p(s[i]);
    assert s == s[..k] + [s[k]] + s[k + 1..];
    FilterConcat(s[..k] + [s[k]], s[k + 1..], p);
    FilterSnoc(s[..k], s[k], p);
    FilterNone(s[..k], p);
    FilterNone(s[k + 1..], p);
  }

  lemma {:induction false} FilterNone<T>(s: seq<T>, p: T -> bool)
    requires forall i :: 0 <= i < |s| ==> !p(s[i])
    ensures Filter(s, p) == []
  {
    if s != [] {
      FilterNone(s[1..], p);
    }
  }

  /** Rows holding any other key are untouched by an upsert. */
  lemma UpsertLeavesOthers<T, K>(s: seq<T>, key: T -> K, x: T, merge: (T, T) -> T, other: K)
    requires other != key(x)
    requires forall a :: key(merge(a, x)) == key(x)
    ensures Filter(Upsert(s, key, x, merge), KeyIs(key, other)) == Filter(s, KeyIs(key, other))
  {
    var p := KeyIs(key, other);
    match Find(s, KeyIs(key, key(x)))
    case Some(k) =>
      FilterReplace(s, k, merge(s[k], x), p);
    case None =>
      FilterSnoc(s, x, p);
  }

  /** Replacing a row the filter rejects by another it rejects keeps the filter. */
  lemma FilterReplace<T>(s: seq<T>, k: nat, v: T, p: T -> bool)
    requires k < |s| && !p(s[k]) && !p(v)
    ensures Filter(s[k := v], p) == Filter(s, p)
  {
    var a := s[..k];
    var b := s[k + 1..];
    assert s == a + [s[k]] + b;
    assert s[k := v] == a + [v] + b;
    FilterConcat(a + [s[k]], b, p);
    FilterConcat(a + [v], b, p);
    FilterSnoc(a, s[k], p);
    FilterSnoc(a, v, p);
  }

  function KeyIsNot<T, K(==)>(key: T -> K, k: K): T -> bool {
    (y: T) => key(y) != k
  }

  /** `delete().eq(...)` on every column of a key. */
  function DeleteKey<T, K(==)>(s: seq<T>, key: T -> K, k: K): seq<T> {
    Filter(s, KeyIsNot(key, k))
  }

  /** Deleting a key removes every row holding it and no row holding another
      key; it is idempotent, and a no-op when the key is absent. */
  lemma {:induction false} DeleteKeyFacts<T, K>(s: seq<T>, key: T -> K, k: K, other: K)
    requires other != k
    ensures forall i :: 0 <= i < |DeleteKey(s, key, k)| ==> key(DeleteKey(s, key, k)[i]) != k
    ensures Filter(DeleteKey(s, key, k), KeyIs(key, other)) == Filter(s, KeyIs(key, other))
    ensures (forall i :: 0 <= i < |s| ==> key(s[i]) != k) ==> DeleteKey(s, key, k) == s
    ensures DeleteKey(DeleteKey(s, key, k), key, k) == DeleteKey(s, key, k)
  {
    if s != [] {
      DeleteKeyFacts(s[1..], key, k, other);
      if key(s[0]) != k {
        assert DeleteKey(s, key, k) == [s[0]] + DeleteKey(s[1..], key, k);
        var t := DeleteKey(s[1..], key, k);
        assert ([s[0]] + t)[1..] == t;
      }
    }
  }

  /** A filter keeps a unique constraint. */
  lemma {:induction false} FilterUnique<T, K>(s: seq<T>, p: T -> bool, key: T -> K)
    requires UniqueBy(s, key)
    ensures UniqueBy(Filter(s, p), key)
  {
    if s != [] {
      var h := s[0];
      assert UniqueBy(s[1..], key);
      FilterUnique(s[1..], p, key);
      FilterKeeps(s[1..], p, (y: T) => key(y) != key(h));
    }
  }

  /** Deleting a key keeps the others unique and drops exactly that key. */
  lemma DeleteKeyUnique<T, K>(s: seq<T>, key: T -> K, k: K)
    requires UniqueBy(s, key)
    ensures UniqueBy(DeleteKey(s, key, k), key)
    ensures KeysOf(DeleteKey(s, key, k), key) == KeysOf(s, key) - {k}
  {
    var r := DeleteKey(s, key, k);
    FilterUnique(s, KeyIsNot(key, k), key);
    forall y | y in KeysOf(s, key) - {k} ensures y in KeysOf(r, key) {
      var i :| 0 <= i < |s| && key(s[i]) == y;
      assert s[i] in r;
      var t :| 0 <= t < |r| && r[t] == s[i];
    }
    forall y | y in KeysOf(r, key) ensures y in KeysOf(s, key) - {k} {
      var t :| 0 <= t < |r| && key(r[t]) == y;
      assert r[t] in s;
      var i :| 0 <= i < |s| && s[i] == r[t];
    }
  }

  /** Upserting the same row twice, the second time under a different fresh
      id, is the same as upserting it once. */
  lemma UpsertTwice<T, K>(s: seq<T>, key: T -> K, x1: T, x2: T, merge: (T, T) -> T)
    requires key(x2) == key(x1)
    requires forall a :: key(merge(a, x1)) == key(x1)
    requires forall a :: merge(merge(a, x1), x2) == merge(a, x1)
    requires merge(x1, x2) == x1
    ensures Upsert(Upsert(s, key, x1, merge), key, x2, merge) == Upsert(s, key, x1, merge)
  {
    var r := Upsert(s, key, x1, merge);
    var p := KeyIs(key, key(x1));
    match Find(s, p)
    case Some(k) =>
      assert p(r[k]);
      assert forall j :: 0 <= j < k ==> r[j] == s[j];
      assert Find(r, p) == Some(k);
    case None =>
      assert p(r[|s|]);
      assert Find(r, p) == Some(|s|);
  }

  /** In a table with unique ids, the id names exactly one row. */
  lemma AscendingUnique<T>(s: seq<T>, key: T -> int, i: nat, j: nat)
    requires Ascending(s, key) && i < |s| && j < |s| && key(s[i]) == key(s[j])
    ensures i == j
  {
  }

  /** `_get_..._or_404` followed by `_require_owner`: the index of the row `p`
      selects when the caller owns it, 404 when no row matches and 403 when
      the first matching row belongs to someone else. */
  function FindOwned<T>(s: seq<T>, p: T -> bool, owner: T -> string, who: string): (r: Result<nat>)
    ensures r.Ok? ==> r.value < |s| && p(s[r.value]) && owner(s[r.value]) == who
    ensures r == Err(NotFound) <==> forall k :: 0 <= k < |s| ==> !p(s[k])
    ensures r == Err(Forbidden) ==> exists k :: 0 <= k < |s| && p(s[k]) && owner(s[k]) != who
    ensures r.Err? ==> r == Err(NotFound) || r == Err(Forbidden)
  {
    match Find(s, p)
    case None => Err(NotFound)
    case Some(k) => if owner(s[k]) == who then Ok(k) else Err(Forbidden)
  }

  /** When only one row can match, the check succeeds exactly for its owner. */
  lemma FindOwnedExact<T>(s: seq<T>, p: T -> bool, owner: T -> string, who: string, k: nat)
    requires k < |s| && p(s[k])
    requires forall i :: 0 <= i < |s| && p(s[i]) ==> i == k
    ensures FindOwned(s, p, owner, who) == if owner(s[k]) == who then Ok(k) else Err(Forbidden)
  {
  }

  /** Deleting the row with a unique id removes that row and no other: every
      other row stays, in order, and none with the deleted id remains. */
  lemma RemoveAtExact<T>(s: seq<T>, k: nat, id: T -> int)
    requires Ascending(s, id) && k < |s|
    ensures forall i :: 0 <= i < |s| && i != k ==> s[i] in RemoveAt(s, k)
    ensures forall i :: 0 <= i < |RemoveAt(s, k)| ==> id(RemoveAt(s, k)[i]) != id(s[k])
  {
    var r := RemoveAt(s, k);
    forall i | 0 <= i < |s| && i != k ensures s[i] in r {
      if i < k {
        assert r[i] == s[i];
      } else {
        assert r[i - 1] == s[i];
      }
    }
  }

  /** Looking up in a table with one more row at the end. */
  lemma {:induction false} FindSnoc<T>(s: seq<T>, x: T, p: T -> bool)
    ensures Find(s + [x], p) == if Find(s, p).Some? then Find(s, p) else if p(x) then Some(|s|) else None
  {
    var t := s + [x];
    assert forall j :: 0 <= j < |s| ==> t[j] == s[j];
    var r := Find(t, p);
    match Find(s, p)
    case Some(k) =>
      assert p(t[k]);
      assert r.Some?;
      assert r.value <= k;
      assert !(r.value < k);
    case None =>
      if p(x) {
        assert p(t[|s|]);
        assert r.Some?;
      }
  }

  /** A bulk update that keeps every row's id and timestamp keeps the table
      stamped. */
  lemma StampedPointwise<T>(s: seq<T>, t: seq<T>, id: T -> int, at: T -> int, nextId: int, clock: int)
    requires Stamped(s, id, at, nextId, clock) && |t| == |s|
    requires forall i :: 0 <= i < |s| ==> id(t[i]) == id(s[i]) && at(t[i]) == at(s[i])
    ensures Stamped(t, id, at, nextId, clock)
  {
    forall i, j | 0 <= i < j < |t| ensures id(t[i]) < id(t[j]) && at(t[i]) < at(t[j]) {
      assert id(t[i]) == id(s[i]) && at(t[i]) == at(s[i]);
      assert id(t[j]) == id(s[j]) && at(t[j]) == at(s[j]);
    }
  }

  /** Reordering a table whose keys are unique keeps them unique. */
  lemma UniqueByPermutation<T, K>(s: seq<T>, t: seq<T>, key: T -> K)
    requires UniqueBy(s, key) && multiset(s) == multiset(t)
    ensures UniqueBy(t, key)
  {
    forall i, j | 0 <= i < j < |t| ensures key(t[i]) != key(t[j]) {
      if key(t[i]) == key(t[j]) {
        assert t[i] in multiset(s) && t[j] in multiset(s);
        var a :| 0 <= a < |s| && s[a] == t[i];
        var b :| 0 <= b < |s| && s[b] == t[j];
        if a == b {
          assert t == t[..j] + [t[j]] + t[j + 1..];
          assert t[i] in t[..j];
          assert multiset(t)[t[i]] >= 2;
          UniqueCount(s, a, key);
          assert false;
        } else {
          assert false;
        }
      }
    }
  }

  lemma {:induction false} UniqueCount<T, K>(s: seq<T>, a: nat, key: T -> K)
    requires UniqueBy(s, key) && a < |s|
    ensures multiset(s)[s[a]] == 1
  {
    if a == 0 {
      assert s == [s[0]] + s[1..];
      assert forall j :: 0 <= j < |s[1..]| ==> key(s[1..][j]) != key(s[0]);
      assert s[0] !in s[1..];
    } else {
      assert s == [s[0]] + s[1..];
      assert UniqueBy(s[1..], key);
      UniqueCount(s[1..], a - 1, key);
      assert key(s[0]) != key(s[a]);
    }
  }
}
