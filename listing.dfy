/**
 * What a paged `findAndCountAll` query returns: the rows that match a filter,
 * in ORDER BY order, cut to one page, and the page count sent alongside.
 * Tables are maps from numeric ids to rows; rows whose sort keys tie come out
 * in ascending id order.
 */
module Listing {
  import opened Text

  /** Descending from any member of `s` through smaller members reaches a least one. */
  lemma {:induction false} MinIdBelow(s: set<nat>, x: nat)
    requires x in s
    ensures exists m :: m in s && forall y :: y in s ==> m <= y
    decreases x
  {
    if y :| y in s && y < x {
      MinIdBelow(s, y);
    } else {
      assert forall y :: y in s ==> x <= y;
    }
  }

  lemma MinIdExists(s: set<nat>)
    requires s != {}
    ensures exists m :: m in s && forall x :: x in s ==> m <= x
  {
    var x :| x in s;
    MinIdBelow(s, x);
  }

  /** The least id of a non-empty set. */
  function MinId(s: set<nat>): (m: nat)
    requires s != {}
    ensures m in s && forall x :: x in s ==> m <= x
  {
    MinIdExists(s);
    var m :| m in s && forall x :: x in s ==> m <= x;
    m
  }

  /** The ids of `s` in ascending order. */
  function SortedIds(s: set<nat>): (r: seq<nat>)
    ensures |r| == |s|
    ensures forall x :: x in s <==> x in r
    ensures forall i, j :: 0 <= i < j < |r| ==> r[i] < r[j]
    decreases |s|
  {
    if s == {} then []
    else
      var m := MinId(s);
      var rest := SortedIds(s - {m});
      PrependLeast(s, m, rest);
      [m] + rest
  }

  /** Putting the least id in front of the others, ascending, lists all of `s` ascending. */
  lemma PrependLeast(s: set<nat>, m: nat, rest: seq<nat>)
    requires m in s && forall x :: x in s ==> m <= x
    requires |rest| == |s - {m}|
    requires forall x :: x in s - {m} <==> x in rest
    requires forall i, j :: 0 <= i < j < |rest| ==> rest[i] < rest[j]
    ensures |[m] + rest| == |s|
    ensures forall x :: x in s <==> x in [m] + rest
    ensures forall i, j :: 0 <= i < j < |[m] + rest| ==> ([m] + rest)[i] < ([m] + rest)[j]
  {
    var r := [m] + rest;
    forall k | 0 <= k < |rest| ensures m < rest[k] {
      assert rest[k] in s - {m};
    }
    forall x ensures x in s <==> x in r {
      if x in s && x != m {
        assert x in rest;
        var k :| 0 <= k < |rest| && rest[k] == x;
        assert r[k + 1] == x;
      }
    }
    forall i, j | 0 <= i < j < |r| ensures r[i] < r[j] {
      if i > 0 {
        assert r[i] == rest[i - 1] && r[j] == rest[j - 1];
      } else {
        assert r[j] == rest[j - 1];
      }
    }
  }

  predicate SortedByKey<T>(s: seq<T>, key: T -> seq<string>) {
    forall i, j :: 0 <= i < j < |s| ==> KeysLe(key(s[i]), key(s[j]))
  }

  /** Insertion of `x` into a sequence sorted by `key`, after the rows whose key ties with it. */
  function Insert<T>(x: T, s: seq<T>, key: T -> seq<string>): (r: seq<T>)
    requires SortedByKey(s, key)
    ensures multiset(r) == multiset(s) + multiset{x}
    ensures SortedByKey(r, key)
  {
    if s == [] then [x]
    else if !KeysLe(key(s[0]), key(x)) then
      InsertFront(x, s, key);
      [x] + s
    else
      var rest := Insert(x, s[1..], key);
      InsertAfterHead(x, s, rest, key);
      [s[0]] + rest
  }

  /** A row whose key sorts before the first row's goes in front. */
  lemma InsertFront<T>(x: T, s: seq<T>, key: T -> seq<string>)
    requires SortedByKey(s, key) && s != [] && !KeysLe(key(s[0]), key(x))
    ensures SortedByKey([x] + s, key)
  {
    KeysLeTotal(key(x), key(s[0]));
    forall k | 0 <= k < |s| ensures KeysLe(key(x), key(s[k])) {
      if k > 0 { KeysLeTrans(key(x), key(s[0]), key(s[k])); }
    }
    var r := [x] + s;
    forall i, j | 0 <= i < j < |r| ensures KeysLe(key(r[i]), key(r[j])) {
      assert r[j] == s[j - 1];
      if i > 0 { assert r[i] == s[i - 1]; }
    }
  }

  /** The first row stays in front of the insertion of `x` into the others. */
  lemma InsertAfterHead<T>(x: T, s: seq<T>, rest: seq<T>, key: T -> seq<string>)
    requires SortedByKey(s, key) && s != [] && KeysLe(key(s[0]), key(x))
    requires multiset(rest) == multiset(s[1..]) + multiset{x}
    requires SortedByKey(rest, key)
    ensures multiset([s[0]] + rest) == multiset(s) + multiset{x}
    ensures SortedByKey([s[0]] + rest, key)
  {
    assert s == [s[0]] + s[1..];
    forall k | 0 <= k < |rest| ensures KeysLe(key(s[0]), key(rest[k])) {
      assert rest[k] in multiset(rest);
      if rest[k] != x {
        assert rest[k] in multiset(s[1..]);
        var j :| 0 <= j < |s[1..]| && s[1..][j] == rest[k];
        assert s[j + 1] == rest[k];
      }
    }
    var r := [s[0]] + rest;
    forall i, j | 0 <= i < j < |r| ensures KeysLe(key(r[i]), key(r[j])) {
      assert r[j] == rest[j - 1];
      if i > 0 { assert r[i] == rest[i - 1]; }
    }
  }

  /**
   * ORDER BY the columns of `key`, stable with respect to the order of `s`:
   * each row is inserted after the rows before it whose key ties with its own.
   */
  function SortByKey<T>(s: seq<T>, key: T -> seq<string>): (r: seq<T>)
    ensures multiset(r) == multiset(s)
    ensures SortedByKey(r, key)
  {
    if s == [] then []
    else
      assert s == s[..|s| - 1] + [s[|s| - 1]];
      Insert(s[|s| - 1], SortByKey(s[..|s| - 1], key), key)
  }

  /** The rows of `s` whose sort key is `k`, in the order of `s`. */
  function WithKey<T>(s: seq<T>, key: T -> seq<string>, k: seq<string>): seq<T> {
    if s == [] then []
    else (if key(s[0]) == k then [s[0]] else []) + WithKey(s[1..], key, k)
  }

  lemma {:induction false} WithKeyAppend<T>(a: seq<T>, b: seq<T>, key: T -> seq<string>, k: seq<string>)
    ensures WithKey(a + b, key, k) == WithKey(a, key, k) + WithKey(b, key, k)
  {
    if a == [] {
      assert a + b == b;
    } else {
      var head := if key(a[0]) == k then [a[0]] else [];
      assert (a + b)[0] == a[0] && (a + b)[1..] == a[1..] + b;
      assert WithKey(a + b, key, k) == head + WithKey(a[1..] + b, key, k);
      WithKeyAppend(a[1..], b, key, k);
      assert head + (WithKey(a[1..], key, k) + WithKey(b, key, k))
          == (head + WithKey(a[1..], key, k)) + WithKey(b, key, k);
    }
  }

  lemma {:induction false} WithKeyNone<T>(s: seq<T>, key: T -> seq<string>, k: seq<string>)
    requires forall j :: 0 <= j < |s| ==> key(s[j]) != k
    ensures WithKey(s, key, k) == []
  {
    if s != [] {
      WithKeyNone(s[1..], key, k);
    }
  }

  /** Inserting `x` puts it after every row of `s` whose key ties with its own. */
  lemma {:induction false} InsertKeepsTies<T>(x: T, s: seq<T>, key: T -> seq<string>, k: seq<string>)
    requires SortedByKey(s, key)
    ensures WithKey(Insert(x, s, key), key, k) == WithKey(s, key, k) + (if key(x) == k then [x] else [])
  {
    if s == [] {
    } else if !KeysLe(key(s[0]), key(x)) {
      TiesBeforeFront(x, s, key, k);
    } else {
      InsertKeepsTies(x, s[1..], key, k);
      TiesAfterHead(s, Insert(x, s[1..], key), key, k, if key(x) == k then [x] else []);
    }
  }

  /** No row of `s` ties with a row whose key sorts before the first one. */
  lemma TiesBeforeFront<T>(x: T, s: seq<T>, key: T -> seq<string>, k: seq<string>)
    requires SortedByKey(s, key) && s != [] && !KeysLe(key(s[0]), key(x))
    ensures WithKey([x] + s, key, k) == WithKey(s, key, k) + (if key(x) == k then [x] else [])
  {
    if key(x) == k {
      KeysLeTotal(key(x), key(x));
      assert forall j :: 0 <= j < |s| ==> key(s[j]) != k;
      WithKeyNone(s, key, k);
    }
    assert ([x] + s)[1..] == s;
  }

  lemma TiesAfterHead<T>(s: seq<T>, rest: seq<T>, key: T -> seq<string>, k: seq<string>, tail: seq<T>)
    requires s != [] && WithKey(rest, key, k) == WithKey(s[1..], key, k) + tail
    ensures WithKey([s[0]] + rest, key, k) == WithKey(s, key, k) + tail
  {
    assert ([s[0]] + rest)[1..] == rest;
  }

  /** SortByKey keeps every group of tying rows in the order it has in `s`. */
  lemma SortByKeyStableAll<T>(s: seq<T>, key: T -> seq<string>)
    ensures forall k :: WithKey(SortByKey(s, key), key, k) == WithKey(s, key, k)
  {
    forall k ensures WithKey(SortByKey(s, key), key, k) == WithKey(s, key, k) {
      SortByKeyStable(s, key, k);
    }
  }

  /** SortByKey keeps rows whose keys tie in the order they have in `s`. */
  lemma {:induction false} SortByKeyStable<T>(s: seq<T>, key: T -> seq<string>, k: seq<string>)
    ensures WithKey(SortByKey(s, key), key, k) == WithKey(s, key, k)
    decreases |s|
  {
    if s != [] {
      var init, last := s[..|s| - 1], s[|s| - 1];
      InsertKeepsTies(last, SortByKey(init, key), key, k);
      SortByKeyStable(init, key, k);
      WithKeySnoc(s, key, k);
    }
  }

  lemma WithKeySnoc<T>(s: seq<T>, key: T -> seq<string>, k: seq<string>)
    requires s != []
    ensures WithKey(s, key, k) ==
      WithKey(s[..|s| - 1], key, k) + (if key(s[|s| - 1]) == k then [s[|s| - 1]] else [])
  {
    var init, last := s[..|s| - 1], s[|s| - 1];
    assert WithKey([last], key, k) == if key(last) == k then [last] else [];
    WithKeyAppend(init, [last], key, k);
    assert s == init + [last];
  }

  /** The rows of `m` stored under `ids`, in the order of `ids`. */
  function RowsAt<V>(m: map<nat, V>, ids: seq<nat>): seq<V>
    requires forall k :: 0 <= k < |ids| ==> ids[k] in m
  {
    seq(|ids|, k requires 0 <= k < |ids| => m[ids[k]])
  }

  /** Sequences with the same multiset have the same length and the same elements. */
  lemma SameMultisetSameMembers<T>(a: seq<T>, b: seq<T>)
    requires multiset(a) == multiset(b)
    ensures |a| == |b|
    ensures forall x :: x in a <==> x in b
  {
    assert |multiset(a)| == |multiset(b)|;
    forall x ensures x in a <==> x in b {
      assert x in a <==> x in multiset(a);
      assert x in b <==> x in multiset(b);
    }
  }

  /**
   * The rows of `m` whose ids are in `ids`, ordered by `key`: exactly those
   * rows, each once per id, sorted, and rows with the same key in ascending
   * id order.
   */
  function OrderedRows<V>(m: map<nat, V>, ids: set<nat>, key: V -> seq<string>): (r: seq<V>)
    requires ids <= m.Keys
    ensures |r| == |ids|
    ensures forall k :: 0 <= k < |r| ==> exists id :: id in ids && m[id] == r[k]
    ensures forall id :: id in ids ==> m[id] in r
    ensures SortedByKey(r, key)
    ensures multiset(r) == multiset(RowsAt(m, SortedIds(ids)))
    ensures forall k :: WithKey(r, key, k) == WithKey(RowsAt(m, SortedIds(ids)), key, k)
  {
    var order := SortedIds(ids);
    var r := SortByKey(RowsAt(m, order), key);
    PermutedRowsSelected(m, ids, order, r);
    SortByKeyStableAll(RowsAt(m, order), key);
    r
  }

  /** A permutation of the rows at the ids of `order` holds exactly the rows of the ids in `ids`. */
  lemma PermutedRowsSelected<V>(m: map<nat, V>, ids: set<nat>, order: seq<nat>, r: seq<V>)
    requires ids <= m.Keys
    requires |order| == |ids| && forall x :: x in ids <==> x in order
    requires multiset(r) == multiset(RowsAt(m, order))
    ensures |r| == |ids|
    ensures forall k :: 0 <= k < |r| ==> exists id :: id in ids && m[id] == r[k]
    ensures forall id :: id in ids ==> m[id] in r
  {
    var rows := RowsAt(m, order);
    SameMultisetSameMembers(r, rows);
    RowsAtSelected(m, ids, order);
    forall k | 0 <= k < |r| ensures exists id :: id in ids && m[id] == r[k] {
      assert r[k] in r;
      assert r[k] in rows;
    }
    forall id | id in ids ensures m[id] in r {
      assert m[id] in rows;
    }
  }

  /** The rows of `m` at the ids of `order` are exactly the rows of the ids in `ids`. */
  lemma RowsAtSelected<V>(m: map<nat, V>, ids: set<nat>, order: seq<nat>)
    requires ids <= m.Keys
    requires forall x :: x in ids <==> x in order
    ensures forall v :: v in RowsAt(m, order) ==> exists id :: id in ids && m[id] == v
    ensures forall id :: id in ids ==> m[id] in RowsAt(m, order)
  {
    var rows := RowsAt(m, order);
    forall v | v in rows ensures exists id :: id in ids && m[id] == v {
      var j :| 0 <= j < |rows| && rows[j] == v;
      assert order[j] in ids;
    }
    forall id | id in ids ensures m[id] in rows {
      var j :| 0 <= j < |order| && order[j] == id;
      assert rows[j] == m[id];
    }
  }

  /** The rows a query with OFFSET `offset` and LIMIT `limit` returns from `all`. */
  function PageOf<T>(all: seq<T>, offset: nat, limit: nat): (r: seq<T>)
    ensures |r| == if offset >= |all| then 0 else if |all| - offset < limit then |all| - offset else limit
    ensures forall k :: 0 <= k < |r| ==> offset + k < |all| && r[k] == all[offset + k]
  {
    if offset >= |all| then []
    else if |all| - offset < limit then all[offset..]
    else all[offset..offset + limit]
  }

  /** `Math.ceil(count / limit)`: the least number of pages of `limit` rows that hold `count` rows. */
  function TotalPages(count: nat, limit: int): (pages: nat)
    requires limit >= 1
    ensures pages * limit >= count
    ensures pages > 0 ==> (pages - 1) * limit < count
  {
    (count + limit - 1) / limit
  }

  /**
   * With 1-based `page`, there is another page exactly when rows remain
   * after this one.
   */
  lemma {:induction false} HasNextIffRowsRemain(count: nat, page: int, limit: int)
    requires limit >= 1 && page >= 1
    ensures page < TotalPages(count, limit) <==> (page - 1) * limit + limit < count
  {
    var pages := TotalPages(count, limit);
    if page < pages {
      assert page <= pages - 1;
      MulMonotone(page, pages - 1, limit);
    } else {
      MulMonotone(pages, page, limit);
    }
  }

  /**
   * The page fields of 1-based page `page` at offset (page - 1) * limit: the
   * offset is never negative, it is positive exactly after the first page,
   * and a next page exists exactly when rows remain after the last row of
   * this one.
   */
  lemma {:induction false} PageFields<T>(all: seq<T>, page: int, limit: int, offset: int)
    requires limit >= 1 && page >= 1 && offset == (page - 1) * limit
    ensures offset >= 0
    ensures page > 1 <==> offset > 0
    ensures page < TotalPages(|all|, limit) <==> offset + |PageOf(all, offset, limit)| < |all|
  {
    MulMonotone(0, page - 1, limit);
    if page > 1 {
      MulMonotone(1, page - 1, limit);
    }
    HasNextIffRowsRemain(|all|, page, limit);
  }

  lemma MulMonotone(a: int, b: int, c: int)
    requires 0 <= a <= b && c >= 0
    ensures a * c <= b * c
  {
  }
}
