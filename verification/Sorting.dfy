/** Insertion sort by an integer key, keeping the order of equal keys. */
module Sorting {
  // Inserts before every element with a greater or equal key: the inserted element came earlier.
  function Insert<T>(key: T -> int, x: T, sorted: seq<T>): seq<T> {
    if sorted == [] || key(x) <= key(sorted[0]) then [x] + sorted
    else [sorted[0]] + Insert(key, x, sorted[1..])
  }

  function SortBy<T>(key: T -> int, s: seq<T>): seq<T> {
    if s == [] then [] else Insert(key, s[0], SortBy(key, s[1..]))
  }

  predicate Ascending<T>(key: T -> int, s: seq<T>) {
    forall i, j :: 0 <= i < j < |s| ==> key(s[i]) <= key(s[j])
  }

  // By the first key, and by the second among equals of the first.
  predicate NotAfter<T>(first: T -> int, second: T -> int, x: T, y: T) {
    first(x) < first(y) || (first(x) == first(y) && second(x) <= second(y))
  }

  predicate AscendingByBoth<T>(first: T -> int, second: T -> int, s: seq<T>) {
    forall i, j :: 0 <= i < j < |s| ==> NotAfter(first, second, s[i], s[j])
  }

  // The elements with one key, in their order.
  function WithKey<T>(key: T -> int, k: int, s: seq<T>): seq<T> {
    if s == [] then [] else (if key(s[0]) == k then [s[0]] else []) + WithKey(key, k, s[1..])
  }

  lemma {:induction false} InsertMember<T>(key: T -> int, x: T, sorted: seq<T>, y: T)
    ensures y in Insert(key, x, sorted) <==> y == x || y in sorted
  {
    if sorted != [] && key(x) > key(sorted[0]) {
      InsertMember(key, x, sorted[1..], y);
      assert sorted == [sorted[0]] + sorted[1..];
    }
  }

  lemma {:induction false} InsertAscends<T>(key: T -> int, x: T, sorted: seq<T>)
    requires Ascending(key, sorted)
    ensures Ascending(key, Insert(key, x, sorted))
  {
    if sorted != [] && key(x) > key(sorted[0]) {
      var rest := Insert(key, x, sorted[1..]);
      InsertAscends(key, x, sorted[1..]);
      forall k | 0 <= k < |rest| ensures key(sorted[0]) <= key(rest[k]) {
        InsertMember(key, x, sorted[1..], rest[k]);
        if rest[k] != x {
          LaterInOrder(key, sorted, rest[k]);
        }
      }
    }
  }

  lemma LaterInOrder<T>(key: T -> int, sorted: seq<T>, y: T)
    requires Ascending(key, sorted) && sorted != [] && y in sorted[1..]
    ensures key(sorted[0]) <= key(y)
  {
    var j :| 0 <= j < |sorted[1..]| && sorted[1..][j] == y;
    assert sorted[j + 1] == y;
  }

  lemma {:induction false} InsertPermutes<T>(key: T -> int, x: T, sorted: seq<T>)
    ensures multiset(Insert(key, x, sorted)) == multiset{x} + multiset(sorted)
  {
    if sorted != [] && key(x) > key(sorted[0]) {
      InsertPermutes(key, x, sorted[1..]);
      assert sorted == [sorted[0]] + sorted[1..];
    }
  }

  lemma {:induction false} InsertIsStable<T>(key: T -> int, x: T, sorted: seq<T>, k: int)
    ensures WithKey(key, k, Insert(key, x, sorted)) == WithKey(key, k, [x] + sorted)
  {
    assert ([x] + sorted)[1..] == sorted;
    if sorted != [] && key(x) > key(sorted[0]) {
      InsertIsStable(key, x, sorted[1..], k);
      assert ([x] + sorted[1..])[1..] == sorted[1..];
    }
  }

  lemma {:induction false} SortMember<T>(key: T -> int, s: seq<T>, y: T)
    ensures y in SortBy(key, s) <==> y in s
  {
    if s != [] {
      SortMember(key, s[1..], y);
      InsertMember(key, s[0], SortBy(key, s[1..]), y);
    }
  }

  lemma {:induction false} SortAscends<T>(key: T -> int, s: seq<T>)
    ensures Ascending(key, SortBy(key, s))
  {
    if s != [] {
      SortAscends(key, s[1..]);
      InsertAscends(key, s[0], SortBy(key, s[1..]));
    }
  }

  lemma {:induction false} SortPermutes<T>(key: T -> int, s: seq<T>)
    ensures multiset(SortBy(key, s)) == multiset(s)
  {
    if s != [] {
      SortPermutes(key, s[1..]);
      InsertPermutes(key, s[0], SortBy(key, s[1..]));
      assert s == [s[0]] + s[1..];
    }
  }

  lemma {:induction false} SortIsStable<T>(key: T -> int, s: seq<T>, k: int)
    ensures WithKey(key, k, SortBy(key, s)) == WithKey(key, k, s)
  {
    if s != [] {
      var rest := SortBy(key, s[1..]);
      SortIsStable(key, s[1..], k);
      InsertIsStable(key, s[0], rest, k);
      assert ([s[0]] + rest)[1..] == rest;
    }
  }

  // Inserting an element whose second key is least keeps both orders.
  lemma {:induction false} InsertKeepsBoth<T>(first: T -> int, second: T -> int, x: T, sorted: seq<T>)
    requires AscendingByBoth(first, second, sorted) && forall y :: y in sorted ==> second(x) <= second(y)
    ensures AscendingByBoth(first, second, Insert(first, x, sorted))
  {
    if sorted == [] || first(x) <= first(sorted[0]) {
      var after := [x] + sorted;
      forall j | 0 < j < |after| ensures NotAfter(first, second, x, after[j]) {
        assert after[j] == sorted[j - 1];
      }
    } else {
      var rest := Insert(first, x, sorted[1..]);
      InsertKeepsBoth(first, second, x, sorted[1..]);
      forall j | 0 <= j < |rest| ensures NotAfter(first, second, sorted[0], rest[j]) {
        InsertMember(first, x, sorted[1..], rest[j]);
        if rest[j] != x {
          var i :| 0 <= i < |sorted[1..]| && sorted[1..][i] == rest[j];
          assert sorted[i + 1] == rest[j];
        }
      }
    }
  }

  // Sorting by the second key first gives the order by both.
  lemma {:induction false} SortTwice<T>(first: T -> int, second: T -> int, s: seq<T>)
    requires Ascending(second, s)
    ensures AscendingByBoth(first, second, SortBy(first, s))
  {
    if s != [] {
      var rest := SortBy(first, s[1..]);
      SortTwice(first, second, s[1..]);
      forall y | y in rest ensures second(s[0]) <= second(y) {
        SortMember(first, s[1..], y);
        LaterInOrder(second, s, y);
      }
      InsertKeepsBoth(first, second, s[0], rest);
    }
  }
}
