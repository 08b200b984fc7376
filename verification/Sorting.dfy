/** The library's sort: stable, by a key of one or two numbers. */
module Sorting {

  datatype Key = Key(first: int, second: int)

  predicate NotAfter(a: Key, b: Key) {
    a.first < b.first || (a.first == b.first && a.second <= b.second)
  }

  function Insert<T>(key: T -> Key, x: T, sorted: seq<T>): seq<T> {
    if sorted == [] || NotAfter(key(x), key(sorted[0])) then [x] + sorted
    else [sorted[0]] + Insert(key, x, sorted[1..])
  }

  function Sort<T>(key: T -> Key, xs: seq<T>): seq<T> {
    if xs == [] then [] else Insert(key, xs[0], Sort(key, xs[1..]))
  }

  ghost predicate Sorted<T>(key: T -> Key, xs: seq<T>) {
    forall i, j :: 0 <= i < j < |xs| ==> NotAfter(key(xs[i]), key(xs[j]))
  }

  /** The elements with one key, in their order. */
  function WithKey<T>(key: T -> Key, xs: seq<T>, k: Key): seq<T> {
    if xs == [] then []
    else (if key(xs[0]) == k then [xs[0]] else []) + WithKey(key, xs[1..], k)
  }

  lemma {:induction false} InsertMember<T>(key: T -> Key, x: T, xs: seq<T>, y: T)
    ensures y in Insert(key, x, xs) <==> y == x || y in xs
  {
    if xs != [] {
      InsertMember(key, x, xs[1..], y);
      assert y in xs <==> y == xs[0] || y in xs[1..];
    }
  }

  lemma {:induction false} InsertKeeps<T>(key: T -> Key, x: T, xs: seq<T>)
    ensures multiset(Insert(key, x, xs)) == multiset(xs) + multiset{x}
  {
    if xs != [] {
      assert xs == [xs[0]] + xs[1..];
      InsertKeeps(key, x, xs[1..]);
    }
  }

  lemma {:induction false} InsertSorts<T>(key: T -> Key, x: T, xs: seq<T>)
    requires Sorted(key, xs)
    ensures Sorted(key, Insert(key, x, xs))
  {
    if xs != [] && !NotAfter(key(x), key(xs[0])) {
      InsertSorts(key, x, xs[1..]);
      var rest := Insert(key, x, xs[1..]);
      forall j | 0 <= j < |rest| ensures NotAfter(key(xs[0]), key(rest[j])) {
        InsertMember(key, x, xs[1..], rest[j]);
      }
    }
  }

  lemma {:induction false} InsertStable<T>(key: T -> Key, x: T, xs: seq<T>, k: Key)
    requires Sorted(key, xs)
    ensures WithKey(key, Insert(key, x, xs), k) == (if key(x) == k then [x] else []) + WithKey(key, xs, k)
  {
    if xs == [] || NotAfter(key(x), key(xs[0])) {
      assert ([x] + xs)[1..] == xs;
    } else {
      InsertStable(key, x, xs[1..], k);
      var rest := Insert(key, x, xs[1..]);
      assert ([xs[0]] + rest)[1..] == rest;
    }
  }

  /** What the sort promises: sorted, nothing lost, equal keys in their old order. */
  lemma {:induction false} SortExact<T>(key: T -> Key, xs: seq<T>)
    ensures Sorted(key, Sort(key, xs)) && multiset(Sort(key, xs)) == multiset(xs)
    ensures forall k :: WithKey(key, Sort(key, xs), k) == WithKey(key, xs, k)
  {
    if xs != [] {
      SortExact(key, xs[1..]);
      InsertSorts(key, xs[0], Sort(key, xs[1..]));
      InsertKeeps(key, xs[0], Sort(key, xs[1..]));
      assert xs == [xs[0]] + xs[1..];
      forall k ensures WithKey(key, Sort(key, xs), k) == WithKey(key, xs, k) {
        InsertStable(key, xs[0], Sort(key, xs[1..]), k);
      }
    }
  }

  lemma {:induction false} SortMember<T>(key: T -> Key, xs: seq<T>, y: T)
    ensures y in Sort(key, xs) <==> y in xs
  {
    if xs != [] {
      SortMember(key, xs[1..], y);
      InsertMember(key, xs[0], Sort(key, xs[1..]), y);
      assert y in xs <==> y == xs[0] || y in xs[1..];
    }
  }
}
