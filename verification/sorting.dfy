/** `Array.prototype.sort` with a numeric comparator `(a, b) => key(a) - key(b)`.
    The engine's sort is stable, so it is modelled as a stable insertion
    sort on an integer key. */
module Sorting {
  import opened Seqs

  /** Keys never decrease along the sequence. */
  ghost predicate SortedBy<T>(s: seq<T>, key: T -> int) {
    forall i, j :: 0 <= i < j < |s| ==> key(s[i]) <= key(s[j])
  }

  /** The elements of `s` whose key is exactly `k`, in order. */
  function WithKey<T>(s: seq<T>, key: T -> int, k: int): seq<T> {
    Filter(s, x => key(x) == k)
  }

  /** Inserts `x` before the first element whose key is not smaller. */
  function Insert<T>(x: T, t: seq<T>, key: T -> int): (r: seq<T>)
    ensures |r| == |t| + 1
    ensures multiset(r) == multiset(t) + multiset{x}
    decreases |t|
  {
    if |t| == 0 || key(x) <= key(t[0]) then [x] + t
    else
      assert t == [t[0]] + t[1..];
      [t[0]] + Insert(x, t[1..], key)
  }

  /** Every key of `Insert(x, t)` is a key of `x` or of `t`. */
  lemma {:induction false} InsertBounded<T>(x: T, t: seq<T>, key: T -> int, lo: int)
    requires key(x) >= lo
    requires forall j :: 0 <= j < |t| ==> key(t[j]) >= lo
    ensures forall j :: 0 <= j < |Insert(x, t, key)| ==> key(Insert(x, t, key)[j]) >= lo
    decreases |t|
  {
    if |t| > 0 && key(x) > key(t[0]) {
      InsertBounded(x, t[1..], key, lo);
    }
  }

  /** Insertion keeps a sorted sequence sorted. */
  lemma {:induction false} InsertSorted<T>(x: T, t: seq<T>, key: T -> int)
    requires SortedBy(t, key)
    ensures SortedBy(Insert(x, t, key), key)
    decreases |t|
  {
    if |t| > 0 && key(x) > key(t[0]) {
      InsertSorted(x, t[1..], key);
      InsertBounded(x, t[1..], key, key(t[0]));
    }
  }

  /** The stable ascending sort by `key`. */
  function SortBy<T>(s: seq<T>, key: T -> int): (r: seq<T>)
    ensures |r| == |s|
    ensures multiset(r) == multiset(s)
    ensures SortedBy(r, key)
    decreases |s|
  {
    if |s| == 0 then []
    else
      assert s == [s[0]] + s[1..];
      InsertSorted(s[0], SortBy(s[1..], key), key);
      Insert(s[0], SortBy(s[1..], key), key)
  }

  /** Inserting `x` places it ahead of every element of equal key, which is
      where it stood in the input. */
  lemma {:induction false} InsertWithKey<T>(x: T, t: seq<T>, key: T -> int, k: int)
    ensures WithKey(Insert(x, t, key), key, k)
         == (if key(x) == k then [x] else []) + WithKey(t, key, k)
    decreases |t|
  {
    if |t| == 0 || key(x) <= key(t[0]) {
      FilterAppend([x], t, y => key(y) == k);
    } else {
      InsertWithKey(x, t[1..], key, k);
      FilterAppend([t[0]], Insert(x, t[1..], key), y => key(y) == k);
      FilterAppend([t[0]], t[1..], y => key(y) == k);
      assert t == [t[0]] + t[1..];
    }
  }

  /** Stability: the records sharing any one key come out in their input order. */
  lemma {:induction false} SortStable<T>(s: seq<T>, key: T -> int, k: int)
    ensures WithKey(SortBy(s, key), key, k) == WithKey(s, key, k)
    decreases |s|
  {
    if |s| > 0 {
      SortStable(s[1..], key, k);
      InsertWithKey(s[0], SortBy(s[1..], key), key, k);
      FilterAppend([s[0]], s[1..], y => key(y) == k);
      assert s == [s[0]] + s[1..];
    }
  }

  /** Sorting an already sorted sequence changes nothing. */
  lemma {:induction false} SortSorted<T>(s: seq<T>, key: T -> int)
    requires SortedBy(s, key)
    ensures SortBy(s, key) == s
    decreases |s|
  {
    if |s| > 0 {
      SortSorted(s[1..], key);
      assert SortBy(s[1..], key) == s[1..];
    }
  }
}
