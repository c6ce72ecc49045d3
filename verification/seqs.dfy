/** The array operations the handlers and pages use: `filter`, `find`,
    `findIndex`, `splice` and `slice`, on immutable sequences. */
module Seqs {
  import opened Json

  /** `s.filter(keep)`. */
  function Filter<T>(s: seq<T>, keep: T -> bool): (r: seq<T>)
    ensures |r| <= |s|
    ensures forall i :: 0 <= i < |r| ==> keep(r[i])
    decreases |s|
  {
    if |s| == 0 then []
    else if keep(s[0]) then [s[0]] + Filter(s[1..], keep)
    else Filter(s[1..], keep)
  }

  /** Filtering distributes over concatenation: kept elements stay in their
      relative order. */
  lemma {:induction false} FilterAppend<T>(a: seq<T>, b: seq<T>, keep: T -> bool)
    ensures Filter(a + b, keep) == Filter(a, keep) + Filter(b, keep)
    decreases |a|
  {
    if |a| == 0 {
      assert a + b == b;
    } else {
      assert (a + b)[1..] == a[1..] + b;
      FilterAppend(a[1..], b, keep);
    }
  }

  /** Membership in a filtered sequence, both directions. */
  lemma {:induction false} FilterMember<T>(s: seq<T>, keep: T -> bool, x: T)
    ensures x in Filter(s, keep) <==> x in s && keep(x)
    decreases |s|
  {
    if |s| > 0 {
      FilterMember(s[1..], keep, x);
      assert s == [s[0]] + s[1..];
    }
  }

  /** Filtering keeps every occurrence of a kept value and none of the others. */
  lemma {:induction false} FilterCount<T>(s: seq<T>, keep: T -> bool, x: T)
    ensures multiset(Filter(s, keep))[x] == if keep(x) then multiset(s)[x] else 0
    decreases |s|
  {
    if |s| > 0 {
      FilterCount(s[1..], keep, x);
      assert s == [s[0]] + s[1..];
    }
  }

  /** A filter that keeps everything is the identity. */
  lemma {:induction false} FilterAll<T>(s: seq<T>, keep: T -> bool)
    requires forall i :: 0 <= i < |s| ==> keep(s[i])
    ensures Filter(s, keep) == s
    decreases |s|
  {
    if |s| > 0 {
      FilterAll(s[1..], keep);
    }
  }

  /** A filter that keeps nothing returns the empty sequence. */
  lemma {:induction false} FilterNone<T>(s: seq<T>, keep: T -> bool)
    requires forall i :: 0 <= i < |s| ==> !keep(s[i])
    ensures Filter(s, keep) == []
    decreases |s|
  {
    if |s| > 0 {
      FilterNone(s[1..], keep);
    }
  }

  /** Filtering twice with the same predicate is filtering once. */
  lemma {:induction false} FilterIdempotent<T>(s: seq<T>, keep: T -> bool)
    ensures Filter(Filter(s, keep), keep) == Filter(s, keep)
  {
    FilterAll(Filter(s, keep), keep);
  }

  /** The positions of `s` whose element `keep` accepts, in increasing
      order. */
  function KeptIndices<T>(s: seq<T>, keep: T -> bool): (idx: seq<nat>)
    ensures |idx| == |Filter(s, keep)|
    decreases |s|
  {
    if |s| == 0 then []
    else if keep(s[0]) then [0] + Shift(KeptIndices(s[1..], keep))
    else Shift(KeptIndices(s[1..], keep))
  }

  function Shift(xs: seq<nat>): (ys: seq<nat>)
    ensures |ys| == |xs|
    ensures forall k :: 0 <= k < |xs| ==> ys[k] == xs[k] + 1
  {
    seq(|xs|, k requires 0 <= k < |xs| => xs[k] + 1)
  }

  /** Every listed position holds a kept element, and the positions
      strictly increase. */
  lemma {:induction false} KeptIndicesSound<T>(s: seq<T>, keep: T -> bool)
    ensures forall k :: 0 <= k < |KeptIndices(s, keep)| ==>
      KeptIndices(s, keep)[k] < |s| && keep(s[KeptIndices(s, keep)[k]])
    ensures forall k, l :: 0 <= k < l < |KeptIndices(s, keep)| ==>
      KeptIndices(s, keep)[k] < KeptIndices(s, keep)[l]
    decreases |s|
  {
    if |s| > 0 {
      KeptIndicesSound(s[1..], keep);
      var rest := KeptIndices(s[1..], keep);
      assert forall k :: 0 <= k < |rest| ==> keep(s[rest[k] + 1]) by {
        forall k | 0 <= k < |rest| ensures keep(s[rest[k] + 1]) {
          assert s[rest[k] + 1] == s[1..][rest[k]];
        }
      }
    }
  }

  /** Every position holding a kept element is listed. */
  lemma {:induction false} KeptIndicesComplete<T>(s: seq<T>, keep: T -> bool, i: nat)
    requires i < |s| && keep(s[i])
    ensures i in KeptIndices(s, keep)
    decreases |s|
  {
    if i > 0 {
      KeptIndicesComplete(s[1..], keep, i - 1);
      var rest := KeptIndices(s[1..], keep);
      var k :| 0 <= k < |rest| && rest[k] == i - 1;
      assert Shift(rest)[k] == i;
      if keep(s[0]) {
        assert KeptIndices(s, keep)[k + 1] == i;
      }
    }
  }

  /** `r` lists the elements of `s` at the positions `idx`, in that order. */
  predicate At<T(==)>(r: seq<T>, s: seq<T>, idx: seq<nat>) {
    && |r| == |idx|
    && forall k :: 0 <= k < |idx| ==> idx[k] < |s| && r[k] == s[idx[k]]
  }

  /** `filter` returns a subsequence: the kept elements, each taken from its
      own position, in the order of those positions. */
  lemma {:induction false} FilterSubsequence<T>(s: seq<T>, keep: T -> bool)
    ensures At(Filter(s, keep), s, KeptIndices(s, keep))
    decreases |s|
  {
    if |s| > 0 {
      FilterSubsequence(s[1..], keep);
      var r := Filter(s[1..], keep);
      var rest := KeptIndices(s[1..], keep);
      assert forall k :: 0 <= k < |rest| ==> r[k] == s[Shift(rest)[k]] by {
        forall k | 0 <= k < |rest| ensures r[k] == s[Shift(rest)[k]] {
          assert s[rest[k] + 1] == s[1..][rest[k]];
        }
      }
    }
  }

  /** `s.findIndex(p)`, with `None` for JavaScript's `-1`. */
  function FindIndex<T>(s: seq<T>, p: T -> bool): (r: Option<nat>)
    ensures r.Some? ==> r.value < |s| && p(s[r.value])
    ensures r.Some? ==> forall j :: 0 <= j < r.value ==> !p(s[j])
    ensures r.None? ==> forall j :: 0 <= j < |s| ==> !p(s[j])
    decreases |s|
  {
    if |s| == 0 then None
    else if p(s[0]) then Some(0)
    else match FindIndex(s[1..], p)
      case None => None
      case Some(i) => Some(i + 1)
  }

  /** `s.find(p)`: the first element satisfying `p`. */
  function Find<T>(s: seq<T>, p: T -> bool): (r: Option<T>)
    ensures r.Some? <==> exists i :: 0 <= i < |s| && p(s[i])
    ensures r.Some? ==> exists i :: 0 <= i < |s| && s[i] == r.value && p(s[i])
                                    && forall j :: 0 <= j < i ==> !p(s[j])
  {
    match FindIndex(s, p)
    case None => None
    case Some(i) => Some(s[i])
  }

  /** `s.splice(i, 1)` for a non-negative index: removes the element at `i`,
      or nothing when `i` is past the end. */
  function RemoveAt<T>(s: seq<T>, i: nat): (r: seq<T>)
    ensures i < |s| ==> |r| == |s| - 1
    ensures i < |s| ==> forall j :: 0 <= j < i ==> r[j] == s[j]
    ensures i < |s| ==> forall j :: i <= j < |r| ==> r[j] == s[j + 1]
    ensures i >= |s| ==> r == s
  {
    if i < |s| then s[..i] + s[i + 1..] else s
  }

  /** `s.splice(i, 0, x)` for a non-negative index: inserts `x` before
      position `i`, or at the end when `i` is past it. */
  function InsertAt<T>(s: seq<T>, i: nat, x: T): (r: seq<T>)
    ensures |r| == |s| + 1
    ensures multiset(r) == multiset(s) + multiset{x}
    ensures r[if i < |s| then i else |s|] == x
    ensures forall j :: 0 <= j < i && j < |s| ==> r[j] == s[j]
    ensures forall j :: i <= j < |s| ==> r[j + 1] == s[j]
  {
    var k := if i < |s| then i else |s|;
    assert s == s[..k] + s[k..];
    s[..k] + [x] + s[k..]
  }

  /** `s.slice(0, n)`. */
  function Take<T>(s: seq<T>, n: nat): (r: seq<T>)
    ensures |r| == if n < |s| then n else |s|
    ensures forall j :: 0 <= j < |r| ==> r[j] == s[j]
  {
    if n < |s| then s[..n] else s
  }
}
