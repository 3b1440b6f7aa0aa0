/**
 * Ordering a sequence by a numeric key, for the `sort_values` calls of the
 * statistics endpoints (backend/main.py:58-59, 149-150).
 *
 * The order is produced by insertion: an element goes before the first
 * element whose key is not larger, so elements with equal keys keep their
 * input order. That tie order is this model's choice: pandas' default
 * quicksort leaves the order of equal keys unspecified, and the properties
 * proved here (a permutation, ordered by key) hold for any tie order.
 */
module Sorting {
  import opened Seqs

  /** Keys never increase along `xs`. */
  predicate NonIncreasing<T>(xs: seq<T>, key: T -> real) {
    forall i, j :: 0 <= i < j < |xs| ==> key(xs[i]) >= key(xs[j])
  }

  /** Keys never decrease along `xs`. */
  predicate NonDecreasing<T>(xs: seq<T>, key: T -> real) {
    forall i, j :: 0 <= i < j < |xs| ==> key(xs[i]) <= key(xs[j])
  }

  /** Puts `x` into a sequence ordered by decreasing key, before the first element whose key is at most its own. */
  function Insert<T>(x: T, xs: seq<T>, key: T -> real): (r: seq<T>)
    requires NonIncreasing(xs, key)
    ensures |r| == |xs| + 1
    ensures multiset(r) == multiset(xs) + multiset{x}
    ensures NonIncreasing(r, key)
  {
    if xs == [] then [x]
    else if key(x) >= key(xs[0]) then [x] + xs
    else
      var rest := Insert(x, xs[1..], key);
      assert xs == [xs[0]] + xs[1..];
      forall k | 0 <= k < |rest| ensures key(rest[k]) <= key(xs[0]) {
        assert rest[k] in multiset(rest);
        if rest[k] != x {
          var j :| 0 <= j < |xs[1..]| && xs[1..][j] == rest[k];
          assert xs[j + 1] == rest[k];
        }
      }
      [xs[0]] + rest
  }

  /** `sort_values(ascending=False)`: the elements, ordered by decreasing key. */
  function SortDesc<T>(xs: seq<T>, key: T -> real): (r: seq<T>)
    ensures |r| == |xs|
    ensures multiset(r) == multiset(xs)
    ensures NonIncreasing(r, key)
  {
    if xs == [] then []
    else
      assert xs == [xs[0]] + xs[1..];
      Insert(xs[0], SortDesc(xs[1..], key), key)
  }

  /** The key turned around, so that ordering by it descending orders by `key` ascending. */
  function Negated<T>(key: T -> real): T -> real {
    x => -key(x)
  }

  /** `sort_values()` (ascending): the elements, ordered by increasing key. */
  function SortAsc<T>(xs: seq<T>, key: T -> real): (r: seq<T>)
    ensures |r| == |xs|
    ensures multiset(r) == multiset(xs)
    ensures NonDecreasing(r, key)
  {
    var r := SortDesc(xs, Negated(key));
    assert forall i, j :: 0 <= i < j < |r| ==> Negated(key)(r[i]) >= Negated(key)(r[j]);
    r
  }

  /** Elements are kept and not invented: sorting changes only the positions. */
  lemma SortedMembership<T>(xs: seq<T>, key: T -> real, x: T)
    ensures x in SortDesc(xs, key) <==> x in xs
    ensures x in SortAsc(xs, key) <==> x in xs
  {
    assert x in SortDesc(xs, key) <==> x in multiset(SortDesc(xs, key));
    assert x in SortAsc(xs, key) <==> x in multiset(SortAsc(xs, key));
  }

  /** Mapping in a way that keeps the keys commutes with insertion. */
  lemma {:induction false} InsertMapped<T, U>(x: T, xs: seq<T>, key: T -> real, f: T -> U, fkey: U -> real)
    requires NonIncreasing(xs, key)
    requires forall y :: fkey(f(y)) == key(y)
    ensures NonIncreasing(MapSeq(f, xs), fkey)
    ensures Insert(f(x), MapSeq(f, xs), fkey) == MapSeq(f, Insert(x, xs, key))
  {
    MappedOrder(xs, key, f, fkey);
    if xs != [] && key(x) < key(xs[0]) {
      InsertMapped(x, xs[1..], key, f, fkey);
      assert MapSeq(f, xs)[1..] == MapSeq(f, xs[1..]);
    }
  }

  /** Mapping in a way that keeps the keys commutes with sorting. */
  lemma {:induction false} SortMapped<T, U>(xs: seq<T>, key: T -> real, f: T -> U, fkey: U -> real)
    requires forall y :: fkey(f(y)) == key(y)
    ensures SortDesc(MapSeq(f, xs), fkey) == MapSeq(f, SortDesc(xs, key))
  {
    if xs != [] {
      SortMapped(xs[1..], key, f, fkey);
      assert MapSeq(f, xs)[1..] == MapSeq(f, xs[1..]);
      InsertMapped(xs[0], SortDesc(xs[1..], key), key, f, fkey);
    }
  }

  lemma MappedOrder<T, U>(xs: seq<T>, key: T -> real, f: T -> U, fkey: U -> real)
    requires NonIncreasing(xs, key)
    requires forall y :: fkey(f(y)) == key(y)
    ensures NonIncreasing(MapSeq(f, xs), fkey)
  {
  }

  /** No two elements of `xs` share the same `f`. */
  ghost predicate DistinctBy<T, K>(xs: seq<T>, f: T -> K) {
    forall i, j :: 0 <= i < j < |xs| ==> f(xs[i]) != f(xs[j])
  }

  /** An element occurring twice sits at two positions. */
  lemma {:induction false} TwoPositions<T>(xs: seq<T>, x: T)
    requires multiset(xs)[x] >= 2
    ensures exists p, q :: 0 <= p < q < |xs| && xs[p] == x && xs[q] == x
  {
    assert xs == [xs[0]] + xs[1..];
    if xs[0] == x {
      assert x in multiset(xs[1..]);
      var q :| 0 <= q < |xs[1..]| && xs[1..][q] == x;
      assert xs[q + 1] == x;
    } else {
      TwoPositions(xs[1..], x);
      var p, q :| 0 <= p < q < |xs[1..]| && xs[1..][p] == x && xs[1..][q] == x;
      assert xs[p + 1] == x && xs[q + 1] == x;
    }
  }

  /** An element of a permutation of `a` sits at some position of `a`. */
  lemma PositionIn<T>(a: seq<T>, b: seq<T>, x: T) returns (p: nat)
    requires multiset(a) == multiset(b) && x in b
    ensures p < |a| && a[p] == x
  {
    assert x in multiset(b);
    p :| 0 <= p < |a| && a[p] == x;
  }

  /** Reordering keeps the values of `f` distinct. */
  lemma DistinctByPermutation<T, K>(a: seq<T>, b: seq<T>, f: T -> K)
    requires multiset(a) == multiset(b)
    requires DistinctBy(a, f)
    ensures DistinctBy(b, f)
  {
    forall i, j | 0 <= i < j < |b| ensures f(b[i]) != f(b[j]) {
      if b[i] == b[j] {
        assert b == b[..j] + b[j..];
        assert b[i] in multiset(b[..j]) by { assert b[..j][i] == b[i]; }
        assert b[j] in multiset(b[j..]) by { assert b[j..][0] == b[j]; }
        assert multiset(b)[b[i]] == multiset(b[..j])[b[i]] + multiset(b[j..])[b[i]];
        TwoPositions(a, b[i]);
      } else {
        var p := PositionIn(a, b, b[i]);
        var q := PositionIn(a, b, b[j]);
        if p < q {
          assert f(a[p]) != f(a[q]);
        } else {
          assert f(a[q]) != f(a[p]);
        }
      }
    }
  }
}
