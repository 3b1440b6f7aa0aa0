/** Row-set operations shared by the back-end steps: filtering, masking, mapping and prefixes. */
module Seqs {
  import Text

  /** The elements that satisfy `p`, in their original order (a boolean-mask selection). */
  function Where<T>(xs: seq<T>, p: T -> bool): (r: seq<T>)
    ensures |r| <= |xs|
    ensures forall i :: 0 <= i < |r| ==> r[i] in xs && p(r[i])
  {
    if xs == [] then [] else (if p(xs[0]) then [xs[0]] else []) + Where(xs[1..], p)
  }

  /** An element is kept exactly when it occurs and passes the test. */
  lemma {:induction false} WhereMembership<T>(xs: seq<T>, p: T -> bool, x: T)
    ensures x in Where(xs, p) <==> x in xs && p(x)
  {
    if xs != [] {
      WhereMembership(xs[1..], p, x);
      assert xs == [xs[0]] + xs[1..];
    }
  }

  /** `xs[mask]`: the elements whose mask entry is set. */
  function Select<T>(xs: seq<T>, mask: seq<bool>): (r: seq<T>)
    requires |mask| == |xs|
    ensures |r| <= |xs|
  {
    if xs == [] then [] else (if mask[0] then [xs[0]] else []) + Select(xs[1..], mask[1..])
  }

  /** Applying `f` to every element. */
  function MapSeq<T, U>(f: T -> U, xs: seq<T>): (r: seq<U>)
    ensures |r| == |xs|
    ensures forall i :: 0 <= i < |xs| ==> r[i] == f(xs[i])
  {
    seq(|xs|, i requires 0 <= i < |xs| => f(xs[i]))
  }

  /** `head(n)`: the first `n` elements, or all of them when there are fewer. */
  function Take<T>(xs: seq<T>, n: nat): (r: seq<T>)
    ensures |r| == if |xs| < n then |xs| else n
    ensures r == xs[..|r|]
  {
    if |xs| < n then xs else xs[..n]
  }

  /** Number of elements satisfying `p`. */
  function Count<T>(xs: seq<T>, p: T -> bool): (n: nat)
    ensures n <= |xs|
  {
    if xs == [] then 0 else (if p(xs[0]) then 1 else 0) + Count(xs[1..], p)
  }

  lemma {:induction false} MapSeqTail<T, U>(f: T -> U, xs: seq<T>)
    requires xs != []
    ensures MapSeq(f, xs)[1..] == MapSeq(f, xs[1..])
  {
  }

  lemma MapSeqSnoc<T, U>(f: T -> U, xs: seq<T>)
    requires xs != []
    ensures MapSeq(f, xs) == MapSeq(f, xs[..|xs| - 1]) + [f(xs[|xs| - 1])]
  {
  }

  /** Filtering mapped values by a mapped mask is mapping the filtered elements. */
  lemma {:induction false} SelectMapped<T, U>(xs: seq<T>, f: T -> U, p: T -> bool)
    ensures Select(MapSeq(f, xs), MapSeq(p, xs)) == MapSeq(f, Where(xs, p))
  {
    if xs != [] {
      MapSeqTail(f, xs);
      MapSeqTail(p, xs);
      SelectMapped(xs[1..], f, p);
    }
  }

  /** Filtering twice is filtering once by both tests. */
  lemma {:induction false} WhereWhere<T>(xs: seq<T>, p: T -> bool, q: T -> bool)
    ensures Where(Where(xs, p), q) == Where(xs, x => p(x) && q(x))
  {
    if xs != [] {
      WhereWhere(xs[1..], p, q);
      WhereAppend((if p(xs[0]) then [xs[0]] else []), Where(xs[1..], p), q);
    }
  }

  lemma {:induction false} WhereAppend<T>(a: seq<T>, b: seq<T>, p: T -> bool)
    ensures Where(a + b, p) == Where(a, p) + Where(b, p)
  {
    if a != [] {
      assert (a + b)[1..] == a[1..] + b;
      WhereAppend(a[1..], b, p);
    } else {
      assert a + b == b;
    }
  }

  /** Counting is the length of the filtered sequence. */
  lemma {:induction false} CountIsWhere<T>(xs: seq<T>, p: T -> bool)
    ensures Count(xs, p) == |Where(xs, p)|
  {
    if xs != [] {
      CountIsWhere(xs[1..], p);
    }
  }

  /** Filtering keeps the surviving elements in their relative order. */
  lemma {:induction false} WhereIsSubsequence<T>(xs: seq<T>, p: T -> bool)
    ensures Text.IsSubsequence(Where(xs, p), xs)
  {
    if xs != [] {
      WhereIsSubsequence(xs[1..], p);
      if p(xs[0]) {
        assert ([xs[0]] + Where(xs[1..], p))[1..] == Where(xs[1..], p);
      } else {
        assert Where(xs, p) == Where(xs[1..], p);
        Text.SubsequenceOfTail(Where(xs[1..], p), xs);
      }
    }
  }

  /** When every element passes, the count is the length. */
  lemma {:induction false} CountAll<T>(xs: seq<T>, p: T -> bool)
    requires forall i :: 0 <= i < |xs| ==> p(xs[i])
    ensures Count(xs, p) == |xs|
  {
    if xs != [] {
      assert p(xs[0]);
      CountAll(xs[1..], p);
    }
  }

  /** Two filters in a row keep exactly the elements passing both, in their original order. */
  lemma WhereTwice<T>(xs: seq<T>, p: T -> bool, q: T -> bool, x: T)
    ensures x in Where(Where(xs, p), q) <==> x in xs && p(x) && q(x)
    ensures Text.IsSubsequence(Where(Where(xs, p), q), xs)
  {
    WhereMembership(xs, p, x);
    WhereMembership(Where(xs, p), q, x);
    WhereWhere(xs, p, q);
    WhereIsSubsequence(xs, x => p(x) && q(x));
  }
}
