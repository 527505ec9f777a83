/**
 * Ordering predicates over integer sequences and a reference sort.
 *
 * `SortSeq` is the value that Python's `sorted` and C's `qsort` with an
 * ascending comparator both produce: the unique ascending permutation of
 * the input. The two uniqueness lemmas are what let an imperative result
 * be identified with a functional definition.
 */
module Sorting {

  /** Non-decreasing order. */
  predicate Sorted(s: seq<int>) {
    forall i, j :: 0 <= i < j < |s| ==> s[i] <= s[j]
  }

  /** Strictly increasing order: sorted and free of repeats. */
  predicate StrictlyAscending(s: seq<int>) {
    forall i, j :: 0 <= i < j < |s| ==> s[i] < s[j]
  }

  /** Inserts `x` into a sorted sequence, keeping it sorted. */
  function Insert(x: int, s: seq<int>): (r: seq<int>)
    requires Sorted(s)
    ensures |r| == |s| + 1
    ensures Sorted(r)
    ensures multiset(r) == multiset(s) + multiset{x}
  {
    if s == [] then [x]
    else if x <= s[0] then [x] + s
    else
      var rest := Insert(x, s[1..]);
      assert s == [s[0]] + s[1..];
      LeastPrepend(s[0], rest);
      [s[0]] + rest
  }

  /** Prepending a lower bound of a sorted sequence keeps it sorted. */
  lemma LeastPrepend(h: int, r: seq<int>)
    requires Sorted(r)
    requires forall v :: v in multiset(r) ==> h <= v
    ensures Sorted([h] + r)
  {
    forall k | 0 <= k < |r|
      ensures h <= r[k]
    {
      assert r[k] in multiset(r);
    }
  }

  /** The ascending permutation of `s` (an insertion sort). */
  function SortSeq(s: seq<int>): (r: seq<int>)
    ensures |r| == |s|
    ensures Sorted(r)
    ensures multiset(r) == multiset(s)
  {
    if s == [] then []
    else
      assert s == [s[0]] + s[1..];
      Insert(s[0], SortSeq(s[1..]))
  }

  /** The head of a sorted sequence is a lower bound of all its values. */
  lemma SortedHeadIsLeast(a: seq<int>, v: int)
    requires Sorted(a) && v in a
    ensures a[0] <= v
  {
  }

  /** Two sorted permutations of the same multiset are the same sequence. */
  lemma {:induction false} SortedPermutationUnique(a: seq<int>, b: seq<int>)
    requires Sorted(a) && Sorted(b)
    requires multiset(a) == multiset(b)
    ensures a == b
  {
    if a != [] {
      assert a[0] in multiset(a);
      assert b != [];
      assert b[0] in multiset(b);
      SortedHeadIsLeast(a, b[0]);
      SortedHeadIsLeast(b, a[0]);
      assert a[0] == b[0];
      assert a == [a[0]] + a[1..];
      assert b == [b[0]] + b[1..];
      assert multiset(a[1..]) == multiset(a) - multiset{a[0]};
      assert multiset(b[1..]) == multiset(b) - multiset{b[0]};
      SortedPermutationUnique(a[1..], b[1..]);
    } else {
      assert |multiset(b)| == 0;
    }
  }

  /** Sorting an already sorted sequence leaves it as it is. */
  lemma SortSeqOfSorted(s: seq<int>)
    requires Sorted(s)
    ensures SortSeq(s) == s
  {
    SortedPermutationUnique(SortSeq(s), s);
  }

  /** The sorted result depends only on the multiset of values sorted. */
  lemma SortSeqPermutationInvariant(s: seq<int>, u: seq<int>)
    requires multiset(s) == multiset(u)
    ensures SortSeq(s) == SortSeq(u)
  {
    SortedPermutationUnique(SortSeq(s), SortSeq(u));
  }

  /** Two strictly ascending sequences holding the same values are equal. */
  lemma {:induction false} StrictlyAscendingUnique(a: seq<int>, b: seq<int>)
    requires StrictlyAscending(a) && StrictlyAscending(b)
    requires forall v :: v in a <==> v in b
    ensures a == b
  {
    if b != [] {
      assert b[0] in b;
    }
    if a != [] {
      assert a[0] in a;
      assert a[0] in b;
      assert b != [];
      assert b[0] in a;
      assert a[0] == b[0];
      forall v
        ensures v in a[1..] <==> v in b[1..]
      {
        assert v in a[1..] <==> v in a && v != a[0];
        assert v in b[1..] <==> v in b && v != b[0];
      }
      StrictlyAscendingUnique(a[1..], b[1..]);
    }
  }

  /** A sorted sequence in which no value occurs twice is strictly ascending. */
  lemma SortedUniqueIsStrict(t: seq<int>)
    requires Sorted(t)
    requires forall v :: multiset(t)[v] <= 1
    ensures StrictlyAscending(t)
  {
    forall i, j | 0 <= i < j < |t|
      ensures t[i] < t[j]
    {
      assert t == t[..i] + [t[i]] + t[i + 1..j] + [t[j]] + t[j + 1..];
      assert multiset(t)[t[i]] >= 1 + (if t[j] == t[i] then 1 else 0);
    }
  }
}
