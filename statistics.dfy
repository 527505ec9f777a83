/**
 * The three descriptive statistics as the Python implementation defines
 * them: `sum(data) / len(data)`, the middle of `sorted(data)`, and the
 * values of highest count in a `Counter(data)`, sorted. Each is a pure
 * function of the sample; mean and median are exact reals here, where the
 * source produces floating-point values.
 */
module Statistics {
  import opened Sorting

  /** Occurrences of `v` in `s`: the value `Counter(s)` maps `v` to. */
  function Count(s: seq<int>, v: int): (r: nat)
    ensures r > 0 <==> v in s
  {
    multiset(s)[v]
  }

  /** A value occurs at most as often as the sample is long. */
  lemma {:induction false} CountAtMostLength(s: seq<int>)
    ensures forall v :: Count(s, v) <= |s|
  {
    if s != [] {
      assert s == s[..|s| - 1] + [s[|s| - 1]];
      CountAtMostLength(s[..|s| - 1]);
    }
  }

  /** `sum(s)`, accumulated from the left. */
  function Sum(s: seq<int>): int {
    if s == [] then 0 else Sum(s[..|s| - 1]) + s[|s| - 1]
  }

  /** The sum of a concatenation is the sum of its parts. */
  lemma {:induction false} SumConcat(s: seq<int>, t: seq<int>)
    ensures Sum(s + t) == Sum(s) + Sum(t)
  {
    if t == [] {
      assert s + t == s;
    } else {
      assert (s + t)[..|s + t| - 1] == s + t[..|t| - 1];
      SumConcat(s, t[..|t| - 1]);
    }
  }

  /** Arithmetic mean; 0.0 for the empty sample. */
  function Mean(s: seq<int>): (r: real)
    ensures s == [] ==> r == 0.0
    ensures s != [] ==> r * |s| as real == Sum(s) as real
  {
    if s == [] then 0.0 else Sum(s) as real / |s| as real
  }

  /** A sample whose values lie in [lo, hi] sums to between |s|*lo and |s|*hi. */
  lemma {:induction false} SumBounds(s: seq<int>, lo: int, hi: int)
    requires forall i :: 0 <= i < |s| ==> lo <= s[i] <= hi
    ensures |s| * lo <= Sum(s) <= |s| * hi
  {
    if s != [] {
      SumBounds(s[..|s| - 1], lo, hi);
      assert |s| * lo == (|s| - 1) * lo + lo;
      assert |s| * hi == (|s| - 1) * hi + hi;
    }
  }

  /** Dividing a total that lies between n*lo and n*hi by n gives a value in [lo, hi]. */
  lemma QuotientBounds(total: int, n: int, lo: int, hi: int)
    requires n > 0
    requires n * lo <= total <= n * hi
    ensures lo as real <= total as real / n as real <= hi as real
  {
    var q := total as real / n as real;
    assert q * n as real == total as real;
    assert (q - lo as real) * n as real >= 0.0;
    assert (hi as real - q) * n as real >= 0.0;
  }

  /** The mean of a non-empty sample lies between its least and greatest values. */
  lemma MeanBounds(s: seq<int>, lo: int, hi: int)
    requires s != []
    requires forall i :: 0 <= i < |s| ==> lo <= s[i] <= hi
    ensures lo as real <= Mean(s) <= hi as real
  {
    SumBounds(s, lo, hi);
    QuotientBounds(Sum(s), |s|, lo, hi);
  }

  /**
   * Median: 0.0 for the empty sample; otherwise the middle element of the
   * sorted copy, or the average of the two middle elements when the length
   * is even.
   */
  function Median(s: seq<int>): (r: real)
    ensures s == [] ==> r == 0.0
  {
    if s == [] then 0.0
    else
      var t := SortSeq(s);
      var n := |t|;
      if n % 2 == 0 then (t[n / 2 - 1] + t[n / 2]) as real / 2.0
      else t[n / 2] as real
  }

  /** On an already sorted sample the median reads the middle of the sample itself. */
  lemma MedianOfSorted(s: seq<int>)
    requires Sorted(s) && s != []
    ensures |s| % 2 == 1 ==> Median(s) == s[|s| / 2] as real
    ensures |s| % 2 == 0 ==> 2.0 * Median(s) == (s[|s| / 2 - 1] + s[|s| / 2]) as real
  {
    SortSeqOfSorted(s);
  }

  /** Reordering the sample does not change its median. */
  lemma MedianPermutationInvariant(s: seq<int>, u: seq<int>)
    requires multiset(s) == multiset(u)
    ensures Median(s) == Median(u)
  {
    SortSeqPermutationInvariant(s, u);
  }

  /** The median of a non-empty sample lies between its least and greatest values. */
  lemma MedianBounds(s: seq<int>, lo: int, hi: int)
    requires s != []
    requires forall i :: 0 <= i < |s| ==> lo <= s[i] <= hi
    ensures lo as real <= Median(s) <= hi as real
  {
    var t := SortSeq(s);
    forall k | 0 <= k < |t|
      ensures lo <= t[k] <= hi
    {
      assert t[k] in multiset(s);
    }
  }

  /** The distinct values of `s` in first-occurrence order: the keys of `Counter(s)`. */
  function Distinct(s: seq<int>): (r: seq<int>)
    ensures forall v :: v in r <==> v in s
    ensures forall v :: multiset(r)[v] <= 1
  {
    if s == [] then []
    else
      var d := Distinct(s[..|s| - 1]);
      var last := s[|s| - 1];
      assert s == s[..|s| - 1] + [last];
      if last in d then d else d + [last]
  }

  /** The largest count among `keys`; 0 when there are none. */
  function MaxCountOf(keys: seq<int>, s: seq<int>): (r: nat)
    ensures forall k :: k in keys ==> Count(s, k) <= r
    ensures keys != [] ==> exists k :: k in keys && Count(s, k) == r
    ensures keys == [] ==> r == 0
  {
    if keys == [] then 0
    else
      var m := MaxCountOf(keys[1..], s);
      var c := Count(s, keys[0]);
      assert forall k :: k in keys <==> k == keys[0] || k in keys[1..];
      if c > m then c else m
  }

  /** `max(Counter(s).values())`: the highest occurrence count of any value. */
  function MaxCount(s: seq<int>): (r: nat)
    ensures forall v :: Count(s, v) <= r
    ensures s != [] ==> 1 <= r <= |s| && exists v :: v in s && Count(s, v) == r
    ensures s == [] ==> r == 0
  {
    var r := MaxCountOf(Distinct(s), s);
    assert s != [] ==> s[0] in Distinct(s);
    CountAtMostLength(s);
    r
  }

  /** The keys whose count in `s` is `f`, in the order of `keys`. */
  function KeysWithCount(keys: seq<int>, s: seq<int>, f: nat): (r: seq<int>)
    ensures forall v :: v in r <==> v in keys && Count(s, v) == f
    ensures forall v :: multiset(r)[v] <= multiset(keys)[v]
  {
    if keys == [] then []
    else
      var rest := KeysWithCount(keys[1..], s, f);
      assert keys == [keys[0]] + keys[1..];
      if Count(s, keys[0]) == f then [keys[0]] + rest else rest
  }

  /**
   * The modes of `s` with their shared frequency: every value whose count
   * equals the highest count, sorted; `([], 0)` for the empty sample.
   */
  function Mode(s: seq<int>): (r: (seq<int>, nat))
    ensures s == [] ==> r == ([], 0)
    ensures forall v :: Count(s, v) <= r.1
    ensures s != [] ==> 1 <= r.1 <= |s| && exists v :: v in s && Count(s, v) == r.1
    ensures forall v :: v in r.0 <==> v in s && Count(s, v) == r.1
    ensures StrictlyAscending(r.0)
  {
    if s == [] then ([], 0)
    else
      var counter := Distinct(s);
      var maxFrequency := MaxCount(s);
      var modes := KeysWithCount(counter, s, maxFrequency);
      var sorted := SortSeq(modes);
      assert forall v :: v in sorted <==> v in multiset(modes);
      SortedUniqueIsStrict(sorted);
      (sorted, maxFrequency)
  }

  /**
   * The four properties of `Mode` determine it: a strictly ascending list
   * and a frequency that is the highest count, where the list holds exactly
   * the values of that count, are the modes of a non-empty sample.
   */
  lemma ModeUnique(s: seq<int>, modes: seq<int>, f: nat)
    requires s != []
    requires forall v :: Count(s, v) <= f
    requires exists v :: v in s && Count(s, v) == f
    requires forall v :: v in modes <==> v in s && Count(s, v) == f
    requires StrictlyAscending(modes)
    ensures Mode(s) == (modes, f)
  {
    var w :| w in s && Count(s, w) == f;
    var m := Mode(s);
    var x :| x in s && Count(s, x) == m.1;
    assert f == Count(s, w) <= m.1 == Count(s, x) <= f;
    StrictlyAscendingUnique(modes, m.0);
  }

  /** Samples with the same multiset of values have the same modes. */
  lemma ModePermutationInvariant(s: seq<int>, u: seq<int>)
    requires multiset(s) == multiset(u)
    ensures Mode(s) == Mode(u)
  {
    if s == [] {
      assert |u| == |multiset(u)| == 0;
      return;
    }
    var m := Mode(u);
    forall v
      ensures Count(s, v) == Count(u, v)
      ensures v in s <==> v in u
    {
      assert v in s <==> v in multiset(s);
      assert v in u <==> v in multiset(u);
    }
    ModeUnique(s, m.0, m.1);
  }

  /** What `calculate_all_statistics` reports about one sample. */
  datatype Summary = Summary(mean: real, median: real, mode: (seq<int>, nat), dataSize: nat)

  /** All three statistics and the sample size; zeros for the empty sample. */
  function AllStatistics(s: seq<int>): (r: Summary)
    ensures r.mean == Mean(s) && r.median == Median(s) && r.mode == Mode(s)
    ensures r.dataSize == |s|
  {
    if s == [] then Summary(0.0, 0.0, ([], 0), 0)
    else Summary(Mean(s), Median(s), Mode(s), |s|)
  }
}
