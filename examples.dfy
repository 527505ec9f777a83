/**
 * The demonstration inputs both programs run, with the statistics the
 * definitions give them. Each sample is described element by element (a
 * predicate such as `IsSingleModeSample`) rather than as a sequence
 * literal, which keeps the solver from evaluating the sorting and counting
 * functions on literals.
 */
module Demos {
  import opened Sorting
  import opened Statistics

  // ---- [1, 2, 3, 4, 5, 5, 5]: a single mode ----

  /** `s` is `[1, 2, 3, 4, 5, 5, 5]`. */
  predicate IsSingleModeSample(s: seq<int>) {
    |s| == 7 && s[0] == 1 && s[1] == 2 && s[2] == 3 && s[3] == 4 && s[4] == 5 && s[5] == 5 && s[6] == 5
  }

  lemma SingleModeSum(s: seq<int>)
    requires IsSingleModeSample(s)
    ensures Sum(s) == 25
  {
    assert s == [1, 2, 3, 4, 5, 5, 5];
    assert [1, 2, 3, 4, 5, 5, 5][..6] == [1, 2, 3, 4, 5, 5];
    assert [1, 2, 3, 4, 5, 5][..5] == [1, 2, 3, 4, 5];
    assert [1, 2, 3, 4, 5][..4] == [1, 2, 3, 4];
    assert [1, 2, 3, 4][..3] == [1, 2, 3];
    assert [1, 2, 3][..2] == [1, 2];
    assert [1, 2][..1] == [1];
  }

  lemma SingleModeCounts(s: seq<int>)
    requires IsSingleModeSample(s)
    ensures forall v :: Count(s, v) <= 3
    ensures forall v :: v in [5] <==> v in s && Count(s, v) == 3
    ensures 5 in s && Count(s, 5) == 3
    ensures StrictlyAscending([5])
  {
    assert s == [1, 2, 3, 4] + [5, 5, 5];
    assert multiset(s) == multiset([1, 2, 3, 4]) + multiset([5, 5, 5]);
    forall v
      ensures Count(s, v) == (if v == 5 then 3 else if v in [1, 2, 3, 4] then 1 else 0)
    {
      assert multiset([5, 5, 5])[v] == if v == 5 then 3 else 0;
      assert multiset([1, 2, 3, 4])[v] == if v in [1, 2, 3, 4] then 1 else 0;
    }
  }

  lemma SingleModeMean(s: seq<int>)
    requires IsSingleModeSample(s)
    ensures Mean(s) == 25.0 / 7.0
  {
    SingleModeSum(s);
  }

  lemma SingleModeMedian(s: seq<int>)
    requires IsSingleModeSample(s)
    ensures Median(s) == 4.0
  {
    MedianOfSorted(s);
  }

  lemma SingleModeMode(s: seq<int>)
    requires IsSingleModeSample(s)
    ensures Mode(s) == ([5], 3)
  {
    SingleModeCounts(s);
    ModeUnique(s, [5], 3);
  }

  /** `[1, 2, 3, 4, 5, 5, 5]`: mode 5 seen three times, median 4, mean 25/7. */
  lemma SingleModeDemo(s: seq<int>)
    requires IsSingleModeSample(s)
    ensures AllStatistics(s) == Summary(25.0 / 7.0, 4.0, ([5], 3), 7)
  {
    SingleModeMean(s);
    SingleModeMedian(s);
    SingleModeMode(s);
  }

  // ---- [1, 1, 2, 2, 3, 3]: a three-way tie ----

  /** `s` is `[1, 1, 2, 2, 3, 3]`. */
  predicate IsTiedSample(s: seq<int>) {
    |s| == 6 && s[0] == 1 && s[1] == 1 && s[2] == 2 && s[3] == 2 && s[4] == 3 && s[5] == 3
  }

  lemma TiedSum(s: seq<int>)
    requires IsTiedSample(s)
    ensures Sum(s) == 12
  {
    assert s == [1, 1, 2, 2, 3, 3];
    assert [1, 1, 2, 2, 3, 3][..5] == [1, 1, 2, 2, 3];
    assert [1, 1, 2, 2, 3][..4] == [1, 1, 2, 2];
    assert [1, 1, 2, 2][..3] == [1, 1, 2];
    assert [1, 1, 2][..2] == [1, 1];
    assert [1, 1][..1] == [1];
  }

  lemma TiedCounts(s: seq<int>)
    requires IsTiedSample(s)
    ensures forall v :: Count(s, v) <= 2
    ensures forall v :: v in [1, 2, 3] <==> v in s && Count(s, v) == 2
    ensures 1 in s && Count(s, 1) == 2
    ensures StrictlyAscending([1, 2, 3])
  {
    assert s == [1, 1] + [2, 2] + [3, 3];
    assert multiset(s) == multiset([1, 1]) + multiset([2, 2]) + multiset([3, 3]);
    forall v
      ensures Count(s, v) == (if v in [1, 2, 3] then 2 else 0)
    {
      assert multiset([1, 1])[v] == if v == 1 then 2 else 0;
      assert multiset([2, 2])[v] == if v == 2 then 2 else 0;
      assert multiset([3, 3])[v] == if v == 3 then 2 else 0;
    }
  }

  lemma TiedMean(s: seq<int>)
    requires IsTiedSample(s)
    ensures Mean(s) == 2.0
  {
    TiedSum(s);
  }

  lemma TiedMedian(s: seq<int>)
    requires IsTiedSample(s)
    ensures Median(s) == 2.0
  {
    MedianOfSorted(s);
  }

  lemma TiedMode(s: seq<int>)
    requires IsTiedSample(s)
    ensures Mode(s) == ([1, 2, 3], 2)
  {
    TiedCounts(s);
    ModeUnique(s, [1, 2, 3], 2);
  }

  /** `[1, 1, 2, 2, 3, 3]`: modes 1, 2 and 3, each seen twice; mean and median 2. */
  lemma TiedModesDemo(s: seq<int>)
    requires IsTiedSample(s)
    ensures AllStatistics(s) == Summary(2.0, 2.0, ([1, 2, 3], 2), 6)
  {
    TiedMean(s);
    TiedMedian(s);
    TiedMode(s);
  }

  // ---- [42]: a single element ----

  lemma SingletonMean(s: seq<int>)
    requires |s| == 1 && s[0] == 42
    ensures Mean(s) == 42.0
  {
    assert s[..0] == [];
    assert Sum(s) == 42;
  }

  lemma SingletonMedian(s: seq<int>)
    requires |s| == 1 && s[0] == 42
    ensures Median(s) == 42.0
  {
    MedianOfSorted(s);
  }

  lemma SingletonMode(s: seq<int>)
    requires |s| == 1 && s[0] == 42
    ensures Mode(s) == ([42], 1)
  {
    assert s == [42];
    assert 42 in s && Count(s, 42) == 1;
    ModeUnique(s, [42], 1);
  }

  /** `[42]`: every statistic is the element itself, seen once. */
  lemma SingletonDemo(s: seq<int>)
    requires |s| == 1 && s[0] == 42
    ensures AllStatistics(s) == Summary(42.0, 42.0, ([42], 1), 1)
  {
    SingletonMean(s);
    SingletonMedian(s);
    SingletonMode(s);
  }

  // ---- [1, 2, 3, 4]: an even length ----

  /** `s` is `[1, 2, 3, 4]`. */
  predicate IsEvenSample(s: seq<int>) {
    |s| == 4 && s[0] == 1 && s[1] == 2 && s[2] == 3 && s[3] == 4
  }

  lemma EvenSum(s: seq<int>)
    requires IsEvenSample(s)
    ensures Sum(s) == 10
  {
    assert s == [1, 2, 3, 4];
    assert [1, 2, 3, 4][..3] == [1, 2, 3];
    assert [1, 2, 3][..2] == [1, 2];
    assert [1, 2][..1] == [1];
  }

  lemma EvenCounts(s: seq<int>)
    requires IsEvenSample(s)
    ensures forall v :: Count(s, v) <= 1
    ensures forall v :: v in [1, 2, 3, 4] <==> v in s && Count(s, v) == 1
    ensures 1 in s && Count(s, 1) == 1
    ensures StrictlyAscending([1, 2, 3, 4])
  {
    assert s == [1, 2, 3, 4];
    forall v
      ensures Count(s, v) == if v in [1, 2, 3, 4] then 1 else 0
    {
      assert multiset([1, 2, 3, 4])[v] == if v in [1, 2, 3, 4] then 1 else 0;
    }
  }

  lemma EvenMean(s: seq<int>)
    requires IsEvenSample(s)
    ensures Mean(s) == 2.5
  {
    EvenSum(s);
  }

  lemma EvenMedian(s: seq<int>)
    requires IsEvenSample(s)
    ensures Median(s) == 2.5
  {
    MedianOfSorted(s);
  }

  lemma EvenMode(s: seq<int>)
    requires IsEvenSample(s)
    ensures Mode(s) == ([1, 2, 3, 4], 1)
  {
    EvenCounts(s);
    ModeUnique(s, [1, 2, 3, 4], 1);
  }

  /** `[1, 2, 3, 4]`: the median averages the middle pair 2 and 3; every value is a mode. */
  lemma EvenLengthDemo(s: seq<int>)
    requires IsEvenSample(s)
    ensures AllStatistics(s) == Summary(2.5, 2.5, ([1, 2, 3, 4], 1), 4)
  {
    EvenMean(s);
    EvenMedian(s);
    EvenMode(s);
  }

  /** The empty sample: zeros throughout. */
  lemma EmptyDemo()
    ensures AllStatistics([]) == Summary(0.0, 0.0, ([], 0), 0)
  {
  }
}
