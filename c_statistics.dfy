/**
 * The C implementation: procedural functions over an `int` buffer of
 * `size` elements (here an array, `size` being its length). Each is proved
 * to return what the Python definition in module `Statistics` gives for
 * the same sample. The sorts use the corrected comparator
 * `OrderedCompare`; the source's `compare` agrees with it only when every
 * pairwise difference of the sample fits in an `int`, so only on such
 * samples are C's median and mode known to match Python's.
 */
module CStatistics {
  import opened Sorting
  import opened Statistics

  /** `calculate_mean`: 0.0 for an empty buffer, else the accumulated sum divided by `size`. */
  method CalculateMean(arr: array<int>) returns (mean: real)
    ensures mean == Mean(arr[..])
  {
    var size := arr.Length;
    if size == 0 {
      return 0.0;
    }
    var sum := 0;
    for i := 0 to size
      invariant sum == Sum(arr[..i])
    {
      assert arr[..i + 1][..i] == arr[..i];
      sum := sum + arr[i];
    }
    assert arr[..size] == arr[..];
    mean := sum as real / size as real;
  }

  const INT_MIN: int := -0x8000_0000
  const INT_MAX: int := 0x7FFF_FFFF

  /** Within the range of a 32-bit C `int`. */
  predicate IsInt(x: int) {
    INT_MIN <= x <= INT_MAX
  }

  /** Reduces `x` to a 32-bit `int` by two's-complement wrap-around. */
  function Wrap32(x: int): (r: int)
    ensures IsInt(r)
    ensures IsInt(x) ==> r == x
    ensures (r - x) % 0x1_0000_0000 == 0
  {
    (x - INT_MIN) % 0x1_0000_0000 + INT_MIN
  }

  /**
   * `compare`, the `qsort` comparator, as written: the difference of its
   * operands. The subtraction can overflow (undefined behaviour in C); it
   * is taken here to wrap around, as it does on common targets. Only when
   * the difference fits in an `int` does the sign give the ascending order.
   */
  function Compare(a: int, b: int): (r: int)
    requires IsInt(a) && IsInt(b)
    ensures IsInt(r)
    ensures IsInt(a - b) ==> (r < 0 <==> a < b)
    ensures IsInt(a - b) ==> (r == 0 <==> a == b)
    ensures IsInt(a - b) ==> (r > 0 <==> a > b)
  {
    Wrap32(a - b)
  }

  /**
   * With operands `INT_MIN`, `0` and `1` the wrapped comparator is not an
   * order: it puts `INT_MIN` before `0` and `0` before `1`, yet `1` before
   * `INT_MIN`. `qsort` given such a comparator has no specified result.
   */
  lemma CompareNotTransitive()
    ensures Compare(INT_MIN, 0) < 0 && Compare(0, 1) < 0
    ensures Compare(INT_MIN, 1) > 0
  {
  }

  /**
   * The comparator the sort is evidently meant to use: its sign gives the
   * ascending order of any two `int`s, with no overflow. It agrees in sign
   * with `Compare` whenever `a - b` fits in an `int`.
   */
  function OrderedCompare(a: int, b: int): (r: int)
    ensures -1 <= r <= 1
    ensures r < 0 <==> a < b
    ensures r == 0 <==> a == b
    ensures r > 0 <==> a > b
  {
    if a < b then -1 else if a > b then 1 else 0
  }

  /** Exchanges two elements of `a`. */
  method Swap(a: array<int>, i: int, j: int)
    requires 0 <= i < a.Length && 0 <= j < a.Length
    modifies a
    ensures a[i] == old(a[j]) && a[j] == old(a[i])
    ensures forall k :: 0 <= k < a.Length && k != i && k != j ==> a[k] == old(a[k])
    ensures multiset(a[..]) == multiset(old(a[..]))
  {
    a[i], a[j] := a[j], a[i];
  }

  /** Moves `a[i]` down into the sorted prefix `a[..i]`, so that `a[..i + 1]` is sorted. */
  method SinkLast(a: array<int>, i: int)
    requires 0 <= i < a.Length
    requires forall k, l :: 0 <= k < l < i ==> a[k] <= a[l]
    modifies a
    ensures forall k, l :: 0 <= k < l <= i ==> a[k] <= a[l]
    ensures multiset(a[..]) == multiset(old(a[..]))
  {
    var j := i;
    while j > 0 && OrderedCompare(a[j - 1], a[j]) > 0
      invariant 0 <= j <= i
      invariant forall k, l :: 0 <= k < l <= i && k != j && l != j ==> a[k] <= a[l]
      invariant forall l :: j < l <= i ==> a[j] <= a[l]
      invariant multiset(a[..]) == multiset(old(a[..]))
    {
      Swap(a, j - 1, j);
      j := j - 1;
    }
  }

  /**
   * `qsort(a, size, sizeof(int), compare)` with the corrected comparator
   * `OrderedCompare`: rearranges `a` into ascending order (by insertion,
   * the library's own algorithm not being modelled).
   */
  method SortInPlace(a: array<int>)
    modifies a
    ensures a[..] == SortSeq(old(a[..]))
  {
    var i := 0;
    while i < a.Length
      invariant 0 <= i <= a.Length
      invariant forall k, l :: 0 <= k < l < i ==> a[k] <= a[l]
      invariant multiset(a[..]) == multiset(old(a[..]))
    {
      SinkLast(a, i);
      i := i + 1;
    }
    SortedPermutationUnique(a[..], SortSeq(old(a[..])));
  }

  /** `malloc(n * sizeof(int))` + `memcpy`: a fresh buffer holding the first `n` elements of `src`. */
  method CopyPrefix(src: array<int>, n: int) returns (dst: array<int>)
    requires 0 <= n <= src.Length
    ensures fresh(dst)
    ensures dst[..] == src[..n]
  {
    dst := new int[n];
    forall i | 0 <= i < n {
      dst[i] := src[i];
    }
  }

  /** `malloc` + `memcpy` + `qsort`: a fresh buffer holding the input in ascending order. */
  method SortedCopy(arr: array<int>) returns (sortedArr: array<int>)
    ensures fresh(sortedArr)
    ensures sortedArr[..] == SortSeq(arr[..])
  {
    sortedArr := CopyPrefix(arr, arr.Length);
    assert arr[..arr.Length] == arr[..];
    SortInPlace(sortedArr);
  }

  /**
   * `calculate_median`: 0.0 for an empty buffer; otherwise the middle of a
   * sorted copy, or the average of the two middle elements for even `size`.
   * The input buffer is left as it was (the method may modify nothing).
   */
  method CalculateMedian(arr: array<int>) returns (median: real)
    ensures median == Median(arr[..])
  {
    var size := arr.Length;
    if size == 0 {
      return 0.0;
    }
    var sortedArr := SortedCopy(arr);
    if size % 2 == 0 {
      median := (sortedArr[size / 2 - 1] + sortedArr[size / 2]) as real / 2.0;
    } else {
      median := sortedArr[size / 2] as real;
    }
  }

  /** The C `ModeResult` struct: the mode buffer (null when absent), its length and the shared frequency. */
  class ModeResult {
    var modes: array?<int>
    var count: int
    var frequency: int

    /** A struct initializer such as `{NULL, 0, 0}`. */
    constructor (modes: array?<int>, count: int, frequency: int)
      ensures this.modes == modes && this.count == count && this.frequency == frequency
    {
      this.modes, this.count, this.frequency := modes, count, frequency;
    }
  }

  /** Extending a prefix by one element adds one occurrence of that element and of nothing else. */
  lemma CountExtend(t: seq<int>, i: int, j: int)
    requires 0 <= i < |t| && j == i + 1
    ensures forall v :: Count(t[..j], v) == Count(t[..i], v) + (if v == t[i] then 1 else 0)
  {
    assert t[..j] == t[..i] + [t[i]];
  }

  /** In a sorted sequence, a value below `t[i]` occurs only before index `i`. */
  lemma CountBeforeGreater(t: seq<int>, i: int, v: int)
    requires Sorted(t) && 0 <= i < |t| && v < t[i]
    ensures Count(t, v) == Count(t[..i], v)
  {
    assert t == t[..i] + t[i..];
    assert v !in t[i..];
  }

  /** A value above `t[i - 1]` in a sorted sequence does not occur in `t[..i]`. */
  lemma AbsentBeforeGreater(t: seq<int>, i: int, v: int)
    requires Sorted(t) && 0 < i <= |t| && t[i - 1] < v
    ensures Count(t[..i], v) == 0
  {
    assert v !in t[..i];
  }

  /**
   * What the first pass of `calculate_mode` knows after reading `t[..i]`:
   * the current run holds `cur` and is `curf` long, every other value seen
   * occurs at most `maxf` times, and `maxf` is 1 or the count of a value
   * `best` whose run has ended.
   */
  ghost predicate FirstPassInv(t: seq<int>, i: int, cur: int, curf: int, maxf: int, best: int) {
    && 1 <= i <= |t|
    && cur == t[i - 1]
    && curf == Count(t[..i], cur)
    && maxf >= 1
    && (forall v :: v != cur ==> Count(t[..i], v) <= maxf)
    && (maxf == 1 || (best != cur && Count(t[..i], best) == maxf))
  }

  /** A repeat of the current value lengthens the current run. */
  lemma FirstPassSameRun(t: seq<int>, i: int, cur: int, curf: int, maxf: int, best: int)
    requires FirstPassInv(t, i, cur, curf, maxf, best)
    requires i < |t| && t[i] == cur
    ensures FirstPassInv(t, i + 1, cur, curf + 1, maxf, best)
  {
    CountExtend(t, i, i + 1);
  }

  /** A new value closes the current run, whose length may become the maximum. */
  lemma FirstPassNewRun(t: seq<int>, i: int, cur: int, curf: int, maxf: int, best: int)
    requires Sorted(t) && FirstPassInv(t, i, cur, curf, maxf, best)
    requires i < |t| && t[i] != cur
    ensures curf > maxf ==> FirstPassInv(t, i + 1, t[i], 1, curf, cur)
    ensures curf <= maxf ==> FirstPassInv(t, i + 1, t[i], 1, maxf, best)
  {
    CountExtend(t, i, i + 1);
    AbsentBeforeGreater(t, i, t[i]);
  }

  /** After the whole buffer, the longer of `maxf` and the last run is the highest count. */
  lemma FirstPassDone(t: seq<int>, cur: int, curf: int, maxf: int, best: int)
    requires FirstPassInv(t, |t|, cur, curf, maxf, best)
    ensures (if curf > maxf then curf else maxf) == MaxCount(t)
  {
    assert t[..|t|] == t;
    var result := if curf > maxf then curf else maxf;
    var w := if curf > maxf || maxf == 1 then cur else best;
    assert Count(t, w) == result;
    var m := MaxCount(t);
    var x :| x in t && Count(t, x) == m;
    assert m == Count(t, x) <= result == Count(t, w) <= m;
  }

  /**
   * First pass of `calculate_mode`: scanning the sorted buffer run by run,
   * the longest run of equal values is the highest occurrence count.
   */
  method LongestRun(sortedArr: array<int>) returns (maxFrequency: int)
    requires sortedArr.Length > 0 && Sorted(sortedArr[..])
    ensures maxFrequency == MaxCount(sortedArr[..])
    ensures 1 <= maxFrequency <= sortedArr.Length
  {
    ghost var t := sortedArr[..];
    var size := sortedArr.Length;
    maxFrequency := 1;
    var currentFrequency := 1;
    var currentValue := sortedArr[0];
    ghost var best := currentValue;
    assert t[..1] == [t[0]];
    var i := 1;
    while i < size
      invariant t == sortedArr[..]
      invariant FirstPassInv(t, i, currentValue, currentFrequency, maxFrequency, best)
    {
      if sortedArr[i] == currentValue {
        FirstPassSameRun(t, i, currentValue, currentFrequency, maxFrequency, best);
        currentFrequency := currentFrequency + 1;
      } else {
        FirstPassNewRun(t, i, currentValue, currentFrequency, maxFrequency, best);
        if currentFrequency > maxFrequency {
          maxFrequency := currentFrequency;
          best := currentValue;
        }
        currentValue := sortedArr[i];
        currentFrequency := 1;
      }
      i := i + 1;
    }
    FirstPassDone(t, currentValue, currentFrequency, maxFrequency, best);
    if currentFrequency > maxFrequency {
      maxFrequency := currentFrequency;
    }
  }

  /**
   * What the second pass of `calculate_mode` knows after reading `t[..i]`:
   * the current run holds `cur` and is `curf` long, and `modes` lists in
   * strictly ascending order, all below `cur`, exactly the values of
   * finished runs whose count is `maxf`.
   */
  ghost predicate SecondPassInv(t: seq<int>, maxf: int, i: int, cur: int, curf: int, modes: seq<int>) {
    && 1 <= i <= |t|
    && cur == t[i - 1]
    && curf == Count(t[..i], cur)
    && |modes| < i
    && StrictlyAscending(modes)
    && (forall k :: 0 <= k < |modes| ==> modes[k] < cur)
    && (forall v :: v in modes <==> v in t[..i] && v != cur && Count(t, v) == maxf)
  }

  /** A repeat of the current value lengthens the current run. */
  lemma SecondPassSameRun(t: seq<int>, maxf: int, i: int, cur: int, curf: int, modes: seq<int>)
    requires SecondPassInv(t, maxf, i, cur, curf, modes)
    requires i < |t| && t[i] == cur
    ensures SecondPassInv(t, maxf, i + 1, cur, curf + 1, modes)
  {
    CountExtend(t, i, i + 1);
    assert t[..i + 1] == t[..i] + [t[i]];
  }

  /** A new value closes the current run, which is appended when its length is `maxf`. */
  lemma SecondPassNewRun(t: seq<int>, maxf: int, i: int, cur: int, curf: int, modes: seq<int>)
    requires Sorted(t) && SecondPassInv(t, maxf, i, cur, curf, modes)
    requires i < |t| && t[i] != cur
    ensures SecondPassInv(t, maxf, i + 1, t[i], 1, if curf == maxf then modes + [cur] else modes)
  {
    CountExtend(t, i, i + 1);
    AbsentBeforeGreater(t, i, t[i]);
    CountBeforeGreater(t, i, cur);
    assert t[..i + 1] == t[..i] + [t[i]];
  }

  /** After the whole buffer, closing the last run leaves exactly the modes. */
  lemma SecondPassDone(t: seq<int>, maxf: int, cur: int, curf: int, modes: seq<int>)
    requires SecondPassInv(t, maxf, |t|, cur, curf, modes)
    requires maxf == MaxCount(t)
    ensures var all := if curf == maxf then modes + [cur] else modes;
            1 <= |all| <= |t| && (all, maxf) == Mode(t)
  {
    assert t[..|t|] == t;
    var all := if curf == maxf then modes + [cur] else modes;
    assert forall v :: v in all <==> v in t && Count(t, v) == maxf;
    ModeUnique(t, all, maxf);
    var x :| x in t && Count(t, x) == maxf;
    assert x in all;
  }

  /**
   * Closing a run in the second pass of `calculate_mode`: a run whose
   * length is the highest frequency is appended after the `n` modes found
   * so far.
   */
  method CloseRun(buf: array<int>, n: int, value: int, frequency: int, maxFrequency: int) returns (count: int)
    requires 0 <= n < buf.Length
    modifies buf
    ensures count == if frequency == maxFrequency then n + 1 else n
    ensures buf[..count] == if frequency == maxFrequency then old(buf[..n]) + [value] else old(buf[..n])
  {
    count := n;
    if frequency == maxFrequency {
      buf[count] := value;
      assert buf[..count + 1] == buf[..count] + [value];
      count := count + 1;
    }
  }

  /**
   * Second pass of `calculate_mode`: appends to a fresh buffer every value
   * whose run has length `maxFrequency`, so the buffer's first `modeCount`
   * slots hold the modes in strictly ascending order.
   */
  method CollectModes(sortedArr: array<int>, maxFrequency: int) returns (tempModes: array<int>, modeCount: int)
    requires sortedArr.Length > 0 && Sorted(sortedArr[..])
    requires maxFrequency == MaxCount(sortedArr[..])
    ensures fresh(tempModes) && tempModes.Length == sortedArr.Length
    ensures 1 <= modeCount <= sortedArr.Length
    ensures (tempModes[..modeCount], maxFrequency) == Mode(sortedArr[..])
  {
    ghost var t := sortedArr[..];
    var size := sortedArr.Length;
    tempModes := new int[size];
    modeCount := 0;
    ghost var modes: seq<int> := [];
    var currentFrequency := 1;
    var currentValue := sortedArr[0];
    assert t[..1] == [t[0]];
    var i := 1;
    while i < size
      invariant t == sortedArr[..]
      invariant 0 <= modeCount < i <= size
      invariant fresh(tempModes) && tempModes.Length == size
      invariant tempModes[..modeCount] == modes
      invariant SecondPassInv(t, maxFrequency, i, currentValue, currentFrequency, modes)
    {
      assert sortedArr[i] == t[i];
      if sortedArr[i] == currentValue {
        SecondPassSameRun(t, maxFrequency, i, currentValue, currentFrequency, modes);
        currentFrequency := currentFrequency + 1;
      } else {
        SecondPassNewRun(t, maxFrequency, i, currentValue, currentFrequency, modes);
        modeCount := CloseRun(tempModes, modeCount, currentValue, currentFrequency, maxFrequency);
        modes := if currentFrequency == maxFrequency then modes + [currentValue] else modes;
        currentValue := sortedArr[i];
        currentFrequency := 1;
      }
      i := i + 1;
    }
    SecondPassDone(t, maxFrequency, currentValue, currentFrequency, modes);
    modeCount := CloseRun(tempModes, modeCount, currentValue, currentFrequency, maxFrequency);
  }

  /** The modes of the sorted copy are the modes of the input. */
  lemma SortedCopyModes(s: seq<int>, t: seq<int>, modes: seq<int>, f: nat)
    requires s != [] && t == SortSeq(s)
    requires (modes, f) == Mode(t)
    ensures Mode(s).0 == modes && Mode(s).1 == f
  {
    ModePermutationInvariant(t, s);
  }

  /**
   * `calculate_mode`: `{NULL, 0, 0}` for an empty buffer; otherwise a sorted
   * copy is scanned twice and the modes found are copied into an exactly
   * sized buffer together with their frequency.
   */
  method CalculateMode(arr: array<int>) returns (result: ModeResult)
    ensures fresh(result)
    ensures arr.Length > 0 ==> fresh(result.modes)
    ensures arr.Length == 0 ==> result.modes == null && result.count == 0 && result.frequency == 0
    ensures arr.Length > 0 ==> result.modes != null && result.count == result.modes.Length
    ensures arr.Length > 0 ==> 1 <= result.count <= arr.Length
    ensures arr.Length > 0 ==> result.modes[..] == Mode(arr[..]).0 && result.frequency == Mode(arr[..]).1
  {
    var size := arr.Length;
    if size == 0 {
      result := new ModeResult(null, 0, 0);
      return;
    }
    ghost var s := arr[..];
    var sortedArr := SortedCopy(arr);
    var maxFrequency := LongestRun(sortedArr);
    var tempModes, modeCount := CollectModes(sortedArr, maxFrequency);
    var modes := CopyPrefix(tempModes, modeCount);
    SortedCopyModes(s, sortedArr[..], tempModes[..modeCount], maxFrequency);
    result := new ModeResult(modes, modeCount, maxFrequency);
    assert arr[..] == s;
  }

  /** `free_mode_result`: releases the mode buffer and zeroes the struct. */
  method FreeModeResult(result: ModeResult)
    modifies result
    ensures result.modes == null && result.count == 0 && result.frequency == 0
  {
    if result.modes != null {
      result.modes := null;
    }
    result.count := 0;
    result.frequency := 0;
  }
}
