# Statistics calculator in Dafny

This project models a small statistics calculator. The calculator computes
three descriptive statistics of a finite list of integers:

- the **mean**: the sum divided by the count, and 0 for an empty list;
- the **median**: the middle element of a sorted copy, or the average of
  the two middle elements when the length is even, and 0 for an empty list;
- the **mode**: every value whose occurrence count is the highest, in
  ascending order, with that count, and `([], 0)` for an empty list.

The repository implements these twice, and both are modelled:

- `statistics_calculator.py` is an object-oriented Python class,
  `StatisticsCalculator`. It holds a private dataset `_data` with a copying
  setter and getter. Its statistics methods use an explicit argument when
  one is given and the stored dataset otherwise. The statistics are stated
  as `sum/len`, `sorted` and `Counter`.
- `statistics_calculator.c` is procedural C over an `int` buffer.
  - `calculate_mean` accumulates a sum in a loop.
  - `calculate_median` copies the buffer and sorts the copy with `qsort`.
  - `calculate_mode` sorts a copy and scans it twice. The first pass finds
    the longest run of equal values. The second pass collects every value
    whose run has that length. The result is returned in a `ModeResult`
    struct, which `free_mode_result` releases.

The modules are:

- `Sorting` (`sorting.dfy`):
  - the predicates `Sorted` and `StrictlyAscending`;
  - `SortSeq`, a reference sort standing for Python's `sorted` and for the
    result of C's `qsort`;
  - lemmas that a sorted permutation, and a strictly ascending list of given
    values, are unique.
- `Statistics` (`statistics.dfy`): the Python definitions as functions over
  `seq<int>`.
  - `Count` is the multiplicity in the multiset of the sample, which is
    what `Counter` gives.
  - `Mean`, `Median` and `Mode` are the three statistics.
  - `AllStatistics` is the aggregate.
  - The lemmas state bounds, invariance under reordering, and that the
    mode's four properties determine it.
- `Calculator` (`calculator.dfy`): the `StatisticsCalculator` class. It has
  a `seq<int>` field `data`. `None`/`Some` models the optional argument.
- `CStatistics` (`c_statistics.dfy`): the C functions as methods over
  arrays, with loop invariants.
  - Each C function is proved to return what the matching `Statistics`
    function gives on the same sample. The sorts use a corrected
    comparator; the source's `compare` is modelled as written beside it
    (see "Findings").
  - This proves that the run-length scan over a sorted buffer computes the
    highest count and the ascending mode list of the count-based definition.
- `Demos` (`examples.dfy`): the demonstration inputs both programs' `main`
  functions use, with the statistics the definitions give for them.

Mean and median are exact `real` values. The C buffer's `size` is the
array's length.

## Model

| member | source | states |
|---|---|---|
| Sorting.Insert | statistics_calculator.py:150 | inserting into a sorted list gives a sorted list one longer, holding the same values plus the new one |
| Sorting.SortSeq | statistics_calculator.py:150 | `sorted(data)` has the same length and the same multiset of values as `data`, in non-decreasing order |
| Sorting.SortedPermutationUnique | statistics_calculator.c:87 | two sorted permutations of one multiset are equal, so any correct sort (such as `qsort` with an ascending comparator) returns `SortSeq` |
| Sorting.SortSeqOfSorted | statistics_calculator.py:150 | sorting a list that is already sorted returns it unchanged |
| Sorting.SortSeqPermutationInvariant | statistics_calculator.py:150 | the sorted copy depends only on the multiset of values, not on their input order |
| Sorting.StrictlyAscendingUnique | statistics_calculator.py:204 | two strictly ascending lists holding the same values are equal |
| Sorting.SortedUniqueIsStrict | statistics_calculator.py:204 | a sorted list without repeats is strictly ascending |
| Statistics.Count | statistics_calculator.py:194 | `Counter(data)[v]`: positive exactly when `v` occurs in the data |
| Statistics.CountAtMostLength | statistics_calculator.py:194 | no value occurs more often than the sample is long |
| Statistics.SumConcat | statistics_calculator.py:122 | `Sum`, the model of `sum(data)`, is additive: the sum of a concatenation is the sum of its parts |
| Statistics.Mean | statistics_calculator.py:118-122 | 0.0 on empty data; otherwise mean times length equals `sum(data)` exactly |
| Statistics.SumBounds | statistics_calculator.py:122 | the sum of values within `[lo, hi]` lies between `len*lo` and `len*hi` |
| Statistics.MeanBounds | statistics_calculator.py:122 | the mean of a non-empty sample lies between any lower and upper bound of its values |
| Statistics.Median | statistics_calculator.py:146-147 | 0.0 on empty data |
| Statistics.MedianOfSorted | statistics_calculator.py:150-161 | on sorted data of odd length n the median is `data[n//2]`; for even n twice the median is `data[n//2-1] + data[n//2]` |
| Statistics.MedianPermutationInvariant | statistics_calculator.py:150 | reordering the input leaves the median unchanged |
| Statistics.MedianBounds | statistics_calculator.py:150-161 | the median of a non-empty sample lies between any lower and upper bound of its values |
| Statistics.Distinct | statistics_calculator.py:194 | the keys of `Counter(data)`: exactly the values of `data`, each listed once |
| Statistics.MaxCountOf | statistics_calculator.py:197 | the largest count among the given keys, reached by one of them; 0 for no keys |
| Statistics.MaxCount | statistics_calculator.py:197 | `max(Counter(data).values())` bounds every count and is reached by a value in the data; it is between 1 and `len(data)` for non-empty data, and 0 for empty data |
| Statistics.KeysWithCount | statistics_calculator.py:200-201 | the comprehension keeps exactly the keys whose count equals the given frequency, none of them twice |
| Statistics.Mode | statistics_calculator.py:187-204 | `([], 0)` on empty data; otherwise the frequency is the highest count (at least 1, reached by a value in the data), the list holds exactly the values of that count, and it is strictly ascending |
| Statistics.ModeUnique | statistics_calculator.py:200-204 | any strictly ascending list and frequency with the mode's properties are the mode, so the four properties specify it completely |
| Statistics.ModePermutationInvariant | statistics_calculator.c:147-154 | samples with the same values and counts have the same modes, so the modes of the sorted copy are the modes of the input |
| Statistics.AllStatistics | statistics_calculator.py:229-244 | the aggregate's fields are the mean, median and mode of the data and `data_size == len(data)`; zeros on empty data |
| Calculator.StatisticsCalculator.constructor | statistics_calculator.py:41-57 | `_data` is the given list, or `[]` when the argument is `None` |
| Calculator.StatisticsCalculator.SetData | statistics_calculator.py:59-74 | afterwards `_data` equals the given list |
| Calculator.StatisticsCalculator.GetData | statistics_calculator.py:76-91 | returns a list equal to `_data` and changes nothing |
| Calculator.StatisticsCalculator.WorkingData | statistics_calculator.py:115 | the explicit argument when given (even an empty one), else `_data` |
| Calculator.StatisticsCalculator.CalculateMean | statistics_calculator.py:93-122 | 0.0 on empty working data; otherwise the result times its length equals its sum; the result is `Mean` of the working data |
| Calculator.StatisticsCalculator.CalculateMedian | statistics_calculator.py:124-161 | 0.0 on empty working data; the result is `Median` of the working data |
| Calculator.StatisticsCalculator.CalculateMode | statistics_calculator.py:163-204 | `([], 0)` on empty working data; the frequency bounds every count; the list holds exactly the values of that count, strictly ascending; the result is `Mode` of the working data |
| Calculator.StatisticsCalculator.CalculateAllStatistics | statistics_calculator.py:206-244 | zeros and size 0 on empty working data; `data_size` is its length; the result is `AllStatistics` of the working data |
| CStatistics.CalculateMean | statistics_calculator.c:29-41 | the loop-accumulated sum of `arr[0..size)` divided by `size` equals the Python mean of the same sample; 0.0 when `size == 0` |
| CStatistics.Compare | statistics_calculator.c:50-53 | `compare` as written, its subtraction wrapping around: when `a - b` fits in an `int`, the result is negative, zero or positive exactly when `a < b`, `a == b` or `a > b` |
| CStatistics.CompareNotTransitive | statistics_calculator.c:50-53 | on `INT_MIN`, `0` and `1` the wrapped `compare` orders `INT_MIN < 0 < 1 < INT_MIN`, so it is not an order |
| CStatistics.OrderedCompare | statistics_calculator.c:50-53 | the corrected comparator: negative, zero or positive exactly when `a < b`, `a == b` or `a > b`, for every pair of values |
| CStatistics.Swap | statistics_calculator.c:87 | exchanges two elements and keeps the multiset of the buffer |
| CStatistics.SinkLast | statistics_calculator.c:87 | one insertion step: a sorted prefix grows by one element, and the buffer keeps its multiset |
| CStatistics.SortInPlace | statistics_calculator.c:87 | `qsort` with the corrected comparator leaves the buffer holding `SortSeq` of its old contents |
| CStatistics.CopyPrefix | statistics_calculator.c:211-213 | a fresh buffer holding the first `n` elements of the source |
| CStatistics.SortedCopy | statistics_calculator.c:76-87 | a fresh buffer holding the sorted input; the input buffer is left unchanged |
| CStatistics.CalculateMedian | statistics_calculator.c:70-103 | the middle of the sorted copy (or the average of the two middle elements for even `size`) equals the Python median of the same sample; 0.0 when `size == 0` |
| CStatistics.ModeResult.constructor | statistics_calculator.c:112-116 | builds the struct with the given mode buffer, count and frequency |
| CStatistics.CountExtend | statistics_calculator.c:162-165 | reading one more element adds one occurrence of that element and of no other value |
| CStatistics.CountBeforeGreater | statistics_calculator.c:166-174 | in sorted data a value smaller than `sorted_arr[i]` occurs only before index `i`, so a run closed at `i` is complete |
| CStatistics.AbsentBeforeGreater | statistics_calculator.c:172 | in sorted data a value larger than `sorted_arr[i-1]` has not occurred before `i`, so a new run starts at count 1 |
| CStatistics.FirstPassSameRun | statistics_calculator.c:163-165 | the first pass's invariant survives a repeat of the current value |
| CStatistics.FirstPassNewRun | statistics_calculator.c:166-174 | the first pass's invariant survives the start of a new run, with `max_frequency` raised when the closed run is longer |
| CStatistics.FirstPassDone | statistics_calculator.c:176-179 | after the final check, `max_frequency` is the highest occurrence count |
| CStatistics.LongestRun | statistics_calculator.c:156-179 | the first pass returns the highest occurrence count of the sorted buffer, between 1 and `size` |
| CStatistics.SecondPassSameRun | statistics_calculator.c:194-195 | the second pass's invariant survives a repeat of the current value |
| CStatistics.SecondPassNewRun | statistics_calculator.c:196-203 | the second pass's invariant survives the start of a new run, with the closed value appended exactly when its run length is `max_frequency` |
| CStatistics.SecondPassDone | statistics_calculator.c:205-208 | after the final check, the collected values and `max_frequency` are the Python mode of the sorted buffer, and `1 <= mode_count <= size` |
| CStatistics.CloseRun | statistics_calculator.c:198-200 | `temp_modes[mode_count++] = current_value` runs exactly when the run length is `max_frequency`; the slots before stay as they were |
| CStatistics.CollectModes | statistics_calculator.c:181-208 | `temp_modes[0..mode_count)` with `max_frequency` is the Python mode of the sorted buffer, and `1 <= mode_count <= size` |
| CStatistics.SortedCopyModes | statistics_calculator.c:153-154 | the modes found in the sorted copy are the modes of the input |
| CStatistics.CalculateMode | statistics_calculator.c:140-222 | a newly allocated struct, with a newly allocated, caller-owned mode buffer when `size > 0`; `{NULL, 0, 0}` when `size == 0`; otherwise `modes[0..count)` is the Python mode list of the input, `frequency` its highest count, and `1 <= count <= size` |
| CStatistics.FreeModeResult | statistics_calculator.c:231-239 | leaves `modes == NULL`, `count == 0` and `frequency == 0` |
| Demos.SingleModeDemo | statistics_calculator.py:347-349 | `[1, 2, 3, 4, 5, 5, 5]` has mean 25/7, median 4 and mode `([5], 3)` |
| Demos.TiedModesDemo | statistics_calculator.py:351-353 | `[1, 1, 2, 2, 3, 3]` has mean 2, median 2 and mode `([1, 2, 3], 2)` |
| Demos.SingletonDemo | statistics_calculator.py:355-357 | `[42]` has mean 42, median 42 and mode `([42], 1)` |
| Demos.EvenLengthDemo | statistics_calculator.py:359-361 | `[1, 2, 3, 4]` has mean 2.5, median 2.5 and mode `([1, 2, 3, 4], 1)` |
| Demos.EmptyDemo | statistics_calculator.py:363-365 | the empty list gives zeros and mode `([], 0)` |

The C `main` runs the same inputs (statistics_calculator.c:330-355). The
C methods return the `Statistics` functions' values, so the demo lemmas
also describe the C results.

## Findings

| source | as written | input that shows it | evidently intended | confidence | as-written member | corrected member |
|---|---|---|---|---|---|---|
| statistics_calculator.c:50-53 | `compare` returns `a - b`, which overflows when the operands are more than `INT_MAX` apart | `{INT_MIN, 0, 1}`: wrapped, `compare` orders `INT_MIN < 0`, `0 < 1` and `1 < INT_MIN`, so `qsort` is given no order and the C median and mode are unspecified, while Python's median is 0 | a comparator whose sign is the ascending order of any two `int`s, such as `(a > b) - (a < b)` | not executed; the overflow is undefined behaviour, and wrap-around is assumed | CStatistics.CompareNotTransitive | CStatistics.OrderedCompare |

## Left out

- Printing and the demonstration drivers are not modelled: `print_statistics`, `print_array`, `main`, `__str__`, `__repr__`, and the two-decimal formatting. They are console output only.
- Allocation failure is not modelled. The `malloc` failure paths and their `fprintf(stderr, ...)` messages (statistics_calculator.c:77-81, 149-152, 183-186, 212) are omitted. Buffers are fresh Dafny arrays, and `free` has no counterpart beyond `FreeModeResult` clearing the struct.
- Floating-point rounding is not modelled. The divisions in mean and median are exact `real` divisions.
- Machine-integer widths are not modelled; values are unbounded `int`.
  - The `long` accumulator of `calculate_mean` (statistics_calculator.c:34) cannot overflow here.
  - The `int` addition of the two middle elements in `calculate_median` (statistics_calculator.c:94) cannot overflow here.
- CStatistics.Compare: the overflow of `a - b` is undefined behaviour in C. It is modelled as two's-complement wrap-around, which is what common targets do; other outcomes of the undefined behaviour are not modelled.
- CStatistics.SortInPlace: `qsort`'s own algorithm is not modelled. It is an insertion sort that compares with the corrected `OrderedCompare`, proved to produce the one sorted permutation. That is the only result `qsort` can give with a comparator that is an order. With the source's `compare`, that holds only when every pairwise difference of the sample fits in an `int`. For other samples, such as `{INT_MIN, 0, 1}`, `qsort`'s result is unspecified. So C's median and mode are proved to match Python's only for samples whose pairwise differences fit in an `int`.
- Sorting.SortSeq: Python's `sorted` is not modelled; it is the reference insertion sort, specified by its result.
- Statistics.Count: `Counter` is not modelled; it is the multiplicity in the multiset of the sample. Key order matters only before the final sort. `Distinct` keeps first-occurrence order, as `Counter` does.
- Statistics.Sum: `sum` is modelled as an unbounded left fold. Its additivity is stated by `SumConcat`, and `Mean` is stated through it.
- Calculator.StatisticsCalculator.constructor: Python aliasing is not captured. The constructor stores the caller's list without copying, so later changes by the caller show through. Dafny sequences are values, so the model cannot express this. For the same reason the copies made by `set_data` and `get_data` are implicit.
- Python's dynamic typing is not modelled. Arguments are integer lists by type, so `TypeError` paths do not arise.
- CStatistics.CalculateMode: `result.count` and `result.frequency` are not assigned one at a time. The result struct is built in one step from the computed buffer, count and frequency. The source initialises it to `{NULL, 0, 0}` and assigns the fields on success. The two agree on every path except allocation failure.
- The demo inputs are described element by element rather than as list literals. The stored-data example `set_data([10, 20, 30, 20, 10])` in the Python `main` has no lemma.
