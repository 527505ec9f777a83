/**
 * The object-oriented calculator: a `StatisticsCalculator` holding a
 * private dataset `_data`, with a copying setter and getter, and
 * statistics methods that work on an explicit argument when one is given
 * and on the stored dataset otherwise.
 *
 * Lists are Dafny sequences, which are values: storing, copying and
 * returning one can never let a caller's later change reach `_data`.
 */
module Calculator {
  import opened Sorting
  import opened Statistics

  /** An optional argument: `None` stands for Python's `data=None`. */
  datatype Option<T> = None | Some(value: T)

  class StatisticsCalculator {
    /** `self._data`. */
    var data: seq<int>

    /** `__init__(data=None)`: the given list, or `[]` when none is given. */
    constructor (initial: Option<seq<int>>)
      ensures initial.None? ==> data == []
      ensures initial.Some? ==> data == initial.value
    {
      data := if initial.Some? then initial.value else [];
    }

    /** `set_data`: replaces the dataset by (a copy of) `newData`. */
    method SetData(newData: seq<int>)
      modifies this
      ensures data == newData
    {
      data := newData;
    }

    /** `get_data`: a copy of the dataset; the calculator is left as it was. */
    method GetData() returns (r: seq<int>)
      ensures r == data
    {
      r := data;
    }

    /**
     * `working_data = data if data is not None else self._data`: an explicit
     * argument wins even when it is empty.
     */
    function WorkingData(arg: Option<seq<int>>): (r: seq<int>)
      reads this
      ensures arg.Some? ==> r == arg.value
      ensures arg.None? ==> r == data
    {
      if arg.Some? then arg.value else data
    }

    /** `calculate_mean`: 0.0 for empty working data, else `sum / len`. */
    method CalculateMean(arg: Option<seq<int>>) returns (r: real)
      ensures WorkingData(arg) == [] ==> r == 0.0
      ensures WorkingData(arg) != [] ==> r * |WorkingData(arg)| as real == Sum(WorkingData(arg)) as real
      ensures r == Mean(WorkingData(arg))
    {
      var working := if arg.Some? then arg.value else data;
      if working == [] {
        return 0.0;
      }
      r := Mean(working);
    }

    /**
     * `calculate_median`: 0.0 for empty working data, else the middle of
     * `sorted(working_data)`, or the mean of its two middle elements.
     */
    method CalculateMedian(arg: Option<seq<int>>) returns (r: real)
      ensures WorkingData(arg) == [] ==> r == 0.0
      ensures r == Median(WorkingData(arg))
    {
      var working := if arg.Some? then arg.value else data;
      if working == [] {
        return 0.0;
      }
      r := Median(working);
    }

    /**
     * `calculate_mode`: `([], 0)` for empty working data; otherwise the
     * values of highest count, sorted, with that count.
     */
    method CalculateMode(arg: Option<seq<int>>) returns (r: (seq<int>, nat))
      ensures WorkingData(arg) == [] ==> r == ([], 0)
      ensures forall v :: Count(WorkingData(arg), v) <= r.1
      ensures forall v :: v in r.0 <==> v in WorkingData(arg) && Count(WorkingData(arg), v) == r.1
      ensures StrictlyAscending(r.0)
      ensures r == Mode(WorkingData(arg))
    {
      var working := if arg.Some? then arg.value else data;
      if working == [] {
        return ([], 0);
      }
      r := Mode(working);
    }

    /**
     * `calculate_all_statistics`: zeros for empty working data; otherwise
     * the three statistics of the working data, each computed by passing
     * it explicitly to the method above, and its size.
     */
    method CalculateAllStatistics(arg: Option<seq<int>>) returns (r: Summary)
      ensures WorkingData(arg) == [] ==> r == Summary(0.0, 0.0, ([], 0), 0)
      ensures r.dataSize == |WorkingData(arg)|
      ensures r == AllStatistics(WorkingData(arg))
    {
      var working := if arg.Some? then arg.value else data;
      if working == [] {
        return Summary(0.0, 0.0, ([], 0), 0);
      }
      var mean := CalculateMean(Some(working));
      var median := CalculateMedian(Some(working));
      var mode := CalculateMode(Some(working));
      r := Summary(mean, median, mode, |working|);
    }
  }
}
