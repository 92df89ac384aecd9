/** The control logic of `LinearInterpolator`: input validation, the choice of interpolation
    method, and the segment search of `getValue` with its `lastIndexUsed` cache. Sample values
    are opaque (`None` stands for NaN); the LINEAR and REGRESSION results are left as terms,
    not evaluated in floating point. */
module Interpolation {
  import opened Wrappers

  const INTERPOLATE_LEFT := 0
  const INTERPOLATE_RIGHT := 1
  const INTERPOLATE_LINEAR := 2
  const INTERPOLATE_REGRESSION := 3

  /** What `getValue` returns. */
  datatype Reading<V> =
    /** A stored sample returned unchanged, or NaN (`None`). */
    | Sample(value: Option<V>)
    /** The LINEAR formula on the segment from (t0, v0) to (t1, v1), evaluated at `at`. */
    | Linear(t0: int, v0: Option<V>, t1: int, v1: Option<V>, at: int)
    /** The best-fit line `b0 + b1 * at`. */
    | Regression(at: int)

  predicate StrictlyIncreasing(timestamps: seq<int>)
  {
    forall i :: 0 <= i < |timestamps| - 1 ==> timestamps[i] < timestamps[i + 1]
  }

  /** What `validate` accepts: equal lengths, at least two points, strictly increasing times. */
  predicate ValidData<V>(timestamps: seq<int>, values: seq<Option<V>>)
  {
    |timestamps| == |values| && |timestamps| >= 2 && StrictlyIncreasing(timestamps)
  }

  lemma {:induction false} IncreasingBetween(timestamps: seq<int>, i: int, j: int)
    requires StrictlyIncreasing(timestamps)
    requires 0 <= i < j < |timestamps|
    ensures timestamps[i] < timestamps[j]
    decreases j - i
  {
    if i + 1 < j {
      IncreasingBetween(timestamps, i + 1, j);
    }
  }

  /** `validate()`: true where the Java code returns normally, false where it throws
      `IllegalArgumentException`. */
  method Validate<V>(timestamps: seq<int>, values: seq<Option<V>>) returns (ok: bool)
    ensures ok <==> ValidData(timestamps, values)
  {
    ok := true;
    if |timestamps| != |values| || |timestamps| < 2 {
      ok := false;
    }
    var i := 0;
    while i < |timestamps| - 1 && ok
      invariant 0 <= i
      invariant ok ==> |timestamps| == |values| && |timestamps| >= 2 && i <= |timestamps| - 1
      invariant ok ==> forall j :: 0 <= j < i ==> timestamps[j] < timestamps[j + 1]
      invariant !ok ==> !ValidData(timestamps, values)
    {
      if timestamps[i] >= timestamps[i + 1] {
        ok := false;
      }
      i := i + 1;
    }
  }

  /** Whether `getValue`'s loop returns at index `i` for timestamp `t`: an exact match, or
      `t` strictly inside the segment from `i` to `i + 1`. */
  predicate StopsAt(timestamps: seq<int>, t: int, i: nat)
    requires i < |timestamps|
  {
    timestamps[i] == t || (i < |timestamps| - 1 && timestamps[i] < t < timestamps[i + 1])
  }

  /** The index at which the search loop, started at `i`, returns; `|timestamps|` when it
      runs off the end. */
  function StopFrom(timestamps: seq<int>, t: int, i: nat): (k: nat)
    requires i <= |timestamps|
    ensures i <= k <= |timestamps|
    ensures k < |timestamps| ==> StopsAt(timestamps, t, k)
    ensures forall j :: i <= j < k ==> !StopsAt(timestamps, t, j)
    decreases |timestamps| - i
  {
    if i == |timestamps| then |timestamps|
    else if StopsAt(timestamps, t, i) then i
    else StopFrom(timestamps, t, i + 1)
  }

  /** `getValue(t)` computed by a search from index 0, with no cache. */
  function Evaluate<V>(timestamps: seq<int>, values: seq<Option<V>>, mode: int, t: int): (r: Reading<V>)
    requires ValidData(timestamps, values)
    ensures r.Regression? <==> mode == INTERPOLATE_REGRESSION
    ensures r.Regression? ==> r.at == t
    ensures r.Sample? && r.value.Some? ==> r.value in values
    ensures r.Linear? ==> && mode == INTERPOLATE_LINEAR && r.at == t && r.t0 < t < r.t1
                          && exists i :: 0 <= i < |timestamps| - 1 && timestamps[i] == r.t0 && timestamps[i + 1] == r.t1
                                                                    && values[i] == r.v0 && values[i + 1] == r.v1
  {
    if mode == INTERPOLATE_REGRESSION then Regression(t)
    else if t < timestamps[0] || t > timestamps[|timestamps| - 1] then Sample(None)
    else
      var k := StopFrom(timestamps, t, 0);
      if k == |timestamps| then Sample(None)
      else if timestamps[k] == t then Sample(values[k])
      else if mode == INTERPOLATE_LEFT then Sample(values[k])
      else if mode == INTERPOLATE_RIGHT then Sample(values[k + 1])
      else if mode == INTERPOLATE_LINEAR then
        Linear(timestamps[k], values[k], timestamps[k + 1], values[k + 1], t)
      else Sample(None)
  }

  /** `lastIndexUsed` after `getValue(t)`, given its value `last` before: the left end of the
      segment found, when the search found `t` strictly inside one; otherwise unchanged. */
  function CacheAfter(timestamps: seq<int>, mode: int, t: int, last: int): (r: int)
    requires StrictlyIncreasing(timestamps) && |timestamps| >= 2
    ensures r == last || (0 <= r < |timestamps| - 1 && timestamps[r] < t < timestamps[r + 1])
  {
    if mode == INTERPOLATE_REGRESSION || t < timestamps[0] || t > timestamps[|timestamps| - 1] then last
    else
      var k := StopFrom(timestamps, t, 0);
      if k < |timestamps| && timestamps[k] != t then k else last
  }

  /** No index below `start` stops the search when `timestamps[start] <= t`. */
  lemma NoStopBefore(timestamps: seq<int>, t: int, start: nat, j: nat)
    requires StrictlyIncreasing(timestamps)
    requires start < |timestamps| && timestamps[start] <= t && j < start
    ensures !StopsAt(timestamps, t, j)
  {
    IncreasingBetween(timestamps, j, start);
    if j + 1 < start {
      IncreasingBetween(timestamps, j + 1, start);
    }
  }

  /** A search that meets no stopping index before `start` stops where a search from `start` does. */
  lemma SkipNonStops(timestamps: seq<int>, t: int, i: nat, start: nat)
    requires i <= start <= |timestamps|
    requires forall j :: i <= j < start ==> !StopsAt(timestamps, t, j)
    ensures StopFrom(timestamps, t, i) == StopFrom(timestamps, t, start)
  {
  }

  /** The cached start of `getValue` finds the same index as a search from 0: the cache is
      used only when `timestamps[lastIndexUsed] <= t`, and then nothing before it can stop. */
  lemma CachedStartAgrees(timestamps: seq<int>, t: int, start: nat)
    requires StrictlyIncreasing(timestamps)
    requires start < |timestamps| && timestamps[start] <= t
    ensures StopFrom(timestamps, t, start) == StopFrom(timestamps, t, 0)
  {
    forall j | 0 <= j < start
      ensures !StopsAt(timestamps, t, j)
    {
      NoStopBefore(timestamps, t, start, j);
    }
    SkipNonStops(timestamps, t, 0, start);
  }

  /** For validated data and a timestamp within range the loop always returns: the trailing
      NaN of `getValue` is unreachable. */
  lemma {:induction false} InRangeStops(timestamps: seq<int>, t: int, i: nat)
    requires StrictlyIncreasing(timestamps)
    requires i < |timestamps| && timestamps[i] <= t <= timestamps[|timestamps| - 1]
    ensures StopFrom(timestamps, t, i) < |timestamps|
    decreases |timestamps| - i
  {
    if !StopsAt(timestamps, t, i) {
      InRangeStops(timestamps, t, i + 1);
    }
  }

  /** Out of range, every method but REGRESSION gives NaN. */
  lemma OutOfRangeIsNaN<V>(timestamps: seq<int>, values: seq<Option<V>>, mode: int, t: int, last: int)
    requires ValidData(timestamps, values) && mode != INTERPOLATE_REGRESSION
    requires t < timestamps[0] || t > timestamps[|timestamps| - 1]
    ensures Evaluate(timestamps, values, mode, t) == Sample(None)
    ensures CacheAfter(timestamps, mode, t, last) == last
  {
  }

  /** A timestamp equal to `timestamps[i]` gives exactly `values[i]` under every method but
      REGRESSION, and leaves the cache alone. */
  lemma ExactMatch<V>(timestamps: seq<int>, values: seq<Option<V>>, mode: int, i: nat, last: int)
    requires ValidData(timestamps, values) && mode != INTERPOLATE_REGRESSION
    requires i < |timestamps|
    ensures Evaluate(timestamps, values, mode, timestamps[i]) == Sample(values[i])
    ensures CacheAfter(timestamps, mode, timestamps[i], last) == last
  {
    var t := timestamps[i];
    if 0 < i {
      IncreasingBetween(timestamps, 0, i);
    }
    if i < |timestamps| - 1 {
      IncreasingBetween(timestamps, i, |timestamps| - 1);
    }
    CachedStartAgrees(timestamps, t, i);
  }

  /** Strictly between `timestamps[i]` and `timestamps[i + 1]`: LEFT gives `values[i]`, RIGHT
      gives `values[i + 1]`, LINEAR the line through the two points, any other method NaN;
      the cache moves to `i`. */
  lemma BetweenPoints<V>(timestamps: seq<int>, values: seq<Option<V>>, mode: int, i: nat, t: int, last: int)
    requires ValidData(timestamps, values) && mode != INTERPOLATE_REGRESSION
    requires i < |timestamps| - 1 && timestamps[i] < t < timestamps[i + 1]
    ensures Evaluate(timestamps, values, mode, t) ==
      if mode == INTERPOLATE_LEFT then Sample(values[i])
      else if mode == INTERPOLATE_RIGHT then Sample(values[i + 1])
      else if mode == INTERPOLATE_LINEAR then
        Linear(timestamps[i], values[i], timestamps[i + 1], values[i + 1], t)
      else Sample(None)
    ensures CacheAfter(timestamps, mode, t, last) == i
  {
    if 0 < i {
      IncreasingBetween(timestamps, 0, i);
    }
    if i + 1 < |timestamps| - 1 {
      IncreasingBetween(timestamps, i + 1, |timestamps| - 1);
    }
    CachedStartAgrees(timestamps, t, i);
  }

  /** In range, the result is NaN only when a stored value is NaN or the method is not one of
      the four known ones. */
  lemma InRangeNeverTrailingNaN<V>(timestamps: seq<int>, values: seq<Option<V>>, mode: int, t: int)
    requires ValidData(timestamps, values)
    requires timestamps[0] <= t <= timestamps[|timestamps| - 1]
    ensures StopFrom(timestamps, t, 0) < |timestamps|
    ensures INTERPOLATE_LEFT <= mode <= INTERPOLATE_REGRESSION ==>
              (Evaluate(timestamps, values, mode, t) == Sample(None) ==>
                 exists j :: 0 <= j < |values| && values[j] == None)
  {
    InRangeStops(timestamps, t, 0);
  }

  class LinearInterpolator<V> {
    const timestamps: seq<int>
    const values: seq<Option<V>>
    var lastIndexUsed: int
    var interpolationMethod: int

    /** The data passed `validate`, the cache names a segment, the method is one of the four. */
    ghost predicate Valid()
      reads this
    {
      && ValidData(timestamps, values)
      && 0 <= lastIndexUsed < |timestamps| - 1
      && INTERPOLATE_LEFT <= interpolationMethod <= INTERPOLATE_REGRESSION
    }

    constructor (timestamps: seq<int>, values: seq<Option<V>>)
      requires ValidData(timestamps, values)
      ensures Valid()
      ensures this.timestamps == timestamps && this.values == values
      ensures lastIndexUsed == 0 && interpolationMethod == INTERPOLATE_LINEAR
    {
      this.timestamps := timestamps;
      this.values := values;
      lastIndexUsed := 0;
      interpolationMethod := INTERPOLATE_LINEAR;
    }

    /** `setInterpolationMethod(m)`: one of the four known methods is stored as given,
        anything else becomes LINEAR. */
    method SetInterpolationMethod(m: int)
      requires Valid()
      modifies this`interpolationMethod
      ensures Valid()
      ensures INTERPOLATE_LEFT <= m <= INTERPOLATE_REGRESSION ==> interpolationMethod == m
      ensures !(INTERPOLATE_LEFT <= m <= INTERPOLATE_REGRESSION) ==> interpolationMethod == INTERPOLATE_LINEAR
    {
      if m == INTERPOLATE_REGRESSION || m == INTERPOLATE_LEFT || m == INTERPOLATE_RIGHT
         || m == INTERPOLATE_LINEAR {
        interpolationMethod := m;
      } else {
        interpolationMethod := INTERPOLATE_LINEAR;
      }
    }

    /** `getValue(t)`: the same reading as a search from index 0, and the cache moved only to
        a segment that strictly contains `t`. */
    method GetValue(t: int) returns (r: Reading<V>)
      requires Valid()
      modifies this`lastIndexUsed
      ensures Valid()
      ensures r == Evaluate(timestamps, values, interpolationMethod, t)
      ensures lastIndexUsed == CacheAfter(timestamps, interpolationMethod, t, old(lastIndexUsed))
    {
      if interpolationMethod == INTERPOLATE_REGRESSION {
        return Regression(t);
      }
      var count := |timestamps|;
      if t < timestamps[0] || t > timestamps[count - 1] {
        return Sample(None);
      }
      var startIndex := lastIndexUsed;
      if t < timestamps[lastIndexUsed] {
        startIndex := 0;
      }
      CachedStartAgrees(timestamps, t, startIndex);
      var i := startIndex;
      while i < count
        invariant startIndex <= i <= count
        invariant StopFrom(timestamps, t, i) == StopFrom(timestamps, t, 0)
        invariant lastIndexUsed == old(lastIndexUsed)
      {
        if timestamps[i] == t {
          return Sample(values[i]);
        }
        if i < count - 1 && timestamps[i] < t < timestamps[i + 1] {
          lastIndexUsed := i;
          if interpolationMethod == INTERPOLATE_LEFT {
            return Sample(values[i]);
          } else if interpolationMethod == INTERPOLATE_RIGHT {
            return Sample(values[i + 1]);
          } else if interpolationMethod == INTERPOLATE_LINEAR {
            return Linear(timestamps[i], values[i], timestamps[i + 1], values[i + 1], t);
          } else {
            return Sample(None);
          }
        }
        i := i + 1;
      }
      return Sample(None);
    }
  }

  /** `new LinearInterpolator(timestamps, values)`: an interpolator over the data with the
      default method LINEAR, or `IllegalArgumentException` when `validate` rejects the data. */
  method Create<V>(timestamps: seq<int>, values: seq<Option<V>>) returns (r: Result<LinearInterpolator<V>, string>)
    ensures r.Success? <==> ValidData(timestamps, values)
    ensures r.Success? ==> && fresh(r.value) && r.value.Valid()
                           && r.value.timestamps == timestamps && r.value.values == values
                           && r.value.interpolationMethod == INTERPOLATE_LINEAR
                           && r.value.lastIndexUsed == 0
    ensures r.Failure? ==> r.error == "Invalid plottable data supplied"
  {
    var ok := Validate(timestamps, values);
    if !ok {
      return Failure("Invalid plottable data supplied");
    }
    var interpolator := new LinearInterpolator(timestamps, values);
    return Success(interpolator);
  }
}
