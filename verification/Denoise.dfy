/** The moving-median filter (backend/internal/algorithm/denoise.go). */
module Denoise {
  import opened Basics
  import opened Sorting

  const MAX_WINDOW := 31

  /** Even windows are widened by one; half of the odd window reaches to each side. */
  function Half(window: int): nat
    requires window >= 1
  {
    (if window % 2 == 0 then window + 1 else window) / 2
  }

  function First(i: nat, half: nat): nat {
    if i < half then 0 else i - half
  }

  function Last(i: nat, half: nat, n: nat): nat {
    if i + half + 1 > n then n else i + half + 1
  }

  /** The samples around `i`, truncated at both ends of the trace. */
  function Bucket(points: seq<real>, half: nat, i: nat): (bucket: seq<real>)
    requires i < |points|
    ensures bucket != []
  {
    points[First(i, half)..Last(i, half, |points|)]
  }

  function Smoothed(points: seq<real>, half: nat): (filtered: seq<real>)
    ensures |filtered| == |points|
  {
    seq(|points|, i requires 0 <= i < |points| => Median(Bucket(points, half, i)))
  }

  function Filtered(points: seq<real>, window: int): Result<seq<real>> {
    if |points| < 3 then Err("at least three samples are required")
    else if window < 1 || window > MAX_WINDOW then Err("window must be between 1 and 31")
    else Ok(Smoothed(points, Half(window)))
  }

  /** The median as the source takes it: copy, sort in place, read the middle. */
  method MedianInPlace(samples: seq<real>) returns (m: real)
    requires samples != []
    ensures m == Median(samples)
  {
    hide Sort;
    var bucket := new real[|samples|](i requires 0 <= i < |samples| => samples[i]);
    assert bucket[..] == samples;
    SortFloats(bucket);
    var middle := bucket.Length / 2;
    if bucket.Length % 2 == 0 {
      m := (bucket[middle - 1] + bucket[middle]) / 2.0;
    } else {
      m := bucket[middle];
    }
  }

  method MovingMedian(points: seq<real>, window: int) returns (r: Result<seq<real>>)
    ensures r == Filtered(points, window)
  {
    hide Median;
    if |points| < 3 {
      return Err("at least three samples are required");
    }
    if window < 1 || window > MAX_WINDOW {
      return Err("window must be between 1 and 31");
    }
    var width := window;
    if width % 2 == 0 {
      width := width + 1;
    }
    var half := width / 2;
    var filtered := new real[|points|];
    for i := 0 to |points|
      invariant forall k | 0 <= k < i :: filtered[k] == Median(Bucket(points, half, k))
    {
      var start, end := i - half, i + half + 1;
      if start < 0 {
        start := 0;
      }
      if end > |points| {
        end := |points|;
      }
      assert points[start..end] == Bucket(points, half, i);
      filtered[i] := MedianInPlace(points[start..end]);
    }
    assert filtered[..] == Smoothed(points, half);
    return Ok(filtered[..]);
  }

  ghost predicate Within(p: seq<real>, q: seq<real>, eps: real) {
    |p| == |q| && forall i | 0 <= i < |p| :: -eps <= q[i] - p[i] <= eps
  }

  /** The filter keeps order: samples that are nowhere higher give values that are nowhere higher. */
  lemma SmoothedMonotone(p: seq<real>, q: seq<real>, half: nat)
    requires Below(p, q)
    ensures Below(Smoothed(p, half), Smoothed(q, half))
  {
    hide Median;
    forall i: nat | i < |p| ensures Smoothed(p, half)[i] <= Smoothed(q, half)[i] {
      MedianMonotone(Bucket(p, half, i), Bucket(q, half, i));
    }
  }

  /** The filter commutes with a change of reference level. */
  lemma SmoothedShift(p: seq<real>, c: real, half: nat)
    ensures Smoothed(Shift(p, c), half) == Shift(Smoothed(p, half), c)
  {
    hide Median;
    forall i: nat | i < |p| ensures Smoothed(Shift(p, c), half)[i] == Smoothed(p, half)[i] + c {
      BucketShift(p, c, half, i);
      MedianShift(Bucket(p, half, i), c);
    }
  }

  lemma BucketShift(p: seq<real>, c: real, half: nat, i: nat)
    requires i < |p|
    ensures Bucket(Shift(p, c), half, i) == Shift(Bucket(p, half, i), c)
  {
    var b, d := Bucket(Shift(p, c), half, i), Shift(Bucket(p, half, i), c);
    assert |b| == |d|;
    forall k | 0 <= k < |b| ensures b[k] == d[k] {
      assert b[k] == Shift(p, c)[First(i, half) + k] == p[First(i, half) + k] + c;
    }
  }

  /** Noise stability: noise of at most `eps` a sample moves filtered values by at most `eps`. */
  lemma SmoothedStable(p: seq<real>, q: seq<real>, half: nat, eps: real)
    requires Within(p, q, eps)
    ensures Within(Smoothed(p, half), Smoothed(q, half), eps)
  {
    hide Median;
    SmoothedMonotone(Shift(p, -eps), q, half);
    SmoothedMonotone(q, Shift(p, eps), half);
    SmoothedShift(p, -eps, half);
    SmoothedShift(p, eps, half);
    forall i | 0 <= i < |p| ensures -eps <= Smoothed(q, half)[i] - Smoothed(p, half)[i] <= eps {
      assert Smoothed(Shift(p, -eps), half)[i] <= Smoothed(q, half)[i] <= Smoothed(Shift(p, eps), half)[i];
    }
  }

  /**
   * Outlier rejection in one window, truncated or not: with fewer than half of the bucket in
   * `bad`, the filtered value lies within any bounds of the remaining samples.
   */
  lemma SmoothedRejectsOutliers(p: seq<real>, half: nat, i: nat, bad: set<int>, low: real, high: real)
    requires i < |p|
    requires 2 * |bad| < Last(i, half, |p|) - First(i, half)
    requires forall j | First(i, half) <= j < Last(i, half, |p|) && j !in bad :: low <= p[j] <= high
    ensures low <= Smoothed(p, half)[i] <= high
  {
    var start := First(i, half);
    var bucket := Bucket(p, half, i);
    Localise(bad, start);
    forall k | 0 <= k < |bucket| && k !in Local(bad, start) ensures low <= bucket[k] <= high {
      LocalCovers(bad, start, k);
    }
    MedianRejectsOutliers(bucket, Local(bad, start), low, high);
  }

  predicate Covers(window: int, i: int, j: int) {
    2 * (j - i) <= window && 2 * (i - j) <= window
  }

  /** The positions that a window setting covers around `i`, as far as the trace goes. */
  function Near(n: nat, i: nat, window: int): set<int> {
    set j | 0 <= j < n && Covers(window, i, j)
  }

  predicate Between(low: int, j: int, high: int) {
    low <= j < high
  }

  function Range(low: int, high: int): set<int> {
    set j | low <= j < high && Between(low, j, high)
  }

  lemma {:induction false} RangeSize(low: int, high: int)
    requires low <= high
    ensures |Range(low, high)| == high - low
    decreases high - low
  {
    if low < high {
      RangeSize(low, high - 1);
      assert Range(low, high) == Range(low, high - 1) + {high - 1};
    }
  }

  lemma NearIsWindow(n: nat, i: nat, window: int)
    requires window >= 1 && i < n
    ensures forall j :: j in Near(n, i, window) <==> First(i, Half(window)) <= j < Last(i, Half(window), n)
    ensures |Near(n, i, window)| == Last(i, Half(window), n) - First(i, Half(window))
  {
    var low, high := First(i, Half(window)), Last(i, Half(window), n);
    RangeSize(low, high);
    assert Near(n, i, window) == Range(low, high);
  }

  /** A window reaches equally far to both sides: odd settings are taken as they are, even ones widened by one. */
  lemma WindowWidth(window: int)
    requires 1 <= window <= 31
    ensures 2 * Half(window) + 1 == if window % 2 == 1 then window else window + 1
  {}

  /** Which requests are filtered. */
  lemma FilteredAccepts(points: seq<real>, window: int)
    ensures Filtered(points, window).Ok? <==> |points| >= 3 && 1 <= window <= 31
    ensures Filtered(points, window).Ok? ==> |Filtered(points, window).value| == |points|
  {
    hide Median;
  }

  /**
   * Outlier rejection for a window setting: with fewer than half of the positions it covers in `bad`,
   * the filtered value lies within any bounds of the other samples it covers.
   */
  lemma FilteredRejectsOutliers(points: seq<real>, window: int, i: nat, bad: set<int>, low: real, high: real)
    requires |points| >= 3 && 1 <= window <= 31 && i < |points|
    requires 2 * |bad| < |Near(|points|, i, window)|
    requires forall j | j in Near(|points|, i, window) && j !in bad :: low <= points[j] <= high
    ensures low <= Filtered(points, window).value[i] <= high
  {
    FilteredAccepts(points, window);
    NearIsWindow(|points|, i, window);
    hide Median, Near;
    SmoothedRejectsOutliers(points, Half(window), i, bad, low, high);
  }

  /** The filtered value depends on nothing but the samples that the window setting covers. */
  lemma FilteredIsLocal(p: seq<real>, q: seq<real>, window: int, i: nat)
    requires |p| == |q| >= 3 && 1 <= window <= 31 && i < |p|
    requires forall j | j in Near(|p|, i, window) :: p[j] == q[j]
    ensures Filtered(p, window).value[i] == Filtered(q, window).value[i]
  {
    NearIsWindow(|p|, i, window);
    hide Median, Near;
    assert Bucket(p, Half(window), i) == Bucket(q, Half(window), i);
  }

  /** Sample positions seen from the start of a window. */
  ghost function Local(bad: set<int>, start: int): set<int> {
    set b | b in bad :: b - start
  }

  lemma LocalCovers(bad: set<int>, start: int, k: int)
    ensures k in Local(bad, start) <==> start + k in bad
  {
    if start + k in bad {
      var b := start + k;
      assert b - start == k;
    }
  }

  lemma {:induction false} Localise(bad: set<int>, start: int)
    ensures |Local(bad, start)| <= |bad|
    decreases |bad|
  {
    if b :| b in bad {
      Localise(bad - {b}, start);
      forall k | k in Local(bad, start) ensures k in Local(bad - {b}, start) + {b - start} {
        LocalCovers(bad, start, k);
        LocalCovers(bad - {b}, start, k);
      }
      SubsetSize(Local(bad, start), Local(bad - {b}, start) + {b - start});
    } else {
      assert Local(bad, start) == {};
    }
  }

  ghost predicate NonIncreasing(s: seq<real>) {
    forall i, j | 0 <= i < j < |s| :: s[i] >= s[j]
  }

  ghost predicate Untruncated(i: nat, half: nat, n: nat) {
    half <= i && i + half < n
  }

  /** The mean of the samples on both sides of half of `ends` (one sample when `ends` is odd). */
  function Centre(p: seq<real>, ends: nat): real
    requires 0 < ends < 2 * |p|
  {
    (p[(ends - 1) / 2] + p[ends / 2]) / 2.0
  }

  /** Twice the middle of the window around `i`; it never moves left as `i` grows. */
  function Ends(p: seq<real>, half: nat, i: nat): (ends: nat)
    requires i < |p|
    ensures 0 < ends < 2 * |p|
  {
    First(i, half) + Last(i, half, |p|)
  }

  lemma CentreRises(p: seq<real>, low: nat, high: nat)
    requires Sorted(p) && 0 < low <= high < 2 * |p|
    ensures Centre(p, low) <= Centre(p, high)
  {
    assert p[low / 2] <= p[high / 2];
    assert p[(low - 1) / 2] <= p[(high - 1) / 2];
  }

  lemma MiddleOfSlice(p: seq<real>, start: nat, end: nat)
    requires start < end <= |p| && start + end < 2 * |p|
    ensures MiddleOf(p[start..end]) == Centre(p, start + end)
  {
    var size := end - start;
    assert start + size / 2 == (start + end) / 2;
    assert start + (size - 1) / 2 == (start + end - 1) / 2;
  }

  /** On a rising trace the filtered value is read off the middle of the window. */
  lemma SmoothedRisingAt(p: seq<real>, half: nat, i: nat)
    requires Sorted(p) && i < |p|
    ensures Smoothed(p, half)[i] == Centre(p, Ends(p, half, i))
  {
    hide Median, MiddleOf, Centre;
    MedianOfSorted(Bucket(p, half, i));
    MiddleOfSlice(p, First(i, half), Last(i, half, |p|));
  }

  /** A rising trace stays rising, and keeps every value whose window is not truncated. */
  lemma SmoothedRising(p: seq<real>, half: nat)
    requires Sorted(p)
    ensures Sorted(Smoothed(p, half))
    ensures forall i: nat | i < |p| && Untruncated(i, half, |p|) :: Smoothed(p, half)[i] == p[i]
  {
    forall i: nat | i < |p| && Untruncated(i, half, |p|) ensures Smoothed(p, half)[i] == p[i] {
      hide Smoothed;
      SmoothedRisingAt(p, half, i);
      assert Ends(p, half, i) == 2 * i + 1;
    }
    forall i: nat, j: nat | i < j < |p| ensures Smoothed(p, half)[i] <= Smoothed(p, half)[j] {
      hide Smoothed, Centre;
      SmoothedRisingAt(p, half, i);
      SmoothedRisingAt(p, half, j);
      CentreRises(p, Ends(p, half, i), Ends(p, half, j));
    }
  }

  lemma SmoothedNegate(p: seq<real>, half: nat)
    ensures Smoothed(Negate(p), half) == Negate(Smoothed(p, half))
  {
    hide Median;
    forall i: nat | i < |p| ensures Smoothed(Negate(p), half)[i] == -Smoothed(p, half)[i] {
      BucketNegate(p, half, i);
      MedianNegate(Bucket(p, half, i));
    }
  }

  lemma BucketNegate(p: seq<real>, half: nat, i: nat)
    requires i < |p|
    ensures Bucket(Negate(p), half, i) == Negate(Bucket(p, half, i))
  {
    var b, c := Bucket(Negate(p), half, i), Negate(Bucket(p, half, i));
    assert |b| == |c|;
    forall k | 0 <= k < |b| ensures b[k] == c[k] {
      assert b[k] == Negate(p)[First(i, half) + k] == -p[First(i, half) + k];
    }
  }

  /** A falling trace stays falling, and keeps every value whose window is not truncated. */
  lemma SmoothedFalling(p: seq<real>, half: nat)
    requires NonIncreasing(p)
    ensures NonIncreasing(Smoothed(p, half))
    ensures forall i: nat | i < |p| && Untruncated(i, half, |p|) :: Smoothed(p, half)[i] == p[i]
  {
    hide Median;
    SmoothedRising(Negate(p), half);
    SmoothedNegate(p, half);
    forall i: nat | i < |p| && Untruncated(i, half, |p|) ensures Smoothed(p, half)[i] == p[i] {
      assert Negate(Smoothed(p, half))[i] == Negate(p)[i];
    }
    forall i, j | 0 <= i < j < |p| ensures Smoothed(p, half)[i] >= Smoothed(p, half)[j] {
      assert Negate(Smoothed(p, half))[i] <= Negate(Smoothed(p, half))[j];
    }
  }
}
