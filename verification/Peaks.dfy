/** Derivative peaks and their merging (backend/internal/algorithm/detect.go). */
module Peaks {
  import opened Basics

  datatype Peak = Peak(index: int, magnitude: real, direction: real)

  // ----- Steps above the threshold

  function StepAt(points: seq<real>, i: nat): real
    requires 1 <= i < |points|
  {
    points[i] - points[i - 1]
  }

  function PeakAt(points: seq<real>, i: nat): Peak
    requires 1 <= i < |points|
  {
    var delta := StepAt(points, i);
    Peak(i, Abs(delta), if delta < 0.0 then -1.0 else 1.0)
  }

  predicate IsPeak(points: seq<real>, threshold: real, i: nat) {
    1 <= i < |points| && Abs(StepAt(points, i)) >= threshold
  }

  /** The peaks among the first `n` samples, in order of position. */
  function PeaksUpTo(points: seq<real>, threshold: real, n: nat): seq<Peak>
    requires n <= |points|
  {
    if n <= 1 then []
    else PeaksUpTo(points, threshold, n - 1)
         + (if IsPeak(points, threshold, n - 1) then [PeakAt(points, n - 1)] else [])
  }

  function CandidatePeaks(points: seq<real>, threshold: real): Result<seq<Peak>> {
    if |points| < 3 then Err("at least three samples are required")
    else if threshold <= 0.0 then Err("threshold must be positive")
    else Ok(PeaksUpTo(points, threshold, |points|))
  }

  method DerivativePeaks(points: seq<real>, threshold: real) returns (r: Result<seq<Peak>>)
    ensures r == CandidatePeaks(points, threshold)
  {
    if |points| < 3 {
      return Err("at least three samples are required");
    }
    if threshold <= 0.0 {
      return Err("threshold must be positive");
    }
    var peaks := [];
    for i := 1 to |points|
      invariant peaks == PeaksUpTo(points, threshold, i)
    {
      var delta := points[i] - points[i - 1];
      if Abs(delta) >= threshold {
        peaks := peaks + [Peak(i, Abs(delta), if delta < 0.0 then -1.0 else 1.0)];
      }
    }
    return Ok(peaks);
  }

  ghost predicate Increasing(peaks: seq<Peak>) {
    forall i, j | 0 <= i < j < |peaks| :: peaks[i].index < peaks[j].index
  }

  /** Every reported peak is a step of at least the threshold, with its own size and sign. */
  ghost predicate AllGenuine(peaks: seq<Peak>, points: seq<real>, threshold: real) {
    forall k | 0 <= k < |peaks| ::
      && peaks[k].index >= 1
      && IsPeak(points, threshold, peaks[k].index)
      && peaks[k] == PeakAt(points, peaks[k].index)
  }

  ghost predicate InOrder(peaks: seq<Peak>, points: seq<real>, threshold: real, n: nat) {
    && Increasing(peaks)
    && AllGenuine(peaks, points, threshold)
    && forall k | 0 <= k < |peaks| :: peaks[k].index < n
  }

  lemma InOrderAppend(front: seq<Peak>, points: seq<real>, threshold: real, n: nat)
    requires InOrder(front, points, threshold, n) && IsPeak(points, threshold, n)
    ensures InOrder(front + [PeakAt(points, n)], points, threshold, n + 1)
  {
    hide Abs, StepAt;
  }

  lemma {:induction false} PeaksInOrder(points: seq<real>, threshold: real, n: nat)
    requires n <= |points|
    ensures InOrder(PeaksUpTo(points, threshold, n), points, threshold, n)
  {
    if n > 1 {
      PeaksInOrder(points, threshold, n - 1);
      var front := PeaksUpTo(points, threshold, n - 1);
      if IsPeak(points, threshold, n - 1) {
        hide IsPeak, PeakAt;
        InOrderAppend(front, points, threshold, n - 1);
        hide InOrder;
        assert PeaksUpTo(points, threshold, n) == front + [PeakAt(points, n - 1)];
      } else {
        hide IsPeak, PeakAt;
        assert PeaksUpTo(points, threshold, n) == front;
      }
    }
  }

  lemma {:induction false} PeakReported(points: seq<real>, threshold: real, n: nat, i: nat)
    requires i < n <= |points| && IsPeak(points, threshold, i)
    ensures PeakAt(points, i) in PeaksUpTo(points, threshold, n)
  {
    if i < n - 1 {
      PeakReported(points, threshold, n - 1, i);
    }
  }

  /** Exactly the steps of at least the threshold are reported, once each and in order. */
  lemma PeaksExact(points: seq<real>, threshold: real)
    ensures var peaks := PeaksUpTo(points, threshold, |points|);
            && Increasing(peaks)
            && AllGenuine(peaks, points, threshold)
            && forall i: nat | IsPeak(points, threshold, i) :: PeakAt(points, i) in peaks
  {
    PeaksInOrder(points, threshold, |points|);
    forall i: nat | IsPeak(points, threshold, i)
      ensures PeakAt(points, i) in PeaksUpTo(points, threshold, |points|)
    {
      PeakReported(points, threshold, |points|, i);
    }
  }

  // ----- Merging

  type Group = g: seq<Peak> | g != [] witness [Peak(0, 0.0, 0.0)]

  /** The first peak of greatest magnitude in a group. */
  function Top(g: Group): Peak {
    if |g| == 1 then g[0]
    else
      var best := Top(g[..|g| - 1]);
      if g[|g| - 1].magnitude > best.magnitude then g[|g| - 1] else best
  }

  function Tops(groups: seq<Group>): (r: seq<Peak>)
    ensures |r| == |groups|
  {
    seq(|groups|, j requires 0 <= j < |groups| => Top(groups[j]))
  }

  /** A peak within `window` of the top of the last group joins it; any other opens a new group. */
  function AddPeak(groups: seq<Group>, peak: Peak, window: int): seq<Group> {
    var last := |groups| - 1;
    if groups == [] || peak.index - Top(groups[last]).index > window then groups + [[peak]]
    else groups[..last] + [groups[last] + [peak]]
  }

  function Grouped(peaks: seq<Peak>, window: int): (groups: seq<Group>)
    ensures groups == [] <==> peaks == []
  {
    if peaks == [] then []
    else AddPeak(Grouped(peaks[..|peaks| - 1], window), peaks[|peaks| - 1], window)
  }

  function Merged(peaks: seq<Peak>, window: int): seq<Peak> {
    Tops(Grouped(peaks, window))
  }

  method MergePeaks(peaks: seq<Peak>, window: int) returns (r: Result<seq<Peak>>)
    ensures r == if window < 1 then Err("merge window must be positive") else Ok(Merged(peaks, window))
  {
    if window < 1 {
      return Err("merge window must be positive");
    }
    if |peaks| == 0 {
      return Ok([]);
    }
    var merged: seq<Peak> := [];
    var current := peaks[0];
    for i := 1 to |peaks|
      invariant merged + [current] == Merged(peaks[..i], window)
    {
      var peak := peaks[i];
      assert peaks[..i + 1] == peaks[..i] + [peak];
      TopsAdd(Grouped(peaks[..i], window), peak, window, merged, current);
      if peak.index - current.index <= window {
        if peak.magnitude > current.magnitude {
          current := peak;
        }
        continue;
      }
      merged := merged + [current];
      current := peak;
    }
    assert peaks[..|peaks|] == peaks;
    return Ok(merged + [current]);
  }

  /** What one turn of the loop does to the representatives. */
  lemma TopsAdd(groups: seq<Group>, peak: Peak, window: int, merged: seq<Peak>, current: Peak)
    requires Tops(groups) == merged + [current]
    ensures Tops(AddPeak(groups, peak, window)) ==
            if peak.index - current.index > window then merged + [current, peak]
            else if peak.magnitude > current.magnitude then merged + [peak]
            else merged + [current]
  {
    var last := |groups| - 1;
    assert current == Tops(groups)[last] == Top(groups[last]);
    assert forall j | 0 <= j < last :: Top(groups[j]) == Tops(groups)[j] == merged[j];
    var longer := groups[last] + [peak];
    assert longer[..|longer| - 1] == groups[last];
  }

  /** The top of a group is its first strongest member. */
  lemma {:induction false} TopIsFirstStrongest(g: Group) returns (k: nat)
    ensures k < |g| && Top(g) == g[k]
    ensures forall i | 0 <= i < k :: g[i].magnitude < g[k].magnitude
    ensures forall i | 0 <= i < |g| :: g[i].magnitude <= g[k].magnitude
  {
    if |g| == 1 {
      k := 0;
    } else {
      k := TopIsFirstStrongest(g[..|g| - 1]);
      if g[|g| - 1].magnitude > g[k].magnitude {
        k := |g| - 1;
      }
    }
  }

  function Flatten(groups: seq<Group>): seq<Peak> {
    if groups == [] then [] else Flatten(groups[..|groups| - 1]) + groups[|groups| - 1]
  }

  /** Each member was, on arrival, within `window` of the top of the group so far. */
  ghost predicate Chained(g: Group, window: int) {
    forall i | 0 < i < |g| :: g[i].index - Top(g[..i]).index <= window
  }

  /** `groups` cuts `peaks` into contiguous chains, each opening beyond the reach of the one before. */
  ghost predicate IsGrouping(groups: seq<Group>, peaks: seq<Peak>, window: int) {
    && Flatten(groups) == peaks
    && (forall j | 0 <= j < |groups| :: Chained(groups[j], window))
    && (forall j | 0 < j < |groups| :: groups[j][0].index - Top(groups[j - 1]).index > window)
  }

  lemma AddPeakGroups(groups: seq<Group>, peaks: seq<Peak>, peak: Peak, window: int)
    requires IsGrouping(groups, peaks, window) && (groups == [] ==> peaks == [])
    ensures IsGrouping(AddPeak(groups, peak, window), peaks + [peak], window)
  {
    var last := |groups| - 1;
    if groups == [] || peak.index - Top(groups[last]).index > window {
      assert (groups + [[peak]])[..|groups|] == groups;
    } else {
      var longer: Group := groups[last] + [peak];
      assert Chained(longer, window) by {
        forall i | 0 < i < |longer| ensures longer[i].index - Top(longer[..i]).index <= window {
          assert longer[..i] == groups[last][..i];
          assert groups[last][..|groups[last]|] == groups[last];
        }
      }
      assert (groups[..last] + [longer])[..last] == groups[..last];
    }
  }

  lemma {:induction false} GroupedIsGrouping(peaks: seq<Peak>, window: int)
    ensures IsGrouping(Grouped(peaks, window), peaks, window)
  {
    if peaks != [] {
      var front := peaks[..|peaks| - 1];
      GroupedIsGrouping(front, window);
      AddPeakGroups(Grouped(front, window), front, peaks[|peaks| - 1], window);
      assert peaks == front + [peaks[|peaks| - 1]];
    }
  }

  /** Undoing the arrival of the last peak of a grouping. */
  lemma DropPeak(groups: seq<Group>, peaks: seq<Peak>, window: int) returns (before: seq<Group>)
    requires peaks != [] && IsGrouping(groups, peaks, window)
    ensures IsGrouping(before, peaks[..|peaks| - 1], window)
    ensures groups == AddPeak(before, peaks[|peaks| - 1], window)
  {
    var last := |groups| - 1;
    var g := groups[last];
    assert g[|g| - 1] == peaks[|peaks| - 1];
    before := groups[..last];
    if |g| > 1 {
      var shorter: Group := g[..|g| - 1];
      assert Chained(shorter, window) by {
        forall i | 0 < i < |shorter| ensures shorter[i].index - Top(shorter[..i]).index <= window {
          assert shorter[..i] == g[..i];
        }
      }
      assert g == shorter + [g[|g| - 1]];
      before := before + [shorter];
      assert before[..last] == groups[..last];
      assert Flatten(before) == peaks[..|peaks| - 1];
    } else {
      assert g == [peaks[|peaks| - 1]];
      assert Flatten(before) == peaks[..|peaks| - 1];
    }
  }

  lemma {:induction false} GroupingUnique(groups: seq<Group>, peaks: seq<Peak>, window: int)
    requires IsGrouping(groups, peaks, window)
    ensures groups == Grouped(peaks, window)
    decreases |peaks|
  {
    if peaks == [] {
      assert groups == [];
    } else {
      var before := DropPeak(groups, peaks, window);
      GroupingUnique(before, peaks[..|peaks| - 1], window);
    }
  }

  /**
   * Merging in full: there is exactly one way to cut the peaks into contiguous groups that obeys
   * the joining rule, and the results are the tops of its groups.
   */
  lemma MergedMeansGrouping(peaks: seq<Peak>, window: int, groups: seq<Group>)
    ensures IsGrouping(groups, peaks, window) <==> groups == Grouped(peaks, window)
    ensures IsGrouping(groups, peaks, window) ==> Merged(peaks, window) == Tops(groups)
  {
    GroupedIsGrouping(peaks, window);
    if IsGrouping(groups, peaks, window) {
      GroupingUnique(groups, peaks, window);
    }
  }

  /**
   * Peaks join by their distance to the strongest one so far, not to their neighbour: of three peaks
   * with neighbours within the window, the last opens a group of its own beyond the reach of a strong first.
   */
  lemma NeighboursMayStayApart(window: nat, strong: real, weak: real)
    requires window >= 1 && strong >= weak
    ensures var a, b, c := Peak(0, strong, 1.0), Peak(window, weak, 1.0), Peak(2 * window, weak, 1.0);
            Merged([a, b, c], window) == [a, c]
  {
    var a, b, c := Peak(0, strong, 1.0), Peak(window, weak, 1.0), Peak(2 * window, weak, 1.0);
    assert [a, b][..1] == [a];
    assert Top([a]) == a && Top([c]) == c && Top([a, b]) == a;
    hide Top, Grouped;
    GroupedNext([], a, window);
    GroupedNext([a], b, window);
    GroupedNext([a, b], c, window);
    NothingGrouped(window);
    assert [] + [a] == [a] && [a] + [b] == [a, b] && [a, b] + [c] == [a, b, c];
    assert AddPeak([[a]], b, window) == [[a, b]];
    assert AddPeak([[a, b]], c, window) == [[a, b], [c]];
  }

  lemma NothingGrouped(window: int)
    ensures Grouped([], window) == []
  {}

  lemma GroupedNext(front: seq<Peak>, peak: Peak, window: int)
    ensures Grouped(front + [peak], window) == AddPeak(Grouped(front, window), peak, window)
  {
    hide AddPeak;
    assert (front + [peak])[..|front|] == front;
  }

  /** Any two peaks are more than `window` samples apart. */
  ghost predicate Apart(peaks: seq<Peak>, window: int) {
    forall i, j | 0 <= i < j < |peaks| :: peaks[j].index - peaks[i].index > window
  }

  /** The representatives grow by at most one and the last is never beyond the last peak. */
  lemma MergedStep(peaks: seq<Peak>, window: int) returns (front: seq<Peak>, current: Peak)
    requires |peaks| > 1
    ensures var peak := peaks[|peaks| - 1];
            && Merged(peaks[..|peaks| - 1], window) == front + [current]
            && Merged(peaks, window) ==
               if peak.index - current.index > window then front + [current, peak]
               else if peak.magnitude > current.magnitude then front + [peak]
               else front + [current]
  {
    var before := Merged(peaks[..|peaks| - 1], window);
    front, current := before[..|before| - 1], before[|before| - 1];
    TopsAdd(Grouped(peaks[..|peaks| - 1], window), peaks[|peaks| - 1], window, front, current);
  }

  lemma MergedSingle(peaks: seq<Peak>, window: int)
    requires |peaks| == 1
    ensures Merged(peaks, window) == peaks
  {
    assert peaks == [peaks[0]];
    assert Grouped(peaks[..0], window) == [];
    var groups := AddPeak([], peaks[0], window);
    assert groups == [peaks] && Top(groups[0]) == peaks[0];
  }

  lemma ApartStep(front: seq<Peak>, current: Peak, peak: Peak, window: int)
    requires window >= 0 && Apart(front + [current], window) && current.index < peak.index
    ensures Apart(front + [peak], window)
    ensures peak.index - current.index > window ==> Apart(front + [current, peak], window)
  {
    var before := front + [current];
    assert before[|front|] == current;
    assert forall i | 0 <= i < |front| :: before[i] == front[i] && current.index - front[i].index > window;
  }

  lemma {:induction false} MergedApartUpTo(peaks: seq<Peak>, window: int)
    requires Increasing(peaks) && peaks != [] && window >= 1
    ensures var r := Merged(peaks, window);
            Apart(r, window) && r != [] && r[|r| - 1].index <= peaks[|peaks| - 1].index
    decreases |peaks|
  {
    if |peaks| == 1 {
      MergedSingle(peaks, window);
    } else {
      hide Merged;
      MergedApartUpTo(peaks[..|peaks| - 1], window);
      var front, current := MergedStep(peaks, window);
      assert (front + [current])[|front|] == current;
      ApartStep(front, current, peaks[|peaks| - 1], window);
    }
  }

  /** Results of merging are more than `window` samples apart. */
  lemma MergedApart(peaks: seq<Peak>, window: int)
    requires Increasing(peaks) && window >= 1
    ensures Apart(Merged(peaks, window), window)
  {
    if peaks != [] {
      MergedApartUpTo(peaks, window);
    }
  }

  lemma {:induction false} MergeNothing(peaks: seq<Peak>, window: int)
    requires Apart(peaks, window)
    ensures Merged(peaks, window) == peaks
    decreases |peaks|
  {
    if |peaks| == 1 {
      MergedSingle(peaks, window);
    } else if |peaks| > 1 {
      hide Merged;
      MergeNothing(peaks[..|peaks| - 1], window);
      var front, current := MergedStep(peaks, window);
      assert peaks == peaks[..|peaks| - 1] + [peaks[|peaks| - 1]];
    }
  }

  /** Merging again with the same window changes nothing. */
  lemma MergedIdempotent(peaks: seq<Peak>, window: int)
    requires Increasing(peaks) && window >= 1
    ensures Merged(Merged(peaks, window), window) == Merged(peaks, window)
  {
    MergedApart(peaks, window);
    MergeNothing(Merged(peaks, window), window);
  }

  lemma {:induction false} MergedKeepsTop(peaks: Group, window: int)
    ensures var r := Merged(peaks, window);
            && Top(peaks) in r
            && (r[|r| - 1] == Top(peaks) || r[|r| - 1].magnitude <= Top(peaks).magnitude)
    ensures var r := Merged(peaks, window); Top(peaks) == r[|r| - 1] || Top(peaks) in r[..|r| - 1]
    decreases |peaks|
  {
    if |peaks| == 1 {
      MergedSingle(peaks, window);
    } else {
      hide Merged;
      MergedKeepsTop(peaks[..|peaks| - 1], window);
      var front, current := MergedStep(peaks, window);
    }
  }

  /** The first strongest peak of the whole input always survives merging. */
  lemma MergedKeepsStrongest(peaks: Group, window: int)
    ensures Top(peaks) in Merged(peaks, window)
  {
    MergedKeepsTop(peaks, window);
  }

  /** Merging only selects: every result is one of the peaks. */
  lemma {:induction false} MergedSelects(peaks: seq<Peak>, window: int)
    ensures forall k | 0 <= k < |Merged(peaks, window)| :: Merged(peaks, window)[k] in peaks
    decreases |peaks|
  {
    if |peaks| == 1 {
      MergedSingle(peaks, window);
    } else if |peaks| > 1 {
      hide Merged;
      MergedSelects(peaks[..|peaks| - 1], window);
      var front, current := MergedStep(peaks, window);
      assert forall k | 0 <= k < |front| :: (front + [current])[k] == front[k];
      assert (front + [current])[|front|] == current;
    }
  }
}
