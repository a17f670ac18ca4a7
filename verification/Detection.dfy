/** Noise floor, classification and event detection (backend/internal/algorithm/detect.go). */
module Detection {
  import opened Basics
  import opened Denoise
  import opened Distance
  import opened Peaks
  import opened Rounding
  import opened Sorting

  datatype EventType = Connector | Splice | Bend | Break | End | Unknown

  datatype DetectedEvent = DetectedEvent(index: int, distance: real, eventType: EventType,
                                         insertionLoss: real, reflectance: real, confidence: real)

  datatype Detection = Detection(events: seq<DetectedEvent>, rejected: nat)

  // ----- Noise floor

  const MIN_NOISE_SAMPLES := 16

  function Tail(points: seq<real>): (tail: seq<real>)
    requires points != []
    ensures tail != []
  {
    points[|points| * 4 / 5..]
  }

  function NoiseFloor(points: seq<real>): Result<real> {
    if |points| < MIN_NOISE_SAMPLES then Err("at least 16 samples are required for noise estimation")
    else Ok(Median(Tail(points)))
  }

  method EstimateNoiseFloor(points: seq<real>) returns (r: Result<real>)
    ensures r == NoiseFloor(points)
  {
    if |points| < 16 {
      return Err("at least 16 samples are required for noise estimation");
    }
    var start := |points| * 4 / 5;
    var noise := MedianInPlace(points[start..]);
    return Ok(noise);
  }

  /** Corrupting fewer than half of the last fifth leaves the noise floor within the other samples. */
  lemma NoiseFloorRejectsOutliers(points: seq<real>, bad: set<int>, low: real, high: real)
    requires NoiseFloor(points).Ok? && 2 * |bad| < |Tail(points)|
    requires forall i | 0 <= i < |Tail(points)| && i !in bad :: low <= Tail(points)[i] <= high
    ensures low <= NoiseFloor(points).value <= high
  {
    hide Median;
    MedianRejectsOutliers(Tail(points), bad, low, high);
  }

  // ----- Noise stability of peaks

  /**
   * Two captures that differ by at most `eps` a sample: filtered steps clear of the threshold by
   * `2 * eps` are peaks of both or of neither.
   */
  lemma PeaksStable(p: seq<real>, q: seq<real>, half: nat, eps: real, threshold: real, i: nat)
    requires Within(p, q, eps) && 1 <= i < |p|
    ensures Abs(StepAt(Smoothed(p, half), i)) < threshold - 2.0 * eps ==> !IsPeak(Smoothed(q, half), threshold, i)
    ensures Abs(StepAt(Smoothed(p, half), i)) >= threshold + 2.0 * eps ==> IsPeak(Smoothed(q, half), threshold, i)
  {
    SmoothedStable(p, q, half, eps);
    hide Smoothed;
    var f, g := Smoothed(p, half), Smoothed(q, half);
    assert -eps <= g[i] - f[i] <= eps && -eps <= g[i - 1] - f[i - 1] <= eps;
  }

  // ----- Classification

  /** The event a peak is classified as, with its loss, reflectance and confidence. */
  function ClassifyPeak(peak: Peak, points: seq<real>, noiseFloor: real, threshold: real)
    : (EventType, real, real, real)
    requires 1 <= peak.index < |points| && threshold > 0.0
  {
    var before, after := points[peak.index - 1], points[peak.index];
    var loss := Max(0.0, before - after);
    var reflectance := Min(before, after) - noiseFloor;
    var eventType :=
      if peak.index >= |points| - 3 then End
      else if peak.direction < 0.0 && peak.magnitude < threshold * 1.5 then Bend
      else if peak.direction < 0.0 && peak.magnitude >= threshold * 2.5 then Break
      else if peak.direction > 0.0 && peak.magnitude >= threshold * 1.5 then Connector
      else Splice;
    var confidence := Min(0.99, 0.5 + peak.magnitude / (threshold * 10.0));
    (eventType, RoundMilli(loss), RoundMilli(reflectance), RoundMilli(confidence))
  }

  lemma QuotientOrder(x: real, y: real, d: real)
    requires x <= y && d > 0.0
    ensures x / d <= y / d
  {}

  /** Whatever is detected is reported with a confidence of 0.6 to 0.99. */
  lemma ConfidenceRange(points: seq<real>, threshold: real, noiseFloor: real, i: nat)
    requires threshold > 0.0 && IsPeak(points, threshold, i)
    ensures 0.6 <= ClassifyPeak(PeakAt(points, i), points, noiseFloor, threshold).3 <= 0.99
  {
    hide RoundMilli;
    var magnitude := PeakAt(points, i).magnitude;
    QuotientOrder(threshold, magnitude, threshold * 10.0);
    assert threshold / (threshold * 10.0) == 0.1;
    RoundMilliBetween(Min(0.99, 0.5 + magnitude / (threshold * 10.0)), 600, 990);
  }

  function Severity(t: EventType): int {
    match t
    case Bend => 1
    case Splice => 2
    case Break => 3
    case _ => 0
  }

  /** A deeper drop is never classified as milder, nor reported with less confidence. */
  lemma DeeperIsWorse(points: seq<real>, noiseFloor: real, threshold: real, i: nat, j: nat)
    requires threshold > 0.0 && IsPeak(points, threshold, i) && IsPeak(points, threshold, j)
    requires i < |points| - 3 && j < |points| - 3
    requires StepAt(points, j) <= StepAt(points, i) < 0.0
    ensures var mild := ClassifyPeak(PeakAt(points, i), points, noiseFloor, threshold);
            var deep := ClassifyPeak(PeakAt(points, j), points, noiseFloor, threshold);
            && 1 <= Severity(mild.0) <= Severity(deep.0)
            && mild.1 <= deep.1
            && mild.3 <= deep.3
  {
    hide RoundMilli;
    var mild, deep := PeakAt(points, i).magnitude, PeakAt(points, j).magnitude;
    QuotientOrder(mild, deep, threshold * 10.0);
    RoundMilliLaws(mild, deep);
    RoundMilliLaws(Min(0.99, 0.5 + mild / (threshold * 10.0)), Min(0.99, 0.5 + deep / (threshold * 10.0)));
  }

  /**
   * The classification in terms of the signed step: types as ranges, whatever the order in which the
   * source overwrites them, and loss, reflectance and confidence of rises and drops.
   */
  lemma ClassifiedByStep(points: seq<real>, noiseFloor: real, threshold: real, i: nat)
    requires threshold > 0.0 && IsPeak(points, threshold, i)
    ensures var (eventType, loss, reflectance, confidence) := ClassifyPeak(PeakAt(points, i), points, noiseFloor, threshold);
            var step, inner := StepAt(points, i), i < |points| - 3;
            && (eventType == End <==> !inner)
            && (eventType == Connector <==> inner && step >= 1.5 * threshold)
            && (eventType == Break <==> inner && step <= -2.5 * threshold)
            && (eventType == Bend <==> inner && -1.5 * threshold < step < 0.0)
            && (eventType == Splice <==>
                 inner && (0.0 < step < 1.5 * threshold || -2.5 * threshold < step <= -1.5 * threshold))
            && (step > 0.0 ==> loss == 0.0 && reflectance == RoundMilli(points[i - 1] - noiseFloor))
            && (step < 0.0 ==> loss == RoundMilli(-step) && reflectance == RoundMilli(points[i] - noiseFloor))
            && (confidence == 0.99 <==> RoundMilli(0.5 + Abs(step) / (10.0 * threshold)) >= 0.99)
  {
    RoundMilliGrid(0);
    RoundMilliGrid(990);
    var c := 0.5 + Abs(StepAt(points, i)) / (10.0 * threshold);
    if c <= 0.99 {
      RoundMilliLaws(c, 0.99);
    } else {
      RoundMilliLaws(0.99, c);
    }
    hide RoundMilli;
  }

  /** A drop is never a connector, and its loss is its own size, rounded. */
  lemma DropIsNoConnector(points: seq<real>, noiseFloor: real, threshold: real, i: nat)
    requires threshold > 0.0 && IsPeak(points, threshold, i) && StepAt(points, i) <= 0.0
    ensures var c := ClassifyPeak(PeakAt(points, i), points, noiseFloor, threshold);
            && c.0 != Connector
            && c.1 == RoundMilli(PeakAt(points, i).magnitude)
            && c.1 >= RoundMilli(threshold)
  {
    hide RoundMilli;
    RoundMilliLaws(threshold, PeakAt(points, i).magnitude);
  }

  // ----- Detection

  /** What detection needs to know besides the peaks. */
  datatype Setup = Setup(points: seq<real>, noise: real, threshold: real,
                         sampleIntervalNS: real, refractiveIndex: real, routeLength: real)
  {
    predicate Valid() {
      threshold > 0.0 && ValidSampling(sampleIntervalNS, refractiveIndex)
    }

    predicate Fits(peaks: seq<Peak>) {
      Valid() && forall k | 0 <= k < |peaks| :: 1 <= peaks[k].index < |points|
    }

    function DistanceOf(peak: Peak): real
      requires Valid() && peak.index >= 0
    {
      DistanceAt(peak.index, sampleIntervalNS, refractiveIndex)
    }

    function EventOf(peak: Peak): DetectedEvent
      requires Valid() && 1 <= peak.index < |points|
    {
      var (eventType, loss, reflectance, confidence) := ClassifyPeak(peak, points, noise, threshold);
      DetectedEvent(peak.index, DistanceOf(peak), eventType, loss, reflectance, confidence)
    }
  }

  function Located(s: Setup, peaks: seq<Peak>): Detection
    requires s.Fits(peaks)
  {
    if peaks == [] then Detection([], 0)
    else
      var d := Located(s, peaks[..|peaks| - 1]);
      var peak := peaks[|peaks| - 1];
      if ValidRouteDistance(s.DistanceOf(peak), s.routeLength) then d.(events := d.events + [s.EventOf(peak)])
      else d.(rejected := d.rejected + 1)
  }

  /** The merged peaks of a trace; every one is a genuine step of the trace. */
  function MergedPeaks(points: seq<real>, threshold: real, mergeWindow: int): (peaks: seq<Peak>)
    ensures AllGenuine(peaks, points, threshold)
    ensures mergeWindow >= 1 ==> Apart(peaks, mergeWindow)
  {
    var candidates := PeaksUpTo(points, threshold, |points|);
    PeaksExact(points, threshold);
    MergedSelects(candidates, mergeWindow);
    assert mergeWindow >= 1 ==> Apart(Merged(candidates, mergeWindow), mergeWindow) by {
      if mergeWindow >= 1 {
        MergedApart(candidates, mergeWindow);
      }
    }
    Merged(candidates, mergeWindow)
  }

  function Detected(points: seq<real>, threshold: real, mergeWindow: int,
                    sampleIntervalNS: real, refractiveIndex: real, routeLength: real): Result<Detection>
  {
    if |points| < MIN_NOISE_SAMPLES then Err("at least 16 samples are required for noise estimation")
    else if threshold <= 0.0 then Err("threshold must be positive")
    else if mergeWindow < 1 then Err("merge window must be positive")
    else
      var peaks := MergedPeaks(points, threshold, mergeWindow);
      if peaks == [] then Ok(Detection([], 0))
      else if !ValidSampling(sampleIntervalNS, refractiveIndex) then
        Err(if sampleIntervalNS <= 0.0 then "sample interval must be positive" else "refractive index outside 1.3-1.7")
      else
        var noise := Median(Tail(points));
        Ok(Located(Setup(points, noise, threshold, sampleIntervalNS, refractiveIndex, routeLength), peaks))
  }

  method Detect(points: seq<real>, threshold: real, mergeWindow: int,
                sampleIntervalNS: real, refractiveIndex: real, routeLength: real)
    returns (r: Result<Detection>)
    ensures r == Detected(points, threshold, mergeWindow, sampleIntervalNS, refractiveIndex, routeLength)
  {
    hide Median, Merged, PeaksUpTo, ClassifyPeak, RoundCenti, RawDistance;
    var noise := EstimateNoiseFloor(points);
    if noise.Err? {
      return Err(noise.error);
    }
    var candidates := DerivativePeaks(points, threshold);
    if candidates.Err? {
      return Err(candidates.error);
    }
    var merged := MergePeaks(candidates.value, mergeWindow);
    if merged.Err? {
      return Err(merged.error);
    }
    var peaks := merged.value;
    assert peaks == MergedPeaks(points, threshold, mergeWindow);
    var s := Setup(points, noise.value, threshold, sampleIntervalNS, refractiveIndex, routeLength);
    var events, rejected := [], 0;
    for i := 0 to |peaks|
      invariant i > 0 ==> ValidSampling(sampleIntervalNS, refractiveIndex)
      invariant ValidSampling(sampleIntervalNS, refractiveIndex) ==> Detection(events, rejected) == Located(s, peaks[..i])
      invariant i == 0 ==> events == [] && rejected == 0
    {
      var peak := peaks[i];
      var distance := SampleDistance(peak.index, sampleIntervalNS, refractiveIndex);
      if distance.Err? {
        return Err(distance.error);
      }
      assert peaks[..i + 1][..i] == peaks[..i];
      if !ValidRouteDistance(distance.value, routeLength) {
        rejected := rejected + 1;
        continue;
      }
      var (eventType, loss, reflectance, confidence) := ClassifyPeak(peak, points, noise.value, threshold);
      events := events + [DetectedEvent(peak.index, distance.value, eventType, loss, reflectance, confidence)];
    }
    assert peaks[..|peaks|] == peaks;
    return Ok(Detection(events, rejected));
  }

  // ----- What detection guarantees

  /** Where in range: the distance of the k-th peak lies on the route. */
  predicate OnRoute(s: Setup, peaks: seq<Peak>, k: nat)
    requires s.Fits(peaks) && k < |peaks|
  {
    ValidRouteDistance(s.DistanceOf(peaks[k]), s.routeLength)
  }

  lemma OnRouteBefore(s: Setup, peaks: seq<Peak>, i: nat, j: nat)
    requires s.Fits(peaks) && Increasing(peaks) && i <= j < |peaks|
    ensures 0.0 <= s.DistanceOf(peaks[i]) <= s.DistanceOf(peaks[j])
    ensures OnRoute(s, peaks, j) ==> OnRoute(s, peaks, i)
  {
    hide RoundCenti, RawDistance;
    DistanceSpread(peaks[i].index, peaks[j].index, 0, s.sampleIntervalNS, s.refractiveIndex);
  }

  /** The events of the first `accepted` peaks, in order. */
  ghost predicate EventsOfPrefix(s: Setup, peaks: seq<Peak>, accepted: nat, events: seq<DetectedEvent>)
    requires s.Fits(peaks)
  {
    && |events| == accepted <= |peaks|
    && forall k: nat | k < accepted :: OnRoute(s, peaks, k) && events[k] == s.EventOf(peaks[k])
  }

  /** Everything accepted comes before everything rejected, and nothing is lost. */
  lemma {:induction false} RejectionsAreSuffix(s: Setup, peaks: seq<Peak>)
    requires s.Fits(peaks) && Increasing(peaks)
    ensures var d := Located(s, peaks);
            && EventsOfPrefix(s, peaks, |d.events|, d.events)
            && |d.events| + d.rejected == |peaks|
            && (forall k: nat | |d.events| <= k < |peaks| :: !OnRoute(s, peaks, k))
    decreases |peaks|
  {
    if peaks != [] {
      hide ClassifyPeak, RoundCenti, RawDistance;
      var last := |peaks| - 1;
      var front := peaks[..last];
      RejectionsAreSuffix(s, front);
      var d := Located(s, front);
      assert forall k: nat | k < last :: OnRoute(s, front, k) == OnRoute(s, peaks, k);
      if OnRoute(s, peaks, last) {
        if |d.events| < last {
          OnRouteBefore(s, peaks, |d.events|, last);
          assert false;
        }
      }
    }
  }

  /** Peaks more than `window` samples apart are detected at least that far apart, less a centimetre. */
  lemma LocatedSpread(s: Setup, peaks: seq<Peak>, window: nat, i: nat, j: nat)
    requires s.Fits(peaks) && Apart(peaks, window) && i < j < |peaks|
    ensures s.DistanceOf(peaks[j]) - s.DistanceOf(peaks[i])
         >= (window + 1) as real * RawDistance(1, s.sampleIntervalNS, s.refractiveIndex) - 0.01
  {
    hide RoundCenti, RawDistance;
    DistanceSpread(peaks[i].index, peaks[j].index, window + 1, s.sampleIntervalNS, s.refractiveIndex);
  }

  /** The detection of a trace in terms of its merged peaks. */
  lemma DetectedPrefix(points: seq<real>, threshold: real, mergeWindow: int,
                       sampleIntervalNS: real, refractiveIndex: real, routeLength: real)
    returns (s: Setup, peaks: seq<Peak>)
    requires Detected(points, threshold, mergeWindow, sampleIntervalNS, refractiveIndex, routeLength).Ok?
    ensures mergeWindow >= 1 && peaks == MergedPeaks(points, threshold, mergeWindow)
    ensures peaks != [] ==> s == Setup(points, Median(Tail(points)), threshold, sampleIntervalNS, refractiveIndex, routeLength)
    ensures s.Fits(peaks)
    ensures var d := Detected(points, threshold, mergeWindow, sampleIntervalNS, refractiveIndex, routeLength).value;
            && EventsOfPrefix(s, peaks, |d.events|, d.events)
            && |d.events| + d.rejected == |peaks|
            && (forall k: nat | |d.events| <= k < |peaks| :: !OnRoute(s, peaks, k))
  {
    hide Median, ClassifyPeak, RoundCenti, RawDistance, MergedPeaks;
    peaks := MergedPeaks(points, threshold, mergeWindow);
    if peaks == [] {
      s := Setup(points, 0.0, 1.0, 1.0, 1.5, 0.0);
    } else {
      s := Setup(points, Median(Tail(points)), threshold, sampleIntervalNS, refractiveIndex, routeLength);
      RejectionsAreSuffix(s, peaks);
    }
  }

  ghost predicate ConfidenceBounds(confidence: real) {
    0.6 <= confidence <= 0.99
  }

  /** Detected events lie on the route in order of distance, with confidence 0.6 to 0.99. */
  ghost predicate WellDetected(events: seq<DetectedEvent>, routeLength: real) {
    && (forall k | 0 <= k < |events| :: 0.0 <= events[k].distance <= routeLength && ConfidenceBounds(events[k].confidence))
    && (forall i, j | 0 <= i < j < |events| :: events[i].distance <= events[j].distance)
  }

  lemma DetectedWell(points: seq<real>, threshold: real, mergeWindow: int,
                     sampleIntervalNS: real, refractiveIndex: real, routeLength: real)
    requires Detected(points, threshold, mergeWindow, sampleIntervalNS, refractiveIndex, routeLength).Ok?
    ensures WellDetected(
              Detected(points, threshold, mergeWindow, sampleIntervalNS, refractiveIndex, routeLength).value.events,
              routeLength)
  {
    hide Detected, Median, RoundCenti, RawDistance, MergedPeaks;
    var s, peaks := DetectedPrefix(points, threshold, mergeWindow, sampleIntervalNS, refractiveIndex, routeLength);
    var events := Detected(points, threshold, mergeWindow, sampleIntervalNS, refractiveIndex, routeLength).value.events;
    forall k | 0 <= k < |events|
      ensures 0.0 <= events[k].distance <= routeLength && ConfidenceBounds(events[k].confidence)
    {
      assert OnRoute(s, peaks, k);
      ConfidenceRange(points, threshold, s.noise, peaks[k].index);
      hide ClassifyPeak;
      assert events[k] == s.EventOf(peaks[k]);
    }
    hide ClassifyPeak;
    forall i: nat, j: nat | i < j < |events| ensures events[i].distance <= events[j].distance {
      OnRouteBefore(s, peaks, i, j);
      assert events[i] == s.EventOf(peaks[i]) && events[j] == s.EventOf(peaks[j]);
    }
  }

  /** Detected events are spread out as far as the merge window makes their samples. */
  lemma DetectedSpread(points: seq<real>, threshold: real, mergeWindow: int,
                       sampleIntervalNS: real, refractiveIndex: real, routeLength: real, gap: real)
    requires Detected(points, threshold, mergeWindow, sampleIntervalNS, refractiveIndex, routeLength).Ok?
    requires ValidSampling(sampleIntervalNS, refractiveIndex)
    requires (mergeWindow + 1) as real * RawDistance(1, sampleIntervalNS, refractiveIndex) > gap + 0.01
    ensures var events := Detected(points, threshold, mergeWindow, sampleIntervalNS, refractiveIndex, routeLength).value.events;
            forall i, j | 0 <= i < j < |events| :: events[j].distance - events[i].distance > gap
  {
    hide Detected, Median, RoundCenti, RawDistance, MergedPeaks, ClassifyPeak;
    var s, peaks := DetectedPrefix(points, threshold, mergeWindow, sampleIntervalNS, refractiveIndex, routeLength);
    var events := Detected(points, threshold, mergeWindow, sampleIntervalNS, refractiveIndex, routeLength).value.events;
    forall i: nat, j: nat | i < j < |events| ensures events[j].distance - events[i].distance > gap {
      LocatedSpread(s, peaks, mergeWindow, i, j);
      assert events[i] == s.EventOf(peaks[i]) && events[j] == s.EventOf(peaks[j]);
    }
  }

  /**
   * A raw trace that never rises, filtered and run through detection, yields no connector, and
   * every event has a loss of at least the rounded threshold.
   */
  lemma FallingTraceHasNoConnector(raw: seq<real>, denoiseWindow: int, threshold: real, mergeWindow: int,
                                   sampleIntervalNS: real, refractiveIndex: real, routeLength: real)
    requires NonIncreasing(raw) && Filtered(raw, denoiseWindow).Ok?
    requires Detected(Filtered(raw, denoiseWindow).value, threshold, mergeWindow,
                      sampleIntervalNS, refractiveIndex, routeLength).Ok?
    ensures var events := Detected(Filtered(raw, denoiseWindow).value, threshold, mergeWindow,
                                   sampleIntervalNS, refractiveIndex, routeLength).value.events;
            forall k | 0 <= k < |events| ::
              events[k].eventType != Connector && events[k].insertionLoss >= RoundMilli(threshold)
  {
    SmoothedFalling(raw, Half(denoiseWindow));
    var points := Filtered(raw, denoiseWindow).value;
    assert NonIncreasing(points);
    hide Detected, Smoothed, Median, RoundCenti, RoundMilli, RawDistance, MergedPeaks;
    var s, peaks := DetectedPrefix(points, threshold, mergeWindow, sampleIntervalNS, refractiveIndex, routeLength);
    var events := Detected(points, threshold, mergeWindow, sampleIntervalNS, refractiveIndex, routeLength).value.events;
    forall k | 0 <= k < |events|
      ensures events[k].eventType != Connector && events[k].insertionLoss >= RoundMilli(threshold)
    {
      DropIsNoConnector(points, s.noise, threshold, peaks[k].index);
      hide ClassifyPeak;
      assert events[k] == s.EventOf(peaks[k]);
    }
  }

  // ----- Reference level

  lemma {:induction false} PeaksOfShifted(points: seq<real>, c: real, threshold: real, n: nat)
    requires n <= |points|
    ensures PeaksUpTo(Shift(points, c), threshold, n) == PeaksUpTo(points, threshold, n)
  {
    if n > 1 {
      PeaksOfShifted(points, c, threshold, n - 1);
      assert StepAt(Shift(points, c), n - 1) == StepAt(points, n - 1);
    }
  }

  lemma ClassifyShifted(peak: Peak, points: seq<real>, c: real, noiseFloor: real, threshold: real)
    requires 1 <= peak.index < |points| && threshold > 0.0
    ensures ClassifyPeak(peak, Shift(points, c), noiseFloor + c, threshold) == ClassifyPeak(peak, points, noiseFloor, threshold)
  {
    hide RoundMilli;
  }

  lemma {:induction false} LocatedShifted(s: Setup, c: real, peaks: seq<Peak>)
    requires s.Fits(peaks)
    ensures s.(points := Shift(s.points, c), noise := s.noise + c).Fits(peaks)
    ensures Located(s.(points := Shift(s.points, c), noise := s.noise + c), peaks) == Located(s, peaks)
    decreases |peaks|
  {
    hide ClassifyPeak, DistanceAt;
    if peaks != [] {
      LocatedShifted(s, c, peaks[..|peaks| - 1]);
      ClassifyShifted(peaks[|peaks| - 1], s.points, c, s.noise, s.threshold);
    }
  }

  /**
   * Only relative levels matter: raising or lowering a whole raw trace changes neither the events
   * that are detected in it, nor any of their values, nor what is rejected; the noise floor moves along.
   */
  lemma DetectionIgnoresLevel(raw: seq<real>, c: real, denoiseWindow: int, threshold: real, mergeWindow: int,
                              sampleIntervalNS: real, refractiveIndex: real, routeLength: real)
    requires Filtered(raw, denoiseWindow).Ok?
    ensures var points := Filtered(raw, denoiseWindow).value;
            && Filtered(Shift(raw, c), denoiseWindow) == Ok(Shift(points, c))
            && (NoiseFloor(points).Ok? ==> NoiseFloor(Shift(points, c)) == Ok(NoiseFloor(points).value + c))
            && Detected(Shift(points, c), threshold, mergeWindow, sampleIntervalNS, refractiveIndex, routeLength)
               == Detected(points, threshold, mergeWindow, sampleIntervalNS, refractiveIndex, routeLength)
  {
    hide Median, Merged, Located, PeaksUpTo;
    SmoothedShift(raw, c, Half(denoiseWindow));
    hide Smoothed;
    var points := Filtered(raw, denoiseWindow).value;
    assert Tail(Shift(points, c)) == Shift(Tail(points), c);
    MedianShift(Tail(points), c);
    PeaksOfShifted(points, c, threshold, |points|);
    var peaks := MergedPeaks(points, threshold, mergeWindow);
    if threshold > 0.0 && ValidSampling(sampleIntervalNS, refractiveIndex) {
      LocatedShifted(Setup(points, Median(Tail(points)), threshold, sampleIntervalNS, refractiveIndex, routeLength), c, peaks);
    }
  }

  // ----- What a detection says, in terms of the samples

  predicate InLastFifth(n: nat, i: int) {
    5 * i + 5 > 4 * n
  }

  function LastFifth(n: nat): set<int> {
    set i | 0 <= i < n && InLastFifth(n, i)
  }

  /** The noise floor needs 16 samples and is a median of the last fifth of them: a corrupted minority there is rejected. */
  lemma NoiseFloorOfLastFifth(points: seq<real>, bad: set<int>, low: real, high: real)
    requires 2 * |bad| < |LastFifth(|points|)|
    requires forall i | i in LastFifth(|points|) && i !in bad :: low <= points[i] <= high
    ensures NoiseFloor(points).Ok? <==> |points| >= 16
    ensures NoiseFloor(points).Ok? ==> low <= NoiseFloor(points).value <= high
  {
    hide Median;
    if |points| >= 16 {
      var start := |points| * 4 / 5;
      assert LastFifth(|points|) == Range(start, |points|);
      RangeSize(start, |points|);
      Localise(bad, start);
      forall i | 0 <= i < |Tail(points)| && i !in Local(bad, start) ensures low <= Tail(points)[i] <= high {
        LocalCovers(bad, start, i);
      }
      NoiseFloorRejectsOutliers(points, Local(bad, start), low, high);
    }
  }

  /** An event and the step of the trace that it reports. */
  predicate Reports(e: DetectedEvent, points: seq<real>, noise: real, threshold: real) {
    && 1 <= e.index < |points|
    && var before, after := points[e.index - 1], points[e.index];
    var step, inner := after - before, e.index < |points| - 3;
    && (step >= threshold || -step >= threshold)
    && (e.eventType == End <==> !inner)
    && (e.eventType == Connector <==> inner && step >= 1.5 * threshold)
    && (e.eventType == Break <==> inner && step <= -2.5 * threshold)
    && (e.eventType == Bend <==> inner && -1.5 * threshold < step < 0.0)
    && e.eventType != Unknown
    && (if step > 0.0 then e.insertionLoss == 0.0 && ToMilli(e.reflectance, before - noise)
        else ToMilli(e.insertionLoss, -step) && ToMilli(e.reflectance, after - noise))
    && Trusts(e.confidence, if step > 0.0 then step else -step, threshold)
  }

  /** Confidence grows with the size of the step from 0.5, by a tenth for each threshold, to 0.99. */
  predicate Trusts(confidence: real, size: real, threshold: real) {
    if size >= 4.9 * threshold then confidence == 0.99
    else -0.005 * threshold <= 10.0 * threshold * (confidence - 0.5) - size <= 0.005 * threshold
  }

  lemma ConfidenceOf(size: real, threshold: real)
    requires threshold > 0.0
    ensures Trusts(RoundMilli(Min(0.99, 0.5 + size / (threshold * 10.0))), size, threshold)
  {
    hide RoundMilli;
    var q := size / (threshold * 10.0);
    TimesQuotient(size, threshold * 10.0);
    if size >= 4.9 * threshold {
      QuotientOrder(4.9 * threshold, size, threshold * 10.0);
      assert 4.9 * threshold / (threshold * 10.0) == 0.49;
      RoundMilliGrid(990);
    } else {
      QuotientOrder(size, 4.9 * threshold, threshold * 10.0);
      assert 4.9 * threshold / (threshold * 10.0) == 0.49;
      var c := 0.5 + q;
      RoundMilliLaws(c, c);
      assert Min(0.99, c) == c;
      ScaledConfidence(threshold, q, RoundMilli(c) - c, size);
      assert RoundMilli(c) - 0.5 == q + (RoundMilli(c) - c);
    }
  }

  lemma ScaledConfidence(threshold: real, q: real, e: real, size: real)
    requires threshold > 0.0 && threshold * 10.0 * q == size && -0.0005 <= e <= 0.0005
    ensures -0.005 * threshold <= 10.0 * threshold * (q + e) - size <= 0.005 * threshold
  {
    Scaled(threshold, e, 0.0005);
    Scaled(threshold, -0.0005, e);
    Distributes(threshold, q, e);
    TenTimes(threshold, q);
    TenTimes(threshold, q + e);
    var tq, te, sum := threshold * q, threshold * e, threshold * (q + e);
    assert sum == tq + te && 10.0 * tq == size;
    assert threshold * -0.0005 <= threshold * e <= threshold * 0.0005;
  }

  lemma TenTimes(n: real, x: real)
    ensures 10.0 * n * x == 10.0 * (n * x) == n * 10.0 * x
  {}

  lemma PeakReports(points: seq<real>, noise: real, threshold: real, i: nat, distance: real)
    requires threshold > 0.0 && IsPeak(points, threshold, i)
    ensures var (eventType, loss, reflectance, confidence) := ClassifyPeak(PeakAt(points, i), points, noise, threshold);
            Reports(DetectedEvent(i, distance, eventType, loss, reflectance, confidence), points, noise, threshold)
  {
    ClassifiedByStep(points, noise, threshold, i);
    ConfidenceOf(Abs(StepAt(points, i)), threshold);
    var step := StepAt(points, i);
    RoundMilliLaws(-step, -step);
    RoundMilliLaws(points[i - 1] - noise, points[i - 1] - noise);
    RoundMilliLaws(points[i] - noise, points[i] - noise);
    assert ClassifyPeak(PeakAt(points, i), points, noise, threshold).3
        == RoundMilli(Min(0.99, 0.5 + Abs(step) / (threshold * 10.0)));
    hide RoundMilli, ClassifyPeak, Trusts;
  }

  /**
   * What a detection reports: each event one step of the trace, at a distance that light measures and that
   * lies on the route, with its type, loss, reflectance over the noise floor and confidence.
   */
  lemma DetectedMeans(points: seq<real>, threshold: real, mergeWindow: int,
                      sampleIntervalNS: real, refractiveIndex: real, routeLength: real, k: nat)
    requires Detected(points, threshold, mergeWindow, sampleIntervalNS, refractiveIndex, routeLength).Ok?
    requires k < |Detected(points, threshold, mergeWindow, sampleIntervalNS, refractiveIndex, routeLength).value.events|
    ensures var e := Detected(points, threshold, mergeWindow, sampleIntervalNS, refractiveIndex, routeLength).value.events[k];
            && NoiseFloor(points).Ok? && Reports(e, points, NoiseFloor(points).value, threshold)
            && Measures(e.distance, e.index, sampleIntervalNS, refractiveIndex)
            && 0.0 <= e.distance <= routeLength
  {
    assert |points| >= 16 && threshold > 0.0;
    hide Detected, Median, RoundCenti, RawDistance, MergedPeaks, ClassifyPeak, Reports, Measures;
    var s, peaks := DetectedPrefix(points, threshold, mergeWindow, sampleIntervalNS, refractiveIndex, routeLength);
    assert OnRoute(s, peaks, k);
    PeakReports(points, s.noise, threshold, peaks[k].index, s.DistanceOf(peaks[k]));
    DistanceMeasures(peaks[k].index, sampleIntervalNS, refractiveIndex);
  }

  /** Which detections succeed: those with enough samples and sound parameters, unless a peak has no distance. */
  lemma DetectedAccepts(points: seq<real>, threshold: real, mergeWindow: int,
                        sampleIntervalNS: real, refractiveIndex: real, routeLength: real)
    ensures Detected(points, threshold, mergeWindow, sampleIntervalNS, refractiveIndex, routeLength).Ok? <==>
              && |points| >= 16 && threshold > 0.0 && mergeWindow >= 1
              && (MergedPeaks(points, threshold, mergeWindow) == []
                  || (sampleIntervalNS > 0.0 && 1.3 <= refractiveIndex <= 1.7))
  {
    hide MergedPeaks, Median, Located;
  }

  /** And only the peaks whose distance, to half a centimetre, is beyond the end of the route are rejected. */
  lemma RejectedIsBeyond(points: seq<real>, threshold: real, mergeWindow: int,
                         sampleIntervalNS: real, refractiveIndex: real, routeLength: real, k: nat)
    requires Detected(points, threshold, mergeWindow, sampleIntervalNS, refractiveIndex, routeLength).Ok?
    requires k < |MergedPeaks(points, threshold, mergeWindow)|
    ensures var d := Detected(points, threshold, mergeWindow, sampleIntervalNS, refractiveIndex, routeLength).value;
            var peak := MergedPeaks(points, threshold, mergeWindow)[k];
            && |d.events| + d.rejected == |MergedPeaks(points, threshold, mergeWindow)|
            && (k < |d.events| ==> d.events[k].index == peak.index)
            && (k >= |d.events| ==>
                  && DistanceAt(peak.index, sampleIntervalNS, refractiveIndex) > routeLength
                  && 0.299792458 * (peak.index as real * sampleIntervalNS)
                  > 2.0 * refractiveIndex * routeLength - 0.01 * refractiveIndex)
  {
    hide Detected, Median, RoundCenti, RawDistance, MergedPeaks, ClassifyPeak;
    var s, peaks := DetectedPrefix(points, threshold, mergeWindow, sampleIntervalNS, refractiveIndex, routeLength);
    var d := Detected(points, threshold, mergeWindow, sampleIntervalNS, refractiveIndex, routeLength).value;
    if k < |d.events| {
      assert d.events[k] == s.EventOf(peaks[k]);
    } else {
      assert !OnRoute(s, peaks, k);
      OnRouteBefore(s, peaks, k, k);
      DistanceMeasures(peaks[k].index, sampleIntervalNS, refractiveIndex);
      BeyondRoute(refractiveIndex, routeLength, s.DistanceOf(peaks[k]),
                  0.299792458 * (peaks[k].index as real * sampleIntervalNS));
    }
  }

  lemma BeyondRoute(n: real, routeLength: real, distance: real, way: real)
    requires n > 0.0 && distance > routeLength && 2.0 * n * distance - way <= 0.01 * n
    ensures way > 2.0 * n * routeLength - 0.01 * n
  {
    StrictlyScaled(n, routeLength, distance);
    Doubled(n, routeLength);
    Doubled(n, distance);
    var near, far := n * routeLength, n * distance;
    assert near < far && 2.0 * far - way <= 0.01 * n;
  }

  lemma StrictlyScaled(n: real, x: real, y: real)
    requires n > 0.0 && x < y
    ensures n * x < n * y
  {}
}
