/**
 * Stored traces and event markers, and the transactions that change them
 * (backend/internal/service/trace_service.go, event_service.go and their repositories).
 */
module TraceStore {
  import opened Basics
  import opened Comparison
  import opened ComparisonLaws
  import opened Denoise
  import opened Detection
  import opened Distance
  import opened Sorting

  datatype Route = Route(length: real, refractiveIndex: real)

  datatype Trace = Trace(routeId: nat, sampleIntervalNS: real, raw: seq<real>, processed: seq<real>, noiseFloor: real,
                         denoiseWindow: int, peakThreshold: real, mergeWindow: int)

  datatype Marker = Marker(traceId: nat, distance: real, eventType: EventType, insertionLoss: real,
                           reflectance: real, confidence: real,
                           algorithmEventType: EventType, algorithmDistance: real, algorithmInsertionLoss: real,
                           reviewed: bool, reviewNote: string, reviewedBy: Option<nat>, reviewedAt: Option<int>)

  /**
   * The tables, with the next identifiers they would hand out. `detected` is a history variable
   * that the program does not store: the markers written by the last detection of each trace.
   */
  datatype Store = Store(traces: map<nat, Trace>, markers: map<nat, Marker>, nextTrace: nat, nextMarker: nat,
                         detected: map<nat, map<nat, Marker>>)

  datatype ImportRequest = ImportRequest(routeId: nat, sampleIntervalNS: real, points: seq<real>,
                                         denoiseWindow: int, peakThreshold: real, mergeWindow: int)

  datatype DetectRequest = DetectRequest(denoiseWindow: int, peakThreshold: real, mergeWindow: int)

  /** `eventType` is absent when the requested name is not one of the supported types. */
  datatype ReviewRequest = ReviewRequest(eventType: Option<EventType>, distance: Option<real>, reviewNote: string)

  function OrElse(x: int, fallback: int): int {
    if x == 0 then fallback else x
  }

  function OrElseReal(x: real, fallback: real): real {
    if x == 0.0 then fallback else x
  }

  const DEFAULT_WINDOW := 5
  const DEFAULT_THRESHOLD := 0.8
  const DEFAULT_MERGE := 3

  // ----- Import

  predicate InRange(points: seq<real>) {
    forall i | 0 <= i < |points| :: -200.0 <= points[i] <= 100.0
  }

  /** Why the samples of a request are refused, if they are. */
  function PointsError(points: seq<real>, maxPoints: int): Option<string> {
    if |points| > maxPoints then Some("trace exceeds the point limit")
    else if !InRange(points) then Some("sample is outside the supported dB range")
    else None
  }

  /** The record an import stores, or the reason it is refused. */
  function Imported(request: ImportRequest, route: Option<Route>, maxPoints: int): Result<Trace> {
    if PointsError(request.points, maxPoints).Some? then Err(PointsError(request.points, maxPoints).value)
    else if route.None? then Err("route does not exist")
    else
      var window := OrElse(request.denoiseWindow, DEFAULT_WINDOW);
      var filtered := Filtered(request.points, window);
      if filtered.Err? then Err("trace denoising failed")
      else
        var noise := NoiseFloor(filtered.value);
        if noise.Err? then Err("not enough trace samples for noise estimation")
        else
          var last := SampleDistance(|request.points| - 1, request.sampleIntervalNS, route.value.refractiveIndex);
          if last.Err? then Err("distance conversion failed")
          else if last.value < route.value.length * 0.05 then
            Err("trace sampling range covers less than five percent of the route")
          else
            Ok(Trace(request.routeId, request.sampleIntervalNS, request.points, filtered.value, noise.value, window,
                     OrElseReal(request.peakThreshold, DEFAULT_THRESHOLD), OrElse(request.mergeWindow, DEFAULT_MERGE)))
  }

  function WithTrace(s: Store, trace: Trace): Store {
    s.(traces := s.traces[s.nextTrace := trace], nextTrace := s.nextTrace + 1)
  }

  // ----- Detection

  function MarkerOf(traceId: nat, e: DetectedEvent): Marker {
    Marker(traceId, e.distance, e.eventType, e.insertionLoss, e.reflectance, e.confidence,
           e.eventType, e.distance, e.insertionLoss, false, "", None, None)
  }

  function MarkersOf(traceId: nat, events: seq<DetectedEvent>): (markers: seq<Marker>)
    ensures |markers| == |events|
  {
    seq(|events|, i requires 0 <= i < |events| => MarkerOf(traceId, events[i]))
  }

  /** Inserted rows get consecutive identifiers. */
  function Numbered(markers: seq<Marker>, first: nat): map<nat, Marker> {
    if markers == [] then map[]
    else
      var last := |markers| - 1;
      Numbered(markers[..last], first)[first + last := markers[last]]
  }

  /** The rows left when the unreviewed markers of a trace are deleted. */
  function Kept(markers: map<nat, Marker>, traceId: nat): map<nat, Marker> {
    map id | id in markers && (markers[id].traceId != traceId || markers[id].reviewed) :: markers[id]
  }

  /** What a detection computes from a trace record. */
  datatype Outcome = Outcome(window: int, threshold: real, merge: int, processed: seq<real>, noise: real, detection: Detection)

  function Computed(seen: Trace, route: Route, request: DetectRequest): Result<Outcome> {
    var window := OrElse(OrElse(request.denoiseWindow, seen.denoiseWindow), DEFAULT_WINDOW);
    var threshold := OrElseReal(OrElseReal(request.peakThreshold, seen.peakThreshold), DEFAULT_THRESHOLD);
    var merge := OrElse(OrElse(request.mergeWindow, seen.mergeWindow), DEFAULT_MERGE);
    var filtered := Filtered(seen.raw, window);
    if filtered.Err? then Err("trace denoising failed")
    else
      var noise := NoiseFloor(filtered.value);
      if noise.Err? then Err("noise floor estimation failed")
      else
        var detection := Detected(filtered.value, threshold, merge, seen.sampleIntervalNS, route.refractiveIndex, route.length);
        if detection.Err? then Err("event detection failed")
        else Ok(Outcome(window, threshold, merge, filtered.value, noise.value, detection.value))
  }

  /** The transaction of a detection: overwrite the processing fields, replace the unreviewed markers. */
  function WithDetection(s: Store, traceId: nat, o: Outcome): Store
    requires traceId in s.traces
  {
    var trace := s.traces[traceId].(processed := o.processed, noiseFloor := o.noise, denoiseWindow := o.window,
                                    peakThreshold := o.threshold, mergeWindow := o.merge);
    var created := Numbered(MarkersOf(traceId, o.detection.events), s.nextMarker);
    s.(traces := s.traces[traceId := trace],
       markers := Kept(s.markers, traceId) + created,
       nextMarker := s.nextMarker + |o.detection.events|,
       detected := s.detected[traceId := created])
  }

  // ----- Review

  /** The reviewed record, from the record that was read. */
  function Reviewed(seen: Marker, route: Route, request: ReviewRequest, actor: nat, now: int): Result<Marker> {
    if request.eventType.None? then Err("event_type is not supported")
    else
      var distance := if request.distance.Some? then request.distance.value else seen.distance;
      if distance > route.length then Err("reviewed distance exceeds route length")
      else Ok(seen.(eventType := request.eventType.value, distance := distance, reviewed := true,
                    reviewNote := request.reviewNote, reviewedBy := Some(actor), reviewedAt := Some(now)))
  }

  /** The update writes only the review columns of the current row. */
  function WithReview(s: Store, id: nat, review: Marker): Store
    requires id in s.markers
  {
    s.(markers := s.markers[id := s.markers[id].(eventType := review.eventType, distance := review.distance, reviewed := true,
                                                 reviewNote := review.reviewNote, reviewedBy := review.reviewedBy,
                                                 reviewedAt := review.reviewedAt)])
  }

  // ----- Steps

  /**
   * Committed transactions. A record may have been read earlier than the transaction that uses it,
   * so `seen` is whatever was read, and routes are whatever they were at that time.
   */
  datatype Step =
    | Import(capture: ImportRequest, owner: Option<Route>, maxPoints: int)
    | Detect(traceId: nat, seen: Trace, route: Route, request: DetectRequest)
    | Review(markerId: nat, seenMarker: Marker, route: Route, review: ReviewRequest, actor: nat, now: int)

  /** The captured part of a trace record. */
  predicate SameCapture(a: Trace, b: Trace) {
    a.raw == b.raw && a.sampleIntervalNS == b.sampleIntervalNS && a.routeId == b.routeId
  }

  ghost predicate Enabled(s: Store, step: Step) {
    match step
    case Import(request, route, maxPoints) => Imported(request, route, maxPoints).Ok?
    case Detect(traceId, seen, route, request) =>
      traceId in s.traces && SameCapture(seen, s.traces[traceId]) && Computed(seen, route, request).Ok?
    case Review(id, seen, route, request, actor, now) =>
      id in s.markers && Reviewed(seen, route, request, actor, now).Ok?
  }

  ghost function Apply(s: Store, step: Step): Store
    requires Enabled(s, step)
  {
    match step
    case Import(request, route, maxPoints) => WithTrace(s, Imported(request, route, maxPoints).value)
    case Detect(traceId, seen, route, request) => WithDetection(s, traceId, Computed(seen, route, request).value)
    case Review(id, seen, route, request, actor, now) => WithReview(s, id, Reviewed(seen, route, request, actor, now).value)
  }

  const EMPTY := Store(map[], map[], 1, 1, map[])

  // ----- Invariant

  /** The processed points and the noise floor can be replayed from the raw points. */
  ghost predicate Replayable(t: Trace) {
    Filtered(t.raw, t.denoiseWindow) == Ok(t.processed) && NoiseFloor(t.processed) == Ok(t.noiseFloor)
  }

  ghost predicate SoundMarker(m: Marker) {
    && ConfidenceBounds(m.confidence)
    && m.insertionLoss == m.algorithmInsertionLoss
    && (!m.reviewed ==> m.eventType == m.algorithmEventType && m.distance == m.algorithmDistance)
  }

  /** `created` are the markers of a detection with the processing parameters stored in the trace. */
  ghost predicate FromDetection(t: Trace, traceId: nat, created: map<nat, Marker>) {
    exists route: Route, first: nat ::
      var d := Detected(t.processed, t.peakThreshold, t.mergeWindow, t.sampleIntervalNS, route.refractiveIndex, route.length);
      d.Ok? && created == Numbered(MarkersOf(traceId, d.value.events), first)
  }

  ghost predicate SameAlgorithm(a: Marker, b: Marker) {
    && a.traceId == b.traceId && a.confidence == b.confidence
    && a.insertionLoss == b.insertionLoss && a.reflectance == b.reflectance
    && a.algorithmEventType == b.algorithmEventType && a.algorithmDistance == b.algorithmDistance
    && a.algorithmInsertionLoss == b.algorithmInsertionLoss
  }

  /** A marker of the last detection is still there, either untouched or reviewed. */
  ghost predicate Accounted(markers: map<nat, Marker>, id: nat, created: Marker) {
    id in markers && SameAlgorithm(markers[id], created) && (markers[id].reviewed || markers[id] == created)
  }

  ghost predicate Inv(s: Store) {
    && (forall t | t in s.traces :: t < s.nextTrace && Replayable(s.traces[t]))
    && (forall id | id in s.markers :: id < s.nextMarker && SoundMarker(s.markers[id]))
    && (forall t | t in s.detected :: t in s.traces && FromDetection(s.traces[t], t, s.detected[t]))
    && (forall t, id | t in s.detected && id in s.detected[t] ::
          s.detected[t][id].traceId == t && Accounted(s.markers, id, s.detected[t][id]))
    && (forall id | id in s.markers && !s.markers[id].reviewed ::
          s.markers[id].traceId in s.detected && id in s.detected[s.markers[id].traceId])
  }

  lemma ImportKeepsInv(s: Store, request: ImportRequest, route: Option<Route>, maxPoints: int)
    requires Inv(s) && Imported(request, route, maxPoints).Ok?
    ensures Inv(WithTrace(s, Imported(request, route, maxPoints).value))
  {
    hide Filtered, NoiseFloor, SampleDistance, FromDetection, Accounted, SoundMarker;
    var trace := Imported(request, route, maxPoints).value;
    assert Replayable(trace);
    hide Imported, Replayable;
    assert s.nextTrace !in s.traces;
  }

  lemma ReviewKeepsInv(s: Store, id: nat, review: Marker)
    requires Inv(s) && id in s.markers
    ensures Inv(WithReview(s, id, review))
  {
    hide FromDetection, Replayable;
  }

  lemma {:induction false} NumberedRows(markers: seq<Marker>, first: nat)
    ensures forall id :: id in Numbered(markers, first) <==> first <= id < first + |markers|
    ensures forall id | id in Numbered(markers, first) :: Numbered(markers, first)[id] == markers[id - first]
    decreases |markers|
  {
    if markers != [] {
      NumberedRows(markers[..|markers| - 1], first);
    }
  }

  lemma CreatedSound(traceId: nat, events: seq<DetectedEvent>, routeLength: real, first: nat)
    requires WellDetected(events, routeLength)
    ensures var created := Numbered(MarkersOf(traceId, events), first);
            forall id | id in created :: first <= id < first + |events|
              && SoundMarker(created[id]) && !created[id].reviewed && created[id].traceId == traceId
  {
    NumberedRows(MarkersOf(traceId, events), first);
    hide Numbered;
  }

  lemma DetectionSound(s: Store, traceId: nat, seen: Trace, route: Route, request: DetectRequest)
    requires traceId in s.traces && SameCapture(seen, s.traces[traceId]) && Computed(seen, route, request).Ok?
    ensures var after := WithDetection(s, traceId, Computed(seen, route, request).value);
            Replayable(after.traces[traceId]) && FromDetection(after.traces[traceId], traceId, after.detected[traceId])
  {
    hide Filtered, NoiseFloor, Detected, MarkersOf, Kept;
    var o := Computed(seen, route, request).value;
    var t := WithDetection(s, traceId, o).traces[traceId];
    assert Detected(t.processed, t.peakThreshold, t.mergeWindow, t.sampleIntervalNS, route.refractiveIndex, route.length)
        == Ok(o.detection);
  }

  /** Replacing the unreviewed markers of one trace by sound ones keeps the markers accounted for. */
  lemma ReplaceKeepsInv(s: Store, traceId: nat, trace: Trace, created: map<nat, Marker>, count: nat, after: Store)
    requires Inv(s) && traceId in s.traces
    requires Replayable(trace) && FromDetection(trace, traceId, created)
    requires forall id | id in created :: s.nextMarker <= id < s.nextMarker + count
               && SoundMarker(created[id]) && !created[id].reviewed && created[id].traceId == traceId
    requires after == s.(traces := s.traces[traceId := trace], markers := Kept(s.markers, traceId) + created,
                         nextMarker := s.nextMarker + count, detected := s.detected[traceId := created])
    ensures Inv(after)
  {
    hide SoundMarker, Replayable, FromDetection, Accounted, Kept;
    ReplaceAccounts(s, traceId, created, after.markers);
    ReplaceKeepsMarkers(s, traceId, created, count, after.markers);
    forall t | t in after.detected ensures t in after.traces && FromDetection(after.traces[t], t, after.detected[t]) {
      assert t != traceId ==> FromDetection(s.traces[t], t, s.detected[t]);
    }
    forall t, id | t in after.detected && id in after.detected[t]
      ensures after.detected[t][id].traceId == t && Accounted(after.markers, id, after.detected[t][id])
    {
      assert t != traceId ==> after.detected[t] == s.detected[t];
    }
  }

  lemma ReplaceKeepsMarkers(s: Store, traceId: nat, created: map<nat, Marker>, count: nat, after: map<nat, Marker>)
    requires Inv(s) && after == Kept(s.markers, traceId) + created
    requires forall id | id in created :: s.nextMarker <= id < s.nextMarker + count
               && SoundMarker(created[id]) && !created[id].reviewed && created[id].traceId == traceId
    ensures forall id | id in after :: id < s.nextMarker + count && SoundMarker(after[id])
    ensures forall id | id in after && !after[id].reviewed ::
              if id in created then after[id] == created[id]
              else after[id].traceId != traceId && after[id].traceId in s.detected && id in s.detected[after[id].traceId]
  {
    hide SoundMarker, Replayable, FromDetection, Accounted;
  }

  lemma ReplaceAccounts(s: Store, traceId: nat, created: map<nat, Marker>, after: map<nat, Marker>)
    requires Inv(s)
    requires forall id | id in created :: s.nextMarker <= id
    requires after == Kept(s.markers, traceId) + created
    ensures forall id | id in created :: Accounted(after, id, created[id])
    ensures forall t, id | t in s.detected && t != traceId && id in s.detected[t] :: Accounted(after, id, s.detected[t][id])
  {
    hide SoundMarker, Replayable, FromDetection;
    forall t, id | t in s.detected && t != traceId && id in s.detected[t]
      ensures Accounted(after, id, s.detected[t][id])
    {
      assert Accounted(s.markers, id, s.detected[t][id]);
    }
  }

  lemma DetectKeepsInv(s: Store, traceId: nat, seen: Trace, route: Route, request: DetectRequest)
    requires Inv(s)
    requires traceId in s.traces && SameCapture(seen, s.traces[traceId]) && Computed(seen, route, request).Ok?
    ensures Inv(WithDetection(s, traceId, Computed(seen, route, request).value))
  {
    hide Filtered, NoiseFloor, Detected, MarkersOf, Inv;
    var o := Computed(seen, route, request).value;
    DetectionSound(s, traceId, seen, route, request);
    DetectedWell(o.processed, o.threshold, o.merge, seen.sampleIntervalNS, route.refractiveIndex, route.length);
    CreatedSound(traceId, o.detection.events, route.length, s.nextMarker);
    hide Computed, FromDetection, Replayable, WellDetected, SoundMarker;
    var after := WithDetection(s, traceId, o);
    assert after.detected[traceId] == Numbered(MarkersOf(traceId, o.detection.events), s.nextMarker);
    hide Numbered;
    ReplaceKeepsInv(s, traceId, after.traces[traceId], after.detected[traceId], |o.detection.events|, after);
  }

  lemma ApplyKeepsInv(s: Store, step: Step)
    requires Inv(s) && Enabled(s, step)
    ensures Inv(Apply(s, step))
  {
    hide Inv, Imported, Computed, Reviewed, WithTrace, WithDetection, WithReview;
    match step
    case Import(request, route, maxPoints) => ImportKeepsInv(s, request, route, maxPoints);
    case Detect(traceId, seen, route, request) => DetectKeepsInv(s, traceId, seen, route, request);
    case Review(id, seen, route, request, actor, now) => ReviewKeepsInv(s, id, Reviewed(seen, route, request, actor, now).value);
  }

  // ----- Runs

  ghost predicate StepTaken(stores: seq<Store>, steps: seq<Step>, i: nat)
    requires i < |steps| && i + 1 < |stores|
  {
    Enabled(stores[i], steps[i]) && stores[i + 1] == Apply(stores[i], steps[i])
  }

  ghost predicate IsRun(stores: seq<Store>, steps: seq<Step>) {
    && |stores| == |steps| + 1 && stores[0] == EMPTY
    && forall i: nat | i < |steps| :: StepTaken(stores, steps, i)
  }

  /** Every reachable store is replayable, with sound markers that account for the last detections. */
  lemma {:induction false} ReachableInv(stores: seq<Store>, steps: seq<Step>, i: nat)
    requires IsRun(stores, steps) && i < |stores|
    ensures Inv(stores[i])
  {
    hide Inv, Enabled, Apply;
    if i == 0 {
      EmptyInv();
    } else {
      ReachableInv(stores, steps, i - 1);
      assert StepTaken(stores, steps, i - 1);
      ApplyKeepsInv(stores[i - 1], steps[i - 1]);
    }
  }

  lemma EmptyInv()
    ensures Inv(EMPTY)
  {}

  /**
   * The unreviewed markers of a trace are exactly those of its last detection, as computed from
   * the stored parameters, less those reviewed since; none of that detection is lost.
   */
  lemma UnreviewedAreLastDetection(s: Store, traceId: nat, id: nat)
    requires Inv(s)
    ensures (id in s.markers && s.markers[id].traceId == traceId && !s.markers[id].reviewed)
       <==> (id in s.markers && traceId in s.detected && id in s.detected[traceId]
             && !s.markers[id].reviewed && s.markers[id] == s.detected[traceId][id])
    ensures traceId in s.detected ==>
              traceId in s.traces && FromDetection(s.traces[traceId], traceId, s.detected[traceId])
    ensures traceId in s.detected && id in s.detected[traceId] ==> Accounted(s.markers, id, s.detected[traceId][id])
  {
    hide FromDetection, Replayable, SoundMarker;
    if traceId in s.detected && id in s.detected[traceId] {
      assert Accounted(s.markers, id, s.detected[traceId][id]);
    }
  }

  /** One step keeps captures, keeps reviewed markers and never changes what the algorithm found. */
  ghost predicate Preserves(s: Store, after: Store) {
    && s.nextMarker <= after.nextMarker
    && (forall t | t in s.traces :: t in after.traces && SameCapture(s.traces[t], after.traces[t]))
    && (forall id | id in s.markers && id in after.markers :: SameAlgorithm(s.markers[id], after.markers[id]))
    && (forall id | id in s.markers && s.markers[id].reviewed :: id in after.markers && after.markers[id].reviewed)
    && (forall id | id in after.markers && id !in s.markers :: s.nextMarker <= id)
  }

  lemma ApplyPreserves(s: Store, step: Step)
    requires Inv(s) && Enabled(s, step)
    ensures Preserves(s, Apply(s, step))
  {
    hide FromDetection, Replayable, SoundMarker, Accounted, Imported, Computed, Reviewed, MarkersOf, Numbered;
    if step.Detect? {
      var o := Computed(step.seen, step.route, step.request).value;
      NumberedRows(MarkersOf(step.traceId, o.detection.events), s.nextMarker);
    }
  }

  lemma PreservesTransitive(a: Store, b: Store, c: Store)
    requires Preserves(a, b) && Preserves(b, c)
    requires forall id | id in a.markers :: id < a.nextMarker
    ensures Preserves(a, c)
  {}

  lemma PreservesItself(s: Store)
    ensures Preserves(s, s)
  {}

  lemma PreservesOn(a: Store, b: Store, c: Store)
    requires Inv(a) && Preserves(a, b) && Preserves(b, c)
    ensures Preserves(a, c)
  {
    assert forall id | id in a.markers :: id < a.nextMarker;
    hide Inv;
    PreservesTransitive(a, b, c);
  }

  /**
   * Over any stretch of a run the captured samples stay as they were, reviewed markers survive
   * every later detection, and the algorithm's values of a marker never change.
   */
  lemma {:induction false} RunPreserves(stores: seq<Store>, steps: seq<Step>, i: nat, j: nat)
    requires IsRun(stores, steps) && i <= j < |stores|
    ensures Preserves(stores[i], stores[j])
  {
    hide Inv, Preserves, Enabled, Apply;
    if i == j {
      PreservesItself(stores[i]);
    } else {
      RunPreserves(stores, steps, i, j - 1);
      ReachableInv(stores, steps, i);
      ReachableInv(stores, steps, j - 1);
      assert StepTaken(stores, steps, j - 1);
      ApplyPreserves(stores[j - 1], steps[j - 1]);
      PreservesOn(stores[i], stores[j - 1], stores[j]);
    }
  }

  // ----- Event lists

  function ToComparable(id: nat, m: Marker): ComparableEvent {
    ComparableEvent(id, m.distance, m.insertionLoss, m.confidence)
  }

  /** The markers of a trace, each once. */
  ghost predicate Lists(markers: map<nat, Marker>, traceId: nat, events: seq<ComparableEvent>) {
    && (forall i | 0 <= i < |events| ::
          && events[i].id in markers && markers[events[i].id].traceId == traceId
          && events[i] == ToComparable(events[i].id, markers[events[i].id]))
    && (forall i, j | 0 <= i < j < |events| :: events[i].id != events[j].id)
    && (forall id | id in markers && markers[id].traceId == traceId :: exists i :: 0 <= i < |events| && events[i].id == id)
  }

  /** The markers of a trace, nearest first; ties may come in any order. */
  ghost predicate IsListing(markers: map<nat, Marker>, traceId: nat, events: seq<ComparableEvent>) {
    SortedBy(NearerFirst, events) && Lists(markers, traceId, events)
  }

  /** Events listed from a reachable store have confidence 0.6 to 0.99. */
  lemma ListingConfident(s: Store, traceId: nat, events: seq<ComparableEvent>)
    requires Inv(s) && IsListing(s.markers, traceId, events)
    ensures Confident(events)
  {
    hide FromDetection, Replayable, Accounted;
    forall i | 0 <= i < |events| ensures ConfidenceBounds(events[i].confidence) {
      assert SoundMarker(s.markers[events[i].id]);
    }
  }
}
