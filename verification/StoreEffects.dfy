/** What imports, detections and reviews compute and write, field by field. */
module StoreEffects {
  import opened Basics
  import opened Comparison
  import opened Denoise
  import opened Detection
  import opened Distance
  import opened Rounding
  import opened Sorting
  import opened TraceStore

  /** One processing parameter of a request: its own value, or what stands in for zero. */
  predicate Given(x: int, requested: int, otherwise: int) {
    x == if requested != 0 then requested else otherwise
  }

  predicate GivenReal(x: real, requested: real, otherwise: real) {
    x == if requested != 0.0 then requested else otherwise
  }

  /** Which captures are imported: in range, long enough, and reaching a twentieth of an existing route. */
  lemma ImportAccepts(request: ImportRequest, route: Option<Route>, maxPoints: int)
    ensures Imported(request, route, maxPoints).Ok? <==>
              && 16 <= |request.points| <= maxPoints
              && (forall i | 0 <= i < |request.points| :: -200.0 <= request.points[i] <= 100.0)
              && (request.denoiseWindow == 0 || 1 <= request.denoiseWindow <= 31)
              && route.Some? && request.sampleIntervalNS > 0.0 && 1.3 <= route.value.refractiveIndex <= 1.7
              && 20.0 * DistanceAt(|request.points| - 1, request.sampleIntervalNS, route.value.refractiveIndex)
                 >= route.value.length
  {
    FilteredAccepts(request.points, OrElse(request.denoiseWindow, 5));
    hide Filtered, Median, RoundCenti, RawDistance;
  }

  /** What an import stores: the capture as it came, the parameters or their defaults, and what follows from them. */
  lemma ImportStores(request: ImportRequest, route: Option<Route>, maxPoints: int)
    requires Imported(request, route, maxPoints).Ok?
    ensures var t := Imported(request, route, maxPoints).value;
            && t.routeId == request.routeId && t.sampleIntervalNS == request.sampleIntervalNS && t.raw == request.points
            && Given(t.denoiseWindow, request.denoiseWindow, 5)
            && GivenReal(t.peakThreshold, request.peakThreshold, 0.8)
            && Given(t.mergeWindow, request.mergeWindow, 3)
            && Filtered(request.points, t.denoiseWindow) == Ok(t.processed)
            && NoiseFloor(t.processed) == Ok(t.noiseFloor)
  {
    hide Filtered, NoiseFloor, SampleDistance, InRange;
  }

  /** The new trace gets the next identifier; nothing else changes. */
  lemma ImportWrites(s: Store, trace: Trace)
    ensures var after := WithTrace(s, trace);
            && after.traces == s.traces[s.nextTrace := trace] && after.nextTrace == s.nextTrace + 1
            && after.markers == s.markers && after.nextMarker == s.nextMarker
  {}

  /** What a detection computes: with the request's parameters, else the stored ones, else the defaults, from the raw samples. */
  lemma DetectionComputes(seen: Trace, route: Route, request: DetectRequest)
    requires Computed(seen, route, request).Ok?
    ensures var o := Computed(seen, route, request).value;
            && Given(o.window, request.denoiseWindow, if seen.denoiseWindow != 0 then seen.denoiseWindow else 5)
            && GivenReal(o.threshold, request.peakThreshold, if seen.peakThreshold != 0.0 then seen.peakThreshold else 0.8)
            && Given(o.merge, request.mergeWindow, if seen.mergeWindow != 0 then seen.mergeWindow else 3)
            && Filtered(seen.raw, o.window) == Ok(o.processed)
            && NoiseFloor(o.processed) == Ok(o.noise)
            && Detected(o.processed, o.threshold, o.merge, seen.sampleIntervalNS, route.refractiveIndex, route.length)
               == Ok(o.detection)
  {
    hide Filtered, NoiseFloor, Detected;
  }

  /** A marker for an event, with the algorithm's own values beside those that a review may change. */
  predicate Marks(m: Marker, traceId: nat, e: DetectedEvent) {
    && m.traceId == traceId && !m.reviewed && m.reviewNote == "" && m.reviewedBy == None && m.reviewedAt == None
    && m.distance == e.distance && m.algorithmDistance == e.distance
    && m.eventType == e.eventType && m.algorithmEventType == e.eventType
    && m.insertionLoss == e.insertionLoss && m.algorithmInsertionLoss == e.insertionLoss
    && m.reflectance == e.reflectance && m.confidence == e.confidence
  }

  /** What a detection writes into the traces: the processing fields of one, and not its capture. */
  lemma DetectionWritesTrace(s: Store, traceId: nat, o: Outcome)
    requires traceId in s.traces
    ensures var after, t := WithDetection(s, traceId, o), s.traces[traceId];
            && after.traces == s.traces[traceId := Trace(t.routeId, t.sampleIntervalNS, t.raw, o.processed, o.noise,
                                                         o.window, o.threshold, o.merge)]
            && after.nextTrace == s.nextTrace && after.nextMarker == s.nextMarker + |o.detection.events|
  {
    hide Numbered, Kept, MarkersOf;
  }

  /** Its markers: the detected events in order, under new identifiers. */
  lemma DetectionWritesMarkers(s: Store, traceId: nat, o: Outcome, k: nat)
    requires traceId in s.traces && k < |o.detection.events|
    ensures var after := WithDetection(s, traceId, o);
            s.nextMarker + k in after.markers && Marks(after.markers[s.nextMarker + k], traceId, o.detection.events[k])
  {
    var rows := MarkersOf(traceId, o.detection.events);
    NumberedRows(rows, s.nextMarker);
    hide Numbered, Kept;
    assert Numbered(rows, s.nextMarker)[s.nextMarker + k] == rows[k] == MarkerOf(traceId, o.detection.events[k]);
  }

  /** And of the markers before, exactly the unreviewed ones of the trace are gone; the others are as they were. */
  lemma DetectionReplaces(s: Store, traceId: nat, o: Outcome, id: nat)
    requires Inv(s) && traceId in s.traces
    ensures var after := WithDetection(s, traceId, o);
            && (id in s.markers ==>
                  if s.markers[id].traceId == traceId && !s.markers[id].reviewed then id !in after.markers
                  else id in after.markers && after.markers[id] == s.markers[id])
            && (id in after.markers && id !in s.markers ==> s.nextMarker <= id < s.nextMarker + |o.detection.events|)
  {
    hide Inv, Numbered, MarkersOf, Kept;
    OldIds(s);
    var created := Numbered(MarkersOf(traceId, o.detection.events), s.nextMarker);
    NumberedRows(MarkersOf(traceId, o.detection.events), s.nextMarker);
    assert id in created <==> s.nextMarker <= id < s.nextMarker + |o.detection.events|;
    KeptPlus(s.markers, traceId, created, id);
    assert WithDetection(s, traceId, o).markers == Kept(s.markers, traceId) + created;
  }

  lemma KeptPlus(markers: map<nat, Marker>, traceId: nat, created: map<nat, Marker>, id: nat)
    requires id in markers ==> id !in created
    ensures var after := Kept(markers, traceId) + created;
            && (id in markers ==>
                  if markers[id].traceId == traceId && !markers[id].reviewed then id !in after
                  else id in after && after[id] == markers[id])
            && (id in after && id !in markers ==> id in created)
  {}

  lemma OldIds(s: Store)
    requires Inv(s)
    ensures forall id | id in s.markers :: id < s.nextMarker
  {
    hide SoundMarker, FromDetection, Replayable, Accounted;
  }

  /** Which reviews are accepted, and what they say: the requested type, and the requested distance if there is one. */
  lemma ReviewMeans(seen: Marker, route: Route, request: ReviewRequest, actor: nat, now: int)
    ensures var distance := if request.distance.Some? then request.distance.value else seen.distance;
            && (Reviewed(seen, route, request, actor, now).Ok? <==> request.eventType.Some? && distance <= route.length)
            && (Reviewed(seen, route, request, actor, now).Ok? ==>
                  Reviewed(seen, route, request, actor, now).value
                  == Marker(seen.traceId, distance, request.eventType.value, seen.insertionLoss, seen.reflectance,
                            seen.confidence, seen.algorithmEventType, seen.algorithmDistance, seen.algorithmInsertionLoss,
                            true, request.reviewNote, Some(actor), Some(now)))
  {}

  /** A review writes the review columns of its marker; what the algorithm found and all other markers stay. */
  lemma ReviewWrites(s: Store, id: nat, review: Marker)
    requires id in s.markers
    ensures var after, m := WithReview(s, id, review), s.markers[id];
            && after == s.(markers := s.markers[id := after.markers[id]])
            && after.markers[id]
               == Marker(m.traceId, review.distance, review.eventType, m.insertionLoss, m.reflectance, m.confidence,
                         m.algorithmEventType, m.algorithmDistance, m.algorithmInsertionLoss,
                         true, review.reviewNote, review.reviewedBy, review.reviewedAt)
  {}

  /** What is compared of a marker: its distance as reviewed, its loss and its confidence. */
  lemma ListingCarries(markers: map<nat, Marker>, traceId: nat, events: seq<ComparableEvent>, i: nat)
    requires IsListing(markers, traceId, events) && i < |events|
    ensures var e := events[i];
            && e.id in markers && markers[e.id].traceId == traceId
            && e.distance == markers[e.id].distance && e.insertionLoss == markers[e.id].insertionLoss
            && e.confidence == markers[e.id].confidence
            && (i > 0 ==> events[i - 1].distance <= e.distance)
  {
    assert i > 0 ==> NearerFirst(events[i - 1], events[i]);
  }
}
