/** When the stored events of a trace are separated, so that comparing them is exact. */
module StoredEvents {
  import opened Basics
  import opened Comparison
  import opened Denoise
  import opened Detection
  import opened Distance
  import opened Matching
  import opened Sorting
  import opened TraceStore

  /** The refractive index with the shortest distances that detection accepts. */
  const MAX_INDEX := 1.7

  /** The merge window stored with a trace spans `gap` and a centimetre of rounding, on whatever fibre. */
  predicate MergesBeyond(t: Trace, gap: real) {
    t.sampleIntervalNS > 0.0 && (t.mergeWindow + 1) as real * RawDistance(1, t.sampleIntervalNS, MAX_INDEX) > gap + 0.01
  }

  /** All markers of the trace come from its last detection. */
  ghost predicate Unreviewed(s: Store, traceId: nat) {
    forall id | id in s.markers && s.markers[id].traceId == traceId :: !s.markers[id].reviewed
  }

  lemma QuotientFalls(a: real, d: real, e: real)
    requires a >= 0.0 && 0.0 < d <= e
    ensures a / e <= a / d
  {
    assert a / e * e == a && a / d * d == a && a / d >= 0.0;
    if a / e > a / d {
      GreaterProduct(a / e, a / d, e, d);
      assert false;
    }
  }

  lemma GreaterProduct(x: real, y: real, e: real, d: real)
    requires x > y >= 0.0 && 0.0 < d <= e
    ensures x * e > y * d
  {}

  lemma ShortestOfAll(sampleIntervalNS: real, refractiveIndex: real)
    requires ValidSampling(sampleIntervalNS, refractiveIndex)
    ensures RawDistance(1, sampleIntervalNS, MAX_INDEX) <= RawDistance(1, sampleIntervalNS, refractiveIndex)
  {
    QuotientFalls(VACUUM_SPEED_M_PER_SECOND * (1.0 * sampleIntervalNS * SECONDS_PER_NANOSECOND),
                  2.0 * refractiveIndex, 2.0 * MAX_INDEX);
  }

  lemma ProductGrows(n: real, a: real, b: real)
    requires n >= 0.0 && a <= b
    ensures n * a <= n * b
  {}

  /** The events of a detection whose merge window spans `gap`, whatever the route was. */
  lemma DetectionSpreads(t: Trace, route: Route, gap: real)
    requires Detected(t.processed, t.peakThreshold, t.mergeWindow, t.sampleIntervalNS, route.refractiveIndex, route.length).Ok?
    requires MergesBeyond(t, gap)
    ensures var events := Detected(t.processed, t.peakThreshold, t.mergeWindow, t.sampleIntervalNS, route.refractiveIndex,
                                   route.length).value.events;
            forall i, j | 0 <= i < j < |events| :: events[j].distance - events[i].distance > gap
  {
    hide Detected, RawDistance;
    NeedsValidSampling(t, route);
    if ValidSampling(t.sampleIntervalNS, route.refractiveIndex) {
      ShortestOfAll(t.sampleIntervalNS, route.refractiveIndex);
      ProductGrows((t.mergeWindow + 1) as real, RawDistance(1, t.sampleIntervalNS, MAX_INDEX),
                   RawDistance(1, t.sampleIntervalNS, route.refractiveIndex));
      DetectedSpread(t.processed, t.peakThreshold, t.mergeWindow, t.sampleIntervalNS, route.refractiveIndex, route.length, gap);
    }
  }

  lemma NeedsValidSampling(t: Trace, route: Route)
    requires Detected(t.processed, t.peakThreshold, t.mergeWindow, t.sampleIntervalNS, route.refractiveIndex, route.length).Ok?
    ensures t.mergeWindow >= 1
    ensures ValidSampling(t.sampleIntervalNS, route.refractiveIndex)
         || Detected(t.processed, t.peakThreshold, t.mergeWindow, t.sampleIntervalNS, route.refractiveIndex,
                     route.length).value.events == []
  {
    hide Median, Located, MergedPeaks;
  }

  /** Two markers of the last detection are apart. */
  lemma CreatedApart(t: Trace, traceId: nat, created: map<nat, Marker>, gap: real, a: nat, b: nat)
    requires FromDetection(t, traceId, created) && MergesBeyond(t, gap) && gap >= 0.0
    requires a in created && b in created && a < b
    ensures created[b].distance - created[a].distance > gap
  {
    hide Detected, MergesBeyond;
    var route: Route, first: nat :|
      var d := Detected(t.processed, t.peakThreshold, t.mergeWindow, t.sampleIntervalNS, route.refractiveIndex, route.length);
      d.Ok? && created == Numbered(MarkersOf(traceId, d.value.events), first);
    var events := Detected(t.processed, t.peakThreshold, t.mergeWindow, t.sampleIntervalNS, route.refractiveIndex,
                           route.length).value.events;
    DetectionSpreads(t, route, gap);
    NumberedRows(MarkersOf(traceId, events), first);
    hide Numbered;
    assert created[a] == MarkerOf(traceId, events[a - first]) && created[b] == MarkerOf(traceId, events[b - first]);
  }

  /** No reviewed marker of the trace lies within `gap` of another marker of the trace. */
  ghost predicate ReviewsClear(s: Store, traceId: nat, gap: real) {
    forall a, b | a in s.markers && b in s.markers && a != b
               && s.markers[a].traceId == traceId && s.markers[b].traceId == traceId && s.markers[a].reviewed ::
      Abs(s.markers[a].distance - s.markers[b].distance) > gap
  }

  lemma UnreviewedApart(s: Store, traceId: nat, gap: real, a: nat, b: nat)
    requires Inv(s) && traceId in s.traces && gap >= 0.0 && MergesBeyond(s.traces[traceId], gap)
    requires a in s.markers && b in s.markers && a != b
    requires s.markers[a].traceId == traceId && s.markers[b].traceId == traceId
    requires !s.markers[a].reviewed && !s.markers[b].reviewed
    ensures Abs(s.markers[a].distance - s.markers[b].distance) > gap
  {
    hide Inv, MergesBeyond, FromDetection;
    UnreviewedAreLastDetection(s, traceId, a);
    UnreviewedAreLastDetection(s, traceId, b);
    if a < b {
      CreatedApart(s.traces[traceId], traceId, s.detected[traceId], gap, a, b);
    } else {
      CreatedApart(s.traces[traceId], traceId, s.detected[traceId], gap, b, a);
    }
  }

  /** Any two markers of the trace, as stored. */
  ghost predicate MarkersApart(s: Store, traceId: nat, gap: real) {
    forall a, b | a in s.markers && b in s.markers && a != b && s.markers[a].traceId == traceId && s.markers[b].traceId == traceId ::
      Abs(s.markers[a].distance - s.markers[b].distance) > gap
  }

  lemma ListingShowsMarkers(s: Store, traceId: nat, events: seq<ComparableEvent>, gap: real)
    requires IsListing(s.markers, traceId, events)
    ensures Separated(events, gap) <==> MarkersApart(s, traceId, gap)
  {
    hide SortedBy;
    if Separated(events, gap) {
      forall a, b | a in s.markers && b in s.markers && a != b && s.markers[a].traceId == traceId && s.markers[b].traceId == traceId
        ensures Abs(s.markers[a].distance - s.markers[b].distance) > gap
      {
        var i :| 0 <= i < |events| && events[i].id == a;
        var j :| 0 <= j < |events| && events[j].id == b;
        GapSymmetric(events[i], events[j]);
        assert Gap(events[i], events[j]) > gap;
      }
    }
    if MarkersApart(s, traceId, gap) {
      forall i, j | 0 <= i < j < |events| ensures Gap(events[i], events[j]) > gap {
        assert events[i].id in s.markers && events[j].id in s.markers && events[i].id != events[j].id;
      }
    }
  }

  /**
   * In a reachable store the listing of a trace whose merge window spans `gap` is separated by it
   * exactly when no reviewed marker lies within `gap` of another marker.
   */
  lemma ListingIsSeparatedIff(s: Store, traceId: nat, events: seq<ComparableEvent>, gap: real)
    requires Inv(s) && traceId in s.traces && IsListing(s.markers, traceId, events)
    requires gap >= 0.0 && MergesBeyond(s.traces[traceId], gap)
    ensures Separated(events, gap) <==> ReviewsClear(s, traceId, gap)
  {
    hide Inv, IsListing, MergesBeyond, Separated;
    ListingShowsMarkers(s, traceId, events, gap);
    if ReviewsClear(s, traceId, gap) {
      forall a, b | a in s.markers && b in s.markers && a != b && s.markers[a].traceId == traceId && s.markers[b].traceId == traceId
        ensures Abs(s.markers[a].distance - s.markers[b].distance) > gap
      {
        if s.markers[b].reviewed {
          assert Abs(s.markers[b].distance - s.markers[a].distance) > gap;
        } else if !s.markers[a].reviewed {
          UnreviewedApart(s, traceId, gap, a, b);
        }
      }
    }
  }

  /** So a listing without reviewed markers is separated by the merge window. */
  lemma ListingIsSeparated(s: Store, traceId: nat, events: seq<ComparableEvent>, gap: real)
    requires Inv(s) && traceId in s.traces && Unreviewed(s, traceId) && IsListing(s.markers, traceId, events)
    requires gap >= 0.0 && MergesBeyond(s.traces[traceId], gap)
    ensures Separated(events, gap)
  {
    hide Inv, IsListing, MergesBeyond, Separated;
    ListingIsSeparatedIff(s, traceId, events, gap);
  }

  /** A listing of a trace that is fit for exact comparison. */
  ghost predicate ClearListing(s: Store, traceId: nat, events: seq<ComparableEvent>, gap: real) {
    && Inv(s) && traceId in s.traces && IsListing(s.markers, traceId, events)
    && MergesBeyond(s.traces[traceId], gap) && ReviewsClear(s, traceId, gap)
  }

  lemma ClearIsSeparated(s: Store, traceId: nat, events: seq<ComparableEvent>, gap: real)
    requires ClearListing(s, traceId, events, gap) && gap >= 0.0
    ensures Separated(events, gap)
  {
    hide Inv, IsListing, MergesBeyond, Separated, ReviewsClear;
    ListingIsSeparatedIff(s, traceId, events, gap);
  }

  /**
   * Two such listings, read at different times, are matched exactly: each event with the one event of
   * the other trace within tolerance, if there is one.
   */
  lemma StoredComparisonIsExact(s: Store, baselineTrace: nat, baseline: seq<ComparableEvent>,
                                t: Store, currentTrace: nat, current: seq<ComparableEvent>, tolerance: real)
    requires tolerance > 0.0
    requires ClearListing(s, baselineTrace, baseline, 2.0 * tolerance) && ClearListing(t, currentTrace, current, 2.0 * tolerance)
    ensures forall k: nat, j: nat | k < |baseline| && j < |current| ::
              Match(baseline, current, tolerance)[k] == j <==> Gap(baseline[k], current[j]) <= tolerance
  {
    hide ClearListing, Separated, Match, Gap;
    ClearIsSeparated(s, baselineTrace, baseline, 2.0 * tolerance);
    ClearIsSeparated(t, currentTrace, current, 2.0 * tolerance);
    forall k: nat, j: nat | k < |baseline| && j < |current|
      ensures Match(baseline, current, tolerance)[k] == j <==> Gap(baseline[k], current[j]) <= tolerance
    {
      SeparatedMatch(baseline, current, tolerance, k, j);
    }
  }

  // ----- Reviewing before detecting again

  const REPEAT := DetectRequest(0, 0.0, 0)

  /** Detecting again with the stored parameters, on the route of the last detection, finds the same events. */
  lemma DetectedAgain(s: Store, traceId: nat) returns (route: Route, o: Outcome, first: nat)
    requires Inv(s) && traceId in s.detected
    ensures traceId in s.traces && Computed(s.traces[traceId], route, REPEAT) == Ok(o)
    ensures s.detected[traceId] == Numbered(MarkersOf(traceId, o.detection.events), first)
    ensures WellDetected(o.detection.events, route.length)
  {
    hide Detected, NoiseFloor, Filtered, Numbered, MarkersOf, Computed, WellDetected;
    var t := s.traces[traceId];
    route, first, o := RepeatedOutcome(t, traceId, s.detected[traceId]);
  }

  lemma RepeatedOutcome(t: Trace, traceId: nat, created: map<nat, Marker>) returns (route: Route, first: nat, o: Outcome)
    requires Replayable(t) && FromDetection(t, traceId, created)
    ensures Computed(t, route, REPEAT) == Ok(o)
    ensures created == Numbered(MarkersOf(traceId, o.detection.events), first)
    ensures WellDetected(o.detection.events, route.length)
  {
    hide Detected, NoiseFloor, Numbered, MarkersOf, WellDetected;
    route, first :|
      var d := Detected(t.processed, t.peakThreshold, t.mergeWindow, t.sampleIntervalNS, route.refractiveIndex, route.length);
      d.Ok? && created == Numbered(MarkersOf(traceId, d.value.events), first);
    StoredParameters(t, route);
    hide Filtered;
    DetectedWell(t.processed, t.peakThreshold, t.mergeWindow, t.sampleIntervalNS, route.refractiveIndex, route.length);
    var d := Detected(t.processed, t.peakThreshold, t.mergeWindow, t.sampleIntervalNS, route.refractiveIndex, route.length);
    o := Outcome(t.denoiseWindow, t.peakThreshold, t.mergeWindow, t.processed, t.noiseFloor, d.value);
  }

  lemma StoredParameters(t: Trace, route: Route)
    requires Replayable(t)
    requires Detected(t.processed, t.peakThreshold, t.mergeWindow, t.sampleIntervalNS, route.refractiveIndex, route.length).Ok?
    ensures t.denoiseWindow >= 1 && t.peakThreshold > 0.0 && t.mergeWindow >= 1
  {
    hide Median, Located, MergedPeaks;
  }

  /**
   * A review keeps its marker through the next detection, which finds the peak again: from every
   * reachable store, reviewing any unreviewed marker where it is and detecting again with the stored
   * parameters lists one distance twice, and the events are no longer separated.
   */
  lemma ReviewedPeakIsListedTwice(s: Store, id: nat, actor: nat, now: int) returns (review: Step, detect: Step)
    requires Inv(s) && id in s.markers && !s.markers[id].reviewed
    ensures review.Review? && review.markerId == id && review.review.distance.None? && detect.Detect? && detect.request == REPEAT
    ensures Enabled(s, review) && Enabled(Apply(s, review), detect)
    ensures var after, m := Apply(Apply(s, review), detect), s.markers[id];
            && (exists again :: again != id && again in after.markers && id in after.markers
                  && after.markers[again].traceId == after.markers[id].traceId == m.traceId
                  && after.markers[again].distance == after.markers[id].distance == m.distance)
            && (forall events, gap :: gap >= 0.0 && IsListing(after.markers, m.traceId, events) ==> !Separated(events, gap))
  {
    hide Inv, Computed, Numbered, MarkersOf, IsListing, FromDetection, Apply, Enabled, WellDetected;
    var m := s.markers[id];
    DetectedMarker(s, id);
    var route, o, first := DetectedAgain(s, m.traceId);
    var again := CreatedTwice(s, id, o, first, route.length);
    review := Review(id, m, route, ReviewRequest(Some(m.eventType), None, ""), actor, now);
    detect := Detect(m.traceId, s.traces[m.traceId], route, REPEAT);
    ReviewInPlace(s, id, route, actor, now);
    DetectAfterReview(s, id, Apply(s, review), route, o);
    var after := Apply(Apply(s, review), detect);
    forall events, gap | gap >= 0.0 && IsListing(after.markers, m.traceId, events) ensures !Separated(events, gap) {
      ListedTwice(after.markers, m.traceId, events, id, again, gap);
    }
  }

  lemma DetectedMarker(s: Store, id: nat)
    requires Inv(s) && id in s.markers && !s.markers[id].reviewed
    ensures s.markers[id].traceId in s.detected && id in s.detected[s.markers[id].traceId]
    ensures s.detected[s.markers[id].traceId][id] == s.markers[id]
    ensures s.markers[id].traceId in s.traces && id < s.nextMarker
  {
    UnreviewedAreLastDetection(s, s.markers[id].traceId, id);
    hide FromDetection;
  }

  /** The marker that a repeated detection writes for the peak of an earlier one. */
  lemma CreatedTwice(s: Store, id: nat, o: Outcome, first: nat, routeLength: real) returns (again: nat)
    requires id in s.markers && id < s.nextMarker && WellDetected(o.detection.events, routeLength)
    requires var m := s.markers[id]; var created := Numbered(MarkersOf(m.traceId, o.detection.events), first);
             id in created && created[id] == m
    ensures var m := s.markers[id]; var created := Numbered(MarkersOf(m.traceId, o.detection.events), s.nextMarker);
            again != id && again in created && created[again] == m
    ensures s.markers[id].distance <= routeLength
    ensures forall k | k in Numbered(MarkersOf(s.markers[id].traceId, o.detection.events), s.nextMarker) :: k >= s.nextMarker
  {
    var rows := MarkersOf(s.markers[id].traceId, o.detection.events);
    NumberedRows(rows, first);
    NumberedRows(rows, s.nextMarker);
    hide Numbered;
    again := s.nextMarker + (id - first);
    assert rows[id - first] == MarkerOf(s.markers[id].traceId, o.detection.events[id - first]);
  }

  lemma ReviewInPlace(s: Store, id: nat, route: Route, actor: nat, now: int)
    requires id in s.markers && s.markers[id].distance <= route.length
    ensures var m := s.markers[id];
            var review := Review(id, m, route, ReviewRequest(Some(m.eventType), None, ""), actor, now);
            Enabled(s, review) && var after := Apply(s, review);
            && id in after.markers && after.markers[id].reviewed
            && after.markers[id].distance == m.distance && after.markers[id].traceId == m.traceId
            && after.traces == s.traces && after.nextMarker == s.nextMarker
  {}

  lemma DetectAfterReview(s: Store, id: nat, reviewed: Store, route: Route, o: Outcome)
    requires id in s.markers && s.markers[id].traceId in s.traces && reviewed.traces == s.traces
    requires id in reviewed.markers && reviewed.markers[id].reviewed && reviewed.nextMarker == s.nextMarker
    requires Computed(s.traces[s.markers[id].traceId], route, REPEAT) == Ok(o)
    requires id !in Numbered(MarkersOf(s.markers[id].traceId, o.detection.events), s.nextMarker)
    ensures var t := s.markers[id].traceId;
            var detect := Detect(t, s.traces[t], route, REPEAT);
            Enabled(reviewed, detect) && var after := Apply(reviewed, detect);
            var created := Numbered(MarkersOf(t, o.detection.events), s.nextMarker);
            && id in after.markers && after.markers[id] == reviewed.markers[id]
            && forall k | k in created :: k in after.markers && after.markers[k] == created[k]
  {
    hide Computed, Numbered, MarkersOf;
  }

  lemma ListedTwice(markers: map<nat, Marker>, traceId: nat, events: seq<ComparableEvent>, a: nat, b: nat, gap: real)
    requires IsListing(markers, traceId, events) && a in markers && b in markers && a != b
    requires markers[a].traceId == markers[b].traceId == traceId && markers[a].distance == markers[b].distance && gap >= 0.0
    ensures !Separated(events, gap)
  {
    hide SortedBy;
    var i :| 0 <= i < |events| && events[i].id == a;
    var j :| 0 <= j < |events| && events[j].id == b;
    assert events[i].distance == events[j].distance;
    assert Gap(events[i], events[j]) == 0.0 == Gap(events[j], events[i]);
  }
}
