/** The services that import traces, detect events and record reviews, over the shared tables. */
module TraceService {
  import Algorithm = Detection
  import opened Audit
  import opened Basics
  import opened Comparison
  import opened Denoise
  import opened Detection
  import opened Distance
  import opened Sorting
  import opened TraceStore

  datatype Actor = Actor(id: nat, requestId: string)

  class TraceDatabase {
    var routes: map<nat, Route>
    var traces: map<nat, Trace>
    var markers: map<nat, Marker>
    var nextTrace: nat
    var nextMarker: nat
    var log: seq<AuditEntry>
    ghost var detected: map<nat, map<nat, Marker>>
    // All states of the route table so far, and how often the database has not answered a handler.
    ghost var routeTables: seq<map<nat, Route>>
    ghost var outages: nat

    ghost function Snapshot(): Store
      reads this
    {
      Store(traces, markers, nextTrace, nextMarker, detected)
    }

    ghost predicate Valid()
      reads this
    {
      Inv(Snapshot()) && routeTables != [] && routeTables[|routeTables| - 1] == routes
    }

    constructor ()
      ensures Valid() && Snapshot() == EMPTY && log == [] && routes == map[]
    {
      routes, traces, markers, nextTrace, nextMarker, log, detected, outages := map[], map[], map[], 1, 1, [], map[], 0;
      routeTables := [map[]];
      new;
      EmptyInv();
    }

    /** Refuses an entry without a request id, which rolls the transaction back. */
    method CreateAudit(action: AuditAction, actor: Actor) returns (ok: bool)
      modifies this`log
      ensures ok <==> !Blank(actor.requestId)
      ensures log == if ok then old(log) + [AuditEntry(action, actor.id, actor.requestId)] else old(log)
    {
      if forall i | 0 <= i < |actor.requestId| :: IsSpace(actor.requestId[i]) {
        return false;
      }
      log := log + [AuditEntry(action, actor.id, actor.requestId)];
      return true;
    }

    method UpdateProcessing(id: nat, processed: seq<real>, noise: real, window: int, threshold: real, merge: int)
      returns (found: bool)
      modifies this`traces
      ensures found <==> id in old(traces)
      ensures traces == if found then old(traces)[id := old(traces)[id].(processed := processed, noiseFloor := noise,
                                                      denoiseWindow := window, peakThreshold := threshold, mergeWindow := merge)]
                        else old(traces)
    {
      if id !in traces {
        return false;
      }
      traces := traces[id := traces[id].(processed := processed, noiseFloor := noise, denoiseWindow := window,
                                         peakThreshold := threshold, mergeWindow := merge)];
      return true;
    }

    /** Inserts rows one after the other under consecutive identifiers. */
    method InsertMarkers(events: seq<Marker>)
      modifies this`markers, this`nextMarker
      ensures markers == old(markers) + Numbered(events, old(nextMarker))
      ensures nextMarker == old(nextMarker) + |events|
    {
      ghost var kept, first := markers, nextMarker;
      NumberedNone(events[..0], first);
      hide Numbered;
      for i := 0 to |events|
        invariant nextMarker == first + i
        invariant markers == kept + Numbered(events[..i], first)
      {
        NumberedStep(events, first, i);
        markers := markers[nextMarker := events[i]];
        nextMarker := nextMarker + 1;
      }
      assert events[..|events|] == events;
    }

    /** Deletes the unreviewed markers of a trace and inserts the new ones. */
    method ReplaceForTrace(traceId: nat, events: seq<Marker>)
      modifies this`markers, this`nextMarker, this`detected
      ensures markers == Kept(old(markers), traceId) + Numbered(events, old(nextMarker))
      ensures nextMarker == old(nextMarker) + |events|
      ensures detected == old(detected)[traceId := Numbered(events, old(nextMarker))]
    {
      hide Numbered;
      detected := detected[traceId := Numbered(events, nextMarker)];
      markers := map id | id in markers && (markers[id].traceId != traceId || markers[id].reviewed) :: markers[id];
      InsertMarkers(events);
    }

    method BelongsToRoute(traceId: nat, routeId: nat) returns (belongs: bool)
      ensures belongs <==> traceId in traces && traces[traceId].routeId == routeId
    {
      belongs := traceId in traces && traces[traceId].routeId == routeId;
    }

    /** The markers of a trace, nearest first. */
    method ForTrace(traceId: nat) returns (events: seq<ComparableEvent>)
      ensures IsListing(markers, traceId, events)
    {
      var rows: seq<ComparableEvent> := [];
      var pending := markers.Keys;
      while pending != {}
        invariant pending <= markers.Keys
        invariant Lists(map id | id in markers && id !in pending :: markers[id], traceId, rows)
        decreases pending
      {
        var id :| id in pending;
        ghost var done := map k | k in markers && k !in pending :: markers[k];
        pending := pending - {id};
        ListsNext(done, traceId, rows, id, markers[id]);
        assert done[id := markers[id]] == map k | k in markers && k !in pending :: markers[k];
        if markers[id].traceId == traceId {
          rows := rows + [ToComparable(id, markers[id])];
        }
      }
      ghost var all := map id | id in markers && id !in pending :: markers[id];
      assert Lists(all, traceId, rows);
      assert all == markers;
      hide Lists;
      events := SortCopy(rows, NearerFirst);
      ListsPermutation(markers, traceId, rows, events);
    }

    /** Creates or edits a route; no route is ever deleted. */
    method SaveRoute(id: nat, route: Route)
      requires Valid()
      modifies this`routes, this`routeTables
      ensures Valid() && routes == old(routes)[id := route] && routeTables == old(routeTables) + [routes]
    {
      routes := routes[id := route];
      routeTables := routeTables + [routes];
    }

    // ----- Transactions

    /** Insert the trace and log it, or neither. */
    method CommitImport(trace: Trace, actor: Actor, up: bool) returns (ok: bool, id: nat)
      modifies this`traces, this`nextTrace, this`log
      ensures ok <==> up && !Blank(actor.requestId)
      ensures if ok then
                && id == old(nextTrace) && Snapshot() == WithTrace(old(Snapshot()), trace)
                && log == old(log) + [AuditEntry(TraceImported, actor.id, actor.requestId)]
              else Snapshot() == old(Snapshot()) && log == old(log)
    {
      id := nextTrace;
      var beforeTraces := traces;
      traces := traces[nextTrace := trace];
      nextTrace := nextTrace + 1;
      var beforeLog := log;
      ok := CreateAudit(TraceImported, actor);
      if !ok || !up {
        ok, traces, nextTrace, log := false, beforeTraces, id, beforeLog;
      }
    }

    /** Overwrite the processing fields, replace the unreviewed markers and log it, or none of these. */
    method CommitDetection(traceId: nat, o: Outcome, actor: Actor, up: bool) returns (ok: bool)
      modifies this`traces, this`markers, this`nextMarker, this`detected, this`log
      ensures ok <==> up && traceId in old(traces) && !Blank(actor.requestId)
      ensures if ok then
                && Snapshot() == WithDetection(old(Snapshot()), traceId, o)
                && log == old(log) + [AuditEntry(EventsDetected, actor.id, actor.requestId)]
              else Snapshot() == old(Snapshot()) && log == old(log)
    {
      hide Numbered;
      var events := ToMarkers(traceId, o.detection.events);
      var beforeTraces, beforeMarkers, beforeNext, beforeLog := traces, markers, nextMarker, log;
      ghost var beforeDetected := detected;
      ok := UpdateProcessing(traceId, o.processed, o.noise, o.window, o.threshold, o.merge);
      if ok {
        ReplaceForTrace(traceId, events);
        ok := CreateAudit(EventsDetected, actor);
      }
      if !ok || !up {
        ok, traces, markers, nextMarker, log := false, beforeTraces, beforeMarkers, beforeNext, beforeLog;
        detected := beforeDetected;
      }
    }

    /** Write the review columns of the marker and log it, or neither. */
    method CommitReview(id: nat, event: Marker, actor: Actor, up: bool) returns (ok: bool)
      modifies this`markers, this`log
      ensures ok <==> up && id in old(markers) && !Blank(actor.requestId)
      ensures if ok then
                && Snapshot() == WithReview(old(Snapshot()), id, event)
                && log == old(log) + [AuditEntry(EventReviewed, actor.id, actor.requestId)]
              else Snapshot() == old(Snapshot()) && log == old(log)
    {
      if id !in markers {
        return false;
      }
      var before, beforeLog := markers, log;
      markers := markers[id := markers[id].(eventType := event.eventType, distance := event.distance, reviewed := true,
                                            reviewNote := event.reviewNote, reviewedBy := event.reviewedBy,
                                            reviewedAt := event.reviewedAt)];
      ok := CreateAudit(EventReviewed, actor);
      if !ok || !up {
        ok, markers, log := false, before, beforeLog;
      }
    }

    // ----- Request handlers

    /**
     * Other handlers may commit here, and routes may be edited. All that a handler knows afterwards is
     * what every transaction keeps.
     */
    method Yield()
      requires Valid()
      modifies this
      ensures Valid() && Preserves(old(Snapshot()), Snapshot()) && Grown(old(log), log) && outages == old(outages)
      ensures Grown(old(routeTables), routeTables) && old(routes).Keys <= routes.Keys
    {
      hide Inv;
      PreservesItself(Snapshot());
    }

    /** Whether the database answers the next time; nobody knows beforehand. */
    method Available() returns (up: bool)
      modifies this`outages
      ensures outages == old(outages) + (if up then 0 else 1)
    {
      up := *;
      if !up {
        outages := outages + 1;
      }
    }

    /**
     * Validate, filter, measure and store a capture. `at` and `logged` are the tables and the log just
     * before the transaction, or at the end when there is none.
     */
    method Import(request: ImportRequest, maxPoints: int, actor: Actor)
      returns (r: Result<nat>, ghost at: Store, ghost logged: seq<AuditEntry>)
      requires Valid()
      modifies this
      ensures Valid() && Preserves(old(Snapshot()), at) && Grown(old(log), logged)
      ensures var route := if request.routeId in old(routes) then Some(old(routes)[request.routeId]) else None;
              && (r.Ok? <==> outages == old(outages) && Imported(request, route, maxPoints).Ok? && !Blank(actor.requestId))
              && (outages == old(outages) && Imported(request, route, maxPoints).Err? ==>
                    r == Err(Imported(request, route, maxPoints).error))
              && (r.Ok? ==>
                    && r.value == at.nextTrace
                    && Commits(at, Step.Import(request, route, maxPoints), Snapshot())
                    && log == logged + [AuditEntry(TraceImported, actor.id, actor.requestId)])
      ensures r.Err? ==> Snapshot() == at && log == logged
    {
      hide Inv, Preserves, Filtered, NoiseFloor, SampleDistance, PointsError;
      PreservesItself(Snapshot());
      at, logged := Snapshot(), log;
      var refused := CheckPoints(request.points, maxPoints);
      if refused.Some? {
        return Err(refused.value), at, logged;
      }
      hide Imported;
      var up := Available();
      if !up {
        return Err("load route failed"), at, logged;
      }
      var route := if request.routeId in routes then Some(routes[request.routeId]) else None;
      var prepared := Prepare(request, route, maxPoints);
      if prepared.Err? {
        return Err(prepared.error), at, logged;
      }
      Yield();
      at, logged := Snapshot(), log;
      up := Available();
      var ok, id := CommitImport(prepared.value, actor, up);
      if !ok {
        return Err("import trace failed"), at, logged;
      }
      ImportKeepsInv(at, request, route, maxPoints);
      return Ok(id), at, logged;
    }

    /**
     * Filter the raw samples again, detect, and replace what the last detection left unreviewed. The
     * trace is read first, then the route, and either may be out of date when the transaction runs.
     */
    method Detect(traceId: nat, request: DetectRequest, actor: Actor)
      returns (r: Result<Outcome>, ghost at: Store, ghost logged: seq<AuditEntry>, ghost route: Option<Route>)
      requires Valid()
      modifies this
      ensures Valid() && Preserves(old(Snapshot()), at) && Grown(old(log), logged)
      ensures r.Ok? <==>
                && outages == old(outages) && traceId in old(traces) && route.Some? && !Blank(actor.requestId)
                && Computed(old(traces)[traceId], route.value, request).Ok?
      ensures outages == old(outages) && traceId !in old(traces) ==> r == Err("trace does not exist")
      ensures outages == old(outages) && traceId in old(traces) && route.Some?
              && Computed(old(traces)[traceId], route.value, request).Err? ==>
                r == Err(Computed(old(traces)[traceId], route.value, request).error)
      ensures r.Ok? ==>
                && r == Computed(old(traces)[traceId], route.value, request)
                && Commits(at, Step.Detect(traceId, old(traces)[traceId], route.value, request), Snapshot())
                && log == logged + [AuditEntry(EventsDetected, actor.id, actor.requestId)]
      ensures r.Err? ==> Snapshot() == at && log == logged
      ensures traceId in old(traces) && route.Some? ==>
                RouteSince(routeTables, |old(routeTables)| - 1, old(traces)[traceId].routeId, route.value)
      ensures outages == old(outages) && traceId in old(traces) && old(traces)[traceId].routeId in old(routes) ==> route.Some?
    {
      hide Computed, Inv, Preserves, Commits;
      ghost var start := Snapshot();
      PreservesItself(start);
      at, logged, route := start, log, None;
      var up := Available();
      if !up {
        return Err("get trace failed"), at, logged, route;
      }
      if traceId !in traces {
        return Err("trace does not exist"), at, logged, route;
      }
      var trace := traces[traceId];
      Yield();
      at, logged := Snapshot(), log;
      up := Available();
      if !up || trace.routeId !in routes {
        return Err("get trace route failed"), at, logged, route;
      }
      var readRoute := routes[trace.routeId];
      route := Some(readRoute);
      r := Compute(trace, readRoute, request);
      if r.Err? {
        return;
      }
      ghost var middle, tables := at, routeTables;
      KeepsCapture(start, middle, traceId);
      var ok;
      ok, at, logged := WriteDetection(traceId, trace, readRoute, request, r.value, actor);
      PreservesOn(start, middle, at);
      RouteSinceLater(tables, routeTables, |old(routeTables)| - 1, trace.routeId, readRoute);
      if !ok {
        return Err("save detected events failed"), at, logged, route;
      }
    }

    /** Write what was computed from records that were read before. */
    method WriteDetection(traceId: nat, seen: Trace, route: Route, request: DetectRequest, o: Outcome, actor: Actor)
      returns (ok: bool, ghost at: Store, ghost logged: seq<AuditEntry>)
      requires Valid() && traceId in traces && SameCapture(seen, traces[traceId]) && Computed(seen, route, request) == Ok(o)
      modifies this
      ensures Valid() && Preserves(old(Snapshot()), at) && Grown(old(log), logged)
      ensures Grown(old(routeTables), routeTables) && outages >= old(outages)
      ensures ok <==> outages == old(outages) && !Blank(actor.requestId)
      ensures ok ==>
                && Commits(at, Step.Detect(traceId, seen, route, request), Snapshot())
                && log == logged + [AuditEntry(EventsDetected, actor.id, actor.requestId)]
      ensures !ok ==> Snapshot() == at && log == logged
    {
      hide Computed, Inv, Numbered, Preserves, WithDetection;
      ghost var before := Snapshot();
      Yield();
      at, logged := Snapshot(), log;
      KeepsCapture(before, at, traceId);
      var up := Available();
      ok := CommitDetection(traceId, o, actor, up);
      if ok {
        DetectKeepsInv(at, traceId, seen, route, request);
      }
    }

    /** The route of a trace, read after the trace. */
    method ReadRoute(traceId: nat) returns (r: Result<Route>)
      requires Valid()
      modifies this
      ensures Valid() && Preserves(old(Snapshot()), Snapshot()) && Grown(old(log), log)
      ensures Grown(old(routeTables), routeTables) && old(routes).Keys <= routes.Keys && outages >= old(outages)
      ensures r.Ok? ==>
                && traceId in old(traces) && outages == old(outages)
                && RouteSince(routeTables, |old(routeTables)| - 1, old(traces)[traceId].routeId, r.value)
      ensures (&& outages == old(outages) && traceId in old(traces)
               && old(traces)[traceId].routeId in old(routes)) ==> r.Ok?
    {
      hide Inv, Preserves;
      PreservesItself(Snapshot());
      var up := Available();
      if !up || traceId !in traces {
        return Err("get event trace failed");
      }
      var routeId := traces[traceId].routeId;
      Yield();
      up := Available();
      if !up || routeId !in routes {
        return Err("get event route failed");
      }
      assert routeTables[|routeTables| - 1] == routes;
      return Ok(routes[routeId]);
    }

    /** Record a reviewer's correction of the marker that was read; the algorithm's own values are not written. */
    method Review(id: nat, request: ReviewRequest, actor: Actor, now: int)
      returns (r: Result<Marker>, ghost at: Store, ghost logged: seq<AuditEntry>, ghost route: Option<Route>)
      requires Valid()
      modifies this
      ensures Valid() && Preserves(old(Snapshot()), at) && Grown(old(log), logged)
      ensures r.Ok? <==>
                && outages == old(outages) && request.eventType.Some? && id in old(markers) && route.Some? && !Blank(actor.requestId)
                && Reviewed(old(markers)[id], route.value, request, actor.id, now).Ok?
                && id in at.markers
      ensures r.Ok? ==>
                && r == Reviewed(old(markers)[id], route.value, request, actor.id, now)
                && Commits(at, Step.Review(id, old(markers)[id], route.value, request, actor.id, now), Snapshot())
                && log == logged + [AuditEntry(EventReviewed, actor.id, actor.requestId)]
      ensures r.Err? ==> Snapshot() == at && log == logged
      ensures id in old(markers) && old(markers)[id].traceId in old(traces) && route.Some? ==>
                RouteSince(routeTables, |old(routeTables)| - 1, old(traces)[old(markers)[id].traceId].routeId, route.value)
      ensures (&& outages == old(outages) && request.eventType.Some? && id in old(markers)
               && old(markers)[id].traceId in old(traces)
               && old(traces)[old(markers)[id].traceId].routeId in old(routes)) ==> route.Some?
    {
      hide Inv, Preserves, Reviewed, Commits;
      ghost var start := Snapshot();
      PreservesItself(start);
      at, logged, route := start, log, None;
      if request.eventType.None? {
        return Err("event_type is not supported"), at, logged, route;
      }
      var up := Available();
      if !up {
        return Err("get event failed"), at, logged, route;
      }
      if id !in markers {
        return Err("event does not exist"), at, logged, route;
      }
      var event := markers[id];
      Yield();
      ghost var middle := Snapshot();
      var read := ReadRoute(event.traceId);
      at, logged := Snapshot(), log;
      PreservesOn(start, middle, at);
      if event.traceId in start.traces {
        KeepsCapture(start, middle, event.traceId);
      }
      if read.Err? {
        return Err(read.error), at, logged, route;
      }
      route := Some(read.value);
      middle := at;
      ghost var tables := routeTables;
      r, at, logged := WriteReview(id, event, read.value, request, actor, now);
      PreservesOn(start, middle, at);
      if event.traceId in start.traces {
        RouteSinceLater(tables, routeTables, |old(routeTables)| - 1, start.traces[event.traceId].routeId, read.value);
      }
    }

    /** Check and write the review of a marker that was read before. */
    method WriteReview(id: nat, seen: Marker, route: Route, request: ReviewRequest, actor: Actor, now: int)
      returns (r: Result<Marker>, ghost at: Store, ghost logged: seq<AuditEntry>)
      requires Valid() && request.eventType.Some?
      modifies this
      ensures Valid() && Preserves(old(Snapshot()), at) && Grown(old(log), logged)
      ensures Grown(old(routeTables), routeTables) && outages >= old(outages)
      ensures r.Ok? <==>
                && outages == old(outages) && Reviewed(seen, route, request, actor.id, now).Ok?
                && id in at.markers && !Blank(actor.requestId)
      ensures r.Ok? ==>
                && r == Reviewed(seen, route, request, actor.id, now)
                && Commits(at, Step.Review(id, seen, route, request, actor.id, now), Snapshot())
                && log == logged + [AuditEntry(EventReviewed, actor.id, actor.requestId)]
      ensures r.Err? ==> Snapshot() == at && log == logged
    {
      hide Inv, Preserves;
      PreservesItself(Snapshot());
      at, logged := Snapshot(), log;
      var event := seen.(eventType := request.eventType.value);
      if request.distance.Some? {
        event := event.(distance := request.distance.value);
      }
      if event.distance > route.length {
        return Err("reviewed distance exceeds route length"), at, logged;
      }
      event := event.(reviewed := true, reviewNote := request.reviewNote, reviewedBy := Some(actor.id), reviewedAt := Some(now));
      Yield();
      at, logged := Snapshot(), log;
      var up := Available();
      var ok := CommitReview(id, event, actor, up);
      if !ok {
        return Err("review event failed"), at, logged;
      }
      ReviewKeepsInv(at, id, event);
      return Ok(event), at, logged;
    }
  }

  /** `seen` was the record of that route at some time since the route table had its `n`-th state. */
  ghost predicate RouteSince(tables: seq<map<nat, Route>>, n: nat, id: nat, seen: Route) {
    exists e :: n <= e < |tables| && id in tables[e] && tables[e][id] == seen
  }

  lemma RouteSinceLater(tables: seq<map<nat, Route>>, later: seq<map<nat, Route>>, n: nat, id: nat, seen: Route)
    requires RouteSince(tables, n, id, seen) && Grown(tables, later)
    ensures RouteSince(later, n, id, seen)
  {
    var e :| n <= e < |tables| && id in tables[e] && tables[e][id] == seen;
    assert later[..|tables|][e] == tables[e];
  }

  ghost predicate Grown<T>(log: seq<T>, later: seq<T>) {
    |log| <= |later| && later[..|log|] == log
  }

  /** The tables changed by exactly this step. */
  ghost predicate Commits(s: Store, step: Step, after: Store) {
    Enabled(s, step) && after == Apply(s, step)
  }

  lemma KeepsCapture(a: Store, b: Store, traceId: nat)
    requires Preserves(a, b) && traceId in a.traces
    ensures traceId in b.traces && SameCapture(a.traces[traceId], b.traces[traceId])
  {}

  /** The checks of an import before it reads anything. */
  method CheckPoints(points: seq<real>, maxPoints: int) returns (refused: Option<string>)
    ensures refused == PointsError(points, maxPoints)
  {
    if |points| > maxPoints {
      return Some("trace exceeds the point limit");
    }
    for i := 0 to |points|
      invariant InRange(points[..i])
    {
      if points[i] < -200.0 || points[i] > 100.0 {
        return Some("sample is outside the supported dB range");
      }
    }
    assert points[..|points|] == points;
    return None;
  }

  /** The rest of an import before its transaction. */
  method Prepare(request: ImportRequest, route: Option<Route>, maxPoints: int) returns (r: Result<Trace>)
    requires PointsError(request.points, maxPoints).None?
    ensures r == Imported(request, route, maxPoints)
  {
    hide Filtered, NoiseFloor, RawDistance, PointsError;
    if route.None? {
      return Err("route does not exist");
    }
    var window := request.denoiseWindow;
    if window == 0 {
      window := 5;
    }
    var threshold := request.peakThreshold;
    if threshold == 0.0 {
      threshold := 0.8;
    }
    var merge := request.mergeWindow;
    if merge == 0 {
      merge := 3;
    }
    var filtered := MovingMedian(request.points, window);
    if filtered.Err? {
      return Err("trace denoising failed");
    }
    var noise := EstimateNoiseFloor(filtered.value);
    if noise.Err? {
      return Err("not enough trace samples for noise estimation");
    }
    var last := SampleDistance(|request.points| - 1, request.sampleIntervalNS, route.value.refractiveIndex);
    if last.Err? {
      return Err("distance conversion failed");
    }
    if last.value < route.value.length * 0.05 {
      return Err("trace sampling range covers less than five percent of the route");
    }
    return Ok(Trace(request.routeId, request.sampleIntervalNS, request.points, filtered.value, noise.value,
                    window, threshold, merge));
  }

  /** The computation of a detection, before its transaction. */
  method Compute(trace: Trace, route: Route, request: DetectRequest) returns (r: Result<Outcome>)
    ensures r == Computed(trace, route, request)
  {
    hide Filtered, NoiseFloor, Detected;
    var window := request.denoiseWindow;
    if window == 0 {
      window := trace.denoiseWindow;
    }
    if window == 0 {
      window := 5;
    }
    var threshold := request.peakThreshold;
    if threshold == 0.0 {
      threshold := trace.peakThreshold;
    }
    if threshold == 0.0 {
      threshold := 0.8;
    }
    var merge := request.mergeWindow;
    if merge == 0 {
      merge := trace.mergeWindow;
    }
    if merge == 0 {
      merge := 3;
    }
    var filtered := MovingMedian(trace.raw, window);
    if filtered.Err? {
      return Err("trace denoising failed");
    }
    var noise := EstimateNoiseFloor(filtered.value);
    if noise.Err? {
      return Err("noise floor estimation failed");
    }
    var detection := Algorithm.Detect(filtered.value, threshold, merge, trace.sampleIntervalNS, route.refractiveIndex, route.length);
    if detection.Err? {
      return Err("event detection failed");
    }
    return Ok(Outcome(window, threshold, merge, filtered.value, noise.value, detection.value));
  }

  method ToMarkers(traceId: nat, detected: seq<DetectedEvent>) returns (events: seq<Marker>)
    ensures events == MarkersOf(traceId, detected)
  {
    events := [];
    for i := 0 to |detected|
      invariant events == MarkersOf(traceId, detected)[..i]
    {
      events := events + [MarkerOf(traceId, detected[i])];
    }
  }

  lemma NumberedNone(events: seq<Marker>, first: nat)
    requires events == []
    ensures Numbered(events, first) == map[]
  {}

  lemma NumberedStep(events: seq<Marker>, first: nat, i: nat)
    requires i < |events|
    ensures Numbered(events[..i + 1], first) == Numbered(events[..i], first)[first + i := events[i]]
  {
    assert events[..i + 1][..i] == events[..i];
  }

  lemma ListsNext(markers: map<nat, Marker>, traceId: nat, rows: seq<ComparableEvent>, id: nat, m: Marker)
    requires Lists(markers, traceId, rows) && id !in markers
    ensures Lists(markers[id := m], traceId,
                  if m.traceId == traceId then rows + [ToComparable(id, m)] else rows)
  {
    var longer := rows + [ToComparable(id, m)];
    forall k | k in markers && markers[k].traceId == traceId ensures exists i :: 0 <= i < |longer| && longer[i].id == k {
      var i :| 0 <= i < |rows| && rows[i].id == k;
      assert longer[i].id == k;
    }
    assert longer[|rows|].id == id;
  }

  lemma ListsPermutation(markers: map<nat, Marker>, traceId: nat, rows: seq<ComparableEvent>, events: seq<ComparableEvent>)
    requires Lists(markers, traceId, rows) && multiset(events) == multiset(rows)
    ensures Lists(markers, traceId, events)
  {
    hide ToComparable;
    forall i | 0 <= i < |events| ensures events[i] in rows {
      assert events[i] in multiset(events);
    }
    forall id | id in markers && markers[id].traceId == traceId ensures exists i :: 0 <= i < |events| && events[i].id == id {
      var k :| 0 <= k < |rows| && rows[k].id == id;
      assert rows[k] in multiset(events);
    }
    DistinctPermutation(rows, events);
  }

  ghost predicate DistinctIds(events: seq<ComparableEvent>) {
    forall i, j | 0 <= i < j < |events| :: events[i].id != events[j].id
  }

  lemma {:induction false} DistinctPermutation(a: seq<ComparableEvent>, b: seq<ComparableEvent>)
    requires multiset(a) == multiset(b) && DistinctIds(a)
    ensures DistinctIds(b)
    decreases |b|
  {
    if b != [] {
      var n := |b| - 1;
      var j := PlaceOfLast(a, b);
      DistinctPermutation(Without(a, j), b[..n]);
      forall i | 0 <= i < n ensures b[i].id != b[n].id {
        assert b[..n][i] in multiset(Without(a, j));
      }
      hide Without;
    }
  }
}
