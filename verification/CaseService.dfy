/**
 * The case service as it runs: repository updates in place, transactions, and request handlers
 * that other handlers may interrupt between any two transactions.
 */
module CaseService {
  import opened Audit
  import opened Basics
  import opened CaseLaws
  import opened CaseProtocol
  import opened Comparison
  import TraceService
  import TraceStore

  /** Whatever run `b` extends, `c` extends too. */
  ghost predicate Continues(b: Run, c: Run) {
    forall a: Run {:trigger Extends(a, b)} :: Extends(a, b) ==> Extends(a, c)
  }

  lemma ExtensionContinues(b: Run, c: Run)
    requires Extends(b, c)
    ensures Continues(b, c)
  {
    forall a: Run | Extends(a, b) ensures Extends(a, c) {
      ExtendsTransitive(a, b, c);
    }
  }

  /** How a request may end: it took effect, or the state of the case or its own data stood against it. */
  datatype Ending = Completed | Refused

  /** A step at which the request of worker `w` took effect: its result stored, or its confirm or close committed. */
  ghost predicate Completes(s: State, a: Action, w: nat) {
    match a
    case Save(v, up) => v == w && up && Saves(s, w, true) && s.workers[w].phase.result.Ok?
    case Commit(v, read, up) => v == w && up && Commits(s, w, read, true)
    case _ => false
  }

  /** A step at which it was refused although the database answered. */
  ghost predicate Refuses(s: State, a: Action, w: nat) {
    match a
    case Load(v) => v == w && w in s.workers && AfterLoad(s.workers[w].job, s.row, true) == Done
    case Reload(v) => v == w && w in s.workers && AfterLoad(s.workers[w].job, s.row, false) == Done
    case Recover(v, read, up) => v == w && up && read == s.clock && !Recovers(s, w, read, true)
    case Start(v, up) => v == w && up && !Starts(s, w, true)
    case Save(v, up) => v == w && up && w in s.workers && s.workers[w].phase.Saving?
                        && (s.workers[w].phase.result.Err? || !Saves(s, w, true))
    case Commit(v, read, up) => v == w && up && !Commits(s, w, read, true)
    case _ => false
  }

  ghost predicate Ends(s: State, a: Action, w: nat, e: Ending) {
    if e.Completed? then Completes(s, a, w) else Refuses(s, a, w)
  }

  /** Such a step is among those taken since the run had `n` steps. */
  ghost predicate EndedSince(r: Run, n: nat, w: nat, e: Ending) {
    |r.states| == |r.actions| + 1 && exists i :: n <= i < |r.actions| && Ends(r.states[i], r.actions[i], w, e)
  }

  lemma EndedNow(r: Run, a: Action, w: nat, e: Ending)
    requires IsRun(r) && Enabled(LastState(r), a) && Ends(LastState(r), a, w, e)
    ensures EndedSince(Extended(r, a), |r.actions|, w, e)
  {
    hide IsRun, Enabled, Apply, Ends;
    RunLength(r);
    var longer := Extended(r, a);
    assert Ends(longer.states[|r.actions|], longer.actions[|r.actions|], w, e);
  }

  /** Nothing took effect for worker `w` between run `b` and run `c`. */
  ghost predicate Quiet(b: Run, c: Run, w: nat) {
    forall n: nat {:trigger EndedSince(c, n, w, Completed)} :: EndedSince(c, n, w, Completed) ==> EndedSince(b, n, w, Completed)
  }

  lemma StepIsQuiet(r: Run, a: Action, w: nat)
    requires IsRun(r) && Enabled(LastState(r), a) && !Ends(LastState(r), a, w, Completed)
    ensures Quiet(r, Extended(r, a), w)
  {
    hide IsRun, Enabled, Apply, Ends;
    RunLength(r);
    var longer := Extended(r, a);
    forall n: nat | EndedSince(longer, n, w, Completed) ensures EndedSince(r, n, w, Completed) {
      var i :| n <= i < |longer.actions| && Ends(longer.states[i], longer.actions[i], w, Completed);
      assert i < |r.actions| && Ends(r.states[i], r.actions[i], w, Completed);
    }
  }

  lemma NothingSinceNow(r: Run, w: nat)
    ensures !EndedSince(r, |r.actions|, w, Completed)
  {}

  lemma EndedEarlier(first: Run, mid: Run, r: Run, w: nat, e: Ending)
    requires Extends(first, mid) && EndedSince(r, |mid.actions|, w, e)
    ensures EndedSince(r, |first.actions|, w, e)
  {
    hide Ends;
    var i :| |mid.actions| <= i < |r.actions| && Ends(r.states[i], r.actions[i], w, e);
    assert |first.actions| <= i;
  }

  ghost predicate OnRoute(store: TraceStore.Store, traceId: nat, routeId: nat) {
    traceId in store.traces && store.traces[traceId].routeId == routeId
  }

  lemma StaysOnRoute(a: TraceStore.Store, b: TraceStore.Store)
    requires TraceStore.Preserves(a, b)
    ensures forall t, routeId | OnRoute(a, t, routeId) :: OnRoute(b, t, routeId)
  {}

  /**
   * Two different traces of the route, and a case over them in draft with its first audit row; or nothing.
   * Other handlers may run between the checks and the transaction.
   */
  method CreateCase(db: TraceService.TraceDatabase, request: CreateRequest, actor: nat, requestId: string, now: int)
    returns (r: Result<Service>)
    requires db.Valid()
    modifies db
    ensures db.Valid() && TraceStore.Preserves(old(db.Snapshot()), db.Snapshot())
    ensures r.Ok? ==>
              && db.outages == old(db.outages)
              && request.baselineTrace != request.currentTrace && !Blank(requestId)
              && OnRoute(db.Snapshot(), request.baselineTrace, request.routeId)
              && OnRoute(db.Snapshot(), request.currentTrace, request.routeId)
              && fresh(r.value) && r.value.Valid() && r.value.db == db && r.value.clock == now
              && r.value.row == NewRow(request, actor, now)
              && r.value.audits == [AuditEntry(CaseCreated, actor, requestId)]
    ensures (&& db.outages == old(db.outages) && request.baselineTrace != request.currentTrace && !Blank(requestId)
             && OnRoute(old(db.Snapshot()), request.baselineTrace, request.routeId)
             && OnRoute(old(db.Snapshot()), request.currentTrace, request.routeId)) ==> r.Ok?
  {
    hide TraceStore.Inv, TraceStore.Preserves, IsRun, Init, NewRow, Blank;
    ghost var start := db.Snapshot();
    TraceStore.PreservesItself(start);
    if request.baselineTrace == request.currentTrace {
      return Err("baseline and current traces must differ");
    }
    var traces := [request.baselineTrace, request.currentTrace];
    for i := 0 to |traces|
      invariant db.Valid() && TraceStore.Preserves(start, db.Snapshot())
      invariant db.outages == old(db.outages)
      invariant forall k | 0 <= k < i :: OnRoute(db.Snapshot(), traces[k], request.routeId)
    {
      var up := db.Available();
      if !up {
        return Err("validate case traces failed");
      }
      StaysOnRoute(start, db.Snapshot());
      var belongs := db.BelongsToRoute(traces[i], request.routeId);
      if !belongs {
        return Err("both traces must belong to the selected route");
      }
      ghost var checked := db.Snapshot();
      db.Yield();
      TraceStore.PreservesOn(start, checked, db.Snapshot());
      StaysOnRoute(checked, db.Snapshot());
    }
    var up := db.Available();
    if !up || Blank(requestId) {
      return Err("create case failed");
    }
    assert OnRoute(db.Snapshot(), traces[0], request.routeId) && OnRoute(db.Snapshot(), traces[1], request.routeId);
    var item := new Service(db, request, actor, requestId, now);
    return Ok(item);
  }

  class Service {
    const db: TraceService.TraceDatabase
    var row: Row
    var audits: seq<AuditEntry>
    var clock: int
    ghost var workers: map<nat, Worker>
    ghost var run: Run
    // How often the database has not answered a handler of the case.
    ghost var outages: nat

    ghost function Current(): State
      reads this`row, this`audits, this`clock, this`workers, this`run, db
    {
      State(row, audits, clock, db.Snapshot(), workers)
    }

    /** The present state is the last of a run of the protocol. */
    ghost predicate Valid()
      reads this`row, this`audits, this`clock, this`workers, this`run, db
    {
      IsRun(run) && run.states != [] && LastState(run) == Current()
    }

    /** The row in draft and its first audit row. */
    constructor (db: TraceService.TraceDatabase, request: CreateRequest, actor: nat, requestId: string, now: int)
      requires TraceStore.Inv(db.Snapshot()) && !Blank(requestId)
      ensures this.db == db && Valid() && row == NewRow(request, actor, now) && clock == now
      ensures audits == [AuditEntry(CaseCreated, actor, requestId)] && workers == map[]
    {
      this.db := db;
      row, clock := NewRow(request, actor, now), now;
      audits := [AuditEntry(CaseCreated, actor, requestId)];
      workers, outages := map[], 0;
      run := Run([State(NewRow(request, actor, now), [AuditEntry(CaseCreated, actor, requestId)], now, db.Snapshot(), map[])], []);
      new;
      assert Init(LastState(run));
    }

    // ----- Repository

    /** Writes the named columns of the row, one by one. */
    method Write(to: Status, u: Updates)
      modifies this`row
      ensures row == Written(old(row), to, u, clock)
    {
      row := row.(status := to, version := row.version + 1, updatedAt := clock);
      if u.analysisError.Some? {
        row := row.(analysisError := u.analysisError.value);
      }
      if u.differences.Some? {
        row := row.(differences := u.differences.value);
      }
      if u.params.Some? {
        row := row.(params := u.params.value);
      }
      if u.estimate.Some? {
        row := row.(estimate := u.estimate);
      }
      if u.conclusion.Some? {
        row := row.(conclusion := u.conclusion.value);
      }
      if u.reviewer.Some? {
        row := row.(reviewer := u.reviewer);
      }
      if u.closedAt.Some? {
        row := row.(closedAt := u.closedAt);
      }
    }

    method TransitionCase(version: nat, from: Status, to: Status, u: Updates) returns (affected: bool)
      modifies this`row
      ensures affected <==> Transition(old(row), version, from, to, u, clock).Some?
      ensures row == if affected then Transition(old(row), version, from, to, u, clock).value else old(row)
    {
      affected := row.version == version && row.status == from;
      if affected {
        Write(to, u);
      }
    }

    method SaveCase(to: Status, u: Updates) returns (affected: bool)
      modifies this`row
      ensures affected <==> SaveAnalysis(old(row), to, u, clock).Some?
      ensures row == if affected then SaveAnalysis(old(row), to, u, clock).value else old(row)
    {
      affected := row.status == Analyzing;
      if affected {
        Write(to, u);
      }
    }

    method RecoverCase(cutoff: int) returns (affected: bool)
      modifies this`row
      ensures affected <==> RecoverStale(old(row), cutoff, clock).Some?
      ensures row == if affected then RecoverStale(old(row), cutoff, clock).value else old(row)
    {
      affected := row.status == Analyzing && row.updatedAt < cutoff;
      if affected {
        Write(Draft, NO_UPDATES.(analysisError := Some(EXPIRED)));
      }
    }

    /** The second half of a transaction: log the change and commit, or put the row back. */
    method LogOrRollBack(before: Row, affected: bool, entry: AuditEntry, up: bool) returns (committed: bool)
      modifies this`row, this`audits
      ensures committed <==> up && affected && Logged(old(audits), entry).Some?
      ensures row == if committed then old(row) else before
      ensures audits == if committed then old(audits) + [entry] else old(audits)
    {
      committed := up && affected && !Blank(entry.requestId);
      if committed {
        audits := audits + [entry];
      } else {
        row := before;
      }
    }

    // ----- Steps of the protocol

    /** Notes a step that has just been taken. */
    ghost method Record(w: nat, a: Action, before: State)
      requires IsRun(run) && run.states != [] && LastState(run) == before && Enabled(before, a)
      requires State(row, audits, clock, db.Snapshot(), Apply(before, a).workers) == Apply(before, a)
      modifies this`workers, this`run
      ensures Valid() && run == Extended(old(run), a) && Continues(old(run), run)
      ensures Current() == Apply(before, a)
      ensures !Ends(before, a, w, Completed) ==> Quiet(old(run), run, w)
      ensures forall e: Ending | Ends(before, a, w, e) :: EndedSince(run, |old(run).actions|, w, e)
    {
      hide Enabled, Apply, IsRun, Ends, EndedSince, Quiet, Continues;
      RunLength(run);
      if !Ends(before, a, w, Completed) {
        StepIsQuiet(run, a, w);
      }
      forall e: Ending | Ends(before, a, w, e) ensures EndedSince(Extended(run, a), |run.actions|, w, e) {
        EndedNow(run, a, w, e);
      }
      ExtendedIsRun(run, a);
      ExtensionContinues(run, Extended(run, a));
      workers := Apply(before, a).workers;
      run := Extended(run, a);
    }

    /**
     * Other handlers, the marker tables and the clock may move here. All that this worker knows
     * afterwards is that the run went on and that nobody else changed its own progress.
     */
    method Yield(ghost w: nat)
      requires Valid()
      modifies this, db
      ensures Valid() && Continues(old(run), run) && Quiet(old(run), run, w)
      ensures forall n: nat, v: nat, e: Ending {:trigger EndedSince(old(run), n, v, e)} ::
                EndedSince(old(run), n, v, e) ==> EndedSince(run, n, v, e)
      ensures old(clock) <= clock && outages == old(outages)
      ensures w in old(workers) ==> w in workers && workers[w] == old(workers[w])
      ensures w !in old(workers) ==> w !in workers
    {
    }

    /** Whether the database answers the next time; nobody knows beforehand. */
    method Available() returns (up: bool)
      modifies this`outages
      ensures outages == old(outages) + (if up then 0 else 1)
    {
      up := *;
      if !up {
        outages := outages + 1;
      }
    }

    /** The database did not answer a read that the handler cannot do without. */
    method FailStep(ghost w: nat)
      requires Valid() && w in workers
      modifies this`workers, this`run
      ensures Valid() && Continues(old(run), run) && Quiet(old(run), run, w) && w in workers
      ensures workers[w] == old(workers[w]).(phase := Done)
    {
      hide IsRun;
      Record(w, Fail(w), Current());
    }

    method ArriveStep(ghost w: nat, ghost worker: Worker)
      requires Valid() && w !in workers && worker.phase == Begin
      modifies this`workers, this`run
      ensures Valid() && Continues(old(run), run) && Quiet(old(run), run, w) && w in workers && workers[w] == worker
    {
      Record(w, Arrive(w, worker), Current());
    }

    method LoadStep(ghost w: nat) returns (item: Row)
      requires Valid() && w in workers && workers[w].phase.Begin?
      modifies this`workers, this`run
      ensures Valid() && Continues(old(run), run) && Quiet(old(run), run, w) && w in workers
      ensures workers[w] == old(workers[w]).(phase := AfterLoad(old(workers[w]).job, item, true))
      ensures workers[w].phase == Done ==> EndedSince(run, |old(run).actions|, w, Refused)
    {
      hide IsRun;
      item := row;
      Record(w, Load(w), Current());
    }

    method ReloadStep(ghost w: nat) returns (item: Row)
      requires Valid() && w in workers && workers[w].phase.Reloading? && workers[w].job.Analyze?
      modifies this`workers, this`run
      ensures Valid() && Continues(old(run), run) && Quiet(old(run), run, w) && w in workers
      ensures workers[w] == old(workers[w]).(phase := AfterLoad(old(workers[w]).job, item, false))
      ensures workers[w].phase == Done ==> EndedSince(run, |old(run).actions|, w, Refused)
    {
      hide IsRun;
      item := row;
      Record(w, Reload(w), Current());
    }

    /** Release an analysis whose lease has run out. */
    method RecoverStep(ghost w: nat, actor: nat, requestId: string, up: bool) returns (failed: bool, recovered: bool)
      requires Valid() && w in workers && workers[w].phase.Recovering?
      requires workers[w].actor == actor && workers[w].requestId == requestId
      modifies this`row, this`audits, this`workers, this`run
      ensures Valid() && Continues(old(run), run) && Quiet(old(run), run, w) && w in workers
      ensures workers[w] == old(workers[w]).(phase := if recovered then Reloading else Done)
      ensures var stale := old(row).status == Analyzing && old(row).updatedAt < clock - LEASE;
              && (recovered <==> up && stale && !Blank(requestId))
              && (failed <==> !up || (stale && Blank(requestId)))
      ensures clock == old(clock)
      ensures up && !recovered ==> EndedSince(run, |old(run).actions|, w, Refused)
    {
      hide IsRun;
      ghost var before := Current();
      var saved := row;
      var affected := RecoverCase(clock - LEASE);
      recovered := LogOrRollBack(saved, affected, AuditEntry(AnalysisRecovered, actor, requestId), up);
      failed := !up || (affected && !recovered);
      Record(w, Recover(w, clock, up), before);
    }

    /** Take the case from draft to analysing, under the version that was read. */
    method StartStep(ghost w: nat, item: Row, actor: nat, requestId: string, up: bool) returns (started: bool)
      requires Valid() && w in workers && workers[w].phase == Starting(item)
      requires workers[w].actor == actor && workers[w].requestId == requestId
      modifies this`row, this`audits, this`workers, this`run
      ensures Valid() && Continues(old(run), run) && Quiet(old(run), run, w) && w in workers
      ensures workers[w] == old(workers[w]).(phase :=
                if started then LoadingBaseline(item.(status := Analyzing, version := item.version + 1), clock) else Done)
      ensures started <==>
                && up && Transition(old(row), item.version, Draft, Analyzing, StartUpdates(), clock).Some?
                && !Blank(requestId)
      ensures clock == old(clock)
      ensures up && !started ==> EndedSince(run, |old(run).actions|, w, Refused)
    {
      hide IsRun;
      ghost var before := Current();
      var saved := row;
      var affected := TransitionCase(item.version, Draft, Analyzing, StartUpdates());
      started := LogOrRollBack(saved, affected, AuditEntry(AnalysisStarted, actor, requestId), up);
      Record(w, Start(w, up), before);
    }

    method ReadBaselineStep(ghost w: nat, item: Row, up: bool) returns (events: Result<seq<ComparableEvent>>)
      requires Valid() && w in workers && workers[w].phase.LoadingBaseline? && workers[w].phase.item == item
      modifies this`workers, this`run
      ensures Valid() && Continues(old(run), run) && Quiet(old(run), run, w) && w in workers
      ensures workers[w] == old(workers[w]).(phase :=
                if events.Ok? then LoadingCurrent(item, old(workers[w]).phase.startedAt, events.value)
                else Saving(item, old(workers[w]).phase.startedAt, Err(events.error)))
      ensures events.Ok? <==> up
    {
      hide IsRun, TraceStore.IsListing;
      if up {
        var rows := db.ForTrace(item.baselineTrace);
        events := Ok(rows);
      } else {
        events := Err("load baseline events");
      }
      Record(w, ReadBaseline(w, events), Current());
    }

    /** Read the second list and compare. */
    method ReadCurrentStep(ghost w: nat, item: Row, baseline: seq<ComparableEvent>, p: Params, up: bool)
      returns (compared: Result<seq<Difference>>)
      requires Valid() && w in workers && workers[w].job.Analyze? && workers[w].phase.LoadingCurrent?
      requires workers[w].phase.item == item && workers[w].phase.baseline == baseline
      requires p == Chosen(workers[w].job, item.params)
      modifies this`workers, this`run
      ensures Valid() && Continues(old(run), run) && Quiet(old(run), run, w) && w in workers
      ensures workers[w] == old(workers[w]).(phase := Saving(item, old(workers[w]).phase.startedAt, compared))
      ensures compared.Ok? ==> up && baseline != []
    {
      hide IsRun, TraceStore.IsListing, IsComparison, Chosen;
      if !up {
        compared := Err("load current events");
        Record(w, ReadCurrent(w, Err("load current events"), compared), Current());
        return;
      }
      var current := db.ForTrace(item.currentTrace);
      if |baseline| == 0 || |current| == 0 {
        compared := Err("both traces require detected events");
      } else {
        compared := CompareBaseline(baseline, current, p.tolerance, p.lossIncrease);
      }
      Record(w, ReadCurrent(w, Ok(current), compared), Current());
    }

    /** Store the result, or the error and the way back to draft. */
    method SaveStep(ghost w: nat, item: Row, job: Job, actor: nat, requestId: string, result: Result<seq<Difference>>, up: bool)
      returns (saved: bool)
      requires Valid() && w in workers && workers[w].job == job && job.Analyze?
      requires workers[w].phase.Saving? && workers[w].phase.item == item && workers[w].phase.result == result
      requires workers[w].actor == actor && workers[w].requestId == requestId
      modifies this`row, this`audits, this`workers, this`run
      ensures Valid() && Continues(old(run), run) && w in workers
      ensures if saved && result.Ok? then EndedSince(run, |old(run).actions|, w, Completed) else Quiet(old(run), run, w)
      ensures workers[w] == old(workers[w]).(phase := Done)
      ensures saved <==> up && old(row).status == Analyzing && !Blank(requestId)
      ensures saved && result.Ok? ==>
                && row.status == PendingReview && row.differences == result.value
                && row.params == Chosen(job, item.params) && AsRequested(row.params, job, item.params)
      ensures up && !(saved && result.Ok?) ==> EndedSince(run, |old(run).actions|, w, Refused)
    {
      hide Chosen, AsRequested, Best, Init, IsRun;
      ChosenAsRequested(job, item.params);
      ghost var before := Current();
      var kept := row;
      var updates := SaveUpdatesOf(job, item, result);
      var affected := SaveCase(SaveTarget(result), updates);
      saved := LogOrRollBack(kept, affected, AuditEntry(SaveKind(result), actor, requestId), up);
      Record(w, Save(w, up), before);
    }

    /** The columns of a save, with the primary difference computed from the differences. */
    method SaveUpdatesOf(job: Job, item: Row, result: Result<seq<Difference>>) returns (u: Updates)
      requires job.Analyze?
      ensures u == SaveUpdates(job, item, result)
    {
      hide Chosen, Best;
      if result.Err? {
        return NO_UPDATES.(analysisError := Some(result.error));
      }
      var distance, uncertainty, found := PrimaryDifference(result.value);
      u := NO_UPDATES.(differences := Some(result.value), params := Some(Chosen(job, item.params)), analysisError := Some(""));
      if found {
        u := u.(estimate := Some(Estimate(distance, uncertainty)));
      }
    }

    method CommitStep(ghost w: nat, job: Job, actor: nat, requestId: string, read: int, up: bool) returns (committed: bool)
      requires Valid() && w in workers && workers[w].phase.Committing? && workers[w].job == job && !job.Analyze?
      requires workers[w].actor == actor && workers[w].requestId == requestId && read <= clock
      modifies this`row, this`audits, this`workers, this`run
      ensures Valid() && Continues(old(run), run) && w in workers
      ensures workers[w] == old(workers[w]).(phase := Done)
      ensures if committed then EndedSince(run, |old(run).actions|, w, Completed) else Quiet(old(run), run, w)
      ensures committed <==> up && CommitRow(old(row), old(workers[w]), read, clock).Some? && !Blank(requestId)
      ensures row == if committed then CommitRow(old(row), old(workers[w]), read, clock).value else old(row)
      ensures up && !committed ==> EndedSince(run, |old(run).actions|, w, Refused)
    {
      hide IsRun, Init, Primary;
      ghost var before := Current();
      var kept := row;
      var affected, action;
      match job {
        case Confirm(version, conclusion, distance, uncertainty, _) =>
          affected := TransitionCase(version, PendingReview, Confirmed,
                                     NO_UPDATES.(conclusion := Some(conclusion),
                                                 estimate := Some(Estimate(distance, uncertainty)), reviewer := Some(actor)));
          action := CaseConfirmed;
        case Close(version) =>
          affected := TransitionCase(version, Confirmed, Closed, NO_UPDATES.(closedAt := Some(read)));
          action := CaseClosed;
      }
      committed := LogOrRollBack(kept, affected, AuditEntry(action, actor, requestId), up);
      Record(w, Commit(w, read, up), before);
    }

    // ----- Request handlers

    /** Read the case, releasing an expired analysis first; `Ok` when it may be started. */
    method ReadForAnalysis(ghost w: nat, job: Job, actor: nat, requestId: string) returns (r: Result<Row>)
      requires Valid() && w in workers && workers[w] == Worker(job, actor, requestId, Begin) && job.Analyze?
      modifies this, db
      ensures Valid() && Continues(old(run), run) && Quiet(old(run), run, w) && w in workers
      ensures workers[w] == Worker(job, actor, requestId, if r.Ok? then Starting(r.value) else Done)
      ensures r.Ok? ==> r.value.status == Draft
      ensures outages >= old(outages) && (r.Err? && outages == old(outages) ==> EndedSince(run, |old(run).actions|, w, Refused))
    {
      hide Chosen, Extends, Valid, EndedSince;
      ghost var first := run;
      ExtendsItself(first);
      var up := Available();
      if !up {
        FailStep(w);
        return Err("get case failed");
      }
      var item := LoadStep(w);
      if item.status == Analyzing {
        ghost var mid := run;
        r := ReadAgain(w, item, job, actor, requestId);
        if workers[w].phase == Done && outages == old(outages) {
          EndedEarlier(first, mid, run, w, Refused);
        }
        if r.Err? {
          return;
        }
        item := r.value;
      }
      if item.status == Closed {
        return Err("closed cases cannot be analyzed");
      }
      if !CanTransition(item.status, Analyzing) {
        return Err("case must be in draft before analysis");
      }
      return Ok(item);
    }

    /** Release the analysis that was found if its lease has run out, and read the case again. */
    method ReadAgain(ghost w: nat, item: Row, job: Job, actor: nat, requestId: string) returns (r: Result<Row>)
      requires Valid() && w in workers && workers[w] == Worker(job, actor, requestId, Recovering(item)) && job.Analyze?
      modifies this, db
      ensures Valid() && Continues(old(run), run) && Quiet(old(run), run, w) && w in workers
      ensures workers[w] == Worker(job, actor, requestId, if r.Ok? then AfterLoad(job, r.value, false) else Done)
      ensures outages >= old(outages) && (workers[w].phase == Done && outages == old(outages) ==> EndedSince(run, |old(run).actions|, w, Refused))
    {
      hide AfterLoad, Extends, Valid, EndedSince;
      ghost var first := run;
      ExtendsItself(first);
      Yield(w);
      ghost var mid := run;
      var up := Available();
      var failed, recovered := RecoverStep(w, actor, requestId, up);
      if up && !recovered {
        EndedEarlier(first, mid, run, w, Refused);
      }
      if failed {
        return Err("recover interrupted analysis failed");
      }
      if !recovered {
        return Err("case must be in draft before analysis");
      }
      Yield(w);
      up := Available();
      if !up {
        FailStep(w);
        return Err("reload recovered case failed");
      }
      mid := run;
      var reloaded := ReloadStep(w);
      if workers[w].phase == Done {
        EndedEarlier(first, mid, run, w, Refused);
      }
      return Ok(reloaded);
    }

    /**
     * Analyse the case; other handlers may run between any two transactions and reads, and the database
     * may fail each of them. `unread` says that the result was stored but could not be read back.
     */
    method AnalyzeCase(ghost w: nat, tolerance: real, lossIncrease: real, actor: nat, requestId: string)
      returns (r: Result<Row>, unread: bool)
      requires Valid() && w !in workers
      modifies this, db
      ensures Valid() && Extends(old(run), run)
      ensures w in workers && workers[w] == Worker(Analyze(tolerance, lossIncrease), actor, requestId, Done)
      ensures r.Ok? || unread <==> EndedSince(run, |old(run).actions|, w, Completed)
      ensures r.Err? && outages == old(outages) ==> EndedSince(run, |old(run).actions|, w, Refused)
      ensures unread ==> r.Err? && outages > old(outages)
      ensures r.Ok? ==> r.value == row
    {
      hide Chosen, Extends, Valid, EndedSince;
      ghost var first := run;
      ExtendsItself(first);
      NothingSinceNow(first, w);
      unread := false;
      var job := Analyze(tolerance, lossIncrease);
      ArriveStep(w, Worker(job, actor, requestId, Begin));
      Yield(w);
      ghost var mid := run;
      var ready := ReadForAnalysis(w, job, actor, requestId);
      if ready.Err? {
        if outages == old(outages) {
          EndedEarlier(first, mid, run, w, Refused);
        }
        return Err(ready.error), false;
      }
      var item := ready.value;
      Yield(w);
      mid := run;
      var up := Available();
      var started := StartStep(w, item, actor, requestId, up);
      if !started {
        if up {
          EndedEarlier(first, mid, run, w, Refused);
        }
        return Err("case changed while analysis was starting"), false;
      }
      item := item.(status := Analyzing, version := item.version + 1);
      mid := run;
      r, unread := CompareAndSave(w, item, job, actor, requestId);
      ExtendsTransitive(first, mid, run);
      if r.Ok? || unread {
        EndedEarlier(first, mid, run, w, Completed);
      } else if outages == old(outages) {
        EndedEarlier(first, mid, run, w, Refused);
      }
    }

    /** The rest of an analysis once it is started. */
    method CompareAndSave(ghost w: nat, item: Row, job: Job, actor: nat, requestId: string) returns (r: Result<Row>, unread: bool)
      requires Valid() && w in workers && workers[w].phase.LoadingBaseline? && workers[w].phase.item == item
      requires workers[w].job == job && job.Analyze? && workers[w].actor == actor && workers[w].requestId == requestId
      modifies this, db
      ensures Valid() && Extends(old(run), run)
      ensures w in workers && workers[w] == Worker(job, actor, requestId, Done)
      ensures if r.Ok? || unread then EndedSince(run, |old(run).actions|, w, Completed) else Quiet(old(run), run, w)
      ensures outages >= old(outages) && (r.Err? && outages == old(outages) ==> EndedSince(run, |old(run).actions|, w, Refused))
      ensures unread ==> r.Err? && outages > old(outages)
      ensures r.Ok? ==> r.value == row
    {
      hide Chosen, Extends, Valid, EndedSince;
      ghost var first := run;
      ExtendsItself(first);
      unread := false;
      var compared := CompareEvents(w, item, job);
      Yield(w);
      ghost var mid := run;
      var up := Available();
      var saved := SaveStep(w, item, job, actor, requestId, compared, up);
      if up && !(saved && compared.Ok?) {
        EndedEarlier(first, mid, run, w, Refused);
      }
      if compared.Err? {
        return Err("case analysis could not be completed"), false;
      }
      if !saved {
        return Err("case changed while analysis was saved"), false;
      }
      EndedEarlier(first, mid, run, w, Completed);
      Yield(w);
      up := Available();
      if !up {
        return Err("get localization case"), true;
      }
      return Ok(row), false;
    }

    /** Read both lists and compare them. */
    method CompareEvents(ghost w: nat, item: Row, job: Job) returns (compared: Result<seq<Difference>>)
      requires Valid() && w in workers && workers[w].phase.LoadingBaseline? && workers[w].phase.item == item
      requires workers[w].job == job && job.Analyze?
      modifies this, db
      ensures Valid() && Continues(old(run), run) && Quiet(old(run), run, w) && w in workers
      ensures workers[w] == old(workers[w]).(phase := Saving(item, old(workers[w]).phase.startedAt, compared))
      ensures outages >= old(outages)
    {
      hide Chosen, Extends, Valid, EndedSince;
      Yield(w);
      var up := Available();
      var baseline := ReadBaselineStep(w, item, up);
      if baseline.Err? {
        return Err(baseline.error);
      }
      Yield(w);
      up := Available();
      compared := ReadCurrentStep(w, item, baseline.value, Chosen(job, item.params), up);
    }

    /** The transaction of a confirm or close request, and the case as it is afterwards. */
    method CommitAndReload(ghost w: nat, job: Job, actor: nat, requestId: string, read: int, refusal: string)
      returns (r: Result<Row>, unread: bool)
      requires Valid() && w in workers && workers[w].phase.Committing? && workers[w].job == job && !job.Analyze?
      requires workers[w].actor == actor && workers[w].requestId == requestId && read <= clock
      modifies this, db
      ensures Valid() && Continues(old(run), run)
      ensures w in workers && workers[w] == Worker(job, actor, requestId, Done)
      ensures if r.Ok? || unread then EndedSince(run, |old(run).actions|, w, Completed) else Quiet(old(run), run, w)
      ensures r.Err? && outages == old(outages) ==> EndedSince(run, |old(run).actions|, w, Refused)
      ensures outages >= old(outages) && (unread ==> r.Err? && outages > old(outages))
      ensures r.Ok? ==> r.value == row
      ensures r.Err? && !unread ==> r == Err(refusal)
    {
      hide Extends, Valid, EndedSince, CommitRow, Written;
      ghost var first := run;
      ExtendsItself(first);
      Yield(w);
      ghost var mid := run;
      var up := Available();
      var committed := CommitStep(w, job, actor, requestId, read, up);
      if !committed {
        if up {
          EndedEarlier(first, mid, run, w, Refused);
        }
        return Err(refusal), false;
      }
      EndedEarlier(first, mid, run, w, Completed);
      Yield(w);
      up := Available();
      if !up {
        return Err("get localization case"), true;
      }
      return Ok(row), false;
    }

    /** Confirm the case under the version the client saw. */
    method ConfirmCase(ghost w: nat, version: nat, conclusion: string, distance: real, uncertainty: real, role: Role,
                       actor: nat, requestId: string) returns (r: Result<Row>, unread: bool)
      requires Valid() && w !in workers
      modifies this, db
      ensures Valid() && Extends(old(run), run)
      ensures r.Ok? || unread <==> EndedSince(run, |old(run).actions|, w, Completed)
      ensures unread ==> r.Err? && outages > old(outages)
      ensures r.Ok? ==> r.value == row
      ensures role != Analyst ==>
                && w in workers
                && workers[w] == Worker(Confirm(version, conclusion, distance, uncertainty, role), actor, requestId, Done)
                && (r.Err? && outages == old(outages) ==> EndedSince(run, |old(run).actions|, w, Refused))
      ensures role == Analyst ==> r == Err("reviewer role is required to confirm a case") && run == old(run)
    {
      hide Extends, Valid, EndedSince, CommitRow, Written;
      ghost var first := run;
      ExtendsItself(first);
      NothingSinceNow(first, w);
      if role == Analyst {
        return Err("reviewer role is required to confirm a case"), false;
      }
      var job := Confirm(version, conclusion, distance, uncertainty, role);
      ArriveStep(w, Worker(job, actor, requestId, Begin));
      Yield(w);
      var up := Available();
      if !up {
        FailStep(w);
        return Err("get case failed"), false;
      }
      ghost var mid := run;
      var item := LoadStep(w);
      if item.status == Closed {
        EndedEarlier(first, mid, run, w, Refused);
        return Err("closed cases cannot be modified"), false;
      }
      mid := run;
      r, unread := CommitAndReload(w, job, actor, requestId, clock, "case is not pending review or its version changed");
      if r.Ok? || unread {
        EndedEarlier(first, mid, run, w, Completed);
      } else if outages == old(outages) {
        EndedEarlier(first, mid, run, w, Refused);
      }
    }

    /** Close the case under the version the client saw; the closing time is read before the transaction. */
    method CloseCase(ghost w: nat, version: nat, actor: nat, requestId: string) returns (r: Result<Row>, unread: bool)
      requires Valid() && w !in workers
      modifies this, db
      ensures Valid() && Extends(old(run), run)
      ensures r.Ok? || unread <==> EndedSince(run, |old(run).actions|, w, Completed)
      ensures unread ==> r.Err? && outages > old(outages)
      ensures r.Ok? ==> r.value == row
      ensures w in workers && workers[w] == Worker(Close(version), actor, requestId, Done)
      ensures r.Err? && outages == old(outages) ==> EndedSince(run, |old(run).actions|, w, Refused)
    {
      hide Extends, Valid, EndedSince, CommitRow, Written;
      ghost var first := run;
      ExtendsItself(first);
      NothingSinceNow(first, w);
      var job := Close(version);
      ArriveStep(w, Worker(job, actor, requestId, Begin));
      Yield(w);
      var up := Available();
      if !up {
        FailStep(w);
        return Err("get case failed"), false;
      }
      var item := LoadStep(w);
      var now := clock;
      ghost var mid := run;
      r, unread := CommitAndReload(w, job, actor, requestId, now, "only a confirmed case with the current version can be closed");
      if r.Ok? || unread {
        EndedEarlier(first, mid, run, w, Completed);
      } else if outages == old(outages) {
        EndedEarlier(first, mid, run, w, Refused);
      }
    }
  }
}
