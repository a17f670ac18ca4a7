/**
 * The case-analysis protocol: any number of workers over one case row, its audit rows and the
 * marker tables (backend/internal/service/case_service.go, backend/internal/repository/case_repository.go).
 */
module CaseProtocol {
  import opened Audit
  import opened Basics
  import opened Comparison
  import TraceStore

  // ----- The case row

  datatype Status = Draft | Analyzing | PendingReview | Confirmed | Closed

  const TRANSITIONS: map<Status, set<Status>> :=
    map[
      Draft := {Analyzing},
      Analyzing := {Draft, PendingReview},
      PendingReview := {Confirmed},
      Confirmed := {Closed},
      Closed := {}
    ]

  predicate CanTransition(from: Status, to: Status) {
    from in TRANSITIONS && to in TRANSITIONS[from]
  }

  datatype Params = Params(tolerance: real, lossIncrease: real)

  datatype Row = Row(routeId: nat, baselineTrace: nat, currentTrace: nat, createdBy: nat,
                     status: Status, version: nat, updatedAt: int,
                     params: Params, differences: seq<Difference>, estimate: Option<Estimate>,
                     analysisError: string, conclusion: string, reviewer: Option<nat>, closedAt: Option<int>)

  /** The columns an update names; the others keep their values. */
  datatype Updates = Updates(analysisError: Option<string>, differences: Option<seq<Difference>>, params: Option<Params>,
                             estimate: Option<Estimate>, conclusion: Option<string>, reviewer: Option<nat>, closedAt: Option<int>)

  const NO_UPDATES := Updates(None, None, None, None, None, None, None)

  function Or<T>(update: Option<T>, value: T): T {
    if update.Some? then update.value else value
  }

  /** Every update moves the version on and, as the ORM does, sets the time of change. */
  function Written(row: Row, to: Status, u: Updates, now: int): Row {
    row.(status := to, version := row.version + 1, updatedAt := now,
         analysisError := Or(u.analysisError, row.analysisError),
         differences := Or(u.differences, row.differences),
         params := Or(u.params, row.params),
         estimate := if u.estimate.Some? then u.estimate else row.estimate,
         conclusion := Or(u.conclusion, row.conclusion),
         reviewer := if u.reviewer.Some? then u.reviewer else row.reviewer,
         closedAt := if u.closedAt.Some? then u.closedAt else row.closedAt)
  }

  const LEASE := 600_000_000_000
  const EXPIRED := "previous analysis worker expired; please retry"

  // The conditional updates: the new row, or nothing when no row matches the condition.

  function Transition(row: Row, version: nat, from: Status, to: Status, u: Updates, now: int): Option<Row> {
    if row.version == version && row.status == from then Some(Written(row, to, u, now)) else None
  }

  /** Checks the status but not the version. */
  function SaveAnalysis(row: Row, to: Status, u: Updates, now: int): Option<Row> {
    if row.status == Analyzing then Some(Written(row, to, u, now)) else None
  }

  function RecoverStale(row: Row, cutoff: int, now: int): Option<Row> {
    if row.status == Analyzing && row.updatedAt < cutoff
    then Some(Written(row, Draft, NO_UPDATES.(analysisError := Some(EXPIRED)), now))
    else None
  }

  // ----- Workers

  datatype Role = Analyst | Reviewer | Admin

  datatype Job =
    | Analyze(tolerance: real, lossIncrease: real)
    | Confirm(version: nat, conclusion: string, distance: real, uncertainty: real, role: Role)
    | Close(closeVersion: nat)

  /**
   * Where a request handler is. `item` is its own copy of the row: from the start of an analysis
   * on, with the status and version it believes the row to have.
   */
  datatype Phase =
    | Begin
    | Recovering(item: Row)
    | Reloading
    | Starting(item: Row)
    | LoadingBaseline(item: Row, startedAt: int)
    | LoadingCurrent(item: Row, startedAt: int, baseline: seq<ComparableEvent>)
    | Saving(item: Row, startedAt: int, result: Result<seq<Difference>>)
    | Committing(item: Row)
    | Done

  datatype Worker = Worker(job: Job, actor: nat, requestId: string, phase: Phase)

  /** An analysis between its start and its save. */
  predicate Running(w: Worker) {
    w.phase.LoadingBaseline? || w.phase.LoadingCurrent? || w.phase.Saving?
  }

  datatype State = State(row: Row, audits: seq<AuditEntry>, clock: int, store: TraceStore.Store, workers: map<nat, Worker>)

  // ----- Steps

  datatype Action =
    | Tick(elapsed: nat)
    | Tables(step: TraceStore.Step)
    | Arrive(w: nat, worker: Worker)
    | Load(w: nat)
    | Recover(w: nat, read: int, up: bool)
    | Reload(w: nat)
    | Start(w: nat, up: bool)
    | ReadBaseline(w: nat, events: Result<seq<ComparableEvent>>)
    | ReadCurrent(w: nat, events: Result<seq<ComparableEvent>>, compared: Result<seq<Difference>>)
    | Save(w: nat, up: bool)
    | Commit(w: nat, read: int, up: bool)
    | Fail(w: nat)

  /** The parameters in force: the request's, else the stored ones, else the defaults. */
  function Chosen(request: Job, saved: Params): Params
    requires request.Analyze?
  {
    Params(TraceStore.OrElseReal(TraceStore.OrElseReal(request.tolerance, saved.tolerance), 25.0),
           TraceStore.OrElseReal(TraceStore.OrElseReal(request.lossIncrease, saved.lossIncrease), 0.5))
  }

  /** One parameter: a request's own value, else the stored one, else the default. */
  predicate Prefers(x: real, requested: real, stored: real, default: real) {
    && (requested != 0.0 ==> x == requested)
    && (requested == 0.0 && stored != 0.0 ==> x == stored)
    && (requested == 0.0 && stored == 0.0 ==> x == default)
  }

  /** The parameters an analysis request is to run with, given the stored ones. */
  predicate AsRequested(p: Params, request: Job, stored: Params)
    requires request.Analyze?
  {
    Prefers(p.tolerance, request.tolerance, stored.tolerance, 25.0)
    && Prefers(p.lossIncrease, request.lossIncrease, stored.lossIncrease, 0.5)
  }

  /** What comparing two event lists may return. */
  ghost predicate MayCompare(baseline: seq<ComparableEvent>, current: seq<ComparableEvent>, p: Params, r: Result<seq<Difference>>) {
    if baseline == [] || current == [] then r == Err("both traces require detected events")
    else if p.tolerance <= 0.0 then r == Err("distance tolerance must be positive")
    else if p.lossIncrease <= 0.0 then r == Err("loss increase threshold must be positive")
    else r.Ok? && IsComparison(baseline, current, p.tolerance, p.lossIncrease, r.value)
  }

  /** A list read from the marker tables, or any failure of the query. */
  ghost predicate MayRead(store: TraceStore.Store, traceId: nat, r: Result<seq<ComparableEvent>>) {
    r.Ok? ==> TraceStore.IsListing(store.markers, traceId, r.value)
  }

  function AfterLoad(job: Job, item: Row, first: bool): Phase {
    match job
    case Analyze(_, _) =>
      if item.status == Analyzing && first then Recovering(item)
      else if item.status == Closed || !CanTransition(item.status, Analyzing) then Done
      else Starting(item)
    case Confirm(_, _, _, _, role) =>
      if role == Analyst || item.status == Closed then Done else Committing(item)
    case Close(_) => Committing(item)
  }

  function SaveUpdates(job: Job, item: Row, result: Result<seq<Difference>>): Updates
    requires job.Analyze?
  {
    match result
    case Err(message) => NO_UPDATES.(analysisError := Some(message))
    case Ok(differences) =>
      NO_UPDATES.(differences := Some(differences), params := Some(Chosen(job, item.params)), analysisError := Some(""),
                  estimate := Primary(differences))
  }

  function SaveTarget(result: Result<seq<Difference>>): Status {
    if result.Ok? then PendingReview else Draft
  }

  function SaveKind(result: Result<seq<Difference>>): AuditAction {
    if result.Ok? then AnalysisCompleted else AnalysisFailed
  }

  /**
   * The conditional update of a confirm or close request, with the version the client sent and, for a
   * close, the time read before the transaction.
   */
  function CommitRow(row: Row, w: Worker, read: int, now: int): Option<Row>
    requires !w.job.Analyze?
  {
    match w.job
    case Confirm(version, conclusion, distance, uncertainty, _) =>
      Transition(row, version, PendingReview, Confirmed,
                 NO_UPDATES.(conclusion := Some(conclusion), estimate := Some(Estimate(distance, uncertainty)),
                             reviewer := Some(w.actor)), now)
    case Close(version) => Transition(row, version, Confirmed, Closed, NO_UPDATES.(closedAt := Some(read)), now)
  }

  /** A transaction writes the row and its audit entry, or nothing. */
  function Transact(s: State, update: Option<Row>, w: Worker, action: AuditAction, up: bool): Option<State> {
    var log := Logged(s.audits, AuditEntry(action, w.actor, w.requestId));
    if up && update.Some? && log.Some? then Some(s.(row := update.value, audits := log.value)) else None
  }

  function Goes(s: State, w: nat, phase: Phase): State
    requires w in s.workers
  {
    s.(workers := s.workers[w := s.workers[w].(phase := phase)])
  }

  function StartUpdates(): Updates {
    NO_UPDATES.(analysisError := Some(""))
  }

  ghost predicate Enabled(s: State, a: Action) {
    match a
    case Tick(_) => true
    case Tables(step) => TraceStore.Enabled(s.store, step)
    case Arrive(w, worker) => w !in s.workers && worker.phase == Begin
    case Load(w) => w in s.workers && s.workers[w].phase.Begin?
    case Recover(w, read, _) =>
      w in s.workers && s.workers[w].phase.Recovering? && read <= s.clock
    case Reload(w) => w in s.workers && s.workers[w].phase.Reloading? && s.workers[w].job.Analyze?
    case Start(w, _) => w in s.workers && s.workers[w].phase.Starting?
    case ReadBaseline(w, events) =>
      && w in s.workers && s.workers[w].phase.LoadingBaseline?
      && MayRead(s.store, s.workers[w].phase.item.baselineTrace, events)
    case ReadCurrent(w, events, compared) =>
      && w in s.workers && s.workers[w].phase.LoadingCurrent? && s.workers[w].job.Analyze?
      && MayRead(s.store, s.workers[w].phase.item.currentTrace, events)
      && (events.Ok? ==> MayCompare(s.workers[w].phase.baseline, events.value,
                                    Chosen(s.workers[w].job, s.workers[w].phase.item.params), compared))
    case Save(w, _) => w in s.workers && s.workers[w].phase.Saving? && s.workers[w].job.Analyze?
    case Commit(w, read, _) =>
      w in s.workers && s.workers[w].phase.Committing? && !s.workers[w].job.Analyze? && read <= s.clock
    case Fail(w) => w in s.workers
  }

  function RecoverTx(s: State, w: nat, read: int, up: bool): Option<State>
    requires w in s.workers
  {
    Transact(s, RecoverStale(s.row, read - LEASE, s.clock), s.workers[w], AnalysisRecovered, up)
  }

  function StartTx(s: State, w: nat, up: bool): Option<State>
    requires w in s.workers && s.workers[w].phase.Starting?
  {
    Transact(s, Transition(s.row, s.workers[w].phase.item.version, Draft, Analyzing, StartUpdates(), s.clock),
             s.workers[w], AnalysisStarted, up)
  }

  function SaveTx(s: State, w: nat, up: bool): Option<State>
    requires w in s.workers && s.workers[w].phase.Saving? && s.workers[w].job.Analyze?
  {
    var worker := s.workers[w];
    var result := worker.phase.result;
    Transact(s, SaveAnalysis(s.row, SaveTarget(result), SaveUpdates(worker.job, worker.phase.item, result), s.clock),
             worker, SaveKind(result), up)
  }

  function CommitTx(s: State, w: nat, read: int, up: bool): Option<State>
    requires w in s.workers && !s.workers[w].job.Analyze?
  {
    Transact(s, CommitRow(s.row, s.workers[w], read, s.clock), s.workers[w],
             if s.workers[w].job.Confirm? then CaseConfirmed else CaseClosed, up)
  }

  // Transactions that commit.

  predicate Recovers(s: State, w: nat, read: int, up: bool) {
    w in s.workers && RecoverTx(s, w, read, up).Some?
  }

  predicate Starts(s: State, w: nat, up: bool) {
    w in s.workers && s.workers[w].phase.Starting? && StartTx(s, w, up).Some?
  }

  predicate Saves(s: State, w: nat, up: bool) {
    w in s.workers && s.workers[w].phase.Saving? && s.workers[w].job.Analyze? && SaveTx(s, w, up).Some?
  }

  predicate Commits(s: State, w: nat, read: int, up: bool) {
    w in s.workers && !s.workers[w].job.Analyze? && CommitTx(s, w, read, up).Some?
  }

  ghost function Apply(s: State, a: Action): State
    requires Enabled(s, a)
  {
    match a
    case Tick(elapsed) => s.(clock := s.clock + elapsed)
    case Tables(step) => s.(store := TraceStore.Apply(s.store, step))
    case Arrive(w, worker) => s.(workers := s.workers[w := worker])
    case Load(w) => Goes(s, w, AfterLoad(s.workers[w].job, s.row, true))
    case Recover(w, read, up) =>
      var tx := RecoverTx(s, w, read, up);
      if tx.Some? then Goes(tx.value, w, Reloading) else Goes(s, w, Done)
    case Reload(w) => Goes(s, w, AfterLoad(s.workers[w].job, s.row, false))
    case Start(w, up) =>
      var tx := StartTx(s, w, up);
      var item := s.workers[w].phase.item;
      if tx.Some?
      then Goes(tx.value, w, LoadingBaseline(item.(status := Analyzing, version := item.version + 1), s.clock))
      else Goes(s, w, Done)
    case ReadBaseline(w, events) =>
      var p := s.workers[w].phase;
      Goes(s, w, if events.Ok? then LoadingCurrent(p.item, p.startedAt, events.value)
                 else Saving(p.item, p.startedAt, Err(events.error)))
    case ReadCurrent(w, events, compared) =>
      var p := s.workers[w].phase;
      Goes(s, w, Saving(p.item, p.startedAt, if events.Ok? then compared else Err(events.error)))
    case Save(w, up) =>
      var tx := SaveTx(s, w, up);
      Goes(if tx.Some? then tx.value else s, w, Done)
    case Commit(w, read, up) =>
      var tx := CommitTx(s, w, read, up);
      Goes(if tx.Some? then tx.value else s, w, Done)
    case Fail(w) => Goes(s, w, Done)
  }

  // ----- Creation

  datatype CreateRequest = CreateRequest(routeId: nat, baselineTrace: nat, currentTrace: nat, tolerance: real, lossIncrease: real)

  function NewRow(request: CreateRequest, actor: nat, now: int): Row {
    Row(request.routeId, request.baselineTrace, request.currentTrace, actor, Draft, 1, now,
        Params(TraceStore.OrElseReal(request.tolerance, 25.0), TraceStore.OrElseReal(request.lossIncrease, 0.5)),
        [], None, "", "", None, None)
  }

  /** A case just created, with its first audit row, over tables in any reachable state. */
  ghost predicate Init(s: State) {
    && TraceStore.Inv(s.store)
    && s.workers == map[]
    && exists request: CreateRequest, actor: nat, requestId: string ::
         !Blank(requestId) && s.row == NewRow(request, actor, s.clock) && s.audits == [AuditEntry(CaseCreated, actor, requestId)]
  }

  // ----- Runs

  datatype Run = Run(states: seq<State>, actions: seq<Action>)

  ghost predicate StepTaken(r: Run, i: nat)
    requires i < |r.actions| && i + 1 < |r.states|
  {
    Enabled(r.states[i], r.actions[i]) && r.states[i + 1] == Apply(r.states[i], r.actions[i])
  }

  ghost predicate IsRun(r: Run) {
    && |r.states| == |r.actions| + 1 && Init(r.states[0])
    && forall i: nat | i < |r.actions| :: StepTaken(r, i)
  }
}
