/** Whose analysis a save ends: the ten-minute lease and what it does and does not protect. */
module CaseLease {
  import opened Audit
  import opened Basics
  import opened CaseLaws
  import opened CaseProtocol

  // ----- What workers know

  ghost predicate SameTraces(item: Row, row: Row) {
    item.baselineTrace == row.baselineTrace && item.currentTrace == row.currentTrace
  }

  /** A record read from the row: out of date, or exactly the row. */
  ghost predicate Known(s: State, item: Row) {
    item.version <= s.row.version && (item.version == s.row.version ==> item == s.row) && SameTraces(item, s.row)
  }

  /** The version a running worker's start gave the row. */
  function StartedVersion(w: Worker): nat
    requires Running(w)
  {
    w.phase.item.version
  }

  /** A running worker wrote the audit row of its start, and while the version is still its own so is the analysis. */
  ghost predicate Started(s: State, w: Worker)
    requires Running(w)
  {
    && w.job.Analyze? && !Blank(w.requestId)
    && 1 <= StartedVersion(w) <= s.row.version && StartedVersion(w) <= |s.audits|
    && s.audits[StartedVersion(w) - 1] == AuditEntry(AnalysisStarted, w.actor, w.requestId)
    && w.phase.startedAt <= s.clock
    && (StartedVersion(w) == s.row.version ==> s.row.status == Analyzing && s.row.updatedAt == w.phase.startedAt)
    && SameTraces(w.phase.item, s.row)
  }

  ghost predicate WorkerInv(s: State, w: Worker) {
    if Running(w) then Started(s, w)
    else match w.phase
      case Recovering(item) => Known(s, item) && w.job.Analyze?
      case Starting(item) => Known(s, item) && w.job.Analyze?
      case Reloading => w.job.Analyze?
      case Committing(item) => Known(s, item) && !w.job.Analyze?
      case _ => true
  }

  ghost predicate Distinct(workers: map<nat, Worker>) {
    forall v, w | v in workers && w in workers && v != w && Running(workers[v]) && Running(workers[w]) ::
      StartedVersion(workers[v]) != StartedVersion(workers[w])
  }

  ghost predicate Inv(s: State) {
    CaseInv(s) && (forall w | w in s.workers :: WorkerInv(s, s.workers[w])) && Distinct(s.workers)
  }

  lemma WorkerInvLater(s: State, after: State, w: Worker)
    requires WorkerInv(s, w) && Follows(s, after)
    ensures WorkerInv(after, w)
  {
    if Running(w) {
      assert after.audits[..|s.audits|][StartedVersion(w) - 1] == s.audits[StartedVersion(w) - 1];
    }
  }

  /** The worker a step moves, if any. */
  function Mover(a: Action): Option<nat> {
    match a
    case Tick(_) => None
    case Tables(_) => None
    case Arrive(w, _) => Some(w)
    case Load(w) => Some(w)
    case Recover(w, _, _) => Some(w)
    case Reload(w) => Some(w)
    case Start(w, _) => Some(w)
    case ReadBaseline(w, _) => Some(w)
    case ReadCurrent(w, _, _) => Some(w)
    case Save(w, _) => Some(w)
    case Commit(w, _, _) => Some(w)
    case Fail(w) => Some(w)
  }

  lemma OthersStay(s: State, a: Action)
    requires Enabled(s, a)
    ensures var after := Apply(s, a);
            && (forall v | v in s.workers :: v in after.workers)
            && (forall v | v in after.workers && Mover(a) != Some(v) :: v in s.workers && after.workers[v] == s.workers[v])
            && (Mover(a).Some? ==> Mover(a).value in after.workers)
  {
    hide AfterLoad, RecoverStale, SaveAnalysis, SaveUpdates, CommitRow, Transition, Logged;
  }

  /** A worker becomes running only by starting, and keeps its start until it saves. */
  lemma MoverRuns(s: State, a: Action, w: nat)
    requires Enabled(s, a) && Mover(a) == Some(w)
    requires Running(Apply(s, a).workers[w])
    ensures if a.Start? then Starts(s, w, a.up) && Apply(s, a).row == StartTx(s, w, a.up).value.row
            else
              && w in s.workers && Running(s.workers[w])
              && Apply(s, a).row == s.row && Apply(s, a).audits == s.audits && Apply(s, a).clock == s.clock
              && Apply(s, a).workers[w].job == s.workers[w].job && Apply(s, a).workers[w].actor == s.workers[w].actor
              && Apply(s, a).workers[w].requestId == s.workers[w].requestId
              && Apply(s, a).workers[w].phase.item == s.workers[w].phase.item
              && Apply(s, a).workers[w].phase.startedAt == s.workers[w].phase.startedAt
  {
    hide RecoverTx, StartTx, SaveTx, CommitTx, CanTransition;
  }

  lemma StartedAfterStart(s: State, w: nat, up: bool)
    requires CaseInv(s) && Starts(s, w, up) && WorkerInv(s, s.workers[w])
    ensures var after := Apply(s, Start(w, up));
            && Running(after.workers[w]) && Started(after, after.workers[w])
            && StartedVersion(after.workers[w]) == after.row.version == s.row.version + 1
            && after.workers[w].phase.startedAt == after.clock == s.clock
            && after.row.status == Analyzing
  {
    hide CaseInv;
    assert s.row.version == |s.audits| by {
      CaseInvVersion(s);
    }
  }

  lemma CaseInvVersion(s: State)
    requires CaseInv(s)
    ensures s.row.version == |s.audits|
  {}

  lemma MoverInv(s: State, a: Action, w: nat)
    requires Inv(s) && Enabled(s, a) && Mover(a) == Some(w) && Follows(s, Apply(s, a))
    ensures WorkerInv(Apply(s, a), Apply(s, a).workers[w])
  {
    hide CaseInv, Distinct, Moved;
    var after := Apply(s, a);
    if Running(after.workers[w]) {
      MoverRuns(s, a, w);
      if a.Start? {
        StartedAfterStart(s, w, a.up);
      } else {
        hide Follows;
        assert Started(s, s.workers[w]);
      }
    } else {
      MoverRests(s, a, w);
    }
  }

  lemma MoverRests(s: State, a: Action, w: nat)
    requires Enabled(s, a) && Mover(a) == Some(w) && !Running(Apply(s, a).workers[w])
    requires w in s.workers ==> WorkerInv(s, s.workers[w])
    ensures WorkerInv(Apply(s, a), Apply(s, a).workers[w])
  {
    hide RecoverTx, StartTx, SaveTx, CommitTx, CanTransition, Started, Moved;
    if a.Recover? && RecoverTx(s, w, a.read, a.up).Some? {
      RecoverMoves(s, w, a.read, a.up);
    }
  }

  lemma DistinctAfter(workers: map<nat, Worker>, after: map<nat, Worker>, w: nat, bound: nat)
    requires Distinct(workers)
    requires forall v | v in after && v != w :: v in workers && after[v] == workers[v]
    requires forall v | v in workers && Running(workers[v]) :: StartedVersion(workers[v]) <= bound
    requires w in after && Running(after[w]) ==>
               || StartedVersion(after[w]) > bound
               || (w in workers && Running(workers[w]) && StartedVersion(after[w]) == StartedVersion(workers[w]))
    ensures Distinct(after)
  {}

  lemma VersionsStarted(s: State)
    requires Inv(s)
    ensures forall v | v in s.workers && Running(s.workers[v]) :: StartedVersion(s.workers[v]) <= s.row.version
  {
    hide CaseInv;
    forall v | v in s.workers && Running(s.workers[v]) ensures StartedVersion(s.workers[v]) <= s.row.version {
      assert Started(s, s.workers[v]);
    }
  }

  lemma StepKeepsDistinct(s: State, a: Action)
    requires Inv(s) && Enabled(s, a)
    ensures Distinct(Apply(s, a).workers)
  {
    var after := Apply(s, a);
    OthersStay(s, a);
    VersionsStarted(s);
    if Mover(a).Some? {
      var w := Mover(a).value;
      if Running(after.workers[w]) {
        MoverRuns(s, a, w);
        if a.Start? {
          StartedAfterStart(s, w, a.up);
        }
      }
      hide Enabled, Apply, CaseInv, WorkerInv, Distinct;
      DistinctAfter(s.workers, after.workers, w, s.row.version);
    } else {
      hide Enabled, Apply;
      assert after.workers == s.workers;
    }
  }

  lemma StepKeepsInv(s: State, a: Action)
    requires Inv(s) && Enabled(s, a)
    ensures Inv(Apply(s, a))
  {
    var after := Apply(s, a);
    StepMoves(s, a);
    MovedKeepsCaseInv(s, after);
    StepFollows(s, a);
    OthersStay(s, a);
    StepKeepsDistinct(s, a);
    hide Follows, WorkerInv, Distinct, CaseInv, Enabled, Apply;
    forall w | w in after.workers ensures WorkerInv(after, after.workers[w]) {
      if Mover(a) == Some(w) {
        MoverInv(s, a, w);
      } else {
        WorkerInvLater(s, after, s.workers[w]);
      }
    }
  }

  lemma {:induction false} ReachableInv(r: Run, i: nat)
    requires IsRun(r) && i < |r.states|
    ensures Inv(r.states[i])
  {
    hide IsRun, Enabled, Apply, WorkerInv, CaseInv;
    if i == 0 {
      AuditReplaysCase(r, 0);
      NoWorkers(r);
    } else {
      RunLength(r);
      ReachableInv(r, i - 1);
      RunStep(r, i - 1);
      hide Inv;
      StepKeepsInv(r.states[i - 1], r.actions[i - 1]);
    }
  }

  /** A start that succeeds acts on the very record its worker read, with no change and change back in between. */
  lemma StartActsOnReadRecord(r: Run, i: nat, w: nat, up: bool)
    requires IsRun(r) && i < |r.actions| && r.actions[i] == Start(w, up)
    requires Starts(r.states[i], w, up)
    ensures r.states[i].row == r.states[i].workers[w].phase.item
  {
    hide IsRun, CaseInv, Distinct, Started, Moved, Enabled, Apply, StartTx;
    RunLength(r);
    ReachableInv(r, i);
    StartMoves(r.states[i], w, up);
    assert WorkerInv(r.states[i], r.states[i].workers[w]);
  }

  lemma NoWorkers(r: Run)
    requires IsRun(r)
    ensures r.states[0].workers == map[]
  {}

  // ----- Every save in time

  /** Every worker that saves does so within the lease of its own start. */
  ghost predicate Timely(r: Run)
    requires |r.states| == |r.actions| + 1
  {
    forall i | 0 <= i < |r.actions| :: SavesInTime(r.states[i], r.actions[i])
  }

  ghost predicate SavesInTime(s: State, a: Action) {
    a.Save? && a.w in s.workers && s.workers[a.w].phase.Saving? ==> s.clock <= s.workers[a.w].phase.startedAt + LEASE
  }

  /** No running worker within its lease has lost its analysis. */
  ghost predicate Undisturbed(s: State) {
    forall w | w in s.workers && Running(s.workers[w]) && s.clock <= s.workers[w].phase.startedAt + LEASE ::
      StartedVersion(s.workers[w]) == s.row.version
  }

  /** A change of the row by someone else leaves no running worker within its lease behind. */
  lemma NobodyDisturbed(s: State, a: Action, w: nat)
    requires Inv(s) && Enabled(s, a) && SavesInTime(s, a) && Undisturbed(s)
    requires Apply(s, a).row.version != s.row.version && Mover(a) != Some(w)
    requires w in s.workers && Running(s.workers[w])
    ensures s.clock > s.workers[w].phase.startedAt + LEASE
  {
    assert Started(s, s.workers[w]);
    WhoMoves(s, a);
    if a.Save? {
      SaverIsCurrent(s, a);
    }
    hide Enabled, Apply, CaseInv;
    if s.clock <= s.workers[w].phase.startedAt + LEASE {
      assert false;
    }
  }

  lemma SaverIsCurrent(s: State, a: Action)
    requires Enabled(s, a) && a.Save? && SavesInTime(s, a) && Undisturbed(s)
    ensures a.w in s.workers && Running(s.workers[a.w]) && StartedVersion(s.workers[a.w]) == s.row.version
  {}

  /** What a change of the row needs. */
  lemma WhoMoves(s: State, a: Action)
    requires Enabled(s, a) && Apply(s, a).row.version != s.row.version
    ensures match a
            case Recover(_, read, _) => s.row.updatedAt + LEASE < read <= s.clock
            case Start(_, _) => s.row.status == Draft
            case Save(_, _) => s.row.status == Analyzing
            case Commit(_, _, _) => s.row.status in {PendingReview, Confirmed}
            case _ => false
    ensures Apply(s, a).clock == s.clock
  {
    hide Moved, RecoverTx, StartTx, SaveTx, CommitTx, AfterLoad;
    match a
    case Recover(w, read, up) =>
      if RecoverTx(s, w, read, up).Some? {
        RecoverMoves(s, w, read, up);
      }
    case Start(w, up) =>
      if StartTx(s, w, up).Some? {
        StartMoves(s, w, up);
      }
    case Save(w, up) =>
      if SaveTx(s, w, up).Some? {
        SaveMoves(s, w, up);
      }
    case Commit(w, read, up) =>
      if CommitTx(s, w, read, up).Some? {
        CommitMoves(s, w, read, up);
      }
    case _ =>
  }

  lemma StepKeepsUndisturbed(s: State, a: Action)
    requires Inv(s) && Enabled(s, a) && SavesInTime(s, a) && Undisturbed(s)
    ensures Undisturbed(Apply(s, a))
  {
    var after := Apply(s, a);
    OthersStay(s, a);
    StepFollows(s, a);
    forall w | w in after.workers && Running(after.workers[w]) && after.clock <= after.workers[w].phase.startedAt + LEASE
      ensures StartedVersion(after.workers[w]) == after.row.version
    {
      if Mover(a) == Some(w) {
        MoverRuns(s, a, w);
        if a.Start? {
          StartedAfterStart(s, w, a.up);
        }
      } else if after.row.version != s.row.version {
        NobodyDisturbed(s, a, w);
      }
    }
  }

  lemma {:induction false} TimelyIsUndisturbed(r: Run, i: nat)
    requires IsRun(r) && Timely(r) && i < |r.states|
    ensures Undisturbed(r.states[i])
  {
    hide IsRun, Enabled, Apply, Undisturbed;
    if i == 0 {
      NoWorkers(r);
      NobodyIsDisturbed(r.states[0]);
    } else {
      RunLength(r);
      TimelyIsUndisturbed(r, i - 1);
      ReachableInv(r, i - 1);
      RunStep(r, i - 1);
      hide Inv;
      StepKeepsUndisturbed(r.states[i - 1], r.actions[i - 1]);
    }
  }

  lemma NobodyIsDisturbed(s: State)
    requires s.workers == map[]
    ensures Undisturbed(s)
  {}

  /**
   * Lease safety: if every save comes within ten minutes of its worker's own start, then each
   * successful save ends the analysis its worker started. The last audit row is that very start.
   */
  lemma TimelySaveIsOwn(r: Run, i: nat, w: nat, up: bool)
    requires IsRun(r) && Timely(r) && i < |r.actions| && r.actions[i] == Save(w, up)
    requires Saves(r.states[i], w, up)
    ensures var s := r.states[i];
            && Running(s.workers[w]) && StartedVersion(s.workers[w]) == s.row.version == |s.audits| > 0
            && s.audits[|s.audits| - 1] == AuditEntry(AnalysisStarted, s.workers[w].actor, s.workers[w].requestId)
  {
    hide IsRun, SaveTx;
    RunLength(r);
    TimelyIsUndisturbed(r, i);
    ReachableInv(r, i);
    assert SavesInTime(r.states[i], r.actions[i]);
    var s := r.states[i];
    assert Started(s, s.workers[w]);
  }

  /** How far a worker has come. */
  function PhaseRank(p: Phase): nat {
    match p
    case Begin => 0
    case Recovering(_) => 1
    case Reloading => 2
    case Starting(_) => 3
    case Committing(_) => 3
    case LoadingBaseline(_, _) => 4
    case LoadingCurrent(_, _, _) => 5
    case Saving(_, _, _) => 6
    case Done => 7
  }

  lemma RankGrows(s: State, a: Action, w: nat)
    requires Enabled(s, a) && w in s.workers
    ensures w in Apply(s, a).workers && PhaseRank(s.workers[w].phase) <= PhaseRank(Apply(s, a).workers[w].phase)
    ensures 4 <= PhaseRank(s.workers[w].phase) && PhaseRank(Apply(s, a).workers[w].phase) <= 6 ==>
              && Apply(s, a).workers[w].phase.startedAt == s.workers[w].phase.startedAt
              && Apply(s, a).workers[w].phase.item == s.workers[w].phase.item
  {
    OthersStay(s, a);
    hide RecoverTx, StartTx, SaveTx, CommitTx, CanTransition;
  }

  /** Once a worker is running it keeps its start until it saves or fails. */
  lemma {:induction false} StartIsKept(r: Run, i: nat, k: nat, w: nat)
    requires IsRun(r) && i <= k < |r.states|
    requires w in r.states[i].workers && Running(r.states[i].workers[w])
    ensures w in r.states[k].workers && PhaseRank(r.states[k].workers[w].phase) >= 4
    ensures Running(r.states[k].workers[w]) ==>
              && r.states[k].workers[w].phase.startedAt == r.states[i].workers[w].phase.startedAt
              && StartedVersion(r.states[k].workers[w]) == StartedVersion(r.states[i].workers[w])
  {
    hide IsRun, Enabled, Apply;
    if i < k {
      RunLength(r);
      RunStep(r, k - 1);
      StartIsKept(r, i, k - 1, w);
      RankGrows(r.states[k - 1], r.actions[k - 1], w);
    }
  }

  /** The same request, from the same actor. */
  ghost predicate SameRequest(v: Worker, w: Worker) {
    v.job == w.job && v.actor == w.actor && v.requestId == w.requestId
  }

  lemma StepKeepsRequest(s: State, a: Action, w: nat)
    requires Enabled(s, a) && w in s.workers
    ensures w in Apply(s, a).workers && SameRequest(s.workers[w], Apply(s, a).workers[w])
  {
    OthersStay(s, a);
    hide RecoverTx, StartTx, SaveTx, CommitTx, CanTransition;
  }

  /** A worker handles one request all its life. */
  lemma {:induction false} RequestIsKept(r: Run, i: nat, k: nat, w: nat)
    requires IsRun(r) && i <= k < |r.states| && w in r.states[i].workers
    ensures w in r.states[k].workers && SameRequest(r.states[i].workers[w], r.states[k].workers[w])
  {
    hide IsRun, Enabled, Apply;
    if i < k {
      RunLength(r);
      RunStep(r, k - 1);
      RequestIsKept(r, i, k - 1, w);
      StepKeepsRequest(r.states[k - 1], r.actions[k - 1], w);
    }
  }

  /**
   * No live worker is recovered: in a timely run, whoever started the analysis that is being
   * recovered never gets to save afterwards.
   */
  lemma NoLiveWorkerIsRecovered(r: Run, i: nat, v: nat, read: int, up: bool, w: nat, k: nat)
    requires IsRun(r) && Timely(r) && i < k < |r.actions|
    requires r.actions[i] == Recover(v, read, up) && Recovers(r.states[i], v, read, up)
    requires w in r.states[i].workers && Running(r.states[i].workers[w])
    requires StartedVersion(r.states[i].workers[w]) == r.states[i].row.version
    ensures !(r.actions[k].Save? && r.actions[k].w == w)
  {
    hide IsRun, Enabled, Apply, Follows;
    RunLength(r);
    RunStep(r, i);
    RunStep(r, k);
    ReachableInv(r, i);
    var s := r.states[i];
    assert Started(s, s.workers[w]);
    RecoverMoves(s, v, read, up);
    RecoverReads(s, v, read, up);
    ClockGrows(r, i, k);
    StartIsKept(r, i, k, w);
    SaveOnTime(r, k);
    if r.actions[k].Save? && r.actions[k].w == w {
      SaveIsFromSaving(r.states[k], w, r.actions[k].up);
      assert false;
    }
  }

  lemma SaveOnTime(r: Run, k: nat)
    requires IsRun(r) && Timely(r) && k < |r.actions|
    ensures SavesInTime(r.states[k], r.actions[k])
  {}

  lemma RecoverReads(s: State, v: nat, read: int, up: bool)
    requires Enabled(s, Recover(v, read, up))
    ensures read <= s.clock
  {}

  lemma SaveIsFromSaving(s: State, w: nat, up: bool)
    requires Enabled(s, Save(w, up))
    ensures w in s.workers && s.workers[w].phase.Saving?
  {}

  lemma ClockGrows(r: Run, i: nat, k: nat)
    requires IsRun(r) && i <= k < |r.states|
    ensures r.states[i].clock <= r.states[k].clock
  {
    LaterStatesFollow(r, i, k);
  }

  // ----- When a save comes late

  lemma AnalyzingWasStarted(audits: seq<AuditEntry>)
    requires Replayed(audits) == Some(Analyzing)
    ensures audits[|audits| - 1].action == AnalysisStarted
  {}

  /** The audit row of the worker's start is the last start in the log. */
  ghost predicate StartIsLast(s: State, w: Worker)
    requires Running(w) && 1 <= StartedVersion(w) <= |s.audits|
  {
    && s.audits[StartedVersion(w) - 1].action == AnalysisStarted
    && forall k | StartedVersion(w) <= k < |s.audits| :: s.audits[k].action != AnalysisStarted
  }

  /**
   * Whose analysis a save ends, in every reachable state: the worker's own exactly when the row
   * still has the version its start gave it. The save itself does not check this.
   */
  lemma SaveIsOwnIff(s: State, w: nat)
    requires Inv(s) && w in s.workers && Running(s.workers[w]) && s.row.status == Analyzing
    ensures 1 <= StartedVersion(s.workers[w]) <= |s.audits|
    ensures StartIsLast(s, s.workers[w]) <==> s.row.version == StartedVersion(s.workers[w])
  {
    assert WorkerInv(s, s.workers[w]);
    AnalyzingWasStarted(s.audits);
    hide Replayed;
  }
}
