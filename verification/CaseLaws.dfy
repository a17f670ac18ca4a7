/** What every run of the case protocol keeps: versions, audit rows, stored content. */
module CaseLaws {
  import opened Audit
  import opened Basics
  import opened CaseProtocol
  import opened Comparison

  // ----- One step

  /** The status a case has after an action, when the action fits its status. */
  function Edge(status: Status, action: AuditAction): Option<Status> {
    match (status, action)
    case (Draft, AnalysisStarted) => Some(Analyzing)
    case (Analyzing, AnalysisRecovered) => Some(Draft)
    case (Analyzing, AnalysisFailed) => Some(Draft)
    case (Analyzing, AnalysisCompleted) => Some(PendingReview)
    case (PendingReview, CaseConfirmed) => Some(Confirmed)
    case (Confirmed, CaseClosed) => Some(Closed)
    case _ => None
  }

  ghost predicate Unmoved(s: State, after: State) {
    after.row == s.row && after.audits == s.audits
  }

  /** The row took one new version, and one audit row says by which action. */
  ghost predicate Moved(s: State, after: State) {
    && after.row.version == s.row.version + 1 && after.row.updatedAt == s.clock
    && |after.audits| == |s.audits| + 1 && after.audits[..|s.audits|] == s.audits
    && Edge(s.row.status, after.audits[|s.audits|].action) == Some(after.row.status)
    && after.row.baselineTrace == s.row.baselineTrace && after.row.currentTrace == s.row.currentTrace
    && (after.row.status in {Draft, Analyzing} || s.row.status != Analyzing ==>
          after.row.differences == s.row.differences && after.row.params == s.row.params)
    && (after.row.status in {Draft, Analyzing, Closed} ==> after.row.estimate == s.row.estimate)
    && (after.row.status == PendingReview ==>
          after.row.estimate == if after.row.differences == [] then s.row.estimate else Primary(after.row.differences))
  }

  /** A transaction touches nothing but the row and the audit rows. */
  ghost predicate SameRest(s: State, after: State) {
    after.workers == s.workers && after.clock == s.clock && after.store == s.store
  }

  lemma RecoverMoves(s: State, w: nat, read: int, up: bool)
    requires Recovers(s, w, read, up)
    ensures Moved(s, RecoverTx(s, w, read, up).value) && SameRest(s, RecoverTx(s, w, read, up).value)
    ensures s.row.updatedAt + LEASE < read
  {}

  lemma StartMoves(s: State, w: nat, up: bool)
    requires Starts(s, w, up)
    ensures Moved(s, StartTx(s, w, up).value) && SameRest(s, StartTx(s, w, up).value)
    ensures s.row.status == Draft && s.row.version == s.workers[w].phase.item.version
  {}

  lemma SaveMoves(s: State, w: nat, up: bool)
    requires Saves(s, w, up)
    ensures Moved(s, SaveTx(s, w, up).value) && SameRest(s, SaveTx(s, w, up).value)
    ensures s.row.status == Analyzing
  {
    hide Chosen, Best;
  }

  lemma CommitMoves(s: State, w: nat, read: int, up: bool)
    requires Commits(s, w, read, up)
    ensures Moved(s, CommitTx(s, w, read, up).value) && SameRest(s, CommitTx(s, w, read, up).value)
    ensures s.row.status in {PendingReview, Confirmed}
  {}

  /** A step either leaves the row and the audit rows alone or moves both by one. */
  lemma StepMoves(s: State, a: Action)
    requires Enabled(s, a)
    ensures Unmoved(s, Apply(s, a)) || Moved(s, Apply(s, a))
    ensures Apply(s, a).clock >= s.clock
  {
    hide RecoverTx, StartTx, SaveTx, CommitTx, Moved, AfterLoad;
    match a
    case Recover(w, read, up) =>
      if RecoverTx(s, w, read, up).Some? {
        RecoverMoves(s, w, read, up);
        MovedGoes(s, RecoverTx(s, w, read, up).value, w, Reloading);
      }
    case Start(w, up) =>
      if StartTx(s, w, up).Some? {
        StartMoves(s, w, up);
        MovedGoes(s, StartTx(s, w, up).value, w, Apply(s, a).workers[w].phase);
      }
    case Save(w, up) =>
      if SaveTx(s, w, up).Some? {
        SaveMoves(s, w, up);
        MovedGoes(s, SaveTx(s, w, up).value, w, Done);
      }
    case Commit(w, read, up) =>
      if CommitTx(s, w, read, up).Some? {
        CommitMoves(s, w, read, up);
        MovedGoes(s, CommitTx(s, w, read, up).value, w, Done);
      }
    case _ =>
  }

  lemma MovedGoes(s: State, after: State, w: nat, phase: Phase)
    requires Moved(s, after) && w in after.workers
    ensures Moved(s, Goes(after, w, phase))
  {}

  lemma ChosenAsRequested(job: Job, stored: Params)
    requires job.Analyze?
    ensures AsRequested(Chosen(job, stored), job, stored)
  {}

  // ----- The audit rows replay the case

  /** The status after a list of audit rows, if they can have been written in that order. */
  function Replayed(audits: seq<AuditEntry>): Option<Status> {
    if audits == [] then None
    else
      var last := |audits| - 1;
      if last == 0 then if audits[0].action == CaseCreated then Some(Draft) else None
      else
        match Replayed(audits[..last])
        case None => None
        case Some(status) => Edge(status, audits[last].action)
  }

  /** What holds of the row and its audit rows in every reachable state. */
  ghost predicate CaseInv(s: State) {
    && s.row.version == |s.audits|
    && Replayed(s.audits) == Some(s.row.status)
    && s.row.updatedAt <= s.clock
    && (s.row.status in {Draft, Analyzing} ==> s.row.differences == [] && s.row.estimate == None)
    && (s.row.status == PendingReview ==> s.row.estimate == Primary(s.row.differences))
  }

  lemma MovedKeepsCaseInv(s: State, after: State)
    requires CaseInv(s) && (Moved(s, after) || Unmoved(s, after)) && after.clock >= s.clock
    ensures CaseInv(after)
  {
    hide Best, Primary;
    if after.row.status == PendingReview && after.row.differences == [] {
      PrimaryOfNothing();
    }
  }

  lemma PrimaryOfNothing()
    ensures Primary([]) == None
  {}

  lemma PrimaryOfSomething(differences: seq<Difference>)
    ensures differences != [] ==> Primary(differences).Some?
  {}

  lemma InitCaseInv(s: State)
    requires Init(s)
    ensures CaseInv(s)
  {}

  lemma RunStep(r: Run, i: nat)
    requires IsRun(r) && i < |r.actions|
    ensures |r.states| == |r.actions| + 1
    ensures Enabled(r.states[i], r.actions[i]) && r.states[i + 1] == Apply(r.states[i], r.actions[i])
  {
    hide Enabled, Apply, Init;
    assert StepTaken(r, i);
  }

  lemma RunStart(r: Run)
    requires IsRun(r)
    ensures |r.states| == |r.actions| + 1 && Init(r.states[0])
  {
    hide Init;
  }

  /**
   * In every reachable state the version is the number of audit rows, replaying them gives the
   * status, unfinished cases have no results, and a pending estimate is the primary difference.
   */
  lemma {:induction false} AuditReplaysCase(r: Run, i: nat)
    requires IsRun(r) && i < |r.states|
    ensures CaseInv(r.states[i])
  {
    hide CaseInv, Moved, Unmoved, IsRun, Init, Enabled, Apply;
    if i == 0 {
      RunStart(r);
      InitCaseInv(r.states[0]);
    } else {
      RunLength(r);
      AuditReplaysCase(r, i - 1);
      RunStep(r, i - 1);
      StepMoves(r.states[i - 1], r.actions[i - 1]);
      MovedKeepsCaseInv(r.states[i - 1], r.states[i]);
    }
  }

  const CLOSING: seq<AuditAction> := [AnalysisStarted, AnalysisCompleted, CaseConfirmed, CaseClosed]

  function Progress(status: Status): nat {
    match status case Draft => 0 case Analyzing => 1 case PendingReview => 2 case Confirmed => 3 case Closed => 4
  }

  /** Created, then `n` analyses that were started and failed or recovered, then part of the closing sequence. */
  ghost predicate Grammatical(audits: seq<AuditEntry>, n: nat, progress: nat) {
    && |audits| == 1 + 2 * n + progress && progress <= 4
    && audits[0].action == CaseCreated
    && (forall k: nat | k < n :: audits[1 + 2 * k].action == AnalysisStarted
          && audits[2 + 2 * k].action in {AnalysisFailed, AnalysisRecovered})
    && (forall k: nat | k < progress :: audits[1 + 2 * n + k].action == CLOSING[k])
  }

  lemma GrammaticalEdge(front: seq<AuditEntry>, n: nat, status: Status, e: AuditEntry, next: Status)
    requires Grammatical(front, n, Progress(status)) && Edge(status, e.action) == Some(next)
    ensures Grammatical(front + [e], if next == Draft then n + 1 else n, Progress(next))
  {
    var all := front + [e];
    assert forall k | 0 <= k < |front| :: all[k] == front[k];
    if next == Draft {
      assert front[1 + 2 * n + 0].action == CLOSING[0];
      assert all[2 + 2 * n] == e;
    }
  }

  /**
   * The audit rows of a case: an analysis that was started ends in exactly one of completed,
   * failed or recovered before the next is started, and completion, confirmation and closing
   * follow once each.
   */
  lemma {:induction false} AuditGrammar(audits: seq<AuditEntry>) returns (n: nat)
    requires Replayed(audits).Some?
    ensures Grammatical(audits, n, Progress(Replayed(audits).value))
    decreases |audits|
  {
    n := 0;
    var last := |audits| - 1;
    if last > 0 {
      hide Grammatical;
      n := AuditGrammar(audits[..last]);
      var status := Replayed(audits[..last]).value;
      var next := Replayed(audits).value;
      assert audits == audits[..last] + [audits[last]];
      hide Replayed;
      GrammaticalEdge(audits[..last], n, status, audits[last], next);
      n := if next == Draft then n + 1 else n;
    }
  }

  /** Every change of status is an edge of the transition table. */
  lemma StatusFollowsTable(r: Run, i: nat)
    requires IsRun(r) && i < |r.actions|
    ensures |r.states| == |r.actions| + 1
    ensures r.states[i + 1].row.status == r.states[i].row.status
         || CanTransition(r.states[i].row.status, r.states[i + 1].row.status)
  {
    hide IsRun, Enabled, Apply;
    RunStep(r, i);
    StepMoves(r.states[i], r.actions[i]);
  }

  // ----- Versions

  /** What a later state keeps of an earlier one. */
  ghost predicate Follows(s: State, t: State) {
    && s.row.version <= t.row.version && s.clock <= t.clock
    && (s.row.version == t.row.version ==> t.row == s.row && t.audits == s.audits)
    && |s.audits| <= |t.audits| && t.audits[..|s.audits|] == s.audits
    && t.row.baselineTrace == s.row.baselineTrace && t.row.currentTrace == s.row.currentTrace
    && (s.row.status == Closed ==> t.row == s.row && t.audits == s.audits)
    && (s.row.status in {PendingReview, Confirmed} ==>
          t.row.status in {PendingReview, Confirmed, Closed}
          && t.row.differences == s.row.differences && t.row.params == s.row.params)
    && (s.row.status == Confirmed ==> t.row.status in {Confirmed, Closed} && t.row.estimate == s.row.estimate)
  }

  lemma StepFollows(s: State, a: Action)
    requires Enabled(s, a)
    ensures Follows(s, Apply(s, a))
  {
    hide Enabled, Apply;
    StepMoves(s, a);
  }

  lemma FollowsTransitive(s: State, t: State, u: State)
    requires Follows(s, t) && Follows(t, u)
    ensures Follows(s, u)
  {
    assert u.audits[..|s.audits|] == u.audits[..|t.audits|][..|s.audits|];
  }

  /**
   * Versions only grow and determine the record; closed records never change; differences and
   * parameters are frozen from pending review on, the estimate from confirmation on.
   */
  lemma {:induction false} LaterStatesFollow(r: Run, i: nat, j: nat)
    requires IsRun(r) && i <= j < |r.states|
    ensures Follows(r.states[i], r.states[j])
  {
    hide IsRun, Enabled, Apply, Follows;
    if i == j {
      FollowsItself(r.states[i]);
    } else {
      RunLength(r);
      LaterStatesFollow(r, i, j - 1);
      RunStep(r, j - 1);
      StepFollows(r.states[j - 1], r.actions[j - 1]);
      FollowsTransitive(r.states[i], r.states[j - 1], r.states[j]);
    }
  }

  lemma RunLength(r: Run)
    requires IsRun(r)
    ensures |r.states| == |r.actions| + 1
  {}

  lemma FollowsItself(s: State)
    ensures Follows(s, s)
  {}

  /** Two states of one run with the same version have the same record, in whatever order they came. */
  lemma VersionDeterminesRecord(r: Run, i: nat, j: nat)
    requires IsRun(r) && i < |r.states| && j < |r.states|
    requires r.states[i].row.version == r.states[j].row.version
    ensures r.states[i].row == r.states[j].row && r.states[i].audits == r.states[j].audits
  {
    if i <= j {
      LaterStatesFollow(r, i, j);
    } else {
      LaterStatesFollow(r, j, i);
    }
  }

  /** A confirm or close that succeeds acts on the very record its sender saw under that version. */
  lemma CommitActsOnSeenRecord(r: Run, i: nat, w: nat, read: int, up: bool, j: nat)
    requires IsRun(r) && j <= i < |r.actions| && r.actions[i] == Commit(w, read, up)
    requires Commits(r.states[i], w, read, up)
    requires r.states[j].row.version == (match r.states[i].workers[w].job
                                         case Confirm(v, _, _, _, _) => v
                                         case Close(v) => v
                                         case Analyze(_, _) => 0)
    ensures r.states[j].row == r.states[i].row
    ensures r.states[i].row.status == if r.states[i].workers[w].job.Confirm? then PendingReview else Confirmed
  {
    assert r.states[i].row.version == r.states[j].row.version;
    VersionDeterminesRecord(r, i, j);
  }

  // ----- Longer runs

  function LastState(r: Run): State
    requires r.states != []
  {
    r.states[|r.states| - 1]
  }

  ghost function Extended(r: Run, a: Action): Run
    requires r.states != [] && Enabled(LastState(r), a)
  {
    Run(r.states + [Apply(LastState(r), a)], r.actions + [a])
  }

  lemma ExtendedIsRun(r: Run, a: Action)
    requires IsRun(r) && Enabled(LastState(r), a)
    ensures IsRun(Extended(r, a)) && Extends(r, Extended(r, a))
  {
    hide Enabled, Apply, Init;
    var longer := Extended(r, a);
    forall i | 0 <= i < |longer.actions|
      ensures Enabled(longer.states[i], longer.actions[i])
           && longer.states[i + 1] == Apply(longer.states[i], longer.actions[i])
    {
      if i < |r.actions| {
        assert StepTaken(r, i);
      }
    }
  }

  ghost predicate Extends(r: Run, longer: Run) {
    && |r.states| <= |longer.states| && longer.states[..|r.states|] == r.states
    && |r.actions| <= |longer.actions| && longer.actions[..|r.actions|] == r.actions
  }

  lemma ExtendsTransitive(a: Run, b: Run, c: Run)
    requires Extends(a, b) && Extends(b, c)
    ensures Extends(a, c)
  {
    assert c.states[..|a.states|] == c.states[..|b.states|][..|a.states|];
    assert c.actions[..|a.actions|] == c.actions[..|b.actions|][..|a.actions|];
  }

  lemma ExtendsItself(a: Run)
    ensures Extends(a, a)
  {}
}
