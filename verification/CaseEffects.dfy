/** What each transaction writes into the case, column by column. */
module CaseEffects {
  import opened Audit
  import opened Basics
  import opened CaseLaws
  import opened CaseLease
  import opened CaseProtocol
  import opened CaseResults
  import opened Comparison

  /** The transition table, edge by edge. */
  lemma TransitionTable(from: Status, to: Status)
    ensures CanTransition(from, to) <==>
              || (from == Draft && to == Analyzing)
              || (from == Analyzing && to == Draft)
              || (from == Analyzing && to == PendingReview)
              || (from == PendingReview && to == Confirmed)
              || (from == Confirmed && to == Closed)
  {}

  /** A new case: the request's traces in their places, and the defaults for parameters left at zero. */
  lemma CreatedRow(request: CreateRequest, actor: nat, now: int)
    ensures var row := NewRow(request, actor, now);
            && row.routeId == request.routeId && row.createdBy == actor
            && row.baselineTrace == request.baselineTrace && row.currentTrace == request.currentTrace
            && row.status == Draft && row.version == 1 && row.updatedAt == now
            && row.params.tolerance == (if request.tolerance != 0.0 then request.tolerance else 25.0)
            && row.params.lossIncrease == (if request.lossIncrease != 0.0 then request.lossIncrease else 0.5)
            && row.differences == [] && row.estimate == None && row.reviewer == None && row.closedAt == None
            && row.conclusion == "" && row.analysisError == ""
  {}

  /** Where a worker goes once it has read the case. */
  lemma AfterReading(job: Job, item: Row, first: bool)
    ensures job.Analyze? ==>
              AfterLoad(job, item, first) ==
                if item.status == Draft then Starting(item)
                else if item.status == Analyzing && first then Recovering(item)
                else Done
    ensures job.Confirm? ==>
              AfterLoad(job, item, first) == if job.role != Analyst && item.status != Closed then Committing(item) else Done
    ensures job.Close? ==> AfterLoad(job, item, first) == Committing(item)
  {}

  /** The row and the log after a transaction of worker `w`. */
  ghost predicate Wrote(s: State, after: State, w: nat, row: Row, action: AuditAction)
    requires w in s.workers
  {
    && after.row == row
    && after.audits == s.audits + [AuditEntry(action, s.workers[w].actor, s.workers[w].requestId)]
  }

  /** A start clears the error of an earlier analysis and happens under the version that was read. */
  lemma StartWrites(s: State, w: nat, up: bool)
    requires w in s.workers && s.workers[w].phase.Starting?
    ensures Starts(s, w, up) <==>
              && up && s.row.status == Draft && s.row.version == s.workers[w].phase.item.version
              && !Blank(s.workers[w].requestId)
    ensures Starts(s, w, up) ==>
              Wrote(s, Apply(s, Start(w, up)), w,
                    s.row.(status := Analyzing, version := s.row.version + 1, updatedAt := s.clock, analysisError := ""),
                    AnalysisStarted)
  {}

  /** A recovery needs a row untouched for ten minutes, counted in nanoseconds. */
  lemma RecoverWrites(s: State, w: nat, read: int, up: bool)
    requires Enabled(s, Recover(w, read, up))
    ensures Recovers(s, w, read, up) <==>
              && up && s.row.status == Analyzing && s.row.updatedAt < read - 10 * 60 * 1_000_000_000
              && !Blank(s.workers[w].requestId)
    ensures Recovers(s, w, read, up) ==>
              Wrote(s, Apply(s, Recover(w, read, up)), w,
                    s.row.(status := Draft, version := s.row.version + 1, updatedAt := s.clock,
                           analysisError := "previous analysis worker expired; please retry"),
                    AnalysisRecovered)
  {}

  /** The row after a result was saved: results, parameters and the estimate of the difference the choice ends at. */
  ghost predicate Resolved(row: Row, after: Row, job: Job, stored: Params, differences: seq<Difference>, now: int)
    requires job.Analyze?
  {
    && after == row.(status := PendingReview, version := row.version + 1, updatedAt := now, analysisError := "",
                     differences := differences, params := after.params, estimate := after.estimate)
    && AsRequested(after.params, job, stored)
    && (differences == [] ==> after.estimate == row.estimate)
    && (forall chain :: LocatesEnd(after.estimate, differences, chain))
  }

  /** A save stores the result under the parameters the request asked for, or the error and the way back to draft. */
  lemma SaveWrites(s: State, w: nat, up: bool)
    requires w in s.workers && s.workers[w].phase.Saving? && s.workers[w].job.Analyze?
    ensures Saves(s, w, up) <==> up && s.row.status == Analyzing && !Blank(s.workers[w].requestId)
    ensures Saves(s, w, up) ==>
              var after, worker := Apply(s, Save(w, up)), s.workers[w];
              match worker.phase.result
              case Ok(differences) =>
                && Wrote(s, after, w, after.row, AnalysisCompleted)
                && Resolved(s.row, after.row, worker.job, worker.phase.item.params, differences, s.clock)
              case Err(message) =>
                Wrote(s, after, w, s.row.(status := Draft, version := s.row.version + 1, updatedAt := s.clock,
                                          analysisError := message), AnalysisFailed)
  {
    hide Resolved, Chosen, Primary;
    var worker := s.workers[w];
    if worker.phase.result.Ok? {
      ResolvedBy(s.row, worker.job, worker.phase.item, worker.phase.result.value, s.clock);
    }
  }

  lemma ResolvedBy(row: Row, job: Job, item: Row, differences: seq<Difference>, now: int)
    requires job.Analyze?
    ensures Resolved(row, Written(row, PendingReview, SaveUpdates(job, item, Ok(differences)), now), job, item.params,
                     differences, now)
  {
    hide Chosen, AsRequested, IsChain, Locates, Primary;
    ChosenAsRequested(job, item.params);
    PrimaryOfNothing();
    PrimaryOfSomething(differences);
    var after := Written(row, PendingReview, SaveUpdates(job, item, Ok(differences)), now);
    forall chain ensures LocatesEnd(after.estimate, differences, chain) {
      PrimaryLocates(differences, chain);
    }
  }

  /** A confirmation takes the reviewer's conclusion, distance and uncertainty, under the version that was sent. */
  lemma ConfirmWrites(s: State, w: nat, read: int, up: bool)
    requires Enabled(s, Commit(w, read, up)) && s.workers[w].job.Confirm?
    ensures var worker := s.workers[w];
            && (Commits(s, w, read, up) <==>
                  && up && s.row.status == PendingReview && s.row.version == worker.job.version && !Blank(worker.requestId))
            && (Commits(s, w, read, up) ==>
                  Wrote(s, Apply(s, Commit(w, read, up)), w,
                        s.row.(status := Confirmed, version := s.row.version + 1, updatedAt := s.clock,
                               conclusion := worker.job.conclusion,
                               estimate := Some(Estimate(worker.job.distance, worker.job.uncertainty)),
                               reviewer := Some(worker.actor)),
                        CaseConfirmed))
  {}

  /** A closing writes nothing but the time that was read for it. */
  lemma CloseWrites(s: State, w: nat, read: int, up: bool)
    requires Enabled(s, Commit(w, read, up)) && s.workers[w].job.Close?
    ensures var worker := s.workers[w];
            && (Commits(s, w, read, up) <==>
                  && up && s.row.status == Confirmed && s.row.version == worker.job.closeVersion && !Blank(worker.requestId))
            && (Commits(s, w, read, up) ==>
                  Wrote(s, Apply(s, Commit(w, read, up)), w,
                        s.row.(status := Closed, version := s.row.version + 1, updatedAt := s.clock, closedAt := Some(read)),
                        CaseClosed))
  {}

  // ----- Which request a finished case carries the parameters of

  /** Until a result is stored, the row and all analyses that may store one have the parameters of the creation. */
  ghost predicate ParamsKept(s: State, created: Params) {
    && (s.row.status in {Draft, Analyzing} ==> s.row.params == created)
    && (forall w | w in s.workers :: WorkerParams(s.workers[w], created))
  }

  ghost predicate WorkerParams(w: Worker, created: Params) {
    w.phase.Starting? || Running(w) ==> w.phase.item.params == created
  }

  lemma StepKeepsParams(s: State, a: Action, created: Params)
    requires Enabled(s, a) && ParamsKept(s, created)
    ensures ParamsKept(Apply(s, a), created)
  {
    var after := Apply(s, a);
    OthersStay(s, a);
    RowParams(s, a, created);
    if Mover(a).Some? {
      MoverParams(s, a, Mover(a).value, created);
    }
    hide Enabled, Apply;
  }

  lemma RowParams(s: State, a: Action, created: Params)
    requires Enabled(s, a) && ParamsKept(s, created)
    ensures Apply(s, a).row.status in {Draft, Analyzing} ==> Apply(s, a).row.params == created
  {
    StepMoves(s, a);
    hide Enabled, Apply;
  }

  lemma MoverParams(s: State, a: Action, w: nat, created: Params)
    requires Enabled(s, a) && ParamsKept(s, created) && Mover(a) == Some(w)
    ensures w in Apply(s, a).workers && WorkerParams(Apply(s, a).workers[w], created)
  {
    hide RecoverTx, StartTx, SaveTx, CommitTx;
  }

  lemma {:induction false} ReachableParams(r: Run, i: nat)
    requires IsRun(r) && i < |r.states|
    ensures ParamsKept(r.states[i], r.states[0].row.params)
  {
    hide IsRun, Init, Enabled, Apply, ParamsKept;
    if i == 0 {
      RunStart(r);
      InitParams(r.states[0]);
    } else {
      RunLength(r);
      ReachableParams(r, i - 1);
      RunStep(r, i - 1);
      StepKeepsParams(r.states[i - 1], r.actions[i - 1], r.states[0].row.params);
    }
  }

  lemma InitParams(s: State)
    requires Init(s)
    ensures ParamsKept(s, s.row.params)
  {}

  /** Step `k` stored the result and the parameters that `row` has, for the request of worker `w`. */
  ghost predicate StoredAt(r: Run, k: nat, w: nat, up: bool, row: Row)
    requires |r.states| == |r.actions| + 1
  {
    && k < |r.actions| && r.actions[k] == Save(w, up) && Saves(r.states[k], w, up)
    && r.states[k].workers[w].phase.result == Ok(row.differences)
    && AsRequested(row.params, r.states[k].workers[w].job, r.states[0].row.params)
  }

  ghost predicate Stored(r: Run, i: nat)
    requires |r.states| == |r.actions| + 1 && i < |r.states|
  {
    exists k: nat, w: nat, up: bool :: k < i && StoredAt(r, k, w, up, r.states[i].row)
  }

  /**
   * In every run a finished case holds the result of one worker, under the parameters that this worker's
   * request asked for, those of the creation standing in for what it left at zero.
   */
  lemma {:induction false} FinishedAsRequested(r: Run, i: nat)
    requires IsRun(r) && i < |r.states|
    ensures |r.states| == |r.actions| + 1
    ensures Finished(r.states[i].row) ==> Stored(r, i)
  {
    hide IsRun, Init, Enabled, Apply, AsRequested, Chosen, SaveTx, ParamsKept;
    RunLength(r);
    RunStart(r);
    if i == 0 {
      NewIsUnfinished(r.states[0]);
    } else if Finished(r.states[i].row) {
      FinishedAsRequested(r, i - 1);
      RunStep(r, i - 1);
      var s, a := r.states[i - 1], r.actions[i - 1];
      FinishedBy(s, a);
      if a.Save? && Saves(s, a.w, a.up) && s.workers[a.w].phase.result.Ok? {
        SaveMoves(s, a.w, a.up);
        ReachableParams(r, i - 1);
        SavedParams(s, a.w, r.states[0].row.params);
        assert a == Save(a.w, a.up);
        assert s.workers[a.w].phase.result == Ok(r.states[i].row.differences);
        assert AsRequested(r.states[i].row.params, s.workers[a.w].job, r.states[0].row.params);
        assert StoredAt(r, i - 1, a.w, a.up, r.states[i].row);
      } else {
        var k: nat, w: nat, up: bool :| k < i - 1 && StoredAt(r, k, w, up, s.row);
        assert StoredAt(r, k, w, up, r.states[i].row);
      }
    }
  }

  lemma NewIsUnfinished(s: State)
    requires Init(s)
    ensures !Finished(s.row)
  {}

  lemma SavedParams(s: State, w: nat, created: Params)
    requires ParamsKept(s, created) && w in s.workers && s.workers[w].phase.Saving? && s.workers[w].job.Analyze?
    ensures AsRequested(Chosen(s.workers[w].job, s.workers[w].phase.item.params), s.workers[w].job, created)
  {
    hide Chosen, AsRequested;
    ChosenAsRequested(s.workers[w].job, created);
    assert WorkerParams(s.workers[w], created);
  }
}
