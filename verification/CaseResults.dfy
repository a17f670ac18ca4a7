/** Where the stored results of a case come from, over every run. */
module CaseResults {
  import opened Audit
  import opened Basics
  import opened CaseLaws
  import opened CaseLease
  import opened CaseProtocol
  import opened Comparison
  import opened ComparisonLaws
  import TraceStore

  /** Some earlier state, with a version from `low` to `high`, listed these events for the trace. */
  ghost predicate ReadIn(r: Run, i: nat, low: nat, high: nat, traceId: nat, events: seq<ComparableEvent>) {
    exists a :: 0 <= a <= i < |r.states| && ReadAt(r, a, low, high, traceId, events)
  }

  ghost predicate ReadAt(r: Run, a: nat, low: nat, high: nat, traceId: nat, events: seq<ComparableEvent>)
    requires a < |r.states|
  {
    low <= r.states[a].row.version <= high && TraceStore.IsListing(r.states[a].store.markers, traceId, events)
  }

  /** The differences compare two event lists that were read earlier in the run. */
  ghost predicate ComparedFrom(r: Run, i: nat, low: nat, high: nat, item: Row, p: Params, baseline: seq<ComparableEvent>,
                               current: seq<ComparableEvent>, differences: seq<Difference>)
  {
    && baseline != [] && current != [] && p.tolerance > 0.0 && p.lossIncrease > 0.0
    && ReadIn(r, i, low, high, item.baselineTrace, baseline) && ReadIn(r, i, low, high, item.currentTrace, current)
    && IsComparison(baseline, current, p.tolerance, p.lossIncrease, differences)
  }

  ghost predicate Compared(r: Run, i: nat, low: nat, high: nat, item: Row, p: Params, differences: seq<Difference>) {
    exists baseline, current :: ComparedFrom(r, i, low, high, item, p, baseline, current, differences)
  }

  /** What a running worker has read since its own start. */
  ghost predicate WorkerResult(r: Run, i: nat, w: Worker)
    requires i < |r.states|
  {
    match w.phase
    case LoadingCurrent(item, _, baseline) =>
      ReadIn(r, i, item.version, r.states[i].row.version, item.baselineTrace, baseline)
    case Saving(item, _, result) =>
      w.job.Analyze? && (result.Ok? ==>
        Compared(r, i, item.version, r.states[i].row.version, item, Chosen(w.job, item.params), result.value))
    case _ => true
  }

  ghost predicate Finished(row: Row) {
    row.status in {PendingReview, Confirmed, Closed}
  }

  /**
   * The analysis of some worker: started by the audit row that gave version `low`, completed by the
   * same actor and request with the row that followed version `high`.
   */
  ghost predicate Episode(audits: seq<AuditEntry>, low: nat, high: nat) {
    && 1 <= low <= high < |audits|
    && audits[low - 1].action == AnalysisStarted
    && audits[high] == audits[low - 1].(action := AnalysisCompleted)
  }

  ghost predicate InTime(r: Run) {
    |r.states| == |r.actions| + 1 && Timely(r)
  }

  /** The row holds the comparison of lists read between a worker's start and its save. */
  ghost predicate HoldsResult(r: Run, i: nat, low: nat, high: nat)
    requires i < |r.states|
  {
    var row := r.states[i].row;
    && Episode(r.states[i].audits, low, high)
    && (InTime(r) ==> low == high)
    && Compared(r, i, low, high, row, row.params, row.differences)
  }

  ghost predicate HasResult(r: Run, i: nat)
    requires i < |r.states|
  {
    exists low, high :: HoldsResult(r, i, low, high)
  }

  /** A finished case holds a comparison under its stored parameters; so does a worker about to save one. */
  ghost predicate ResultsFrom(r: Run, i: nat)
    requires i < |r.states|
  {
    && (Finished(r.states[i].row) ==> HasResult(r, i))
    && (forall w | w in r.states[i].workers :: WorkerResult(r, i, r.states[i].workers[w]))
  }

  lemma ReadInLater(r: Run, i: nat, low: nat, high: nat, higher: nat, traceId: nat, events: seq<ComparableEvent>)
    requires ReadIn(r, i, low, high, traceId, events) && i + 1 < |r.states| && high <= higher
    ensures ReadIn(r, i + 1, low, higher, traceId, events)
  {
    hide TraceStore.IsListing;
    var a :| 0 <= a <= i < |r.states| && ReadAt(r, a, low, high, traceId, events);
    assert 0 <= a <= i + 1 && ReadAt(r, a, low, higher, traceId, events);
  }

  lemma ComparedLater(r: Run, i: nat, low: nat, high: nat, higher: nat, item: Row, p: Params, differences: seq<Difference>, row: Row)
    requires Compared(r, i, low, high, item, p, differences) && i + 1 < |r.states| && high <= higher && SameTraces(item, row)
    ensures Compared(r, i + 1, low, higher, row, p, differences)
  {
    hide ReadIn, IsComparison;
    var baseline, current :| ComparedFrom(r, i, low, high, item, p, baseline, current, differences);
    ReadInLater(r, i, low, high, higher, item.baselineTrace, baseline);
    ReadInLater(r, i, low, high, higher, item.currentTrace, current);
    assert ComparedFrom(r, i + 1, low, higher, row, p, baseline, current, differences);
  }

  lemma WorkerResultLater(r: Run, i: nat, w: Worker)
    requires i + 1 < |r.states| && WorkerResult(r, i, w)
    requires r.states[i].row.version <= r.states[i + 1].row.version
    ensures WorkerResult(r, i + 1, w)
  {
    hide ReadIn, Compared, Chosen;
    var high, higher := r.states[i].row.version, r.states[i + 1].row.version;
    match w.phase
    case LoadingCurrent(item, _, baseline) => ReadInLater(r, i, item.version, high, higher, item.baselineTrace, baseline);
    case Saving(item, _, result) =>
      if result.Ok? {
        ComparedLater(r, i, item.version, high, higher, item, Chosen(w.job, item.params), result.value, item);
      }
    case _ =>
  }

  lemma ReadNow(r: Run, i: nat, low: nat, traceId: nat, events: seq<ComparableEvent>)
    requires i + 1 < |r.states| && TraceStore.IsListing(r.states[i].store.markers, traceId, events)
    requires low <= r.states[i].row.version <= r.states[i + 1].row.version
    ensures ReadIn(r, i + 1, low, r.states[i + 1].row.version, traceId, events)
  {
    hide TraceStore.IsListing;
    assert 0 <= i <= i + 1 && ReadAt(r, i, low, r.states[i + 1].row.version, traceId, events);
  }

  /** Reading the lists gives the worker a result that compares what it read. */
  lemma ReadCurrentResult(r: Run, i: nat, w: nat, events: Result<seq<ComparableEvent>>, compared: Result<seq<Difference>>)
    requires i + 1 < |r.states| && Enabled(r.states[i], ReadCurrent(w, events, compared))
    requires r.states[i].workers[w].phase.item.version <= r.states[i].row.version <= r.states[i + 1].row.version
    requires WorkerResult(r, i, r.states[i].workers[w])
    ensures WorkerResult(r, i + 1, Apply(r.states[i], ReadCurrent(w, events, compared)).workers[w])
  {
    hide TraceStore.IsListing, ReadIn, Chosen, IsComparison;
    var worker := r.states[i].workers[w];
    var item := worker.phase.item;
    var low, high, higher := item.version, r.states[i].row.version, r.states[i + 1].row.version;
    if events.Ok? && compared.Ok? {
      ReadInLater(r, i, low, high, higher, item.baselineTrace, worker.phase.baseline);
      ReadNow(r, i, low, item.currentTrace, events.value);
      assert ComparedFrom(r, i + 1, low, higher, item, Chosen(worker.job, item.params), worker.phase.baseline, events.value,
                          compared.value);
    }
  }

  lemma ReadBaselineResult(r: Run, i: nat, w: nat, events: Result<seq<ComparableEvent>>)
    requires i + 1 < |r.states| && Enabled(r.states[i], ReadBaseline(w, events))
    requires r.states[i].workers[w].phase.item.version <= r.states[i].row.version <= r.states[i + 1].row.version
    requires CaseLease.Inv(r.states[i])
    ensures WorkerResult(r, i + 1, Apply(r.states[i], ReadBaseline(w, events)).workers[w])
  {
    hide TraceStore.IsListing, ReadIn, CaseInv;
    var worker := r.states[i].workers[w];
    assert WorkerInv(r.states[i], worker);
    if events.Ok? {
      ReadNow(r, i, worker.phase.item.version, worker.phase.item.baselineTrace, events.value);
    }
  }

  lemma MoverResult(r: Run, i: nat, a: Action, w: nat)
    requires i + 1 < |r.states| && Enabled(r.states[i], a) && Mover(a) == Some(w) && CaseLease.Inv(r.states[i])
    requires w in r.states[i].workers ==> WorkerResult(r, i, r.states[i].workers[w])
    requires w in Apply(r.states[i], a).workers && r.states[i].row.version <= r.states[i + 1].row.version
    ensures WorkerResult(r, i + 1, Apply(r.states[i], a).workers[w])
  {
    VersionsStarted(r.states[i]);
    if a.ReadCurrent? {
      hide CaseLease.Inv;
      ReadCurrentResult(r, i, w, a.events, a.compared);
    } else if a.ReadBaseline? {
      ReadBaselineResult(r, i, w, a.events);
    } else {
      hide CaseLease.Inv, WorkerResult;
      OtherPhase(r.states[i], a, w);
      Restful(r, i + 1, Apply(r.states[i], a).workers[w]);
    }
  }

  lemma OtherPhase(s: State, a: Action, w: nat)
    requires Enabled(s, a) && Mover(a) == Some(w) && !a.ReadCurrent? && !a.ReadBaseline?
    requires w in Apply(s, a).workers
    ensures !Apply(s, a).workers[w].phase.LoadingCurrent? && !Apply(s, a).workers[w].phase.Saving?
  {
    hide RecoverTx, StartTx, SaveTx, CommitTx, CanTransition;
  }

  lemma Restful(r: Run, i: nat, w: Worker)
    requires i < |r.states| && !w.phase.LoadingCurrent? && !w.phase.Saving?
    ensures WorkerResult(r, i, w)
  {}

  /** A successful save of a result stores that result and the parameters it was computed with. */
  lemma SavedResult(s: State, w: nat, up: bool)
    requires Saves(s, w, up)
    ensures var result := s.workers[w].phase.result;
            var row := SaveTx(s, w, up).value.row;
            if result.Ok? then
              && row.status == PendingReview && row.differences == result.value
              && row.params == Chosen(s.workers[w].job, s.workers[w].phase.item.params)
            else row.status == Draft
  {
    hide Chosen, Best, Primary;
  }

  /** How the row of a case becomes, or stays, finished. */
  lemma FinishedBy(s: State, a: Action)
    requires Enabled(s, a) && Finished(Apply(s, a).row)
    ensures (a.Save? && Saves(s, a.w, a.up) && s.workers[a.w].phase.result.Ok?
             && Apply(s, a).row.differences == s.workers[a.w].phase.result.value
             && Apply(s, a).row.params == Chosen(s.workers[a.w].job, s.workers[a.w].phase.item.params))
         || (Finished(s.row) && Apply(s, a).row.differences == s.row.differences && Apply(s, a).row.params == s.row.params)
  {
    hide Chosen, AfterLoad, RecoverTx, StartTx, SaveTx, CommitTx, Moved;
    if a.Save? && Saves(s, a.w, a.up) {
      SavedResult(s, a.w, a.up);
    } else {
      FinishedStays(s, a);
    }
  }

  lemma FinishedStays(s: State, a: Action)
    requires Enabled(s, a) && Finished(Apply(s, a).row) && !(a.Save? && Saves(s, a.w, a.up))
    ensures Finished(s.row) && Apply(s, a).row.differences == s.row.differences && Apply(s, a).row.params == s.row.params
  {
    StepMoves(s, a);
    if Apply(s, a).row.version != s.row.version {
      WhoMoves(s, a);
    }
    hide SaveTx;
  }

  lemma StepKeepsResults(r: Run, i: nat)
    requires IsRun(r) && i < |r.actions| && i + 1 < |r.states|
    requires ResultsFrom(r, i) && CaseLease.Inv(r.states[i])
    ensures ResultsFrom(r, i + 1)
  {
    hide IsRun, Enabled, Apply, WorkerResult, HasResult, Follows, Chosen, SaveTx;
    RunStep(r, i);
    var s, a, after := r.states[i], r.actions[i], r.states[i + 1];
    StepFollows(s, a);
    VersionGrows(s, after);
    RowResult(r, i);
    OthersStay(s, a);
    forall w | w in after.workers ensures WorkerResult(r, i + 1, after.workers[w]) {
      if Mover(a) == Some(w) {
        MoverResult(r, i, a, w);
      } else {
        WorkerResultLater(r, i, s.workers[w]);
      }
    }
  }

  lemma VersionGrows(s: State, after: State)
    requires Follows(s, after)
    ensures s.row.version <= after.row.version
  {}

  lemma RowResult(r: Run, i: nat)
    requires IsRun(r) && i < |r.actions| && i + 1 < |r.states|
    requires ResultsFrom(r, i) && CaseLease.Inv(r.states[i])
    ensures Finished(r.states[i + 1].row) ==> HasResult(r, i + 1)
  {
    RunStep(r, i);
    hide IsRun, Enabled, Apply, HoldsResult, WorkerResult, SaveTx, Chosen, Follows, CaseLease.Inv;
    var s, a, after := r.states[i], r.actions[i], r.states[i + 1];
    StepFollows(s, a);
    if Finished(after.row) {
      FinishedBy(s, a);
      if a.Save? && Saves(s, a.w, a.up) && s.workers[a.w].phase.result.Ok? {
        SaveIsBySaver(s, a.w, a.up);
        SavedHolds(r, i, a.w, a.up);
      } else {
        var low, high :| HoldsResult(r, i, low, high);
        HoldsLater(r, i, low, high);
      }
    }
  }

  /** A result stays what it was while the row is confirmed and closed. */
  lemma HoldsLater(r: Run, i: nat, low: nat, high: nat)
    requires i + 1 < |r.states| && Follows(r.states[i], r.states[i + 1]) && HoldsResult(r, i, low, high)
    requires r.states[i + 1].row.differences == r.states[i].row.differences && r.states[i + 1].row.params == r.states[i].row.params
    ensures HoldsResult(r, i + 1, low, high)
  {
    hide Compared, InTime;
    var s, after := r.states[i], r.states[i + 1];
    assert after.audits[..|s.audits|][low - 1] == s.audits[low - 1] && after.audits[..|s.audits|][high] == s.audits[high];
    ComparedLater(r, i, low, high, high, s.row, s.row.params, s.row.differences, after.row);
  }

  /** The saving worker's start and its save enclose its reads; in a timely run nothing lies in between. */
  lemma SavedHolds(r: Run, i: nat, w: nat, up: bool)
    requires IsRun(r) && i < |r.actions| && i + 1 < |r.states| && r.actions[i] == Save(w, up)
    requires Saves(r.states[i], w, up) && r.states[i].workers[w].phase.result.Ok?
    requires CaseLease.Inv(r.states[i]) && WorkerResult(r, i, r.states[i].workers[w])
    ensures HoldsResult(r, i + 1, r.states[i].workers[w].phase.item.version, r.states[i].row.version)
  {
    hide IsRun, Enabled, Apply, Compared, Chosen, SaveTx, InTime, CaseLease.Inv, HoldsResult;
    var s, after := r.states[i], r.states[i + 1];
    SaveIsBySaver(s, w, up);
    var worker := s.workers[w];
    var low, high := worker.phase.item.version, s.row.version;
    RunStep(r, i);
    SaverStarted(s, w);
    SavedEntry(s, w, up);
    SavedInTime(r, i, w, up);
    ComparedLater(r, i, low, high, high, worker.phase.item, Chosen(worker.job, worker.phase.item.params), worker.phase.result.value,
                  after.row);
    Holds(r, i + 1, low, high);
  }

  lemma Holds(r: Run, i: nat, low: nat, high: nat)
    requires i < |r.states| && Episode(r.states[i].audits, low, high) && (InTime(r) ==> low == high)
    requires Compared(r, i, low, high, r.states[i].row, r.states[i].row.params, r.states[i].row.differences)
    ensures HoldsResult(r, i, low, high)
  {
    hide Compared, InTime;
  }

  lemma SaveIsBySaver(s: State, w: nat, up: bool)
    requires Enabled(s, Save(w, up))
    ensures w in s.workers && s.workers[w].phase.Saving? && s.workers[w].job.Analyze?
  {}

  lemma SaverStarted(s: State, w: nat)
    requires CaseLease.Inv(s) && w in s.workers && s.workers[w].phase.Saving?
    ensures var worker := s.workers[w];
            && 1 <= worker.phase.item.version <= s.row.version == |s.audits|
            && s.audits[worker.phase.item.version - 1] == AuditEntry(AnalysisStarted, worker.actor, worker.requestId)
            && SameTraces(worker.phase.item, s.row)
  {
    assert WorkerInv(s, s.workers[w]);
    CaseInvVersion(s);
  }

  lemma SavedInTime(r: Run, i: nat, w: nat, up: bool)
    requires IsRun(r) && i < |r.actions| && i < |r.states| && r.actions[i] == Save(w, up)
    requires Saves(r.states[i], w, up)
    ensures InTime(r) ==> r.states[i].workers[w].phase.item.version == r.states[i].row.version
  {
    hide IsRun, SaveTx, Timely;
    if InTime(r) {
      TimelySaveIsOwn(r, i, w, up);
    }
  }

  lemma SavedEntry(s: State, w: nat, up: bool)
    requires Saves(s, w, up) && s.workers[w].phase.result.Ok?
    ensures var worker, after := s.workers[w], Apply(s, Save(w, up));
            && after.audits == s.audits + [AuditEntry(AnalysisCompleted, worker.actor, worker.requestId)]
            && after.row.differences == worker.phase.result.value
            && after.row.params == Chosen(worker.job, worker.phase.item.params)
            && SameTraces(s.row, after.row)
  {
    hide Chosen, Best, Primary;
  }

  /**
   * In every reachable state of every interleaving, a finished case holds the comparison, under its
   * stored parameters, of event lists of its two traces that were read between some worker's start
   * and its save; in a timely run, within the analysis that the save ended.
   */
  lemma {:induction false} ResultsAreComparisons(r: Run, i: nat)
    requires IsRun(r) && i < |r.states|
    ensures ResultsFrom(r, i)
  {
    hide IsRun, CaseLease.Inv;
    RunLength(r);
    if i == 0 {
      NoResultsYet(r);
    } else {
      hide ResultsFrom;
      ResultsAreComparisons(r, i - 1);
      CaseLease.ReachableInv(r, i - 1);
      StepKeepsResults(r, i - 1);
    }
  }

  lemma NoResultsYet(r: Run)
    requires IsRun(r) && 0 < |r.states|
    ensures ResultsFrom(r, 0)
  {}

  // ----- Error bounds, end to end

  lemma {:induction false} StoreIsSound(r: Run, i: nat)
    requires IsRun(r) && i < |r.states|
    ensures TraceStore.Inv(r.states[i].store)
  {
    hide TraceStore.Inv;
    if i == 0 {
      assert TraceStore.Inv(r.states[0].store);
    } else {
      RunLength(r);
      StoreIsSound(r, i - 1);
      RunStep(r, i - 1);
      hide IsRun;
      StoreStep(r.states[i - 1], r.actions[i - 1]);
    }
  }

  lemma StoreStep(s: State, a: Action)
    requires TraceStore.Inv(s.store) && Enabled(s, a)
    ensures TraceStore.Inv(Apply(s, a).store)
  {
    hide TraceStore.Inv, TraceStore.Enabled, TraceStore.Apply, AfterLoad, CanTransition, Best, Chosen, Logged;
    if a.Tables? {
      TraceStore.ApplyKeepsInv(s.store, a.step);
    }
  }

  lemma ReadIsConfident(r: Run, i: nat, low: nat, high: nat, traceId: nat, events: seq<ComparableEvent>)
    requires IsRun(r) && ReadIn(r, i, low, high, traceId, events)
    ensures Confident(events)
  {
    hide IsRun, TraceStore.IsListing, TraceStore.Inv, Confident;
    var a :| 0 <= a <= i < |r.states| && ReadAt(r, a, low, high, traceId, events);
    StoreIsSound(r, a);
    TraceStore.ListingConfident(r.states[a].store, traceId, events);
  }

  /**
   * Whatever was imported, detected, reviewed and interleaved before: the differences of a finished
   * case have confidence 0.54 to 0.99, and a pending case with differences has an estimate with an
   * uncertainty of 1 to 9.2 metres, where the difference is at which the choice ends; without
   * differences it has none.
   */
  lemma PendingUncertainty(r: Run, i: nat)
    requires IsRun(r) && i < |r.states|
    ensures Finished(r.states[i].row) ==>
              forall k | 0 <= k < |r.states[i].row.differences| :: DifferenceBounds(r.states[i].row.differences[k])
    ensures var row := r.states[i].row;
            row.status == PendingReview ==>
              && (row.estimate.Some? <==> row.differences != [])
              && (row.estimate.Some? ==> 1.0 <= row.estimate.value.uncertainty <= 9.2)
    ensures var row := r.states[i].row;
            row.status == PendingReview && row.differences != [] ==>
              exists chain :: IsChain(row.differences, chain) && LocatesEnd(row.estimate, row.differences, chain)
  {
    hide IsChain, LocatesEnd;
    hide IsRun, ReadIn, Confident, DifferenceBounds, WorkerResult, Episode, InTime;
    var row := r.states[i].row;
    ResultsAreComparisons(r, i);
    AuditReplaysCase(r, i);
    if Finished(row) {
      var low, high :| HoldsResult(r, i, low, high);
      var baseline, current :| ComparedFrom(r, i, low, high, row, row.params, baseline, current, row.differences);
      ReadIsConfident(r, i, low, high, row.baselineTrace, baseline);
      ReadIsConfident(r, i, low, high, row.currentTrace, current);
      ComparisonConfidence(baseline, current, row.params.tolerance, row.params.lossIncrease, row.differences);
      if row.differences != [] {
        PrimaryUncertainty(row.differences);
        var chain := ChainExists(row.differences);
        PrimaryLocates(row.differences, chain);
      }
      hide Best;
    }
  }
}
