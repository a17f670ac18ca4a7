/** What may happen once a worker's lease is over: the analysis is restarted, and a late save ends the new one. */
module CaseLateSave {
  import opened Audit
  import opened Basics
  import opened CaseLaws
  import opened CaseLease
  import opened CaseProtocol
  import TraceStore

  /** A sequence of steps from one state to another. */
  ghost predicate Leads(s: State, actions: seq<Action>, t: State)
    decreases |actions|
  {
    if actions == [] then s == t
    else Enabled(s, actions[0]) && Leads(Apply(s, actions[0]), actions[1..], t)
  }

  lemma {:induction false} LeadsOn(s: State, actions: seq<Action>, t: State, a: Action)
    requires Leads(s, actions, t) && Enabled(t, a)
    ensures Leads(s, actions + [a], Apply(t, a))
    decreases |actions|
  {
    hide Enabled, Apply;
    if actions == [] {
      assert ([] + [a])[1..] == [];
      assert Leads(Apply(t, a), [], Apply(t, a));
    } else {
      assert (actions + [a])[1..] == actions[1..] + [a];
      LeadsOn(Apply(s, actions[0]), actions[1..], t, a);
    }
  }

  const RIVAL := Worker(Analyze(0.0, 0.0), 2, "retry", Begin)

  /** A rival arrives once the lease is over, and finds the analysis still going. */
  lemma RivalArrives(s: State, v: nat) returns (actions: seq<Action>, t: State)
    requires s.row.status == Analyzing && s.row.updatedAt <= s.clock && v !in s.workers
    ensures Leads(s, actions, t)
    ensures t == s.(clock := s.clock + LEASE + 1, workers := s.workers[v := RIVAL.(phase := Recovering(s.row))])
  {
    hide Enabled, Apply;
    actions, t := [Tick(LEASE + 1)], s.(clock := s.clock + LEASE + 1);
    TickOnce(s);
    ArriveAndLoad(t, v);
    LeadsOn(s, actions, t, Arrive(v, RIVAL));
    var arrived := t.(workers := t.workers[v := RIVAL]);
    LeadsOn(s, actions + [Arrive(v, RIVAL)], arrived, Load(v));
    actions := actions + [Arrive(v, RIVAL)] + [Load(v)];
    t := Apply(arrived, Load(v));
    assert t.workers == s.workers[v := RIVAL.(phase := Recovering(s.row))];
  }

  lemma TickOnce(s: State)
    ensures Leads(s, [Tick(LEASE + 1)], s.(clock := s.clock + LEASE + 1))
  {
    var a := Tick(LEASE + 1);
    assert [a][1..] == [];
    assert Leads(Apply(s, a), [], Apply(s, a));
  }

  lemma ArriveAndLoad(s: State, v: nat)
    requires s.row.status == Analyzing && v !in s.workers
    ensures Enabled(s, Arrive(v, RIVAL))
    ensures var arrived := s.(workers := s.workers[v := RIVAL]);
            && Apply(s, Arrive(v, RIVAL)) == arrived
            && Enabled(arrived, Load(v))
            && Apply(arrived, Load(v)) == s.(workers := s.workers[v := RIVAL.(phase := Recovering(s.row))])
  {
    var arrived := s.(workers := s.workers[v := RIVAL]);
    assert Apply(arrived, Load(v)).workers == s.workers[v := RIVAL.(phase := Recovering(s.row))];
  }

  function RecoveredRow(row: Row, now: int): Row {
    Written(row, Draft, NO_UPDATES.(analysisError := Some(EXPIRED)), now)
  }

  lemma RivalRecovers(s: State, v: nat)
    requires v in s.workers && s.workers[v] == RIVAL.(phase := Recovering(s.row))
    requires s.row.status == Analyzing && s.row.updatedAt + LEASE < s.clock
    ensures Enabled(s, Recover(v, s.clock, true))
    ensures Apply(s, Recover(v, s.clock, true))
         == s.(row := RecoveredRow(s.row, s.clock), audits := s.audits + [AuditEntry(AnalysisRecovered, 2, "retry")],
               workers := s.workers[v := RIVAL.(phase := Reloading)])
  {
    assert !IsSpace("retry"[0]);
    var after := Apply(s, Recover(v, s.clock, true));
    assert after.workers == s.workers[v := RIVAL.(phase := Reloading)];
  }

  lemma RivalRestarts(s: State, v: nat)
    requires v in s.workers && s.workers[v] == RIVAL.(phase := Reloading) && s.row.status == Draft
    ensures Enabled(s, Reload(v))
    ensures var loaded := s.(workers := s.workers[v := RIVAL.(phase := Starting(s.row))]);
            && Apply(s, Reload(v)) == loaded && Enabled(loaded, Start(v, true))
            && Apply(loaded, Start(v, true))
               == s.(row := Written(s.row, Analyzing, StartUpdates(), s.clock),
                     audits := s.audits + [AuditEntry(AnalysisStarted, 2, "retry")],
                     workers := s.workers[v := RIVAL.(phase := LoadingBaseline(
                       s.row.(status := Analyzing, version := s.row.version + 1), s.clock))])
  {
    var loaded := s.(workers := s.workers[v := RIVAL.(phase := Starting(s.row))]);
    assert Apply(s, Reload(v)).workers == loaded.workers;
    assert !IsSpace("retry"[0]);
    var after := Apply(loaded, Start(v, true));
    assert after.workers == s.workers[v := RIVAL.(phase := LoadingBaseline(s.row.(status := Analyzing, version := s.row.version + 1), s.clock))];
  }

  /** Once the lease is over a fresh worker may take an analysis over, whether or not anyone still works on it. */
  lemma FreshWorkerRestarts(s: State, v: nat) returns (actions: seq<Action>, t: State)
    requires s.row.status == Analyzing && s.row.updatedAt <= s.clock && v !in s.workers
    ensures Leads(s, actions, t)
    ensures forall w | w in s.workers :: w in t.workers && t.workers[w] == s.workers[w]
    ensures t.row.status == Analyzing && t.row.version == s.row.version + 2
    ensures v in t.workers && Running(t.workers[v]) && StartedVersion(t.workers[v]) == t.row.version
  {
    hide Enabled, Apply, Leads;
    actions, t := RivalArrives(s, v);
    RivalRecovers(t, v);
    LeadsOn(s, actions, t, Recover(v, t.clock, true));
    actions, t := actions + [Recover(v, t.clock, true)], Apply(t, Recover(v, t.clock, true));
    RivalRestarts(t, v);
    LeadsOn(s, actions, t, Reload(v));
    actions, t := actions + [Reload(v)], Apply(t, Reload(v));
    LeadsOn(s, actions, t, Start(v, true));
    actions, t := actions + [Start(v, true)], Apply(t, Start(v, true));
  }

  /** An analysis is never stuck: every run whose case is analysing goes on to one in which a fresh worker has restarted it. */
  lemma AnalysisMayRestart(r: Run, v: nat) returns (longer: Run)
    requires IsRun(r) && r.states != [] && LastState(r).row.status == Analyzing && v !in LastState(r).workers
    ensures IsRun(longer) && longer.states != [] && Extends(r, longer)
    ensures v in LastState(longer).workers && Running(LastState(longer).workers[v])
    ensures LastState(longer).row.status == Analyzing
    ensures StartedVersion(LastState(longer).workers[v]) == LastState(longer).row.version
  {
    hide IsRun, Enabled, Apply, Leads, CaseInv;
    RunLength(r);
    AuditReplaysCase(r, |r.states| - 1);
    ChangedInThePast(LastState(r));
    var actions, t := FreshWorkerRestarts(LastState(r), v);
    longer := RunOn(r, actions, t);
  }

  lemma ChangedInThePast(s: State)
    requires CaseInv(s)
    ensures s.row.updatedAt <= s.clock
  {}

  /** What a running worker still has to do before it saves; it may find the tables out of reach. */
  function ToSave(w: nat, p: Phase): seq<Action> {
    match p
    case LoadingBaseline(_, _) => [ReadBaseline(w, Err("load baseline events"))]
    case LoadingCurrent(_, _, _) => [ReadCurrent(w, Err("load current events"), Err("load current events"))]
    case _ => []
  }

  lemma WorkerGetsToSave(s: State, w: nat) returns (t: State)
    requires w in s.workers && Running(s.workers[w]) && s.workers[w].job.Analyze?
    ensures Leads(s, ToSave(w, s.workers[w].phase), t)
    ensures t.row == s.row && w in t.workers && t.workers[w].phase.Saving?
    ensures t.workers[w] == s.workers[w].(phase := t.workers[w].phase)
    ensures StartedVersion(t.workers[w]) == StartedVersion(s.workers[w])
    ensures s.workers[w].phase.Saving? ==> t.workers[w] == s.workers[w]
    ensures forall v | v in s.workers && v != w :: v in t.workers && t.workers[v] == s.workers[v]
  {
    var actions := ToSave(w, s.workers[w].phase);
    if actions == [] {
      t := s;
    } else {
      t := Apply(s, actions[0]);
      assert actions[1..] == [];
      assert Leads(t, [], t);
    }
  }

  /** A save while the case is analysing goes through, whosever analysis it is. */
  lemma SaveGoesThrough(s: State, w: nat)
    requires w in s.workers && s.workers[w].phase.Saving? && s.workers[w].job.Analyze?
    requires s.row.status == Analyzing && !Blank(s.workers[w].requestId)
    ensures Enabled(s, Save(w, true)) && Saves(s, w, true)
    ensures var after, result := Apply(s, Save(w, true)), s.workers[w].phase.result;
            && after.row.status == SaveTarget(result)
            && (result.Ok? ==> after.row.differences == result.value
                               && after.row.params == Chosen(s.workers[w].job, s.workers[w].phase.item.params))
            && (forall v | v in s.workers && v != w :: v in after.workers && after.workers[v] == s.workers[v])
  {
    hide Chosen;
  }

  lemma {:induction false} LeadsFurther(s: State, actions: seq<Action>, t: State, more: seq<Action>, u: State)
    requires Leads(s, actions, t) && Leads(t, more, u)
    ensures Leads(s, actions + more, u)
    decreases |actions|
  {
    hide Enabled, Apply;
    if actions == [] {
      assert actions + more == more;
    } else {
      assert (actions + more)[1..] == actions[1..] + more;
      LeadsFurther(Apply(s, actions[0]), actions[1..], t, more, u);
    }
  }

  /**
   * Without timeliness lease safety fails: from every state with an analysis under way, wherever its
   * worker is, a rival may take the case over once the lease has run out, and the first worker's save
   * then goes through and ends the rival's analysis. A result the worker already holds is stored as
   * the outcome of that analysis, while the rival is still at work.
   */
  lemma LateSaveTakesOver(s: State, w: nat, v: nat) returns (actions: seq<Action>, t: State)
    requires Inv(s) && w in s.workers && v !in s.workers
    requires Running(s.workers[w]) && StartedVersion(s.workers[w]) == s.row.version
    ensures Leads(s, actions, t)
    ensures Enabled(t, Save(w, true)) && Saves(t, w, true)
    ensures s.workers[w].phase.Saving? ==> t.workers[w] == s.workers[w]
    ensures v in t.workers && Running(t.workers[v])
    ensures StartedVersion(t.workers[v]) == t.row.version == StartedVersion(t.workers[w]) + 2
    ensures var after, result := Apply(t, Save(w, true)), t.workers[w].phase.result;
            && v in after.workers && Running(after.workers[v])
            && after.row.status == SaveTarget(result)
            && (result.Ok? ==> after.row.differences == result.value)
  {
    assert WorkerInv(s, s.workers[w]);
    hide Enabled, Apply, Leads, Inv, SaveTx, CaseInv;
    ChangedInThePast(s);
    actions, t := FreshWorkerRestarts(s, v);
    var u := WorkerGetsToSave(t, w);
    LeadsFurther(s, actions, t, ToSave(w, t.workers[w].phase), u);
    actions, t := actions + ToSave(w, t.workers[w].phase), u;
    SaveGoesThrough(t, w);
  }

  lemma {:induction false} RunOn(r: Run, actions: seq<Action>, t: State) returns (longer: Run)
    requires IsRun(r) && r.states != [] && Leads(LastState(r), actions, t)
    ensures IsRun(longer) && longer.states != [] && Extends(r, longer) && LastState(longer) == t
    decreases |actions|
  {
    if actions == [] {
      longer := r;
    } else {
      hide IsRun, Enabled, Apply;
      ExtendedIsRun(r, actions[0]);
      var next := Extended(r, actions[0]);
      longer := RunOn(next, actions[1..], t);
      ExtendsTransitive(r, next, longer);
    }
  }

  /** So every run that has an analysis under way goes on to a run whose last step is such a save. */
  lemma EveryRunMaySaveLate(r: Run, w: nat, v: nat) returns (longer: Run, i: nat)
    requires IsRun(r) && r.states != []
    requires w in LastState(r).workers && v !in LastState(r).workers
    requires Running(LastState(r).workers[w]) && StartedVersion(LastState(r).workers[w]) == LastState(r).row.version
    ensures IsRun(longer) && Extends(r, longer) && i + 1 == |longer.actions| == |longer.states| - 1
    ensures longer.actions[i] == Save(w, true) && w in longer.states[i].workers && Running(longer.states[i].workers[w])
    ensures Saves(longer.states[i], w, true)
    ensures longer.states[i].row.version != StartedVersion(longer.states[i].workers[w])
    ensures v in LastState(longer).workers && Running(LastState(longer).workers[v])
    ensures LastState(longer).row.status != Analyzing
    ensures LastState(r).workers[w].phase.Saving? && LastState(r).workers[w].phase.result.Ok? ==>
              && LastState(longer).row.status == PendingReview
              && LastState(longer).row.differences == LastState(r).workers[w].phase.result.value
  {
    RunLength(r);
    ReachableInv(r, |r.states| - 1);
    var actions, t := LateSaveTakesOver(LastState(r), w, v);
    hide IsRun, Enabled, Apply, Leads, Inv, SaveTx;
    var before := RunOn(r, actions, t);
    RunLength(before);
    ExtendedIsRun(before, Save(w, true));
    longer, i := Extended(before, Save(w, true)), |before.actions|;
    ExtendsTransitive(r, before, longer);
  }

  /** And there is such a run: one worker creates and starts, is overtaken, and saves. */
  lemma SomeRunSavesLate() returns (r: Run, i: nat)
    ensures IsRun(r) && i < |r.actions| == |r.states| - 1 && r.actions[i] == Save(0, true)
    ensures 0 in r.states[i].workers && Running(r.states[i].workers[0]) && Saves(r.states[i], 0, true)
    ensures r.states[i].row.version != StartedVersion(r.states[i].workers[0])
  {
    var request := CreateRequest(1, 1, 2, 0.0, 0.0);
    var s := State(NewRow(request, 1, 0), [AuditEntry(CaseCreated, 1, "new")], 0, TraceStore.EMPTY, map[]);
    TraceStore.EmptyInv();
    assert !IsSpace("new"[0]);
    assert Init(s);
    var started := Run([s], []);
    assert IsRun(started);
    var t := FirstStarts(s, 0);
    started := RunOn(started, [Arrive(0, RIVAL), Load(0), Start(0, true)], t);
    hide IsRun, Enabled, Apply, SaveTx;
    r, i := EveryRunMaySaveLate(started, 0, 1);
  }

  lemma FirstStarts(s: State, w: nat) returns (t: State)
    requires s.row.status == Draft && s.workers == map[]
    ensures Leads(s, [Arrive(w, RIVAL), Load(w), Start(w, true)], t)
    ensures t.workers.Keys == {w} && Running(t.workers[w]) && StartedVersion(t.workers[w]) == t.row.version
  {
    hide Leads;
    var arrived := Apply(s, Arrive(w, RIVAL));
    assert arrived == s.(workers := map[w := RIVAL]);
    var loaded := Apply(arrived, Load(w));
    assert loaded == s.(workers := map[w := RIVAL.(phase := Starting(s.row))]);
    assert !IsSpace("retry"[0]);
    t := Apply(loaded, Start(w, true));
    hide Enabled, Apply;
    LeadsNowhere(s);
    LeadsOn(s, [], s, Arrive(w, RIVAL));
    LeadsOn(s, [] + [Arrive(w, RIVAL)], arrived, Load(w));
    LeadsOn(s, [] + [Arrive(w, RIVAL)] + [Load(w)], loaded, Start(w, true));
    assert [] + [Arrive(w, RIVAL)] + [Load(w)] + [Start(w, true)] == [Arrive(w, RIVAL), Load(w), Start(w, true)];
  }

  lemma LeadsNowhere(s: State)
    ensures Leads(s, [], s)
  {}
}
