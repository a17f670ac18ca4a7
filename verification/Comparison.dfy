/** Baseline comparison and the primary difference (backend/internal/algorithm/compare.go). */
module Comparison {
  import opened Basics
  import opened Rounding
  import opened Sorting

  datatype ComparableEvent = ComparableEvent(id: nat, distance: real, insertionLoss: real, confidence: real)

  /** Listed in the alphabetical order of the source's names, by which ties in distance are sorted. */
  datatype Kind = Disappeared | LossIncreased | New

  datatype Difference = Difference(kind: Kind, baselineEventId: Option<nat>, currentEventId: Option<nat>,
                                   distance: real, lossDelta: real, confidence: real)

  // ----- Greedy nearest matching

  function Gap(a: ComparableEvent, b: ComparableEvent): real {
    Abs(a.distance - b.distance)
  }

  /** The order in which a trace lists its events. */
  predicate NearerFirst(a: ComparableEvent, b: ComparableEvent) {
    a.distance <= b.distance
  }

  predicate Candidate(base: ComparableEvent, current: seq<ComparableEvent>, used: set<int>, tolerance: real, i: int) {
    0 <= i < |current| && i !in used && Gap(base, current[i]) <= tolerance
  }

  /**
   * Among the first `n` current events: the first of the nearest unused ones within tolerance,
   * or -1 if there is none.
   */
  function Nearest(base: ComparableEvent, current: seq<ComparableEvent>, used: set<int>, tolerance: real, n: nat): (m: int)
    requires n <= |current|
    ensures -1 <= m < n
    ensures m == -1 <==> forall i | 0 <= i < n :: !Candidate(base, current, used, tolerance, i)
    ensures m >= 0 ==> Candidate(base, current, used, tolerance, m)
    ensures m >= 0 ==> forall i | 0 <= i < n && Candidate(base, current, used, tolerance, i) ::
              if i < m then Gap(base, current[m]) < Gap(base, current[i]) else Gap(base, current[m]) <= Gap(base, current[i])
  {
    if n == 0 then -1
    else
      var m := Nearest(base, current, used, tolerance, n - 1);
      if Candidate(base, current, used, tolerance, n - 1)
         && (m < 0 || Gap(base, current[n - 1]) < Gap(base, current[m])) then n - 1
      else m
  }

  function Used(matching: seq<int>): set<int> {
    set i | i in matching && i >= 0
  }

  /** For each baseline event in turn, the nearest current event not taken before (or -1). */
  function Match(baseline: seq<ComparableEvent>, current: seq<ComparableEvent>, tolerance: real): (matching: seq<int>)
    ensures |matching| == |baseline|
    ensures forall k | 0 <= k < |matching| :: -1 <= matching[k] < |current|
  {
    if baseline == [] then []
    else
      var last := |baseline| - 1;
      var before := Match(baseline[..last], current, tolerance);
      before + [Nearest(baseline[last], current, Used(before), tolerance, |current|)]
  }

  // ----- Differences

  function DisappearedEvent(base: ComparableEvent): Difference {
    Difference(Disappeared, Some(base.id), None, base.distance, 0.0, RoundMilli(base.confidence * 0.9))
  }

  function IncreasedLoss(base: ComparableEvent, candidate: ComparableEvent): Difference {
    Difference(LossIncreased, Some(base.id), Some(candidate.id), candidate.distance,
               RoundMilli(candidate.insertionLoss - base.insertionLoss),
               RoundMilli(Min(base.confidence, candidate.confidence)))
  }

  function NewEvent(candidate: ComparableEvent): Difference {
    Difference(New, None, Some(candidate.id), candidate.distance, candidate.insertionLoss, RoundMilli(candidate.confidence))
  }

  /** What a baseline event contributes, given the event it was matched with. */
  function BaseDifference(base: ComparableEvent, partner: Option<ComparableEvent>, lossIncrease: real): seq<Difference> {
    match partner
    case None => [DisappearedEvent(base)]
    case Some(candidate) =>
      if candidate.insertionLoss - base.insertionLoss >= lossIncrease then [IncreasedLoss(base, candidate)] else []
  }

  function Partner(current: seq<ComparableEvent>, m: int): Option<ComparableEvent> {
    if 0 <= m < |current| then Some(current[m]) else None
  }

  function BaseDifferences(baseline: seq<ComparableEvent>, current: seq<ComparableEvent>, matching: seq<int>,
                           lossIncrease: real): seq<Difference>
    requires |matching| == |baseline|
  {
    if baseline == [] then []
    else
      var last := |baseline| - 1;
      BaseDifferences(baseline[..last], current, matching[..last], lossIncrease)
      + BaseDifference(baseline[last], Partner(current, matching[last]), lossIncrease)
  }

  /** The first `n` current events that no baseline event took. */
  function NewDifferences(current: seq<ComparableEvent>, used: set<int>, n: nat): seq<Difference>
    requires n <= |current|
  {
    if n == 0 then []
    else NewDifferences(current, used, n - 1) + (if n - 1 in used then [] else [NewEvent(current[n - 1])])
  }

  function Unsorted(baseline: seq<ComparableEvent>, current: seq<ComparableEvent>, tolerance: real,
                    lossIncrease: real): seq<Difference>
  {
    var matching := Match(baseline, current, tolerance);
    BaseDifferences(baseline, current, matching, lossIncrease)
    + NewDifferences(current, Used(matching), |current|)
  }

  function KindRank(k: Kind): int {
    match k case Disappeared => 0 case LossIncreased => 1 case New => 2
  }

  /** By distance, then by name of the kind. */
  predicate KeyAtMost(d: Difference, e: Difference) {
    d.distance < e.distance || (d.distance == e.distance && KindRank(d.kind) <= KindRank(e.kind))
  }

  /** The sort is unstable: any arrangement sorted by key is a possible result. */
  ghost predicate IsComparison(baseline: seq<ComparableEvent>, current: seq<ComparableEvent>, tolerance: real,
                               lossIncrease: real, differences: seq<Difference>)
  {
    && SortedBy(KeyAtMost, differences)
    && multiset(differences) == multiset(Unsorted(baseline, current, tolerance, lossIncrease))
  }

  /** One turn of the outer loop. */
  lemma MatchStep(baseline: seq<ComparableEvent>, current: seq<ComparableEvent>, tolerance: real,
                  lossIncrease: real, k: nat)
    requires k < |baseline|
    ensures var before := Match(baseline[..k], current, tolerance);
            var found := Nearest(baseline[k], current, Used(before), tolerance, |current|);
            && Match(baseline[..k + 1], current, tolerance) == before + [found]
            && Used(before + [found]) == Used(before) + (if found >= 0 then {found} else {})
            && BaseDifferences(baseline[..k + 1], current, before + [found], lossIncrease)
               == BaseDifferences(baseline[..k], current, before, lossIncrease)
                  + BaseDifference(baseline[k], Partner(current, found), lossIncrease)
  {
    hide BaseDifference, Nearest;
    var before := Match(baseline[..k], current, tolerance);
    var found := Nearest(baseline[k], current, Used(before), tolerance, |current|);
    assert baseline[..k + 1][..k] == baseline[..k];
    assert (before + [found])[..k] == before;
  }

  method CompareBaseline(baseline: seq<ComparableEvent>, current: seq<ComparableEvent>, tolerance: real, lossIncrease: real)
    returns (r: Result<seq<Difference>>)
    ensures tolerance <= 0.0 ==> r == Err("distance tolerance must be positive")
    ensures tolerance > 0.0 && lossIncrease <= 0.0 ==> r == Err("loss increase threshold must be positive")
    ensures tolerance > 0.0 && lossIncrease > 0.0 ==>
              r.Ok? && IsComparison(baseline, current, tolerance, lossIncrease, r.value)
  {
    if tolerance <= 0.0 {
      return Err("distance tolerance must be positive");
    }
    if lossIncrease <= 0.0 {
      return Err("loss increase threshold must be positive");
    }
    var used, differences := MatchBaseline(baseline, current, tolerance, lossIncrease);
    hide Match, BaseDifferences, NewDifferences;
    differences := AppendNew(differences, current, used);
    var ordered := SortCopy(differences, KeyAtMost);
    return Ok(ordered);
  }

  /** The last loop: whatever no baseline event took is new. */
  method AppendNew(differences: seq<Difference>, current: seq<ComparableEvent>, used: set<int>) returns (r: seq<Difference>)
    ensures r == differences + NewDifferences(current, used, |current|)
  {
    hide NewEvent;
    r := differences;
    for i := 0 to |current|
      invariant r == differences + NewDifferences(current, used, i)
    {
      if i in used {
        continue;
      }
      r := r + [NewEvent(current[i])];
    }
  }

  /** The outer loop: match every baseline event and report what came of it. */
  method MatchBaseline(baseline: seq<ComparableEvent>, current: seq<ComparableEvent>, tolerance: real, lossIncrease: real)
    returns (used: set<int>, differences: seq<Difference>)
    ensures var matching := Match(baseline, current, tolerance);
            used == Used(matching) && differences == BaseDifferences(baseline, current, matching, lossIncrease)
  {
    hide IncreasedLoss, DisappearedEvent, NewEvent, Match, Nearest, Used;
    used, differences := {}, [];
    ghost var matching := Match(baseline[..0], current, tolerance);
    NothingMatched(baseline[..0], current, tolerance);
    for k := 0 to |baseline|
      invariant matching == Match(baseline[..k], current, tolerance)
      invariant used == Used(matching)
      invariant differences == BaseDifferences(baseline[..k], current, matching, lossIncrease)
    {
      var base := baseline[k];
      var found := FindNearest(base, current, used, tolerance);
      MatchStep(baseline, current, tolerance, lossIncrease, k);
      hide BaseDifferences;
      matching := matching + [found];
      if found < 0 {
        differences := differences + [DisappearedEvent(base)];
        continue;
      }
      used := used + {found};
      var candidate := current[found];
      var lossDelta := candidate.insertionLoss - base.insertionLoss;
      if lossDelta >= lossIncrease {
        differences := differences + [IncreasedLoss(base, candidate)];
      }
    }
    assert baseline[..|baseline|] == baseline;
  }

  lemma NothingMatched(baseline: seq<ComparableEvent>, current: seq<ComparableEvent>, tolerance: real)
    requires baseline == []
    ensures Match(baseline, current, tolerance) == [] && Used([]) == {}
  {}

  /** The inner loop: the running best among the unused current events. */
  method FindNearest(base: ComparableEvent, current: seq<ComparableEvent>, used: set<int>, tolerance: real)
    returns (found: int)
    ensures found == Nearest(base, current, used, tolerance, |current|)
  {
    found := -1;
    var best := 0.0;
    for i := 0 to |current|
      invariant found == Nearest(base, current, used, tolerance, i)
      invariant found >= 0 ==> best == Gap(base, current[found])
    {
      if i in used {
        continue;
      }
      var delta := Gap(base, current[i]);
      if delta <= tolerance && (found < 0 || delta < best) {
        found, best := i, delta;
      }
    }
  }

  // ----- Primary difference

  predicate Displaces(d: Difference, best: Difference) {
    d.confidence > best.confidence || (d.kind == LossIncreased && best.kind != LossIncreased)
  }

  /** The running choice after all of `differences`. */
  function Best(differences: seq<Difference>): Difference
    requires differences != []
  {
    var last := |differences| - 1;
    if last == 0 then differences[0]
    else
      var best := Best(differences[..last]);
      if Displaces(differences[last], best) then differences[last] else best
  }

  datatype Estimate = Estimate(distance: real, uncertainty: real)

  function Uncertainty(confidence: real): real {
    Max(1.0, 20.0 * (1.0 - confidence))
  }

  function Primary(differences: seq<Difference>): Option<Estimate> {
    if differences == [] then None
    else Some(Estimate(Best(differences).distance, Uncertainty(Best(differences).confidence)))
  }

  method PrimaryDifference(differences: seq<Difference>) returns (distance: real, uncertainty: real, ok: bool)
    ensures ok <==> differences != []
    ensures ok ==> Primary(differences) == Some(Estimate(distance, uncertainty))
  {
    if |differences| == 0 {
      return 0.0, 0.0, false;
    }
    var best := differences[0];
    for i := 1 to |differences|
      invariant best == Best(differences[..i])
    {
      assert differences[..i + 1][..i] == differences[..i];
      if differences[i].confidence > best.confidence
         || (differences[i].kind == LossIncreased && best.kind != LossIncreased)
      {
        best := differences[i];
      }
    }
    assert differences[..|differences|] == differences;
    return best.distance, Max(1.0, 20.0 * (1.0 - best.confidence)), true;
  }

  /** The choice is a member of the list that displaced the choice before it and that nothing after displaces. */
  lemma {:induction false} BestIsUndisplaced(differences: seq<Difference>) returns (p: nat)
    requires differences != []
    ensures p < |differences| && Best(differences) == differences[p]
    ensures forall q | p < q < |differences| :: !Displaces(differences[q], differences[p])
    ensures p > 0 ==> Displaces(differences[p], Best(differences[..p]))
    decreases |differences|
  {
    var last := |differences| - 1;
    if last == 0 {
      p := 0;
    } else if Displaces(differences[last], Best(differences[..last])) {
      p := last;
    } else {
      p := BestIsUndisplaced(differences[..last]);
      assert differences[..last][..p] == differences[..p];
    }
  }

  /** Among differences of one kind the first of highest confidence is chosen. */
  lemma {:induction false} BestOfOneKind(differences: seq<Difference>) returns (p: nat)
    requires differences != []
    requires forall i | 0 <= i < |differences| :: differences[i].kind == differences[0].kind
    ensures p < |differences| && Best(differences) == differences[p]
    ensures forall i | 0 <= i < |differences| :: differences[i].confidence <= differences[p].confidence
    ensures forall i | 0 <= i < p :: differences[i].confidence < differences[p].confidence
    decreases |differences|
  {
    var last := |differences| - 1;
    if last == 0 {
      p := 0;
    } else {
      p := BestOfOneKind(differences[..last]);
      if differences[last].confidence > differences[p].confidence {
        p := last;
      }
    }
  }

  /**
   * The positions of the running choice: the first, and from each on the next difference that displaces
   * it, until none does.
   */
  ghost predicate IsChain(differences: seq<Difference>, chain: seq<nat>) {
    ChainSteps(differences, chain) && NothingBetween(differences, chain)
  }

  ghost predicate ChainSteps(differences: seq<Difference>, chain: seq<nat>) {
    && chain != [] && chain[0] == 0 && Inside(differences, chain)
    && (forall t | 0 < t < |chain| ::
          chain[t - 1] < chain[t] && Displaces(differences[chain[t]], differences[chain[t - 1]]))
  }

  ghost predicate Inside(differences: seq<Difference>, chain: seq<nat>) {
    forall t | 0 <= t < |chain| :: chain[t] < |differences|
  }

  ghost predicate NothingBetween(differences: seq<Difference>, chain: seq<nat>)
    requires Inside(differences, chain)
  {
    forall t, q | 0 <= t < |chain| && chain[t] < q < ChainNext(differences, chain, t) ::
      !Displaces(differences[q], differences[chain[t]])
  }

  function ChainNext(differences: seq<Difference>, chain: seq<nat>, t: nat): nat
    requires t < |chain|
  {
    if t + 1 < |chain| then chain[t + 1] else |differences|
  }

  lemma {:induction false} ChainExists(differences: seq<Difference>) returns (chain: seq<nat>)
    requires differences != []
    ensures IsChain(differences, chain)
    decreases |differences|
  {
    hide Displaces;
    var n := |differences| - 1;
    if n == 0 {
      chain := [0];
    } else {
      var front := ChainExists(differences[..n]);
      if Displaces(differences[n], differences[front[|front| - 1]]) {
        chain := front + [n];
        ChainGrows(differences, front);
      } else {
        chain := front;
        ChainStays(differences, front);
      }
    }
  }

  lemma ChainGrows(differences: seq<Difference>, front: seq<nat>)
    requires |differences| > 1 && IsChain(differences[..|differences| - 1], front)
    requires Displaces(differences[|differences| - 1], differences[front[|front| - 1]])
    ensures IsChain(differences, front + [|differences| - 1])
  {
    hide Displaces;
    var n := |differences| - 1;
    var chain := front + [n];
    ChainStepsGrow(differences, front);
    hide ChainSteps;
    forall t, q | 0 <= t < |chain| && chain[t] < q < ChainNext(differences, chain, t)
      ensures !Displaces(differences[q], differences[chain[t]])
    {
      assert q < ChainNext(differences[..n], front, t);
      assert !Displaces(differences[..n][q], differences[..n][front[t]]);
    }
  }

  lemma ChainStepsGrow(differences: seq<Difference>, front: seq<nat>)
    requires |differences| > 1 && ChainSteps(differences[..|differences| - 1], front)
    requires Displaces(differences[|differences| - 1], differences[front[|front| - 1]])
    ensures ChainSteps(differences, front + [|differences| - 1])
    ensures Inside(differences, front + [|differences| - 1])
  {
    hide Displaces;
    var n, chain := |differences| - 1, front + [|differences| - 1];
    forall t | 0 < t < |chain|
      ensures chain[t - 1] < chain[t] && Displaces(differences[chain[t]], differences[chain[t - 1]])
    {
      if t < |front| {
        assert Displaces(differences[..n][front[t]], differences[..n][front[t - 1]]);
      }
    }
  }

  lemma ChainStays(differences: seq<Difference>, front: seq<nat>)
    requires |differences| > 1 && IsChain(differences[..|differences| - 1], front)
    requires !Displaces(differences[|differences| - 1], differences[front[|front| - 1]])
    ensures IsChain(differences, front)
  {
    hide Displaces;
    var n := |differences| - 1;
    ChainStepsStay(differences, front);
    hide ChainSteps;
    forall t, q | 0 <= t < |front| && front[t] < q < ChainNext(differences, front, t)
      ensures !Displaces(differences[q], differences[front[t]])
    {
      if q < n {
        assert q < ChainNext(differences[..n], front, t);
        assert !Displaces(differences[..n][q], differences[..n][front[t]]);
      } else {
        assert t == |front| - 1;
      }
    }
  }

  lemma ChainStepsStay(differences: seq<Difference>, front: seq<nat>)
    requires |differences| > 1 && ChainSteps(differences[..|differences| - 1], front)
    ensures ChainSteps(differences, front) && Inside(differences, front)
  {
    hide Displaces;
    var n := |differences| - 1;
    forall t | 0 < t < |front|
      ensures front[t - 1] < front[t] && Displaces(differences[front[t]], differences[front[t - 1]])
    {
      assert Displaces(differences[..n][front[t]], differences[..n][front[t - 1]]);
    }
  }

  lemma {:induction false} BestEndsChain(differences: seq<Difference>, chain: seq<nat>)
    requires differences != [] && IsChain(differences, chain)
    ensures Best(differences) == differences[chain[|chain| - 1]]
    decreases |differences|
  {
    hide Displaces;
    var n := |differences| - 1;
    if n > 0 {
      var last := |chain| - 1;
      if chain[last] == n {
        ChainWithoutEnd(differences, chain);
        BestEndsChain(differences[..n], chain[..last]);
      } else {
        ChainOfFront(differences, chain);
        BestEndsChain(differences[..n], chain);
        assert n < ChainNext(differences, chain, last);
      }
    }
  }

  lemma ChainWithoutEnd(differences: seq<Difference>, chain: seq<nat>)
    requires |differences| > 1 && IsChain(differences, chain) && chain[|chain| - 1] == |differences| - 1
    ensures |chain| > 1 && IsChain(differences[..|differences| - 1], chain[..|chain| - 1])
  {
    hide Displaces;
    var n, front := |differences| - 1, chain[..|chain| - 1];
    ChainRises(differences, chain, |chain| - 1);
    ChainStepsOfFront(differences, chain, |chain| - 1);
    hide ChainSteps;
    forall t, q | 0 <= t < |front| && front[t] < q < ChainNext(differences[..n], front, t)
      ensures !Displaces(differences[..n][q], differences[..n][front[t]])
    {
      assert q < ChainNext(differences, chain, t);
      assert !Displaces(differences[q], differences[chain[t]]);
    }
  }

  /** The first positions of a chain that lie in the front of the list. */
  lemma ChainStepsOfFront(differences: seq<Difference>, chain: seq<nat>, length: nat)
    requires |differences| > 1 && ChainSteps(differences, chain) && 0 < length <= |chain|
    requires forall t | 0 <= t < length :: chain[t] < |differences| - 1
    ensures ChainSteps(differences[..|differences| - 1], chain[..length])
    ensures Inside(differences[..|differences| - 1], chain[..length])
  {
    hide Displaces;
    var n, front := |differences| - 1, chain[..length];
    forall t | 0 < t < length
      ensures front[t - 1] < front[t] && Displaces(differences[..n][front[t]], differences[..n][front[t - 1]])
    {
      assert Displaces(differences[chain[t]], differences[chain[t - 1]]);
    }
  }

  lemma {:induction false} ChainRises(differences: seq<Difference>, chain: seq<nat>, t: nat)
    requires IsChain(differences, chain) && t < |chain|
    ensures forall u | 0 <= u < t :: chain[u] < chain[t]
  {
    hide Displaces;
    if t > 0 {
      ChainRises(differences, chain, t - 1);
    }
  }

  lemma ChainOfFront(differences: seq<Difference>, chain: seq<nat>)
    requires |differences| > 1 && IsChain(differences, chain) && chain[|chain| - 1] < |differences| - 1
    ensures IsChain(differences[..|differences| - 1], chain)
  {
    hide Displaces;
    var n := |differences| - 1;
    ChainRises(differences, chain, |chain| - 1);
    ChainStepsOfFront(differences, chain, |chain|);
    assert chain[..|chain|] == chain;
    hide ChainSteps;
    forall t, q | 0 <= t < |chain| && chain[t] < q < ChainNext(differences[..n], chain, t)
      ensures !Displaces(differences[..n][q], differences[..n][chain[t]])
    {
      assert q < ChainNext(differences, chain, t);
      assert !Displaces(differences[q], differences[chain[t]]);
    }
  }

  /** An estimate that puts the fault where a difference is, the surer the more confident the difference is. */
  predicate Locates(e: Estimate, d: Difference) {
    && e.distance == d.distance
    && e.uncertainty == if d.confidence >= 0.95 then 1.0 else 20.0 - 20.0 * d.confidence
  }

  /** If `chain` is the running choice, the estimate is that of the difference at which it ends. */
  ghost predicate LocatesEnd(e: Option<Estimate>, differences: seq<Difference>, chain: seq<nat>) {
    IsChain(differences, chain) ==> e.Some? && Locates(e.value, differences[chain[|chain| - 1]])
  }

  /** The primary estimate is that of the difference at which the running choice ends; on the empty list there is none. */
  lemma PrimaryLocates(differences: seq<Difference>, chain: seq<nat>)
    ensures Primary([]) == None && LocatesEnd(Primary(differences), differences, chain)
  {
    hide Displaces;
    if IsChain(differences, chain) {
      BestEndsChain(differences, chain);
      hide Best, IsChain;
    }
  }

  // ----- What the choice means on the list alone

  /** No difference is more confident than the one at `i`. */
  ghost predicate MaximalAt(differences: seq<Difference>, i: nat) {
    i < |differences| && forall j | 0 <= j < |differences| :: differences[j].confidence <= differences[i].confidence
  }

  /** A loss increase, or a difference that no loss increase follows. */
  ghost predicate NoLossOvertakes(differences: seq<Difference>, i: nat)
    requires i < |differences|
  {
    differences[i].kind == LossIncreased || forall j | i < j < |differences| :: differences[j].kind != LossIncreased
  }

  lemma {:induction false} MaximalIsKept(differences: seq<Difference>, i: nat)
    requires MaximalAt(differences, i) && NoLossOvertakes(differences, i)
    ensures Best(differences).confidence == differences[i].confidence
    ensures differences[i].kind == LossIncreased ==> Best(differences).kind == LossIncreased
    decreases |differences|
  {
    var last := |differences| - 1;
    var p := BestIsUndisplaced(differences);
    if i < last {
      MaximalIsKept(differences[..last], i);
    }
  }

  /**
   * When the most confident difference is the primary one: exactly when some loss increase is among
   * the most confident, or some difference among the most confident has no loss increase after it.
   */
  lemma MostConfidentIsPrimaryIff(differences: seq<Difference>)
    requires differences != []
    ensures (forall j | 0 <= j < |differences| :: differences[j].confidence <= Best(differences).confidence)
       <==> exists i :: MaximalAt(differences, i) && NoLossOvertakes(differences, i)
  {
    var p := BestIsUndisplaced(differences);
    if i :| MaximalAt(differences, i) && NoLossOvertakes(differences, i) {
      MaximalIsKept(differences, i);
    }
    if forall j | 0 <= j < |differences| :: differences[j].confidence <= Best(differences).confidence {
      assert MaximalAt(differences, p) && NoLossOvertakes(differences, p);
    }
  }

  /** From the loss increase at `i` on, every other difference has a loss increase before it that is no less confident. */
  ghost predicate LossHolds(differences: seq<Difference>, i: nat) {
    && i < |differences| && differences[i].kind == LossIncreased
    && forall j | i < j < |differences| && differences[j].kind != LossIncreased :: LossCovers(differences, i, j)
  }

  ghost predicate LossCovers(differences: seq<Difference>, i: nat, j: nat)
    requires i < j < |differences|
  {
    exists k :: i <= k < j && differences[k].kind == LossIncreased && differences[j].confidence <= differences[k].confidence
  }

  lemma {:induction false} LossIsKept(differences: seq<Difference>, i: nat)
    requires LossHolds(differences, i)
    ensures Best(differences).kind == LossIncreased
    ensures forall k | i <= k < |differences| && differences[k].kind == LossIncreased ::
              differences[k].confidence <= Best(differences).confidence
    decreases |differences|
  {
    var last := |differences| - 1;
    if i < last {
      var front := differences[..last];
      forall j | i < j < last && front[j].kind != LossIncreased ensures LossCovers(front, i, j) {
        assert LossCovers(differences, i, j);
      }
      LossIsKept(front, i);
      assert differences[last].kind != LossIncreased ==> LossCovers(differences, i, last);
    }
  }

  /**
   * When a loss increase is the primary difference: exactly when there is one from which on every
   * difference of another kind comes after a loss increase that is no less confident.
   */
  lemma LossIncreaseIsPrimaryIff(differences: seq<Difference>)
    requires differences != []
    ensures Best(differences).kind == LossIncreased <==> exists i :: LossHolds(differences, i)
  {
    var p := BestIsUndisplaced(differences);
    if i :| LossHolds(differences, i) {
      LossIsKept(differences, i);
    }
    if Best(differences).kind == LossIncreased {
      forall j | p < j < |differences| && differences[j].kind != LossIncreased ensures LossCovers(differences, p, j) {
        assert !Displaces(differences[j], differences[p]);
      }
      assert LossHolds(differences, p);
    }
  }

  /** Of a loss increase and a more confident difference, whichever is farther along the fibre is chosen. */
  lemma FartherOfTwoIsPrimary(loss: Difference, other: Difference)
    requires loss.kind == LossIncreased && other.kind != LossIncreased && loss.confidence < other.confidence
    requires loss.distance != other.distance
    ensures var sorted := if loss.distance < other.distance then [loss, other] else [other, loss];
            SortedBy(KeyAtMost, sorted) && Best(sorted) == sorted[1]
  {
    assert [other, loss][..1] == [other] && [loss, other][..1] == [loss];
  }

  /** Comparing one baseline event with its match, whose loss grew, and one event that is new. */
  lemma OneMatchOneNew(base: ComparableEvent, matched: ComparableEvent, extra: ComparableEvent, tolerance: real, lossIncrease: real)
    requires Gap(base, matched) <= tolerance < Gap(base, extra) && matched.distance != extra.distance
    requires matched.insertionLoss - base.insertionLoss >= lossIncrease
    ensures var loss, other := IncreasedLoss(base, matched), NewEvent(extra);
            if extra.distance < matched.distance
            then IsComparison([base], [extra, matched], tolerance, lossIncrease, [other, loss])
            else IsComparison([base], [matched, extra], tolerance, lossIncrease, [loss, other])
  {
    var loss, other := IncreasedLoss(base, matched), NewEvent(extra);
    LossIsAtMatch(base, matched);
    hide Gap, IncreasedLoss, RoundMilli, Unsorted;
    UnsortedOfTwo(base, [matched, extra], 0, tolerance, lossIncrease);
    UnsortedOfTwo(base, [extra, matched], 1, tolerance, lossIncrease);
    assert [loss, other] == [loss] + [other];
    assert multiset([other, loss]) == multiset([loss] + [other]);
  }

  lemma UnsortedOfTwo(base: ComparableEvent, current: seq<ComparableEvent>, j: nat, tolerance: real, lossIncrease: real)
    requires |current| == 2 && j < 2 && Gap(base, current[j]) <= tolerance < Gap(base, current[1 - j])
    requires current[j].insertionLoss - base.insertionLoss >= lossIncrease
    ensures Unsorted([base], current, tolerance, lossIncrease) == [IncreasedLoss(base, current[j])] + [NewEvent(current[1 - j])]
  {
    hide Gap, IncreasedLoss, NewEvent, Nearest;
    MatchOfOne(base, current, j, tolerance);
    NewOfTwo(current, j);
    hide Match, NewDifferences, Used;
    assert [base][..0] == [] && [j][..0] == [];
    assert BaseDifferences([], current, [], lossIncrease) == [];
    assert BaseDifferences([base], current, [j], lossIncrease) == [IncreasedLoss(base, current[j])];
  }

  lemma LossIsAtMatch(base: ComparableEvent, matched: ComparableEvent)
    ensures IncreasedLoss(base, matched).distance == matched.distance && IncreasedLoss(base, matched).kind == LossIncreased
    ensures IncreasedLoss(base, matched).confidence == RoundMilli(Min(base.confidence, matched.confidence))
  {}

  lemma NewOfTwo(current: seq<ComparableEvent>, taken: nat)
    requires |current| == 2 && taken < 2
    ensures NewDifferences(current, {taken}, 2) == [NewEvent(current[1 - taken])]
  {
    hide NewEvent;
    assert NewDifferences(current, {taken}, 0) == [];
    assert NewDifferences(current, {taken}, 1) == if taken == 0 then [] else [NewEvent(current[0])];
  }

  lemma MatchOfOne(base: ComparableEvent, current: seq<ComparableEvent>, j: nat, tolerance: real)
    requires |current| == 2 && j < 2 && Gap(base, current[j]) <= tolerance < Gap(base, current[1 - j])
    ensures Match([base], current, tolerance) == [j] && Used([j]) == {j}
  {
    hide Gap;
    assert [base][..0] == [];
    assert Match([], current, tolerance) == [] && Used([]) == {};
    assert Candidate(base, current, {}, tolerance, j) && !Candidate(base, current, {}, tolerance, 1 - j);
  }

  const BASE := ComparableEvent(1, 100.0, 0.0, 0.7)
  const MATCHED := ComparableEvent(2, 100.0, 1.0, 0.7)

  /** A new event more confident than a loss increase of the comparison of `BASE` with `MATCHED`. */
  lemma LossAndNew(extra: ComparableEvent) returns (loss: Difference)
    requires extra.confidence == 0.9 && Gap(BASE, extra) > 25.0
    ensures loss == IncreasedLoss(BASE, MATCHED) && loss.kind == LossIncreased && loss.distance == 100.0
    ensures loss.confidence == 0.7 < NewEvent(extra).confidence
    ensures extra.distance < 100.0 ==> IsComparison([BASE], [extra, MATCHED], 25.0, 0.5, [NewEvent(extra), loss])
    ensures extra.distance > 100.0 ==> IsComparison([BASE], [MATCHED, extra], 25.0, 0.5, [loss, NewEvent(extra)])
  {
    loss := IncreasedLoss(BASE, MATCHED);
    LossIsAtMatch(BASE, MATCHED);
    RoundMilliGrid(700);
    RoundMilliGrid(900);
    hide RoundMilli, IsComparison, IncreasedLoss;
    OneMatchOneNew(BASE, MATCHED, extra, 25.0, 0.5);
  }

  /**
   * The primary difference of a comparison is neither always the most confident nor always a loss
   * increase: with a more confident new event nearer than a loss increase the loss increase is chosen,
   * with the new event farther along the loss increase is displaced.
   */
  lemma PrimaryIsNeitherAlways()
    ensures exists baseline, current, differences: seq<Difference> ::
              && IsComparison(baseline, current, 25.0, 0.5, differences) && differences != []
              && Best(differences).kind == LossIncreased
              && exists j :: 0 <= j < |differences| && differences[j].confidence > Best(differences).confidence
    ensures exists baseline, current, differences: seq<Difference> ::
              && IsComparison(baseline, current, 25.0, 0.5, differences) && differences != []
              && Best(differences).kind != LossIncreased
              && exists j :: 0 <= j < |differences| && differences[j].kind == LossIncreased
  {
    hide Best, IsComparison, IncreasedLoss, RoundMilli;
    var nearer, farther := ComparableEvent(3, 50.0, 1.0, 0.9), ComparableEvent(3, 150.0, 1.0, 0.9);
    var loss := LossAndNew(nearer);
    var chosen := [NewEvent(nearer), loss];
    FartherOfTwoIsPrimary(loss, NewEvent(nearer));
    assert IsComparison([BASE], [nearer, MATCHED], 25.0, 0.5, chosen);
    assert chosen[0].confidence > Best(chosen).confidence;
    loss := LossAndNew(farther);
    var displaced := [loss, NewEvent(farther)];
    FartherOfTwoIsPrimary(loss, NewEvent(farther));
    assert IsComparison([BASE], [MATCHED, farther], 25.0, 0.5, displaced);
    assert displaced[0].kind == LossIncreased;
  }
}
