/** On separated events the differences do not depend on the order of either list. */
module OrderIndependence {
  import opened Basics
  import opened Comparison
  import opened ComparisonLaws
  import opened Detection
  import opened Distance
  import opened Matching
  import opened Rounding
  import opened Sorting

  ghost predicate InReach(b: ComparableEvent, c: ComparableEvent, tolerance: real) {
    Gap(b, c) <= tolerance
  }

  /** The current event within tolerance, if there is one; unique on separated events. */
  ghost function Neighbour(b: ComparableEvent, current: set<ComparableEvent>, tolerance: real): Option<ComparableEvent> {
    if exists c :: c in current && InReach(b, c, tolerance)
    then var c :| c in current && InReach(b, c, tolerance); Some(c)
    else None
  }

  ghost function BaseBag(baseline: seq<ComparableEvent>, current: set<ComparableEvent>, tolerance: real, lossIncrease: real)
    : multiset<Difference>
  {
    if baseline == [] then multiset{}
    else
      var last := |baseline| - 1;
      BaseBag(baseline[..last], current, tolerance, lossIncrease)
      + multiset(BaseDifference(baseline[last], Neighbour(baseline[last], current, tolerance), lossIncrease))
  }

  ghost predicate Reached(baseline: set<ComparableEvent>, c: ComparableEvent, tolerance: real) {
    exists b :: b in baseline && InReach(b, c, tolerance)
  }

  ghost function NewBag(current: seq<ComparableEvent>, baseline: set<ComparableEvent>, tolerance: real): multiset<Difference> {
    if current == [] then multiset{}
    else
      var last := |current| - 1;
      NewBag(current[..last], baseline, tolerance)
      + (if Reached(baseline, current[last], tolerance) then multiset{} else multiset{NewEvent(current[last])})
  }

  function Members(events: seq<ComparableEvent>): set<ComparableEvent> {
    set e | e in events
  }

  // ----- The bags depend on the members only

  lemma {:induction false} BaseBagSplit(a: seq<ComparableEvent>, b: seq<ComparableEvent>, current: set<ComparableEvent>,
                                        tolerance: real, lossIncrease: real)
    ensures BaseBag(a + b, current, tolerance, lossIncrease)
         == BaseBag(a, current, tolerance, lossIncrease) + BaseBag(b, current, tolerance, lossIncrease)
    decreases |b|
  {
    hide BaseDifference, Neighbour;
    if b == [] {
      assert a + b == a;
    } else {
      assert (a + b)[..|a + b| - 1] == a + b[..|b| - 1];
      BaseBagSplit(a, b[..|b| - 1], current, tolerance, lossIncrease);
    }
  }

  lemma BaseBagWithout(s: seq<ComparableEvent>, j: nat, current: set<ComparableEvent>, tolerance: real, lossIncrease: real)
    requires j < |s|
    ensures BaseBag(s, current, tolerance, lossIncrease)
         == BaseBag(Without(s, j), current, tolerance, lossIncrease) + BaseBag([s[j]], current, tolerance, lossIncrease)
  {
    assert s == s[..j] + ([s[j]] + s[j + 1..]);
    BaseBagSplit(s[..j], [s[j]] + s[j + 1..], current, tolerance, lossIncrease);
    BaseBagSplit([s[j]], s[j + 1..], current, tolerance, lossIncrease);
    BaseBagSplit(s[..j], s[j + 1..], current, tolerance, lossIncrease);
    hide BaseBag;
  }

  lemma {:induction false} BaseBagPermutation(s: seq<ComparableEvent>, t: seq<ComparableEvent>, current: set<ComparableEvent>,
                                              tolerance: real, lossIncrease: real)
    requires multiset(s) == multiset(t)
    ensures BaseBag(s, current, tolerance, lossIncrease) == BaseBag(t, current, tolerance, lossIncrease)
    decreases |s|
  {
    if s == [] {
      assert |multiset(t)| == |t|;
    } else {
      hide BaseBag;
      var n := |s| - 1;
      assert s[n] in multiset(t);
      var j :| 0 <= j < |t| && t[j] == s[n];
      WithoutBag(s, n);
      WithoutBag(t, j);
      BaseBagPermutation(Without(s, n), Without(t, j), current, tolerance, lossIncrease);
      BaseBagWithout(s, n, current, tolerance, lossIncrease);
      BaseBagWithout(t, j, current, tolerance, lossIncrease);
    }
  }

  lemma {:induction false} NewBagSplit(a: seq<ComparableEvent>, b: seq<ComparableEvent>, baseline: set<ComparableEvent>, tolerance: real)
    ensures NewBag(a + b, baseline, tolerance) == NewBag(a, baseline, tolerance) + NewBag(b, baseline, tolerance)
    decreases |b|
  {
    hide NewEvent, Reached;
    if b == [] {
      assert a + b == a;
    } else {
      assert (a + b)[..|a + b| - 1] == a + b[..|b| - 1];
      NewBagSplit(a, b[..|b| - 1], baseline, tolerance);
    }
  }

  lemma NewBagWithout(s: seq<ComparableEvent>, j: nat, baseline: set<ComparableEvent>, tolerance: real)
    requires j < |s|
    ensures NewBag(s, baseline, tolerance) == NewBag(Without(s, j), baseline, tolerance) + NewBag([s[j]], baseline, tolerance)
  {
    assert s == s[..j] + ([s[j]] + s[j + 1..]);
    NewBagSplit(s[..j], [s[j]] + s[j + 1..], baseline, tolerance);
    NewBagSplit([s[j]], s[j + 1..], baseline, tolerance);
    NewBagSplit(s[..j], s[j + 1..], baseline, tolerance);
    hide NewBag;
  }

  lemma {:induction false} NewBagPermutation(s: seq<ComparableEvent>, t: seq<ComparableEvent>, baseline: set<ComparableEvent>, tolerance: real)
    requires multiset(s) == multiset(t)
    ensures NewBag(s, baseline, tolerance) == NewBag(t, baseline, tolerance)
    decreases |s|
  {
    if s == [] {
      assert |multiset(t)| == |t|;
    } else {
      hide NewBag;
      var n := |s| - 1;
      assert s[n] in multiset(t);
      var j :| 0 <= j < |t| && t[j] == s[n];
      WithoutBag(s, n);
      WithoutBag(t, j);
      NewBagPermutation(Without(s, n), Without(t, j), baseline, tolerance);
      NewBagWithout(s, n, baseline, tolerance);
      NewBagWithout(t, j, baseline, tolerance);
    }
  }

  // ----- Greedy computes these bags

  /** On separated events the partner chosen by greedy is the only neighbour. */
  lemma PartnerIsNeighbour(baseline: seq<ComparableEvent>, current: seq<ComparableEvent>, tolerance: real, k: nat)
    requires Separated(baseline, 2.0 * tolerance) && Separated(current, 2.0 * tolerance) && k < |baseline|
    ensures Partner(current, Match(baseline, current, tolerance)[k]) == Neighbour(baseline[k], Members(current), tolerance)
  {
    hide Match, Separated, Gap;
    var m := Match(baseline, current, tolerance)[k];
    var b := baseline[k];
    forall j: nat | j < |current| ensures m == j <==> InReach(b, current[j], tolerance) {
      SeparatedMatch(baseline, current, tolerance, k, j);
    }
    if m >= 0 {
      assert current[m] in Members(current) && InReach(b, current[m], tolerance);
    }
  }

  lemma {:induction false} BaseBagIs(baseline: seq<ComparableEvent>, current: seq<ComparableEvent>, tolerance: real,
                                     lossIncrease: real)
    requires Separated(baseline, 2.0 * tolerance) && Separated(current, 2.0 * tolerance)
    ensures multiset(BaseDifferences(baseline, current, Match(baseline, current, tolerance), lossIncrease))
         == BaseBag(baseline, Members(current), tolerance, lossIncrease)
    decreases |baseline|
  {
    if baseline != [] {
      hide BaseDifference, Neighbour, Partner, Members, Nearest, Used;
      var last := |baseline| - 1;
      SeparatedFront(baseline, 2.0 * tolerance);
      BaseBagIs(baseline[..last], current, tolerance, lossIncrease);
      PartnerIsNeighbour(baseline, current, tolerance, last);
      hide Separated;
      assert Match(baseline, current, tolerance)[..last] == Match(baseline[..last], current, tolerance);
      hide Match;
    }
  }

  lemma UsedIsReached(baseline: seq<ComparableEvent>, current: seq<ComparableEvent>, tolerance: real, j: nat)
    requires Separated(baseline, 2.0 * tolerance) && Separated(current, 2.0 * tolerance) && j < |current|
    ensures j in Used(Match(baseline, current, tolerance)) <==> Reached(Members(baseline), current[j], tolerance)
  {
    hide Match, Separated, Gap;
    var m := Match(baseline, current, tolerance);
    forall k: nat | k < |baseline| ensures m[k] == j <==> InReach(baseline[k], current[j], tolerance) {
      SeparatedMatch(baseline, current, tolerance, k, j);
    }
    if j in Used(m) {
      var k :| 0 <= k < |m| && m[k] == j;
      assert baseline[k] in Members(baseline) && InReach(baseline[k], current[j], tolerance);
    }
  }

  lemma {:induction false} NewBagIs(baseline: seq<ComparableEvent>, current: seq<ComparableEvent>, tolerance: real, n: nat)
    requires Separated(baseline, 2.0 * tolerance) && Separated(current, 2.0 * tolerance) && n <= |current|
    ensures multiset(NewDifferences(current, Used(Match(baseline, current, tolerance)), n))
         == NewBag(current[..n], Members(baseline), tolerance)
  {
    if n > 0 {
      hide NewEvent, Reached, Members, Match, Used, Separated;
      NewBagIs(baseline, current, tolerance, n - 1);
      UsedIsReached(baseline, current, tolerance, n - 1);
      assert current[..n][..n - 1] == current[..n - 1];
    }
  }

  lemma MembersOfPermutation(s: seq<ComparableEvent>, t: seq<ComparableEvent>)
    requires multiset(s) == multiset(t)
    ensures Members(s) == Members(t)
  {
    PermutationMembers(s, t);
  }

  lemma SeparatedWithout(s: seq<ComparableEvent>, j: nat, gap: real)
    requires Separated(s, gap) && j < |s|
    ensures Separated(Without(s, j), gap)
    ensures forall e | e in Without(s, j) :: Gap(e, s[j]) > gap
  {
    hide Gap;
    forall i | 0 <= i < |s| && i != j ensures Gap(s[i], s[j]) > gap {
      GapSymmetric(s[i], s[j]);
    }
  }

  lemma SeparatedAppend(front: seq<ComparableEvent>, e: ComparableEvent, gap: real)
    requires Separated(front, gap) && forall f | f in front :: Gap(f, e) > gap
    ensures Separated(front + [e], gap)
  {
    hide Gap;
    assert forall i | 0 <= i < |front| :: front[i] in front;
  }

  lemma {:induction false} SeparatedPermutation(s: seq<ComparableEvent>, t: seq<ComparableEvent>, gap: real)
    requires Separated(s, gap) && multiset(s) == multiset(t)
    ensures Separated(t, gap)
    decreases |t|
  {
    if t != [] {
      hide Separated, Gap, Without;
      var j := PlaceOfLast(s, t);
      SeparatedWithout(s, j, gap);
      SeparatedPermutation(Without(s, j), t[..|t| - 1], gap);
      PermutationMembers(t[..|t| - 1], Without(s, j));
      SeparatedAppend(t[..|t| - 1], t[|t| - 1], gap);
      assert t == t[..|t| - 1] + [t[|t| - 1]];
    }
  }

  lemma ComparisonBag(baseline: seq<ComparableEvent>, current: seq<ComparableEvent>, tolerance: real, lossIncrease: real,
                      differences: seq<Difference>)
    requires Separated(baseline, 2.0 * tolerance) && Separated(current, 2.0 * tolerance)
    requires IsComparison(baseline, current, tolerance, lossIncrease, differences)
    ensures multiset(differences) == BaseBag(baseline, Members(current), tolerance, lossIncrease)
                                     + NewBag(current, Members(baseline), tolerance)
  {
    hide Match, Separated, BaseDifferences, NewDifferences, BaseBag, NewBag, Members, Used;
    BaseBagIs(baseline, current, tolerance, lossIncrease);
    NewBagIs(baseline, current, tolerance, |current|);
    assert current[..|current|] == current;
  }

  /**
   * When the events of each list are more than twice the tolerance apart, listing them in another
   * order gives the same bag of differences.
   */
  lemma SeparatedOrderIndependent(baseline: seq<ComparableEvent>, current: seq<ComparableEvent>,
                                  baseline': seq<ComparableEvent>, current': seq<ComparableEvent>,
                                  tolerance: real, lossIncrease: real,
                                  differences: seq<Difference>, differences': seq<Difference>)
    requires Separated(baseline, 2.0 * tolerance) && Separated(current, 2.0 * tolerance)
    requires multiset(baseline) == multiset(baseline') && multiset(current) == multiset(current')
    requires IsComparison(baseline, current, tolerance, lossIncrease, differences)
    requires IsComparison(baseline', current', tolerance, lossIncrease, differences')
    ensures multiset(differences) == multiset(differences')
  {
    SeparatedPermutation(baseline, baseline', 2.0 * tolerance);
    SeparatedPermutation(current, current', 2.0 * tolerance);
    hide IsComparison, Separated, BaseBag, NewBag, Members;
    ComparisonBag(baseline, current, tolerance, lossIncrease, differences);
    ComparisonBag(baseline', current', tolerance, lossIncrease, differences');
    MembersOfPermutation(baseline, baseline');
    MembersOfPermutation(current, current');
    BaseBagPermutation(baseline, baseline', Members(current), tolerance, lossIncrease);
    NewBagPermutation(current, current', Members(baseline), tolerance);
  }

  // ----- Swapping the lists

  /** Separated events with the same report as disappeared, or as new, are one event. */
  lemma OneReport(x: seq<ComparableEvent>, gap: real, i: nat, k: nat)
    requires Separated(x, gap) && gap >= 0.0 && i < |x| && k < |x|
    requires DisappearedEvent(x[i]) == DisappearedEvent(x[k]) || NewEvent(x[i]) == NewEvent(x[k])
    ensures i == k
  {
    hide RoundMilli;
    assert x[i].distance == x[k].distance;
    assert Gap(x[i], x[k]) == 0.0 == Gap(x[k], x[i]);
    hide Gap;
  }

  /** On separated events, what disappeared one way round is new the other way round, as reported. */
  lemma SwapExchangesReports(x: seq<ComparableEvent>, y: seq<ComparableEvent>, tolerance: real, lossIncrease: real,
                             forth: seq<Difference>, back: seq<Difference>, i: nat)
    requires tolerance > 0.0 && Separated(x, 2.0 * tolerance) && Separated(y, 2.0 * tolerance) && i < |x|
    requires IsComparison(x, y, tolerance, lossIncrease, forth) && IsComparison(y, x, tolerance, lossIncrease, back)
    ensures DisappearedEvent(x[i]) in forth <==> NewEvent(x[i]) in back
  {
    var m, m' := Match(x, y, tolerance), Match(y, x, tolerance);
    SeparatedSwap(x, y, tolerance, i);
    ReportedExactly(x, y, tolerance, lossIncrease, forth, DisappearedEvent(x[i]));
    ReportedExactly(y, x, tolerance, lossIncrease, back, NewEvent(x[i]));
    hide IsComparison, Match, Used, Separated, RoundMilli, Gap;
    if k :| ReportsDisappeared(x, m, k, DisappearedEvent(x[i])) {
      OneReport(x, 2.0 * tolerance, i, k);
    }
    if j :| ReportsNew(x, Used(m'), j, NewEvent(x[i])) {
      OneReport(x, 2.0 * tolerance, i, j);
    }
    assert m[i] == -1 ==> ReportsDisappeared(x, m, i, DisappearedEvent(x[i]));
    assert i !in Used(m') ==> ReportsNew(x, Used(m'), i, NewEvent(x[i]));
  }

  // ----- From traces to exact comparison

  /** Detected events as stored, with one identifier each. */
  function AsComparable(events: seq<DetectedEvent>, ids: seq<nat>): (r: seq<ComparableEvent>)
    requires |ids| == |events|
    ensures |r| == |events|
  {
    seq(|events|, i requires 0 <= i < |events| =>
      ComparableEvent(ids[i], events[i].distance, events[i].insertionLoss, events[i].confidence))
  }

  /**
   * Events detected on one trace are separated well enough for exact matching as soon as the
   * merge window spans more than twice the tolerance (and a centimetre of rounding).
   */
  lemma DetectedEventsAreSeparated(points: seq<real>, threshold: real, mergeWindow: int, sampleIntervalNS: real,
                                   refractiveIndex: real, routeLength: real, tolerance: real, ids: seq<nat>)
    requires Detected(points, threshold, mergeWindow, sampleIntervalNS, refractiveIndex, routeLength).Ok?
    requires ValidSampling(sampleIntervalNS, refractiveIndex)
    requires (mergeWindow + 1) as real * RawDistance(1, sampleIntervalNS, refractiveIndex) > 2.0 * tolerance + 0.01
    requires |ids| == |Detected(points, threshold, mergeWindow, sampleIntervalNS, refractiveIndex, routeLength).value.events|
    ensures Separated(
              AsComparable(Detected(points, threshold, mergeWindow, sampleIntervalNS, refractiveIndex, routeLength).value.events, ids),
              2.0 * tolerance)
  {
    hide Detected, RawDistance;
    DetectedSpread(points, threshold, mergeWindow, sampleIntervalNS, refractiveIndex, routeLength, 2.0 * tolerance);
  }
}
