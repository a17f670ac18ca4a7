/** Laws of the reported differences (backend/internal/algorithm/compare.go:23-84). */
module ComparisonLaws {
  import opened Basics
  import opened Comparison
  import opened Detection
  import opened Matching
  import opened Rounding
  import opened Sorting

  // ----- Contents

  lemma {:induction false} BaseContents(baseline: seq<ComparableEvent>, current: seq<ComparableEvent>, m: seq<int>,
                                        lossIncrease: real, d: Difference)
    requires |m| == |baseline|
    ensures d in BaseDifferences(baseline, current, m, lossIncrease) <==>
            exists k :: 0 <= k < |baseline| && d in BaseDifference(baseline[k], Partner(current, m[k]), lossIncrease)
    decreases |baseline|
  {
    if baseline != [] {
      hide BaseDifference, Partner;
      var last := |baseline| - 1;
      BaseContents(baseline[..last], current, m[..last], lossIncrease, d);
    }
  }

  ghost predicate ReportsDisappeared(baseline: seq<ComparableEvent>, m: seq<int>, k: int, d: Difference)
    requires |m| == |baseline|
  {
    0 <= k < |baseline| && m[k] == -1 && d == DisappearedEvent(baseline[k])
  }

  ghost predicate ReportsLoss(baseline: seq<ComparableEvent>, current: seq<ComparableEvent>, m: seq<int>,
                              lossIncrease: real, k: int, d: Difference)
    requires |m| == |baseline|
  {
    && 0 <= k < |baseline| && 0 <= m[k] < |current|
    && current[m[k]].insertionLoss - baseline[k].insertionLoss >= lossIncrease
    && d == IncreasedLoss(baseline[k], current[m[k]])
  }

  ghost predicate ReportsNew(current: seq<ComparableEvent>, used: set<int>, j: int, d: Difference) {
    0 <= j < |current| && j !in used && d == NewEvent(current[j])
  }

  lemma {:induction false} NewContents(current: seq<ComparableEvent>, used: set<int>, n: nat, d: Difference)
    requires n <= |current|
    ensures d in NewDifferences(current, used, n) <==>
            exists j :: 0 <= j < n && ReportsNew(current, used, j, d)
  {
    if n > 0 {
      hide NewEvent;
      NewContents(current, used, n - 1, d);
      assert ReportsNew(current, used, n - 1, d) <==> n - 1 !in used && d == NewEvent(current[n - 1]);
      hide ReportsNew;
    }
  }

  lemma BaseReports(baseline: seq<ComparableEvent>, current: seq<ComparableEvent>, m: seq<int>, lossIncrease: real, d: Difference)
    requires |m| == |baseline| && forall k | 0 <= k < |m| :: -1 <= m[k] < |current|
    ensures d in BaseDifferences(baseline, current, m, lossIncrease) <==>
            || (exists k :: ReportsDisappeared(baseline, m, k, d))
            || (exists k :: ReportsLoss(baseline, current, m, lossIncrease, k, d))
  {
    hide DisappearedEvent, IncreasedLoss;
    BaseContents(baseline, current, m, lossIncrease, d);
    hide BaseDifferences;
    forall k | 0 <= k < |baseline|
      ensures d in BaseDifference(baseline[k], Partner(current, m[k]), lossIncrease) <==>
              ReportsDisappeared(baseline, m, k, d) || ReportsLoss(baseline, current, m, lossIncrease, k, d)
    {}
  }

  /**
   * What is reported: each unmatched baseline event as disappeared, each match whose loss grew by
   * at least the threshold, each unmatched current event as new, and nothing else.
   */
  lemma ReportedExactly(baseline: seq<ComparableEvent>, current: seq<ComparableEvent>, tolerance: real,
                        lossIncrease: real, differences: seq<Difference>, d: Difference)
    requires IsComparison(baseline, current, tolerance, lossIncrease, differences)
    ensures var m := Match(baseline, current, tolerance);
            d in differences <==>
            || (exists k :: ReportsDisappeared(baseline, m, k, d))
            || (exists k :: ReportsLoss(baseline, current, m, lossIncrease, k, d))
            || (exists j :: ReportsNew(current, Used(m), j, d))
  {
    hide Match, Used, ReportsDisappeared, ReportsLoss, ReportsNew, BaseDifferences, NewDifferences;
    var m := Match(baseline, current, tolerance);
    var ofBaseline := BaseDifferences(baseline, current, m, lossIncrease);
    var ofCurrent := NewDifferences(current, Used(m), |current|);
    PermutationMembers(differences, ofBaseline + ofCurrent);
    BaseReports(baseline, current, m, lossIncrease, d);
    NewReports(current, Used(m), d);
  }

  lemma NewReports(current: seq<ComparableEvent>, used: set<int>, d: Difference)
    ensures d in NewDifferences(current, used, |current|) <==> exists j :: ReportsNew(current, used, j, d)
  {
    NewContents(current, used, |current|, d);
    hide NewDifferences;
    if j :| ReportsNew(current, used, j, d) {
      assert 0 <= j < |current| && ReportsNew(current, used, j, d);
    }
  }

  // ----- Fields

  predicate ReportsVanished(d: Difference, base: ComparableEvent) {
    && d.kind == Disappeared && d.baselineEventId == Some(base.id) && d.currentEventId == None
    && d.distance == base.distance && d.lossDelta == 0.0 && ToMilli(d.confidence, 0.9 * base.confidence)
  }

  predicate ReportsGrowth(d: Difference, base: ComparableEvent, candidate: ComparableEvent) {
    && d.kind == LossIncreased && d.baselineEventId == Some(base.id) && d.currentEventId == Some(candidate.id)
    && d.distance == candidate.distance
    && ToMilli(d.lossDelta, candidate.insertionLoss - base.insertionLoss)
    && ToMilli(d.confidence, if base.confidence <= candidate.confidence then base.confidence else candidate.confidence)
  }

  predicate ReportsAppeared(d: Difference, candidate: ComparableEvent) {
    && d.kind == New && d.baselineEventId == None && d.currentEventId == Some(candidate.id)
    && d.distance == candidate.distance && d.lossDelta == candidate.insertionLoss
    && ToMilli(d.confidence, candidate.confidence)
  }

  lemma FieldsOfReports(base: ComparableEvent, candidate: ComparableEvent, lossIncrease: real)
    ensures ReportsVanished(DisappearedEvent(base), base)
    ensures ReportsGrowth(IncreasedLoss(base, candidate), base, candidate)
    ensures candidate.insertionLoss - base.insertionLoss >= lossIncrease ==>
              IncreasedLoss(base, candidate).lossDelta >= RoundMilli(lossIncrease)
    ensures ReportsAppeared(NewEvent(candidate), candidate)
  {
    hide RoundMilli;
    RoundMilliLaws(base.confidence * 0.9, base.confidence * 0.9);
    RoundMilliLaws(Min(base.confidence, candidate.confidence), Min(base.confidence, candidate.confidence));
    RoundMilliLaws(candidate.confidence, candidate.confidence);
    var growth := candidate.insertionLoss - base.insertionLoss;
    RoundMilliLaws(growth, growth);
    if lossIncrease <= growth {
      RoundMilliLaws(lossIncrease, growth);
    }
  }

  ghost predicate VanishedOf(d: Difference, baseline: seq<ComparableEvent>) {
    exists k :: 0 <= k < |baseline| && ReportsVanished(d, baseline[k])
  }

  ghost predicate GrowthOf(d: Difference, baseline: seq<ComparableEvent>, current: seq<ComparableEvent>, tolerance: real,
                           lossIncrease: real)
  {
    exists k, j :: 0 <= k < |baseline| && 0 <= j < |current| && ReportsGrowth(d, baseline[k], current[j])
                   && -tolerance <= current[j].distance - baseline[k].distance <= tolerance
                   && current[j].insertionLoss - baseline[k].insertionLoss >= lossIncrease
                   && d.lossDelta >= RoundMilli(lossIncrease)
  }

  ghost predicate AppearedOf(d: Difference, current: seq<ComparableEvent>) {
    exists j :: 0 <= j < |current| && ReportsAppeared(d, current[j])
  }

  /** What the fields of a reported difference say: which events it is about, where, by how much and how surely. */
  lemma ReportedFields(baseline: seq<ComparableEvent>, current: seq<ComparableEvent>, tolerance: real,
                       lossIncrease: real, differences: seq<Difference>, d: Difference)
    requires IsComparison(baseline, current, tolerance, lossIncrease, differences) && d in differences
    ensures match d.kind
            case Disappeared => VanishedOf(d, baseline)
            case LossIncreased => GrowthOf(d, baseline, current, tolerance, lossIncrease)
            case New => AppearedOf(d, current)
  {
    hide IsComparison, Match, Used, RoundMilli, DisappearedEvent, IncreasedLoss, NewEvent;
    ReportedExactly(baseline, current, tolerance, lossIncrease, differences, d);
    MatchIsOneToOne(baseline, current, tolerance);
    var m := Match(baseline, current, tolerance);
    if k :| ReportsDisappeared(baseline, m, k, d) {
      FieldsOfReports(baseline[k], baseline[k], lossIncrease);
    } else if k :| ReportsLoss(baseline, current, m, lossIncrease, k, d) {
      FieldsOfReports(baseline[k], current[m[k]], lossIncrease);
      assert ReportsGrowth(d, baseline[k], current[m[k]]);
    } else {
      var j :| ReportsNew(current, Used(m), j, d);
      FieldsOfReports(current[j], current[j], lossIncrease);
    }
  }

  /** The order of the output: by distance, and at one distance disappeared, then increased, then new. */
  lemma OutputOrder(baseline: seq<ComparableEvent>, current: seq<ComparableEvent>, tolerance: real,
                    lossIncrease: real, differences: seq<Difference>, i: nat, j: nat)
    requires IsComparison(baseline, current, tolerance, lossIncrease, differences) && i < j < |differences|
    ensures differences[i].distance <= differences[j].distance
    ensures differences[i].distance == differences[j].distance ==>
              && (differences[j].kind == Disappeared ==> differences[i].kind == Disappeared)
              && (differences[i].kind == New ==> differences[j].kind == New)
  {
    hide Unsorted;
    assert KeyAtMost(differences[i], differences[j]);
  }

  // ----- Conservation

  function CountKind(differences: seq<Difference>, kind: Kind): nat {
    if differences == [] then 0
    else
      var last := |differences| - 1;
      CountKind(differences[..last], kind) + (if differences[last].kind == kind then 1 else 0)
  }

  lemma {:induction false} CountKindSplit(a: seq<Difference>, b: seq<Difference>, kind: Kind)
    ensures CountKind(a + b, kind) == CountKind(a, kind) + CountKind(b, kind)
    decreases |b|
  {
    if b == [] {
      assert a + b == a;
    } else {
      assert (a + b)[..|a + b| - 1] == a + b[..|b| - 1];
      CountKindSplit(a, b[..|b| - 1], kind);
    }
  }

  lemma CountKindWithout(s: seq<Difference>, j: nat, kind: Kind)
    requires j < |s|
    ensures CountKind(s, kind) == CountKind(Without(s, j), kind) + (if s[j].kind == kind then 1 else 0)
  {
    assert s == s[..j] + ([s[j]] + s[j + 1..]);
    CountKindSplit(s[..j], [s[j]] + s[j + 1..], kind);
    CountKindSplit([s[j]], s[j + 1..], kind);
    CountKindSplit(s[..j], s[j + 1..], kind);
    assert [s[j]][..0] == [];
  }

  lemma {:induction false} CountKindPermutation(s: seq<Difference>, t: seq<Difference>, kind: Kind)
    requires multiset(s) == multiset(t)
    ensures CountKind(s, kind) == CountKind(t, kind)
    decreases |s|
  {
    if s == [] {
      assert |multiset(t)| == |t|;
    } else {
      var n := |s| - 1;
      assert s[n] in multiset(t);
      var j :| 0 <= j < |t| && t[j] == s[n];
      WithoutBag(s, n);
      WithoutBag(t, j);
      CountKindPermutation(Without(s, n), Without(t, j), kind);
      CountKindWithout(s, n, kind);
      CountKindWithout(t, j, kind);
    }
  }

  lemma CountOne(base: ComparableEvent, partner: Option<ComparableEvent>, lossIncrease: real)
    ensures var d := BaseDifference(base, partner, lossIncrease);
            && CountKind(d, Disappeared) == (if partner.None? then 1 else 0)
            && CountKind(d, LossIncreased) <= (if partner.Some? then 1 else 0)
            && CountKind(d, New) == 0
  {
    var d := BaseDifference(base, partner, lossIncrease);
    if |d| == 1 {
      assert d[..0] == [];
    }
  }

  lemma {:induction false} CountBase(baseline: seq<ComparableEvent>, current: seq<ComparableEvent>, m: seq<int>, lossIncrease: real)
    requires |m| == |baseline| && forall k | 0 <= k < |m| :: -1 <= m[k] < |current|
    ensures var d := BaseDifferences(baseline, current, m, lossIncrease);
            && CountKind(d, Disappeared) + |Matched(m)| == |baseline|
            && CountKind(d, LossIncreased) <= |Matched(m)|
            && CountKind(d, New) == 0
    decreases |baseline|
  {
    hide CountKind, BaseDifference, Matched, Used, Partner;
    if baseline == [] {
      CountNothing();
      NothingUsed(m);
    } else {
      var last := |baseline| - 1;
      CountBase(baseline[..last], current, m[..last], lossIncrease);
      var partner := Partner(current, m[last]);
      CountOne(baseline[last], partner, lossIncrease);
      CountAppend(BaseDifferences(baseline[..last], current, m[..last], lossIncrease),
                  BaseDifference(baseline[last], partner, lossIncrease));
      UsedAppend(m[..last], m[last]);
      assert m == m[..last] + [m[last]];
      BeyondMatched(m[..last]);
      PartnerIff(current, m[last]);
    }
  }

  lemma CountNothing()
    ensures forall kind: Kind :: CountKind([], kind) == 0
  {}

  lemma PartnerIff(current: seq<ComparableEvent>, m: int)
    requires -1 <= m < |current|
    ensures Partner(current, m).Some? <==> m >= 0
  {}

  lemma CountAppend(front: seq<Difference>, back: seq<Difference>)
    ensures forall kind: Kind :: CountKind(front + back, kind) == CountKind(front, kind) + CountKind(back, kind)
  {
    forall kind ensures CountKind(front + back, kind) == CountKind(front, kind) + CountKind(back, kind) {
      CountKindSplit(front, back, kind);
    }
  }

  lemma {:induction false} CountNew(current: seq<ComparableEvent>, used: set<int>, n: nat)
    requires n <= |current|
    ensures var d := NewDifferences(current, used, n);
            && CountKind(d, New) + |Below(used, n)| == n
            && CountKind(d, Disappeared) == CountKind(d, LossIncreased) == 0
  {
    if n == 0 {
      assert Below(used, 0) == {};
    } else {
      CountNew(current, used, n - 1);
      var front := NewDifferences(current, used, n - 1);
      if n - 1 in used {
        assert Below(used, n) == Below(used, n - 1) + {n - 1};
        assert NewDifferences(current, used, n) == front;
      } else {
        assert Below(used, n) == Below(used, n - 1);
        var one := [NewEvent(current[n - 1])];
        assert one[..0] == [];
        CountKindSplit(front, one, New);
        CountKindSplit(front, one, Disappeared);
        CountKindSplit(front, one, LossIncreased);
      }
    }
  }

  ghost function Below(used: set<int>, n: nat): set<int> {
    set i | i in used && 0 <= i < n
  }

  /**
   * Conservation: every baseline event is matched or disappeared, every current event is matched
   * or new, and only matches can show an increased loss.
   */
  lemma Conservation(baseline: seq<ComparableEvent>, current: seq<ComparableEvent>, tolerance: real,
                     lossIncrease: real, differences: seq<Difference>)
    requires IsComparison(baseline, current, tolerance, lossIncrease, differences)
    ensures var matches := |Matched(Match(baseline, current, tolerance))|;
            && CountKind(differences, Disappeared) + matches == |baseline|
            && CountKind(differences, New) + matches == |current|
            && CountKind(differences, LossIncreased) <= matches
            && CountKind(differences, Disappeared) - CountKind(differences, New) == |baseline| - |current|
  {
    hide Match, Matched, BaseDifferences, NewDifferences, CountKind;
    var m := Match(baseline, current, tolerance);
    var ofBaseline := BaseDifferences(baseline, current, m, lossIncrease);
    var ofCurrent := NewDifferences(current, Used(m), |current|);
    forall kind ensures CountKind(differences, kind) == CountKind(ofBaseline, kind) + CountKind(ofCurrent, kind) {
      CountKindPermutation(differences, ofBaseline + ofCurrent, kind);
      CountKindSplit(ofBaseline, ofCurrent, kind);
    }
    CountBase(baseline, current, m, lossIncrease);
    CountNew(current, Used(m), |current|);
    MatchIsOneToOne(baseline, current, tolerance);
    UsedSize(m);
    assert Below(Used(m), |current|) == Used(m);
  }

  // ----- A list against itself

  lemma NearestIsSelf(events: seq<ComparableEvent>, tolerance: real, k: nat)
    requires k < |events| && tolerance > 0.0
    ensures Nearest(events[k], events, Used(Identity(k)), tolerance, |events|) == k
  {
    var used := Used(Identity(k));
    forall i | 0 <= i < k ensures i in used {
      assert Identity(k)[i] == i;
    }
    assert k !in used;
    assert Candidate(events[k], events, used, tolerance, k);
  }

  lemma {:induction false} MatchSelf(events: seq<ComparableEvent>, tolerance: real, k: nat)
    requires k <= |events| && tolerance > 0.0
    ensures Match(events[..k], events, tolerance) == Identity(k)
  {
    hide Nearest, Used, Match;
    if k == 0 {
      NothingMatched(events[..k], events, tolerance);
    } else {
      MatchSelf(events, tolerance, k - 1);
      NearestIsSelf(events, tolerance, k - 1);
      MatchNext(events, events, tolerance, k - 1);
      assert Identity(k) == Identity(k - 1) + [k - 1];
    }
  }

  lemma MatchNext(baseline: seq<ComparableEvent>, current: seq<ComparableEvent>, tolerance: real, k: nat)
    requires k < |baseline|
    ensures var before := Match(baseline[..k], current, tolerance);
            Match(baseline[..k + 1], current, tolerance)
            == before + [Nearest(baseline[k], current, Used(before), tolerance, |current|)]
  {
    hide Nearest, Used;
    assert baseline[..k + 1][..k] == baseline[..k];
  }

  lemma {:induction false} NoBaseDifference(events: seq<ComparableEvent>, lossIncrease: real, k: nat)
    requires k <= |events| && lossIncrease > 0.0
    ensures BaseDifferences(events[..k], events, Identity(k), lossIncrease) == []
  {
    if k > 0 {
      NoBaseDifference(events, lossIncrease, k - 1);
      assert events[..k][..k - 1] == events[..k - 1];
      assert Identity(k)[..k - 1] == Identity(k - 1);
    }
  }

  lemma {:induction false} NothingNew(events: seq<ComparableEvent>, used: set<int>, n: nat)
    requires n <= |events| && forall i | 0 <= i < n :: i in used
    ensures NewDifferences(events, used, n) == []
  {
    if n > 0 {
      NothingNew(events, used, n - 1);
    }
  }

  /** Comparing a list with itself reports nothing, even when distances repeat. */
  lemma SelfComparisonIsEmpty(events: seq<ComparableEvent>, tolerance: real, lossIncrease: real, differences: seq<Difference>)
    requires tolerance > 0.0 && lossIncrease > 0.0
    requires IsComparison(events, events, tolerance, lossIncrease, differences)
    ensures differences == []
  {
    var n := |events|;
    assert events[..n] == events;
    MatchSelf(events, tolerance, n);
    NoBaseDifference(events, lossIncrease, n);
    forall i | 0 <= i < n ensures i in Used(Identity(n)) {
      assert Identity(n)[i] == i;
    }
    NothingNew(events, Used(Identity(n)), n);
    hide Match, BaseDifferences, NewDifferences;
    assert Unsorted(events, events, tolerance, lossIncrease) == [];
    assert |multiset(differences)| == |differences|;
  }

  // ----- The loss threshold

  lemma {:induction false} RaiseThresholdBase(baseline: seq<ComparableEvent>, current: seq<ComparableEvent>, m: seq<int>,
                                              low: real, high: real, d: Difference)
    requires |m| == |baseline| && low <= high
    ensures var few := multiset(BaseDifferences(baseline, current, m, high));
            var many := multiset(BaseDifferences(baseline, current, m, low));
            few[d] <= many[d] && (d.kind != LossIncreased ==> few[d] == many[d])
    decreases |baseline|
  {
    if baseline != [] {
      var last := |baseline| - 1;
      RaiseThresholdBase(baseline[..last], current, m[..last], low, high, d);
      var partner := Partner(current, m[last]);
      var lowOne := BaseDifference(baseline[last], partner, low);
      var highOne := BaseDifference(baseline[last], partner, high);
      assert highOne == lowOne || (highOne == [] && |lowOne| == 1 && lowOne[0].kind == LossIncreased);
      assert multiset(highOne)[d] <= multiset(lowOne)[d];
      hide BaseDifference;
    }
  }

  /** Raising the loss threshold only removes loss increases and keeps everything else. */
  lemma RaisingThresholdOnlyRemovesLosses(baseline: seq<ComparableEvent>, current: seq<ComparableEvent>, tolerance: real,
                                          low: real, high: real, many: seq<Difference>, few: seq<Difference>)
    requires low <= high
    requires IsComparison(baseline, current, tolerance, low, many)
    requires IsComparison(baseline, current, tolerance, high, few)
    ensures multiset(few) <= multiset(many)
    ensures forall d: Difference | d.kind != LossIncreased :: multiset(few)[d] == multiset(many)[d]
  {
    hide Match, BaseDifferences, NewDifferences;
    forall d: Difference
      ensures multiset(few)[d] <= multiset(many)[d]
      ensures d.kind != LossIncreased ==> multiset(few)[d] == multiset(many)[d]
    {
      RaiseThresholdBase(baseline, current, Match(baseline, current, tolerance), low, high, d);
    }
  }

  // ----- Order of the output

  ghost predicate DistinctKeys(differences: seq<Difference>) {
    forall i, j | 0 <= i < j < |differences| :: !KeyAtMost(differences[j], differences[i])
  }

  lemma GreatestIsLast(a: seq<Difference>, b: seq<Difference>)
    requires a != [] && DistinctKeys(a) && SortedBy(KeyAtMost, b) && multiset(a) == multiset(b)
    ensures b != [] && a[|a| - 1] == b[|b| - 1]
  {
    hide KeyAtMost;
    var n := |a| - 1;
    assert a[n] in multiset(b);
    var last := |b| - 1;
    assert b[last] in multiset(a);
    var p :| 0 <= p <= n && a[p] == b[last];
    var q :| 0 <= q <= last && b[q] == a[n];
    if q < last {
      assert KeyAtMost(b[q], b[last]);
    }
  }

  /** With distinct keys the output does not depend on how the sort arranges ties. */
  lemma {:induction false} OutputIsUnique(a: seq<Difference>, b: seq<Difference>)
    requires DistinctKeys(a) && SortedBy(KeyAtMost, b) && multiset(a) == multiset(b)
    ensures a == b
    decreases |a|
  {
    if a == [] {
      assert |multiset(b)| == |b|;
    } else {
      GreatestIsLast(a, b);
      var n, l := |a| - 1, |b| - 1;
      FrontsAgree(a, b);
      OutputIsUnique(a[..n], b[..l]);
      SameFrontAndLast(a, b);
    }
  }

  lemma FrontsAgree(a: seq<Difference>, b: seq<Difference>)
    requires a != [] && b != [] && a[|a| - 1] == b[|b| - 1]
    requires DistinctKeys(a) && SortedBy(KeyAtMost, b) && multiset(a) == multiset(b)
    ensures DistinctKeys(a[..|a| - 1]) && SortedBy(KeyAtMost, b[..|b| - 1])
    ensures multiset(a[..|a| - 1]) == multiset(b[..|b| - 1])
  {
    hide KeyAtMost;
    SameBagWithoutLast(a, b);
  }

  lemma SameBagWithoutLast<T>(a: seq<T>, b: seq<T>)
    requires a != [] && b != [] && a[|a| - 1] == b[|b| - 1] && multiset(a) == multiset(b)
    ensures multiset(a[..|a| - 1]) == multiset(b[..|b| - 1])
  {
    WithoutBag(a, |a| - 1);
    WithoutBag(b, |b| - 1);
    assert Without(a, |a| - 1) == a[..|a| - 1] && Without(b, |b| - 1) == b[..|b| - 1];
  }

  lemma SameFrontAndLast<T>(a: seq<T>, b: seq<T>)
    requires a != [] && b != [] && a[|a| - 1] == b[|b| - 1] && a[..|a| - 1] == b[..|b| - 1]
    ensures a == b
  {
    assert a == a[..|a| - 1] + [a[|a| - 1]] && b == b[..|b| - 1] + [b[|b| - 1]];
  }

  // ----- Confidence

  ghost predicate Confident(events: seq<ComparableEvent>) {
    forall i | 0 <= i < |events| :: ConfidenceBounds(events[i].confidence)
  }

  ghost predicate DifferenceBounds(d: Difference) {
    0.54 <= d.confidence <= 0.99
  }

  lemma DifferenceConfidence(base: ComparableEvent, candidate: ComparableEvent)
    requires ConfidenceBounds(base.confidence) && ConfidenceBounds(candidate.confidence)
    ensures DifferenceBounds(DisappearedEvent(base)) && DifferenceBounds(IncreasedLoss(base, candidate))
    ensures DifferenceBounds(NewEvent(candidate))
  {
    hide RoundMilli;
    RoundMilliBetween(base.confidence * 0.9, 540, 990);
    RoundMilliBetween(Min(base.confidence, candidate.confidence), 540, 990);
    RoundMilliBetween(candidate.confidence, 540, 990);
  }

  /** Events of confidence 0.6 to 0.99 give differences of confidence 0.54 to 0.99. */
  lemma ComparisonConfidence(baseline: seq<ComparableEvent>, current: seq<ComparableEvent>, tolerance: real,
                             lossIncrease: real, differences: seq<Difference>)
    requires IsComparison(baseline, current, tolerance, lossIncrease, differences)
    requires Confident(baseline) && Confident(current)
    ensures forall i | 0 <= i < |differences| :: DifferenceBounds(differences[i])
  {
    hide IsComparison, Match, Used, DisappearedEvent, IncreasedLoss, NewEvent, DifferenceBounds;
    forall i | 0 <= i < |differences| ensures DifferenceBounds(differences[i]) {
      var d := differences[i];
      var m := Match(baseline, current, tolerance);
      ReportedExactly(baseline, current, tolerance, lossIncrease, differences, d);
      if j :| ReportsNew(current, Used(m), j, d) {
        DifferenceConfidence(current[j], current[j]);
      } else if k :| ReportsDisappeared(baseline, m, k, d) {
        DifferenceConfidence(baseline[k], baseline[k]);
      } else {
        var k :| ReportsLoss(baseline, current, m, lossIncrease, k, d);
        DifferenceConfidence(baseline[k], current[m[k]]);
      }
    }
  }

  /** The uncertainty derived from such differences is between 1 and 9.2 metres. */
  lemma PrimaryUncertainty(differences: seq<Difference>)
    requires differences != []
    requires forall i | 0 <= i < |differences| :: DifferenceBounds(differences[i])
    ensures Primary(differences).Some? && 1.0 <= Primary(differences).value.uncertainty <= 9.2
  {
    var p := BestIsUndisplaced(differences);
    assert DifferenceBounds(differences[p]);
    hide Best;
  }
}
