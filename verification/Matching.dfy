/** What greedy nearest matching guarantees (backend/internal/algorithm/compare.go:30-63). */
module Matching {
  import opened Basics
  import opened Comparison
  import opened Sorting

  // ----- One-to-one matchings

  /** Entry `k` is the current event taken by baseline event `k`, or -1. */
  ghost predicate OneToOne(baseline: seq<ComparableEvent>, current: seq<ComparableEvent>, tolerance: real, m: seq<int>) {
    && |m| == |baseline|
    && (forall k | 0 <= k < |m| && m[k] >= 0 :: m[k] < |current| && Gap(baseline[k], current[m[k]]) <= tolerance)
    && (forall k, l | 0 <= k < l < |m| && m[k] >= 0 :: m[k] != m[l])
  }

  ghost function Matched(m: seq<int>): set<int> {
    set k | 0 <= k < |m| && m[k] >= 0
  }

  lemma OneToOneAppend(baseline: seq<ComparableEvent>, current: seq<ComparableEvent>, tolerance: real, m: seq<int>, j: int)
    requires baseline != [] && OneToOne(baseline[..|baseline| - 1], current, tolerance, m)
    requires j >= 0 ==> Candidate(baseline[|baseline| - 1], current, Used(m), tolerance, j)
    ensures OneToOne(baseline, current, tolerance, m + [j])
  {
    hide Gap;
    var longer := m + [j];
    forall k | 0 <= k < |m| && m[k] >= 0 ensures longer[k] != j {
      assert m[k] in Used(m);
    }
  }

  /** The matches are one-to-one and within tolerance. */
  lemma {:induction false} MatchIsOneToOne(baseline: seq<ComparableEvent>, current: seq<ComparableEvent>, tolerance: real)
    ensures OneToOne(baseline, current, tolerance, Match(baseline, current, tolerance))
    decreases |baseline|
  {
    hide OneToOne, Used, Gap;
    if baseline == [] {
      NothingIsOneToOne(current, tolerance);
    } else {
      var last := |baseline| - 1;
      MatchIsOneToOne(baseline[..last], current, tolerance);
      var before := Match(baseline[..last], current, tolerance);
      OneToOneAppend(baseline, current, tolerance, before,
                     Nearest(baseline[last], current, Used(before), tolerance, |current|));
    }
  }

  lemma NothingIsOneToOne(current: seq<ComparableEvent>, tolerance: real)
    ensures OneToOne([], current, tolerance, [])
  {}

  /** An unmatched baseline event has no unused current event within tolerance. */
  lemma {:induction false} MatchIsMaximal(baseline: seq<ComparableEvent>, current: seq<ComparableEvent>, tolerance: real,
                                          k: nat, j: nat)
    requires k < |baseline| && j < |current| && Match(baseline, current, tolerance)[k] == -1
    requires j !in Used(Match(baseline, current, tolerance))
    ensures Gap(baseline[k], current[j]) > tolerance
    decreases |baseline|
  {
    hide Gap;
    var last := |baseline| - 1;
    var before := Match(baseline[..last], current, tolerance);
    assert Used(before) <= Used(Match(baseline, current, tolerance));
    if k < last {
      MatchIsMaximal(baseline[..last], current, tolerance, k, j);
    } else {
      assert !Candidate(baseline[last], current, Used(before), tolerance, j);
    }
  }

  /** Distinct baseline events in `ks` take distinct current events, all of them in `taken`. */
  lemma {:induction false} TakenSize(m: seq<int>, ks: set<int>, taken: set<int>)
    requires forall k | k in ks :: 0 <= k < |m| && m[k] in taken
    requires forall k, l | k in ks && l in ks && k != l :: m[k] != m[l]
    ensures |ks| <= |taken|
    decreases |ks|
  {
    if ks != {} {
      var k := Member(ks);
      TakenSize(m, ks - {k}, taken - {m[k]});
    }
  }

  /** A one-to-one matching takes as many current events as it matches baseline events. */
  lemma {:induction false} UsedSize(m: seq<int>)
    requires forall k, l | 0 <= k < l < |m| && m[k] >= 0 :: m[k] != m[l]
    ensures |Used(m)| == |Matched(m)|
    decreases |m|
  {
    hide Used, Matched;
    if m == [] {
      NothingUsed(m);
    } else {
      var n := |m| - 1;
      UsedSize(m[..n]);
      UsedAppend(m[..n], m[n]);
      assert m == m[..n] + [m[n]];
      if m[n] >= 0 {
        NotUsedBefore(m, n);
      }
      BeyondMatched(m[..n]);
    }
  }

  lemma NothingUsed(m: seq<int>)
    requires m == []
    ensures Used(m) == {} && Matched(m) == {}
  {}

  lemma BeyondMatched(m: seq<int>)
    ensures |m| !in Matched(m)
  {}

  lemma NotUsedBefore(m: seq<int>, n: nat)
    requires n < |m| && m[n] >= 0
    requires forall k, l | 0 <= k < l < |m| && m[k] >= 0 :: m[k] != m[l]
    ensures m[n] !in Used(m[..n])
  {}

  lemma UsedAppend(m: seq<int>, j: int)
    ensures Used(m + [j]) == Used(m) + (if j >= 0 then {j} else {})
    ensures Matched(m + [j]) == Matched(m) + (if j >= 0 then {|m|} else {})
  {}

  /** Greedy finds at least half as many matches as any one-to-one matching within tolerance. */
  lemma GreedyIsHalfOptimal(baseline: seq<ComparableEvent>, current: seq<ComparableEvent>, tolerance: real, other: seq<int>)
    requires OneToOne(baseline, current, tolerance, other)
    ensures |Matched(other)| <= 2 * |Matched(Match(baseline, current, tolerance))|
  {
    hide Gap, Match;
    var greedy := Match(baseline, current, tolerance);
    MatchIsOneToOne(baseline, current, tolerance);
    UsedSize(greedy);
    var shared := Matched(other) * Matched(greedy);
    var missed := Matched(other) - Matched(greedy);
    SubsetSize(shared, Matched(greedy));
    forall k | k in missed ensures other[k] in Used(greedy) {
      if other[k] !in Used(greedy) {
        MatchIsMaximal(baseline, current, tolerance, k, other[k]);
        assert false;
      }
    }
    TakenSize(other, missed, Used(greedy));
    assert Matched(other) == shared + missed;
  }

  function At(id: nat, distance: real): ComparableEvent {
    ComparableEvent(id, distance, 0.0, 0.9)
  }

  function Identity(n: nat): (m: seq<int>)
    ensures |m| == n
  {
    seq(n, i => i)
  }

  /** Where the `q`-th of the places far apart from each other lies. */
  function Place(tolerance: real, q: nat): real {
    if q == 0 then 0.0 else Place(tolerance, q - 1) + 10.0 * tolerance
  }

  lemma {:induction false} PlacesApart(tolerance: real, p: nat, q: nat)
    requires tolerance > 0.0 && p < q
    ensures Place(tolerance, p) + 10.0 * tolerance <= Place(tolerance, q)
    decreases q
  {
    if p < q - 1 {
      PlacesApart(tolerance, p, q - 1);
    }
  }

  /** At each place a pair whose first event is nearest to the current event that its second one needs. */
  function TightBaseline(tolerance: real, n: nat): (events: seq<ComparableEvent>)
    ensures |events| == 2 * n
  {
    seq(2 * n, i requires 0 <= i < 2 * n =>
      At(i, Place(tolerance, i / 2) + if i % 2 == 0 then tolerance else 2.5 * tolerance))
  }

  function TightCurrent(tolerance: real, n: nat): (events: seq<ComparableEvent>)
    ensures |events| == 2 * n
  {
    seq(2 * n, i requires 0 <= i < 2 * n =>
      At(2 * n + i, Place(tolerance, i / 2) + if i % 2 == 0 then 0.0 else 1.5 * tolerance))
  }

  /** Every first event takes the second current event of its place; every second one goes without. */
  function TightMatch(n: nat): (m: seq<int>)
    ensures |m| == 2 * n
  {
    seq(2 * n, i requires 0 <= i < 2 * n => if i % 2 == 0 then i + 1 else -1)
  }

  /** Which pairs of the instance are near: those of one place except the second event and the first current one. */
  lemma TightGap(tolerance: real, n: nat, i: nat, j: nat)
    requires tolerance > 0.0 && i < 2 * n && j < 2 * n
    ensures var gap := Gap(TightBaseline(tolerance, n)[i], TightCurrent(tolerance, n)[j]);
            if i / 2 != j / 2 || (i % 2 == 1 && j % 2 == 0) then gap > tolerance
            else if i % 2 == 0 && j % 2 == 1 then gap == 0.5 * tolerance
            else gap == tolerance
  {
    if i / 2 < j / 2 {
      PlacesApart(tolerance, i / 2, j / 2);
    } else if j / 2 < i / 2 {
      PlacesApart(tolerance, j / 2, i / 2);
    }
  }

  lemma TightNearest(tolerance: real, n: nat, i: nat)
    requires tolerance > 0.0 && i < 2 * n
    ensures Nearest(TightBaseline(tolerance, n)[i], TightCurrent(tolerance, n), Used(TightMatch(n)[..i]), tolerance, 2 * n)
         == TightMatch(n)[i]
  {
    hide Gap, Place, TightBaseline, TightCurrent;
    var base, current, used := TightBaseline(tolerance, n)[i], TightCurrent(tolerance, n), Used(TightMatch(n)[..i]);
    var found := Nearest(base, current, used, tolerance, 2 * n);
    forall j: nat | j < 2 * n ensures j in used <==> j % 2 == 1 && j <= i {
      if j % 2 == 1 && j <= i {
        assert TightMatch(n)[..i][j - 1] == j;
      }
    }
    if i % 2 == 0 {
      TightGap(tolerance, n, i, i + 1);
      assert Candidate(base, current, used, tolerance, i + 1);
      TightGap(tolerance, n, i, found);
    } else if found >= 0 {
      TightGap(tolerance, n, i, found);
      assert false;
    }
  }

  lemma {:induction false} TightPrefix(tolerance: real, n: nat, k: nat)
    requires tolerance > 0.0 && k <= 2 * n
    ensures Match(TightBaseline(tolerance, n)[..k], TightCurrent(tolerance, n), tolerance) == TightMatch(n)[..k]
  {
    hide Nearest, Used, TightBaseline, TightCurrent, TightMatch;
    if k > 0 {
      TightPrefix(tolerance, n, k - 1);
      TightNearest(tolerance, n, k - 1);
      assert TightBaseline(tolerance, n)[..k][..k - 1] == TightBaseline(tolerance, n)[..k - 1];
      assert TightMatch(n)[..k] == TightMatch(n)[..k - 1] + [TightMatch(n)[k - 1]];
    }
  }

  lemma {:induction false} TightSize(n: nat)
    ensures |Matched(TightMatch(n))| == n
  {
    if n > 0 {
      TightSize(n - 1);
      var m := TightMatch(n);
      assert m == TightMatch(n - 1) + [2 * n - 1] + [-1];
      UsedAppend(TightMatch(n - 1), 2 * n - 1);
      UsedAppend(TightMatch(n - 1) + [2 * n - 1], -1);
      assert 2 * n - 2 !in Matched(TightMatch(n - 1));
      hide Matched, TightMatch;
    }
  }

  lemma {:induction false} IdentitySize(n: nat)
    ensures |Matched(Identity(n))| == n
  {
    if n > 0 {
      IdentitySize(n - 1);
      assert Identity(n) == Identity(n - 1) + [n - 1];
      UsedAppend(Identity(n - 1), n - 1);
      assert n - 1 !in Matched(Identity(n - 1));
      hide Matched, Identity;
    }
  }

  /**
   * The half is tight: for every tolerance and every size there are two lists, each nearest first, of
   * which greedy matches `n` pairs although all `2 * n` can be matched.
   */
  lemma GreedyHalfIsTight(tolerance: real, n: nat)
    requires tolerance > 0.0
    ensures var baseline, current := TightBaseline(tolerance, n), TightCurrent(tolerance, n);
            && SortedBy(NearerFirst, baseline) && SortedBy(NearerFirst, current)
            && OneToOne(baseline, current, tolerance, Identity(2 * n)) && |Matched(Identity(2 * n))| == 2 * n
            && |Matched(Match(baseline, current, tolerance))| == n
  {
    hide Match, Matched, OneToOne, SortedBy, TightBaseline, TightCurrent, TightMatch, Identity;
    var baseline, current := TightBaseline(tolerance, n), TightCurrent(tolerance, n);
    TightPrefix(tolerance, n, 2 * n);
    assert baseline[..2 * n] == baseline && TightMatch(n)[..2 * n] == TightMatch(n);
    TightSize(n);
    IdentitySize(2 * n);
    TightIsSorted(tolerance, n);
    TightAllMatched(tolerance, n);
  }

  lemma TightAllMatched(tolerance: real, n: nat)
    requires tolerance > 0.0
    ensures OneToOne(TightBaseline(tolerance, n), TightCurrent(tolerance, n), tolerance, Identity(2 * n))
  {
    hide Gap, TightBaseline, TightCurrent;
    forall k: nat | k < 2 * n ensures Gap(TightBaseline(tolerance, n)[k], TightCurrent(tolerance, n)[k]) <= tolerance {
      TightGap(tolerance, n, k, k);
    }
  }

  lemma TightIsSorted(tolerance: real, n: nat)
    requires tolerance > 0.0
    ensures SortedBy(NearerFirst, TightBaseline(tolerance, n)) && SortedBy(NearerFirst, TightCurrent(tolerance, n))
  {
    forall i, j | 0 <= i < j < 2 * n
      ensures TightBaseline(tolerance, n)[i].distance <= TightBaseline(tolerance, n)[j].distance
           && TightCurrent(tolerance, n)[i].distance <= TightCurrent(tolerance, n)[j].distance
    {
      if i / 2 < j / 2 {
        PlacesApart(tolerance, i / 2, j / 2);
      }
    }
  }

  /**
   * Two events listed nearest first find one match; listed the other way round, which no trace does,
   * both would be matched.
   */
  lemma GreedyDependsOnOrder()
    ensures var near, far := At(1, 100.0), At(2, 103.0);
            var current := [At(3, 98.0), At(4, 101.0)];
            && SortedBy(NearerFirst, [near, far]) && SortedBy(NearerFirst, current)
            && Match([near, far], current, 2.0) == [1, -1]
            && Match([far, near], current, 2.0) == [1, 0]
  {
    var near, far := At(1, 100.0), At(2, 103.0);
    var current := [At(3, 98.0), At(4, 101.0)];
    TwoInTurn(near, far, current, 1);
    TwoInTurn(far, near, current, 1);
    hide Match;
  }

  /** Matches may cross, even between lists that are nearest first. */
  lemma MatchesMayCross()
    ensures var baseline, current := [At(1, 100.0), At(2, 100.5)], [At(3, 99.0), At(4, 100.0)];
            && SortedBy(NearerFirst, baseline) && SortedBy(NearerFirst, current)
            && Match(baseline, current, 2.0) == [1, 0]
  {
    TwoInTurn(At(1, 100.0), At(2, 100.5), [At(3, 99.0), At(4, 100.0)], 1);
    hide Match;
  }

  /** Two matches lie the opposite way round in the two lists. */
  ghost predicate Cross(baseline: seq<ComparableEvent>, current: seq<ComparableEvent>, m: seq<int>, k: nat, l: nat) {
    && |m| == |baseline| && k < |m| && l < |m| && k != l && 0 <= m[k] < |current| && 0 <= m[l] < |current|
    && baseline[k].distance <= baseline[l].distance && current[m[l]].distance <= current[m[k]].distance
  }

  /** Matches cross only close to each other: their spans add up to at most twice the tolerance. */
  lemma CrossingIsNarrow(baseline: seq<ComparableEvent>, current: seq<ComparableEvent>, tolerance: real, k: nat, l: nat)
    requires Cross(baseline, current, Match(baseline, current, tolerance), k, l)
    ensures var m := Match(baseline, current, tolerance);
            Gap(baseline[k], baseline[l]) + Gap(current[m[k]], current[m[l]]) <= 2.0 * tolerance
  {
    MatchIsOneToOne(baseline, current, tolerance);
    hide Match;
  }

  /** So separating either list alone excludes crossing. */
  lemma SeparatedNeverCross(baseline: seq<ComparableEvent>, current: seq<ComparableEvent>, tolerance: real, k: nat, l: nat)
    requires Separated(baseline, 2.0 * tolerance) || Separated(current, 2.0 * tolerance)
    ensures !Cross(baseline, current, Match(baseline, current, tolerance), k, l)
  {
    hide Match;
    var m := Match(baseline, current, tolerance);
    if Cross(baseline, current, m, k, l) {
      CrossingIsNarrow(baseline, current, tolerance, k, l);
      MatchIsOneToOne(baseline, current, tolerance);
      GapSymmetric(baseline[k], baseline[l]);
      GapSymmetric(current[m[k]], current[m[l]]);
      assert false;
    }
  }

  lemma TwoInTurn(a: ComparableEvent, b: ComparableEvent, current: seq<ComparableEvent>, first: int)
    requires |current| == 2 && first == NearestOfTwo(a, current, {}) && first >= 0
    ensures Match([a, b], current, 2.0) == [first, NearestOfTwo(b, current, {first})]
  {
    hide Gap;
    MatchTwo(a, b, current);
    NearestOfTwoIs(a, current, {});
    assert Used([first]) == {first};
    NearestOfTwoIs(b, current, {first});
    hide Match;
  }

  lemma MatchTwo(a: ComparableEvent, b: ComparableEvent, current: seq<ComparableEvent>)
    ensures var first := Nearest(a, current, {}, 2.0, |current|);
            Match([a, b], current, 2.0) == [first, Nearest(b, current, Used([first]), 2.0, |current|)]
  {
    hide Nearest;
    assert [a, b][..1] == [a] && [a][..0] == [];
    assert Match([], current, 2.0) == [] && Used([]) == {};
    assert Match([a], current, 2.0) == [Nearest(a, current, {}, 2.0, |current|)];
  }

  function NearestOfTwo(base: ComparableEvent, current: seq<ComparableEvent>, used: set<int>): int
    requires |current| == 2
  {
    if Candidate(base, current, used, 2.0, 1)
       && (!Candidate(base, current, used, 2.0, 0) || Gap(base, current[1]) < Gap(base, current[0])) then 1
    else if Candidate(base, current, used, 2.0, 0) then 0
    else -1
  }

  lemma NearestOfTwoIs(base: ComparableEvent, current: seq<ComparableEvent>, used: set<int>)
    requires |current| == 2
    ensures Nearest(base, current, used, 2.0, 2) == NearestOfTwo(base, current, used)
  {
    hide Gap;
  }

  // ----- Exactness when events are separated

  /** Any two events are more than `gap` apart. */
  ghost predicate Separated(events: seq<ComparableEvent>, gap: real) {
    forall i, j | 0 <= i < j < |events| :: Gap(events[i], events[j]) > gap
  }

  lemma OnlyNeighbour(events: seq<ComparableEvent>, e: ComparableEvent, tolerance: real, i: nat, j: nat)
    requires Separated(events, 2.0 * tolerance) && i < |events| && j < |events|
    requires Gap(events[i], e) <= tolerance && Gap(events[j], e) <= tolerance
    ensures i == j
  {
    TooClose(events[i], events[j], e, tolerance);
    TooClose(events[j], events[i], e, tolerance);
  }

  lemma TooClose(a: ComparableEvent, b: ComparableEvent, e: ComparableEvent, tolerance: real)
    requires Gap(a, e) <= tolerance && Gap(b, e) <= tolerance
    ensures Gap(a, b) <= 2.0 * tolerance
  {}

  /** On separated events greedy matches exactly the pairs within tolerance. */
  lemma {:induction false} SeparatedMatch(baseline: seq<ComparableEvent>, current: seq<ComparableEvent>, tolerance: real,
                                          k: nat, j: nat)
    requires Separated(baseline, 2.0 * tolerance) && Separated(current, 2.0 * tolerance)
    requires k < |baseline| && j < |current|
    ensures Match(baseline, current, tolerance)[k] == j <==> Gap(baseline[k], current[j]) <= tolerance
    decreases |baseline|
  {
    hide Gap, Nearest, OneToOne, Matched;
    var last := |baseline| - 1;
    var front := baseline[..last];
    SeparatedFront(baseline, 2.0 * tolerance);
    hide Separated;
    if k < last {
      SeparatedMatch(front, current, tolerance, k, j);
    } else {
      var before := Match(front, current, tolerance);
      if Gap(baseline[k], current[j]) <= tolerance && j in Used(before) {
        var l :| 0 <= l < |before| && before[l] == j;
        SeparatedMatch(front, current, tolerance, l, j);
        OnlyNeighbour(baseline, current[j], tolerance, l, k);
        assert false;
      }
      NearestSeparated(baseline[k], current, Used(before), tolerance, j);
    }
  }

  lemma SeparatedFront(events: seq<ComparableEvent>, gap: real)
    requires Separated(events, gap) && events != []
    ensures Separated(events[..|events| - 1], gap)
  {}

  lemma NearestSeparated(base: ComparableEvent, current: seq<ComparableEvent>, used: set<int>, tolerance: real, j: nat)
    requires Separated(current, 2.0 * tolerance) && j < |current|
    requires Gap(base, current[j]) <= tolerance ==> j !in used
    ensures Nearest(base, current, used, tolerance, |current|) == j <==> Gap(base, current[j]) <= tolerance
  {
    hide Gap;
    var found := Nearest(base, current, used, tolerance, |current|);
    if Gap(base, current[j]) <= tolerance {
      assert Candidate(base, current, used, tolerance, j);
      GapSymmetric(base, current[j]);
      GapSymmetric(base, current[found]);
      OnlyNeighbour(current, base, tolerance, found, j);
    }
  }

  lemma GapSymmetric(a: ComparableEvent, b: ComparableEvent)
    ensures Gap(a, b) == Gap(b, a)
  {}

  /** Then the greedy matching extends every other one: it is the unique maximum. */
  lemma SeparatedIsMaximum(baseline: seq<ComparableEvent>, current: seq<ComparableEvent>, tolerance: real, other: seq<int>)
    requires Separated(baseline, 2.0 * tolerance) && Separated(current, 2.0 * tolerance)
    requires OneToOne(baseline, current, tolerance, other)
    ensures forall k | 0 <= k < |other| && other[k] >= 0 :: other[k] == Match(baseline, current, tolerance)[k]
    ensures |Matched(other)| <= |Matched(Match(baseline, current, tolerance))|
    ensures |Matched(other)| == |Matched(Match(baseline, current, tolerance))| ==>
              Matched(other) == Matched(Match(baseline, current, tolerance))
  {
    hide Gap, Match, Separated;
    var greedy := Match(baseline, current, tolerance);
    forall k | 0 <= k < |other| && other[k] >= 0 ensures other[k] == greedy[k] {
      SeparatedMatch(baseline, current, tolerance, k, other[k]);
    }
    assert Matched(other) <= Matched(greedy);
    SubsetSize(Matched(other), Matched(greedy));
    if |Matched(other)| == |Matched(greedy)| {
      SubsetOfSameSize(Matched(other), Matched(greedy));
    }
  }

  /** Separating the baseline alone makes the number of matches a maximum. */
  lemma SeparatedBaselineIsMaximum(baseline: seq<ComparableEvent>, current: seq<ComparableEvent>, tolerance: real, other: seq<int>)
    requires Separated(baseline, 2.0 * tolerance) && OneToOne(baseline, current, tolerance, other)
    ensures Matched(other) <= Matched(Match(baseline, current, tolerance))
    ensures |Matched(other)| <= |Matched(Match(baseline, current, tolerance))|
  {
    hide Gap, Match, Separated;
    var greedy := Match(baseline, current, tolerance);
    MatchIsOneToOne(baseline, current, tolerance);
    forall k | k in Matched(other) ensures k in Matched(greedy) {
      if greedy[k] == -1 {
        if other[k] !in Used(greedy) {
          MatchIsMaximal(baseline, current, tolerance, k, other[k]);
        } else {
          var l :| 0 <= l < |greedy| && greedy[l] == other[k];
          OnlyNeighbour(baseline, current[other[k]], tolerance, k, l);
        }
        assert false;
      }
    }
    SubsetSize(Matched(other), Matched(greedy));
  }

  /** So does separating the current events alone. */
  lemma SeparatedCurrentIsMaximum(baseline: seq<ComparableEvent>, current: seq<ComparableEvent>, tolerance: real, other: seq<int>)
    requires Separated(current, 2.0 * tolerance) && OneToOne(baseline, current, tolerance, other)
    ensures Used(other) <= Used(Match(baseline, current, tolerance))
    ensures |Matched(other)| <= |Matched(Match(baseline, current, tolerance))|
  {
    hide Gap, Match, Separated;
    var greedy := Match(baseline, current, tolerance);
    MatchIsOneToOne(baseline, current, tolerance);
    forall j | j in Used(other) ensures j in Used(greedy) {
      var k :| 0 <= k < |other| && other[k] == j;
      if greedy[k] == -1 {
        if j !in Used(greedy) {
          MatchIsMaximal(baseline, current, tolerance, k, j);
          assert false;
        }
      } else {
        GapSymmetric(baseline[k], current[j]);
        GapSymmetric(baseline[k], current[greedy[k]]);
        OnlyNeighbour(current, baseline[k], tolerance, j, greedy[k]);
      }
    }
    UsedSize(other);
    UsedSize(greedy);
    SubsetSize(Used(other), Used(greedy));
  }

  /** Swapping the two lists exchanges which events are unmatched on either side. */
  lemma SeparatedSwap(x: seq<ComparableEvent>, y: seq<ComparableEvent>, tolerance: real, i: nat)
    requires Separated(x, 2.0 * tolerance) && Separated(y, 2.0 * tolerance)
    requires i < |x|
    ensures Match(x, y, tolerance)[i] == -1 <==> i !in Used(Match(y, x, tolerance))
  {
    hide Gap, Match, Separated;
    var forth, back := Match(x, y, tolerance), Match(y, x, tolerance);
    if forth[i] >= 0 {
      SeparatedMatch(x, y, tolerance, i, forth[i]);
      GapSymmetric(x[i], y[forth[i]]);
      SeparatedMatch(y, x, tolerance, forth[i], i);
      assert back[forth[i]] == i;
    }
    if i in Used(back) {
      var j :| 0 <= j < |back| && back[j] == i;
      SeparatedMatch(y, x, tolerance, j, i);
      GapSymmetric(x[i], y[j]);
      SeparatedMatch(x, y, tolerance, i, j);
    }
  }
}
