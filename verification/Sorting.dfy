/** Sorting in place, and the order statistics that the median filters rely on. */
module Sorting {

  ghost predicate TotalOrder<T(!new)>(le: (T, T) -> bool) {
    && (forall x, y :: le(x, y) || le(y, x))
    && (forall x, y, z :: le(x, y) && le(y, z) ==> le(x, z))
  }

  ghost predicate SortedBy<T>(le: (T, T) -> bool, s: seq<T>) {
    forall i, j | 0 <= i < j < |s| :: le(s[i], s[j])
  }

  /** Stands for the library sorts: any permutation of the input that is sorted. */
  method SortInPlace<T(!new)>(a: array<T>, le: (T, T) -> bool)
    requires TotalOrder(le)
    modifies a
    ensures SortedBy(le, a[..])
    ensures multiset(a[..]) == old(multiset(a[..]))
  {
    var i := 0;
    while i < a.Length
      invariant 0 <= i <= a.Length
      invariant SortedBy(le, a[..i])
      invariant multiset(a[..]) == old(multiset(a[..]))
    {
      var j := i;
      while j > 0 && !le(a[j - 1], a[j])
        invariant 0 <= j <= i
        invariant forall k, l | 0 <= k < l <= i && l != j :: le(a[k], a[l])
        invariant multiset(a[..]) == old(multiset(a[..]))
      {
        a[j - 1], a[j] := a[j], a[j - 1];
        j := j - 1;
      }
      i := i + 1;
    }
    assert a[..a.Length] == a[..];
  }

  /** Sorts a copy, as the services do with freshly built slices. */
  method SortCopy<T(!new)>(s: seq<T>, le: (T, T) -> bool) returns (r: seq<T>)
    requires TotalOrder(le)
    ensures SortedBy(le, r)
    ensures multiset(r) == multiset(s)
  {
    var a := new T[|s|](i requires 0 <= i < |s| => s[i]);
    assert a[..] == s;
    SortInPlace(a, le);
    r := a[..];
  }

  predicate AtMost(x: real, y: real) {
    x <= y
  }

  predicate Sorted(s: seq<real>) {
    forall i, j | 0 <= i < j < |s| :: s[i] <= s[j]
  }

  function Insert(t: seq<real>, x: real): seq<real> {
    if t == [] || t[|t| - 1] <= x then t + [x] else Insert(t[..|t| - 1], x) + [t[|t| - 1]]
  }

  lemma {:induction false} InsertBag(t: seq<real>, x: real)
    ensures multiset(Insert(t, x)) == multiset(t) + multiset{x}
    ensures |Insert(t, x)| == |t| + 1
  {
    if t != [] && t[|t| - 1] > x {
      InsertBag(t[..|t| - 1], x);
      assert t == t[..|t| - 1] + [t[|t| - 1]];
    }
  }

  lemma {:induction false} InsertSorted(t: seq<real>, x: real)
    requires Sorted(t)
    ensures Sorted(Insert(t, x))
    ensures Insert(t, x)[|Insert(t, x)| - 1] == if t == [] || t[|t| - 1] <= x then x else t[|t| - 1]
  {
    if t != [] && t[|t| - 1] > x {
      InsertSorted(t[..|t| - 1], x);
    }
  }

  lemma SortStep(front: seq<real>, s: seq<real>)
    requires s != [] && Sorted(front) && multiset(front) == multiset(s[..|s| - 1]) && |front| == |s| - 1
    ensures var t := Insert(front, s[|s| - 1]);
            Sorted(t) && multiset(t) == multiset(s) && |t| == |s|
  {
    var x := s[|s| - 1];
    InsertSorted(front, x);
    InsertBag(front, x);
    hide Insert, Sorted;
    assert s == s[..|s| - 1] + [x];
  }

  /** The sorted arrangement of `s`. */
  function Sort(s: seq<real>): (t: seq<real>)
    ensures Sorted(t) && multiset(t) == multiset(s) && |t| == |s|
  {
    if s == [] then []
    else
      hide Insert, Sorted;
      var front := Sort(s[..|s| - 1]);
      SortStep(front, s);
      Insert(front, s[|s| - 1])
  }

  /** How many samples are at most `x`. */
  function CountAtMost(s: seq<real>, x: real): (n: nat)
    ensures n <= |s|
  {
    if s == [] then 0
    else CountAtMost(s[..|s| - 1], x) + (if s[|s| - 1] <= x then 1 else 0)
  }

  lemma {:induction false} CountSplit(s: seq<real>, t: seq<real>, x: real)
    ensures CountAtMost(s + t, x) == CountAtMost(s, x) + CountAtMost(t, x)
  {
    if t == [] {
      assert s + t == s;
    } else {
      assert (s + t)[..|s + t| - 1] == s + t[..|t| - 1];
      CountSplit(s, t[..|t| - 1], x);
    }
  }

  function Without<T>(t: seq<T>, j: nat): (r: seq<T>)
    requires j < |t|
    ensures |r| == |t| - 1
  {
    t[..j] + t[j + 1..]
  }

  /** Taking one element out of a sequence takes one copy out of its bag. */
  lemma WithoutBag<T>(t: seq<T>, j: nat)
    requires j < |t|
    ensures multiset(t) == multiset(Without(t, j)) + multiset{t[j]}
    ensures multiset(Without(t, j)) == multiset(t) - multiset{t[j]}
  {
    assert t == t[..j] + [t[j]] + t[j + 1..];
  }

  lemma PermutationMembers<T>(s: seq<T>, t: seq<T>)
    requires multiset(s) == multiset(t)
    ensures forall e :: e in s <==> e in t
  {
    forall e ensures e in s <==> e in t {
      assert e in s <==> e in multiset(s);
      assert e in t <==> e in multiset(t);
    }
  }

  lemma PlaceOfLast<T>(s: seq<T>, t: seq<T>) returns (j: nat)
    requires t != [] && multiset(s) == multiset(t)
    ensures j < |s| && s[j] == t[|t| - 1]
    ensures multiset(Without(s, j)) == multiset(t[..|t| - 1])
  {
    var n := |t| - 1;
    assert t[n] in multiset(s);
    j :| 0 <= j < |s| && s[j] == t[n];
    WithoutBag(s, j);
    WithoutBag(t, n);
    assert Without(t, n) == t[..n];
  }

  lemma CountWithout(t: seq<real>, j: nat, x: real)
    requires j < |t|
    ensures CountAtMost(t, x) == CountAtMost(Without(t, j), x) + (if t[j] <= x then 1 else 0)
  {
    assert t == t[..j] + ([t[j]] + t[j + 1..]);
    CountSplit(t[..j], [t[j]] + t[j + 1..], x);
    CountSplit([t[j]], t[j + 1..], x);
    CountSplit(t[..j], t[j + 1..], x);
  }

  lemma {:induction false} CountPermutation(s: seq<real>, t: seq<real>, x: real)
    requires multiset(s) == multiset(t)
    ensures CountAtMost(s, x) == CountAtMost(t, x)
  {
    if s == [] {
      assert |multiset(t)| == |t|;
    } else {
      var n := |s| - 1;
      assert s[n] in multiset(t);
      var j :| 0 <= j < |t| && t[j] == s[n];
      WithoutBag(s, n);
      WithoutBag(t, j);
      CountPermutation(Without(s, n), Without(t, j), x);
      CountWithout(s, n, x);
      CountWithout(t, j, x);
    }
  }

  /** In a sorted sequence, position `k` is at most `x` exactly when more than `k` samples are. */
  lemma {:induction false} SortedRank(t: seq<real>, k: nat, x: real)
    requires Sorted(t) && k < |t|
    ensures t[k] <= x <==> CountAtMost(t, x) > k
  {
    var front := t[..|t| - 1];
    if t[|t| - 1] <= x {
      CountAll(t, x);
    } else if k < |front| {
      SortedRank(front, k, x);
    }
  }

  lemma {:induction false} CountAll(t: seq<real>, x: real)
    requires forall i | 0 <= i < |t| :: t[i] <= x
    ensures CountAtMost(t, x) == |t|
  {
    if t != [] {
      CountAll(t[..|t| - 1], x);
    }
  }

  /** The k-th smallest sample is at most `x` exactly when more than `k` samples are. */
  lemma SortRank(s: seq<real>, k: nat, x: real)
    requires k < |s|
    ensures Sort(s)[k] <= x <==> CountAtMost(s, x) > k
  {
    SortedRank(Sort(s), k, x);
    CountPermutation(Sort(s), s, x);
  }

  /** Every sorting algorithm returns the same sequence: `Sort` is the only sorted permutation. */
  lemma SortUnique(s: seq<real>, t: seq<real>)
    requires Sorted(t) && multiset(t) == multiset(s)
    ensures t == Sort(s)
  {
    assert |multiset(t)| == |t| && |multiset(s)| == |s|;
    forall k: nat | k < |t| ensures t[k] == Sort(s)[k] {
      SortedRank(t, k, t[k]);
      SortedRank(t, k, Sort(s)[k]);
      CountPermutation(t, s, t[k]);
      CountPermutation(t, s, Sort(s)[k]);
      SortRank(s, k, t[k]);
      SortRank(s, k, Sort(s)[k]);
    }
  }

  /** `sort.Float64s`: the array ends up holding the sorted arrangement of its samples. */
  method SortFloats(a: array<real>)
    modifies a
    ensures a[..] == Sort(old(a[..]))
  {
    ghost var samples := a[..];
    SortInPlace(a, AtMost);
    SortUniqueBy(samples, a[..]);
  }

  lemma SortUniqueBy(s: seq<real>, t: seq<real>)
    requires SortedBy(AtMost, t) && multiset(t) == multiset(s)
    ensures t == Sort(s)
  {
    forall i, j | 0 <= i < j < |t| ensures t[i] <= t[j] {
      assert AtMost(t[i], t[j]);
    }
    SortUnique(s, t);
  }

  /** The middle of a sorted bucket: the mean of its two centres, which coincide for odd sizes. */
  function MiddleOf(t: seq<real>): real
    requires t != []
  {
    (t[(|t| - 1) / 2] + t[|t| / 2]) / 2.0
  }

  function Median(s: seq<real>): real
    requires s != []
  {
    MiddleOf(Sort(s))
  }

  /**
   * The median by counting: the mean of two values, the first of which is at most `x` exactly when at
   * least half of the samples are, the second exactly when more than half are.
   */
  lemma MedianByRank(s: seq<real>) returns (a: real, b: real)
    requires s != []
    ensures 2.0 * Median(s) == a + b && a in s && b in s
    ensures forall x :: a <= x <==> 2 * CountAtMost(s, x) >= |s|
    ensures forall x :: b <= x <==> 2 * CountAtMost(s, x) > |s|
  {
    var t := Sort(s);
    a, b := t[(|s| - 1) / 2], t[|s| / 2];
    PermutationMembers(s, t);
    hide Sort, CountAtMost;
    forall x ensures a <= x <==> 2 * CountAtMost(s, x) >= |s| {
      SortRank(s, (|s| - 1) / 2, x);
    }
    forall x ensures b <= x <==> 2 * CountAtMost(s, x) > |s| {
      SortRank(s, |s| / 2, x);
    }
  }

  ghost predicate Below(s: seq<real>, t: seq<real>) {
    |s| == |t| && forall i | 0 <= i < |s| :: s[i] <= t[i]
  }

  lemma {:induction false} CountBelow(s: seq<real>, t: seq<real>, x: real)
    requires Below(s, t)
    ensures CountAtMost(t, x) <= CountAtMost(s, x)
  {
    if s != [] {
      CountBelow(s[..|s| - 1], t[..|t| - 1], x);
    }
  }

  /** Raising samples never lowers the median. */
  lemma MedianMonotone(s: seq<real>, t: seq<real>)
    requires s != [] && Below(s, t)
    ensures Median(s) <= Median(t)
  {
    RankMonotone(s, t, |s| / 2);
    RankMonotone(s, t, (|s| - 1) / 2);
  }

  lemma RankMonotone(s: seq<real>, t: seq<real>, k: nat)
    requires Below(s, t) && k < |s|
    ensures Sort(s)[k] <= Sort(t)[k]
  {
    SortRank(t, k, Sort(t)[k]);
    CountBelow(s, t, Sort(t)[k]);
    SortRank(s, k, Sort(t)[k]);
  }

  function Shift(s: seq<real>, c: real): (r: seq<real>)
    ensures |r| == |s|
  {
    seq(|s|, i requires 0 <= i < |s| => s[i] + c)
  }

  lemma {:induction false} ShiftBag(s: seq<real>, c: real, y: real)
    ensures multiset(Shift(s, c))[y] == multiset(s)[y - c]
  {
    if s != [] {
      var front, last := s[..|s| - 1], s[|s| - 1];
      ShiftBag(front, c, y);
      assert s == front + [last];
      assert Shift(s, c) == Shift(front, c) + [last + c];
      assert multiset(Shift(s, c)) == multiset(Shift(front, c)) + multiset{last + c};
      assert multiset(s) == multiset(front) + multiset{last};
    }
  }

  /** Adding a constant to every sample adds it to the median. */
  lemma MedianShift(s: seq<real>, c: real)
    requires s != []
    ensures Median(Shift(s, c)) == Median(s) + c
  {
    var t := Shift(Sort(s), c);
    forall y ensures multiset(t)[y] == multiset(Shift(s, c))[y] {
      ShiftBag(Sort(s), c, y);
      ShiftBag(s, c, y);
    }
    assert multiset(t) == multiset(Shift(s, c));
    SortUnique(Shift(s, c), t);
    MiddleOfShift(Sort(s), c);
  }

  lemma MiddleOfShift(t: seq<real>, c: real)
    requires t != []
    ensures MiddleOf(Shift(t, c)) == MiddleOf(t) + c
  {}

  /** The negated samples in reverse order, so that a sorted sequence stays sorted. */
  function Mirror(s: seq<real>): (r: seq<real>)
    ensures |r| == |s|
  {
    seq(|s|, i requires 0 <= i < |s| => -s[|s| - 1 - i])
  }

  lemma {:induction false} MirrorBag(s: seq<real>, y: real)
    ensures multiset(Mirror(s))[y] == multiset(s)[-y]
  {
    if s != [] {
      var front, last := s[..|s| - 1], s[|s| - 1];
      MirrorBag(front, y);
      assert s == front + [last];
      assert Mirror(s) == [-last] + Mirror(front);
      assert multiset(Mirror(s)) == multiset{-last} + multiset(Mirror(front));
      assert multiset(s) == multiset(front) + multiset{last};
    }
  }

  lemma MiddleOfMirror(t: seq<real>)
    requires t != []
    ensures MiddleOf(Mirror(t)) == -MiddleOf(t)
  {}

  function Negate(s: seq<real>): (r: seq<real>)
    ensures |r| == |s|
  {
    seq(|s|, i requires 0 <= i < |s| => -s[i])
  }

  lemma {:induction false} NegateBag(s: seq<real>, y: real)
    ensures multiset(Negate(s))[y] == multiset(s)[-y]
  {
    if s != [] {
      var front, last := s[..|s| - 1], s[|s| - 1];
      NegateBag(front, y);
      assert s == front + [last];
      assert Negate(s) == Negate(front) + [-last];
      assert multiset(Negate(s)) == multiset(Negate(front)) + multiset{-last};
      assert multiset(s) == multiset(front) + multiset{last};
    }
  }

  /** Negating every sample negates the median. */
  lemma MedianNegate(s: seq<real>)
    requires s != []
    ensures Median(Negate(s)) == -Median(s)
  {
    var t := Mirror(Sort(s));
    forall y ensures multiset(t)[y] == multiset(Negate(s))[y] {
      MirrorBag(Sort(s), y);
      NegateBag(s, y);
    }
    assert multiset(t) == multiset(Negate(s));
    SortUnique(Negate(s), t);
    MiddleOfMirror(Sort(s));
  }

  lemma {:induction false} CountGood(s: seq<real>, bad: set<int>, x: real)
    requires forall i | 0 <= i < |s| && i !in bad :: s[i] <= x
    ensures CountAtMost(s, x) + |bad| >= |s|
  {
    if s != [] {
      var n := |s| - 1;
      if n in bad {
        CountGood(s[..n], bad - {n}, x);
      } else {
        CountGood(s[..n], bad, x);
      }
    }
  }

  lemma MedianAtMost(s: seq<real>, bad: set<int>, high: real)
    requires s != [] && 2 * |bad| < |s|
    requires forall i | 0 <= i < |s| && i !in bad :: s[i] <= high
    ensures Median(s) <= high
  {
    hide Sort, CountAtMost;
    CountGood(s, bad, high);
    SortRank(s, |s| / 2, high);
    SortRank(s, (|s| - 1) / 2, high);
  }

  /**
   * Outlier rejection: if fewer than half of the samples are corrupted, the median lies
   * between any bounds of the uncorrupted ones, whatever the corrupted values are.
   */
  lemma MedianRejectsOutliers(s: seq<real>, bad: set<int>, low: real, high: real)
    requires s != [] && 2 * |bad| < |s|
    requires forall i | 0 <= i < |s| && i !in bad :: low <= s[i] <= high
    ensures low <= Median(s) <= high
  {
    MedianAtMost(s, bad, high);
    MedianAtMost(Negate(s), bad, -low);
    MedianNegate(s);
  }

  /** On samples that are already in order the median is read off the middle. */
  lemma MedianOfSorted(s: seq<real>)
    requires s != [] && Sorted(s)
    ensures Median(s) == MiddleOf(s)
  {
    SortUnique(s, s);
  }
}
