/** The fixed-window rate limiter (backend/internal/middleware/middleware.go:82-119). */
module RateLimiting {

  /**
   * Instants are nanoseconds since Go's zero time, so an instant of 0 is "never set"; a visitor
   * that is not in the map reads as the zero value.
   */
  datatype Visitor = Visitor(count: int, expiresAt: int)

  const NO_VISITOR := Visitor(0, 0)

  datatype Limits = Limits(limit: int, window: nat)

  datatype State = State(visitors: map<string, Visitor>, lastSweep: int)

  // ----- One call

  function Swept(visitors: map<string, Visitor>, now: int): map<string, Visitor> {
    map k | k in visitors && now <= visitors[k].expiresAt :: visitors[k]
  }

  /** The visitors a call looks at: expired ones are dropped once a window has passed. */
  function AfterSweep(s: State, limits: Limits, now: int): State {
    if now - s.lastSweep > limits.window then State(Swept(s.visitors, now), now) else s
  }

  function Lookup(visitors: map<string, Visitor>, key: string): Visitor {
    if key in visitors then visitors[key] else NO_VISITOR
  }

  /** The window a request falls into: the visitor's own, or a new one starting now. */
  function Current(v: Visitor, limits: Limits, now: int): Visitor {
    if v.expiresAt == 0 || now > v.expiresAt then Visitor(0, now + limits.window) else v
  }

  predicate Allows(v: Visitor, limits: Limits, now: int) {
    Current(v, limits, now).count < limits.limit
  }

  /** A visitor after a request; a refused request leaves it as it was. */
  function Charged(v: Visitor, limits: Limits, now: int): Visitor {
    if Allows(v, limits, now) then
      var current := Current(v, limits, now);
      current.(count := current.count + 1)
    else v
  }

  function Step(s: State, limits: Limits, key: string, now: int): State {
    var swept := AfterSweep(s, limits, now);
    var v := Lookup(swept.visitors, key);
    if Allows(v, limits, now) then swept.(visitors := swept.visitors[key := Charged(v, limits, now)]) else swept
  }

  predicate Decision(s: State, limits: Limits, key: string, now: int) {
    Allows(Lookup(AfterSweep(s, limits, now).visitors, key), limits, now)
  }

  class RateLimiter {
    const limit: int
    const window: nat
    var visitors: map<string, Visitor>
    var lastSweep: int

    function Settings(): Limits {
      Limits(limit, window)
    }

    function Snapshot(): State
      reads this
    {
      State(visitors, lastSweep)
    }

    constructor (limit: int, window: nat, now: int)
      ensures this.limit == limit && this.window == window
      ensures Snapshot() == State(map[], now)
    {
      this.limit := limit;
      this.window := window;
      visitors := map[];
      lastSweep := now;
    }

    /** Deletes every visitor whose window is over. */
    method Sweep(now: int)
      modifies this`visitors
      ensures visitors == Swept(old(visitors), now)
    {
      var pending := visitors.Keys;
      while pending != {}
        invariant pending <= visitors.Keys <= old(visitors).Keys
        invariant forall k | k in visitors :: visitors[k] == old(visitors)[k]
        invariant forall k | k in old(visitors) && k !in pending :: k in visitors <==> now <= old(visitors)[k].expiresAt
        decreases pending
      {
        var k :| k in pending;
        if now > visitors[k].expiresAt {
          visitors := visitors - {k};
        }
        pending := pending - {k};
      }
    }

    method Allow(key: string, now: int) returns (allowed: bool)
      modifies this
      ensures Snapshot() == Step(old(Snapshot()), Settings(), key, now)
      ensures allowed <==> Decision(old(Snapshot()), Settings(), key, now)
    {
      if now - lastSweep > window {
        Sweep(now);
        lastSweep := now;
      }
      var current := if key in visitors then visitors[key] else NO_VISITOR;
      if current.expiresAt == 0 || now > current.expiresAt {
        current := Visitor(0, now + window);
      }
      if current.count >= limit {
        return false;
      }
      current := current.(count := current.count + 1);
      visitors := visitors[key := current];
      return true;
    }
  }

  // ----- Runs

  datatype Request = Request(key: string, now: int)

  /** Time never runs backwards and starts no earlier than the construction of the limiter. */
  ghost predicate Timed(requests: seq<Request>, start: int) {
    && (forall i | 0 <= i < |requests| :: start <= requests[i].now)
    && (forall i, j | 0 <= i < j < |requests| :: requests[i].now <= requests[j].now)
  }

  /** The state of a limiter built at `start` after a run of requests. */
  function Run(requests: seq<Request>, limits: Limits, start: int): State {
    if requests == [] then State(map[], start)
    else
      var last := |requests| - 1;
      Step(Run(requests[..last], limits, start), limits, requests[last].key, requests[last].now)
  }

  /** Whether request `i` of a run is allowed. */
  predicate Allowed(requests: seq<Request>, limits: Limits, start: int, i: nat)
    requires i < |requests|
  {
    Decision(Run(requests[..i], limits, start), limits, requests[i].key, requests[i].now)
  }

  /** The reference: one key, one visitor, no map and no sweeping. */
  function Solo(requests: seq<Request>, limits: Limits, key: string): Visitor {
    if requests == [] then NO_VISITOR
    else
      var last := |requests| - 1;
      var v := Solo(requests[..last], limits, key);
      if requests[last].key == key then Charged(v, limits, requests[last].now) else v
  }

  /** A visitor that a sweep may have removed reads the same from now on. */
  ghost predicate Interchangeable(kept: Visitor, solo: Visitor, now: int) {
    kept == solo || (kept == NO_VISITOR && solo.expiresAt < now)
  }

  function LastTime(requests: seq<Request>, start: int): int {
    if requests == [] then start else requests[|requests| - 1].now
  }

  lemma InterchangeableDecides(kept: Visitor, solo: Visitor, limits: Limits, now: int)
    requires Interchangeable(kept, solo, now)
    ensures Current(kept, limits, now) == Current(solo, limits, now)
  {}

  lemma SweepInterchanges(s: State, limits: Limits, key: string, solo: Visitor, now: int)
    requires Interchangeable(Lookup(s.visitors, key), solo, now)
    ensures Interchangeable(Lookup(AfterSweep(s, limits, now).visitors, key), solo, now)
  {}

  lemma {:induction false} RunMatchesSolo(requests: seq<Request>, limits: Limits, start: int, key: string)
    requires Timed(requests, start)
    ensures Interchangeable(Lookup(Run(requests, limits, start).visitors, key), Solo(requests, limits, key),
                            LastTime(requests, start))
    decreases |requests|
  {
    if requests != [] {
      var last := |requests| - 1;
      var r := requests[last];
      var front := requests[..last];
      RunMatchesSolo(front, limits, start, key);
      assert LastTime(front, start) <= r.now;
      var s := Run(front, limits, start);
      var solo := Solo(front, limits, key);
      SweepInterchanges(s, limits, key, solo, r.now);
      InterchangeableDecides(Lookup(AfterSweep(s, limits, r.now).visitors, key), solo, limits, r.now);
      hide AfterSweep;
    }
  }

  /**
   * Sweeping is invisible and keys do not interfere: every decision of a run is the one a limiter
   * for that key alone, without sweeping, takes on that key's own requests.
   */
  lemma SweepingIsInvisible(requests: seq<Request>, limits: Limits, start: int, i: nat)
    requires Timed(requests, start) && i < |requests|
    ensures Allowed(requests, limits, start, i)
       <==> Allows(Solo(requests[..i], limits, requests[i].key), limits, requests[i].now)
  {
    var front, r := requests[..i], requests[i];
    RunMatchesSolo(front, limits, start, r.key);
    hide Run, Solo;
    assert LastTime(front, start) <= r.now;
    var s := Run(front, limits, start);
    SweepInterchanges(s, limits, r.key, Solo(front, limits, r.key), r.now);
    InterchangeableDecides(Lookup(AfterSweep(s, limits, r.now).visitors, r.key), Solo(front, limits, r.key), limits, r.now);
  }

  /** Requests of one key only. */
  function Only(requests: seq<Request>, key: string): seq<Request> {
    if requests == [] then []
    else
      var last := |requests| - 1;
      Only(requests[..last], key) + (if requests[last].key == key then [requests[last]] else [])
  }

  /** The reference never looks at other keys. */
  lemma {:induction false} SoloIgnoresOthers(requests: seq<Request>, limits: Limits, key: string)
    ensures Solo(requests, limits, key) == Solo(Only(requests, key), limits, key)
    decreases |requests|
  {
    if requests != [] {
      var last := |requests| - 1;
      SoloIgnoresOthers(requests[..last], limits, key);
      if requests[last].key == key {
        assert Only(requests, key)[..|Only(requests, key)| - 1] == Only(requests[..last], key);
      } else {
        assert Only(requests, key) == Only(requests[..last], key);
      }
    }
  }

  // ----- Stale entries

  /** Entries are no older than the last sweep, and the last sweep is at most a window ago. */
  ghost predicate Fresh(s: State, limits: Limits, now: int) {
    && s.lastSweep >= now - limits.window
    && (forall k | k in s.visitors :: s.visitors[k].expiresAt >= s.lastSweep)
  }

  /**
   * A call forgets a visitor exactly when its window is over, more than a window has passed since the
   * last sweep, and it is not let in anew.
   */
  lemma ForgottenIff(s: State, limits: Limits, key: string, now: int, k: string)
    requires k in s.visitors
    ensures k !in Step(s, limits, key, now).visitors <==>
              && now - s.lastSweep > limits.window && now > s.visitors[k].expiresAt
              && !(k == key && Decision(s, limits, key, now))
    ensures Step(s, limits, key, now).lastSweep == if now - s.lastSweep > limits.window then now else s.lastSweep
  {}

  /** After each call every entry kept belongs to a window that started within the last two windows. */
  lemma {:induction false} EntriesAreRecent(requests: seq<Request>, limits: Limits, start: int)
    requires Timed(requests, start)
    ensures Fresh(Run(requests, limits, start), limits, LastTime(requests, start))
    ensures var s := Run(requests, limits, start);
            forall k | k in s.visitors ::
              s.visitors[k].expiresAt - limits.window >= LastTime(requests, start) - 2 * limits.window
    ensures Run(requests, limits, start).lastSweep <= LastTime(requests, start)
    decreases |requests|
  {
    if requests != [] {
      var last := |requests| - 1;
      EntriesAreRecent(requests[..last], limits, start);
      assert LastTime(requests[..last], start) <= requests[last].now;
    }
  }

  // ----- Rate bound

  /** When requests of `key` were allowed in a run. */
  function Grants(requests: seq<Request>, limits: Limits, start: int, key: string): seq<int> {
    if requests == [] then []
    else
      var last := |requests| - 1;
      Grants(requests[..last], limits, start, key)
      + (if requests[last].key == key && Allowed(requests, limits, start, last) then [requests[last].now] else [])
  }

  function CountIn(times: seq<int>, low: int, high: int): nat {
    if times == [] then 0
    else
      var last := |times| - 1;
      CountIn(times[..last], low, high) + (if low <= times[last] <= high then 1 else 0)
  }

  lemma {:induction false} CountInSplit(times: seq<int>, low: int, middle: int, high: int)
    requires low <= middle <= high + 1
    ensures CountIn(times, low, high) == CountIn(times, low, middle - 1) + CountIn(times, middle, high)
  {
    if times != [] {
      CountInSplit(times[..|times| - 1], low, middle, high);
    }
  }

  lemma {:induction false} CountInUpTo(times: seq<int>, low: int, high: int, now: int)
    requires forall i | 0 <= i < |times| :: times[i] <= now
    requires now <= high
    ensures CountIn(times, low, high) == CountIn(times, low, now)
  {
    if times != [] {
      CountInUpTo(times[..|times| - 1], low, high, now);
    }
  }

  lemma {:induction false} CountInEmpty(times: seq<int>, low: int, high: int, now: int)
    requires forall i | 0 <= i < |times| :: times[i] <= now
    requires now < low
    ensures CountIn(times, low, high) == 0
  {
    if times != [] {
      CountInEmpty(times[..|times| - 1], low, high, now);
    }
  }

  lemma CountInAppend(times: seq<int>, t: int, low: int, high: int)
    ensures CountIn(times + [t], low, high) == CountIn(times, low, high) + (if low <= t <= high then 1 else 0)
  {
    assert (times + [t])[..|times|] == times;
  }

  function WindowStart(v: Visitor, limits: Limits): int {
    v.expiresAt - limits.window
  }

  /** The current window holds `count` grants, one of them at its very start. */
  ghost predicate WindowFilled(times: seq<int>, v: Visitor, limits: Limits, now: int) {
    var since := WindowStart(v, limits);
    && v.expiresAt > 0 && since <= now
    && 1 <= v.count <= limits.limit
    && CountIn(times, since, now) == v.count
    && CountIn(times, since, since) >= 1
  }

  /** Grants from `t` up to just before `since`. */
  function Before(times: seq<int>, t: int, since: int): nat {
    CountIn(times, t, since - 1)
  }

  /** Grants in the closed interval of one window length that starts at `low`. */
  function InSpan(times: seq<int>, low: int, limits: Limits): nat {
    CountIn(times, low, low + limits.window)
  }

  /** Before the current window, but less than a window length ago: fewer grants than the limit. */
  ghost predicate SparseBefore(times: seq<int>, since: int, limits: Limits) {
    forall t | since - limits.window <= t <= since :: Before(times, t, since) <= limits.limit - 1
  }

  /** The most grants that fit into a closed interval of one window length; without length it is an instant. */
  function Most(limits: Limits): int {
    if limits.limit < 1 then 0 else if limits.window == 0 then limits.limit else 2 * limits.limit - 1
  }

  ghost predicate Bounded(times: seq<int>, limits: Limits) {
    forall low: int :: InSpan(times, low, limits) <= Most(limits)
  }

  /** What holds of a visitor and the grants given so far. */
  ghost predicate Accounted(times: seq<int>, v: Visitor, limits: Limits, now: int) {
    && (forall i | 0 <= i < |times| :: times[i] <= now)
    && (times == [] ==> v == NO_VISITOR)
    && (times != [] ==>
          && (forall i | 0 <= i < |times| :: times[i] <= v.expiresAt)
          && WindowFilled(times, v, limits, now)
          && SparseBefore(times, WindowStart(v, limits), limits)
          && Bounded(times, limits))
  }

  lemma AccountedLater(times: seq<int>, v: Visitor, limits: Limits, now: int, later: int)
    requires Accounted(times, v, limits, now) && now <= later
    ensures Accounted(times, v, limits, later)
  {
    hide CountIn;
    if times != [] {
      CountInUpTo(times, WindowStart(v, limits), later, now);
    }
  }

  lemma OpenWindow(times: seq<int>, v: Visitor, limits: Limits, now: int)
    requires Accounted(times, v, limits, now) && limits.limit >= 1
    requires times == [] || now > v.expiresAt
    ensures SparseBefore(times, now, limits)
    ensures times != [] ==> CountIn(times, now, now) == 0
  {
    if times != [] {
      var since := WindowStart(v, limits);
      CountInEmpty(times, now, now, v.expiresAt);
      CountInSplit(times, since, since + 1, now);
      hide CountIn;
      forall t | now - limits.window <= t <= now ensures Before(times, t, now) <= limits.limit - 1 {
        CountInSplit(times, since + 1, t, now);
        CountInSplit(times, t, now, now);
      }
    }
  }

  /** The account of the window a request falls into, just before it is granted. */
  ghost predicate Ready(times: seq<int>, limits: Limits, since: int, count: int, now: int) {
    && (forall i | 0 <= i < |times| :: times[i] <= now)
    && since <= now <= since + limits.window
    && 0 <= count < limits.limit
    && CountIn(times, since, now) == count
    && (count == 0 ==> since == now)
    && (count > 0 ==> CountIn(times, since, since) >= 1)
    && SparseBefore(times, since, limits)
    && (times != [] ==> Bounded(times, limits))
  }

  lemma ReadyToGrant(times: seq<int>, v: Visitor, limits: Limits, now: int)
    requires Accounted(times, v, limits, now) && now > 0 && Allows(v, limits, now)
    ensures var current := Current(v, limits, now);
            Ready(times, limits, WindowStart(current, limits), current.count, now)
  {
    if times == [] || now > v.expiresAt {
      OpenWindow(times, v, limits, now);
    }
  }

  lemma GrantedWithin(times: seq<int>, limits: Limits, since: int, count: int, now: int, low: int)
    requires Ready(times, limits, since, count, now)
    ensures InSpan(times + [now], low, limits) <= Most(limits)
  {
    var high := low + limits.window;
    CountInAppend(times, now, low, high);
    if low <= now <= high {
      CountInUpTo(times, low, high, now);
      hide CountIn;
      if low <= since {
        assert Before(times, low, since) <= limits.limit - 1;
        CountInSplit(times, low, since, now);
      } else {
        CountInSplit(times, since, low, now);
      }
    } else if times == [] {
      assert CountIn(times, low, high) == 0;
    } else {
      assert InSpan(times, low, limits) <= Most(limits);
    }
  }

  lemma GrantKeepsAccount(times: seq<int>, limits: Limits, since: int, count: int, now: int)
    requires Ready(times, limits, since, count, now) && now > 0
    ensures Accounted(times + [now], Visitor(count + 1, since + limits.window), limits, now)
  {
    hide CountIn;
    var granted := times + [now];
    CountInAppend(times, now, since, now);
    CountInAppend(times, now, since, since);
    forall t | since - limits.window <= t <= since ensures Before(granted, t, since) <= limits.limit - 1 {
      assert Before(times, t, since) <= limits.limit - 1;
      CountInAppend(times, now, t, since - 1);
    }
    forall low: int ensures InSpan(granted, low, limits) <= Most(limits) {
      GrantedWithin(times, limits, since, count, now, low);
    }
    forall i | 0 <= i < |granted| ensures granted[i] <= now {}
  }

  /** A granted request keeps the account of its key in order. */
  lemma Grant(times: seq<int>, v: Visitor, limits: Limits, now: int)
    requires Accounted(times, v, limits, now) && now > 0 && Allows(v, limits, now)
    ensures Accounted(times + [now], Charged(v, limits, now), limits, now)
  {
    hide CountIn, Accounted, Ready;
    ReadyToGrant(times, v, limits, now);
    var current := Current(v, limits, now);
    GrantKeepsAccount(times, limits, WindowStart(current, limits), current.count, now);
  }

  lemma {:induction false} GrantsAccounted(requests: seq<Request>, limits: Limits, start: int, key: string)
    requires Timed(requests, start) && start > 0
    ensures Accounted(Grants(requests, limits, start, key), Solo(requests, limits, key), limits, LastTime(requests, start))
    decreases |requests|
  {
    if requests != [] {
      hide CountIn, Accounted, Charged, Allows;
      var last := |requests| - 1;
      var front, r := requests[..last], requests[last];
      GrantsAccounted(front, limits, start, key);
      var times, v := Grants(front, limits, start, key), Solo(front, limits, key);
      assert LastTime(front, start) <= r.now;
      AccountedLater(times, v, limits, LastTime(front, start), r.now);
      SweepingIsInvisible(requests, limits, start, last);
      hide Allowed;
      if r.key == key {
        if Allows(v, limits, r.now) {
          Grant(times, v, limits, r.now);
        } else {
          RefusedUnchanged(v, limits, r.now);
          assert Grants(requests, limits, start, key) == times;
        }
      } else {
        assert Grants(requests, limits, start, key) == times;
      }
    }
  }

  lemma RefusedUnchanged(v: Visitor, limits: Limits, now: int)
    requires !Allows(v, limits, now)
    ensures Charged(v, limits, now) == v
  {}

  /**
   * Rate bound: over any run, whatever the other keys do, no closed interval of one window length
   * holds more than twice the limit less one grants for a key, no instant more than the limit when
   * windows have no length; with a limit below one there are none.
   */
  lemma RateBound(requests: seq<Request>, limits: Limits, start: int, key: string, low: int)
    requires Timed(requests, start) && start > 0
    ensures InSpan(Grants(requests, limits, start, key), low, limits) <= Most(limits)
  {
    hide Grants, Solo;
    GrantsAccounted(requests, limits, start, key);
  }

  /** At most `limit` grants since the current window of a key was opened. */
  lemma WindowBound(requests: seq<Request>, limits: Limits, start: int, key: string)
    requires Timed(requests, start) && start > 0
    requires Grants(requests, limits, start, key) != []
    ensures var v := Solo(requests, limits, key);
            CountIn(Grants(requests, limits, start, key), WindowStart(v, limits), LastTime(requests, start)) == v.count <= limits.limit
  {
    hide Grants, Solo, CountIn;
    GrantsAccounted(requests, limits, start, key);
  }

  /** Successive windows of a key are opened more than a window length apart. */
  lemma {:induction false} WindowsApart(requests: seq<Request>, limits: Limits, key: string, i: nat, j: nat)
    requires Timed(requests, 1) && i <= j <= |requests|
    requires Solo(requests[..i], limits, key) != NO_VISITOR
    ensures var before := Solo(requests[..i], limits, key);
            var after := Solo(requests[..j], limits, key);
            || after.expiresAt == before.expiresAt
            || WindowStart(after, limits) - WindowStart(before, limits) > limits.window
    ensures Solo(requests[..j], limits, key).expiresAt > 0
  {
    if i == j {
      SoloStarted(requests[..i], limits, key);
    } else {
      WindowsApart(requests, limits, key, i, j - 1);
      assert requests[..j][..j - 1] == requests[..j - 1];
    }
  }

  lemma {:induction false} SoloStarted(requests: seq<Request>, limits: Limits, key: string)
    requires Timed(requests, 1)
    ensures Solo(requests, limits, key) == NO_VISITOR || Solo(requests, limits, key).expiresAt > 0
    decreases |requests|
  {
    if requests != [] {
      SoloStarted(requests[..|requests| - 1], limits, key);
    }
  }

  // ----- The bound is reached

  function Burst(key: string, now: int, n: nat): seq<Request> {
    seq(n, i => Request(key, now))
  }

  lemma GrantStep(front: seq<Request>, r: Request, limits: Limits, start: int)
    requires Timed(front + [r], start) && Allows(Solo(front, limits, r.key), limits, r.now)
    ensures Solo(front + [r], limits, r.key) == Charged(Solo(front, limits, r.key), limits, r.now)
    ensures Grants(front + [r], limits, start, r.key) == Grants(front, limits, start, r.key) + [r.now]
  {
    var all := front + [r];
    assert all[..|all| - 1] == front && all[|front|] == r;
    SweepingIsInvisible(all, limits, start, |front|);
    hide Allows, Charged, Allowed;
  }

  lemma {:induction false} BurstGranted(requests: seq<Request>, limits: Limits, start: int, key: string, now: int, n: nat)
    requires Timed(requests + Burst(key, now, n), start)
    requires var v := Solo(requests, limits, key);
             v.expiresAt > 0 && now <= v.expiresAt && v.count + n <= limits.limit
    ensures var all := requests + Burst(key, now, n);
            && Solo(all, limits, key) == Solo(requests, limits, key).(count := Solo(requests, limits, key).count + n)
            && Grants(all, limits, start, key) == Grants(requests, limits, start, key) + Repeated(now, n)
  {
    hide Solo, Grants;
    var all := requests + Burst(key, now, n);
    if n == 0 {
      assert all == requests;
    } else {
      var shorter := requests + Burst(key, now, n - 1);
      assert all == shorter + [Request(key, now)];
      assert all[..|all| - 1] == shorter;
      TimedFront(all, start);
      BurstGranted(requests, limits, start, key, now, n - 1);
      GrantStep(shorter, Request(key, now), limits, start);
      assert Repeated(now, n) == Repeated(now, n - 1) + [now];
    }
  }

  function Repeated(t: int, n: nat): seq<int> {
    seq(n, i => t)
  }

  lemma TimedFront(requests: seq<Request>, start: int)
    requires Timed(requests, start) && requests != []
    ensures Timed(requests[..|requests| - 1], start)
  {}

  lemma {:induction false} CountRepeated(times: seq<int>, t: int, n: nat, low: int, high: int)
    ensures CountIn(times + Repeated(t, n), low, high) == CountIn(times, low, high) + (if low <= t <= high then n else 0)
  {
    if n == 0 {
      assert times + Repeated(t, n) == times;
    } else {
      CountRepeated(times, t, n - 1, low, high);
      assert times + Repeated(t, n) == times + Repeated(t, n - 1) + [t];
      CountInAppend(times + Repeated(t, n - 1), t, low, high);
    }
  }

  /**
   * The requests of a caller who opens a window, waits until it is about to close, uses up the
   * limit, and starts over as soon as it has closed.
   */
  function Straddle(limits: Limits, key: string, start: int): seq<Request>
    requires limits.limit >= 1
  {
    var close := start + limits.window;
    LateFill(limits, key, start) + [Request(key, close + 1)] + Burst(key, close + 1, limits.limit - 1)
  }

  /** A window opened at `start` and filled at the instant it closes. */
  function LateFill(limits: Limits, key: string, start: int): seq<Request>
    requires limits.limit >= 1
  {
    [Request(key, start)] + Burst(key, start + limits.window, limits.limit - 1)
  }

  lemma NoRequests(limits: Limits, key: string, start: int)
    ensures Solo([], limits, key) == NO_VISITOR && Grants([], limits, start, key) == []
  {}

  lemma OpeningRequest(limits: Limits, key: string, start: int)
    requires limits.limit >= 1 && start > 0
    ensures var first := [Request(key, start)];
            && Solo(first, limits, key) == Visitor(1, start + limits.window)
            && Grants(first, limits, start, key) == [start]
  {
    hide Solo, Grants;
    NoRequests(limits, key, start);
    var first := [Request(key, start)];
    assert [] + first == first && [] + [start] == [start];
    GrantStep([], first[0], limits, start);
  }

  lemma FirstWindow(limits: Limits, key: string, start: int)
    requires limits.limit >= 1 && start > 0
    requires Timed(LateFill(limits, key, start), start)
    ensures var requests := LateFill(limits, key, start);
            && Solo(requests, limits, key) == Visitor(limits.limit, start + limits.window)
            && Grants(requests, limits, start, key) == [start] + Repeated(start + limits.window, limits.limit - 1)
  {
    hide Solo, Grants, Burst, Repeated, Timed;
    OpeningRequest(limits, key, start);
    BurstGranted([Request(key, start)], limits, start, key, start + limits.window, limits.limit - 1);
  }

  /** A window that opens at `now`, after the one of `front` is over, filled at once. */
  lemma NextWindow(front: seq<Request>, limits: Limits, key: string, start: int, now: int, n: nat)
    requires limits.limit == n + 1 && now > 0 && now > Solo(front, limits, key).expiresAt
    requires Timed(front + [Request(key, now)] + Burst(key, now, n), start)
    ensures Grants(front + [Request(key, now)] + Burst(key, now, n), limits, start, key)
         == Grants(front, limits, start, key) + [now] + Repeated(now, n)
  {
    var first := front + [Request(key, now)];
    TimedPrefix(first, Burst(key, now, n), start);
    hide Solo, Grants, Burst, Repeated, Timed;
    GrantStep(front, Request(key, now), limits, start);
    BurstGranted(first, limits, start, key, now, n);
  }

  lemma StraddleGrants(limits: Limits, key: string, start: int)
    requires limits.limit >= 1 && limits.window >= 1 && start > 0
    requires Timed(Straddle(limits, key, start), start)
    ensures var close := start + limits.window;
            Grants(Straddle(limits, key, start), limits, start, key)
            == [start] + Repeated(close, limits.limit - 1) + [close + 1] + Repeated(close + 1, limits.limit - 1)
  {
    hide Solo, Grants, Burst, Repeated, Timed, LateFill;
    StraddleTimed(limits, key, start);
    FirstWindow(limits, key, start);
    NextWindow(LateFill(limits, key, start), limits, key, start, start + limits.window + 1, limits.limit - 1);
  }

  lemma StraddleTimed(limits: Limits, key: string, start: int)
    requires limits.limit >= 1 && Timed(Straddle(limits, key, start), start)
    ensures Timed(LateFill(limits, key, start), start)
  {
    hide Timed, LateFill, Burst;
    var next := Request(key, start + limits.window + 1);
    TimedPrefix(LateFill(limits, key, start) + [next], Burst(key, next.now, limits.limit - 1), start);
    TimedPrefix(LateFill(limits, key, start), [next], start);
  }

  lemma TimedPrefix(front: seq<Request>, back: seq<Request>, start: int)
    requires Timed(front + back, start)
    ensures Timed(front, start)
  {
    assert forall i | 0 <= i < |front| :: front[i] == (front + back)[i];
  }

  lemma CountStraddle(start: int, close: int, n: nat, window: nat)
    requires start < close && window >= 1
    ensures CountIn([start] + Repeated(close, n) + [close + 1] + Repeated(close + 1, n), close, close + window) == 2 * n + 1
  {
    var high := close + window;
    CountInEmpty([start], close, high, start);
    CountRepeated([start], close, n, close, high);
    hide CountIn, Repeated;
    var first := [start] + Repeated(close, n);
    CountInAppend(first, close + 1, close, high);
    CountRepeated(first + [close + 1], close + 1, n, close, high);
  }

  /** The requests of a caller who gets as much as possible. */
  function Greediest(limits: Limits, key: string, start: int): seq<Request>
    requires limits.limit >= 1
  {
    if limits.window == 0 then LateFill(limits, key, start) else Straddle(limits, key, start)
  }

  /** No smaller bound holds, whatever the limit and the window length. */
  lemma RateBoundIsReached(limits: Limits, key: string, start: int)
    requires limits.limit >= 1 && start > 0
    ensures var requests := Greediest(limits, key, start);
            && Timed(requests, start)
            && InSpan(Grants(requests, limits, start, key), start + limits.window, limits) == Most(limits)
  {
    hide Grants, CountIn;
    if limits.window == 0 {
      FirstWindow(limits, key, start);
      InstantCount(start, limits.limit - 1);
    } else {
      StraddleGrants(limits, key, start);
      CountStraddle(start, start + limits.window, limits.limit - 1, limits.window);
    }
  }

  lemma InstantCount(t: int, n: nat)
    ensures CountIn([t] + Repeated(t, n), t, t) == n + 1
  {
    CountRepeated([t], t, n, t, t);
    assert [t][..0] == [];
  }
}
