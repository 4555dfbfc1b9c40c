/** How often the refresh lock lets a background refresh start.

A stale read of a stored version spawns a task whose first action is to try the lock.
Nothing ever releases the lock, so a refresh that fails keeps it until it expires.
 */
module RefreshLock {
  import opened Expiring
  import opened ResponseCache
  import opened CacheCoherence

  /** How long an acquired lock is held. */
  function HoldMs(policy: Policy): nat {
    1000 * policy.LockSecs()
  }

  function LifeMs(policy: Policy): nat {
    1000 * policy.TtlSecs()
  }

  /** Step `i` is a lock attempt for `key` that succeeds. */
  ghost predicate Acquires(cat: Catalog, origin: map<string, string>, steps: seq<Step>, i: nat, key: string)
    requires i < |steps|
  {
    steps[i].event == TryRefresh(key) && LockFree(Run(cat, origin, steps[..i]).store, key, steps[i].at)
  }

  /** The lock of a key is the one taken by its latest acquisition. */
  ghost predicate LockReflects(cat: Catalog, origin: map<string, string>, steps: seq<Step>, key: string) {
    var locks, hold := Run(cat, origin, steps).store.locks, HoldMs(cat.policyOf(key));
    && (forall i :: 0 <= i < |steps| && Acquires(cat, origin, steps, i, key) ==>
          key in locks && steps[i].at + hold <= locks[key].expiry)
    && (key in locks ==>
          exists i :: 0 <= i < |steps| && Acquires(cat, origin, steps, i, key) && locks[key].expiry == steps[i].at + hold)
  }

  lemma AcquiresInPrefix(cat: Catalog, origin: map<string, string>, steps: seq<Step>, n: nat, i: nat, key: string)
    requires i < n <= |steps|
    ensures Acquires(cat, origin, steps[..n], i, key) == Acquires(cat, origin, steps, i, key)
  {
    assert steps[..n][..i] == steps[..i];
  }

  /** Only a successful attempt touches the lock of a key. */
  lemma LockStep(cat: Catalog, origin: map<string, string>, steps: seq<Step>, key: string)
    requires steps != []
    ensures var n := |steps| - 1;
            var before, after := Run(cat, origin, steps[..n]).store.locks, Run(cat, origin, steps).store.locks;
            if Acquires(cat, origin, steps, n, key)
            then key in after && after[key].expiry == steps[n].at + HoldMs(cat.policyOf(key))
            else (key in after <==> key in before) && (key in before ==> after[key] == before[key])
  {
    var n := |steps| - 1;
    if steps[n].event.Write? {
      DropTagsEffect(Run(cat, origin, steps[..n]).store, steps[n].event.tags, steps[n].at);
    }
  }

  lemma StepReflectsLock(cat: Catalog, origin: map<string, string>, steps: seq<Step>, key: string)
    requires steps != [] && Chronological(steps) && LockReflects(cat, origin, steps[..|steps| - 1], key)
    ensures LockReflects(cat, origin, steps, key)
  {
    var n := |steps| - 1;
    var init := steps[..n];
    LockStep(cat, origin, steps, key);
    var locks, hold := Run(cat, origin, init).store.locks, HoldMs(cat.policyOf(key));
    var locks' := Run(cat, origin, steps).store.locks;
    forall i | 0 <= i < |steps| && Acquires(cat, origin, steps, i, key)
      ensures key in locks' && steps[i].at + hold <= locks'[key].expiry
    {
      if i < n {
        AcquiresInPrefix(cat, origin, steps, n, i, key);
        assert steps[i].at <= steps[n].at;
      }
    }
    if key in locks && !Acquires(cat, origin, steps, n, key) {
      var i :| 0 <= i < n && Acquires(cat, origin, init, i, key) && locks[key].expiry == init[i].at + hold;
      AcquiresInPrefix(cat, origin, steps, n, i, key);
    }
  }

  lemma {:induction false} RunReflectsLock(cat: Catalog, origin: map<string, string>, steps: seq<Step>, key: string)
    requires Chronological(steps)
    ensures LockReflects(cat, origin, steps, key)
  {
    if steps != [] {
      RunReflectsLock(cat, origin, steps[..|steps| - 1], key);
      StepReflectsLock(cat, origin, steps, key);
    }
  }

  /** An attempt succeeds exactly when every earlier acquisition of that key has run out. */
  lemma AcquiresIffHoldsRanOut(cat: Catalog, origin: map<string, string>, steps: seq<Step>, j: nat, key: string)
    requires Chronological(steps) && j < |steps| && steps[j].event == TryRefresh(key)
    ensures Acquires(cat, origin, steps, j, key) <==>
            forall i :: 0 <= i < j && Acquires(cat, origin, steps, i, key) ==>
              steps[i].at + HoldMs(cat.policyOf(key)) <= steps[j].at
  {
    var init := steps[..j];
    RunReflectsLock(cat, origin, init, key);
    forall i | 0 <= i < j
      ensures Acquires(cat, origin, init, i, key) == Acquires(cat, origin, steps, i, key)
    {
      AcquiresInPrefix(cat, origin, steps, j, i, key);
    }
    var locks := Run(cat, origin, init).store.locks;
    if key in locks && steps[j].at < locks[key].expiry {
      var i :| 0 <= i < |init| && Acquires(cat, origin, init, i, key) &&
        locks[key].expiry == init[i].at + HoldMs(cat.policyOf(key));
      assert Acquires(cat, origin, steps, i, key);
    }
  }

  // --- versions ---

  /** A read at `r` of the version stored at `stored` finds it alive, and old enough in
      truncated seconds to be stale. */
  predicate StaleRead(policy: Policy, stored: int, r: int) {
    stored <= r < stored + LifeMs(policy) && policy.freshFor <= (Stamp(r) - Stamp(stored)) * NANOS
  }

  /** Step `f` stored the version of `key` that is the latest before step `i`. */
  predicate LatestFill(steps: seq<Step>, f: nat, i: nat, key: string)
    requires i <= |steps|
  {
    && f < i && steps[f].event.Fill? && steps[f].event.key == key
    && forall j :: f < j < i && steps[j].event.Fill? ==> steps[j].event.key != key
  }

  /** What the store can hold for the key while that version is the latest one. */
  predicate HoldsVersion(cat: Catalog, st: Store, fill: Step)
    requires fill.event.Fill?
  {
    fill.event.key in st.entries ==>
      st.entries[fill.event.key] ==
      Slot(Envelope(Stamp(fill.at), fill.event.sample), fill.at + LifeMs(cat.policyOf(fill.event.key)))
  }

  lemma VersionStep(cat: Catalog, w: World, s: Step, fill: Step)
    requires fill.event.Fill? && HoldsVersion(cat, w.store, fill)
    requires s.event.Fill? ==> s.event.key != fill.event.key
    ensures HoldsVersion(cat, Apply(cat, w, s).store, fill)
  {
    if s.event.Write? {
      DropTagsEffect(w.store, s.event.tags, s.at);
    }
  }

  lemma {:induction false} VersionIsLatestFill(cat: Catalog, origin: map<string, string>, steps: seq<Step>,
                                               f: nat, i: nat, key: string)
    requires i <= |steps| && LatestFill(steps, f, i, key)
    ensures HoldsVersion(cat, Run(cat, origin, steps[..i]).store, steps[f])
  {
    assert steps[..i][..i - 1] == steps[..i - 1];
    if f < i - 1 {
      VersionIsLatestFill(cat, origin, steps, f, i - 1, key);
      VersionStep(cat, Run(cat, origin, steps[..i - 1]), steps[i - 1], steps[f]);
    }
  }

  /** A stale hit is a stale read of the latest fill, if that is still stored. */
  lemma StaleHitIsStaleRead(cat: Catalog, origin: map<string, string>, steps: seq<Step>, f: nat, i: nat, key: string, r: int)
    requires i <= |steps| && LatestFill(steps, f, i, key) && steps[f].at <= r
    ensures var st := Run(cat, origin, steps[..i]).store;
            key in st.entries ==>
              (Lookup(st, key, cat.policyOf(key), r) == Hit(steps[f].event.sample, Stale) <==>
               StaleRead(cat.policyOf(key), steps[f].at, r))
  {
    VersionIsLatestFill(cat, origin, steps, f, i, key);
  }

  /** A version stamped in the future, as after the clock was set back, counts as new. */
  lemma FutureStampIsNew(policy: Policy, storedAt: int, now: int)
    requires Stamp(now) <= storedAt
    ensures policy.FreshAt(storedAt, now) <==> policy.freshFor > 0
  {
  }

  // --- how long a lock protects a version ---

  lemma DivMonotone(a: nat, b: nat)
    requires a <= b
    ensures a / NANOS <= b / NANOS
  {
  }

  /** The least age, in whole seconds, at which a version is stale. */
  function StaleAge(policy: Policy): nat {
    (policy.freshFor + NANOS - 1) / NANOS
  }

  lemma StaleFromAge(policy: Policy, age: nat)
    ensures policy.freshFor <= age * NANOS <==> StaleAge(policy) <= age
  {
  }

  /** The lifetime is at most the stale age plus the hold. */
  lemma LifeWithinHold(policy: Policy)
    ensures policy.TtlSecs() <= StaleAge(policy) + policy.LockSecs()
  {
    DivMonotone(policy.freshFor + policy.staleFor, StaleAge(policy) * NANOS + policy.staleFor);
    assert (StaleAge(policy) * NANOS + policy.staleFor) / NANOS == StaleAge(policy) + policy.staleFor / NANOS;
  }

  /** A lock taken for a stale version outlives all but the last second of that version. */
  lemma HoldOutlivesVersion(policy: Policy, stored: int, r: int)
    requires StaleRead(policy, stored, r)
    ensures r + HoldMs(policy) > stored + LifeMs(policy) - 1000
  {
    StaleFromAge(policy, Stamp(r) - Stamp(stored));
    LifeWithinHold(policy);
  }

  /** Of the refreshes spawned by stale reads of one version, whenever their attempts are
      made and whether or not they succeed, a second one can start only in the last second
      of that version or after it. */
  lemma SecondRefreshComesLate(cat: Catalog, origin: map<string, string>, steps: seq<Step>, key: string,
                               stored: int, i: nat, readAt: int, j: nat)
    requires Chronological(steps) && i < j < |steps|
    requires StaleRead(cat.policyOf(key), stored, readAt) && readAt <= steps[i].at
    requires Acquires(cat, origin, steps, i, key) && Acquires(cat, origin, steps, j, key)
    ensures steps[j].at > stored + LifeMs(cat.policyOf(key)) - 1000
  {
    AcquiresIffHoldsRanOut(cat, origin, steps, j, key);
    HoldOutlivesVersion(cat.policyOf(key), stored, readAt);
  }

  // --- exactly when one version is refreshed once ---

  /** Step `i` is a stale read of the version that step `f` stored, and its lock attempt,
      made at once, starts a refresh. */
  ghost predicate Refreshes(cat: Catalog, origin: map<string, string>, steps: seq<Step>, f: nat, i: nat, key: string) {
    && i < |steps| && LatestFill(steps, f, i, key)
    && Acquires(cat, origin, steps, i, key)
    && var hit := Lookup(Run(cat, origin, steps[..i]).store, key, cat.policyOf(key), steps[i].at);
       hit.Hit? && hit.status.Stale?
  }

  /** In every run, each version of the key starts at most one refresh. */
  ghost predicate OneRefreshPerVersion(cat: Catalog, key: string) {
    forall origin, steps: seq<Step>, f: nat, i: nat, j: nat ::
      Chronological(steps) && Refreshes(cat, origin, steps, f, i, key) && Refreshes(cat, origin, steps, f, j, key) ==> i == j
  }

  /** The version can turn stale and still have the whole hold before it. */
  predicate RoomForSecond(policy: Policy) {
    policy.freshFor >= 1 && StaleAge(policy) + policy.LockSecs() <= policy.TtlSecs()
  }

  lemma SecondNeedsRoom(policy: Policy, stored: int, r: int, r': int)
    requires StaleRead(policy, stored, r) && StaleRead(policy, stored, r') && r + HoldMs(policy) <= r'
    ensures RoomForSecond(policy)
  {
    StaleFromAge(policy, Stamp(r) - Stamp(stored));
  }

  lemma NoRoomNoSecond(cat: Catalog, origin: map<string, string>, steps: seq<Step>, f: nat, i: nat, j: nat, key: string)
    requires Chronological(steps) && i < j
    requires Refreshes(cat, origin, steps, f, i, key) && Refreshes(cat, origin, steps, f, j, key)
    ensures RoomForSecond(cat.policyOf(key))
  {
    StaleHitIsStaleRead(cat, origin, steps, f, i, key, steps[i].at);
    StaleHitIsStaleRead(cat, origin, steps, f, j, key, steps[j].at);
    VersionIsLatestFill(cat, origin, steps, f, i, key);
    VersionIsLatestFill(cat, origin, steps, f, j, key);
    AcquiresIffHoldsRanOut(cat, origin, steps, j, key);
    SecondNeedsRoom(cat.policyOf(key), steps[f].at, steps[i].at, steps[j].at);
  }

  /** A version stored at the end of a second, read stale at the start of one, and read
      again when the lock has run out. */
  function TwoRefreshes(policy: Policy, key: string): seq<Step> {
    var r := 1000 * StaleAge(policy);
    [Step(999, Fill(key, "v")), Step(r, TryRefresh(key)), Step(r + HoldMs(policy), TryRefresh(key))]
  }

  lemma RoomGivesSecond(cat: Catalog, origin: map<string, string>, key: string)
    requires RoomForSecond(cat.policyOf(key))
    ensures var steps := TwoRefreshes(cat.policyOf(key), key);
            && Chronological(steps)
            && Refreshes(cat, origin, steps, 0, 1, key) && Refreshes(cat, origin, steps, 0, 2, key)
  {
    var policy := cat.policyOf(key);
    var steps := TwoRefreshes(policy, key);
    StaleFromAge(policy, StaleAge(policy));
    StaleFromAge(policy, StaleAge(policy) + policy.LockSecs());
    StartedRun(cat, origin, key, 999, steps[1].at, steps[2].at);
  }

  /** The store after a fill and a first attempt, and the three steps' acquisitions. */
  lemma StartedRun(cat: Catalog, origin: map<string, string>, key: string, stored: int, r: int, r': int)
    requires stored <= r && r + HoldMs(cat.policyOf(key)) <= r'
    ensures var steps := [Step(stored, Fill(key, "v")), Step(r, TryRefresh(key)), Step(r', TryRefresh(key))];
            && Chronological(steps) && LatestFill(steps, 0, 1, key) && LatestFill(steps, 0, 2, key)
            && Acquires(cat, origin, steps, 1, key) && Acquires(cat, origin, steps, 2, key)
            && key in Run(cat, origin, steps[..1]).store.entries && key in Run(cat, origin, steps[..2]).store.entries
  {
    var steps := [Step(stored, Fill(key, "v")), Step(r, TryRefresh(key)), Step(r', TryRefresh(key))];
    assert steps[..1][..0] == [] && steps[..2][..1] == steps[..1];
    assert Run(cat, origin, []) == World(EMPTY, origin);
    assert Run(cat, origin, steps[..1]) == Apply(cat, Run(cat, origin, []), steps[0]);
  }

  /** One refresh per version, as documented, holds in every run exactly for the policies
      without room for a second one. */
  lemma OneRefreshIffNoRoom(cat: Catalog, key: string)
    ensures OneRefreshPerVersion(cat, key) <==> !RoomForSecond(cat.policyOf(key))
  {
    if RoomForSecond(cat.policyOf(key)) {
      RoomGivesSecond(cat, map[], key);
    } else {
      forall origin, steps: seq<Step>, f: nat, i: nat, j: nat |
        Chronological(steps) && Refreshes(cat, origin, steps, f, i, key) && Refreshes(cat, origin, steps, f, j, key)
        ensures i == j
      {
        if i < j {
          NoRoomNoSecond(cat, origin, steps, f, i, j, key);
        } else if j < i {
          NoRoomNoSecond(cat, origin, steps, f, j, i, key);
        }
      }
    }
  }

  /** In terms of the two durations: there is room exactly when the fresh time is not zero,
      the stale time is at least a second, and its fraction of a second covers what the
      fresh time lacks to a whole one. All shipped policies have it. */
  lemma RoomForSecondIff(policy: Policy)
    ensures RoomForSecond(policy) <==>
            && policy.freshFor >= 1 && policy.staleFor >= NANOS
            && StaleAge(policy) * NANOS - policy.freshFor <= policy.staleFor % NANOS
    ensures policy in {LEADERBOARD, PLAYER_STATS, TOURNAMENT_LIST, ACHIEVEMENT_CATALOG} ==> RoomForSecond(policy)
  {
  }

  // --- leftover locks and delayed attempts ---

  /** A lock left over from before version `f` was stored runs out no later than that
      version, and from then on the first attempt succeeds. */
  lemma LeftoverLockRunsOut(cat: Catalog, origin: map<string, string>, steps: seq<Step>, key: string, f: nat, j: nat)
    requires Chronological(steps) && f < j < |steps|
    requires steps[f].event.Fill? && steps[f].event.key == key && steps[j].event == TryRefresh(key)
    requires steps[j].at >= steps[f].at + HoldMs(cat.policyOf(key))
    requires forall i :: f < i < j ==> !Acquires(cat, origin, steps, i, key)
    ensures Acquires(cat, origin, steps, j, key)
    ensures HoldMs(cat.policyOf(key)) <= LifeMs(cat.policyOf(key))
  {
    AcquiresIffHoldsRanOut(cat, origin, steps, j, key);
    DivMonotone(cat.policyOf(key).staleFor, cat.policyOf(key).freshFor + cat.policyOf(key).staleFor);
  }

  /** Some stale read of the version comes after every lock that was left over. */
  ghost predicate LeavesTime(policy: Policy, stored: int) {
    exists r :: StaleRead(policy, stored, r) && stored + HoldMs(policy) <= r
  }

  /** That leaves the version time to be refreshed exactly when it outlives the hold and is
      stale in its last millisecond, whose age lacks a second if it was stored on the full
      second. With a fresh time of zero it never is. */
  lemma LeftoverLeavesTimeIff(policy: Policy, stored: int)
    ensures LeavesTime(policy, stored) <==>
            && policy.LockSecs() < policy.TtlSecs()
            && StaleAge(policy) <= policy.TtlSecs() - (if stored % 1000 == 0 then 1 else 0)
    ensures policy.freshFor == 0 ==> policy.LockSecs() == policy.TtlSecs()
  {
    var last := stored + LifeMs(policy) - 1;
    var age := Stamp(last) - Stamp(stored);
    assert age == policy.TtlSecs() - (if stored % 1000 == 0 then 1 else 0);
    StaleFromAge(policy, age);
    if LeavesTime(policy, stored) {
      var r :| StaleRead(policy, stored, r) && stored + HoldMs(policy) <= r;
      StaleFromAge(policy, Stamp(r) - Stamp(stored));
    }
    if policy.LockSecs() < policy.TtlSecs() && StaleAge(policy) <= age {
      assert StaleRead(policy, stored, last) && stored + HoldMs(policy) <= last;
    }
  }

  /** Tasks spawned by one stale read of a stored version both refresh, for every policy,
      when one of them is delayed by the hold time. */
  lemma DelayedAttemptRefreshesTwice(cat: Catalog, origin: map<string, string>, key: string, stored: int, readAt: int)
    requires StaleRead(cat.policyOf(key), stored, readAt)
    ensures var steps := [Step(stored, Fill(key, "v")), Step(readAt, TryRefresh(key)),
                          Step(readAt + HoldMs(cat.policyOf(key)), TryRefresh(key))];
            Refreshes(cat, origin, steps, 0, 1, key) && Acquires(cat, origin, steps, 2, key)
  {
    StartedRun(cat, origin, key, stored, readAt, readAt + HoldMs(cat.policyOf(key)));
    var steps := [Step(stored, Fill(key, "v")), Step(readAt, TryRefresh(key)),
                  Step(readAt + HoldMs(cat.policyOf(key)), TryRefresh(key))];
    StaleHitIsStaleRead(cat, origin, steps, 0, 1, key, readAt);
    VersionIsLatestFill(cat, origin, steps, 0, 1, key);
  }
}
