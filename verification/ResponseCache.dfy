/** The Redis-backed response cache: entries with a fresh and a stale window, tag
sets used for invalidation, and the self-expiring refresh lock.

The functions describe what one operation does to the stored keys; the class
performs the same operations in place. The clock is in milliseconds. Policy durations are
nanoseconds, as in `std::time::Duration`; Redis lifetimes are whole seconds that run from
the exact instant, while an entry records the truncated second in which it was stored.
 */
module ResponseCache {
  import opened Expiring

  const NANOS: nat := 1_000_000_000

  function AtLeastOne(n: nat): nat {
    if n < 1 then 1 else n
  }

  datatype Policy = Policy(freshFor: nat, staleFor: nat) {
    /** Lifetime of the stored entry. */
    function TtlSecs(): nat {
      AtLeastOne((freshFor + staleFor) / NANOS)
    }

    /** Lifetime of the refresh lock. */
    function LockSecs(): nat {
      AtLeastOne(staleFor / NANOS)
    }

    /** The age is counted in whole seconds between two truncated timestamps. */
    predicate FreshAt(storedAt: int, now: int) {
      var age := if Stamp(now) - storedAt < 0 then 0 else Stamp(now) - storedAt;
      age * NANOS < freshFor
    }
  }

  function Secs(n: nat): nat {
    n * NANOS
  }

  /** The policies the endpoints use. */
  const LEADERBOARD: Policy := Policy(Secs(15), Secs(45))
  const PLAYER_STATS: Policy := Policy(Secs(30), Secs(60))
  const TOURNAMENT_LIST: Policy := Policy(Secs(60), Secs(120))
  const ACHIEVEMENT_CATALOG: Policy := Policy(Secs(600), Secs(600))

  datatype Envelope = Envelope(storedAt: int, payload: string)

  datatype Status = Fresh | Stale

  datatype Hit = Miss | Hit(value: string, status: Status)

  /** The three families of Redis keys the cache owns. `CacheKeys` shows that the
      names of the three families never coincide, so they can be kept apart here. */
  datatype Store = Store(
    entries: map<string, Slot<Envelope>>,
    tags: map<string, Slot<set<string>>>,
    locks: map<string, Slot<()>>)

  const EMPTY: Store := Store(map[], map[], map[])

  function Lookup(st: Store, key: string, policy: Policy, now: int): Hit {
    if !Alive(st.entries, key, now) then Miss
    else
      var e := st.entries[key].value;
      Hit(e.payload, if policy.FreshAt(e.storedAt, now) then Fresh else Stale)
  }

  function TagAll(index: map<string, Slot<set<string>>>, tags: seq<string>, key: string, now: int, ttl: int)
    : map<string, Slot<set<string>>>
  {
    if tags == [] then index
    else AddMember(TagAll(index, tags[..|tags| - 1], key, now, ttl), tags[|tags| - 1], key, now, ttl)
  }

  function Put(st: Store, key: string, value: string, policy: Policy, tags: seq<string>, now: int): Store {
    var ttl := policy.TtlSecs();
    st.(entries := st.entries[key := Slot(Envelope(Stamp(now), value), now + 1000 * ttl)],
        tags := TagAll(st.tags, tags, key, now, 4000 * ttl))
  }

  function DropTag(st: Store, tag: string, now: int): Store {
    st.(entries := st.entries - Members(st.tags, tag, now), tags := st.tags - {tag})
  }

  function DropTags(st: Store, tags: seq<string>, now: int): Store {
    if tags == [] then st
    else DropTag(DropTags(st, tags[..|tags| - 1], now), tags[|tags| - 1], now)
  }

  predicate LockFree(st: Store, key: string, now: int) {
    !Alive(st.locks, key, now)
  }

  /** `SET NX EX`: an unexpired lock makes the attempt a no-op. */
  function TryLock(st: Store, key: string, policy: Policy, now: int): Store {
    if LockFree(st, key, now) then st.(locks := st.locks[key := Slot((), now + 1000 * policy.LockSecs())]) else st
  }

  /** What tagging leaves behind, tag by tag: a named tag is extended with the key and
      gets a new expiry, every other tag is untouched. */
  lemma {:induction false} TagAllEffect(index: map<string, Slot<set<string>>>, tags: seq<string>, key: string,
                                        now: int, ttl: int)
    requires ttl >= 1
    ensures var r := TagAll(index, tags, key, now, ttl);
            && (forall t :: t in tags ==> t in r && r[t] == Slot(Members(index, t, now) + {key}, now + ttl))
            && (forall t :: t !in tags ==> (t in r <==> t in index))
            && (forall t :: t !in tags && t in index ==> r[t] == index[t])
  {
    if tags != [] {
      var last := tags[|tags| - 1];
      var rest := tags[..|tags| - 1];
      TagAllEffect(index, rest, key, now, ttl);
      assert forall t :: t in tags <==> t in rest || t == last;
    }
  }

  /** Dropping tags never creates or alters a key, and leaves no entry that a dropped,
      unexpired tag set listed. */
  lemma {:induction false} DropTagsEffect(st: Store, tags: seq<string>, now: int)
    ensures var r := DropTags(st, tags, now);
            && r.locks == st.locks
            && r.tags == (map t | t in st.tags && t !in tags :: st.tags[t])
            && (forall k :: k in r.entries ==> k in st.entries && r.entries[k] == st.entries[k])
            && (forall k, t :: t in tags && k in Members(st.tags, t, now) ==> k !in r.entries)
            && (forall k :: k in st.entries && k !in r.entries ==>
                  exists t :: t in tags && k in Members(st.tags, t, now))
  {
    if tags != [] {
      var last := tags[|tags| - 1];
      var rest := tags[..|tags| - 1];
      DropTagsEffect(st, rest, now);
      var mid := DropTags(st, rest, now);
      assert forall t :: t in tags <==> t in rest || t == last;
      forall k, t | t in tags && k in Members(st.tags, t, now)
        ensures k !in DropTags(st, tags, now).entries
      {
        if t !in rest {
          assert Members(mid.tags, t, now) == Members(st.tags, t, now);
        }
      }
    }
  }

  class Cache {
    var entries: map<string, Slot<Envelope>>
    var tags: map<string, Slot<set<string>>>
    var locks: map<string, Slot<()>>
    var hits: nat
    var staleHits: nat
    var misses: nat

    ghost function Stored(): Store
      reads this
    {
      Store(entries, tags, locks)
    }

    constructor ()
      ensures Stored() == EMPTY
      ensures hits == staleHits == misses == 0
    {
      entries, tags, locks := map[], map[], map[];
      hits, staleHits, misses := 0, 0, 0;
    }

    /** Every lookup is counted exactly once, as a hit, a stale hit or a miss. */
    method Get(key: string, policy: Policy, now: int) returns (hit: Hit)
      modifies this`hits, this`staleHits, this`misses
      ensures hit == Lookup(Stored(), key, policy, now)
      ensures hits + staleHits + misses == old(hits + staleHits + misses) + 1
      ensures hits == old(hits) + (if hit.Hit? && hit.status.Fresh? then 1 else 0)
      ensures misses == old(misses) + (if hit.Miss? then 1 else 0)
    {
      if key !in entries || entries[key].expiry <= now {
        misses := misses + 1;
        return Miss;
      }
      var envelope := entries[key].value;
      var age := Stamp(now) - envelope.storedAt;
      if age < 0 {
        age := 0;
      }
      if age * NANOS < policy.freshFor {
        hits := hits + 1;
        return Hit(envelope.payload, Fresh);
      }
      staleHits := staleHits + 1;
      return Hit(envelope.payload, Stale);
    }

    method Set(key: string, value: string, policy: Policy, tagList: seq<string>, now: int)
      modifies this`entries, this`tags
      ensures Stored() == Put(old(Stored()), key, value, policy, tagList, now)
    {
      var ttl := policy.TtlSecs();
      entries := entries[key := Slot(Envelope(Stamp(now), value), now + 1000 * ttl)];
      var i := 0;
      while i < |tagList|
        invariant 0 <= i <= |tagList|
        invariant entries == old(entries)[key := Slot(Envelope(Stamp(now), value), now + 1000 * ttl)]
        invariant tags == TagAll(old(tags), tagList[..i], key, now, 4000 * ttl)
      {
        var tag := tagList[i];
        var present := if tag in tags && now < tags[tag].expiry then tags[tag].value else {};
        tags := tags[tag := Slot(present + {key}, now + 4000 * ttl)];
        assert tagList[..i + 1][..i] == tagList[..i];
        i := i + 1;
      }
      assert tagList[..i] == tagList;
    }

    method InvalidateTag(tag: string, now: int)
      modifies this`entries, this`tags
      ensures Stored() == DropTag(old(Stored()), tag, now)
    {
      if tag in tags && now < tags[tag].expiry {
        entries := entries - tags[tag].value;
      }
      tags := tags - {tag};
      assert old(entries) - {} == old(entries);
    }

    method InvalidateTags(tagList: seq<string>, now: int)
      modifies this`entries, this`tags
      ensures Stored() == DropTags(old(Stored()), tagList, now)
    {
      var i := 0;
      while i < |tagList|
        invariant 0 <= i <= |tagList|
        invariant Stored() == DropTags(old(Stored()), tagList[..i], now)
      {
        InvalidateTag(tagList[i], now);
        assert tagList[..i + 1][..i] == tagList[..i];
        i := i + 1;
      }
      assert tagList[..i] == tagList;
    }

    /** Read-through. `computed` is what the origin answers if it is asked: an error
        leaves the cache as it was, and a stale hit asks the caller to spawn a refresh. */
    method GetOrCompute(key: string, policy: Policy, tagList: seq<string>, computed: Computed, now: int)
      returns (answer: Computed, spawnRefresh: bool)
      modifies this
      ensures var hit := Lookup(old(Stored()), key, policy, now);
              && spawnRefresh == (hit.Hit? && hit.status.Stale?)
              && answer == (if hit.Hit? then Ok(hit.value) else computed)
              && Stored() == if hit.Miss? && computed.Ok?
                             then Put(old(Stored()), key, computed.value, policy, tagList, now)
                             else old(Stored())
      ensures hits + staleHits + misses == old(hits + staleHits + misses) + 1
    {
      var hit := Get(key, policy, now);
      if hit.Hit? {
        return Ok(hit.value), hit.status.Stale?;
      }
      if computed.Ok? {
        Set(key, computed.value, policy, tagList, now);
      }
      return computed, false;
    }

    method TryLockRefresh(key: string, policy: Policy, now: int) returns (acquired: bool)
      modifies this`locks
      ensures acquired == LockFree(old(Stored()), key, now)
      ensures Stored() == TryLock(old(Stored()), key, policy, now)
    {
      acquired := key !in locks || locks[key].expiry <= now;
      if acquired {
        locks := locks[key := Slot((), now + 1000 * policy.LockSecs())];
      }
    }
  }

  datatype Computed = Ok(value: string) | Err(error: string)
}
