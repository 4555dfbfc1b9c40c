/** Redis keys that carry a time to live, and Redis sets that carry one.

A key is modelled as a value with the first instant at which it no longer exists,
so reading, `EXPIRE` and `SET EX` all become arithmetic on one monotone clock. The clock is
in milliseconds, to which Redis expiry is exact; timestamps written into values are whole
seconds.
 */
module Expiring {

  datatype Slot<+V> = Slot(value: V, expiry: int)

  /** The whole-second timestamp of a moment. */
  function Stamp(now: int): int {
    now / 1000
  }

  /** Does the key exist at `now`? */
  predicate Alive<K, V>(m: map<K, Slot<V>>, k: K, now: int) {
    k in m && now < m[k].expiry
  }

  /** `SMEMBERS`: an expired or missing set reads as empty. */
  function Members<K, E>(index: map<K, Slot<set<E>>>, k: K, now: int): set<E> {
    if Alive(index, k, now) then index[k].value else {}
  }

  /** `SADD k e` followed by `EXPIRE k ttl`. */
  function AddMember<K, E>(index: map<K, Slot<set<E>>>, k: K, e: E, now: int, ttl: int): map<K, Slot<set<E>>> {
    index[k := Slot(Members(index, k, now) + {e}, now + ttl)]
  }

  /** `SREM k e`: the expiry of the set is left alone. */
  function RemoveMember<K, E>(index: map<K, Slot<set<E>>>, k: K, e: E): map<K, Slot<set<E>>> {
    if k in index then index[k := index[k].(value := index[k].value - {e})] else index
  }

  /** The value `INCR` returns: an expired or missing counter starts over. */
  function NextCount<K>(counters: map<K, Slot<nat>>, k: K, now: int): nat {
    (if Alive(counters, k, now) then counters[k].value else 0) + 1
  }

  /** `INCR k` followed by `EXPIRE k ttl`. */
  function Increment<K>(counters: map<K, Slot<nat>>, k: K, now: int, ttl: int): map<K, Slot<nat>> {
    counters[k := Slot(NextCount(counters, k, now), now + ttl)]
  }
}
