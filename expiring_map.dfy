/**
 * ExpiringDashMap of src/utils.rs: a map whose entries carry the instant
 * at which they expire. Lookups ignore expired entries; a manual purge and
 * a periodic background sweep drop them.
 */
module Expiring {
  import opened Wrappers

  /** A stored value beside its expiry instant. */
  datatype Slot<V> = Slot(value: V, expire: int)

  /** The value `get` returns at `now`: the stored value while its expiry
      is strictly later than `now`. */
  function Live<K, V>(m: map<K, Slot<V>>, key: K, now: int): Option<V>
  {
    if key in m && m[key].expire > now then Some(m[key].value) else None
  }

  /** An entry is live up to its expiry and never again after it: reads
      at a later instant find it at most as often. */
  lemma LiveUntilExpiry<K, V>(m: map<K, Slot<V>>, key: K, t: int, later: int)
    requires t <= later
    ensures Live(m, key, later).Some? ==> Live(m, key, t) == Live(m, key, later)
    ensures Live(m, key, t).None? ==> Live(m, key, later).None?
  {
  }

  /** What `retain(|_, (_, exp)| *exp > now)` leaves. */
  function Purged<K, V>(m: map<K, Slot<V>>, now: int): (r: map<K, Slot<V>>)
    ensures r.Keys <= m.Keys
    ensures forall k | k in m :: k in r <==> m[k].expire > now
    ensures forall k | k in r :: r[k] == m[k]
  {
    map k | k in m && m[k].expire > now :: m[k]
  }

  /** Purging does not change what `get` returns at the same instant. */
  lemma PurgeAgreesWithGet<K, V>(m: map<K, Slot<V>>, now: int, key: K)
    ensures Live(Purged(m, now), key, now) == Live(m, key, now)
  {
  }

  /** A later purge subsumes an earlier one. */
  lemma PurgeLater<K, V>(m: map<K, Slot<V>>, earlier: int, later: int)
    requires earlier <= later
    ensures Purged(Purged(m, earlier), later) == Purged(m, later)
  {
    assert Purged(Purged(m, earlier), later).Keys == Purged(m, later).Keys;
  }

  /** After `insert(key, value, ttl)` at `now`, `get(key)` gives the value
      until `now + ttl` and nothing from then on; other keys read as before. */
  lemma InsertThenGet<K, V>(m: map<K, Slot<V>>, key: K, value: V, ttl: nat, now: int, t: int, other: K)
    requires other != key
    ensures Live(m[key := Slot(value, now + ttl)], key, t) == if t < now + ttl then Some(value) else None
    ensures Live(m[key := Slot(value, now + ttl)], other, t) == Live(m, other, t)
  {
  }

  /** After `remove(key)`, `get(key)` finds nothing; other keys read as before. */
  lemma RemoveThenGet<K, V>(m: map<K, Slot<V>>, key: K, t: int, other: K)
    requires other != key
    ensures Live(m - {key}, key, t) == None
    ensures Live(m - {key}, other, t) == Live(m, other, t)
  {
  }

  class ExpiringMap<K(==), V> {
    var inner: map<K, Slot<V>>

    /** An empty map. The background sweep it spawns is PurgeExpired run
        at every tick. */
    constructor ()
      ensures inner == map[]
    {
      inner := map[];
    }

    /** Stores `value` under `key`, expiring `ttl` after `now`. */
    method Insert(key: K, value: V, ttl: nat, now: int)
      modifies this
      ensures inner == old(inner)[key := Slot(value, now + ttl)]
    {
      inner := inner[key := Slot(value, now + ttl)];
    }

    /** The value under `key` if its expiry is strictly after `now`; an
        expired entry that is still stored reads as absent. */
    method Get(key: K, now: int) returns (r: Option<V>)
      ensures r.Some? <==> key in inner && inner[key].expire > now
      ensures r.Some? ==> r.value == inner[key].value
      ensures r == Live(inner, key, now)
    {
      if key in inner && inner[key].expire > now {
        r := Some(inner[key].value);
      } else {
        r := None;
      }
    }

    /** Deletes `key`, giving back its value (expired or not) if it had one. */
    method Remove(key: K) returns (r: Option<V>)
      modifies this
      ensures r == if key in old(inner) then Some(old(inner)[key].value) else None
      ensures inner == old(inner) - {key}
    {
      r := if key in inner then Some(inner[key].value) else None;
      inner := inner - {key};
    }

    /** Keeps exactly the entries whose expiry is after `now`. */
    method PurgeExpired(now: int)
      modifies this
      ensures inner == Purged(old(inner), now)
    {
      inner := map k | k in inner && inner[k].expire > now :: inner[k];
    }
  }
}
