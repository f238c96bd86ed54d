/**
 * RequestCoalescer and CachedCoalescer of src/utils.rs. Concurrent callers
 * of `execute` with one key share a single run of the task: the first to
 * queue a oneshot sender under the key runs it, and every queued sender
 * then receives its result. The cached variant first consults an
 * ExpiringMap and stores the leader's result with a TTL.
 *
 * Each await is a step boundary: `Register` is the part of `execute`
 * before the task is awaited, `Complete` the part after it, and `Receive`
 * a waiter's `rx.await`.
 */
module Coalescing {
  import opened Wrappers
  import opened Expiring

  /** One oneshot channel: its sender is queued under a key, the caller
      keeps its receiver. */
  type Ticket = nat

  /** How a call to execute stands after its first step: finished with a
      value, or waiting on its receiver. */
  datatype Call<V> = Done(value: V) | Waiting(ticket: Ticket)

  /** The senders queued under `key`. */
  function Queued<K>(ongoing: map<K, seq<Ticket>>, key: K): seq<Ticket>
  {
    if key in ongoing then ongoing[key] else []
  }

  /** Every queue is non-empty, every queued sender is older than
      `next` and has not been sent to yet, no sender is queued twice, and
      only existing receivers have been sent to. */
  ghost predicate Coherent<K, V>(ongoing: map<K, seq<Ticket>>, delivered: map<Ticket, V>, next: nat)
  {
    && (forall k | k in ongoing :: |ongoing[k]| > 0)
    && (forall k, i | k in ongoing && 0 <= i < |ongoing[k]| :: ongoing[k][i] < next && ongoing[k][i] !in delivered)
    && (forall t | t in delivered :: t < next)
    && (forall k1, k2, i, j | k1 in ongoing && k2 in ongoing && 0 <= i < |ongoing[k1]| && 0 <= j < |ongoing[k2]|
          && ongoing[k1][i] == ongoing[k2][j] :: k1 == k2 && i == j)
  }

  /** Queuing the fresh ticket `next` keeps the state coherent. */
  lemma RegisterKeepsCoherent<K, V>(ongoing: map<K, seq<Ticket>>, delivered: map<Ticket, V>, next: nat, key: K)
    requires Coherent(ongoing, delivered, next)
    ensures Coherent(ongoing[key := Queued(ongoing, key) + [next]], delivered, next + 1)
  {
  }

  /** Removing a queue and sending to its tickets keeps the state coherent. */
  lemma CompleteKeepsCoherent<K, V>(ongoing: map<K, seq<Ticket>>, delivered: map<Ticket, V>, next: nat, key: K, result: V)
    requires Coherent(ongoing, delivered, next)
    ensures Coherent(ongoing - {key}, Sent(delivered, Queued(ongoing, key), result), next)
  {
  }

  /** `delivered` after sending `result` to every ticket of `tickets`. */
  function Sent<V>(delivered: map<Ticket, V>, tickets: seq<Ticket>, result: V): map<Ticket, V>
  {
    delivered + map t | t in tickets :: result
  }

  /** Sending to one more ticket. */
  lemma SentStep<V>(delivered: map<Ticket, V>, tickets: seq<Ticket>, t: Ticket, result: V)
    ensures Sent(delivered, tickets + [t], result) == Sent(delivered, tickets, result)[t := result]
  {
  }

  /** Sending to a single ticket. */
  lemma SentOne<V>(delivered: map<Ticket, V>, t: Ticket, result: V)
    ensures Sent(delivered, [t], result) == delivered[t := result]
  {
  }

  /** The leader's loop over the removed queue: sends `result` on every
      sender in turn. */
  method SendAll<V>(delivered: map<Ticket, V>, tickets: seq<Ticket>, result: V) returns (sent: map<Ticket, V>)
    ensures sent.Keys == delivered.Keys + set t | t in tickets
    ensures forall t | t in tickets :: sent[t] == result
    ensures forall t | t in delivered && t !in tickets :: sent[t] == delivered[t]
    ensures sent == Sent(delivered, tickets, result)
  {
    sent := delivered;
    var k := 0;
    while k < |tickets|
      invariant 0 <= k <= |tickets|
      invariant sent == Sent(delivered, tickets[..k], result)
    {
      assert tickets[..k + 1] == tickets[..k] + [tickets[k]];
      SentStep(delivered, tickets[..k], tickets[k], result);
      sent := sent[tickets[k] := result];
      k := k + 1;
    }
    assert tickets[..k] == tickets;
  }

  class RequestCoalescer<K(==), V> {
    /** key -> senders of the callers waiting on that key's task. */
    var ongoing: map<K, seq<Ticket>>
    /** The value each receiver has been sent. */
    var delivered: map<Ticket, V>
    /** The ticket of the next channel created. */
    var nextTicket: nat

    ghost predicate Valid()
      reads this
    {
      Coherent(ongoing, delivered, nextTicket)
    }

    constructor ()
      ensures Valid() && ongoing == map[] && delivered == map[] && nextTicket == 0
    {
      ongoing := map[];
      delivered := map[];
      nextTicket := 0;
    }

    /** The first step of execute: create a channel and queue its sender
        under `key`. The caller leads, and will run the task, exactly when
        its sender is now the only one queued, that is when no call for
        `key` was in flight. */
    method Register(key: K) returns (ticket: Ticket, leader: bool)
      requires Valid()
      modifies this
      ensures Valid()
      ensures ticket == old(nextTicket) && nextTicket == old(nextTicket) + 1
      ensures ongoing == old(ongoing)[key := Queued(old(ongoing), key) + [ticket]]
      ensures delivered == old(delivered)
      ensures leader <==> |ongoing[key]| == 1
      ensures leader <==> key !in old(ongoing)
    {
      RegisterKeepsCoherent(ongoing, delivered, nextTicket, key);
      ticket := nextTicket;
      nextTicket := nextTicket + 1;
      var entry := if key in ongoing then ongoing[key] else [];
      entry := entry + [ticket];
      ongoing := ongoing[key := entry];
      leader := |entry| == 1;
    }

    /** The leader's last step: its task gave `result`. The key's queue is
        removed and `result` is sent to every sender on it (the leader's own
        included, whose receiver nobody awaits). */
    method Complete(key: K, result: V) returns (notified: seq<Ticket>)
      requires Valid()
      modifies this
      ensures Valid()
      ensures notified == Queued(old(ongoing), key)
      ensures ongoing == old(ongoing) - {key}
      ensures delivered == Sent(old(delivered), notified, result)
      ensures nextTicket == old(nextTicket)
    {
      CompleteKeepsCoherent(ongoing, delivered, nextTicket, key, result);
      notified := [];
      if key in ongoing {
        notified := ongoing[key];
        ongoing := ongoing - {key};
      } else {
        assert ongoing - {key} == ongoing;
      }
      delivered := SendAll(delivered, notified, result);
    }

    /** A waiter's `rx.await`: the value sent to its receiver, if any yet. */
    method Receive(ticket: Ticket) returns (r: Option<V>)
      ensures r == if ticket in delivered then Some(delivered[ticket]) else None
    {
      r := if ticket in delivered then Some(delivered[ticket]) else None;
    }

    /** execute for a caller whose task runs to completion before anybody
        else calls: a leader runs the task and gets its result; a caller
        that finds the key in flight waits on its receiver. */
    method Execute(key: K, task: () -> V) returns (c: Call<V>)
      requires Valid()
      modifies this
      ensures Valid() && nextTicket == old(nextTicket) + 1
      ensures key !in old(ongoing) ==>
                c == Done(task()) && ongoing == old(ongoing)
                && delivered == old(delivered)[old(nextTicket) := task()]
      ensures key in old(ongoing) ==>
                c == Waiting(old(nextTicket)) && ongoing == old(ongoing)[key := old(ongoing)[key] + [old(nextTicket)]]
                && delivered == old(delivered)
    {
      var ticket, leader := Register(key);
      if leader {
        var result := task();
        var notified := Complete(key, result);
        assert notified == [ticket];
        assert ongoing == old(ongoing);
        return Done(result);
      }
      c := Waiting(ticket);
    }
  }

  /** Two callers of one key interleaved: the second queues while the first
      runs its task. Only the first runs the task, both see its result, and
      nothing is left in flight. */
  method SharedFlight<K(==), V>(key: K, result: V) returns (first: Option<V>, second: Option<V>, secondLeads: bool)
    ensures first == Some(result) && second == Some(result) && !secondLeads
  {
    var c := new RequestCoalescer<K, V>();
    var t1, lead1 := c.Register(key);
    var t2, lead2 := c.Register(key);
    secondLeads := lead2;
    var notified := c.Complete(key, result);
    assert t1 in notified && t2 in notified;
    first := if lead1 then Some(result) else None;
    second := c.Receive(t2);
  }

  /** How a cached execute stands after its first step. */
  datatype Begun<V> = Hit(value: V) | Lead(ticket: Ticket) | Join(ticket: Ticket)

  class CachedCoalescer<K(==), V> {
    const cache: ExpiringMap<K, V>
    const coalescer: RequestCoalescer<K, V>

    ghost predicate Valid()
      reads this, coalescer
    {
      coalescer.Valid()
    }

    constructor ()
      ensures Valid() && fresh(cache) && fresh(coalescer)
      ensures cache.inner == map[] && coalescer.ongoing == map[] && coalescer.delivered == map[]
    {
      cache := new ExpiringMap<K, V>();
      coalescer := new RequestCoalescer<K, V>();
    }

    /** The first step of the cached execute at `now`: a live cached value
        is returned at once; otherwise the caller registers with the
        request coalescer. */
    method Begin(key: K, now: int) returns (b: Begun<V>)
      requires Valid()
      modifies coalescer
      ensures Valid() && cache.inner == old(cache.inner)
      ensures Live(cache.inner, key, now).Some? ==>
                b == Hit(Live(cache.inner, key, now).value)
                && coalescer.ongoing == old(coalescer.ongoing) && coalescer.delivered == old(coalescer.delivered)
                && coalescer.nextTicket == old(coalescer.nextTicket)
      ensures Live(cache.inner, key, now).None? ==>
                (b.Lead? <==> key !in old(coalescer.ongoing)) && !b.Hit?
                && b.ticket == old(coalescer.nextTicket)
                && coalescer.ongoing == old(coalescer.ongoing)[key := Queued(old(coalescer.ongoing), key) + [b.ticket]]
                && coalescer.delivered == old(coalescer.delivered)
                && coalescer.nextTicket == old(coalescer.nextTicket) + 1
    {
      var cached := cache.Get(key, now);
      if cached.Some? {
        return Hit(cached.value);
      }
      var ticket, leader := coalescer.Register(key);
      b := if leader then Lead(ticket) else Join(ticket);
    }

    /** The leader's last step: its task gave `result` at `finish`; the
        result is cached for `ttl`, then sent to every queued sender. */
    method Finish(key: K, result: V, ttl: nat, finish: int)
      requires Valid()
      modifies cache, coalescer
      ensures Valid()
      ensures cache.inner == old(cache.inner)[key := Slot(result, finish + ttl)]
      ensures coalescer.ongoing == old(coalescer.ongoing) - {key}
      ensures coalescer.delivered == Sent(old(coalescer.delivered), Queued(old(coalescer.ongoing), key), result)
      ensures coalescer.nextTicket == old(coalescer.nextTicket)
    {
      cache.Insert(key, result, ttl, finish);
      var notified := coalescer.Complete(key, result);
    }

    /** The cached execute for a caller whose task runs to completion
        before anybody else calls: a hit skips the task; a leader runs it,
        caches its result until `finish + ttl` and returns it; a caller that
        finds the key in flight waits. `ran` tells whether the task ran. */
    method Execute(key: K, task: () -> V, ttl: nat, now: int, finish: int) returns (c: Call<V>, ran: bool)
      requires Valid()
      modifies cache, coalescer
      ensures Valid()
      ensures Live(old(cache.inner), key, now).Some? ==>
                c == Done(Live(old(cache.inner), key, now).value) && !ran
                && cache.inner == old(cache.inner) && coalescer.ongoing == old(coalescer.ongoing)
                && coalescer.delivered == old(coalescer.delivered) && coalescer.nextTicket == old(coalescer.nextTicket)
      ensures Live(old(cache.inner), key, now).None? && key !in old(coalescer.ongoing) ==>
                c == Done(task()) && ran
                && cache.inner == old(cache.inner)[key := Slot(task(), finish + ttl)]
                && coalescer.ongoing == old(coalescer.ongoing)
                && coalescer.delivered == old(coalescer.delivered)[old(coalescer.nextTicket) := task()]
                && coalescer.nextTicket == old(coalescer.nextTicket) + 1
      ensures Live(old(cache.inner), key, now).None? && key in old(coalescer.ongoing) ==>
                c == Waiting(old(coalescer.nextTicket)) && !ran && cache.inner == old(cache.inner)
                && coalescer.ongoing == old(coalescer.ongoing)[key := old(coalescer.ongoing)[key] + [old(coalescer.nextTicket)]]
                && coalescer.delivered == old(coalescer.delivered)
                && coalescer.nextTicket == old(coalescer.nextTicket) + 1
    {
      var b := Begin(key, now);
      match b {
        case Hit(v) =>
          return Done(v), false;
        case Lead(ticket) =>
          var result := task();
          assert Queued(coalescer.ongoing, key) == [ticket];
          SentOne(coalescer.delivered, ticket, result);
          Finish(key, result, ttl, finish);
          assert coalescer.ongoing == old(coalescer.ongoing);
          return Done(result), true;
        case Join(ticket) =>
          return Waiting(ticket), false;
      }
    }

    /** clean_cache: forgets the cached value of `key`. */
    method CleanCache(key: K)
      modifies cache
      ensures cache.inner == old(cache.inner) - {key}
    {
      var previous := cache.Remove(key);
    }
  }

  /** After clean_cache, the next cached execute of that key misses the
      cache and, with nothing in flight, runs its task. */
  method CleanThenMiss<K(==), V>(key: K, first: V, second: V, ttl: nat, now: int)
    returns (c1: Call<V>, c2: Call<V>, ran2: bool)
    ensures c1 == Done(first) && c2 == Done(second) && ran2
  {
    var cc := new CachedCoalescer<K, V>();
    var ran1;
    c1, ran1 := cc.Execute(key, () => first, ttl, now, now);
    cc.CleanCache(key);
    c2, ran2 := cc.Execute(key, () => second, ttl, now, now);
  }
}
