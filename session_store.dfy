/**
 * The Python session store (utils/ClientManager/_ClientManager.py): a
 * two-level dictionary from a surface description ("mycqu", "card",
 * "library") and a user id to a logged-in HTTP client and the second at
 * which it was stored, with a sweep that closes and drops clients older
 * than a configured age.
 */
module SessionStore {
  import opened Wrappers

  /** An HTTP client object, by identity: every client the manager opens
      carries a number no earlier client carries. */
  datatype Client = Client(id: nat)

  /** A stored value: the client and the whole second at which it was stored. */
  datatype Entry = Entry(client: Client, created: int)

  /** description -> id -> entry, as `self.clients` holds it. */
  type Clients = map<string, map<string, Entry>>

  /** What awaiting the caller's login coroutine on a client gives: it
      returns, or it raises an exception of type E. */
  datatype LoginOutcome<E> = LoggedIn | LoginFailed(error: E)

  predicate Has(clients: Clients, description: string, id: string)
  {
    description in clients && id in clients[description]
  }

  /** Whether a stored entry is older than the allowed age at `now`. */
  predicate Overtime(e: Entry, now: int, clientOvertime: int)
  {
    now - e.created > clientOvertime
  }

  /** Every client stored anywhere in the dictionary. */
  function ClientsOf(clients: Clients): set<Client>
  {
    set d, i | d in clients && i in clients[d] :: clients[d][i].client
  }

  /** No client object is stored under two paths. */
  ghost predicate Distinct(clients: Clients)
  {
    forall d1, i1, d2, i2 ::
      Has(clients, d1, i1) && Has(clients, d2, i2) && clients[d1][i1].client == clients[d2][i2].client
      ==> d1 == d2 && i1 == i2
  }

  /** Every stored client was opened before the counter reached `bound`. */
  ghost predicate Below(clients: Clients, bound: nat)
  {
    forall d, i :: Has(clients, d, i) ==> clients[d][i].client.id < bound
  }

  /** The dictionary after storing `client` under (description, id) at
      `now`, creating the inner dictionary when it is missing. */
  function Launched(clients: Clients, description: string, id: string, client: Client, now: int): (r: Clients)
    ensures Has(r, description, id) && r[description][id] == Entry(client, now)
    ensures r.Keys == clients.Keys + {description}
    ensures forall d, i :: d != description || i != id ==>
              (Has(r, d, i) <==> Has(clients, d, i)) && (Has(clients, d, i) ==> r[d][i] == clients[d][i])
  {
    var inner := if description in clients then clients[description] else map[];
    clients[description := inner[id := Entry(client, now)]]
  }

  /** The dictionary after one sweep at `now`: every entry older than
      `clientOvertime` is gone, the rest keep their values, and every
      description stays, even when its inner dictionary empties. */
  function Swept(clients: Clients, now: int, clientOvertime: int): (r: Clients)
    ensures r.Keys == clients.Keys
    ensures forall d, i :: Has(r, d, i) <==> Has(clients, d, i) && !Overtime(clients[d][i], now, clientOvertime)
    ensures forall d, i :: Has(r, d, i) ==> Has(clients, d, i) && r[d][i] == clients[d][i]
  {
    map d | d in clients :: map i | i in clients[d] && !Overtime(clients[d][i], now, clientOvertime) :: clients[d][i]
  }

  /** Every client a sweep collects is the client of an overtime entry. */
  lemma CollectedAreOvertime(clients: Clients, now: int, clientOvertime: int,
                             paths: seq<(string, string)>, toClose: seq<Client>)
    requires |paths| == |toClose|
    requires forall k :: 0 <= k < |paths| ==>
               Has(clients, paths[k].0, paths[k].1)
               && Overtime(clients[paths[k].0][paths[k].1], now, clientOvertime)
               && toClose[k] == clients[paths[k].0][paths[k].1].client
    ensures forall c :: c in toClose ==>
              exists d, i :: Has(clients, d, i) && Overtime(clients[d][i], now, clientOvertime)
                             && clients[d][i].client == c
  {
    forall c | c in toClose
      ensures exists d, i :: Has(clients, d, i) && Overtime(clients[d][i], now, clientOvertime)
                             && clients[d][i].client == c
    {
      var k :| 0 <= k < |toClose| && toClose[k] == c;
      var d, i := paths[k].0, paths[k].1;
      assert Has(clients, d, i) && Overtime(clients[d][i], now, clientOvertime) && clients[d][i].client == toClose[k];
    }
  }

  /** Two dictionaries with the same descriptions and the same entries are equal. */
  lemma SameEntries(a: Clients, b: Clients)
    requires a.Keys == b.Keys
    requires forall d, i :: Has(a, d, i) <==> Has(b, d, i)
    requires forall d, i :: Has(a, d, i) ==> Has(b, d, i) && a[d][i] == b[d][i]
    ensures a == b
  {
    forall d | d in a ensures a[d] == b[d] {
      assert a[d].Keys == b[d].Keys by {
        forall i ensures i in a[d] <==> i in b[d] { assert Has(a, d, i) <==> Has(b, d, i); }
      }
    }
  }

  /** Sweeping twice at the same instant removes nothing more. */
  lemma SweptIdempotent(clients: Clients, now: int, clientOvertime: int)
    ensures Swept(Swept(clients, now, clientOvertime), now, clientOvertime) == Swept(clients, now, clientOvertime)
  {
    var once := Swept(clients, now, clientOvertime);
    SameEntries(Swept(once, now, clientOvertime), once);
  }

  /** A sweep keeps an entry stored at most `clientOvertime` seconds
      before it: entries stored by a hit-free acquire at the sweep's own
      instant survive whenever the allowed age is not negative. */
  lemma LaunchedSurvivesSweep(clients: Clients, description: string, id: string, client: Client,
                              created: int, now: int, clientOvertime: int)
    requires now - created <= clientOvertime
    ensures var r := Swept(Launched(clients, description, id, client, created), now, clientOvertime);
            Has(r, description, id) && r[description][id] == Entry(client, created)
  {
  }

  /** `clients` is `before` with exactly the paths in `popped` removed. */
  ghost predicate PoppedFrom(clients: Clients, before: Clients, popped: set<(string, string)>)
  {
    && clients.Keys == before.Keys
    && (forall d, i :: Has(clients, d, i) <==> Has(before, d, i) && (d, i) !in popped)
    && (forall d, i :: Has(clients, d, i) ==> Has(before, d, i) && clients[d][i] == before[d][i])
  }

  /** Popping one more collected path, as the second pass of a sweep does. */
  lemma PopStep(clients: Clients, before: Clients, popped: set<(string, string)>, d: string, i: string)
    requires PoppedFrom(clients, before, popped) && d in clients
    ensures PoppedFrom(clients[d := clients[d] - {i}], before, popped + {(d, i)})
  {
  }

  /** Once the popped paths are exactly the overtime ones, the result is the sweep. */
  lemma PoppedIsSwept(clients: Clients, before: Clients, popped: set<(string, string)>, now: int, clientOvertime: int)
    requires PoppedFrom(clients, before, popped)
    requires forall d, i :: Has(before, d, i) ==> ((d, i) in popped <==> Overtime(before[d][i], now, clientOvertime))
    ensures clients == Swept(before, now, clientOvertime)
  {
    SameEntries(clients, Swept(before, now, clientOvertime));
  }

  /** A sweep only drops entries, so it keeps clients distinct and below the counter. */
  lemma SweptKeepsInvariant(clients: Clients, now: int, clientOvertime: int, bound: nat)
    requires Distinct(clients) && Below(clients, bound)
    ensures Distinct(Swept(clients, now, clientOvertime)) && Below(Swept(clients, now, clientOvertime), bound)
  {
  }

  /** Storing a client numbered `bound` keeps clients distinct and below `bound + 1`. */
  lemma LaunchedKeepsInvariant(clients: Clients, description: string, id: string, bound: nat, now: int)
    requires Distinct(clients) && Below(clients, bound)
    ensures var r := Launched(clients, description, id, Client(bound), now);
            Distinct(r) && Below(r, bound + 1)
  {
  }

  /** The clients a sweep closes, given the paths it collected: each once,
      each stored before the sweep, none stored after it. */
  lemma {:induction false} ClosedAreRemoved(clients: Clients, now: int, clientOvertime: int,
                                            paths: seq<(string, string)>, toClose: seq<Client>)
    requires Distinct(clients)
    requires |paths| == |toClose|
    requires forall k :: 0 <= k < |paths| ==>
               Has(clients, paths[k].0, paths[k].1)
               && Overtime(clients[paths[k].0][paths[k].1], now, clientOvertime)
               && toClose[k] == clients[paths[k].0][paths[k].1].client
    requires forall k, l :: 0 <= k < l < |paths| ==> paths[k] != paths[l]
    ensures forall k, l :: 0 <= k < l < |toClose| ==> toClose[k] != toClose[l]
    ensures forall k :: 0 <= k < |toClose| ==>
              toClose[k] in ClientsOf(clients) && toClose[k] !in ClientsOf(Swept(clients, now, clientOvertime))
  {
    var after := Swept(clients, now, clientOvertime);
    forall k, l | 0 <= k < l < |toClose| ensures toClose[k] != toClose[l] {
      assert paths[k] != paths[l];
    }
    forall k | 0 <= k < |toClose|
      ensures toClose[k] in ClientsOf(clients) && toClose[k] !in ClientsOf(after)
    {
      var (d, i) := paths[k];
      assert Has(clients, d, i);
    }
  }

  /**
   * The first pass of a sweep: the paths of every entry older than
   * `clientOvertime` at `now`, each once, beside the client stored there.
   * The order of the paths is left open.
   */
  method CollectOvertime(clients: Clients, now: int, clientOvertime: int)
    returns (paths: seq<(string, string)>, toClose: seq<Client>)
    ensures |paths| == |toClose|
    ensures forall k :: 0 <= k < |paths| ==>
              Has(clients, paths[k].0, paths[k].1)
              && Overtime(clients[paths[k].0][paths[k].1], now, clientOvertime)
              && toClose[k] == clients[paths[k].0][paths[k].1].client
    ensures forall d, i :: Has(clients, d, i) && Overtime(clients[d][i], now, clientOvertime) ==> (d, i) in paths
    ensures forall k, l :: 0 <= k < l < |paths| ==> paths[k] != paths[l]
  {
    paths, toClose := [], [];
    var outer := clients.Keys;
    while outer != {}
      invariant outer <= clients.Keys
      invariant |paths| == |toClose|
      invariant forall k :: 0 <= k < |paths| ==>
                  paths[k].0 !in outer && Has(clients, paths[k].0, paths[k].1)
                  && Overtime(clients[paths[k].0][paths[k].1], now, clientOvertime)
                  && toClose[k] == clients[paths[k].0][paths[k].1].client
      invariant forall d, i :: d !in outer && Has(clients, d, i) && Overtime(clients[d][i], now, clientOvertime)
                  ==> (d, i) in paths
      invariant forall k, l :: 0 <= k < l < |paths| ==> paths[k] != paths[l]
      decreases outer
    {
      var d :| d in outer;
      var inner := clients[d].Keys;
      while inner != {}
        invariant inner <= clients[d].Keys
        invariant |paths| == |toClose|
        invariant forall k :: 0 <= k < |paths| ==>
                    (paths[k].0 !in outer || (paths[k].0 == d && paths[k].1 !in inner))
                    && Has(clients, paths[k].0, paths[k].1)
                    && Overtime(clients[paths[k].0][paths[k].1], now, clientOvertime)
                    && toClose[k] == clients[paths[k].0][paths[k].1].client
        invariant forall d', i :: (d' !in outer || (d' == d && i !in inner))
                    && Has(clients, d', i) && Overtime(clients[d'][i], now, clientOvertime)
                    ==> (d', i) in paths
        invariant forall k, l :: 0 <= k < l < |paths| ==> paths[k] != paths[l]
        decreases inner
      {
        var i :| i in inner;
        var value := clients[d][i];
        if now - value.created > clientOvertime {
          paths := paths + [(d, i)];
          toClose := toClose + [value.client];
        }
        inner := inner - {i};
      }
      outer := outer - {d};
    }
  }

  /** The loop that starts one close task per collected client, and the
      task group's outcome: it raises exactly when some close raises. */
  method CloseGroupFails(toClose: seq<Client>, closeOk: Client -> bool) returns (failed: bool)
    ensures failed <==> exists k :: 0 <= k < |toClose| && !closeOk(toClose[k])
  {
    failed := false;
    var k := 0;
    while k < |toClose|
      invariant 0 <= k <= |toClose|
      invariant failed <==> exists j :: 0 <= j < k && !closeOk(toClose[j])
    {
      if !closeOk(toClose[k]) {
        failed := true;
      }
      k := k + 1;
    }
  }

  /** The manager of one surface's clients. */
  class ClientManager {
    var clients: Clients
    /** Seconds between sweeps; read from configuration. */
    const overtimeCheckTime: int
    /** Largest age, in seconds, a stored client may reach and survive a sweep. */
    const clientOvertime: int
    /** The number the next opened client will carry. */
    var nextClient: nat
    /** Whether a next sweep cycle is scheduled. */
    var sweeping: bool

    ghost predicate Valid()
      reads this
    {
      Distinct(clients) && Below(clients, nextClient)
    }

    /** A manager with an empty dictionary, the two configured durations,
        and its first sweep scheduled. */
    constructor (overtimeCheckTime: int, clientOvertime: int)
      ensures Valid()
      ensures clients == map[] && nextClient == 0 && sweeping
      ensures this.overtimeCheckTime == overtimeCheckTime && this.clientOvertime == clientOvertime
    {
      clients := map[];
      nextClient := 0;
      sweeping := true;
      this.overtimeCheckTime := overtimeCheckTime;
      this.clientOvertime := clientOvertime;
    }

    /**
     * Opens a fresh client, awaits `login` on it once and, only if that
     * returns, stores the client under (description, id) with `finish`,
     * the second read from the clock after login returned. If login raises, the exception is the result
     * and the dictionary is untouched. `loginCalls` lists the clients
     * login was awaited on.
     */
    method LaunchNewClient<E>(description: string, id: string, login: Client -> LoginOutcome<E>, finish: int)
      returns (r: Result<Client, E>, loginCalls: seq<Client>)
      requires Valid()
      modifies this
      ensures Valid() && sweeping == old(sweeping)
      ensures loginCalls == [Client(old(nextClient))] && nextClient == old(nextClient) + 1
      ensures login(loginCalls[0]).LoggedIn? ==>
                r == Ok(loginCalls[0]) && clients == Launched(old(clients), description, id, loginCalls[0], finish)
      ensures login(loginCalls[0]).LoginFailed? ==>
                r == Err(login(loginCalls[0]).error) && clients == old(clients)
    {
      var client := Client(nextClient);
      nextClient := nextClient + 1;
      loginCalls := [client];
      var outcome := login(client);
      if outcome.LoginFailed? {
        return Err(outcome.error), loginCalls;
      }
      var old_clients := clients;
      LaunchedKeepsInvariant(old_clients, description, id, client.id, finish);
      if description !in clients {
        clients := clients[description := map[]];
      }
      clients := clients[description := clients[description][id := Entry(client, finish)]];
      assert clients == Launched(old_clients, description, id, client, finish);
      r := Ok(client);
    }

    /**
     * The stored client for (description, id) when there is one, without
     * awaiting login and without touching the dictionary (so its stored
     * time stays the time it was created); otherwise LaunchNewClient.
     */
    method Acquire<E>(description: string, id: string, login: Client -> LoginOutcome<E>, finish: int)
      returns (r: Result<Client, E>, loginCalls: seq<Client>)
      requires Valid()
      modifies this
      ensures Valid() && sweeping == old(sweeping)
      ensures Has(old(clients), description, id) ==>
                r == Ok(old(clients)[description][id].client) && loginCalls == []
                && clients == old(clients) && nextClient == old(nextClient)
      ensures !Has(old(clients), description, id) ==>
                loginCalls == [Client(old(nextClient))] && nextClient == old(nextClient) + 1
                && (login(loginCalls[0]).LoggedIn? ==>
                      r == Ok(loginCalls[0]) && clients == Launched(old(clients), description, id, loginCalls[0], finish))
                && (login(loginCalls[0]).LoginFailed? ==>
                      r == Err(login(loginCalls[0]).error) && clients == old(clients))
    {
      if description in clients && id in clients[description] {
        return Ok(clients[description][id].client), [];
      }
      r, loginCalls := LaunchNewClient(description, id, login, finish);
    }

    /**
     * One scheduled cycle of the sweep at `now`: collects the overtime
     * entries, closes their clients in one task group (`closed` lists the
     * close calls, `closeOk` tells which of them return), then pops each
     * collected path and schedules the next cycle. Each overtime client is
     * closed once and no surviving client is closed. When a close raises,
     * the task group raises: `failed` is set, no path is popped and no
     * further cycle is scheduled.
     */
    method RemoveOvertimeClient(now: int, closeOk: Client -> bool) returns (closed: seq<Client>, failed: bool)
      requires Valid() && sweeping
      modifies this
      ensures Valid() && nextClient == old(nextClient)
      ensures failed <==> exists k :: 0 <= k < |closed| && !closeOk(closed[k])
      ensures !failed ==> clients == Swept(old(clients), now, clientOvertime) && sweeping
      ensures failed ==> clients == old(clients) && !sweeping
      ensures forall d, i :: Has(old(clients), d, i) && Overtime(old(clients)[d][i], now, clientOvertime)
                ==> old(clients)[d][i].client in closed
      ensures forall k :: 0 <= k < |closed| ==>
                closed[k] in ClientsOf(old(clients)) && (!failed ==> closed[k] !in ClientsOf(clients))
      ensures forall c :: c in closed ==>
                exists d, i :: Has(old(clients), d, i) && Overtime(old(clients)[d][i], now, clientOvertime)
                               && old(clients)[d][i].client == c
      ensures forall k, l :: 0 <= k < l < |closed| ==> closed[k] != closed[l]
    {
      var paths, toClose := CollectOvertime(clients, now, clientOvertime);
      closed := toClose;
      CollectedAreOvertime(clients, now, clientOvertime, paths, toClose);
      ClosedAreRemoved(clients, now, clientOvertime, paths, toClose);
      failed := CloseGroupFails(toClose, closeOk);
      if failed {
        sweeping := false;
        return;
      }
      SweptKeepsInvariant(clients, now, clientOvertime, nextClient);
      PopPaths(now, paths);
    }

    /** The second pass of a sweep at `now`: pops every collected path,
        given that the paths are exactly those of the overtime entries. */
    method PopPaths(now: int, paths: seq<(string, string)>)
      requires forall k :: 0 <= k < |paths| ==>
                 Has(clients, paths[k].0, paths[k].1) && Overtime(clients[paths[k].0][paths[k].1], now, clientOvertime)
      requires forall d, i :: Has(clients, d, i) && Overtime(clients[d][i], now, clientOvertime) ==> (d, i) in paths
      modifies this
      ensures clients == Swept(old(clients), now, clientOvertime)
      ensures nextClient == old(nextClient) && sweeping == old(sweeping)
    {
      ghost var before := clients;
      ghost var popped: set<(string, string)> := {};
      var k := 0;
      while k < |paths|
        invariant 0 <= k <= |paths|
        invariant PoppedFrom(clients, before, popped)
        invariant forall p :: p in popped <==> p in paths[..k]
        invariant nextClient == old(nextClient) && sweeping == old(sweeping)
      {
        var (d, i) := paths[k];
        PopStep(clients, before, popped, d, i);
        assert paths[..k + 1] == paths[..k] + [(d, i)];
        clients := clients[d := clients[d] - {i}];
        popped := popped + {(d, i)};
        k := k + 1;
      }
      assert paths[..k] == paths;
      PoppedIsSwept(clients, before, popped, now, clientOvertime);
    }
  }

  /**
   * Two acquires of one key with a login that succeeds: one login call,
   * the same client both times, and the stored time stays that of the
   * first call.
   */
  method HitKeepsCreationTime(description: string, id: string, login: Client -> LoginOutcome<string>,
                              first: int, second: int)
    returns (r1: Result<Client, string>, r2: Result<Client, string>, logins: nat, stored: int)
    requires login(Client(0)).LoggedIn?
    ensures r1 == r2 == Ok(Client(0)) && logins == 1 && stored == first
  {
    var m := new ClientManager(60, 600);
    var calls1, calls2;
    r1, calls1 := m.Acquire(description, id, login, first);
    r2, calls2 := m.Acquire(description, id, login, second);
    logins := |calls1| + |calls2|;
    stored := m.clients[description][id].created;
  }
}
