/**
 * The proxied client provider of src/utils.rs: a cache of HTTP clients,
 * one per proxy fetched from a proxy API, with the instant at which the
 * list must be fetched again. The HTTP fetch, the environment variables
 * and the construction of a proxied client are parameters.
 */
module ProxyProvider {
  import opened Wrappers
  import opened RustStr

  /** A portal HTTP client routed through one proxy (opaque). */
  datatype ProxiedClient = ProxiedClient(handle: nat)

  /** The proxy account read from PROXY_USERNAME and PROXY_PASSWORD. */
  datatype Credentials = Credentials(username: string, password: string)

  /** Builds the client for a proxy URL with basic authentication; may fail
      with the message the source formats. */
  type Builder = (string, Credentials) -> Result<ProxiedClient, string>

  const NoProxiesFetched: string := "No proxies fetched from API"
  const NoValidProxies: string := "Failed to parse any valid proxies from API response"

  /** Whether the cache must be refreshed at `now`: its instant has come, or
      it holds no client. */
  predicate NeedsRefresh(clients: seq<ProxiedClient>, expiresAt: int, now: int)
  {
    now >= expiresAt || |clients| == 0
  }

  /** One item of the proxy list, "ip:port,seconds": accepted when it splits
      on ',' into exactly two parts and the trimmed second part is a u64;
      gives the trimmed first part and that number. */
  function ParseItem(item: string): (r: Option<(string, nat)>)
    ensures r.Some? ==> Count(item, ',') == 1 && r.value.1 <= U64Max
  {
    SplitShape(item, ',');
    var parts := Split(item, ',');
    if |parts| != 2 then None
    else match ParseU64(Trim(parts[1]))
      case None => None
      case Some(expire) => Some((Trim(parts[0]), expire))
  }

  /** The accepted items of `list`, in order. */
  function Accepted(list: seq<string>): (acc: seq<(string, nat)>)
    ensures |acc| <= |list|
  {
    if list == [] then []
    else
      var last := ParseItem(list[|list| - 1]);
      Accepted(list[..|list| - 1]) + (if last.Some? then [last.value] else [])
  }

  /** The smallest expiry among `acc`, starting from U64Max. */
  function MinExpire(acc: seq<(string, nat)>): (m: nat)
    ensures m <= U64Max
    ensures forall k :: 0 <= k < |acc| ==> m <= acc[k].1
  {
    if acc == [] then U64Max
    else
      var rest := MinExpire(acc[..|acc| - 1]);
      var e := acc[|acc| - 1].1;
      if e < rest then e else rest
  }

  /** Every accepted expiry is a u64. */
  lemma {:induction false} AcceptedBounded(list: seq<string>)
    ensures forall k :: 0 <= k < |Accepted(list)| ==> Accepted(list)[k].1 <= U64Max
  {
    if list != [] {
      AcceptedBounded(list[..|list| - 1]);
    }
  }

  /** Among u64 expiries the minimum is one of them, so `min_expire` is the
      expiry of some accepted proxy whenever one is accepted. */
  lemma {:induction false} MinExpireAttained(acc: seq<(string, nat)>)
    requires |acc| > 0
    requires forall k :: 0 <= k < |acc| ==> acc[k].1 <= U64Max
    ensures exists k :: 0 <= k < |acc| && MinExpire(acc) == acc[k].1
  {
    var p := acc[..|acc| - 1];
    var last := |acc| - 1;
    if |p| == 0 {
      assert MinExpire(acc) == acc[last].1;
    } else {
      MinExpireAttained(p);
      var k :| 0 <= k < |p| && MinExpire(p) == p[k].1;
      if acc[last].1 < MinExpire(p) {
        assert MinExpire(acc) == acc[last].1;
      } else {
        assert MinExpire(acc) == acc[k].1;
      }
    }
  }

  /** The clients for `acc`, built in order; the first failure is the result. */
  function BuildAll(acc: seq<(string, nat)>, credentials: Credentials, build: Builder): (r: Result<seq<ProxiedClient>, string>)
    ensures r.Ok? ==> |r.value| == |acc|
  {
    if acc == [] then Ok([])
    else match BuildAll(acc[..|acc| - 1], credentials, build)
      case Err(e) => Err(e)
      case Ok(cs) =>
        match build("http://" + acc[|acc| - 1].0, credentials)
        case Err(e) => Err(e)
        case Ok(c) => Ok(cs + [c])
  }

  /** `min_expire.saturating_sub(10).max(10)`. */
  function Ttl(minExpire: nat): (ttl: nat)
    ensures ttl >= 10
    ensures minExpire >= 20 ==> ttl + 10 == minExpire
    ensures minExpire < 20 ==> ttl == 10
  {
    var less := if minExpire >= 10 then minExpire - 10 else 0;
    if less > 10 then less else 10
  }

  /** What refresh_clients does with a fetched list: the new clients and
      expiry instant, or the error that leaves the cache as it was.
      `fetched` is the outcome of the environment reads, the HTTP call and
      the JSON decoding; `credentials` that of the proxy account reads;
      `finish` is the instant read once the clients are built. */
  function Refreshed(fetched: Result<seq<string>, string>, credentials: Result<Credentials, string>,
                     build: Builder, finish: int): (r: Result<(seq<ProxiedClient>, int), string>)
    ensures fetched.Err? ==> r == Err(fetched.error)
    ensures fetched.Ok? && fetched.value != [] && credentials.Err? ==> r == Err(credentials.error)
    ensures r.Ok? ==> |r.value.0| > 0 && r.value.1 >= finish + 10
  {
    match fetched
    case Err(e) => Err(e)
    case Ok(list) =>
      if list == [] then Err(NoProxiesFetched)
      else match credentials
        case Err(e) => Err(e)
        case Ok(cred) =>
          var acc := Accepted(list);
          match BuildAll(acc, cred, build)
          case Err(e) => Err(e)
          case Ok(cs) => if cs == [] then Err(NoValidProxies) else Ok((cs, finish + Ttl(MinExpire(acc))))
  }

  /** Accepting commutes with appending lists. */
  lemma {:induction false} AcceptedAppend(a: seq<string>, b: seq<string>)
    ensures Accepted(a + b) == Accepted(a) + Accepted(b)
  {
    if b == [] {
      assert a + b == a;
    } else {
      AcceptedAppend(a, b[..|b| - 1]);
      assert (a + b)[..|a + b| - 1] == a + b[..|b| - 1];
      assert (a + b)[|a + b| - 1] == b[|b| - 1];
    }
  }

  /** Once a build has failed, later items do not change the outcome. */
  lemma {:induction false} BuildAllErrSticks(a: seq<(string, nat)>, b: seq<(string, nat)>, credentials: Credentials, build: Builder)
    requires BuildAll(a, credentials, build).Err?
    ensures BuildAll(a + b, credentials, build) == BuildAll(a, credentials, build)
  {
    if b == [] {
      assert a + b == a;
    } else {
      BuildAllErrSticks(a, b[..|b| - 1], credentials, build);
      assert (a + b)[..|a + b| - 1] == a + b[..|b| - 1];
    }
  }

  /** Accepting one more item of the list. */
  lemma AcceptedStep(list: seq<string>, k: nat)
    requires k < |list|
    ensures Accepted(list[..k + 1]) ==
              Accepted(list[..k]) + (if ParseItem(list[k]).Some? then [ParseItem(list[k]).value] else [])
  {
    assert list[..k + 1][..k] == list[..k];
  }

  /** Building one more accepted item. */
  lemma BuildAllStep(acc: seq<(string, nat)>, x: (string, nat), credentials: Credentials, build: Builder)
    requires BuildAll(acc, credentials, build).Ok?
    ensures BuildAll(acc + [x], credentials, build) ==
              match build("http://" + x.0, credentials)
              case Err(e) => Err(e)
              case Ok(c) => Ok(BuildAll(acc, credentials, build).value + [c])
  {
    assert (acc + [x])[..|acc|] == acc;
  }

  /** Lowering the minimum by one more accepted item. */
  lemma MinExpireStep(acc: seq<(string, nat)>, x: (string, nat))
    ensures MinExpire(acc + [x]) == if x.1 < MinExpire(acc) then x.1 else MinExpire(acc)
  {
    assert (acc + [x])[..|acc|] == acc;
  }

  /** A build failure at item `k` is the outcome for the whole list. */
  lemma FailedBuildEndsLoop(list: seq<string>, k: nat, credentials: Credentials, build: Builder)
    requires k < |list|
    requires BuildAll(Accepted(list[..k + 1]), credentials, build).Err?
    ensures BuildAll(Accepted(list), credentials, build) == BuildAll(Accepted(list[..k + 1]), credentials, build)
  {
    assert list == list[..k + 1] + list[k + 1..];
    AcceptedAppend(list[..k + 1], list[k + 1..]);
    BuildAllErrSticks(Accepted(list[..k + 1]), Accepted(list[k + 1..]), credentials, build);
  }

  /**
   * The loop of refresh_clients over the proxy list: every accepted item
   * lowers `min_expire` and is built into a client; the first build
   * failure ends the loop with that error.
   */
  method ParseProxies(list: seq<string>, credentials: Credentials, build: Builder)
    returns (r: Result<(seq<ProxiedClient>, nat), string>)
    ensures BuildAll(Accepted(list), credentials, build).Err? ==> r == Err(BuildAll(Accepted(list), credentials, build).error)
    ensures BuildAll(Accepted(list), credentials, build).Ok? ==>
              r == Ok((BuildAll(Accepted(list), credentials, build).value, MinExpire(Accepted(list))))
  {
    var newClients: seq<ProxiedClient> := [];
    var minExpire: nat := U64Max;
    var k := 0;
    while k < |list|
      invariant 0 <= k <= |list|
      invariant BuildAll(Accepted(list[..k]), credentials, build) == Ok(newClients)
      invariant minExpire == MinExpire(Accepted(list[..k]))
    {
      ghost var acc := Accepted(list[..k]);
      AcceptedStep(list, k);
      var accepted := ParseItem(list[k]);
      if accepted.Some? {
        var (ipPort, expire) := accepted.value;
        assert Accepted(list[..k + 1]) == acc + [(ipPort, expire)];
        MinExpireStep(acc, (ipPort, expire));
        BuildAllStep(acc, (ipPort, expire), credentials, build);
        if expire < minExpire {
          minExpire := expire;
        }
        match build("http://" + ipPort, credentials) {
          case Err(e) =>
            FailedBuildEndsLoop(list, k, credentials, build);
            return Err(e);
          case Ok(client) =>
            newClients := newClients + [client];
        }
      } else {
        assert Accepted(list[..k + 1]) == acc;
      }
      k := k + 1;
    }
    assert list[..k] == list;
    r := Ok((newClients, minExpire));
  }

  /** A successful refresh leaves a non-empty cache that does not need a
      refresh before `finish + 10`, and that expires no later than ten
      seconds before the earliest accepted proxy does (or ten seconds from
      `finish`, whichever is later). */
  lemma RefreshedIsFresh(fetched: Result<seq<string>, string>, credentials: Result<Credentials, string>,
                         build: Builder, finish: int, t: int)
    requires Refreshed(fetched, credentials, build, finish).Ok?
    requires t < finish + 10
    ensures var (cs, expiresAt) := Refreshed(fetched, credentials, build, finish).value;
            && |cs| == |Accepted(fetched.value)| > 0
            && !NeedsRefresh(cs, expiresAt, t)
            && forall k :: 0 <= k < |Accepted(fetched.value)| ==>
                 expiresAt - finish <= if Accepted(fetched.value)[k].1 >= 20 then Accepted(fetched.value)[k].1 - 10 else 10
  {
  }

  /** The refresh fails, leaving the cache alone, exactly when the fetch or
      the account read fails, the list is empty, a build fails, or no item
      is accepted. */
  lemma RefreshedFails(fetched: Result<seq<string>, string>, credentials: Result<Credentials, string>,
                       build: Builder, finish: int)
    ensures fetched.Ok? && fetched.value == [] ==> Refreshed(fetched, credentials, build, finish) == Err(NoProxiesFetched)
    ensures fetched.Ok? && fetched.value != [] && credentials.Ok? && Accepted(fetched.value) == [] ==>
              Refreshed(fetched, credentials, build, finish) == Err(NoValidProxies)
    ensures Refreshed(fetched, credentials, build, finish).Ok? <==>
              fetched.Ok? && fetched.value != [] && credentials.Ok? && Accepted(fetched.value) != []
              && BuildAll(Accepted(fetched.value), credentials.value, build).Ok?
  {
  }

  /** A well-formed item "ip:port,n" (no comma in the address, n a u64
      written in decimal) is accepted with the trimmed address and n. */
  lemma AcceptsWellFormedItem(address: string, n: nat)
    requires ',' !in address && n <= U64Max
    ensures ParseItem(address + [','] + ShowNat(n)) == Some((Trim(address), n))
  {
    ShowNatDigits(n);
    assert ',' !in ShowNat(n) by { assert forall k :: 0 <= k < |ShowNat(n)| ==> IsDigit(ShowNat(n)[k]); }
    SplitJoin([address, ShowNat(n)], ',');
    assert Join([address, ShowNat(n)], ',') == address + [','] + ShowNat(n);
    var s := ShowNat(n);
    assert !IsWhitespace(s[0]) && !IsWhitespace(s[|s| - 1]);
    TrimUnique(s, 0, |s|);
    assert s[0..|s|] == s;
    ParseShow(n);
  }

  /** A successful refresh's expiry is derived from the expiry of one of
      the accepted proxies: the earliest. */
  lemma RefreshedExpiryAttained(fetched: Result<seq<string>, string>, credentials: Result<Credentials, string>,
                                build: Builder, finish: int)
    requires Refreshed(fetched, credentials, build, finish).Ok?
    ensures exists k :: 0 <= k < |Accepted(fetched.value)| &&
              Refreshed(fetched, credentials, build, finish).value.1 == finish + Ttl(Accepted(fetched.value)[k].1)
  {
    AcceptedBounded(fetched.value);
    MinExpireAttained(Accepted(fetched.value));
  }

  /** The cache of proxied clients. */
  class ClientCache {
    var clients: seq<ProxiedClient>
    var expiresAt: int

    /** The default cache: no client, expiring at its creation instant, so
        it needs a refresh at every instant. */
    constructor Default(now: int)
      ensures clients == [] && expiresAt == now
      ensures forall t :: NeedsRefresh(clients, expiresAt, t)
    {
      clients := [];
      expiresAt := now;
    }

    /** refresh_clients: replaces the client list wholesale and sets the
        expiry to `finish`, the instant read after the fetch and the
        builds, plus the TTL; on any error changes nothing. */
    method RefreshClients(fetched: Result<seq<string>, string>, credentials: Result<Credentials, string>,
                          build: Builder, finish: int) returns (r: Result<(), string>)
      modifies this
      ensures Refreshed(fetched, credentials, build, finish).Ok? ==>
                r == Ok(()) && (clients, expiresAt) == Refreshed(fetched, credentials, build, finish).value
      ensures Refreshed(fetched, credentials, build, finish).Err? ==>
                r == Err(Refreshed(fetched, credentials, build, finish).error)
                && clients == old(clients) && expiresAt == old(expiresAt)
    {
      if fetched.Err? {
        return Err(fetched.error);
      }
      var list := fetched.value;
      if |list| == 0 {
        return Err(NoProxiesFetched);
      }
      if credentials.Err? {
        return Err(credentials.error);
      }
      var parsed := ParseProxies(list, credentials.value, build);
      if parsed.Err? {
        return Err(parsed.error);
      }
      var (newClients, minExpire) := parsed.value;
      if |newClients| == 0 {
        return Err(NoValidProxies);
      }
      var ttl := Ttl(minExpire);
      clients := newClients;
      expiresAt := finish + ttl;
      r := Ok(());
    }

    /**
     * get_random_client at `now`: refreshes when needed, the refresh
     * reading the clock at `finish` (a failed refresh is only reported,
     * and the old list stays in use), then hands out the client the random
     * `choice` picks, or none when the list is empty.
     */
    method GetRandomClient(fetched: Result<seq<string>, string>, credentials: Result<Credentials, string>,
                           build: Builder, now: int, finish: int, choice: nat) returns (r: Option<ProxiedClient>)
      modifies this
      ensures !NeedsRefresh(old(clients), old(expiresAt), now) ==>
                clients == old(clients) && expiresAt == old(expiresAt)
      ensures NeedsRefresh(old(clients), old(expiresAt), now) ==>
                if Refreshed(fetched, credentials, build, finish).Ok?
                then (clients, expiresAt) == Refreshed(fetched, credentials, build, finish).value
                else clients == old(clients) && expiresAt == old(expiresAt)
      ensures r.Some? <==> clients != []
      ensures r.Some? ==> r.value in clients
    {
      if NeedsRefresh(clients, expiresAt, now) {
        var refreshResult := RefreshClients(fetched, credentials, build, finish);
      }
      if |clients| == 0 {
        r := None;
      } else {
        r := Some(clients[choice % |clients|]);
      }
    }
  }
}
