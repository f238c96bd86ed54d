/**
 * get_authorized_session (src/main.rs): logged-in portal sessions are
 * shared per account through a cached request coalescer; a session is
 * reused for 300 seconds and a failed login is never kept.
 */
module AuthorizedSession {
  import opened Wrappers
  import RpcStatus
  import opened Expiring
  import opened Coalescing
  import ProxyProvider

  /** How long a logged-in session is reused, in seconds. */
  const SessionTtl: nat := 300

  /** A portal session, known by identity only. */
  datatype Session = Session(handle: nat)

  /** BaseLoginInfo: the account name and its password. */
  datatype LoginInfo = LoginInfo(auth: string, password: string)

  type SessionResult = Result<Session, RpcStatus.Status>

  /** What signing in through `proxy` with `info` returns: `sso` is the
      portal's single sign-on and `access` the service's own access step. */
  function LoginResultFor(info: LoginInfo, proxy: Option<ProxyProvider.ProxiedClient>,
                          sso: (ProxyProvider.ProxiedClient, LoginInfo) -> Result<(Session, RpcStatus.LoginResult), RpcStatus.ApiError>,
                          access: Session -> SessionResult): (r: SessionResult)
    ensures proxy.None? ==> r == Err(RpcStatus.ProxyClientGetError)
    ensures r.Ok? ==> proxy.Some? && sso(proxy.value, info).Ok? && sso(proxy.value, info).value.1 == RpcStatus.Success
                      && r == access(sso(proxy.value, info).value.0)
  {
    RpcStatus.LoginAndAccess(RpcStatus.LoginSso(proxy, (c: ProxyProvider.ProxiedClient) => sso(c, info)), access)
  }

  class Service {
    const requests: CachedCoalescer<string, SessionResult>

    /** Between calls nothing is in flight and only sessions are cached. */
    ghost predicate Valid()
      reads this, requests, requests.coalescer, requests.cache
    {
      && requests.Valid()
      && requests.coalescer.ongoing == map[]
      && forall a | a in requests.cache.inner :: requests.cache.inner[a].value.Ok?
    }

    constructor ()
      ensures Valid() && fresh(requests) && fresh(requests.cache) && fresh(requests.coalescer)
      ensures requests.cache.inner == map[]
    {
      requests := new CachedCoalescer<string, SessionResult>();
    }

    /**
     * get_authorized_session at `now`, the login finishing at `finish`.
     * The cache is keyed by the account name alone: a live entry is
     * returned without signing in; otherwise the login runs, a session is
     * kept until `finish + SessionTtl`, and a failure is returned and
     * leaves no entry for the account. `loggedIn` tells whether the login
     * ran.
     */
    method GetAuthorizedSession(info: LoginInfo, proxy: Option<ProxyProvider.ProxiedClient>,
                                sso: (ProxyProvider.ProxiedClient, LoginInfo) -> Result<(Session, RpcStatus.LoginResult), RpcStatus.ApiError>,
                                access: Session -> SessionResult, now: int, finish: int)
      returns (r: SessionResult, loggedIn: bool)
      requires Valid()
      modifies requests.cache, requests.coalescer
      ensures Valid()
      ensures Live(old(requests.cache.inner), info.auth, now).Some? ==>
                r == Live(old(requests.cache.inner), info.auth, now).value && !loggedIn
                && requests.cache.inner == old(requests.cache.inner)
      ensures Live(old(requests.cache.inner), info.auth, now).None? ==>
                r == LoginResultFor(info, proxy, sso, access) && loggedIn
                && requests.cache.inner == if r.Ok? then old(requests.cache.inner)[info.auth := Slot(r, finish + SessionTtl)]
                                           else old(requests.cache.inner) - {info.auth}
      ensures r.Err? ==> info.auth !in requests.cache.inner
    {
      var c;
      c, loggedIn := requests.Execute(info.auth, () => LoginResultFor(info, proxy, sso, access), SessionTtl, now, finish);
      match c {
        case Done(v) =>
          r := v;
        case Waiting(_) =>
          assert false;
      }
      if r.Err? {
        requests.CleanCache(info.auth);
      }
    }
  }

  /** Within the session lifetime a second request for the same account is
      served from the cache, whatever password it carries. */
  method SecondRequestReusesSession(auth: string, password1: string, password2: string,
                                    proxy: Option<ProxyProvider.ProxiedClient>,
                                    sso: (ProxyProvider.ProxiedClient, LoginInfo) -> Result<(Session, RpcStatus.LoginResult), RpcStatus.ApiError>,
                                    access: Session -> SessionResult, t: int, later: int)
    returns (r1: SessionResult, r2: SessionResult, loggedIn2: bool)
    requires t <= later < t + SessionTtl
    requires LoginResultFor(LoginInfo(auth, password1), proxy, sso, access).Ok?
    ensures r1 == LoginResultFor(LoginInfo(auth, password1), proxy, sso, access)
    ensures r2 == r1 && !loggedIn2
  {
    var service := new Service();
    var loggedIn1;
    r1, loggedIn1 := service.GetAuthorizedSession(LoginInfo(auth, password1), proxy, sso, access, t, t);
    r2, loggedIn2 := service.GetAuthorizedSession(LoginInfo(auth, password2), proxy, sso, access, later, later);
  }

  /** A failed login is not remembered: the next request signs in again. */
  method FailureIsRetried(info: LoginInfo, proxy: Option<ProxyProvider.ProxiedClient>,
                          sso: (ProxyProvider.ProxiedClient, LoginInfo) -> Result<(Session, RpcStatus.LoginResult), RpcStatus.ApiError>,
                          access: Session -> SessionResult, t: int, later: int)
    returns (r1: SessionResult, r2: SessionResult, loggedIn2: bool)
    requires LoginResultFor(info, proxy, sso, access).Err?
    ensures r1.Err? && r2 == r1 && loggedIn2
  {
    var service := new Service();
    var loggedIn1;
    r1, loggedIn1 := service.GetAuthorizedSession(info, proxy, sso, access, t, t);
    r2, loggedIn2 := service.GetAuthorizedSession(info, proxy, sso, access, later, later);
  }

  /** Once the lifetime has passed the account signs in again. */
  method ExpiredSessionSignsInAgain(info: LoginInfo, proxy: Option<ProxyProvider.ProxiedClient>,
                                    sso: (ProxyProvider.ProxiedClient, LoginInfo) -> Result<(Session, RpcStatus.LoginResult), RpcStatus.ApiError>,
                                    access: Session -> SessionResult, t: int, later: int)
    returns (r2: SessionResult, loggedIn2: bool)
    requires t + SessionTtl <= later
    ensures r2 == LoginResultFor(info, proxy, sso, access) && loggedIn2
  {
    var service := new Service();
    var r1, loggedIn1 := service.GetAuthorizedSession(info, proxy, sso, access, t, t);
    r2, loggedIn2 := service.GetAuthorizedSession(info, proxy, sso, access, later, later);
  }
}
