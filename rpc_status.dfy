/**
 * The Rust service's error mapping (src/main.rs): portal API errors and
 * login results become gRPC statuses, and login followed by access yields
 * a session or the first failure.
 */
module RpcStatus {
  import opened Wrappers

  /** The gRPC status codes the service produces. */
  datatype Code = Unauthenticated | Internal | Unavailable

  datatype Status = Status(code: Code, message: string)

  /** The eight errors of the portal API. The payloads the conversion
      ignores are kept as text. */
  datatype ApiError =
    | NotLogin
    | NotAccess
    | Request(source: string)
    | ModelParse(source: string)
    | Website(msg: string)
    | Inner(source: string)
    | Whatever(source: string)
    | Session(source: string)

  /** What single sign-on reports when the request itself succeeded. */
  datatype LoginResult = Success | IncorrectLoginCredentials

  const NotLoginMessage: string := "登录失败，请检查用户名或密码"
  const NotAccessMessage: string := "获取教务网访问权限失败，请稍后重试"
  const RequestMessage: string := "教务网请求发送失败，请稍后重试，长时间出现请联系管理员员"
  const ModelParseMessage: string := "教务网响应解析失败，请稍后重试，长时间出现请联系管理员"
  const WebsitePrefix: string := "教务网异常："
  const InnerMessage: string := "内部异常，请联系管理员"

  /** PROXY_CLIENT_GET_ERROR in src/utils.rs. */
  const ProxyClientGetError: Status := Status(Internal, "Failed to get proxied client")

  /** `into_status`: total over the eight variants. Login and access
      failures are Unauthenticated, a website error is Unavailable and
      carries the portal's text after a fixed prefix, everything else is
      Internal; the three inner errors share one message. */
  function IntoStatus(e: ApiError): (s: Status)
    ensures s.code == Unauthenticated <==> e.NotLogin? || e.NotAccess?
    ensures s.code == Unavailable <==> e.Website?
    ensures s.code == Internal <==> e.Request? || e.ModelParse? || e.Inner? || e.Whatever? || e.Session?
    ensures e.Website? ==> s.message == WebsitePrefix + e.msg
    ensures e.Inner? || e.Whatever? || e.Session? ==> s.message == InnerMessage
  {
    match e
    case NotLogin => Status(Unauthenticated, NotLoginMessage)
    case NotAccess => Status(Unauthenticated, NotAccessMessage)
    case Request(_) => Status(Internal, RequestMessage)
    case ModelParse(_) => Status(Internal, ModelParseMessage)
    case Website(msg) => Status(Unavailable, WebsitePrefix + msg)
    case Inner(_) => Status(Internal, InnerMessage)
    case Whatever(_) => Status(Internal, InnerMessage)
    case Session(_) => Status(Internal, InnerMessage)
  }

  /** The errors the conversion does not tell apart: the same variant for
      the fixed-message ones, the same text for website errors, and the
      three inner errors with one another. */
  predicate SameStatusClass(a: ApiError, b: ApiError)
  {
    || (a.NotLogin? && b.NotLogin?)
    || (a.NotAccess? && b.NotAccess?)
    || (a.Request? && b.Request?)
    || (a.ModelParse? && b.ModelParse?)
    || (a.Website? && b.Website? && a.msg == b.msg)
    || ((a.Inner? || a.Whatever? || a.Session?) && (b.Inner? || b.Whatever? || b.Session?))
  }

  /** Two errors give the same status exactly when they are in the same class. */
  lemma IntoStatusDistinguishes(a: ApiError, b: ApiError)
    ensures IntoStatus(a) == IntoStatus(b) <==> SameStatusClass(a, b)
  {
    if a.Website? && b.Website? && IntoStatus(a) == IntoStatus(b) {
      assert a.msg == (WebsitePrefix + a.msg)[|WebsitePrefix|..];
      assert b.msg == (WebsitePrefix + b.msg)[|WebsitePrefix|..];
    }
  }

  /** The portal's text inside an Unavailable status made by IntoStatus. */
  function WebsiteText(s: Status): Option<string>
  {
    if s.code == Unavailable && |WebsitePrefix| <= |s.message| && s.message[..|WebsitePrefix|] == WebsitePrefix
    then Some(s.message[|WebsitePrefix|..])
    else None
  }

  /** The website text survives the conversion verbatim, and only website
      errors yield any. */
  lemma WebsiteTextRoundTrip(e: ApiError)
    ensures WebsiteText(IntoStatus(e)) == if e.Website? then Some(e.msg) else None
  {
    if e.Website? {
      assert (WebsitePrefix + e.msg)[..|WebsitePrefix|] == WebsitePrefix;
      assert (WebsitePrefix + e.msg)[|WebsitePrefix|..] == e.msg;
    }
  }

  /**
   * login_sso: with a proxied client `proxy` (none when the provider has
   * none, a failure that stops before any login attempt), runs single
   * sign-on through `sso`, which gives the logged-in session and what the
   * portal reported. A request error becomes its status; incorrect
   * credentials become the same status as NotLogin.
   */
  function LoginSso<P, S>(proxy: Option<P>, sso: P -> Result<(S, LoginResult), ApiError>): (r: Result<S, Status>)
    ensures proxy.None? ==> r == Err(ProxyClientGetError)
    ensures proxy.Some? ==>
              match sso(proxy.value)
              case Err(e) => r == Err(IntoStatus(e))
              case Ok((session, Success)) => r == Ok(session)
              case Ok((_, IncorrectLoginCredentials)) => r == Err(IntoStatus(NotLogin))
  {
    match proxy
    case None => Err(ProxyClientGetError)
    case Some(client) =>
      match sso(client)
      case Err(e) => Err(IntoStatus(e))
      case Ok((session, result)) =>
        match result
        case Success => Ok(session)
        case IncorrectLoginCredentials => Err(Status(Unauthenticated, "登录失败，请检查用户名或密码"))
  }

  /** Incorrect credentials surface exactly like a NotLogin error. */
  lemma IncorrectCredentialsLikeNotLogin<P, S>(client: P, session: S)
    ensures LoginSso(Some(client), (_: P) => Ok((session, IncorrectLoginCredentials))) ==
            LoginSso(Some(client), (_: P) => Err(NotLogin))
  {
  }

  /**
   * login_and_access: the session of a successful login, updated by
   * `access`; a failed login is the result as it is, and access is never
   * consulted; a failed access yields no session.
   */
  function LoginAndAccess<S>(login: Result<S, Status>, access: S -> Result<S, Status>): (r: Result<S, Status>)
    ensures login.Err? ==> r == login
    ensures login.Ok? ==> r == access(login.value)
  {
    match login
    case Err(e) => Err(e)
    case Ok(session) =>
      match access(session)
      case Err(e) => Err(e)
      case Ok(accessed) => Ok(accessed)
  }

  /** Whatever access would do, a failed login gives the same result. */
  lemma LoginFailureSkipsAccess<S>(login: Result<S, Status>, access1: S -> Result<S, Status>, access2: S -> Result<S, Status>)
    requires login.Err?
    ensures LoginAndAccess(login, access1) == LoginAndAccess(login, access2) == Err(login.error)
  {
  }
}
