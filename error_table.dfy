/**
 * The table that classifies the portal client's exceptions
 * (utils/handleMycquError.py): every exception kind is paired with the
 * message shown to the user and a flag handed to the RPC error handler.
 */
module ErrorTable {
  import opened Wrappers

  /** The exception kinds of the portal client that the table lists
      (InvaildCaptcha keeps the library's own spelling). */
  datatype ErrorKind =
    | CQUWebsiteError
    | NotAllowedService
    | NeedCaptcha
    | InvaildCaptcha
    | IncorrectLoginCredentials
    | TicketGetError
    | ParseError
    | UnknownAuthserverException
    | NotLogined
    | MultiSessionConflict
    | MycquUnauthorized
    | InvalidRoom

  /** One row of the table: exception kind, user message, flag. */
  datatype Entry = Entry(kind: ErrorKind, message: string, flag: bool)

  /** The table, in the source's order. */
  const ErrorInfo: seq<Entry> := [
    Entry(CQUWebsiteError, "学校网站异常，请稍后重试", false),
    Entry(NotAllowedService, "无权访问学校该服务", false),
    Entry(NeedCaptcha, "需要验证码，请前往教务网登陆后重试", true),
    Entry(InvaildCaptcha, "无效的验证码", false),
    Entry(IncorrectLoginCredentials, "用户名或密码错误", true),
    Entry(TicketGetError, "无法获取ticket", false),
    Entry(ParseError, "无法解析数据", false),
    Entry(UnknownAuthserverException, "登陆/认证过程中发生未知错误", false),
    Entry(NotLogined, "用户未登陆", false),
    Entry(MultiSessionConflict, "启用了单点登陆，请关闭后重试", false),
    Entry(MycquUnauthorized, "未获取认证或认证过期", false),
    Entry(InvalidRoom, "无效的教室名", false)
  ]

  /** The first row of `table` whose kind is `kind`, scanning in order. */
  function Find(table: seq<Entry>, kind: ErrorKind): (r: Option<Entry>)
    ensures r.None? <==> forall i :: 0 <= i < |table| ==> table[i].kind != kind
    ensures r.Some? ==> exists i :: 0 <= i < |table| && table[i] == r.value && r.value.kind == kind
                                    && forall j :: 0 <= j < i ==> table[j].kind != kind
  {
    if table == [] then None
    else if table[0].kind == kind then Some(table[0])
    else
      var rest := Find(table[1..], kind);
      if rest.Some? then
        ghost var i :| 0 <= i < |table[1..]| && table[1..][i] == rest.value && rest.value.kind == kind
                      && forall j :: 0 <= j < i ==> table[1..][j].kind != kind;
        assert table[i + 1] == rest.value;
        rest
      else rest
  }

  /** The number of rows whose flag is set. */
  function FlagCount(table: seq<Entry>): (n: nat)
    ensures n <= |table|
  {
    if table == [] then 0 else (if table[0].flag then 1 else 0) + FlagCount(table[1..])
  }

  /** The position of `kind` in ErrorInfo. */
  function KindIndex(kind: ErrorKind): (i: nat)
    ensures i < |ErrorInfo| && ErrorInfo[i].kind == kind
  {
    match kind
    case CQUWebsiteError => 0
    case NotAllowedService => 1
    case NeedCaptcha => 2
    case InvaildCaptcha => 3
    case IncorrectLoginCredentials => 4
    case TicketGetError => 5
    case ParseError => 6
    case UnknownAuthserverException => 7
    case NotLogined => 8
    case MultiSessionConflict => 9
    case MycquUnauthorized => 10
    case InvalidRoom => 11
  }

  /** The row of ErrorInfo that classifies `kind`. */
  function Info(kind: ErrorKind): (e: Entry)
    ensures e in ErrorInfo && e.kind == kind
  {
    ErrorInfo[KindIndex(kind)]
  }

  /** The table has twelve rows, no kind twice and no message twice. */
  lemma ErrorInfoIsATable()
    ensures |ErrorInfo| == 12
    ensures forall i, j :: 0 <= i < j < |ErrorInfo| ==> ErrorInfo[i].kind != ErrorInfo[j].kind
    ensures forall i, j :: 0 <= i < j < |ErrorInfo| ==> ErrorInfo[i].message != ErrorInfo[j].message
  {
  }

  /** In a table with no kind twice, scanning for the kind of row `k` finds row `k`. */
  lemma {:induction false} FindDistinct(table: seq<Entry>, k: nat)
    requires k < |table|
    requires forall i, j :: 0 <= i < j < |table| ==> table[i].kind != table[j].kind
    ensures Find(table, table[k].kind) == Some(table[k])
  {
    var r := Find(table, table[k].kind);
    assert r.Some?;
    var i :| 0 <= i < |table| && table[i] == r.value && r.value.kind == table[k].kind;
    assert !(i < k) && !(k < i);
  }

  /** Scanning ERROR_INFO in order for any kind finds a row, and finds the
      one Info names. */
  lemma FindAgreesWithInfo(kind: ErrorKind)
    ensures Find(ErrorInfo, kind) == Some(Info(kind))
  {
    ErrorInfoIsATable();
    FindDistinct(ErrorInfo, KindIndex(kind));
  }

  /** Exactly two rows carry the flag: NeedCaptcha and IncorrectLoginCredentials. */
  lemma FlaggedKinds(kind: ErrorKind)
    ensures Info(kind).flag <==> kind == NeedCaptcha || kind == IncorrectLoginCredentials
  {
  }

  /** Two rows of the twelve are flagged. */
  lemma {:induction false} TwoFlagged()
    ensures FlagCount(ErrorInfo) == 2
  {
    var t := ErrorInfo;
    assert FlagCount(t[12..]) == 0;
    assert FlagCount(t[11..]) == 0;
    assert FlagCount(t[10..]) == 0;
    assert FlagCount(t[9..]) == 0;
    assert FlagCount(t[8..]) == 0;
    assert FlagCount(t[7..]) == 0;
    assert FlagCount(t[6..]) == 0;
    assert FlagCount(t[5..]) == 0;
    assert FlagCount(t[4..]) == 1;
    assert FlagCount(t[3..]) == 1;
    assert FlagCount(t[2..]) == 2;
    assert FlagCount(t[1..]) == 2;
    assert t[0..] == t;
  }

  /** The rows the source singles out. */
  lemma NamedRows()
    ensures Info(IncorrectLoginCredentials) == Entry(IncorrectLoginCredentials, "用户名或密码错误", true)
    ensures Info(NeedCaptcha) == Entry(NeedCaptcha, "需要验证码，请前往教务网登陆后重试", true)
    ensures Info(InvalidRoom) == Entry(InvalidRoom, "无效的教室名", false)
  {
  }
}
