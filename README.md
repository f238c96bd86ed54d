# Authenticated-session caches and error mapping of a campus-portal gRPC gateway

The gateway signs users in to the university portal and serves their data over
gRPC. It has two generations of session cache and two error-mapping layers, and
this project models all four in Dafny:

- **Python session store** (`SessionStore`). A `ClientManager` holds a
  two-level dictionary: surface description → user id → (HTTP client, second
  of creation).
  - `acquire` reuses a stored client. When there is none, it launches a new
    client, logs it in, and stores it.
  - A periodic sweep closes and drops every client older than the configured
    age. Clients are identified by a number the manager hands out, which
    models object identity.
- **Rust TTL map** (`Expiring`). `ExpiringDashMap` is a map of value and
  expiry instant.
  - `get` hides entries whose instant has passed.
  - `purge_expired` drops them, and so does the background sweep.
- **Rust request coalescer** (`Coalescing`). `RequestCoalescer` runs a task
  once per key for a whole flight of callers.
  - The caller that opens the flight is the leader. It runs the task and sends
    the result to every caller queued on that key.
  - `CachedCoalescer` puts an `ExpiringDashMap` in front: a live cached value
    skips the task, and otherwise the leader caches its result for a TTL.
  - The oneshot channels are modelled as numbered tickets and a map of
    delivered results.
- **Proxied client provider** (`ProxyProvider`, with the Rust string rules it
  relies on in `RustStr`). It keeps a cache of proxied HTTP clients.
  - `refresh_clients` parses the fetched proxy list. Each item is
    `ip:port,seconds`, and the cache's expiry is derived from the smallest
    `seconds`.
  - `get_random_client` refreshes the cache when it has expired or is empty.
- **gRPC status mapping and session acquisition** (`RpcStatus`,
  `AuthorizedSession`).
  - `into_status` maps the portal API's eight errors to statuses.
  - `login_sso` and `login_and_access` sign a user in. `get_authorized_session`
    shares the signed-in session per account name, for 300 seconds, through a
    `CachedCoalescer`, and evicts a failure at once.
- **Python error table** (`ErrorTable`). `ERROR_INFO` maps each portal
  exception kind to the message shown to the user and a flag.

## Conventions

- Time is a parameter: an `int` number of seconds at every step that reads the
  clock. `now` is the instant a call checks its cache or dictionary; `finish`
  is the instant read after an awaited step has completed: a login (the Python
  store's creation second, a cached session's start) or a proxy fetch (the
  start of the proxy list's TTL).
- Concurrency is modelled as a sequence of atomic steps. Each step runs with
  no other operation in between. The steps are:
  - a coalescer registration (`RequestCoalescer::execute` up to its await);
  - a leader's completion (its removal of the key and its deliveries);
  - a cache read or write;
  - the Python store's lookup, and its store after a login;
  - one sweep cycle.

  Two steps are coarser than the code. `CachedCoalescer.Begin` joins the
  cache read (src/utils.rs:307) and the registration (src/utils.rs:260) into
  one step. A sweep's collect (utils/ClientManager/_ClientManager.py:43-50) and
  its pops (utils/ClientManager/_ClientManager.py:56-57) are separated by the
  awaited close group (utils/ClientManager/_ClientManager.py:52-54), and the
  model runs them with nothing in between.
- HTTP, environment variables, the login coroutine, the portal's single
  sign-on and the construction of proxied clients are parameters: values, or
  functions that may fail.

The Python store's timestamp is written only when a client is launched
(utils/ClientManager/_ClientManager.py:35), and a hit returns without touching it
(lines 25-26). A sweep therefore evicts by age since login, not by idle time
(`SessionStore.HitKeepsCreationTime`).

Two consequences of how the caches are keyed:
- `get_authorized_session` keys its cache by account name alone. A second
  request with a different password within the TTL receives the cached session
  (`AuthorizedSession.SecondRequestReusesSession`).
- The Python `acquire` hit path likewise never looks at credentials.

## Model

| member | source | states |
|---|---|---|
| ErrorTable.Find | utils/handleMycquError.py:9-22 | a scan finds nothing exactly when no row has the kind, and otherwise finds the first row with it |
| ErrorTable.FlagCount | utils/handleMycquError.py:9-22 | the number of flagged rows is at most the number of rows |
| ErrorTable.KindIndex | utils/handleMycquError.py:10-21 | every kind has a row number below twelve |
| ErrorTable.Info | utils/handleMycquError.py:10-21 | every exception kind has a row in the table, and the row carries that kind |
| ErrorTable.ErrorInfoIsATable | utils/handleMycquError.py:9-22 | the table has 12 rows, no kind appears twice, and no message appears twice |
| ErrorTable.FindDistinct | utils/handleMycquError.py:9-22 | in any table without a repeated kind, scanning for a row's kind finds that row |
| ErrorTable.FindAgreesWithInfo | utils/handleMycquError.py:9-22 | scanning the table for any kind finds its row: the lookup is total and unambiguous |
| ErrorTable.FlaggedKinds | utils/handleMycquError.py:10-21 | a row is flagged exactly when its kind is NeedCaptcha or IncorrectLoginCredentials |
| ErrorTable.TwoFlagged | utils/handleMycquError.py:10-21 | exactly two of the twelve rows are flagged |
| ErrorTable.NamedRows | utils/handleMycquError.py:12-21 | the IncorrectLoginCredentials, NeedCaptcha and InvalidRoom rows carry their exact messages and flags |
| SessionStore.Launched | utils/ClientManager/_ClientManager.py:33-35 | after a store, (description, id) holds (client, now), the inner dictionary is created when missing, and every other entry is unchanged |
| SessionStore.Swept | utils/ClientManager/_ClientManager.py:46-57 | a sweep keeps every description, removes exactly the entries strictly older than the allowed age, and leaves the values of the rest as they were |
| SessionStore.SameEntries | utils/ClientManager/_ClientManager.py:18 | two dictionaries with the same descriptions and the same entries are equal |
| SessionStore.SweptIdempotent | utils/ClientManager/_ClientManager.py:46-57 | a second sweep at the same instant removes nothing more |
| SessionStore.LaunchedSurvivesSweep | utils/ClientManager/_ClientManager.py:35-48 | an entry no older than the allowed age survives a sweep with its client and creation second |
| SessionStore.PopStep | utils/ClientManager/_ClientManager.py:56-57 | popping one more collected path removes exactly that entry and nothing else |
| SessionStore.PoppedIsSwept | utils/ClientManager/_ClientManager.py:46-57 | popping exactly the overtime paths gives the swept dictionary |
| SessionStore.SweptKeepsInvariant | utils/ClientManager/_ClientManager.py:56-57 | a sweep keeps every client stored under one path only |
| SessionStore.LaunchedKeepsInvariant | utils/ClientManager/_ClientManager.py:31-35 | storing a newly opened client keeps every client stored under one path only |
| SessionStore.ClosedAreRemoved | utils/ClientManager/_ClientManager.py:46-57 | the clients of the collected paths are pairwise different, each was stored before the sweep, and none is stored after it |
| SessionStore.CollectOvertime | utils/ClientManager/_ClientManager.py:43-50 | the collecting loops list each overtime path once, with its own client beside it, and miss none |
| SessionStore.CollectedAreOvertime | utils/ClientManager/_ClientManager.py:46-50 | every client the collecting loops list is the client of an entry that is overtime at the sweep's instant |
| SessionStore.ClientManager.constructor | utils/ClientManager/_ClientManager.py:17-21 | a new manager holds no client and keeps the two configured durations |
| SessionStore.ClientManager.LaunchNewClient | utils/ClientManager/_ClientManager.py:30-36 | one new client is opened and logged in once; on success it is stored with the second read after login returned, and returned; on failure the error propagates and the dictionary is unchanged |
| SessionStore.ClientManager.Acquire | utils/ClientManager/_ClientManager.py:24-28 | a hit returns the stored client without logging in and changes nothing; a miss behaves as a launch |
| SessionStore.CloseGroupFails | utils/ClientManager/_ClientManager.py:52-54 | the task group of closes raises exactly when some close raises |
| SessionStore.ClientManager.PopPaths | utils/ClientManager/_ClientManager.py:56-57 | popping exactly the overtime paths leaves the swept dictionary |
| SessionStore.ClientManager.RemoveOvertimeClient | utils/ClientManager/_ClientManager.py:38-59 | the closed clients are exactly the overtime clients of the old dictionary, each closed once; when every close returns, the dictionary becomes the swept one, no closed client is left stored, and the next cycle is scheduled; when a close raises, nothing is popped and no further cycle is scheduled |
| SessionStore.HitKeepsCreationTime | utils/ClientManager/_ClientManager.py:24-36 | two acquires of one path log in once, return the same client, and keep the first acquire's second as the creation time |
| RustStr.Split | src/utils.rs:92 | splitting gives at least one part |
| RustStr.SplitShape | src/utils.rs:92-93 | a split yields one more part than there are separators, and no part contains the separator |
| RustStr.JoinSplit | src/utils.rs:92 | joining the parts of a split with the separator gives the string back |
| RustStr.SplitJoin | src/utils.rs:92 | splitting separator-free parts joined by the separator gives the parts back |
| RustStr.SplitPiece | src/utils.rs:92 | a string without the separator is one part |
| RustStr.SplitPrefix | src/utils.rs:92 | a separator-free prefix followed by the separator becomes the first part |
| RustStr.LeadingSpace | src/utils.rs:94-95 | the leading run of whitespace is a prefix of the string, and after it comes a non-whitespace character or the end |
| RustStr.TrailingSpace | src/utils.rs:94-95 | the trailing run of whitespace is a suffix of the string, and before it comes a non-whitespace character or the start |
| RustStr.Trim | src/utils.rs:94-95 | trimming gives a slice of the string with no whitespace at either end |
| RustStr.TrimUnique | src/utils.rs:94-95 | trimming removes the whole whitespace run at each end and nothing more |
| RustStr.ParseU64 | src/utils.rs:95 | an accepted value is at most u64::MAX, 2^64 - 1 |
| RustStr.ParseU64Rejects | src/utils.rs:95 | the parse refuses the empty string, a lone `+`, a leading `-` and whitespace at either end |
| RustStr.ShowNatDigits | src/utils.rs:95 | the decimal form of a number is all digits and has the number's value |
| RustStr.ParseShow | src/utils.rs:95 | a u64 written in decimal parses back to itself |
| ProxyProvider.ParseItem | src/utils.rs:92-95 | an item is accepted only when it has exactly one comma, and its expiry is a u64 |
| ProxyProvider.Accepted | src/utils.rs:91-116 | the accepted items are no more than the list's items |
| ProxyProvider.MinExpire | src/utils.rs:85-98 | the minimum starts at u64::MAX and is at most every accepted expiry |
| ProxyProvider.AcceptedBounded | src/utils.rs:95 | every accepted expiry is a u64 |
| ProxyProvider.MinExpireAttained | src/utils.rs:85-98 | when any item is accepted, the minimum is the expiry of one of them |
| ProxyProvider.BuildAll | src/utils.rs:99-113 | a successful build gives one client per accepted item |
| ProxyProvider.Ttl | src/utils.rs:123 | the TTL is at least 10 seconds; it is the minimum less 10 when the minimum is at least 20, and 10 otherwise |
| ProxyProvider.AcceptedAppend | src/utils.rs:91-116 | the items accepted from two lists in sequence are those accepted from each |
| ProxyProvider.BuildAllErrSticks | src/utils.rs:101-111 | once building a client has failed, later items do not change the outcome |
| ProxyProvider.AcceptedStep | src/utils.rs:91-116 | one more loop iteration adds the item exactly when it is accepted |
| ProxyProvider.BuildAllStep | src/utils.rs:99-113 | one more accepted item stops the loop with its build error, or appends its client |
| ProxyProvider.MinExpireStep | src/utils.rs:96-98 | one more accepted item lowers the minimum to its expiry when that is smaller |
| ProxyProvider.FailedBuildEndsLoop | src/utils.rs:101-111 | a build failure inside the loop is the outcome of the whole loop |
| ProxyProvider.ParseProxies | src/utils.rs:84-116 | the loop yields the clients of the accepted items and their smallest expiry, or the first build error |
| ProxyProvider.NeedsRefresh | src/utils.rs:135 | a refresh is needed exactly when the expiry instant has come or the list is empty |
| ProxyProvider.Refreshed | src/utils.rs:58-126 | a fetch error or an account error is passed through as the result; a success holds a non-empty list expiring at least 10 seconds after the refresh's instant |
| ProxyProvider.RefreshedIsFresh | src/utils.rs:118-126 | a successful refresh gives a non-empty list that needs no refresh for 10 seconds and expires by 10 seconds before the earliest proxy, or 10 seconds after the refresh, whichever is later |
| ProxyProvider.RefreshedExpiryAttained | src/utils.rs:96-126 | a successful refresh's expiry is the TTL derived from the expiry of one of the accepted proxies |
| ProxyProvider.RefreshedFails | src/utils.rs:58-126 | a refresh fails exactly when the fetch or account read fails, the list is empty, no item is accepted, or a build fails; with the exact messages for an empty list and no accepted item |
| ProxyProvider.AcceptsWellFormedItem | src/utils.rs:92-95 | an item `address,n`, with n a u64 written in decimal, is accepted with the trimmed address and n |
| ProxyProvider.ClientCache.Default | src/utils.rs:34-41 | the default cache holds no client and needs a refresh at every instant |
| ProxyProvider.ClientCache.RefreshClients | src/utils.rs:58-129 | on success the client list is replaced wholesale and the expiry set to the instant read after the fetch plus the TTL; on any error nothing changes |
| ProxyProvider.ClientCache.GetRandomClient | src/utils.rs:131-165 | a refresh happens only when the cache is expired or empty; a failed refresh keeps the old list; the client returned is in the list, and there is none only when the list is empty |
| Expiring.Live | src/utils.rs:212-217 | a read finds the stored value while its expiry is strictly after the read's instant, and nothing otherwise |
| Expiring.LiveUntilExpiry | src/utils.rs:212-217 | once an entry reads as absent it stays absent at every later instant, and a value read later is the one read earlier |
| Expiring.Purged | src/utils.rs:227-229 | purging keeps exactly the entries whose expiry is after now, with their values |
| Expiring.PurgeAgreesWithGet | src/utils.rs:212-229 | a read gives the same answer before and after a purge |
| Expiring.PurgeLater | src/utils.rs:196 | a purge followed by a later purge equals the later purge alone |
| Expiring.InsertThenGet | src/utils.rs:206-217 | after an insert with a TTL the value is read back strictly before now plus TTL, and not from then on; other keys read as before |
| Expiring.RemoveThenGet | src/utils.rs:212-223 | after a remove the key reads as absent, and other keys read as before |
| Expiring.ExpiringMap.constructor | src/utils.rs:188-203 | a new map is empty |
| Expiring.ExpiringMap.Insert | src/utils.rs:206-209 | the key maps to the value with expiry now plus TTL, and nothing else changes |
| Expiring.ExpiringMap.Get | src/utils.rs:212-217 | the stored value is returned exactly when its expiry is strictly after now, even if an expired entry is still stored |
| Expiring.ExpiringMap.Remove | src/utils.rs:221-223 | the key is deleted, its previous value returned if any, and other keys are unchanged |
| Expiring.ExpiringMap.PurgeExpired | src/utils.rs:227-229 | the map keeps exactly the entries whose expiry is after now |
| Coalescing.RegisterKeepsCoherent | src/utils.rs:258-261 | queueing a new ticket keeps every queue non-empty and every ticket unique and undelivered |
| Coalescing.CompleteKeepsCoherent | src/utils.rs:266-270 | removing a key's queue and delivering to its tickets keeps the bookkeeping coherent |
| Coalescing.SentStep | src/utils.rs:267-268 | sending to one more ticket adds exactly that delivery |
| Coalescing.SendAll | src/utils.rs:267-269 | every queued ticket receives the result, and earlier deliveries to other tickets are untouched |
| Coalescing.RequestCoalescer.constructor | src/utils.rs:246-250 | a new coalescer has nothing in flight |
| Coalescing.RequestCoalescer.Register | src/utils.rs:258-263 | the ticket joins the key's queue, and the caller leads exactly when its queue now has one ticket, that is, when nothing was in flight for the key |
| Coalescing.RequestCoalescer.Complete | src/utils.rs:266-270 | the key leaves the in-flight map and every ticket queued on it receives the result |
| Coalescing.RequestCoalescer.Receive | src/utils.rs:275 | a waiter receives the value delivered to its ticket, if any |
| Coalescing.RequestCoalescer.Execute | src/utils.rs:253-276 | a leader runs the task once, returns its result, delivers it to its own ticket and leaves nothing in flight for the key; any other caller joins the key's queue with a fresh ticket and waits |
| Coalescing.SharedFlight | src/utils.rs:258-275 | of two callers of one key, only the first leads and both receive the leader's result |
| Coalescing.CachedCoalescer.constructor | src/utils.rs:294-299 | a new cached coalescer holds nothing |
| Coalescing.CachedCoalescer.Begin | src/utils.rs:307-320 | a live cached value is returned without registering and nothing changes; otherwise the caller registers a fresh ticket and leads exactly when nothing is in flight |
| Coalescing.CachedCoalescer.Finish | src/utils.rs:314-318 | the leader caches its result until its finish instant plus the TTL, then sends it to every queued caller; no ticket is created |
| Coalescing.CachedCoalescer.Execute | src/utils.rs:302-321 | a live cached value is returned without running the task and the coalescer is untouched; a leader runs the task, caches, delivers and returns its result and leaves nothing in flight; a caller that finds the key in flight joins its queue with a fresh ticket and waits, with the cache and deliveries unchanged |
| Coalescing.CachedCoalescer.CleanCache | src/utils.rs:323-325 | the key is removed from the cache and nothing else changes |
| Coalescing.CleanThenMiss | src/utils.rs:302-325 | after clean_cache, the next execute of the key runs its task and returns the new result |
| RpcStatus.IntoStatus | src/main.rs:60-77 | NotLogin and NotAccess are Unauthenticated, Website is Unavailable with the portal's text after the fixed prefix, and all else is Internal; the three inner errors share one message |
| RpcStatus.IntoStatusDistinguishes | src/main.rs:62-75 | two errors give the same status exactly when they are of the same variant with the same website text, or both are inner errors |
| RpcStatus.WebsiteTextRoundTrip | src/main.rs:71 | the portal's website text is recovered verbatim from its status, and no other error yields any |
| RpcStatus.LoginSso | src/main.rs:84-112 | without a proxied client the result is the proxy error; otherwise an API error becomes its status, Success yields the session, and incorrect credentials yield Unauthenticated |
| RpcStatus.IncorrectCredentialsLikeNotLogin | src/main.rs:103-107 | incorrect credentials give exactly the status of NotLogin |
| RpcStatus.LoginAndAccess | src/main.rs:114-122 | a failed login is the result as it is; after a successful login, the access step decides the result |
| RpcStatus.LoginFailureSkipsAccess | src/main.rs:118 | when login fails, the result does not depend on the access step |
| AuthorizedSession.LoginResultFor | src/main.rs:137 | without a proxied client the sign-in fails with the proxy error; a session results only from a proxied client, a successful single sign-on, and the access step |
| AuthorizedSession.Service.constructor | src/main.rs:82 | a new service caches nothing and has nothing in flight |
| AuthorizedSession.Service.GetAuthorizedSession | src/main.rs:124-148 | keyed by account name alone: a live session is reused without signing in; otherwise the sign-in runs, a session is cached for 300 seconds past the login's finish, and a failure leaves no entry for the account |
| AuthorizedSession.SecondRequestReusesSession | src/main.rs:132-139 | within 300 seconds a second request for the account gets the first session without signing in, whatever its password |
| AuthorizedSession.FailureIsRetried | src/main.rs:142-144 | after a failed sign-in the next request signs in again |
| AuthorizedSession.ExpiredSessionSignsInAgain | src/main.rs:138 | once 300 seconds have passed, the account signs in again |

## Left out

- Concurrency is left out: tokio tasks, intervals, DashMap shard locks, oneshot channels, asyncio `TaskGroup` and `create_task`. Each operation is one atomic step, or a few, with an explicit time. Interleavings the model does not capture:
  - a cache insert racing a `clean_cache`;
  - a sweep popping an entry that was re-launched while the closes were awaited;
  - two concurrent acquires of one missing path
    (utils/ClientManager/_ClientManager.py:25-28). Both log in
    (utils/ClientManager/_ClientManager.py:32), and the later store
    (utils/ClientManager/_ClientManager.py:35) replaces the earlier client,
    which is then never closed or swept;
  - a caller's cache read that misses just before a leader inserts its result
    (src/utils.rs:316) and removes the key from the in-flight map
    (src/utils.rs:266). That caller then registers as a new leader and signs
    in again.
- The sleep before each Python sweep cycle is left out. The model performs one cycle of `remove_overtime_client` per call; whether a next cycle is scheduled is the manager's `sweeping` flag.
- The order in which the sweep visits the dictionary is left open. The closed clients are specified as a set without duplicates, not as a sequence in insertion order.
- The Python `AsyncClient(timeout=20)` is left out: a client is a number the manager hands out.
- SessionStore.ClientManager.RemoveOvertimeClient: `aclose()` is an outcome per client (`closeOk`). When one close raises, the task group cancels the others; which of them finished closing is not modelled, and `closed` lists every close that was started.
- A failed Python login leaves its new client unclosed. The model leaves that client out of the store, as the code does, and does not track it further.
- Configuration reading is left out. The two durations are constructor arguments.
- `time.time()` and `Instant::now()` are replaced by integer seconds passed in. `Instant` overflow is not modelled.
- Proxy I/O is left out: environment variables, the HTTP request to the proxy API, JSON decoding, `Proxy::all` and `Client::custom`. They are the `fetched`, `credentials` and `build` parameters. Their error texts are passed through unchanged, not formatted.
- `get_random_client`'s random choice is left out. A `choice` index stands for the random number.
- `get_random_client`'s second check inside its coalescer is left out. It is the same check as the first in a sequential model, and the provider's own coalescer has no effect there.
- Payloads of `ApiError` variants that `into_status` ignores are left out and modelled as text. The generic error parameter of `ApiError` is left out.
- The portal's single sign-on (`rsmycqu::sso::login`) and each service's `access` step are parameters. `access` returns the updated session instead of mutating it in place.
- `AuthorizedSession.Service.GetAuthorizedSession` is stated for a service with nothing in flight between calls. A call that finds another sign-in for the account in flight is `Coalescing.CachedCoalescer.Execute`'s waiting case.
- `grpc_method_error_handler` is a library call. The model covers the table it is given, not how the handler matches exception subclasses.
- The RPC servicers, the field-by-field conversions, `tencentSCF`, `parser_date_time_str`, `MISSING_LOGIN_INFO_STATUS`, the library stub, and the program's wiring are outside this model.
