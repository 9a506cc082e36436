/** The `Auth` helper of the session-authentication API: the path-exclusion gate
    `require_auth` and the three request accessors. `Auth` has no fields, so each of its
    methods becomes a function of its arguments. */
module Auth {
  import opened Wrappers
  import opened Prefixes

  // ---------------------------------------------------------------------------
  // require_auth
  // ---------------------------------------------------------------------------

  /** A wildcard entry `w*` covers every path that starts with its stem `w`. */
  predicate WildcardCovers(entry: string, path: string) {
    |entry| > 0 && entry[|entry| - 1] == '*' && StartsWith(path, entry[..|entry| - 1])
  }

  /** What it means for an exclusion entry to exempt a path from authentication: the two
      agree on their common length (either one extends the other), or the entry is a
      wildcard whose stem starts the path. */
  predicate Exempts(entry: string, path: string) {
    Comparable(entry, path) || WildcardCovers(entry, path)
  }

  /** The body of the scan for one entry, tests in their written order: the entry extends
      the path, the path extends the entry, or the entry ends in `*` and the path extends
      what precedes it. The last test indexes the entry's final character; it is reached
      only when the entry is not a prefix of the path, so the entry is never empty there. */
  function EntryMatches(path: string, entry: string): (r: bool)
    ensures r <==> Exempts(entry, path)
  {
    ComparableIff(entry, path);
    if StartsWith(entry, path) then true
    else if StartsWith(path, entry) then true
    else if entry[|entry| - 1] == '*' then StartsWith(path, entry[..|entry| - 1])
    else false
  }

  /** The scan over the exclusion list, in order: the index of the entry at which it stops
      and answers "no authentication", or None when it runs off the end. */
  function FirstExempting(path: string, entries: seq<string>): (r: Option<nat>)
    ensures r.Some? ==> r.value < |entries| && Exempts(entries[r.value], path)
    ensures r.Some? ==> forall j :: 0 <= j < r.value ==> !Exempts(entries[j], path)
    ensures r.None? <==> forall e :: e in entries ==> !Exempts(e, path)
  {
    if entries == [] then None
    else if EntryMatches(path, entries[0]) then Some(0)
    else
      match FirstExempting(path, entries[1..])
      case None => None
      case Some(i) => Some(i + 1)
  }

  /** `require_auth`: true when the path needs authentication. */
  function RequireAuth(path: Option<string>, excludedPaths: Option<seq<string>>): (r: bool)
    ensures path.None? ==> r
    ensures excludedPaths.None? || excludedPaths == Some([]) ==> r
    ensures path.Some? && excludedPaths.Some? && path.value in excludedPaths.value ==> !r
    ensures path.Some? && excludedPaths.Some? ==>
      (r <==> forall e :: e in excludedPaths.value ==> !Exempts(e, path.value))
  {
    if path.None? then true
    else if excludedPaths.None? || excludedPaths.value == [] then true
    else if path.value in excludedPaths.value then false
    else FirstExempting(path.value, excludedPaths.value).None?
  }

  /** The exact-membership test is subsumed by the scan: a listed path is stopped at or
      before its own entry. */
  lemma ExactEntryStopsScan(path: string, entries: seq<string>)
    requires path in entries
    ensures FirstExempting(path, entries).Some?
    ensures FirstExempting(path, entries).value <= Index(path, entries)
  {
  }

  /** Position of the first occurrence of a listed string. */
  function Index(x: string, s: seq<string>): (k: nat)
    requires x in s
    ensures k < |s| && s[k] == x
    ensures forall j :: 0 <= j < k ==> s[j] != x
  {
    if s[0] == x then 0 else Index(x, s[1..]) + 1
  }

  /** The answer depends only on which entries are listed, not on their order or how often. */
  lemma RequireAuthOrderIndependent(path: Option<string>, a: seq<string>, b: seq<string>)
    requires forall e :: e in a <==> e in b
    ensures RequireAuth(path, Some(a)) == RequireAuth(path, Some(b))
  {
  }

  /** Listing more entries can exempt more paths, never fewer. */
  lemma RequireAuthMonotone(path: Option<string>, a: seq<string>, b: seq<string>)
    requires forall e :: e in a ==> e in b
    ensures !RequireAuth(path, Some(a)) ==> !RequireAuth(path, Some(b))
  {
  }

  /** Concatenating two exclusion lists exempts exactly what either list exempts. */
  lemma RequireAuthAppend(path: Option<string>, a: seq<string>, b: seq<string>)
    ensures RequireAuth(path, Some(a + b)) == (RequireAuth(path, Some(a)) && RequireAuth(path, Some(b)))
  {
  }

  /** The empty path is a prefix of every entry, so any non-empty list exempts it. */
  lemma EmptyPathExempt(entries: seq<string>)
    requires entries != []
    ensures !RequireAuth(Some(""), Some(entries))
  {
  }

  /** An empty entry is a prefix of every path, so it exempts every present path. */
  lemma EmptyEntryExemptsAll(path: string, entries: seq<string>)
    requires "" in entries
    ensures !RequireAuth(Some(path), Some(entries))
  {
  }

  /** Because the prefix test runs in both directions, every prefix of a listed entry is
      exempt, including the root "/" of any absolute entry. */
  lemma PrefixOfEntryExempt(path: string, entry: string, entries: seq<string>)
    requires entry in entries && StartsWith(entry, path)
    ensures !RequireAuth(Some(path), Some(entries))
  {
  }

  /** A wildcard entry `w*` exempts exactly the paths comparable with its stem `w`: those
      that extend `w` and those that `w` extends. */
  lemma WildcardEntryExempts(stem: string, path: string)
    ensures Exempts(stem + "*", path) <==> Comparable(stem, path)
  {
  }

  /** Worked cases of the gate. */
  lemma RequireAuthExamples()
    ensures !RequireAuth(Some("/api/v1/status"), Some(["/api/v1/status"]))
    ensures !RequireAuth(Some("/api/v1/users/55"), Some(["/api/v1/users/*"]))
    ensures RequireAuth(Some("/api/v1/other"), Some(["/api/v1/users/*"]))
    ensures !RequireAuth(Some("/api/v1"), Some(["/api/v1/status"]))
    ensures !RequireAuth(Some("/api/v1/status/extra"), Some(["/api/v1/status"]))
    ensures RequireAuth(Some("/home"), Some(["/api/v1/status/"]))
    ensures !RequireAuth(Some("/"), Some(["/api/v1/status/"]))
  {
    assert "/api/v1/other"[8] != "/api/v1/users/"[8];
    assert "/home"[1] != "/api/v1/status/"[1];
  }

  // ---------------------------------------------------------------------------
  // Request accessors
  // ---------------------------------------------------------------------------

  /** The parts of an incoming request the helper reads. */
  datatype Request = Request(headers: map<string, string>, cookies: map<string, string>)

  const AuthorizationKey: string := "Authorization"

  /** `authorization_header`: the request's `Authorization` header, if any. */
  function AuthorizationHeader(request: Option<Request>): (r: Option<string>)
    ensures request.None? ==> r.None?
    ensures request.Some? ==> (r.Some? <==> AuthorizationKey in request.value.headers)
    ensures r.Some? ==>
      (request.Some? && AuthorizationKey in request.value.headers
       && r.value == request.value.headers[AuthorizationKey])
  {
    match request
    case None => None
    case Some(req) =>
      if AuthorizationKey in req.headers then Some(req.headers[AuthorizationKey]) else None
  }

  /** A header stored under `Authorization` is what the accessor returns. */
  lemma AuthorizationHeaderStored(headers: map<string, string>, cookies: map<string, string>, v: string)
    ensures AuthorizationHeader(Some(Request(headers[AuthorizationKey := v], cookies))) == Some(v)
  {
  }

  /** Other headers and the cookies have no influence on the accessor. */
  lemma AuthorizationHeaderIgnoresOthers(req: Request, k: string, v: string, cookies: map<string, string>)
    requires k != AuthorizationKey
    ensures AuthorizationHeader(Some(Request(req.headers[k := v], cookies))) == AuthorizationHeader(Some(req))
  {
  }

  /** `session_cookie`: the cookie named by the configured session name, if both exist.
      The configuration value is passed in rather than read from the environment. */
  function SessionCookie(request: Option<Request>, sessionName: Option<string>): (r: Option<string>)
    ensures request.None? || sessionName.None? ==> r.None?
    ensures request.Some? && sessionName.Some? ==>
      (r.Some? <==> sessionName.value in request.value.cookies)
    ensures r.Some? ==>
      (request.Some? && sessionName.Some? && sessionName.value in request.value.cookies
       && r.value == request.value.cookies[sessionName.value])
  {
    match request
    case None => None
    case Some(req) =>
      match sessionName
      case None => None
      case Some(name) => if name in req.cookies then Some(req.cookies[name]) else None
  }

  /** A cookie stored under the configured name is what the accessor returns. */
  lemma SessionCookieStored(headers: map<string, string>, cookies: map<string, string>, name: string, v: string)
    ensures SessionCookie(Some(Request(headers, cookies[name := v])), Some(name)) == Some(v)
  {
  }

  /** `current_user`: a placeholder that never resolves a user, whatever the request. */
  function CurrentUser<User>(request: Option<Request>): (r: Option<User>)
    ensures r.None?
  {
    None
  }
}
