/** The authentication gate: the path allow-list, the middleware that
    redirects a request without a signed-in user to "/", and the
    UseWhen that runs that middleware only on paths off the allow-list. */
module Gate {
  import opened Runtime
  import opened Http
  import opened Accounts
  import opened Guids

  /** The paths that need no signed-in user. */
  const Whitelist: seq<string> := ["/", "/login", "/public"]

  /** IsWhitelisted: exact, case-sensitive membership; no prefix matching. */
  function IsWhitelisted(path: string): (r: bool)
    ensures r <==> path == "/" || path == "/login" || path == "/public"
  {
    path in Whitelist
  }

  /** What a middleware does with a request: hand it on, or answer it itself. */
  datatype Decision = Continue | Stop(response: Response)

  /** UseAuthenticationMiddleware: a missing or empty UserId ends the
      request with a redirect to "/"; otherwise next() runs. */
  function AuthenticationMiddleware(userId: Option<string>): (d: Decision)
    ensures d == Continue <==> userId.Some? && userId.value != ""
    ensures d != Continue ==> d == Stop(Redirect("/"))
  {
    if IsNullOrEmpty(userId) then Stop(Redirect("/")) else Continue
  }

  /** The UseWhen branch: the middleware runs only on paths off the allow-list. */
  function GateDecision(path: string, session: map<string, string>): (d: Decision)
    ensures d == Continue <==> IsWhitelisted(path) || (UserIdKey in session && session[UserIdKey] != "")
    ensures d != Continue ==> d == Stop(Redirect("/"))
  {
    if !IsWhitelisted(path) then AuthenticationMiddleware(GetString(session, UserIdKey)) else Continue
  }

  /** The response to a request for path, given what the endpoint would
      answer if the request reached it. */
  function Serve(path: string, session: map<string, string>, endpoint: Response): (r: Response)
    ensures GateDecision(path, session) == Continue ==> r == endpoint
    ensures GateDecision(path, session) != Continue ==> r == Redirect("/")
  {
    match GateDecision(path, session)
    case Continue => endpoint
    case Stop(r) => r
  }

  /** A request off the allow-list without a UserId is redirected to "/"
      and its answer does not depend on the endpoint: the endpoint never runs. */
  lemma AnonymousNeverReachesEndpoint(path: string, session: map<string, string>, e1: Response, e2: Response)
    requires !IsWhitelisted(path)
    requires UserIdKey !in session || session[UserIdKey] == ""
    ensures Serve(path, session, e1) == Redirect("/")
    ensures Serve(path, session, e1) == Serve(path, session, e2)
  {
  }

  /** An allow-listed path reaches its endpoint whatever the session holds. */
  lemma WhitelistedAlwaysReachesEndpoint(path: string, session: map<string, string>, endpoint: Response)
    requires IsWhitelisted(path)
    ensures Serve(path, session, endpoint) == endpoint
  {
  }

  /** The gate looks only at whether UserId is non-empty: a session that
      names no existing user, or holds text that is not a Guid, passes it. */
  lemma GateIgnoresWhoTheUserIs(path: string, users: seq<User>, session: map<string, string>, endpoint: Response)
    requires CurrentUser(users, session) != Anonymous
    ensures Serve(path, session, endpoint) == endpoint
  {
  }

  /** The allow-list is exact: sub-paths, trailing slashes and other
      letter cases of listed paths are gated. */
  lemma WhitelistIsExact()
    ensures !IsWhitelisted("/public/x") && !IsWhitelisted("/login/") && !IsWhitelisted("/Login")
    ensures !IsWhitelisted("") && !IsWhitelisted("/products") && !IsWhitelisted("/images")
  {
  }

  /** After a successful login every path gets through the gate. */
  lemma LoginOpensGate(users: seq<User>, session: map<string, string>, email: StringValues, password: StringValues, path: string)
    requires FindByCredentials(users, email, password).Some?
    ensures var u := FindByCredentials(users, email, password).value;
      GateDecision(path, session[UserIdKey := GuidText(u.id)]) == Continue
  {
  }
}
