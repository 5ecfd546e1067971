/** The route guard of the basic frontend: a path is public only when it is
    exactly one of three routes, and the answer depends on that and on
    whether a session exists. */
module BasicRouteGuard {

  datatype Response =
    | PassThrough           // the response from the session refresh
    | RedirectToLogin       // `/login`
    | RedirectToDashboard   // `/dashboard`

  const PublicRoutes: seq<string> := ["/", "/login", "/register"]

  /** `publicRoutes.some(route => pathname === route)` */
  predicate IsPublicRoute(pathname: string)
    ensures IsPublicRoute(pathname) <==> pathname in {"/", "/login", "/register"}
  {
    assert PublicRoutes[0] == "/" && PublicRoutes[1] == "/login" && PublicRoutes[2] == "/register";
    exists i :: 0 <= i < |PublicRoutes| && pathname == PublicRoutes[i]
  }

  /** `middleware(request)`: without a session every non-public path goes
      to the login page; with one, `/login` and `/register` go to the
      dashboard; everything else passes. */
  function Decide(pathname: string, hasSession: bool): (r: Response)
    ensures r == RedirectToLogin <==> !hasSession && !IsPublicRoute(pathname)
    ensures r == RedirectToDashboard <==> hasSession && (pathname == "/login" || pathname == "/register")
    ensures !hasSession && IsPublicRoute(pathname) ==> r == PassThrough
    ensures hasSession && pathname == "/" ==> r == PassThrough
  {
    if !hasSession && !IsPublicRoute(pathname) then RedirectToLogin
    else if hasSession && (pathname == "/login" || pathname == "/register") then RedirectToDashboard
    else PassThrough
  }

  /** Matching is exact: a trailing slash or a sub-path is not public. */
  lemma PublicMatchIsExact()
    ensures IsPublicRoute("/login") && IsPublicRoute("/")
    ensures !IsPublicRoute("/login/") && !IsPublicRoute("/register/step")
    ensures Decide("/login/", false) == RedirectToLogin
  {
    assert "/login" == PublicRoutes[1];
    assert "/" == PublicRoutes[0];
  }
}
