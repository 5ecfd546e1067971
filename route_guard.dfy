/** The main application's route guard: each request path is classified by
    prefix as protected or as an authentication page, and the answer depends
    only on that and on whether a session exists. */
module RouteGuard {
  import opened JsValues

  datatype Response =
    | PassThrough                                  // `NextResponse.next()`
    | RedirectToLogin(redirectParam: Option<string>) // `/login?redirect=<path>`
    | RedirectToDashboard                          // `/dashboard`

  const ProtectedPrefixes: seq<string> :=
    ["/dashboard", "/students", "/academics", "/timetable", "/exams", "/finance", "/settings"]

  const AuthPrefixes: seq<string> := ["/login", "/register"]

  /** `isProtectedRoute`: the path starts with one of the seven section
      prefixes. */
  predicate IsProtectedRoute(path: string)
    ensures IsProtectedRoute(path) <==>
      StartsWith(path, "/dashboard") || StartsWith(path, "/students") ||
      StartsWith(path, "/academics") || StartsWith(path, "/timetable") ||
      StartsWith(path, "/exams") || StartsWith(path, "/finance") || StartsWith(path, "/settings")
  {
    assert ProtectedPrefixes[0] == "/dashboard" && ProtectedPrefixes[1] == "/students" &&
      ProtectedPrefixes[2] == "/academics" && ProtectedPrefixes[3] == "/timetable" &&
      ProtectedPrefixes[4] == "/exams" && ProtectedPrefixes[5] == "/finance" &&
      ProtectedPrefixes[6] == "/settings";
    exists i :: 0 <= i < |ProtectedPrefixes| && StartsWith(path, ProtectedPrefixes[i])
  }

  /** `isAuthRoute`: the path starts with `/login` or `/register`. */
  predicate IsAuthRoute(path: string)
    ensures IsAuthRoute(path) <==> StartsWith(path, "/login") || StartsWith(path, "/register")
  {
    assert AuthPrefixes[0] == "/login" && AuthPrefixes[1] == "/register";
    exists i :: 0 <= i < |AuthPrefixes| && StartsWith(path, AuthPrefixes[i])
  }

  /** `middleware(req)` for a path and the presence of a session. Without a
      session, protected paths go to the login page carrying the path, and
      everything else passes; with one, the authentication pages and `/` go
      to the dashboard, and everything else passes. */
  function Decide(path: string, hasSession: bool): (r: Response)
    ensures r.RedirectToLogin? <==> !hasSession && IsProtectedRoute(path)
    ensures r.RedirectToLogin? ==> r.redirectParam == Some(path)
    ensures r.RedirectToDashboard? <==> hasSession && (IsAuthRoute(path) || path == "/")
    ensures !hasSession && !IsProtectedRoute(path) ==> r == PassThrough
  {
    if IsProtectedRoute(path) && !hasSession then RedirectToLogin(Some(path))
    else if IsAuthRoute(path) && hasSession then RedirectToDashboard
    else if path == "/" && hasSession then RedirectToDashboard
    else PassThrough
  }

  /** Two prefixes whose second characters differ cannot both start one path. */
  lemma PrefixesDisagreeAt1(path: string, p: string, q: string)
    requires |p| > 1 && |q| > 1 && p[1] != q[1]
    ensures !(StartsWith(path, p) && StartsWith(path, q))
  {
  }

  /** No path is both protected and an authentication page. */
  lemma ProtectedAndAuthDisjoint(path: string)
    ensures !(IsProtectedRoute(path) && IsAuthRoute(path))
  {
    forall i, j | 0 <= i < |ProtectedPrefixes| && 0 <= j < |AuthPrefixes|
      ensures !(StartsWith(path, ProtectedPrefixes[i]) && StartsWith(path, AuthPrefixes[j]))
    {
      var p, q := ProtectedPrefixes[i], AuthPrefixes[j];
      assert p[1] in "dsatef";
      assert q[1] in "lr";
      PrefixesDisagreeAt1(path, p, q);
    }
  }

  /** Being a prefix test, the check also protects paths that merely begin
      like a protected section. */
  lemma PrefixMatchOverreaches()
    ensures IsProtectedRoute("/studentsX")
    ensures Decide("/studentsX", false) == RedirectToLogin(Some("/studentsX"))
  {
    assert StartsWith("/studentsX", ProtectedPrefixes[1]);
  }
}
