/**
 * The route guard of `src/middleware.ts`: a pure decision from the request path and the
 * value of the `admin_auth` cookie, and the `matcher` that decides which requests reach it.
 */
module Middleware {
  import opened Js

  datatype Decision = Next | RedirectToLogin

  const AdminPrefix := "/admin"
  const LoginPath := "/admin/login"

  /**
   * `middleware(request)`: an `/admin…` path other than the login page passes only with
   * the cookie value 'true'. The test is a character prefix, not a path segment.
   */
  function Guard(path: string, cookie: Option<string>): (d: Decision)
    ensures !StartsWith(path, AdminPrefix) ==> d == Next
    ensures path == LoginPath ==> d == Next
    ensures StartsWith(path, AdminPrefix) && path != LoginPath ==> (d == Next <==> cookie == Some("true"))
  {
    if StartsWith(path, AdminPrefix) then
      if path == LoginPath then Next
      else if cookie != Some("true") then RedirectToLogin
      else Next
    else Next
  }

  /** `matcher: '/admin/:path*'`: '/admin' itself or any path below '/admin/'. */
  predicate Matched(path: string) {
    path == AdminPrefix || StartsWith(path, AdminPrefix + "/")
  }

  /** The decision a request meets: paths the matcher does not select are never guarded. */
  function Route(path: string, cookie: Option<string>): (d: Decision)
    ensures d == RedirectToLogin <==> Matched(path) && path != LoginPath && cookie != Some("true")
  {
    if Matched(path) then Guard(path, cookie) else Next
  }

  /** Every path the matcher selects is one the guard function treats as an admin path. */
  lemma MatchedIsGuarded(path: string)
    requires Matched(path)
    ensures StartsWith(path, AdminPrefix)
  {
    if path != AdminPrefix {
      assert path[..|AdminPrefix|] == (AdminPrefix + "/")[..|AdminPrefix|];
    }
  }

  /**
   * The prefix test on its own guards '/administrator', and '/admin/login/' is not the
   * exempt login page; the matcher keeps '/administrator' away from the guard.
   */
  lemma PrefixQuirks()
    ensures Guard("/administrator", None) == RedirectToLogin
    ensures !Matched("/administrator")
    ensures Route("/administrator", None) == Next
    ensures Guard("/admin/login/", None) == RedirectToLogin
    ensures Route("/admin/login/", Some("false")) == RedirectToLogin
    ensures Route("/admin/login", None) == Next
  {
    assert "/administrator"[..6] == AdminPrefix;
    assert "/administrator"[6] == 'i' && (AdminPrefix + "/")[6] == '/';
    assert "/administrator"[..7] != AdminPrefix + "/";
    assert "/admin/login/"[..6] == AdminPrefix;
    assert "/admin/login/"[..7] == AdminPrefix + "/";
    assert "/admin/login"[..7] == AdminPrefix + "/";
  }
}
