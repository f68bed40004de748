/**
 * The route guard (src/middleware.ts): for each request path, and whether
 * `supabase.auth.getUser()` found a signed-in user, either let the request
 * through or redirect it. The cookie plumbing and the path matcher that
 * decides which requests reach the guard are not modelled.
 */
module Middleware {
  import opened JsStrings

  const ProtectedRoutes: seq<string> := ["/", "/dashboard", "/deals", "/settings", "/profile"]
  const PublicRoutes: seq<string> := ["/login", "/auth/callback", "/auth/error", "/reset-password"]

  /** What the guard returns: the request's own response, or a redirect to a path. */
  datatype Decision = PassThrough | Redirect(to: string)

  /** `route === '/' ? pathname === route : pathname.startsWith(route)`. */
  predicate RouteMatches(route: string, pathname: string) {
    if route == "/" then pathname == route else StartsWith(pathname, route)
  }

  /** `protectedRoutes.some(...)`. */
  predicate IsProtected(pathname: string) {
    exists i :: 0 <= i < |ProtectedRoutes| && RouteMatches(ProtectedRoutes[i], pathname)
  }

  /** Two strings that differ at an index both reach do not start with each other. */
  lemma DiffersAt(s: string, p: string, k: nat)
    requires k < |s| && k < |p| && s[k] != p[k]
    ensures !StartsWith(s, p)
  {
  }

  /**
   * `middleware`: '/auth/...' always passes; a public path passes, except
   * '/login' for a signed-in user, who is sent home; a protected path
   * without a user is sent to '/login'; everything else passes.
   */
  function Guard(pathname: string, signedIn: bool): (r: Decision)
    ensures StartsWith(pathname, "/auth/") ==> r == PassThrough
    ensures r == Redirect("/") <==> pathname == "/login" && signedIn
    ensures r == Redirect("/login") <==>
      !StartsWith(pathname, "/auth/") && pathname !in PublicRoutes && IsProtected(pathname) && !signedIn
    ensures r.Redirect? ==> r.to == "/" || r.to == "/login"
  {
    DiffersAt("/login", "/auth/", 1);
    if StartsWith(pathname, "/auth/") then PassThrough
    else if pathname in PublicRoutes then
      if pathname == "/login" && signedIn then Redirect("/") else PassThrough
    else if IsProtected(pathname) && !signedIn then Redirect("/login")
    else PassThrough
  }

  /** A signed-in user is never redirected, except away from the login page. */
  lemma SignedInPassesExceptLogin(pathname: string)
    requires pathname != "/login"
    ensures Guard(pathname, true) == PassThrough
  {
  }

  /** The public paths are reachable without a user, and so is '/auth/...'. */
  lemma PublicPathsOpen(pathname: string)
    requires pathname in PublicRoutes || StartsWith(pathname, "/auth/")
    ensures Guard(pathname, false) == PassThrough
  {
  }

  /** '/' is protected only as the exact path: '/about' is open to anyone. */
  lemma RootIsExactOnly()
    ensures IsProtected("/")
    ensures !IsProtected("/about") && Guard("/about", false) == PassThrough
  {
    assert RouteMatches(ProtectedRoutes[0], "/");
    DiffersAt("/about", "/dashboard", 1);
    DiffersAt("/about", "/deals", 1);
    DiffersAt("/about", "/settings", 1);
    DiffersAt("/about", "/profile", 1);
  }

  /** The other entries match by prefix: '/dealsX' is protected although it is no route of the list. */
  lemma DealsPrefixProtected()
    ensures IsProtected("/dealsX")
    ensures Guard("/dealsX", false) == Redirect("/login")
  {
    assert RouteMatches(ProtectedRoutes[2], "/dealsX") by {
      assert "/dealsX"[..|"/deals"|] == "/deals";
    }
  }

  /** The public entries under '/auth/' are already let through by the prefix rule. */
  lemma AuthEntriesShadowed()
    ensures StartsWith(PublicRoutes[1], "/auth/") && StartsWith(PublicRoutes[2], "/auth/")
  {
    assert PublicRoutes[1][..6] == "/auth/";
    assert PublicRoutes[2][..6] == "/auth/";
  }
}
