/**
 * Route protection with NextAuth's `withAuth`: the `authorized` callback, the redirect rule of
 * the middleware function, and the route matcher.
 */
module Middleware {
  import opened Wrappers
  import opened Strings
  import opened Auth

  /** The pages that need an administrator: by prefix. */
  predicate IsProtected(path: string) {
    StartsWith(path, "/posts/create") || StartsWith(path, "/posts/edit")
  }

  predicate HasAdminToken(token: Option<Claims>) {
    token.Some? && token.value.isAdmin == Some(true)
  }

  /** The `authorized` callback: `!!token && token.isAdmin === true` on protected pages, else true. */
  predicate Authorized(token: Option<Claims>, path: string) {
    if IsProtected(path) then HasAdminToken(token) else true
  }

  /** The middleware function redirects to the sign-in page when `token?.isAdmin` is falsy. */
  predicate RedirectsToSignIn(token: Option<Claims>, path: string) {
    IsProtected(path) && !HasAdminToken(token)
  }

  /** `config.matcher`: `/posts/create/:path*` and `/posts/edit/:path*`. */
  predicate MatchesRoute(path: string, base: string) {
    path == base || StartsWith(path, base + "/")
  }

  predicate Matched(path: string) {
    MatchesRoute(path, "/posts/create") || MatchesRoute(path, "/posts/edit")
  }

  datatype Outcome =
    | Proceed                 // the request reaches the page
    | ToSignInPage            // `withAuth` sends the visitor to its sign-in page
    | Redirect(path: string)  // the middleware function redirects

  /**
   * One request: unmatched paths never reach the middleware; `authorized` runs first, and the
   * middleware function only when it allowed the request.
   */
  function Handle(token: Option<Claims>, path: string): (r: Outcome)
    ensures r == ToSignInPage <==> Matched(path) && !HasAdminToken(token)
    ensures r == Proceed <==> !Matched(path) || HasAdminToken(token)
  {
    if !Matched(path) then Proceed
    else if !Authorized(token, path) then ToSignInPage
    else if RedirectsToSignIn(token, path) then Redirect("/auth/signin")
    else Proceed
  }

  /** Every path the matcher selects is a protected one. */
  lemma MatchedIsProtected(path: string)
    requires Matched(path)
    ensures IsProtected(path)
  {
    if MatchesRoute(path, "/posts/create") && path != "/posts/create" {
      assert path[..|"/posts/create/"|][..|"/posts/create"|] == path[..|"/posts/create"|];
    }
    if MatchesRoute(path, "/posts/edit") && path != "/posts/edit" {
      assert path[..|"/posts/edit/"|][..|"/posts/edit"|] == path[..|"/posts/edit"|];
    }
  }

  /** Protection is by prefix: extending a protected path keeps it protected. */
  lemma ProtectedByPrefix(path: string, suffix: string)
    requires IsProtected(path)
    ensures IsProtected(path + suffix)
  {
    var p := path + suffix;
    assert p[..|path|] == path;
    if StartsWith(path, "/posts/create") {
      assert p[..|"/posts/create"|] == path[..|"/posts/create"|];
    } else {
      assert p[..|"/posts/edit"|] == path[..|"/posts/edit"|];
    }
  }

  /** The middleware function redirects exactly where `authorized` refuses. */
  lemma RedirectIffUnauthorized(token: Option<Claims>, path: string)
    ensures RedirectsToSignIn(token, path) <==> !Authorized(token, path)
  {
  }

  /** After a credentials sign-in the administrator's token passes every page. */
  lemma AdminTokenPasses(
    credentials: Option<Credentials>, adminUser: Option<string>, adminPassword: Option<string>,
    claims: Claims, path: string)
    requires Username(credentials) == adminUser && Password(credentials) == adminPassword
    ensures Handle(Some(JwtClaims(claims, Authorize(credentials, adminUser, adminPassword))), path) == Proceed
  {
  }
}
