/**
 * The route gate `proxy`: a decision on whether the `auth_token` cookie is
 * present and on the request path.
 */
module Proxy {
  import opened Wrappers
  import opened Strings
  import opened Http

  /** `!!token`: the cookie is present and not empty. */
  predicate HasToken(token: Option<string>) {
    token.Some? && token.value != ""
  }

  /** `isAuthRoute` */
  predicate IsAuthRoute(pathname: string) {
    StartsWith(pathname, "/login") || StartsWith(pathname, "/register")
  }

  /** `isProtectedRoute` */
  predicate IsProtectedRoute(pathname: string) {
    pathname == "/" || StartsWith(pathname, "/settings")
  }

  /** `new URL(path, request.url)` for an absolute path: same origin, no query. */
  function SameOrigin(request: Url, path: string): Url {
    Url(request.origin, path, "")
  }

  /** The decision `proxy` returns. Its last `return NextResponse.next()` cannot be reached and has no branch here. */
  function Decide(token: Option<string>, request: Url): (r: Response)
    ensures r.Redirect? <==>
      (!HasToken(token) && IsProtectedRoute(request.pathname)) || (HasToken(token) && IsAuthRoute(request.pathname))
    ensures r.Redirect? ==> r.location.origin == request.origin && r.location.query == ""
    ensures r.Redirect? ==> r.location.pathname == if HasToken(token) then "/" else "/login"
  {
    if !HasToken(token) then
      if IsProtectedRoute(request.pathname) then Redirect(SameOrigin(request, "/login")) else Continue
    else
      if IsAuthRoute(request.pathname) then Redirect(SameOrigin(request, "/")) else Continue
  }

  /** No redirect loop: following a redirect with the same cookie state is let through. */
  lemma NoRedirectLoop(token: Option<string>, request: Url)
    requires Decide(token, request).Redirect?
    ensures Decide(token, Decide(token, request).location) == Continue
  {
    var target := Decide(token, request).location;
    if HasToken(token) {
      assert target.pathname == "/";
      assert !StartsWith("/", "/login") && !StartsWith("/", "/register");
    } else {
      assert target.pathname == "/login";
      assert !StartsWith("/login", "/settings");
    }
  }

  /** A signed-in user is never sent to "/login", and a signed-out user never to "/". */
  lemma RedirectTargets(token: Option<string>, request: Url)
    ensures HasToken(token) ==> Decide(token, request) != Redirect(SameOrigin(request, "/login"))
    ensures !HasToken(token) ==> Decide(token, request) != Redirect(SameOrigin(request, "/"))
  {
  }

  /** "/dashboard" is not protected here: a signed-out user is let through to it. */
  lemma DashboardNotGuarded(request: Url)
    requires request.pathname == "/dashboard"
    ensures Decide(None, request) == Continue
  {
    assert !StartsWith("/dashboard", "/settings") by {
      assert "/dashboard"[..9][1] != "/settings"[1];
    }
  }
}
