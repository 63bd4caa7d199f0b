/**
 * The route gate `middleware`: protects "/dashboard" and "/settings…" and
 * bounces signed-in users away from "/login".
 */
module Middleware {
  import opened Wrappers
  import opened Strings
  import opened Http

  /** `request.cookies.get(...)?.value || null` is truthy: present and not empty. */
  predicate HasToken(token: Option<string>) {
    token.Some? && token.value != ""
  }

  /** `isProtectedRoute` */
  predicate IsProtectedRoute(pathname: string) {
    pathname == "/dashboard" || StartsWith(pathname, "/settings")
  }

  /** A clone of the request URL with only the path replaced. */
  function WithPath(request: Url, path: string): (u: Url)
    ensures u.origin == request.origin && u.query == request.query && u.pathname == path
  {
    request.(pathname := path)
  }

  /** The decision `middleware` returns. */
  function Decide(token: Option<string>, request: Url): (r: Response)
    ensures r.Redirect? <==>
      (!HasToken(token) && IsProtectedRoute(request.pathname)) || (HasToken(token) && request.pathname == "/login")
    ensures r.Redirect? ==> r.location.origin == request.origin && r.location.query == request.query
    ensures r.Redirect? ==> r.location.pathname == if HasToken(token) then "/dashboard" else "/login"
  {
    if !HasToken(token) && IsProtectedRoute(request.pathname) then Redirect(WithPath(request, "/login"))
    else if HasToken(token) && request.pathname == "/login" then Redirect(WithPath(request, "/dashboard"))
    else Continue
  }

  /** No redirect loop: following a redirect with the same cookie state is let through. */
  lemma NoRedirectLoop(token: Option<string>, request: Url)
    requires Decide(token, request).Redirect?
    ensures Decide(token, Decide(token, request).location) == Continue
  {
    var target := Decide(token, request).location;
    if !HasToken(token) {
      assert target.pathname == "/login";
      assert !StartsWith("/login", "/settings");
    }
  }
}
