/** The part of a request URL and of a route-gate response that the route gates look at. */
module Http {

  /** A request URL: origin (scheme, host, port), path, and query string with fragment. */
  datatype Url = Url(origin: string, pathname: string, query: string)

  /** `NextResponse.next()` or `NextResponse.redirect(location)`. */
  datatype Response = Continue | Redirect(location: Url)
}
