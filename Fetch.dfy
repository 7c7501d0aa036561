/**
 * The slice of the Fetch Standard the service worker touches: requests,
 * responses and what a network fetch can settle to.
 */
module Fetch {

  /** The request's cache mode; `reload` bypasses the HTTP cache on the way to the network. */
  datatype CacheMode = Default | Reload

  datatype Request = Request(httpMethod: string, url: string, cache: CacheMode)

  /** A response as an immutable value; body streams and `clone()` are not modelled. */
  datatype Response = Response(status: int, headers: map<string, string>, body: string) {
    /** `response.ok`: the status is an ok status, 200 to 299. */
    predicate Ok() {
      200 <= status <= 299
    }
  }

  /** How `fetch(request)` settles: with a response (of any status) or rejected with a network error. */
  datatype NetworkOutcome = Received(response: Response) | NetworkError(reason: string)
}
