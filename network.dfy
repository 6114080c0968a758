/**
 * The network as the service worker sees it: a request is named by its URL,
 * and `fetch` either yields a response or fails with a network error.
 * Headers and bodies are opaque; only the status code is inspected, by
 * `Cache.addAll` when it decides whether a response may be stored.
 */
module Network {

  type Url = string

  /** An HTTP response, opaque apart from its status code. */
  datatype Response = Response(status: nat, body: string)

  /** What one call of `fetch` gives back. */
  datatype FetchOutcome = Fetched(response: Response) | NetworkError

  /** The network, fixed for the duration of one lifecycle event. */
  type Fetcher = Url -> FetchOutcome

  /** An "ok status" in the Fetch standard: 200 to 299. */
  predicate OkStatus(status: nat)
  {
    200 <= status <= 299
  }

  /**
   * The condition under which `Cache.addAll` accepts a fetched response
   * (section 5.4.4 of the W3C Service Workers specification): it is not a
   * network error, its status is ok, and it is not a partial (206) response.
   */
  predicate Storable(o: FetchOutcome)
  {
    o.Fetched? && OkStatus(o.response.status) && o.response.status != 206
  }
}
