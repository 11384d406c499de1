/** What an HTTP GET issued by the scraper can come back with: the network is an input. */
module Http {

  /**
   * `RequestFailed` stands for any `requests.exceptions.RequestException`
   * raised by `requests.get` (connection refused, DNS failure, timeout);
   * `Response` carries the status code and the already-parsed body.
   */
  datatype Page<+T> = RequestFailed | Response(status: int, body: T)

  /**
   * `Response.raise_for_status()` of the requests library raises an
   * `HTTPError` (a `RequestException`) for client and server errors only.
   */
  predicate RaisesForStatus(status: int)
  {
    400 <= status < 600
  }
}
