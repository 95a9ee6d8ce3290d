/**
 * The collaborators the server code calls but that are not modelled: undici's `request` and
 * `fetch`, the WHATWG `URL` parser and the `sharp` image pipeline. Each is a total function
 * value chosen by the caller; a thrown exception or rejected promise is `None`.
 */
module Oracles {
  import opened Common

  /** The two parts of a parsed `URL` that the code reads. */
  datatype UrlParts = UrlParts(protocol: string, host: string)

  /** `new URL(s)`; None when the constructor throws. */
  type UrlParser = string -> Option<UrlParts>

  /** A response header as undici's `request` exposes it: absent, one string, or an array. */
  datatype HeaderValue = Absent | Single(value: string) | Multiple(values: seq<string>)

  /**
   * What undici's `request` resolves to: the status code, the `content-type` header and the
   * body stream, given as the chunks it yields; `bodyFails` says that reading on after the
   * last of them throws (a broken connection).
   */
  datatype RawResponse = RawResponse(statusCode: int, contentType: HeaderValue,
                                     chunks: seq<seq<byte>>, bodyFails: bool)

  /** undici's `request(url)`; None when the promise rejects. */
  type Requester = string -> Option<RawResponse>

  /**
   * What undici's `fetch` resolves to: the status, `headers.get("content-type")` (None for
   * null) and the body from `arrayBuffer()` (None when reading it throws).
   */
  datatype FetchResponse = FetchResponse(status: int, contentType: Option<string>,
                                         body: Option<seq<byte>>)

  /** undici's `fetch(url)`; None when the promise rejects. */
  type Fetcher = string -> Option<FetchResponse>

  /**
   * The `sharp` pipeline: rotate, optionally convert to PNG (the flag), resize to fit 128x128
   * without enlarging, encode as PNG. None when it throws.
   */
  type RasterPipeline = (seq<byte>, bool) -> Option<seq<byte>>

  /** All collaborators of one server process. */
  datatype Env = Env(raster: RasterPipeline, parseUrl: UrlParser, fetch: Fetcher,
                     request: Requester)
}
