/** The ways an extraction can fail: the error values the Go functions return
    (the message each one carries is noted beside it), plus the one runtime
    crash the section walk can run into. */
module Errors {

  datatype Error =
    | TransportError          // `http.Get` itself failed (connection, DNS, ...)
    | StatusError(code: int)  // "query failed with status %d"
    | DecodeError             // the JSON decoder rejected the response body
    | PageNotFound            // "page not found"
    | NoRevisionsFound        // "no revisions found"
    | RevisionNotFound        // "revision not found"
    | ContentNotFound         // "content not found"
    | ParseError              // the markup parser returned an error
    | BodyNotParsed           // "failed to parse body"
    | SectionNotFound         // "failed to find section"
    | NilSiblingPanic         // not a returned error: the sibling walk read
                              // `NextSibling` of the last sibling, which is nil,
                              // and the Go runtime panics

  /** Go's `(value, error)` pair: exactly one of the two is meaningful. */
  datatype Result<T> = Success(value: T) | Failure(error: Error)
}
