/** What a component learns from one `fetch` call: the body's `statusCode` and data, or nothing. */
module Http {

  datatype Response<T> =
    | Failed                               // the `catch` branch: a network error, unreadable JSON, or
                                           // `!response.ok` where the caller checks it
    | Received(statusCode: int, data: T)   // the parsed body; on the login and register screens also
                                           // that of an HTTP error status
  {
    /** `result.statusCode === code`. */
    predicate Is(code: int) {
      Received? && statusCode == code
    }
  }
}
