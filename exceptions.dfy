/** The exceptions the authentication routes raise, as values. */
module Exceptions {

  /**
   * `HTTPException(status_code, detail, headers)` as raised by the route handlers,
   * and a `KeyError` that escapes a handler (the framework answers it with a 500).
   */
  datatype Raised =
    | HTTPException(statusCode: int, detail: string, headers: map<string, string>)
    | KeyError(key: string)
}
