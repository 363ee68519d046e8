/** Optional values, handler outcomes and the request-level notion of "given". */
module Wrappers {

  datatype Option<+T> = None | Some(value: T)

  /** The kinds of failure a handler reports; the HTTP layer maps them to 400, 401, 403, 404 and 500. */
  datatype Failure = BadRequest | Unauthenticated | Forbidden | NotFound | ServerError

  datatype Result<+T> = Ok(value: T) | Err(error: Failure)

  /** JavaScript truthiness of an optional string: absent, null and "" are all falsy. */
  predicate Present(s: Option<string>) {
    s.Some? && s.value != ""
  }
}
