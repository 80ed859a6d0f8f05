/**
  The part of an axios error the forms read: whether the server answered,
  with which status, and the `message` and `error` fields of its body.
 */
module Http {
  import opened Optional

  /**
    A server's error answer. `message` and `error` are None when the body
    does not carry them (or there is no body).
   */
  datatype Response = Response(status: int, message: Option<string>, error: Option<string>)

  /** JavaScript truthiness of an optional string: present and non-empty. */
  predicate Truthy(s: Option<string>) {
    s.Some? && s.value != ""
  }
}
