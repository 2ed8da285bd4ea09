/** Option, Result and the error taxonomy that the HTTP handlers raise. */
module Wrappers {

  datatype Option<+T> = None | Some(value: T)

  /** The error kinds thrown by the handlers (`APIError.invalidArgument`, …), with their messages. */
  datatype Error =
    | InvalidArgument(message: string)
    | AlreadyExists(message: string)
    | NotFound(message: string)
    | Internal(message: string)

  datatype Result<+T> = Ok(value: T) | Err(error: Error)

  /** A handler that returns nothing (`void`) either succeeds or throws. */
  datatype Outcome = Pass | Fail(error: Error)

  /** The result of a call to a remote service: a non-success response, or a success with its body. */
  datatype Upstream<+T> = Failed | Fetched(body: T)

  /** JavaScript truthiness of an optional string: absent and "" are both falsy. */
  predicate Truthy(s: Option<string>) {
    s.Some? && s.value != ""
  }

  /** `s || fallback` for an optional string. */
  function OrElse(s: Option<string>, fallback: string): (r: string)
    ensures Truthy(s) ==> r == s.value
    ensures !Truthy(s) ==> r == fallback
  {
    if Truthy(s) then s.value else fallback
  }

  /** `n || fallback` for an optional number: absent and 0 are both falsy. */
  function IntOrElse(n: Option<int>, fallback: int): (r: int)
    ensures n.Some? && n.value != 0 ==> r == n.value
    ensures (n.None? || n.value == 0) ==> r == fallback
  {
    if n.Some? && n.value != 0 then n.value else fallback
  }
}
