/**
 * Values shared by every part of the API model: optional request fields,
 * the HTTP replies the handlers send, the outcome of a request check and the
 * identity claims carried by an access token.
 */
module Common {

  datatype Option<+T> = None | Some(value: T)

  /** What a handler sends back: `res.status(status).json({ message, ... })`.
      `Ok` carries the payload of a successful answer; `Err` only the message. */
  datatype Reply<+T> =
    | Ok(status: int, message: string, body: T)
    | Err(status: int, message: string)

  /** The verdict of a check that runs before the effect of a request: either
      the request goes on (with what the check found), or it is answered with
      an error status and message. */
  datatype Outcome<+T> =
    | Accept(value: T)
    | Reject(status: int, message: string)

  /** The identity a verified access token carries (`req.user`). */
  datatype Claims = Claims(id: int, email: string, role: string, name: string)

  const ORGANIZER: string := "organizer"
  const ATTENDEE: string := "attendee"

  /** JavaScript truthiness of an optional string field of a request body:
      `undefined` and `''` are falsy, every other string is truthy. */
  predicate Truthy(field: Option<string>) {
    field.Some? && field.value != ""
  }

  /** The error reply for a rejected check. */
  function Refuse<T, U>(o: Outcome<T>): Reply<U>
    requires o.Reject?
  {
    Err(o.status, o.message)
  }
}
