/**
 * What the API route handlers return, and the session they read.
 *
 * A handler answers with a status code and either an error message or the
 * row it created, as `NextResponse.json({ success, error | data }, { status })`.
 * The session is the payload getUserFromRequest yields, or None when the
 * request carries no valid token.
 */
module Http {
  import opened Wrappers
  import opened Js

  datatype Reply<T> = Reply(status: int, error: string, data: Option<T>)

  function Ok<T>(status: int, row: T): (r: Reply<T>)
    ensures r.status == status && r.data == Some(row) && r.error == ""
  {
    Reply(status, "", Some(row))
  }

  function Fail<T>(status: int, error: string): (r: Reply<T>)
    ensures r.status == status && r.data.None? && r.error == error
  {
    Reply(status, error, None)
  }

  const Unauthorized := "Unauthorized"

  /** The token payload: the fields the handlers read. */
  datatype Session = Session(userId: Value, role: Value)
}
