/**
 * Reading the session token of a request (lib/jwt.js).
 *
 * A request is its Authorization header and its 'token' cookie, each
 * possibly absent. Signature checking is the `verify` parameter: it stands
 * for verifyToken, which yields the payload or null (None) when the token
 * does not verify.
 */
module Jwt {
  import opened Wrappers
  import opened Strings

  datatype Request = Request(authorization: Option<string>, tokenCookie: Option<string>)

  const BearerPrefix := "Bearer "

  /** getTokenFromRequest: the text after "Bearer " in the header, else the cookie's value, else null. */
  function GetTokenFromRequest(req: Request): (r: Option<string>)
    ensures req.authorization.Some? && StartsWith(req.authorization.value, BearerPrefix) ==>
              r == Some(req.authorization.value[7..])
    ensures !(req.authorization.Some? && StartsWith(req.authorization.value, BearerPrefix)) ==>
              r == req.tokenCookie
  {
    // An empty header is falsy, and does not start with the prefix either.
    if req.authorization.Some? && req.authorization.value != "" && StartsWith(req.authorization.value, BearerPrefix) then
      Some(req.authorization.value[7..])
    else if req.tokenCookie.Some? then Some(req.tokenCookie.value)
    else None
  }

  /** getUserFromRequest: no verification for a missing or empty token. */
  function GetUserFromRequest<P>(req: Request, verify: string -> Option<P>): (r: Option<P>)
    ensures var t := GetTokenFromRequest(req);
            (t.None? || t.value == "" ==> r.None?)
            && (t.Some? && t.value != "" ==> r == verify(t.value))
  {
    var token := GetTokenFromRequest(req);
    if token.None? || token.value == "" then None else verify(token.value)
  }

  /** The header wins over the cookie; the token is exactly the header minus its prefix. */
  lemma HeaderTakesPrecedence(token: string, cookie: Option<string>)
    ensures GetTokenFromRequest(Request(Some(BearerPrefix + token), cookie)) == Some(token)
  {
    assert (BearerPrefix + token)[..7] == BearerPrefix;
    assert (BearerPrefix + token)[7..] == token;
  }

  /** A header with another scheme, or a lower-case "bearer ", falls back to the cookie. */
  lemma OtherSchemeFallsBack(cookie: Option<string>)
    ensures GetTokenFromRequest(Request(Some("Basic abc"), cookie)) == cookie
    ensures GetTokenFromRequest(Request(Some("bearer abc"), cookie)) == cookie
    ensures GetTokenFromRequest(Request(Some("Bearer"), cookie)) == cookie
  {
    assert !StartsWith("Basic abc", BearerPrefix) by { assert "Basic abc"[..7][1] != BearerPrefix[1]; }
    assert !StartsWith("bearer abc", BearerPrefix) by { assert "bearer abc"[..7][0] != BearerPrefix[0]; }
  }

  lemma NoCredentials<P>(verify: string -> Option<P>)
    ensures GetTokenFromRequest(Request(None, None)) == None
    ensures GetUserFromRequest(Request(None, None), verify) == None
  {
  }

  /** "Bearer " with nothing after it gives an empty token, which is never verified. */
  lemma EmptyBearerNotVerified<P>(cookie: Option<string>, verify: string -> Option<P>)
    ensures GetTokenFromRequest(Request(Some(BearerPrefix), cookie)) == Some("")
    ensures GetUserFromRequest(Request(Some(BearerPrefix), cookie), verify) == None
  {
  }
}
