/**
 * The guards in front of protected routes: `verifyToken` reads the bearer
 * token from the `authorization` header, has it verified and records the
 * claims it carries on the request; `verifyOrganizer` lets only the
 * organizer role through. Token verification (signature and expiry) is an
 * oracle: a function from the token to the claims it carries, or None when
 * verification fails.
 */
module Middleware {
  import opened Common
  import opened Seqs

  const TOKEN_REQUIRED: string := "Access token required"
  const TOKEN_INVALID: string := "Invalid or expired token"
  const ORGANIZERS_ONLY: string := "Only organizers can perform this action"

  /** `authorization?.split(' ')[1]`: the second space-separated piece of the
      header, or None when the header is missing or holds no space. */
  function BearerToken(authorization: Option<string>): Option<string> {
    if authorization.None? then None
    else
      var pieces := Split(authorization.value, ' ');
      if |pieces| >= 2 then Some(pieces[1]) else None
  }

  /** A header of the form `<scheme> <token>` (section 2.1 of RFC 6750, where
      the scheme is `Bearer` and the token holds no space) yields the token. */
  lemma BearerOfScheme(scheme: string, token: string)
    requires ' ' !in scheme && ' ' !in token
    ensures BearerToken(Some(scheme + " " + token)) == Some(token)
  {
    var parts := [scheme, token];
    assert Join(parts, ' ') == scheme + " " + token by {
      assert Join(parts[1..], ' ') == token;
    }
    SplitJoin(parts, ' ');
  }

  /** A header yields a token exactly when it holds a space, and the token
      itself never holds one. */
  lemma BearerTokenShape(header: string)
    ensures BearerToken(Some(header)).Some? <==> ' ' in header
    ensures BearerToken(Some(header)).Some? ==> ' ' !in BearerToken(Some(header)).value
  {
  }

  /** The decision `verifyToken` takes: no usable token, a token the oracle
      refuses, or the claims of a verified token. */
  function Authenticate(authorization: Option<string>, verify: string -> Option<Claims>): (r: Outcome<Claims>)
    ensures r.Reject? ==> r.status == 401
    ensures r == Reject(401, TOKEN_REQUIRED) <==> !Truthy(BearerToken(authorization))
    ensures r == Reject(401, TOKEN_INVALID)
            <==> Truthy(BearerToken(authorization)) && verify(BearerToken(authorization).value).None?
    ensures r.Accept? ==> r == Accept(verify(BearerToken(authorization).value).value)
  {
    var token := BearerToken(authorization);
    if !Truthy(token) then Reject(401, TOKEN_REQUIRED)
    else
      match verify(token.value)
      case None => Reject(401, TOKEN_INVALID)
      case Some(claims) => Accept(claims)
  }

  /** The part of an incoming request the guards look at and write. */
  class Request {
    const authorization: Option<string>
    /** `req.user`: the identity a verified token established. */
    var user: Option<Claims>

    constructor (authorization: Option<string>)
      ensures this.authorization == authorization && user == None
    {
      this.authorization := authorization;
      user := None;
    }
  }

  /** `verifyToken`: on success records the decoded claims as `req.user` and
      hands on (`Accept`); otherwise answers 401 and leaves the request alone. */
  method VerifyToken(req: Request, verify: string -> Option<Claims>) returns (r: Outcome<Claims>)
    modifies req`user
    ensures r == Authenticate(req.authorization, verify)
    ensures req.user == if r.Accept? then Some(r.value) else old(req.user)
  {
    var token := BearerToken(req.authorization);
    if !Truthy(token) {
      return Reject(401, TOKEN_REQUIRED);
    }
    var decoded := verify(token.value);
    if decoded.None? {
      return Reject(401, TOKEN_INVALID);
    }
    req.user := decoded;
    r := Accept(decoded.value);
  }

  /** `verifyOrganizer`: a check of the role claim alone, which hands the
      identity on unchanged when the role is exactly `organizer`. */
  function VerifyOrganizer(user: Claims): (r: Outcome<Claims>)
    ensures r.Accept? <==> user.role == ORGANIZER
    ensures r.Accept? ==> r.value == user
    ensures r.Reject? ==> r == Reject(403, ORGANIZERS_ONLY)
  {
    if user.role != ORGANIZER then Reject(403, ORGANIZERS_ONLY) else Accept(user)
  }

  /** The guard chain of a protected route: `verifyToken`, followed by
      `verifyOrganizer` on the organizer-only routes. */
  function Guard(authorization: Option<string>, verify: string -> Option<Claims>, organizerOnly: bool): (r: Outcome<Claims>)
    ensures r.Accept? ==> Authenticate(authorization, verify) == r
    ensures r.Accept? && organizerOnly ==> r.value.role == ORGANIZER
    ensures Authenticate(authorization, verify).Reject? ==> r == Authenticate(authorization, verify)
    ensures r.Reject? && Authenticate(authorization, verify).Accept? ==> organizerOnly && r == Reject(403, ORGANIZERS_ONLY)
    ensures r.Accept?
            <==> Authenticate(authorization, verify).Accept?
                 && (organizerOnly ==> Authenticate(authorization, verify).value.role == ORGANIZER)
  {
    var authn := Authenticate(authorization, verify);
    if authn.Reject? || !organizerOnly then authn else VerifyOrganizer(authn.value)
  }
}
