/** `authenticateRequest` (src/lib/middleware.ts): the bearer-token check every
    task route runs first. The token verifier (`verifyToken`, jsonwebtoken's
    `jwt.verify` under the process secret) is a parameter: it yields the payload,
    or `None` where it throws (bad signature, expired, malformed). */
module Middleware {
  import opened Wrappers
  import opened JsString
  import opened Http

  /** `JwtPayload` of src/lib/auth.ts. */
  datatype Payload = Payload(userId: int, email: string)

  /** The result object: exactly one of `error` and `user` is meant to be set. */
  datatype AuthResult = AuthResult(error: Option<Response>, user: Option<Payload>)

  const Scheme := "Bearer "

  const MissingToken := Response(401, ErrorBody("Token não fornecido"))
  const InvalidToken := Response(401, ErrorBody("Token inválido ou expirado"))

  /** The header a client sends: `Authorization: Bearer <token>`
      (src/lib/tasks-client.ts:19, src/app/dashboard/page.tsx:61). */
  function BearerHeader(token: string): string {
    Scheme + token
  }

  /** The token to verify, or `None` when the header is missing, empty, or
      does not start with the exact, case-sensitive `"Bearer "`.
      Lines 7 and 16: `authHeader.replace("Bearer ", "")`. */
  function TokenOf(header: Option<string>): (r: Option<string>)
    ensures r.None? <==> header.None? || !StartsWith(header.value, Scheme)
    ensures r.Some? ==> r.value == header.value[|Scheme|..]
  {
    if header.None? || header.value == "" || !StartsWith(header.value, Scheme) then None
    else
      ReplacePrefix(header.value, Scheme);
      Some(ReplaceFirst(header.value, Scheme, ""))
  }

  /** `authenticateRequest(request)`, with `header` the `authorization` header
      (`null` when absent). */
  function Authenticate(header: Option<string>, verify: string -> Option<Payload>): (r: AuthResult)
    ensures r.error.Some? != r.user.Some?
    ensures r.error.Some? ==> r.error.value.status == 401
    ensures r.user.Some? ==> TokenOf(header).Some? && verify(TokenOf(header).value) == r.user
  {
    match TokenOf(header)
    case None => AuthResult(Some(MissingToken), None)
    case Some(token) =>
      match verify(token)
      case Some(payload) => AuthResult(None, Some(payload))
      case None => AuthResult(Some(InvalidToken), None)
  }

  /** A missing or empty header is rejected with "Token não fornecido", for any verifier. */
  lemma MissingHeaderRejected(header: Option<string>, verify: string -> Option<Payload>)
    requires header.None? || header.value == ""
    ensures Authenticate(header, verify) == AuthResult(Some(MissingToken), None)
  {
  }

  /** A header without the exact prefix is rejected the same way; the verifier
      is never consulted, so any two verifiers give the same result. */
  lemma NoSchemeRejected(h: string, verify: string -> Option<Payload>, other: string -> Option<Payload>)
    requires !StartsWith(h, Scheme)
    ensures Authenticate(Some(h), verify) == AuthResult(Some(MissingToken), None)
    ensures Authenticate(Some(h), verify) == Authenticate(Some(h), other)
  {
  }

  /** The prefix check is case-sensitive and needs the space: `"bearer x"` and
      `"Bearer"` are both rejected as missing tokens. */
  lemma SchemeIsExact(verify: string -> Option<Payload>)
    ensures Authenticate(Some("bearer x"), verify) == AuthResult(Some(MissingToken), None)
    ensures Authenticate(Some("Bearer"), verify) == AuthResult(Some(MissingToken), None)
  {
    assert "bearer x"[..|Scheme|] != Scheme by { assert "bearer x"[0] != Scheme[0]; }
  }

  /** Round trip with the header the clients build: `"Bearer " + t` passes the
      prefix check and exactly `t` reaches the verifier, whose answer decides
      the result. */
  lemma BearerRoundTrip(t: string, verify: string -> Option<Payload>)
    ensures TokenOf(Some(BearerHeader(t))) == Some(t)
    ensures verify(t).Some? ==> Authenticate(Some(BearerHeader(t)), verify) == AuthResult(None, Some(verify(t).value))
    ensures verify(t).None? ==> Authenticate(Some(BearerHeader(t)), verify) == AuthResult(Some(InvalidToken), None)
  {
    assert BearerHeader(t)[..|Scheme|] == Scheme;
    assert BearerHeader(t)[|Scheme|..] == t;
  }
}
