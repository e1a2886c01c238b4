/**
 * The authentication middleware in front of the protected routes: it takes the
 * bearer token from the `Authorization` header, checks it as an access token,
 * and either rejects the request with 401 or records the caller's id on the
 * request and passes it on.
 */
module AuthGate {
  import opened Wrappers
  import opened JsText
  import opened Json
  import opened Jwt
  import opened TokenUtils

  const BEARER_PREFIX: string := "Bearer "

  /** The three ways a request can leave the gate. */
  datatype GateOutcome = NoToken | InvalidToken | Authenticated(userId: UserId)

  /**
   * The token of an `Authorization` header: `None` when the header is absent or
   * does not start with "Bearer "; otherwise the second space-separated field.
   */
  function BearerToken(header: Option<string>): (t: Option<string>)
    ensures t.Some? <==> header.Some? && StartsWith(header.value, BEARER_PREFIX)
    ensures t.Some? ==> |Split(header.value, ' ')| >= 2 && t.value == Split(header.value, ' ')[1]
  {
    if header.Some? && StartsWith(header.value, BEARER_PREFIX) then
      var h := header.value;
      assert h == "Bearer" + [' '] + h[7..];
      SplitFirstField("Bearer", ' ', h[7..]);
      Some(Split(h, ' ')[1])
    else None
  }

  /** The header "Bearer " followed by a token without spaces yields exactly that token. */
  lemma BearerTokenOfHeader(token: string)
    requires ' ' !in token
    ensures BearerToken(Some(BEARER_PREFIX + token)) == Some(token)
  {
    var h := BEARER_PREFIX + token;
    assert h == "Bearer" + [' '] + token;
    SplitFirstField("Bearer", ' ', token);
    SplitNoSeparator(token, ' ');
  }

  /** What the gate decides for a request carrying `header` at second `now`. */
  function Gate(c: Config, header: Option<string>, now: nat): (o: GateOutcome)
    ensures o.NoToken? <==> BearerToken(header).None?
    ensures o.Authenticated? <==>
      BearerToken(header).Some? && VerifyAccessToken(c, BearerToken(header).value, now).Some?
    ensures o.Authenticated? ==> o.userId == VerifyAccessToken(c, BearerToken(header).value, now).value.userId
  {
    match BearerToken(header)
    case None => NoToken
    case Some(token) =>
      match VerifyAccessToken(c, token, now)
      case None => InvalidToken
      case Some(decoded) => Authenticated(decoded.userId)
  }

  /** A bearer header with an access token issued at `iat` authenticates its user for 15 minutes. */
  lemma GateAcceptsIssuedAccessToken(c: Config, userId: UserId, iat: nat, now: nat)
    requires now < iat + ACCESS_TOKEN_EXPIRY
    ensures Gate(c, Some(BEARER_PREFIX + AccessTokenFor(c, userId, iat)), now) == Authenticated(userId)
  {
    BearerTokenOfHeader(AccessTokenFor(c, userId, iat));
    AccessTokenVerifies(c, userId, iat, now);
  }

  /** Once expired, the same header is rejected as an invalid token. */
  lemma GateRejectsExpiredAccessToken(c: Config, userId: UserId, iat: nat, now: nat)
    requires iat + ACCESS_TOKEN_EXPIRY <= now
    ensures Gate(c, Some(BEARER_PREFIX + AccessTokenFor(c, userId, iat)), now) == InvalidToken
  {
    BearerTokenOfHeader(AccessTokenFor(c, userId, iat));
    AccessTokenVerifies(c, userId, iat, now);
  }

  /** A refresh token presented as a bearer token is rejected when the secrets differ. */
  lemma GateRejectsRefreshToken(c: Config, userId: UserId, iat: nat, now: nat)
    requires c.accessSecret != c.refreshSecret
    ensures Gate(c, Some(BEARER_PREFIX + RefreshTokenFor(c, userId, iat)), now) == InvalidToken
  {
    BearerTokenOfHeader(RefreshTokenFor(c, userId, iat));
    RefreshTokenIsNotAccess(c, userId, iat, now);
  }

  /** The authenticated identity attached to a request: `req.user = {id}`. */
  datatype RequestUser = RequestUser(id: UserId)

  /** The parts of an Express request the gate reads and writes. */
  class Request {
    const authorization: Option<string>
    var user: Option<RequestUser>
    /** How many times the gate has called `next()` for this request. */
    var nextCalls: nat

    constructor (authorization: Option<string>)
      ensures this.authorization == authorization && user.None? && nextCalls == 0
    {
      this.authorization := authorization;
      user := None;
      nextCalls := 0;
    }
  }

  function NoTokenResponse(): Response
  {
    Response(401, JObj([("message", JStr("No token provided")),
                        ("details", JStr("Authorization header must start with Bearer"))]))
  }

  function InvalidTokenResponse(): Response
  {
    Response(401, JObj([("message", JStr("Invalid or expired token")),
                        ("details", JStr("Token verification failed"))]))
  }

  /**
   * The middleware `auth(req, res, next)` at second `now`. It answers with a 401
   * response (and leaves the request alone) or sets `req.user` to the verified
   * id and calls `next` once (and sends nothing). It never touches the
   * refresh-token store: it is given only the secrets.
   */
  method Auth(c: Config, req: Request, now: nat) returns (res: Option<Response>)
    modifies req
    ensures match Gate(c, req.authorization, now)
      case NoToken => res == Some(NoTokenResponse()) && req.user == old(req.user) && req.nextCalls == old(req.nextCalls)
      case InvalidToken => res == Some(InvalidTokenResponse()) && req.user == old(req.user) && req.nextCalls == old(req.nextCalls)
      case Authenticated(id) => res.None? && req.user == Some(RequestUser(id)) && req.nextCalls == old(req.nextCalls) + 1
  {
    var token := BearerToken(req.authorization);
    if token.None? {
      return Some(NoTokenResponse());
    }
    var decoded := VerifyAccessToken(c, token.value, now);
    if decoded.None? {
      return Some(InvalidTokenResponse());
    }
    req.user := Some(RequestUser(decoded.value.userId));
    req.nextCalls := req.nextCalls + 1;
    res := None;
  }
}
