/**
 * The token issuer and verifier and the refresh-token store they share.
 *
 * Access tokens are signed with the access secret and live 15 minutes; they are
 * checked by signature and expiry alone. Refresh tokens are signed with the
 * refresh secret, live 7 days, and are valid only while the store holds an
 * unrevoked document for them.
 */
module TokenUtils {
  import opened Wrappers
  import opened Jwt
  import opened RefreshTokenModel

  const ACCESS_TOKEN_EXPIRY: nat := 15 * 60
  const REFRESH_TOKEN_EXPIRY: nat := 7 * 24 * 60 * 60
  const DEFAULT_ACCESS_SECRET: string := "your-access-token-secret"
  const DEFAULT_REFRESH_SECRET: string := "your-refresh-token-secret"

  /** The two signing secrets. */
  datatype Config = Config(accessSecret: string, refreshSecret: string)

  /** `value || fallback` for an environment variable: unset or empty picks the fallback. */
  function EnvOr(value: Option<string>, fallback: string): (r: string)
    ensures value.Some? && value.value != "" ==> r == value.value
    ensures value.None? || value.value == "" ==> r == fallback
  {
    if value.Some? && value.value != "" then value.value else fallback
  }

  /** The secrets as read from `JWT_SECRET` and `REFRESH_TOKEN_SECRET`; neither is ever empty. */
  function ConfigFromEnv(jwtSecret: Option<string>, refreshSecret: Option<string>): (c: Config)
    ensures c.accessSecret != "" && c.refreshSecret != ""
    ensures (jwtSecret.None? || jwtSecret.value == "") && (refreshSecret.None? || refreshSecret.value == "")
            ==> c.accessSecret != c.refreshSecret
  {
    Config(EnvOr(jwtSecret, DEFAULT_ACCESS_SECRET), EnvOr(refreshSecret, DEFAULT_REFRESH_SECRET))
  }

  datatype TokenPair = TokenPair(accessToken: string, refreshToken: string)

  /** Why the store refused a write: the unique index on `token` was violated. */
  datatype StoreError = DuplicateKey

  /** The access token `generateTokens` signs for `userId` at second `now`. */
  function AccessTokenFor(c: Config, userId: UserId, now: nat): (t: string)
    ensures ' ' !in t
    ensures Decode(t) == Some(Token(Claim(userId, now, now + ACCESS_TOKEN_EXPIRY), c.accessSecret))
  {
    DecodeEncode(Token(Claim(userId, now, now + ACCESS_TOKEN_EXPIRY), c.accessSecret));
    Sign(c.accessSecret, userId, now, ACCESS_TOKEN_EXPIRY)
  }

  /** The refresh token `generateTokens` signs for `userId` at second `now`. */
  function RefreshTokenFor(c: Config, userId: UserId, now: nat): (t: string)
    ensures ' ' !in t
    ensures Decode(t) == Some(Token(Claim(userId, now, now + REFRESH_TOKEN_EXPIRY), c.refreshSecret))
  {
    DecodeEncode(Token(Claim(userId, now, now + REFRESH_TOKEN_EXPIRY), c.refreshSecret));
    Sign(c.refreshSecret, userId, now, REFRESH_TOKEN_EXPIRY)
  }

  /**
   * `verifyAccessToken`: the claim of a token signed with the access secret and
   * not yet expired, otherwise `None`. It is a function of the token, the
   * secret and the clock only: it neither reads nor changes the store.
   */
  function VerifyAccessToken(c: Config, token: string, now: nat): (r: Option<Claim>)
    ensures r.Some? ==> now < r.value.exp && Decode(token) == Some(Token(r.value, c.accessSecret))
  {
    Verify(c.accessSecret, token, now)
  }

  /** An access token issued at `iat` is accepted, with its user, exactly during its 15 minutes. */
  lemma AccessTokenVerifies(c: Config, userId: UserId, iat: nat, now: nat)
    ensures VerifyAccessToken(c, AccessTokenFor(c, userId, iat), now)
         == if now < iat + ACCESS_TOKEN_EXPIRY then Some(Claim(userId, iat, iat + ACCESS_TOKEN_EXPIRY)) else None
  {
    VerifySigned(c.accessSecret, userId, iat, ACCESS_TOKEN_EXPIRY, now);
  }

  /** With distinct secrets a refresh token is never accepted as an access token. */
  lemma RefreshTokenIsNotAccess(c: Config, userId: UserId, iat: nat, now: nat)
    requires c.accessSecret != c.refreshSecret
    ensures VerifyAccessToken(c, RefreshTokenFor(c, userId, iat), now) == None
  {
    VerifyOtherKey(c.refreshSecret, c.accessSecret, userId, iat, REFRESH_TOKEN_EXPIRY, now);
  }

  /** With distinct secrets an access token never passes the refresh-token signature check. */
  lemma AccessTokenIsNotRefresh(c: Config, userId: UserId, iat: nat, now: nat)
    requires c.accessSecret != c.refreshSecret
    ensures Verify(c.refreshSecret, AccessTokenFor(c, userId, iat), now) == None
  {
    VerifyOtherKey(c.accessSecret, c.refreshSecret, userId, iat, ACCESS_TOKEN_EXPIRY, now);
  }

  /**
   * When both variables are set to the same secret, the separation is lost: a
   * refresh token then passes the access check for its whole 7 days.
   */
  lemma SharedSecretAcceptsRefreshAsAccess(c: Config, userId: UserId, iat: nat, now: nat)
    requires c.accessSecret == c.refreshSecret
    requires now < iat + REFRESH_TOKEN_EXPIRY
    ensures VerifyAccessToken(c, RefreshTokenFor(c, userId, iat), now) == Some(Claim(userId, iat, iat + REFRESH_TOKEN_EXPIRY))
  {
    VerifySigned(c.refreshSecret, userId, iat, REFRESH_TOKEN_EXPIRY, now);
  }

  // ---------------------------------------------------------------------
  // The store's contents and the updates applied to them
  // ---------------------------------------------------------------------

  /**
   * Every document was written by `generateTokens`: its token is the refresh
   * token signed for its user at its issue second, and it expires with it.
   */
  ghost predicate WellIssued(rs: seq<RefreshToken>, c: Config)
  {
    forall i :: 0 <= i < |rs| ==>
      && rs[i].expiresAt == rs[i].issuedAt + REFRESH_TOKEN_EXPIRY
      && rs[i].token == RefreshTokenFor(c, rs[i].user, rs[i].issuedAt)
  }

  /** `updateOne({token: t}, {isRevoked: true})`: the first document with token `t` is revoked. */
  function RevokeOne(rs: seq<RefreshToken>, t: string): (r: seq<RefreshToken>)
    ensures |r| == |rs|
    ensures forall i :: 0 <= i < |rs| ==>
      (r[i].token == rs[i].token && r[i].user == rs[i].user && r[i].issuedAt == rs[i].issuedAt && r[i].expiresAt == rs[i].expiresAt)
  {
    if rs == [] then []
    else if rs[0].token == t then [rs[0].(isRevoked := true)] + rs[1..]
    else [rs[0]] + RevokeOne(rs[1..], t)
  }

  /** `updateMany({user: u, isRevoked: false}, {isRevoked: true})`. */
  function RevokeUser(rs: seq<RefreshToken>, u: UserId): (r: seq<RefreshToken>)
    ensures |r| == |rs|
  {
    seq(|rs|, i requires 0 <= i < |rs| => if rs[i].user == u && !rs[i].isRevoked then rs[i].(isRevoked := true) else rs[i])
  }

  /** What remains after the TTL monitor has deleted every document expired at second `now`. */
  function Unexpired(rs: seq<RefreshToken>, now: nat): (r: seq<RefreshToken>)
    ensures forall i :: 0 <= i < |r| ==> !IsExpired(r[i], now)
    ensures forall x :: x in rs && !IsExpired(x, now) ==> x in r
    ensures forall x :: x in r ==> x in rs
  {
    if rs == [] then []
    else if IsExpired(rs[0], now) then Unexpired(rs[1..], now)
    else [rs[0]] + Unexpired(rs[1..], now)
  }

  /**
   * With unique tokens, revoking `t` flips `isRevoked` on the one document with
   * token `t` and leaves every other document as it was; when no document has
   * token `t` nothing changes.
   */
  lemma {:induction false} RevokeOneEffect(rs: seq<RefreshToken>, t: string)
    requires UniqueTokens(rs)
    ensures forall i :: 0 <= i < |rs| ==>
      RevokeOne(rs, t)[i] == if rs[i].token == t then rs[i].(isRevoked := true) else rs[i]
    ensures !HasToken(rs, t) ==> RevokeOne(rs, t) == rs
  {
    if rs != [] {
      RevokeOneEffect(rs[1..], t);
    }
  }

  /** Revoking twice is revoking once. */
  lemma {:induction false} RevokeOneIdempotent(rs: seq<RefreshToken>, t: string)
    ensures RevokeOne(RevokeOne(rs, t), t) == RevokeOne(rs, t)
  {
    if rs != [] && rs[0].token != t {
      RevokeOneIdempotent(rs[1..], t);
    }
  }

  /** After revoking `t`, no unrevoked document carries `t`; other tokens keep their state. */
  lemma RevokeOneDeactivates(rs: seq<RefreshToken>, t: string, other: string)
    requires UniqueTokens(rs)
    ensures !HasActive(RevokeOne(rs, t), t)
    ensures other != t ==> (HasActive(RevokeOne(rs, t), other) <==> HasActive(rs, other))
  {
    RevokeOneEffect(rs, t);
    var r := RevokeOne(rs, t);
    if other != t && HasActive(rs, other) {
      var i :| 0 <= i < |rs| && rs[i].token == other && !rs[i].isRevoked;
      assert r[i] == rs[i];
    }
  }

  /**
   * After revoking everything of user `u`, none of `u`'s documents is unrevoked
   * and every document of another user is unchanged.
   */
  lemma RevokeUserEffect(rs: seq<RefreshToken>, u: UserId)
    ensures forall i :: 0 <= i < |rs| && rs[i].user == u ==> RevokeUser(rs, u)[i].isRevoked
    ensures forall i :: 0 <= i < |rs| && rs[i].user != u ==> RevokeUser(rs, u)[i] == rs[i]
    ensures forall i :: 0 <= i < |rs| ==> RevokeUser(rs, u)[i].token == rs[i].token && RevokeUser(rs, u)[i].user == rs[i].user
    ensures forall i :: 0 <= i < |rs| ==> RevokeUser(rs, u)[i].issuedAt == rs[i].issuedAt && RevokeUser(rs, u)[i].expiresAt == rs[i].expiresAt
  {
  }

  /**
   * A refresh token that verifies as belonging to `u` is no longer active
   * once all of `u`'s tokens are revoked.
   */
  lemma RevokeUserDefeatsUserTokens(rs: seq<RefreshToken>, c: Config, u: UserId, t: string, now: nat)
    requires WellIssued(rs, c)
    requires Verify(c.refreshSecret, t, now).Some? && Verify(c.refreshSecret, t, now).value.userId == u
    ensures !HasActive(RevokeUser(rs, u), t)
  {
  }

  /**
   * A document can only collide with the token issued for `u` at `now` if it
   * was itself issued for `u` in that same second.
   */
  lemma CollisionIffSameSecond(rs: seq<RefreshToken>, c: Config, u: UserId, now: nat)
    requires WellIssued(rs, c)
    ensures HasToken(rs, RefreshTokenFor(c, u, now))
        <==> exists i :: 0 <= i < |rs| && rs[i].user == u && rs[i].issuedAt == now
  {
    if HasToken(rs, RefreshTokenFor(c, u, now)) {
      var i :| 0 <= i < |rs| && rs[i].token == RefreshTokenFor(c, u, now);
      SignInjective(c.refreshSecret, rs[i].user, rs[i].issuedAt, REFRESH_TOKEN_EXPIRY,
                    c.refreshSecret, u, now, REFRESH_TOKEN_EXPIRY);
    }
  }

  /**
   * A token that verifies and has a document carries the claim that document
   * was issued with: its user, its issue second and its expiry.
   */
  lemma VerifiedRecordClaim(rs: seq<RefreshToken>, c: Config, t: string, now: nat, i: nat)
    requires WellIssued(rs, c)
    requires i < |rs| && rs[i].token == t
    requires Verify(c.refreshSecret, t, now).Some?
    ensures Verify(c.refreshSecret, t, now).value == Claim(rs[i].user, rs[i].issuedAt, rs[i].expiresAt)
  {
    DecodeEncode(Token(Claim(rs[i].user, rs[i].issuedAt, rs[i].issuedAt + REFRESH_TOKEN_EXPIRY), c.refreshSecret));
  }

  /** The sweep only removes documents, so whatever is active after it was active before. */
  lemma SweepOnlyRemoves(rs: seq<RefreshToken>, t: string, sweptAt: nat)
    ensures HasActive(Unexpired(rs, sweptAt), t) ==> HasActive(rs, t)
  {
    var r := Unexpired(rs, sweptAt);
    if HasActive(r, t) {
      var i :| 0 <= i < |r| && r[i].token == t && !r[i].isRevoked;
      assert r[i] in rs;
    }
  }

  /** The sweep keeps every active document whose token still verifies at a later second. */
  lemma SweepKeepsLiveTokens(rs: seq<RefreshToken>, c: Config, t: string, sweptAt: nat, now: nat)
    requires WellIssued(rs, c)
    requires sweptAt <= now
    requires Verify(c.refreshSecret, t, now).Some? && HasActive(rs, t)
    ensures HasActive(Unexpired(rs, sweptAt), t)
  {
    var i :| 0 <= i < |rs| && rs[i].token == t && !rs[i].isRevoked;
    var x := rs[i];
    DecodeEncode(Token(Claim(x.user, x.issuedAt, x.issuedAt + REFRESH_TOKEN_EXPIRY), c.refreshSecret));
    assert !IsExpired(x, sweptAt);
    var r := Unexpired(rs, sweptAt);
    assert x in rs;
    assert x in r;
    var k :| 0 <= k < |r| && r[k] == x;
  }

  /**
   * The TTL sweep is invisible to `verifyRefreshToken`: at any second from the
   * sweep on, a token passes the signature-and-store check after the sweep
   * exactly when it did before, because a document expires with its token.
   */
  lemma SweepPreservesVerification(rs: seq<RefreshToken>, c: Config, t: string, sweptAt: nat, now: nat)
    requires WellIssued(rs, c)
    requires sweptAt <= now
    ensures (Verify(c.refreshSecret, t, now).Some? && HasActive(Unexpired(rs, sweptAt), t))
        <==> (Verify(c.refreshSecret, t, now).Some? && HasActive(rs, t))
  {
    SweepOnlyRemoves(rs, t, sweptAt);
    if Verify(c.refreshSecret, t, now).Some? && HasActive(rs, t) {
      SweepKeepsLiveTokens(rs, c, t, sweptAt, now);
    }
  }

  /** A document just created by `generateTokens` makes its token active. */
  lemma CreatedIsActive(rs: seq<RefreshToken>, t: string, u: UserId, expiresAt: nat, now: nat)
    ensures HasActive(rs + [Create(t, u, expiresAt, now)], t)
  {
    var r := rs + [Create(t, u, expiresAt, now)];
    assert r[|rs|].token == t && !r[|rs|].isRevoked;
  }

  // ---------------------------------------------------------------------
  // The store
  // ---------------------------------------------------------------------

  /** The collection's invariant: the unique index holds, and every document was issued and validated. */
  ghost predicate StoreValid(rs: seq<RefreshToken>, c: Config)
  {
    && UniqueTokens(rs)
    && WellIssued(rs, c)
    && forall i :: 0 <= i < |rs| ==> SatisfiesSchema(rs[i])
  }

  /** The RefreshToken collection together with the secrets used to sign what it holds. */
  class TokenStore {
    const config: Config
    var records: seq<RefreshToken>

    ghost predicate Valid()
      reads this
    {
      StoreValid(records, config)
    }

    constructor (config: Config)
      ensures Valid()
      ensures this.config == config && records == []
    {
      this.config := config;
      records := [];
    }

    /**
     * `generateTokens(userId)` at second `now`: signs both tokens and inserts
     * one document for the refresh token. The insert, and so the call, fails
     * when a document with the same token string already exists.
     */
    method GenerateTokens(userId: UserId, now: nat) returns (r: Result<TokenPair, StoreError>)
      requires Valid()
      modifies this
      ensures Valid()
      ensures var refresh := RefreshTokenFor(config, userId, now);
        if HasToken(old(records), refresh) then
          r == Err(DuplicateKey) && records == old(records)
        else
          && r == Ok(TokenPair(AccessTokenFor(config, userId, now), refresh))
          && records == old(records) + [Create(refresh, userId, now + REFRESH_TOKEN_EXPIRY, now)]
      // A user none of whose tokens is stored yet (a new one) always gets a pair.
      ensures (forall i :: 0 <= i < |old(records)| ==> old(records)[i].user != userId) ==> r.Ok?
    {
      var accessToken := AccessTokenFor(config, userId, now);
      var refreshToken := RefreshTokenFor(config, userId, now);
      var expiresAt := now + REFRESH_TOKEN_EXPIRY;
      CollisionIffSameSecond(records, config, userId, now);
      if HasToken(records, refreshToken) {
        return Err(DuplicateKey);
      }
      records := records + [Create(refreshToken, userId, expiresAt, now)];
      r := Ok(TokenPair(accessToken, refreshToken));
    }

    /**
     * `verifyRefreshToken(token)` at second `now`: the claim when the token is
     * signed with the refresh secret, not expired, and the store holds an
     * unrevoked document for it; `None` otherwise.
     */
    method VerifyRefreshToken(token: string, now: nat) returns (r: Option<Claim>)
      requires Valid()
      ensures r.Some? <==> Verify(config.refreshSecret, token, now).Some? && HasActive(records, token)
      ensures r.Some? ==> r == Verify(config.refreshSecret, token, now)
      ensures r.Some? ==> exists i :: 0 <= i < |records| && records[i].token == token && !records[i].isRevoked
                                      && records[i].user == r.value.userId && records[i].issuedAt == r.value.iat
    {
      var decoded := Verify(config.refreshSecret, token, now);
      if decoded.None? {
        return None;
      }
      if !HasActive(records, token) {
        return None;
      }
      var i :| 0 <= i < |records| && records[i].token == token && !records[i].isRevoked;
      VerifiedRecordClaim(records, config, token, now, i);
      r := decoded;
    }

    /** `revokeRefreshToken(token)`. */
    method RevokeRefreshToken(token: string)
      requires Valid()
      modifies this
      ensures Valid()
      ensures records == RevokeOne(old(records), token)
      ensures !HasActive(records, token)
    {
      RevokeOneEffect(records, token);
      RevokeOneDeactivates(records, token, token);
      records := RevokeOne(records, token);
    }

    /** `revokeAllUserTokens(userId)`. */
    method RevokeAllUserTokens(userId: UserId)
      requires Valid()
      modifies this
      ensures Valid()
      ensures records == RevokeUser(old(records), userId)
    {
      RevokeUserEffect(records, userId);
      records := RevokeUser(records, userId);
    }

    /** One pass of the TTL monitor at second `now`. */
    method ExpireDocuments(now: nat)
      requires Valid()
      modifies this
      ensures Valid()
      ensures records == Unexpired(old(records), now)
    {
      UnexpiredKeepsValid(records, config, now);
      records := Unexpired(records, now);
    }
  }

  /** Dropping expired documents keeps the store's invariant. */
  lemma UnexpiredKeepsValid(rs: seq<RefreshToken>, c: Config, now: nat)
    requires UniqueTokens(rs) && WellIssued(rs, c)
    requires forall i :: 0 <= i < |rs| ==> SatisfiesSchema(rs[i])
    ensures UniqueTokens(Unexpired(rs, now)) && WellIssued(Unexpired(rs, now), c)
    ensures forall i :: 0 <= i < |Unexpired(rs, now)| ==> SatisfiesSchema(Unexpired(rs, now)[i])
  {
    UnexpiredKeepsUnique(rs, now);
    var r := Unexpired(rs, now);
    forall i | 0 <= i < |r|
      ensures r[i].expiresAt == r[i].issuedAt + REFRESH_TOKEN_EXPIRY
      ensures r[i].token == RefreshTokenFor(c, r[i].user, r[i].issuedAt)
      ensures SatisfiesSchema(r[i])
    {
      assert r[i] in rs;
      var j :| 0 <= j < |rs| && rs[j] == r[i];
    }
  }

  /** Dropping expired documents keeps the tokens distinct. */
  lemma {:induction false} UnexpiredKeepsUnique(rs: seq<RefreshToken>, now: nat)
    requires UniqueTokens(rs)
    ensures UniqueTokens(Unexpired(rs, now))
  {
    if rs != [] {
      UnexpiredKeepsUnique(rs[1..], now);
      var tail := Unexpired(rs[1..], now);
      forall k | 0 <= k < |tail| ensures tail[k].token != rs[0].token {
        assert tail[k] in rs[1..];
      }
    }
  }
}
