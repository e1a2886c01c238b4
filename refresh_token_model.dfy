/**
 * The RefreshToken document: a persisted refresh token, its owner, when it was
 * issued, when it expires, and whether it has been revoked.
 */
module RefreshTokenModel {
  import opened Jwt

  /** One RefreshToken document. Times are in seconds. */
  datatype RefreshToken = RefreshToken(
    token: string,
    user: UserId,
    expiresAt: nat,
    issuedAt: nat,
    isRevoked: bool)

  /**
   * The document `RefreshToken.create({token, user, expiresAt})` inserts at second
   * `now`: the three given fields, and the defaults for the other two.
   */
  function Create(token: string, user: UserId, expiresAt: nat, now: nat): (r: RefreshToken)
    ensures r.token == token && r.user == user && r.expiresAt == expiresAt
    ensures r.issuedAt == now
    ensures !r.isRevoked
  {
    RefreshToken(token, user, expiresAt, now, false)
  }

  /** The schema's `required` rule for the string field: `token` may not be empty. */
  predicate SatisfiesSchema(r: RefreshToken)
  {
    r.token != ""
  }

  /**
   * The TTL index `{expiresAt: 1}` with `expireAfterSeconds: 0`: the store may
   * delete a document from the second its `expiresAt` is reached.
   */
  predicate IsExpired(r: RefreshToken, now: nat)
  {
    r.expiresAt <= now
  }

  /** The unique index on `token`: no two documents share a token string. */
  ghost predicate UniqueTokens(rs: seq<RefreshToken>)
  {
    forall i, j :: 0 <= i < j < |rs| ==> rs[i].token != rs[j].token
  }

  /** Some document carries token `t`. */
  predicate HasToken(rs: seq<RefreshToken>, t: string)
  {
    exists i :: 0 <= i < |rs| && rs[i].token == t
  }

  /** The query `findOne({token: t, isRevoked: false})` finds a document. */
  predicate HasActive(rs: seq<RefreshToken>, t: string)
  {
    exists i :: 0 <= i < |rs| && rs[i].token == t && !rs[i].isRevoked
  }
}
