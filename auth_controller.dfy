/**
 * The authentication flows: register, login, token refresh, logout, logout
 * from every device, and the "who am I" check behind the gate, as one service
 * over the User collection and the refresh-token store.
 */
module AuthController {
  import opened Wrappers
  import opened JsText
  import opened Json
  import opened Jwt
  import opened RefreshTokenModel
  import opened TokenUtils
  import opened UserModel
  import opened ErrorHandler
  import opened AuthGate

  // ---------------------------------------------------------------------
  // Response bodies
  // ---------------------------------------------------------------------

  /** The `user` object of a response: its id, username and email, and nothing else. */
  function UserJson(u: User): (j: Json)
    ensures Keys(j) == ["id", "username", "email"]
    ensures Member(j, "id") == JNum(u.id) && Member(j, "username") == JStr(u.username) && Member(j, "email") == JStr(u.email)
  {
    var m := [("id", JNum(u.id)), ("username", JStr(u.username)), ("email", JStr(u.email))];
    assert Lookup(m, "username") == Lookup(m[1..], "username");
    assert Lookup(m, "email") == Lookup(m[1..], "email") == Lookup(m[1..][1..], "email");
    assert |Keys(JObj(m))| == 3;
    assert forall i :: 0 <= i < 3 ==> Keys(JObj(m))[i] == ["id", "username", "email"][i];
    JObj(m)
  }

  /** No response built from a user ever carries its password. */
  lemma UserJsonOmitsPassword(u: User)
    ensures "password" !in Keys(UserJson(u))
    ensures Member(UserJson(u), "password") == JNull
  {
    var m := UserJson(u).members;
    assert m[1..][1..][1..] == [];
    assert Lookup(m, "password") == Lookup(m[1..], "password") == Lookup(m[1..][1..], "password") == Lookup(m[1..][1..][1..], "password");
  }

  function MissingFieldsResponse(username: Option<string>, email: Option<string>, password: Option<string>): Response
  {
    Response(400, JObj([
      ("message", JStr("All fields are required")),
      ("errors", JObj([
        ("username", FieldError(username, "Username is required")),
        ("email", FieldError(email, "Email is required")),
        ("password", FieldError(password, "Password is required"))]))]))
  }

  function EmailTakenResponse(): Response
  {
    Response(400, JObj([("message", JStr("Validation failed")),
                        ("errors", JObj([("email", JStr("Email is already registered"))]))]))
  }

  function UsernameTakenResponse(): Response
  {
    Response(400, JObj([("message", JStr("Validation failed")),
                        ("errors", JObj([("username", JStr("Username is already taken"))]))]))
  }

  /** The answer of `register`'s `catch`. */
  function RegisterFailedResponse(): Response
  {
    Response(500, JObj([("status", JStr("error")), ("message", JStr("Internal server error"))]))
  }

  /** `{accessToken, refreshToken, user}` or, without a user, `{accessToken, refreshToken}`. */
  function TokenData(pair: TokenPair, user: Option<User>): Json
  {
    JObj([("accessToken", JStr(pair.accessToken)), ("refreshToken", JStr(pair.refreshToken))]
         + if user.Some? then [("user", UserJson(user.value))] else [])
  }

  function SuccessResponse(code: nat, message: string, data: Json): Response
  {
    Response(code, JObj([("status", JStr("success")), ("message", JStr(message)), ("data", data)]))
  }

  function RegisteredResponse(pair: TokenPair, u: User): Response
  {
    SuccessResponse(201, "User registered successfully", TokenData(pair, Some(u)))
  }

  function LoggedInResponse(pair: TokenPair, u: User): Response
  {
    SuccessResponse(200, "Login successful", TokenData(pair, Some(u)))
  }

  function RefreshMissingResponse(): Response
  {
    Response(400, JObj([("status", JStr("error")), ("message", JStr("Refresh token is required"))]))
  }

  function RefreshInvalidResponse(): Response
  {
    Response(401, JObj([("status", JStr("error")), ("message", JStr("Invalid refresh token"))]))
  }

  function RefreshFailedResponse(): Response
  {
    Response(500, JObj([("status", JStr("error")), ("message", JStr("Failed to refresh token"))]))
  }

  function RefreshedResponse(pair: TokenPair): Response
  {
    SuccessResponse(200, "Tokens refreshed successfully", TokenData(pair, None))
  }

  function LoggedOutResponse(): Response
  {
    Response(200, JObj([("message", JStr("Logged out successfully"))]))
  }

  function LoggedOutAllResponse(): Response
  {
    Response(200, JObj([("message", JStr("Logged out from all devices"))]))
  }

  function VerifiedResponse(u: User): Response
  {
    Response(200, JObj([("status", JStr("success")), ("data", JObj([("user", UserJson(u))]))]))
  }

  // ---------------------------------------------------------------------
  // What the flows rely on
  // ---------------------------------------------------------------------

  /** The values `new User({username, email: email.toLowerCase(), ...})` stores, and whether the save goes through. */
  predicate CanInsert(users: seq<User>, username: string, email: string)
  {
    NormalizeUsername(username) != "" && NormalizeEmail(ToLower(email)) != ""
    && !Conflicts(users, NormalizeUsername(username), NormalizeEmail(ToLower(email)))
  }

  /** The controller's extra `toLowerCase` changes nothing: the stored email is the schema's own normal form. */
  lemma StoredEmailIsNormalized(email: string)
    ensures NormalizeEmail(ToLower(email)) == NormalizeEmail(email)
  {
    TrimToLowerCommute(email);
    ToLowerIdempotent(Trim(email));
  }

  /**
   * The first user the duplicate lookup finds matches the email or, failing
   * that, the username: the controller's two checks never both miss.
   */
  lemma DuplicateLookupMatches(users: seq<User>, email: string, username: string)
    requires FindOne(users, ByEmailOrUsername(email, username)).Some?
    requires FindOne(users, ByEmailOrUsername(email, username)).value.email != email
    ensures FindOne(users, ByEmailOrUsername(email, username)).value.username == username
  {
  }

  /**
   * A refresh in the very second its token was issued always fails: once the
   * old document is revoked, the new refresh token is the same string, and the
   * unique index refuses it.
   */
  lemma RefreshInIssueSecondCollides(rs: seq<RefreshToken>, c: Config, t: string, now: nat)
    requires WellIssued(rs, c)
    requires Verify(c.refreshSecret, t, now).Some? && HasActive(rs, t)
    ensures HasToken(RevokeOne(rs, t), RefreshTokenFor(c, Verify(c.refreshSecret, t, now).value.userId, now))
        <==> exists i :: 0 <= i < |rs| && rs[i].user == Verify(c.refreshSecret, t, now).value.userId && rs[i].issuedAt == now
    ensures Verify(c.refreshSecret, t, now).value.iat == now ==>
      HasToken(RevokeOne(rs, t), RefreshTokenFor(c, Verify(c.refreshSecret, t, now).value.userId, now))
  {
    var claim := Verify(c.refreshSecret, t, now).value;
    var revoked := RevokeOne(rs, t);
    assert WellIssued(revoked, c);
    CollisionIffSameSecond(revoked, c, claim.userId, now);
    var i :| 0 <= i < |rs| && rs[i].token == t && !rs[i].isRevoked;
    VerifiedRecordClaim(rs, c, t, now, i);
    if exists j :: 0 <= j < |rs| && rs[j].user == claim.userId && rs[j].issuedAt == now {
      var j :| 0 <= j < |rs| && rs[j].user == claim.userId && rs[j].issuedAt == now;
      assert revoked[j].user == claim.userId && revoked[j].issuedAt == now;
    }
    if exists j :: 0 <= j < |revoked| && revoked[j].user == claim.userId && revoked[j].issuedAt == now {
      var j :| 0 <= j < |revoked| && revoked[j].user == claim.userId && revoked[j].issuedAt == now;
      assert rs[j].user == claim.userId && rs[j].issuedAt == now;
    }
  }

  /** `username && email && password`. */
  predicate AllGiven(username: Option<string>, email: Option<string>, password: Option<string>)
  {
    Truthy(username) && Truthy(email) && Truthy(password)
  }

  /** The user `register` stores under id `id` at second `now`. */
  function RegisteredUser(id: UserId, username: string, email: string, password: string,
                          salt: nat, hookSalt: nat, now: nat): (u: User)
    ensures IsDoubleHashed(u.password)
  {
    User(id, NormalizeUsername(username), NormalizeEmail(email), Hash(Hash(Plain(password), salt), hookSalt), now, now)
  }

  /** Every refresh token belongs to a user id below `bound`. */
  predicate Owned(rs: seq<RefreshToken>, bound: nat)
  {
    forall i :: 0 <= i < |rs| ==> rs[i].user < bound
  }

  /** Revoking a token and issuing one to a handed-out id keep every token owned. */
  lemma OwnedAfterRevokeAndIssue(rs: seq<RefreshToken>, t: string, bound: nat, r: RefreshToken)
    requires Owned(rs, bound) && r.user < bound
    ensures Owned(RevokeOne(rs, t), bound)
    ensures Owned(RevokeOne(rs, t) + [r], bound)
  {
    var v := RevokeOne(rs, t);
    assert forall i :: 0 <= i < |v| ==> v[i].user == rs[i].user;
    assert forall i :: 0 <= i < |v| ==> (v + [r])[i] == v[i];
  }

  /** Appending a document with another token does not reactivate `t`. */
  lemma InactiveAfterAppend(rs: seq<RefreshToken>, r: RefreshToken, t: string)
    requires !HasActive(rs, t) && r.token != t
    ensures !HasActive(rs + [r], t)
  {
    assert forall i :: 0 <= i < |rs| ==> (rs + [r])[i] == rs[i];
  }

  /** Issuing a token to the newest user keeps every token owned by a handed-out id. */
  lemma OwnedAfterIssue(rs: seq<RefreshToken>, bound: nat, r: RefreshToken)
    requires Owned(rs, bound) && r.user == bound
    ensures Owned(rs + [r], bound + 1)
  {
  }

  /** Every stored password went through both hashes of registration. */
  ghost predicate OnlyRegistered(users: seq<User>)
  {
    forall i :: 0 <= i < |users| ==> IsDoubleHashed(users[i].password)
  }

  /** Appending a registered user keeps every password double-hashed. */
  lemma OnlyRegisteredAppend(users: seq<User>, u: User)
    requires OnlyRegistered(users) && IsDoubleHashed(u.password)
    ensures OnlyRegistered(users + [u])
  {
  }

  /**
   * The middle of `register`: hash the password, build the document with the
   * lower-cased email, and save it (the schema validates, the hook hashes
   * again, the unique indexes may refuse it).
   */
  method SaveNewUser(users: UserTable, username: string, email: string, password: string,
                     salt: nat, hookSalt: nat, now: nat) returns (r: Result<User, SaveError>)
    requires users.Valid()
    modifies users
    ensures users.Valid()
    ensures r.Ok? <==> CanInsert(old(users.users), username, email)
    ensures r.Err? ==> users.users == old(users.users) && users.nextId == old(users.nextId)
    ensures r.Ok? ==>
      && r.value == RegisteredUser(old(users.nextId), username, email, password, salt, hookSalt, now)
      && users.users == old(users.users) + [r.value] && users.nextId == old(users.nextId) + 1
  {
    var hashed := Hash(Plain(password), salt);
    var doc := new UserDocument(username, ToLower(email), hashed);
    StoredEmailIsNormalized(email);
    assert UserModel.SatisfiesSchema(doc.username, doc.email, doc.password) && !Conflicts(users.users, doc.username, doc.email)
      <==> CanInsert(users.users, username, email);
    r := users.Save(doc, hookSalt, now);
  }

  /**
   * `generateTokens` for a just-saved user: since no stored token belongs to
   * the new id, the store cannot refuse the pair.
   */
  method IssueFirstPair(tokens: TokenStore, id: UserId, now: nat) returns (pair: TokenPair)
    requires tokens.Valid() && Owned(tokens.records, id)
    modifies tokens
    ensures tokens.Valid() && Owned(tokens.records, id + 1)
    ensures pair == TokenPair(AccessTokenFor(tokens.config, id, now), RefreshTokenFor(tokens.config, id, now))
    ensures tokens.records == old(tokens.records) + [Create(pair.refreshToken, id, now + REFRESH_TOKEN_EXPIRY, now)]
  {
    assert forall i :: 0 <= i < |tokens.records| ==> tokens.records[i].user != id;
    var generated := tokens.GenerateTokens(id, now);
    OwnedAfterIssue(old(tokens.records), id, tokens.records[|tokens.records| - 1]);
    pair := generated.value;
  }

  /** `generateTokens` for the known user `u`: a new pair, unless the store refuses the refresh token. */
  method IssuePair(tokens: TokenStore, u: UserId, now: nat, bound: nat) returns (r: Result<TokenPair, StoreError>)
    requires tokens.Valid() && Owned(tokens.records, bound) && u < bound
    modifies tokens
    ensures tokens.Valid() && Owned(tokens.records, bound)
    ensures var pair := TokenPair(AccessTokenFor(tokens.config, u, now), RefreshTokenFor(tokens.config, u, now));
      if HasToken(old(tokens.records), pair.refreshToken) then
        r == Err(StoreError.DuplicateKey) && tokens.records == old(tokens.records)
      else
        r == Ok(pair) && tokens.records == old(tokens.records) + [Create(pair.refreshToken, u, now + REFRESH_TOKEN_EXPIRY, now)]
  {
    r := tokens.GenerateTokens(u, now);
  }

  /** Revoke the token `t` of user `u`, then issue `u` a new pair. */
  method RevokeAndIssue(tokens: TokenStore, t: string, u: UserId, now: nat, bound: nat) returns (r: Result<TokenPair, StoreError>)
    requires tokens.Valid() && Owned(tokens.records, bound) && u < bound
    requires exists i :: 0 <= i < |tokens.records| && tokens.records[i].token == t && tokens.records[i].user == u
    modifies tokens
    ensures tokens.Valid() && Owned(tokens.records, bound)
    ensures var revoked := RevokeOne(old(tokens.records), t);
      var pair := TokenPair(AccessTokenFor(tokens.config, u, now), RefreshTokenFor(tokens.config, u, now));
      if HasToken(revoked, pair.refreshToken) then
        r == Err(StoreError.DuplicateKey) && tokens.records == revoked
      else
        r == Ok(pair) && tokens.records == revoked + [Create(pair.refreshToken, u, now + REFRESH_TOKEN_EXPIRY, now)]
    ensures !HasActive(tokens.records, t)
  {
    var i :| 0 <= i < |tokens.records| && tokens.records[i].token == t && tokens.records[i].user == u;
    tokens.RevokeRefreshToken(t);
    assert tokens.records[i].token == t && tokens.records[i].user == u;
    var revoked := tokens.records;
    OwnedAfterRevokeAndIssue(old(tokens.records), t, bound, Create(RefreshTokenFor(tokens.config, u, now), u, now + REFRESH_TOKEN_EXPIRY, now));
    r := tokens.GenerateTokens(u, now);
    if r.Ok? {
      assert tokens.records[..|revoked|] == revoked;
      assert tokens.records[|revoked|].token != t;
      InactiveAfterAppend(revoked, tokens.records[|revoked|], t);
    }
  }

  // ---------------------------------------------------------------------
  // The service
  // ---------------------------------------------------------------------

  /** The two collections the flows read and write. */
  class AuthService {
    const users: UserTable
    const tokens: TokenStore

    /** Both collections are valid, and every refresh token belongs to a user the table has handed out. */
    ghost predicate Valid()
      reads this, users, tokens
    {
      users.Valid() && tokens.Valid() && Owned(tokens.records, users.nextId)
    }

    constructor (config: Config)
      ensures Valid() && fresh(users) && fresh(tokens)
      ensures users.users == [] && tokens.records == [] && tokens.config == config
    {
      users := new UserTable();
      tokens := new TokenStore(config);
    }

    /**
     * `register` at second `now`, with `salt` the controller's bcrypt salt and
     * `hookSalt` the pre-save hook's.
     */
    method Register(username: Option<string>, email: Option<string>, password: Option<string>,
                    salt: nat, hookSalt: nat, now: nat) returns (res: Response)
      requires Valid()
      modifies users, tokens
      ensures Valid()
      ensures OnlyRegistered(old(users.users)) ==> OnlyRegistered(users.users)
      // 1. a missing field
      ensures !AllGiven(username, email, password) ==>
        res == MissingFieldsResponse(username, email, password) && unchanged(users, tokens)
      // 2. a user with this exact email or username, the email checked first
      ensures AllGiven(username, email, password)
              && FindOne(old(users.users), ByEmailOrUsername(email.value, username.value)).Some? ==>
        && unchanged(users, tokens)
        && res == if FindOne(old(users.users), ByEmailOrUsername(email.value, username.value)).value.email == email.value
                  then EmailTakenResponse() else UsernameTakenResponse()
      // 3. the save fails: a name that trims to nothing, or a clash only the normalised values show
      ensures AllGiven(username, email, password)
              && FindOne(old(users.users), ByEmailOrUsername(email.value, username.value)).None?
              && !CanInsert(old(users.users), username.value, email.value) ==>
        && res == RegisterFailedResponse()
        && users.users == old(users.users) && users.nextId == old(users.nextId) && tokens.records == old(tokens.records)
      // 4. success: one new user, stored with a doubly hashed password, and one new refresh token
      ensures AllGiven(username, email, password)
              && FindOne(old(users.users), ByEmailOrUsername(email.value, username.value)).None?
              && CanInsert(old(users.users), username.value, email.value) ==>
        var id := old(users.nextId);
        var u := RegisteredUser(id, username.value, email.value, password.value, salt, hookSalt, now);
        var pair := TokenPair(AccessTokenFor(tokens.config, id, now), RefreshTokenFor(tokens.config, id, now));
        && users.users == old(users.users) + [u] && users.nextId == id + 1
        && tokens.records == old(tokens.records) + [Create(pair.refreshToken, id, now + REFRESH_TOKEN_EXPIRY, now)]
        && res == RegisteredResponse(pair, u)
    {
      if !Truthy(username) || !Truthy(email) || !Truthy(password) {
        return MissingFieldsResponse(username, email, password);
      }
      var existing := FindOne(users.users, ByEmailOrUsername(email.value, username.value));
      if existing.Some? {
        if existing.value.email == email.value {
          return EmailTakenResponse();
        }
        DuplicateLookupMatches(users.users, email.value, username.value);
        return UsernameTakenResponse();
      }
      res := CreateAccount(username.value, email.value, password.value, salt, hookSalt, now);
    }

    /**
     * The part of `register` after the duplicate lookup: save the new user and
     * issue its first token pair. Either failure is answered by the `catch`.
     */
    method CreateAccount(username: string, email: string, password: string, salt: nat, hookSalt: nat, now: nat)
      returns (res: Response)
      requires Valid()
      modifies users, tokens
      ensures Valid()
      ensures OnlyRegistered(old(users.users)) ==> OnlyRegistered(users.users)
      ensures !CanInsert(old(users.users), username, email) ==>
        && res == RegisterFailedResponse()
        && users.users == old(users.users) && users.nextId == old(users.nextId) && tokens.records == old(tokens.records)
      ensures CanInsert(old(users.users), username, email) ==>
        var id := old(users.nextId);
        var u := RegisteredUser(id, username, email, password, salt, hookSalt, now);
        var pair := TokenPair(AccessTokenFor(tokens.config, id, now), RefreshTokenFor(tokens.config, id, now));
        && users.users == old(users.users) + [u] && users.nextId == id + 1
        && tokens.records == old(tokens.records) + [Create(pair.refreshToken, id, now + REFRESH_TOKEN_EXPIRY, now)]
        && res == RegisteredResponse(pair, u)
    {
      var saved := SaveNewUser(users, username, email, password, salt, hookSalt, now);
      if saved.Err? {
        return RegisterFailedResponse();
      }
      if OnlyRegistered(old(users.users)) {
        OnlyRegisteredAppend(old(users.users), saved.value);
      }
      var pair := IssueFirstPair(tokens, saved.value.id, now);
      res := RegisteredResponse(pair, saved.value);
    }

    /** `login` at second `now`; `stack` is the trace any error it raises carries. */
    method Login(email: Option<string>, password: Option<string>, now: nat, stack: string) returns (out: Outcome)
      requires Valid()
      modifies tokens
      ensures Valid()
      ensures out.Next? ==> fresh(out.err) && out.err.stack == stack && tokens.records == old(tokens.records)
      // 1. a missing field
      ensures !(Truthy(email) && Truthy(password)) ==>
        out.Next? && IsApiError(out.err, "All fields are required", 400,
          JObj([("email", FieldError(email, "Email is required")), ("password", FieldError(password, "Password is required"))]))
      // 2. no user with the lower-cased email
      ensures Truthy(email) && Truthy(password) && FindOne(users.users, ByEmail(ToLower(email.value))).None? ==>
        out.Next? && IsApiError(out.err, "Authentication failed", 401, JObj([("email", JStr("Invalid email or password"))]))
      // 3. a password that does not match
      ensures Truthy(email) && Truthy(password) && FindOne(users.users, ByEmail(ToLower(email.value))).Some?
              && !Compare(password.value, FindOne(users.users, ByEmail(ToLower(email.value))).value.password) ==>
        out.Next? && IsApiError(out.err, "Authentication failed", 401, JObj([("password", JStr("Invalid email or password"))]))
      // 4. a match: a new token pair, unless the store refuses it
      ensures Truthy(email) && Truthy(password) && FindOne(users.users, ByEmail(ToLower(email.value))).Some?
              && Compare(password.value, FindOne(users.users, ByEmail(ToLower(email.value))).value.password) ==>
        var u := FindOne(users.users, ByEmail(ToLower(email.value))).value;
        var pair := TokenPair(AccessTokenFor(tokens.config, u.id, now), RefreshTokenFor(tokens.config, u.id, now));
        if HasToken(old(tokens.records), pair.refreshToken) then
          out.Next? && IsApiError(out.err, "Failed to generate authentication tokens", 500, JObj([]))
        else
          && out == Reply(LoggedInResponse(pair, u))
          && tokens.records == old(tokens.records) + [Create(pair.refreshToken, u.id, now + REFRESH_TOKEN_EXPIRY, now)]
      // Registration stores a password hashed twice, so no login ever succeeds.
      ensures OnlyRegistered(users.users) ==> out.Next?
    {
      if !Truthy(email) || !Truthy(password) {
        var e := new ErrorObject.Api("All fields are required", 400,
          Some(JObj([("email", FieldError(email, "Email is required")), ("password", FieldError(password, "Password is required"))])),
          stack);
        return Next(e);
      }
      var found := FindOne(users.users, ByEmail(ToLower(email.value)));
      if found.None? {
        var e := new ErrorObject.Api("Authentication failed", 401, Some(JObj([("email", JStr("Invalid email or password"))])), stack);
        return Next(e);
      }
      var user := found.value;
      if !Compare(password.value, user.password) {
        var e := new ErrorObject.Api("Authentication failed", 401, Some(JObj([("password", JStr("Invalid email or password"))])), stack);
        return Next(e);
      }
      assert user.id < users.nextId;
      var generated := IssuePair(tokens, user.id, now, users.nextId);
      if generated.Err? {
        var e := new ErrorObject.Api("Failed to generate authentication tokens", 500, None, stack);
        return Next(e);
      }
      out := Reply(LoggedInResponse(generated.value, user));
    }

    /** `refreshToken` at second `now`: rotation is revoke first, then issue. */
    method Refresh(refreshToken: Option<string>, now: nat) returns (res: Response)
      requires Valid()
      modifies tokens
      ensures Valid()
      ensures !Truthy(refreshToken) ==> res == RefreshMissingResponse() && unchanged(tokens)
      ensures Truthy(refreshToken)
              && !(Jwt.Verify(tokens.config.refreshSecret, refreshToken.value, now).Some? && HasActive(old(tokens.records), refreshToken.value)) ==>
        res == RefreshInvalidResponse() && unchanged(tokens)
      ensures Truthy(refreshToken)
              && Jwt.Verify(tokens.config.refreshSecret, refreshToken.value, now).Some? && HasActive(old(tokens.records), refreshToken.value) ==>
        var u := Jwt.Verify(tokens.config.refreshSecret, refreshToken.value, now).value.userId;
        var revoked := RevokeOne(old(tokens.records), refreshToken.value);
        var pair := TokenPair(AccessTokenFor(tokens.config, u, now), RefreshTokenFor(tokens.config, u, now));
        if HasToken(revoked, pair.refreshToken) then
          res == RefreshFailedResponse() && tokens.records == revoked
        else
          res == RefreshedResponse(pair) && tokens.records == revoked + [Create(pair.refreshToken, u, now + REFRESH_TOKEN_EXPIRY, now)]
      // Once a refresh gets past verification, the submitted token is dead.
      ensures Truthy(refreshToken) && res.status != 401 ==> !HasActive(tokens.records, refreshToken.value)
    {
      if !Truthy(refreshToken) {
        return RefreshMissingResponse();
      }
      var t := refreshToken.value;
      var decoded := tokens.VerifyRefreshToken(t, now);
      if decoded.None? {
        return RefreshInvalidResponse();
      }
      var generated := Rotate(t, decoded.value.userId, now);
      if generated.Err? {
        return RefreshFailedResponse();
      }
      res := RefreshedResponse(generated.value);
    }

    /**
     * The rotation step of `refreshToken`: revoke the submitted token `t` of
     * user `u`, then issue a new pair for `u`.
     */
    method Rotate(t: string, u: UserId, now: nat) returns (r: Result<TokenPair, StoreError>)
      requires Valid()
      requires exists i :: 0 <= i < |tokens.records| && tokens.records[i].token == t && tokens.records[i].user == u
      modifies tokens
      ensures Valid()
      ensures var revoked := RevokeOne(old(tokens.records), t);
        var pair := TokenPair(AccessTokenFor(tokens.config, u, now), RefreshTokenFor(tokens.config, u, now));
        if HasToken(revoked, pair.refreshToken) then
          r == Err(StoreError.DuplicateKey) && tokens.records == revoked
        else
          r == Ok(pair) && tokens.records == revoked + [Create(pair.refreshToken, u, now + REFRESH_TOKEN_EXPIRY, now)]
      ensures !HasActive(tokens.records, t)
    {
      var i :| 0 <= i < |tokens.records| && tokens.records[i].token == t && tokens.records[i].user == u;
      assert u < users.nextId;
      r := RevokeAndIssue(tokens, t, u, now, users.nextId);
    }

    /** `logout`: revokes the token it is given, if any, and always succeeds. */
    method Logout(refreshToken: Option<string>) returns (res: Response)
      requires Valid()
      modifies tokens
      ensures Valid()
      ensures res == LoggedOutResponse()
      ensures Truthy(refreshToken) ==> tokens.records == RevokeOne(old(tokens.records), refreshToken.value)
      ensures !Truthy(refreshToken) ==> unchanged(tokens)
    {
      if Truthy(refreshToken) {
        tokens.RevokeRefreshToken(refreshToken.value);
      }
      res := LoggedOutResponse();
    }

    /** `logoutAll` for the authenticated user `userId`. */
    method LogoutAll(userId: UserId) returns (res: Response)
      requires Valid()
      modifies tokens
      ensures Valid()
      ensures res == LoggedOutAllResponse()
      ensures tokens.records == RevokeUser(old(tokens.records), userId)
    {
      tokens.RevokeAllUserTokens(userId);
      res := LoggedOutAllResponse();
    }

    /** `verify` for the authenticated user `userId`; `stack` is the trace of the error it may raise. */
    method Verify(userId: UserId, stack: string) returns (out: Outcome)
      requires Valid()
      ensures FindOne(users.users, ById(userId)).Some? ==> out == Reply(VerifiedResponse(FindOne(users.users, ById(userId)).value))
      ensures FindOne(users.users, ById(userId)).None? ==>
        out.Next? && fresh(out.err) && IsApiError(out.err, "User not found", 404, JObj([])) && out.err.stack == stack
    {
      var found := FindOne(users.users, ById(userId));
      if found.None? {
        var e := new ErrorObject.Api("User not found", 404, None, stack);
        return Next(e);
      }
      out := Reply(VerifiedResponse(found.value));
    }

    /** `GET /verify`: the gate, then `verify` for the id the gate attached. */
    method VerifyRoute(req: Request, now: nat, stack: string) returns (out: Outcome)
      requires Valid()
      modifies req
      ensures Valid() && unchanged(users, tokens)
      ensures match Gate(tokens.config, req.authorization, now)
        case NoToken => out == Reply(NoTokenResponse())
        case InvalidToken => out == Reply(InvalidTokenResponse())
        case Authenticated(id) =>
          && req.user == Some(RequestUser(id))
          && (FindOne(users.users, ById(id)).Some? ==> out == Reply(VerifiedResponse(FindOne(users.users, ById(id)).value)))
          && (FindOne(users.users, ById(id)).None? ==> out.Next? && IsApiError(out.err, "User not found", 404, JObj([])))
    {
      var rejected := Auth(tokens.config, req, now);
      if rejected.Some? {
        return Reply(rejected.value);
      }
      out := Verify(req.user.value.id, stack);
    }

    /** `POST /logout-all`: the gate, then `logoutAll` for the id the gate attached. */
    method LogoutAllRoute(req: Request, now: nat) returns (res: Response)
      requires Valid()
      modifies req, tokens
      ensures Valid()
      ensures match Gate(tokens.config, req.authorization, now)
        case NoToken => res == NoTokenResponse() && unchanged(tokens)
        case InvalidToken => res == InvalidTokenResponse() && unchanged(tokens)
        case Authenticated(id) =>
          res == LoggedOutAllResponse() && tokens.records == RevokeUser(old(tokens.records), id)
    {
      var rejected := Auth(tokens.config, req, now);
      if rejected.Some? {
        return rejected.value;
      }
      res := LogoutAll(req.user.value.id);
    }
  }

  /**
   * The same refresh token presented twice: the second presentation is always
   * answered 401, whatever the first one returned and whenever it comes.
   */
  method RefreshReplay(service: AuthService, refreshToken: string, first: nat, second: nat)
    returns (r1: Response, r2: Response)
    requires service.Valid()
    requires first <= second
    modifies service.tokens
    ensures service.Valid()
    ensures r2 == RefreshInvalidResponse() || (r1 == RefreshMissingResponse() && r2 == RefreshMissingResponse())
  {
    r1 := service.Refresh(Some(refreshToken), first);
    r2 := service.Refresh(Some(refreshToken), second);
  }
}
