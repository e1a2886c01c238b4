# Blog backend: tokens, authentication and blog ownership in Dafny

This project models the core of a small Express/MongoDB blog backend and proves
properties of that model. The core has four parts:

- **Token lifecycle.** JWT access tokens last 15 minutes. JWT refresh tokens last 7 days.
- **Refresh-token store.** A refresh token is valid only while its document is unrevoked.
- **Authentication flows and gate.** Register, login, refresh (revoke, then issue), logout and logout-all. The bearer-token gate sits in front of the protected routes.
- **Blog handlers.** Create, list newest first a page at a time, read, and update or delete your own post.

The error handler that turns `next(error)` into a JSON response is modelled too.

Modules, one file each:

| file | module | models |
|---|---|---|
| `wrappers.dfy` | `Wrappers` | `Option`, `Result` |
| `json.dfy` | `Json` | JSON values and `{status, body}` responses |
| `js_text.dfy` | `JsText` | the JavaScript string built-ins the core uses: `trim`, `toLowerCase`, `startsWith`, `split`, template literals of numbers, `parseInt`, truthiness |
| `jwt.dfy` | `Jwt` | signed claims `{userId, iat, exp}`; `sign` and `verify` |
| `refresh_token_model.dfy` | `RefreshTokenModel` | the RefreshToken document, its defaults, unique index and TTL index |
| `token_utils.dfy` | `TokenUtils` | the secrets and expiries, `generateTokens`, `verifyAccessToken`, `verifyRefreshToken`, `revokeRefreshToken`, `revokeAllUserTokens`, and the TTL sweep, over a `TokenStore` class |
| `auth_gate.dfy` | `AuthGate` | the `auth` middleware |
| `error_handler.dfy` | `ErrorHandler` | `APIError`, `errorHandler` |
| `user_model.dfy` | `UserModel` | the User document, its setters and validators, the pre-save hook, `comparePassword`, and the collection (`UserTable`) |
| `auth_controller.dfy` | `AuthController` | the six auth handlers, as an `AuthService` class over the two collections |
| `blog_controller.dfy` | `BlogController` | the six blog handlers over a `BlogStore` class, and pagination |

### Modelling choices

- **Time** is an integer number of seconds.
  - An access token expires `iat + 900`.
  - A refresh token expires `iat + 604800`.
  - Its document's `expiresAt` is `now + 604800`.
  - The clock is a parameter of every operation that reads it.
- **A JWT** is a claim plus the secret it was signed with.
  - Verification accepts a string exactly when it is the string that signing its claim with the verifying secret produces, and `now < exp` (`Jwt.Verify`, `Jwt.VerifyEncoded`, `Jwt.VerifyOnlySigned`). Who besides the server can produce such a string is outside the model (see `Jwt.Verify` under "Left out").
  - Tokens are written as decimal fields, so `decode(encode(t)) == t` is proved, not assumed.
  - Signing is deterministic. Two refresh tokens issued to the same user in the same second are the same string, so the store's unique index refuses the second one. The model keeps this behaviour and proves its consequences.
- **bcrypt** is a pair:
  - `Hash(p, salt)` builds a `Bcrypt(p, salt)` value;
  - `Compare(text, stored)` holds exactly when `stored` hashes `Plain(text)`.
  - The salts are parameters.
- **The User and RefreshToken collections** are each a class holding a sequence of documents.
- **The Blog collection** is a class holding a map from id to post.
- **User ids** are handed out from a counter. **Blog ids** are produced by the caller.
- **Responses** are a status code and a JSON value. A handler that calls `next(error)` returns an `Outcome`: `Reply(response)` or `Next(error object)`.
- **Request bodies.** An absent body field is `None`, and JavaScript truthiness of a string field is `Truthy`.

### What the code does that a reader may not expect (modelled as written)

- **No user can log in with the password they registered with.**
  - `register` hashes the password, and then the pre-save hook hashes the already-hashed value again, because the field counts as modified.
  - `login` compares the typed text with that double hash. The only text that would match is the string of the intermediate hash, which is never disclosed; in the model no typed text equals a hash (see `UserModel.Compare` under "Left out").
  - `AuthController.AuthService.Register` keeps `OnlyRegistered`, under which `AuthController.AuthService.Login` always ends with an error.
- **The password length rule never sees the typed text.** Validation runs before the pre-save hook, so `minlength: 6` measures the controller's 60-character hash. Any non-empty password is accepted (`UserModel.HashedPasswordPassesMinLength`).
- **Some duplicates may get 500 instead of 400.** This holds under the model's reading of query casting (see "Left out"): the duplicate lookup in `register` uses the email and username exactly as submitted, while the stored values are trimmed and lower-cased. An email that differs from a stored one only in case or surrounding spaces then passes the lookup, the unique index refuses the insert, and the client gets the `catch`'s 500 instead of a 400. If the driver instead applies the schema's setters to the query, the lookup finds that user, but its stored email still differs from the submitted one, so unless the username matches the handler falls through to the insert and the client again gets the 500.
- **Refreshing in the same second fails.** A refresh in the same second as the token's own issue revokes the old token and then fails to issue a new one (500). The old token is gone either way (`AuthController.RefreshInIssueSecondCollides`).
- **Negative page parameters behave as the driver makes them.**
  - A negative `skip` (a page below 1 with a positive limit, or above 1 with a negative one) makes the query fail with a driver error that goes to the error handler (500).
  - A negative `limit` returns at most `|limit|` posts.
- **Paging can repeat or skip posts created in the same second.** The sort on `createdAt` leaves ties in no fixed order, and each request sorts afresh. Two posts with the same `createdAt` and a limit of 1 can both come back as `[a]` on page 1 and on page 2, and `b` is then never shown. Paging is exact only when no two selected posts share a second (`BlogController.ListingUnique`).

## Model

| member | source | states |
|---|---|---|
| JsText.Trim | models/User.js:10 | the result is a slice of the input with no white space at either end, and everything cut off on either side is white space |
| JsText.TrimIdempotent | models/User.js:10 | trimming twice is trimming once |
| JsText.TrimEmpty | controllers/blogController.js:19-20 | a field trims to the empty string exactly when it is all white space |
| JsText.ToLower | controllers/authController.js:49 | same length, each character lower-cased on its own, so no upper-case ASCII letter is left |
| JsText.ToLowerIdempotent | models/User.js:17 | lower-casing twice is lower-casing once |
| JsText.TrimToLowerCommute | models/User.js:16-17 | the `trim` and `lowercase` setters commute |
| JsText.Split | middleware/auth.js:13 | at least one field, and no field contains the separator |
| JsText.SplitFirstField | middleware/auth.js:13 | the first field of `a + sep + b` is `a` when `a` has no separator, and the rest is the split of `b` |
| JsText.JoinSplit | middleware/auth.js:13 | joining the fields of a split rebuilds the string |
| JsText.IntToString | utils/errorHandler.js:7 | the rendering starts with `-` exactly for negative numbers |
| JsText.NatToDecimalFirst | utils/errorHandler.js:7 | the first character of a rendered number is its leading decimal digit |
| JsText.DecimalRoundTrip | utils/tokenUtils.js:12-22 | reading back a rendered natural number gives the number |
| JsText.ParseInt | controllers/blogController.js:40-41 | a string that is empty or all white space reads as NaN (`None`) |
| JsText.ParseIntSkipsWhitespace | controllers/blogController.js:40-41 | leading white space does not change what `parseInt` reads |
| JsText.ParseIntUnsigned | controllers/blogController.js:40-41 | (helper for the three lemmas below) text starting with neither white space nor a sign is read by the unsigned part of `parseInt` |
| JsText.ParseIntDecimal | controllers/blogController.js:40-41 | a non-empty run `d` of decimal digits, not followed by another digit and not starting `0x`/`0X`, reads as the base-10 value of `d`, whatever text follows |
| JsText.ParseIntHex | controllers/blogController.js:40-41 | `0x` or `0X` then a non-empty run `h` of hex digits, not followed by another hex digit, reads as the base-16 value of `h`, whatever text follows |
| JsText.ParseIntNaN | controllers/blogController.js:40-41 | unsigned text reads as NaN exactly when no digit of its base comes first: after `0x`/`0X` no hex digit, otherwise no decimal digit |
| JsText.ParseIntMinus | controllers/blogController.js:40-41 | a leading `-` negates the number read after it, and NaN stays NaN |
| JsText.ParseIntPlus | controllers/blogController.js:40-41 | a leading `+` is skipped: `parseInt("+" + u)` is `parseInt(u)` |
| JsText.Truthy | controllers/blogController.js:11 | an absent field and the empty string are falsy; any other string is truthy |
| JsText.StartsWith | middleware/auth.js:6 | `s.startsWith(p)` holds exactly when `s` is `p` followed by some rest |
| JsText.ParseIntOfIntToString | controllers/blogController.js:40-41 | `parseInt` of a rendered integer gives that integer |
| Jwt.Sign | utils/tokenUtils.js:12-22 | a signed token contains no space |
| Jwt.Verify | utils/tokenUtils.js:40 | an accepted string is exactly the encoding of its claim under the verifying secret, and the claim is not expired |
| Jwt.VerifyEncoded | utils/tokenUtils.js:40 | the encoding of any claim under a secret verifies under that secret to exactly that claim while `now < exp`, and never after |
| Jwt.VerifyOnlySigned | utils/tokenUtils.js:12-40 | every accepted string is the one `jwt.sign` produces for the claim's user, issue second and lifetime under the verifying secret |
| Jwt.DecodeEncode | utils/tokenUtils.js:12-22 | decoding a token's string form gives back the token |
| Jwt.EncodeHasNoSpace | middleware/auth.js:13 | the string form of a token never contains a space |
| Jwt.VerifySigned | utils/tokenUtils.js:12-22 | a freshly signed token verifies under its own secret to exactly its claim until `iat + ttl`, and never after |
| Jwt.VerifyOtherKey | utils/tokenUtils.js:4-5 | a token never verifies under a secret other than its own |
| Jwt.SignInjective | utils/tokenUtils.js:18-22 | two signatures are equal exactly when secret, user, issue second and lifetime are equal |
| RefreshTokenModel.Create | models/refreshToken.js:18-25 | the created document has the given token, user and expiry, `issuedAt` = now and `isRevoked` = false |
| TokenUtils.AccessTokenFor | utils/tokenUtils.js:12-16 | the access token has no space and decodes to `{userId, iat: now, exp: now + 900}` signed with the access secret |
| TokenUtils.RefreshTokenFor | utils/tokenUtils.js:18-22 | the refresh token has no space and decodes to `{userId, iat: now, exp: now + 604800}` signed with the refresh secret |
| TokenUtils.EnvOr | utils/tokenUtils.js:4-5 | an unset or empty variable takes the fallback; a set one is used as is |
| TokenUtils.ConfigFromEnv | utils/tokenUtils.js:4-5 | neither secret is ever empty, and when both variables are unset or empty the two default secrets differ |
| TokenUtils.VerifyAccessToken | utils/tokenUtils.js:38-44 | the claim of an unexpired token signed with the access secret, else `None`; a function of token, secret and clock only |
| TokenUtils.AccessTokenVerifies | utils/tokenUtils.js:7 | an access token issued at `iat` is accepted with its claim exactly while `now < iat + 900` |
| TokenUtils.RefreshTokenIsNotAccess | utils/tokenUtils.js:38-44 | with distinct secrets a refresh token is never accepted as an access token |
| TokenUtils.AccessTokenIsNotRefresh | utils/tokenUtils.js:46-48 | with distinct secrets an access token never passes the refresh signature check |
| TokenUtils.SharedSecretAcceptsRefreshAsAccess | utils/tokenUtils.js:4-5 | when both variables hold the same secret, a refresh token passes the access check for its 7 days |
| TokenUtils.RevokeOne | utils/tokenUtils.js:65-70 | same length, and every document keeps its token, user, issue time and expiry |
| TokenUtils.RevokeUser | utils/tokenUtils.js:72-77 | same number of documents |
| TokenUtils.Unexpired | models/refreshToken.js:28 | exactly the documents not yet expired remain and nothing is added |
| TokenUtils.RevokeOneEffect | utils/tokenUtils.js:65-70 | with unique tokens only the document with token `t` is revoked; with none, nothing changes |
| TokenUtils.RevokeOneIdempotent | utils/tokenUtils.js:65-70 | revoking twice is revoking once |
| TokenUtils.RevokeOneDeactivates | utils/tokenUtils.js:50-57 | after revoking `t` no unrevoked document has `t`; every other token stays active or inactive as before |
| TokenUtils.RevokeUserEffect | utils/tokenUtils.js:72-77 | all of `u`'s documents are revoked, other users' documents are unchanged, and no token, owner, issue time or expiry changes |
| TokenUtils.RevokeUserDefeatsUserTokens | utils/tokenUtils.js:72-77 | a refresh token that verifies as `u`'s is not active once `u`'s tokens are revoked |
| TokenUtils.CollisionIffSameSecond | utils/tokenUtils.js:18-30 | the new refresh token collides with a stored one exactly when that one was issued to the same user in the same second |
| TokenUtils.VerifiedRecordClaim | utils/tokenUtils.js:46-59 | a token that verifies and has a document carries that document's user, issue second and expiry |
| TokenUtils.SweepOnlyRemoves | models/refreshToken.js:28 | a token active after the TTL sweep was active before it |
| TokenUtils.SweepKeepsLiveTokens | models/refreshToken.js:28 | the sweep never deletes the document of a token that still verifies |
| TokenUtils.SweepPreservesVerification | models/refreshToken.js:28 | from the sweep on, `verifyRefreshToken` answers the same before and after the sweep |
| TokenUtils.CreatedIsActive | utils/tokenUtils.js:26-30 | the token of a just-created document is active |
| TokenUtils.UnexpiredKeepsValid | models/refreshToken.js:28 | the sweep keeps the unique index, the issue invariant and the schema |
| TokenUtils.TokenStore.GenerateTokens | utils/tokenUtils.js:11-36 | appends exactly one document (the refresh token, the user, expiry now + 7 days, unrevoked) and returns the pair; on a duplicate token string it fails and changes nothing; a user with no stored token always succeeds |
| TokenUtils.TokenStore.VerifyRefreshToken | utils/tokenUtils.js:46-63 | non-`None` iff the token verifies under the refresh secret and an unrevoked document holds it; the result is the verified claim and names that document's user and issue second |
| TokenUtils.TokenStore.RevokeRefreshToken | utils/tokenUtils.js:65-70 | the new store is `RevokeOne` of the old, and the token is no longer active |
| TokenUtils.TokenStore.RevokeAllUserTokens | utils/tokenUtils.js:72-77 | the new store is `RevokeUser` of the old |
| TokenUtils.TokenStore.ExpireDocuments | models/refreshToken.js:28 | the new store is the unexpired documents of the old, and stays valid |
| AuthGate.BearerToken | middleware/auth.js:5-13 | a token exactly when the header starts with "Bearer ", and it is the second space-separated field |
| AuthGate.BearerTokenOfHeader | middleware/auth.js:13 | "Bearer " followed by a space-free token yields exactly that token |
| AuthGate.Gate | middleware/auth.js:5-23 | no token iff no bearer token; authenticated iff the bearer token passes `verifyAccessToken`, with its `userId` |
| AuthGate.GateAcceptsIssuedAccessToken | middleware/auth.js:14-24 | a header with an access token issued at `iat` authenticates its user while `now < iat + 900` |
| AuthGate.GateRejectsExpiredAccessToken | middleware/auth.js:14-21 | the same header is rejected as invalid once the token has expired |
| AuthGate.GateRejectsRefreshToken | middleware/auth.js:14-21 | a refresh token in the header is rejected when the secrets differ |
| AuthGate.Auth | middleware/auth.js:3-24 | 401 "No token provided" or 401 "Invalid or expired token" with the request untouched and `next` not called; otherwise `req.user = {id}` and `next` called once; the store is not among the things it may change |
| ErrorHandler.StatusFor | utils/errorHandler.js:7 | "fail" or "error" |
| ErrorHandler.StatusForLeadingDigit | utils/errorHandler.js:7 | "fail" exactly when the code is non-negative and its leading decimal digit is 4 |
| ErrorHandler.StatusForClientError | utils/errorHandler.js:7 | every 4xx code is "fail" |
| ErrorHandler.StatusForServerError | utils/errorHandler.js:7 | every 5xx code is "error" |
| ErrorHandler.ResponseCode | utils/errorHandler.js:15 | a given non-zero code is kept; a missing or zero one becomes 500 |
| ErrorHandler.ResponseStatus | utils/errorHandler.js:16 | a given non-empty status is kept; a missing or empty one becomes "error" |
| ErrorHandler.FieldError | controllers/authController.js:18-20 | a missing or empty field gets its message, a present one the empty string |
| ErrorHandler.ErrorBody | utils/errorHandler.js:20-33 | the body has `status` and `message`, then `errors` when it is defined, then `stack` when it is sent, each carrying the value given |
| ErrorHandler.ErrorObject.Api | utils/errorHandler.js:3-8 | the code as given, `errors` defaulting to `{}`, status "fail"/"error" from the code |
| ErrorHandler.ErrorObject.Internal | utils/errorHandler.js:15-16 | an error with no code, status or field errors |
| ErrorHandler.ErrorObject.Handle | utils/errorHandler.js:12-34 | writes the defaulted code and status back onto the error and answers with them; the stack only when `NODE_ENV` is "development" |
| ErrorHandler.Respond | controllers/blogController.js:32-34 | a reply goes out unchanged; an error goes through the handler |
| UserModel.Hash | models/User.js:36 | a hash never equals the value it hashes |
| UserModel.Compare | models/User.js:51 | true exactly when the stored value is a hash of the candidate text |
| UserModel.NormalizeUsername | models/User.js:10 | the stored username is trimmed |
| UserModel.NormalizeEmail | models/User.js:16-17 | the stored email is trimmed and has no upper-case ASCII letter |
| UserModel.NormalizeIdempotent | models/User.js:10-17 | a stored username or email passes through the setters unchanged |
| UserModel.HashedPasswordPassesMinLength | models/User.js:22 | any hash passes `minlength: 6` |
| UserModel.ComparePassword | models/User.js:44-58 | the answer of comparing the candidate with the stored password |
| UserModel.DoubleHashedNeverMatches | models/User.js:31-37 | no typed text matches a password hashed twice (in the model a typed text is never a hash's string) |
| UserModel.UserDocument.constructor | models/User.js:4-28 | the setters are applied and the password counts as modified |
| UserModel.UserDocument.PreSave | models/User.js:31-41 | hashes the password only if it was modified; nothing else changes |
| UserModel.FindOne | controllers/authController.js:25-27 | `findOne` for the three filters the handlers use (this `$or` of email and username, `{email}` at line 97 and `findById` at line 217): a found user is the first stored one, in insertion order, that the filter selects, and `None` exactly when no stored user is selected |
| UserModel.NoMatchIffNoConflict | controllers/authController.js:25-27 | the `$or` lookup finds nothing exactly when the unique indexes would accept a user with that username and email |
| UserModel.UserTable.Save | models/User.js:4-41 | validation first (nothing changes on failure), then the hook, then the insert, refused exactly on a username or email clash; on success one user appended with the next id and both timestamps = now |
| AuthController.UserJson | controllers/authController.js:63-67 | exactly the keys id, username, email, with the user's values |
| AuthController.UserJsonOmitsPassword | controllers/authController.js:63-67 | no response user carries a password |
| AuthController.StoredEmailIsNormalized | controllers/authController.js:49 | the controller's `toLowerCase` does not change what the setters store |
| AuthController.DuplicateLookupMatches | controllers/authController.js:29-42 | (helper: a corollary of `UserModel.FindOne`'s contract, kept for `Register`) with the lookup comparing the submitted strings as they are: when the found user's email differs, its username matches, so one of the two 400 answers is always given |
| AuthController.RefreshInIssueSecondCollides | controllers/authController.js:168-169 | after revoking, the new refresh token collides exactly when the user has a token issued this second, in particular when the submitted token was issued this second |
| AuthController.RegisteredUser | controllers/authController.js:44-53 | a registered user's password is hashed twice over the typed text |
| AuthController.OwnedAfterIssue | controllers/authController.js:55 | (helper for `IssueFirstPair`) a token for the newest user keeps every token owned by a handed-out id |
| AuthController.SaveNewUser | controllers/authController.js:44-53 | saves exactly when the normalised fields are non-empty and clash with nobody; on success the user is appended as `RegisteredUser`, otherwise nothing changes; a table of registered users stays one |
| AuthController.IssueFirstPair | controllers/authController.js:55 | a user just saved always gets its token pair, and exactly its refresh document is appended |
| AuthController.AuthService.Register | controllers/authController.js:7-77 | in order: 400 for a missing field; 400 email, then 400 username, for a lookup hit; 500 when the save fails; otherwise one user and one refresh token appended and 201 with the pair and the user; every rejection leaves both collections unchanged; only doubly hashed passwords are ever stored |
| AuthController.AuthService.CreateAccount | controllers/authController.js:44-69 | the save-and-issue part of `register`: 500 with nothing changed, or one user and one token appended and 201 |
| AuthController.AuthService.Login | controllers/authController.js:80-146 | in order: 400 missing field, 401 unknown lower-cased email, 401 wrong password, 500 token refused, else 200 with a new pair and one token appended; every error leaves the store unchanged; no user stored by `register` can log in |
| AuthController.AuthService.Refresh | controllers/authController.js:149-186 | 400 missing and 401 invalid leave the store unchanged; otherwise the submitted token is revoked, then a pair is issued (200) or refused (500); past verification the old token is never active again |
| AuthController.IssuePair | controllers/authController.js:116 | a known user gets the new pair and exactly its refresh document is appended, unless the store already holds that token string, in which case nothing changes |
| AuthController.RevokeAndIssue | controllers/authController.js:168-169 | the store becomes `RevokeOne` of the old, plus the new document when the issue succeeds; the submitted token ends inactive; every token still belongs to a handed-out id |
| AuthController.AuthService.Rotate | controllers/authController.js:168-169 | revoke first, then issue: the store is `RevokeOne` of the old, plus the new document when the issue succeeds; the submitted token ends inactive |
| AuthController.AuthService.Logout | controllers/authController.js:189-200 | always 200; revokes only when a token is supplied |
| AuthController.AuthService.LogoutAll | controllers/authController.js:203-212 | 200, and the store is `RevokeUser` of the old for the caller |
| AuthController.AuthService.Verify | controllers/authController.js:215-235 | 200 with the user's id, username and email, or a 404 "User not found" error |
| AuthController.AuthService.VerifyRoute | routes/auth.js:13 | the gate's two 401 answers, or `verify` for the authenticated id; no collection changes |
| AuthController.AuthService.LogoutAllRoute | routes/auth.js:14 | the gate's two 401 answers with the store unchanged, or `logoutAll` for the authenticated id |
| AuthController.RefreshReplay | controllers/authController.js:160-169 | presenting the same refresh token a second time, at the same or a later second, is always answered 401 |
| BlogController.IsValidObjectId | controllers/blogController.js:109 | `ObjectId.isValid`: any 12-character string is valid, a 24-character string exactly when every character is a hexadecimal digit, and no other length; the 12-character rule is that of the older bson `isValid` |
| BlogController.Skip | controllers/blogController.js:42 | page 1 skips nothing, a page of at least 1 with a non-negative limit never gives a negative skip, and with a positive limit the skip is negative exactly for a page below 1 |
| BlogController.HasMore | controllers/blogController.js:54 | `hasMore` is never true once the page starts at or after the total or reaches it, and for an empty page it is true exactly when posts remain past the skip |
| BlogController.PageParam | controllers/blogController.js:40-41 | a missing, unreadable or zero parameter takes the default, any other parsed value is used, and the result is never 0 |
| BlogController.PageParamOfRendered | controllers/blogController.js:40 | a rendered non-zero page number reads back as itself |
| BlogController.Window | controllers/blogController.js:47-48 | at most `abs(limit)` posts; position `i` of the page is position `skip + i` of the sorted list; empty past the end |
| BlogController.HasMoreIffNextPageNonEmpty | controllers/blogController.js:54 | with a positive limit, `hasMore` is true exactly when the next page is not empty |
| BlogController.PagesTile | controllers/blogController.js:42-48 | for one fixed newest-first order, pages 1 to k together are its first k * limit posts, so paging that order skips and repeats nothing |
| BlogController.ListingUnique | controllers/blogController.js:45-46 | when no two selected posts were created in the same second, there is only one listing, so every request pages through that same order and `PagesTile` holds across requests |
| BlogController.InsertNewestFirst | controllers/blogController.js:46 | the result has the same elements plus the new post |
| BlogController.InsertKeepsNewestFirst | controllers/blogController.js:46 | inserting into a newest-first list keeps it newest first |
| BlogController.ListingPageMatches | controllers/blogController.js:79-85 | every post on any page of a listing is a stored post the filter selects (for `getUserBlogs`, one authored by the caller) |
| BlogController.BlogStore.Selected | controllers/blogController.js:51 | the counted ids are stored ids |
| BlogController.BlogStore.ListNewestFirst | controllers/blogController.js:45-46 | every selected post exactly once (no id repeated), newest first |
| BlogController.BlogStore.Create | controllers/blogController.js:6-35 | a falsy title or content is a 400 "Validation failed" error with per-field messages and stores nothing; otherwise one post is added with the trimmed fields, the caller as author and both times = now, and 201 |
| BlogController.BlogStore.List | controllers/blogController.js:42-54 | a negative skip is a driver error without code; otherwise 200 with the page at `(page-1)*limit` of a newest-first listing, `total` counting every selected post, and `hasMore = total > skip + count` |
| BlogController.BlogStore.GetAll | controllers/blogController.js:38-68 | the listing over all posts |
| BlogController.BlogStore.GetUser | controllers/blogController.js:71-102 | the listing over the caller's posts only, both page and total |
| BlogController.BlogStore.GetById | controllers/blogController.js:105-124 | 400 for an invalid id, 404 for a missing post, otherwise 200 with the post |
| BlogController.BlogStore.Update | controllers/blogController.js:127-172 | in order 400 invalid id, 400 missing field, 404, 403 non-owner, each leaving the store unchanged; otherwise only that post's title, content (trimmed) and `updatedAt` change, and 200 |
| BlogController.BlogStore.Delete | controllers/blogController.js:175-202 | in order 400, 404, 403 non-owner, each leaving the store unchanged; otherwise exactly that post is removed, and 200 |

## Left out

- I/O and framework glue are not modelled: HTTP, the database connection, `console` logging, Express routing and the security middleware. The routes are read only to know which handlers sit behind the gate.
- Concurrency is not modelled: `Promise.all` and requests interleaving across `await`s. Each handler runs as one sequential step.
- The clock, bcrypt's salts, the Mongo-generated blog id and error stack traces are parameters of the operations that use them.
- bcrypt's salt generation, work factor, hash format and 72-byte password limit are not modelled (bcrypt compares only the first 72 bytes, so two passwords sharing those bytes match; the text under every stored hash is the 60-character intermediate hash, so the model's conclusions do not depend on this), and neither is JWT cryptography or the base64url layout. Both are abstract: a hash is a value that no typed text equals, and a token is its claim written out together with its secret.
- `Date` arithmetic, calendars and daylight saving are not modelled; all times are integer seconds. JavaScript number precision is not modelled either, so page numbers and ids are unbounded integers.
- `toLowerCase` is modelled on ASCII letters only, not full Unicode case mapping.
- Non-string body fields are not modelled (a number or object as `title`, an array as `req.query.page`). Neither are the errors that calling string methods on them would throw.
- Mongoose query casting is not modelled. The duplicate lookup in `register` and the lookups in `login` compare the submitted strings as they are. If the driver applied the schema's `trim`/`lowercase` setters to query values, those lookups would match more.
- ObjectId canonicalisation is not modelled. A 12-character string and upper-case hex are valid ids, and they are stored and compared as the very string given.
- `models/blog.js` is not part of this model. The blog schema's own validators are therefore not modelled, for example a title that trims to the empty string.
- BlogController.BlogStore.Create: sets `createdAt` and `updatedAt` to the current second, and BlogController.BlogStore.Update moves `updatedAt` to it. This assumes the blog schema has the `timestamps` option, which the handlers' sort on `createdAt` relies on and which `models/blog.js` would set; that file is not part of this model.
- The responses leave out `populate("author", "username")`'s document shape beyond `{_id, username}`, Mongoose's `__v` and `select("-password")`.
- AuthGate.Auth: does not model the `catch` that answers 401 "Authentication failed". Nothing in the modelled gate can throw.
- UserModel.ComparePassword: does not model the rethrow of a comparison error. `Compare` is total, so there is nothing to rethrow.
- AuthController.AuthService.Register: does not model `register` going on to the insert when the duplicate lookup finds a user whose stored email and username both differ from the submitted ones. `DuplicateLookupMatches` proves that this cannot happen in the model, where the lookup compares the submitted strings as they are. It can happen if the driver normalizes the query values, and the insert then fails on the unique index with a 500.
- Jwt.Verify: only the strings that signing produces verify, but the model's token string contains the secret's code points, so the model says nothing about who can produce a valid token. Cryptographic unforgeability is outside the model.
- UserModel.Compare: a typed text is `Plain` and a hash is `Bcrypt`, so a typed text never equals a hash's string. bcrypt's real hashes are strings, and typing the text of the intermediate hash would match a password hashed twice.
- The `try`/`catch` answers for database failures are not modelled: 500 "Failed to fetch blog", "Failed to update blog", "Failed to delete blog", "Internal server error" in `logout`/`logoutAll`, and a refresh whose revoke fails. The modelled store does not fail except through its unique indexes.
- `AuthController.AuthService.CreateAccount`, `AuthController.SaveNewUser`, `AuthController.IssueFirstPair`, `AuthController.IssuePair`, `AuthController.RevokeAndIssue`, `AuthController.AuthService.Rotate` and `BlogController.BlogStore.List` are not separate functions in the source. They are the middle of one handler, factored out.
- BlogController.BlogStore.Update: the post is a value replaced in the map, not a document object mutated in place and saved, so there is no aliasing of blog documents.
- BlogController.BlogStore.ListNewestFirst: posts created in the same second come in an unspecified order, and each request may pick a different one. Only the newest-first order and the exact contents are stated.
- The `expiresAt` of a refresh-token document is `now + 7 * 86400`. `setDate(+7)` across a daylight-saving change is not modelled.
