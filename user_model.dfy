/**
 * The User document: a unique trimmed username, a unique trimmed lower-case
 * email and a password, plus the hook that hashes the password when a
 * document is saved with a modified password.
 */
module UserModel {
  import opened Wrappers
  import opened JsText
  import opened Jwt

  /**
   * The value of a password field: text as the client typed it, or the bcrypt
   * hash of another value under some salt. bcrypt's salt generation and work
   * factor are not modelled; the salt is supplied by the caller.
   */
  datatype Password = Plain(text: string) | Bcrypt(of: Password, salt: nat)

  /** Every bcrypt hash string is 60 characters long. */
  const BCRYPT_HASH_LENGTH: nat := 60

  /** The schema's `minlength` for the password field. */
  const PASSWORD_MIN_LENGTH: nat := 6

  /** `bcrypt.hash(value, salt)`. */
  function Hash(p: Password, salt: nat): (h: Password)
    ensures h.Bcrypt? && h != p
  {
    var h := Bcrypt(p, salt);
    assert p < h;
    h
  }

  /**
   * `bcrypt.compare(candidate, stored)`: true exactly when `stored` is a hash,
   * under any salt, of the very text `candidate`. A stored value that is not a
   * hash compares false.
   */
  function Compare(candidate: string, stored: Password): (r: bool)
    ensures r <==> stored.Bcrypt? && stored == Hash(Plain(candidate), stored.salt)
  {
    stored.Bcrypt? && stored.of == Plain(candidate)
  }

  /** The length of the string a password value is stored as. */
  function Length(p: Password): nat
  {
    match p
    case Plain(text) => |text|
    case Bcrypt(_, _) => BCRYPT_HASH_LENGTH
  }

  /** A stored user. */
  datatype User = User(
    id: UserId,
    username: string,
    email: string,
    password: Password,
    createdAt: nat,
    updatedAt: nat)

  /** The username setter: `trim`. */
  function NormalizeUsername(username: string): (r: string)
    ensures IsTrimmed(r)
  {
    Trim(username)
  }

  /** The email setters: `trim` and `lowercase`. */
  function NormalizeEmail(email: string): (r: string)
    ensures IsTrimmed(r)
    ensures forall i :: 0 <= i < |r| ==> !IsUpperAscii(r[i])
  {
    TrimToLowerCommute(email);
    ToLower(Trim(email))
  }

  /** Normalising is idempotent: a stored value passes through the setters unchanged. */
  lemma NormalizeIdempotent(username: string, email: string)
    ensures NormalizeUsername(NormalizeUsername(username)) == NormalizeUsername(username)
    ensures NormalizeEmail(NormalizeEmail(email)) == NormalizeEmail(email)
  {
    TrimIdempotent(username);
    var e := NormalizeEmail(email);
    TrimOfTrimmed(e);
    assert ToLower(e) == e;
  }

  /**
   * The validators the schema runs on save: the three paths are `required`
   * (an empty string does not count), and the stored password value is at
   * least six characters long.
   */
  predicate SatisfiesSchema(username: string, email: string, password: Password)
  {
    username != "" && email != "" && Length(password) >= PASSWORD_MIN_LENGTH
  }

  /**
   * Any hashed password passes `minlength`, so once the caller hashes before
   * constructing the document, the length rule never sees the text typed.
   */
  lemma HashedPasswordPassesMinLength(p: Password, salt: nat)
    ensures Length(Hash(p, salt)) >= PASSWORD_MIN_LENGTH
  {
  }

  /** `user.comparePassword(candidate)`: the result of comparing against the stored value. */
  function ComparePassword(u: User, candidate: string): (r: bool)
    ensures r <==> u.password.Bcrypt? && u.password.of == Plain(candidate)
  {
    Compare(candidate, u.password)
  }

  /** A password hashed twice over a typed text: what registration stores. */
  predicate IsDoubleHashed(p: Password)
  {
    p.Bcrypt? && p.of.Bcrypt? && p.of.of.Plain?
  }

  /** No typed text matches a password that was hashed twice. */
  lemma DoubleHashedNeverMatches(u: User, candidate: string)
    requires IsDoubleHashed(u.password)
    ensures !ComparePassword(u, candidate)
  {
  }

  // ---------------------------------------------------------------------
  // Documents and the collection
  // ---------------------------------------------------------------------

  /** A User document that has been constructed but not yet saved. */
  class UserDocument {
    var username: string
    var email: string
    var password: Password
    /** Whether the `password` path counts as modified (`isModified("password")`). */
    var passwordModified: bool

    /** `new User({username, email, password})`: the setters run, and every given path is modified. */
    constructor (username: string, email: string, password: Password)
      ensures this.username == NormalizeUsername(username)
      ensures this.email == NormalizeEmail(email)
      ensures this.password == password && passwordModified
    {
      this.username := NormalizeUsername(username);
      this.email := NormalizeEmail(email);
      this.password := password;
      passwordModified := true;
    }

    /** The `pre("save")` hook: hash the password in place, but only if it was modified. */
    method PreSave(salt: nat)
      modifies this
      ensures password == if old(passwordModified) then Hash(old(password), salt) else old(password)
      ensures username == old(username) && email == old(email) && passwordModified == old(passwordModified)
    {
      if !passwordModified {
        return;
      }
      password := Hash(password, salt);
    }
  }

  /** Why a save failed: a validator rejected the document, or a unique index did. */
  datatype SaveError = ValidationFailed | DuplicateKey

  ghost predicate UniqueFields(users: seq<User>)
  {
    forall i, j :: 0 <= i < j < |users| ==>
      users[i].id != users[j].id && users[i].username != users[j].username && users[i].email != users[j].email
  }

  /** Some stored user already has this username or this email: the unique indexes refuse the insert. */
  predicate Conflicts(users: seq<User>, username: string, email: string)
  {
    exists i :: 0 <= i < |users| && (users[i].username == username || users[i].email == email)
  }

  /** The filters the handlers look users up by. */
  datatype Query =
    | ById(id: UserId)                                  // `User.findById(id)`
    | ByEmail(email: string)                            // `User.findOne({email})`
    | ByEmailOrUsername(email: string, username: string) // `User.findOne({$or: [{email}, {username}]})`

  predicate Selects(q: Query, u: User)
  {
    match q
    case ById(id) => u.id == id
    case ByEmail(email) => u.email == email
    case ByEmailOrUsername(email, username) => u.email == email || u.username == username
  }

  /** The first stored user, in insertion order, that the filter selects. */
  function FindOne(users: seq<User>, q: Query): (r: Option<User>)
    ensures r.Some? ==> exists i :: 0 <= i < |users| && users[i] == r.value && Selects(q, users[i])
                          && forall j :: 0 <= j < i ==> !Selects(q, users[j])
    ensures r.None? <==> forall i :: 0 <= i < |users| ==> !Selects(q, users[i])
  {
    if users == [] then None
    else if Selects(q, users[0]) then Some(users[0])
    else
      var r := FindOne(users[1..], q);
      assert forall i :: 1 <= i < |users| ==> users[1..][i - 1] == users[i];
      r
  }

  /** The `$or` lookup finds nothing exactly when the unique indexes would accept the insert. */
  lemma NoMatchIffNoConflict(users: seq<User>, email: string, username: string)
    ensures FindOne(users, ByEmailOrUsername(email, username)).None? <==> !Conflicts(users, username, email)
  {
  }

  /**
   * The collection's invariant: the unique indexes hold, every id was handed
   * out before `nextId`, and every stored user passed the schema's validators.
   */
  ghost predicate TableValid(users: seq<User>, nextId: nat)
  {
    && UniqueFields(users)
    && (forall i :: 0 <= i < |users| ==> users[i].id < nextId)
    && (forall i :: 0 <= i < |users| ==> SatisfiesSchema(users[i].username, users[i].email, users[i].password))
  }

  /** The User collection. Ids are handed out in increasing order. */
  class UserTable {
    var users: seq<User>
    var nextId: nat

    ghost predicate Valid()
      reads this
    {
      TableValid(users, nextId)
    }

    constructor ()
      ensures Valid() && users == [] && nextId == 0
    {
      users := [];
      nextId := 0;
    }

    /**
     * `doc.save()` at second `now`: validation first, then the pre-save hook,
     * then the insert, which the unique indexes on username and email can refuse.
     */
    method Save(doc: UserDocument, salt: nat, now: nat) returns (r: Result<User, SaveError>)
      requires Valid()
      modifies this, doc
      ensures Valid()
      ensures doc.username == old(doc.username) && doc.email == old(doc.email)
      ensures r.Ok? <==> SatisfiesSchema(old(doc.username), old(doc.email), old(doc.password))
                         && !Conflicts(old(users), doc.username, doc.email)
      ensures r.Err? ==> users == old(users) && nextId == old(nextId)
      ensures r == Err(ValidationFailed) <==> !SatisfiesSchema(old(doc.username), old(doc.email), old(doc.password))
      ensures r == Err(ValidationFailed) ==> doc.password == old(doc.password)
      ensures r != Err(ValidationFailed) ==>
        doc.password == (if old(doc.passwordModified) then Hash(old(doc.password), salt) else old(doc.password))
      ensures r.Ok? ==>
        && r.value == User(old(nextId), doc.username, doc.email, doc.password, now, now)
        && users == old(users) + [r.value] && nextId == old(nextId) + 1
    {
      if !SatisfiesSchema(doc.username, doc.email, doc.password) {
        return Err(ValidationFailed);
      }
      doc.PreSave(salt);
      if Conflicts(users, doc.username, doc.email) {
        return Err(DuplicateKey);
      }
      var u := User(nextId, doc.username, doc.email, doc.password, now, now);
      assert Length(doc.password) >= PASSWORD_MIN_LENGTH;
      users := users + [u];
      nextId := nextId + 1;
      r := Ok(u);
    }
  }
}
