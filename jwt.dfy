/**
 * Signed claims as jsonwebtoken produces and checks them (HS256, `expiresIn`).
 *
 * A token is a string. Its content is a claim `{userId, iat, exp}` and a
 * signature; the signature is modelled by the secret it was computed with,
 * so "the signature checks under secret k" is "the token carries k". The
 * fields are written as decimal numbers, each secret character as its code
 * point, separated by '.'; the exact base64url layout of a JWT is not modelled.
 */
module Jwt {
  import opened Wrappers
  import opened JsText

  type UserId = nat

  /** The payload `{userId}` together with the `iat` and `exp` the signer adds, in seconds. */
  datatype Claim = Claim(userId: UserId, iat: nat, exp: nat)

  /** A signed claim: `key` is the secret the signature was computed with. */
  datatype Token = Token(claim: Claim, key: string)

  predicate IsScalarValue(n: nat)
  {
    n < 0xD800 || (0xE000 <= n < 0x11_0000)
  }

  function CharCodes(s: string): (codes: seq<nat>)
    ensures |codes| == |s|
    ensures forall i :: 0 <= i < |s| ==> IsScalarValue(codes[i])
  {
    seq(|s|, i requires 0 <= i < |s| => s[i] as int)
  }

  function CodesToString(codes: seq<nat>): string
    requires forall i :: 0 <= i < |codes| ==> IsScalarValue(codes[i])
  {
    seq(|codes|, i requires 0 <= i < |codes| && IsScalarValue(codes[i]) => codes[i] as char)
  }

  /** The numbers a token is written with: the three claim fields, then the key's code points. */
  function Fields(t: Token): (ns: seq<nat>)
    ensures |ns| == 3 + |t.key|
  {
    [t.claim.userId, t.claim.iat, t.claim.exp] + CharCodes(t.key)
  }

  function Decimals(ns: seq<nat>): (parts: seq<string>)
    ensures |parts| == |ns|
  {
    seq(|ns|, i requires 0 <= i < |ns| => NatToDecimal(ns[i]))
  }

  /** The string form of a token. */
  function Encode(t: Token): (s: string)
    ensures |s| > 0
  {
    Join(Decimals(Fields(t)), '.')
  }

  /** A non-empty run of decimal digits. */
  predicate IsNumberField(p: string)
  {
    |p| > 0 && forall j :: 0 <= j < |p| ==> DigitValue(p[j], 10).Some?
  }

  /** Reads a token back from its string form; `None` for a malformed string. */
  function Decode(s: string): (r: Option<Token>)
  {
    var parts := Split(s, '.');
    if |parts| < 3 || exists i :: 0 <= i < |parts| && !IsNumberField(parts[i]) then None
    else
      var ns := seq(|parts|, i requires 0 <= i < |parts| => DigitsValue(parts[i], 10));
      var codes := ns[3..];
      if exists i :: 0 <= i < |codes| && !IsScalarValue(codes[i]) then None
      else Some(Token(Claim(ns[0], ns[1], ns[2]), CodesToString(codes)))
  }

  /** Decoding inverts encoding. */
  lemma DecodeEncode(t: Token)
    ensures Decode(Encode(t)) == Some(t)
  {
    var f := Fields(t);
    var parts := Decimals(f);
    forall i | 0 <= i < |parts| ensures '.' !in parts[i] && IsNumberField(parts[i]) {
      DecimalRoundTrip(f[i]);
      assert forall j :: 0 <= j < |parts[i]| ==> IsDigit(parts[i][j]);
    }
    SplitJoin(parts, '.');
    var ns := seq(|parts|, i requires 0 <= i < |parts| => DigitsValue(parts[i], 10));
    forall i | 0 <= i < |parts| ensures ns[i] == f[i] {
      DecimalRoundTrip(f[i]);
    }
    assert ns == f;
    assert ns[3..] == CharCodes(t.key);
    assert CodesToString(CharCodes(t.key)) == t.key;
  }

  /** An encoded token has no space in it, so it survives being placed in a bearer header. */
  lemma EncodeHasNoSpace(t: Token)
    ensures ' ' !in Encode(t)
  {
    var parts := Decimals(Fields(t));
    forall i | 0 <= i < |parts| ensures ' ' !in parts[i] {
      assert forall j :: 0 <= j < |parts[i]| ==> IsDigit(parts[i][j]);
    }
    JoinKeepsOut(parts, '.', ' ');
  }

  lemma {:induction false} JoinKeepsOut(parts: seq<string>, sep: char, c: char)
    requires |parts| >= 1 && c != sep
    requires forall i :: 0 <= i < |parts| ==> c !in parts[i]
    ensures c !in Join(parts, sep)
    decreases |parts|
  {
    if |parts| > 1 {
      JoinKeepsOut(parts[1..], sep, c);
    }
  }

  /** `jwt.sign({userId}, key, {expiresIn: ttl})` at second `iat`. */
  function Sign(key: string, userId: UserId, iat: nat, ttl: nat): (token: string)
    ensures ' ' !in token
  {
    var t := Token(Claim(userId, iat, iat + ttl), key);
    EncodeHasNoSpace(t);
    Encode(t)
  }

  /**
   * `jwt.verify(token, key)` at second `now`: the decoded claim when the token is
   * exactly the string signing that claim with `key` produces and it has not
   * expired (`now < exp`); otherwise `None`, the `null` the callers turn a
   * thrown verification error into.
   */
  function Verify(key: string, token: string, now: nat): (r: Option<Claim>)
    ensures r.Some? ==> now < r.value.exp && token == Encode(Token(r.value, key))
    ensures r.Some? ==> Decode(token) == Some(Token(r.value, key))
  {
    match Decode(token)
    case None => None
    case Some(t) => if t.key == key && Encode(t) == token && now < t.claim.exp then Some(t.claim) else None
  }

  /** Verification accepts the encoding of any claim under its own key until the claim expires, and yields that claim. */
  lemma VerifyEncoded(key: string, c: Claim, now: nat)
    ensures Verify(key, Encode(Token(c, key)), now) == if now < c.exp then Some(c) else None
  {
    DecodeEncode(Token(c, key));
  }

  /** Every accepted string is one signing produces: the claim's own user, issue second and lifetime under `key`. */
  lemma VerifyOnlySigned(key: string, token: string, now: nat)
    requires Verify(key, token, now).Some?
    requires Verify(key, token, now).value.iat <= Verify(key, token, now).value.exp
    ensures var c := Verify(key, token, now).value;
            token == Sign(key, c.userId, c.iat, c.exp - c.iat) && now < c.exp
  {
  }

  /** A freshly signed token verifies under its own key, until it expires, to exactly the claim it was signed with. */
  lemma VerifySigned(key: string, userId: UserId, iat: nat, ttl: nat, now: nat)
    ensures Verify(key, Sign(key, userId, iat, ttl), now)
         == if now < iat + ttl then Some(Claim(userId, iat, iat + ttl)) else None
  {
    DecodeEncode(Token(Claim(userId, iat, iat + ttl), key));
  }

  /** A token signed with one key never verifies under a different key. */
  lemma VerifyOtherKey(signKey: string, verifyKey: string, userId: UserId, iat: nat, ttl: nat, now: nat)
    requires signKey != verifyKey
    ensures Verify(verifyKey, Sign(signKey, userId, iat, ttl), now) == None
  {
    DecodeEncode(Token(Claim(userId, iat, iat + ttl), signKey));
  }

  /**
   * Signing is deterministic and injective: two signatures are the same string
   * exactly when key, user, issue second and lifetime all agree.
   */
  lemma SignInjective(k1: string, u1: UserId, iat1: nat, ttl1: nat, k2: string, u2: UserId, iat2: nat, ttl2: nat)
    ensures Sign(k1, u1, iat1, ttl1) == Sign(k2, u2, iat2, ttl2)
        <==> k1 == k2 && u1 == u2 && iat1 == iat2 && ttl1 == ttl2
  {
    if Sign(k1, u1, iat1, ttl1) == Sign(k2, u2, iat2, ttl2) {
      DecodeEncode(Token(Claim(u1, iat1, iat1 + ttl1), k1));
      DecodeEncode(Token(Claim(u2, iat2, iat2 + ttl2), k2));
    }
  }
}
