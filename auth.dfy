/**
 * Credential hashing and access-token issue and verification
 * (backend/app/auth.py).
 *
 * SHA-256 is not computed: it is a parameter of type `Sha256`, any function
 * from text to 32 bytes. The hex encoding of the digest is modelled exactly.
 *
 * Tokens are JSON Web Tokens (RFC 7519) signed with HS256, HMAC SHA-256
 * (section 3.2 of RFC 7518). The model does not build the compact text: a
 * `Signed` token records the claims set, the `alg` header and the key it was
 * signed with, which is the idealised MAC assumption (a signature checks
 * under a key exactly when it was made with that key). Every other string a
 * client may present is an `Unparsed` token.
 *
 * Time is an integer count of microseconds since the Unix epoch, the
 * resolution of Python's `datetime`; a `timedelta` is a count of microseconds.
 */
module Auth {
  import opened Outcomes
  import Config
  import Chars

  /** JWS `alg` header value (auth.py, `ALGORITHM`). */
  const ALGORITHM: string := "HS256"

  const MICROS_PER_SECOND: nat := 1_000_000

  /** `timedelta(minutes=ACCESS_TOKEN_EXPIRE_MINUTES)` in microseconds: 60 minutes. */
  const DEFAULT_LIFETIME: nat := Config.ACCESS_TOKEN_EXPIRE_MINUTES * 60 * MICROS_PER_SECOND

  // ---------------------------------------------------------------------------
  // Credential hashing

  type Byte = x: int | 0 <= x < 256

  type Bytes32 = s: seq<Byte> | |s| == 32 witness seq(32, _ => 0)

  /** `hashlib.sha256(text.encode()).digest()`, taken as given. */
  type Sha256 = string -> Bytes32

  predicate IsLowerHex(s: string) {
    forall i :: 0 <= i < |s| ==> Chars.IsLowerHexDigit(s[i])
  }

  /** Two lowercase hex digits per byte, high nibble first (`hexdigest()`). */
  function HexEncode(b: seq<Byte>): (r: string)
    ensures |r| == 2 * |b|
    ensures IsLowerHex(r)
  {
    if b == [] then [] else [Chars.HexDigit(b[0] / 16), Chars.HexDigit(b[0] % 16)] + HexEncode(b[1..])
  }

  lemma HexDigitInjective(d: nat, e: nat)
    requires d < 16 && e < 16 && Chars.HexDigit(d) == Chars.HexDigit(e)
    ensures d == e
  {
  }

  /** Different byte strings have different hex encodings. */
  lemma {:induction false} HexEncodeInjective(a: seq<Byte>, b: seq<Byte>)
    requires HexEncode(a) == HexEncode(b)
    ensures a == b
  {
    if a != [] {
      assert |b| == |a|;
      var ea, eb := HexEncode(a), HexEncode(b);
      assert ea[0] == eb[0] && ea[1] == eb[1];
      HexDigitInjective(a[0] / 16, b[0] / 16);
      HexDigitInjective(a[0] % 16, b[0] % 16);
      assert ea[2..] == HexEncode(a[1..]) && eb[2..] == HexEncode(b[1..]);
      HexEncodeInjective(a[1..], b[1..]);
      assert a == [a[0]] + a[1..] && b == [b[0]] + b[1..];
    }
  }

  /**
   * `get_password_hash`: the unsalted hex SHA-256 digest, always 64 lowercase
   * hex characters, so it differs from every password that is not itself such
   * a string.
   */
  function GetPasswordHash(sha256: Sha256, password: string): (digest: string)
    ensures |digest| == 64 && IsLowerHex(digest)
    ensures !(|password| == 64 && IsLowerHex(password)) ==> digest != password
  {
    HexEncode(sha256(password))
  }

  /** `verify_password`: recompute the digest and compare the strings exactly. */
  function VerifyPassword(sha256: Sha256, plain: string, hashed: string): (ok: bool)
    ensures ok <==> hashed == GetPasswordHash(sha256, plain)
    ensures ok ==> |hashed| == 64 && IsLowerHex(hashed)
  {
    HexEncode(sha256(plain)) == hashed
  }

  /**
   * A password verifies against the stored digest of another exactly when the
   * two collide under SHA-256; in particular every password verifies against
   * its own digest.
   */
  lemma VerifyAgainstDigest(sha256: Sha256, plain: string, stored: string)
    ensures VerifyPassword(sha256, plain, GetPasswordHash(sha256, stored)) <==> sha256(plain) == sha256(stored)
    ensures VerifyPassword(sha256, stored, GetPasswordHash(sha256, stored))
  {
    if VerifyPassword(sha256, plain, GetPasswordHash(sha256, stored)) {
      HexEncodeInjective(sha256(plain), sha256(stored));
    }
  }

  // ---------------------------------------------------------------------------
  // Access tokens

  /** A JSON value of a claims set. */
  datatype Claim = Str(s: string) | Int(i: int) | Bool(b: bool) | Null

  type Claims = map<string, Claim>

  datatype Token =
    | Signed(claims: Claims, alg: string, key: string)
    | Unparsed(text: string)

  /** Whole seconds since the epoch, rounded down: the NumericDate of an instant. */
  function UnixSeconds(t: int): int {
    t / MICROS_PER_SECOND
  }

  /**
   * The lifetime `create_access_token` uses. `if expires_delta:` is false for
   * `None` and for a zero `timedelta`, and both get the default.
   */
  function Lifetime(expiresDelta: Option<int>): (ttl: int)
    ensures expiresDelta.None? ==> ttl == DEFAULT_LIFETIME
    ensures expiresDelta == Some(0) ==> ttl == DEFAULT_LIFETIME
    ensures expiresDelta.Some? && expiresDelta.value != 0 ==> ttl == expiresDelta.value
  {
    match expiresDelta
    case Some(d) => if d != 0 then d else DEFAULT_LIFETIME
    case None => DEFAULT_LIFETIME
  }

  /**
   * `create_access_token(data, expires_delta)` at instant `now`: a copy of the
   * caller's claims with `exp` set (overwriting any `exp` of the caller) to the
   * NumericDate of `now` plus the lifetime, signed with HS256 and the secret.
   */
  function CreateAccessToken(data: Claims, expiresDelta: Option<int>, now: int): (t: Token)
    ensures t.Signed? && t.alg == ALGORITHM && t.key == Config.JWT_SECRET
    ensures t.claims.Keys == data.Keys + {"exp"}
    ensures forall k :: k in data && k != "exp" ==> t.claims[k] == data[k]
    ensures t.claims["exp"] == Int(UnixSeconds(now + Lifetime(expiresDelta)))
  {
    Signed(data["exp" := Int(UnixSeconds(now + Lifetime(expiresDelta)))], ALGORITHM, Config.JWT_SECRET)
  }

  /**
   * The expiry check of the decoder. An `exp` claim, when present, must be an
   * integer NumericDate (section 4.1.4 of RFC 7519) that has not passed: the
   * token is still accepted during the second named by `exp` and rejected from
   * the next one on.
   */
  predicate NotExpired(claims: Claims, now: int) {
    "exp" in claims ==> claims["exp"].Int? && UnixSeconds(now) <= claims["exp"].i
  }

  /** The decoder's subject check: a `sub` claim, when present, must be a string. */
  predicate SubjectIsString(claims: Claims) {
    "sub" in claims ==> claims["sub"].Str?
  }

  /**
   * `decode_access_token(token)` at instant `now`: the claims set when the
   * token is HS256 signed with the secret, not expired and with a string
   * subject if any, and `None` (never an error) when it is malformed, signed
   * otherwise, expired, or has a subject of another type.
   */
  function DecodeAccessToken(token: Token, now: int): (r: Option<Claims>)
    ensures r.Some? <==>
              && token.Signed? && token.alg == ALGORITHM && token.key == Config.JWT_SECRET
              && NotExpired(token.claims, now) && SubjectIsString(token.claims)
    ensures r.Some? ==> r.value == token.claims
  {
    match token
    case Signed(claims, alg, key) =>
      if alg == ALGORITHM && key == Config.JWT_SECRET && NotExpired(claims, now) && SubjectIsString(claims)
      then Some(claims) else None
    case Unparsed(_) => None
  }

  lemma DivMonotone(a: int, b: int)
    requires a <= b
    ensures UnixSeconds(a) <= UnixSeconds(b)
  {
  }

  /**
   * A freshly issued token decodes, with the secret, to the caller's claims
   * plus `exp`, exactly while the clock has not passed the second of `exp`
   * (given that the caller's `sub`, if any, is a string).
   */
  lemma DecodeIssuedToken(data: Claims, expiresDelta: Option<int>, issuedAt: int, now: int)
    ensures var t := CreateAccessToken(data, expiresDelta, issuedAt);
            DecodeAccessToken(t, now).Some? <==>
              SubjectIsString(data) && UnixSeconds(now) <= UnixSeconds(issuedAt + Lifetime(expiresDelta))
    ensures var t := CreateAccessToken(data, expiresDelta, issuedAt);
            DecodeAccessToken(t, now).Some? ==> DecodeAccessToken(t, now).value == t.claims
  {
  }

  /** In microseconds: accepted up to the end of the lifetime, rejected one second after it. */
  lemma IssuedTokenLifetime(data: Claims, expiresDelta: Option<int>, issuedAt: int, now: int)
    ensures SubjectIsString(data) && now <= issuedAt + Lifetime(expiresDelta) ==>
              DecodeAccessToken(CreateAccessToken(data, expiresDelta, issuedAt), now).Some?
    ensures now >= issuedAt + Lifetime(expiresDelta) + MICROS_PER_SECOND ==> DecodeAccessToken(CreateAccessToken(data, expiresDelta, issuedAt), now) == None
  {
    var end := issuedAt + Lifetime(expiresDelta);
    if now <= end {
      DivMonotone(now, end);
    }
    if now >= end + MICROS_PER_SECOND {
      DivMonotone(end + MICROS_PER_SECOND, now);
      assert UnixSeconds(end + MICROS_PER_SECOND) == UnixSeconds(end) + 1;
    }
  }

  /** A negative `timedelta` of at least a second yields a token that is already expired when issued. */
  lemma NegativeDeltaExpired(data: Claims, delta: int, issuedAt: int)
    requires delta <= -(MICROS_PER_SECOND as int)
    ensures DecodeAccessToken(CreateAccessToken(data, Some(delta), issuedAt), issuedAt) == None
  {
    DivMonotone(issuedAt + delta + MICROS_PER_SECOND, issuedAt);
    assert UnixSeconds(issuedAt + delta + MICROS_PER_SECOND) == UnixSeconds(issuedAt + delta) + 1;
  }

  /** A zero `timedelta` is falsy: the token gets the default hour and is accepted from issue to the end of that hour. */
  lemma ZeroDeltaGetsDefault(data: Claims, issuedAt: int, now: int)
    requires issuedAt <= now <= issuedAt + DEFAULT_LIFETIME
    ensures CreateAccessToken(data, Some(0), issuedAt) == CreateAccessToken(data, None, issuedAt)
    ensures DecodeAccessToken(CreateAccessToken(data, Some(0), issuedAt), now).Some? <==> SubjectIsString(data)
  {
    IssuedTokenLifetime(data, Some(0), issuedAt, now);
  }
}
