/**
 * Session tokens: GenerateToken builds the claims and signs them with the
 * HS256 method and the process-wide key; ValidateToken accepts a token only
 * if it parsed, names an HMAC method, carries a good signature and its time
 * claims hold. Signatures are symbolic: a signature is good when it is the
 * MAC of the token's own method and claims under the key.
 */
module Jwt {
  import opened Wrappers
  import opened Text

  /** 24 hours, in seconds. */
  const TokenExpiration: int := 24 * 60 * 60

  const SigningKey: string := "your-secret-key"

  /** The signing methods registered with the library, plus any other header value. */
  datatype Alg =
    | HS256 | HS384 | HS512
    | RS256 | RS384 | RS512
    | PS256 | PS384 | PS512
    | ES256 | ES384 | ES512
    | EdDSA | NoneAlg
    | Unregistered(name: string)

  /** The methods implemented by *jwt.SigningMethodHMAC. */
  predicate IsHmac(a: Alg) { a == HS256 || a == HS384 || a == HS512 }

  /** Claims: the user id and the registered time claims (seconds), any of which a token may omit. */
  datatype Claims = Claims(userID: int, issuedAt: Option<int>, expiresAt: Option<int>, notBefore: Option<int>)

  datatype Signature = Mac(alg: Alg, key: string, claims: Claims) | Garbage(bytes: seq<Byte>)

  /** A token as the library sees it once its three segments are decoded. */
  datatype Token = Token(alg: Alg, claims: Claims, sig: Signature)

  /** What parsing the token text gives: a decoded token, or a wrong segment count or bad encoding. */
  datatype Parsed = Malformed | Decoded(token: Token)

  datatype TokenError =
    | ErrTokenMalformed
    | ErrTokenUnverifiable   // the method is unknown, or the key function refused it
    | ErrTokenSignatureInvalid
    | ErrTokenExpired
    | ErrTokenNotValidYet

  /** GenerateToken(userID): issued now, expiring 24 hours later, signed with HS256. */
  function GenerateToken(userID: int, now: int): (t: Token)
    ensures t.claims.userID == userID && t.alg == HS256
    ensures t.claims.issuedAt == Some(now) && t.claims.expiresAt == Some(now + TokenExpiration)
    ensures t.claims.notBefore.None?
  {
    var claims := Claims(userID, Some(now), Some(now + TokenExpiration), None);
    Token(HS256, claims, Mac(HS256, SigningKey, claims))
  }

  /** The time claims the library's validator checks: now before exp, and not before nbf. */
  function CheckTimes(c: Claims, now: int): (r: Option<TokenError>)
    ensures r.None? <==> (c.expiresAt.None? || now < c.expiresAt.value) && (c.notBefore.None? || c.notBefore.value <= now)
    ensures r == Some(ErrTokenExpired) <==> c.expiresAt.Some? && c.expiresAt.value <= now
    ensures r.Some? ==> r.value == ErrTokenExpired || r.value == ErrTokenNotValidYet
  {
    if c.expiresAt.Some? && !(now < c.expiresAt.value) then Some(ErrTokenExpired)
    else if c.notBefore.Some? && now < c.notBefore.value then Some(ErrTokenNotValidYet)
    else None
  }

  /**
   * ValidateToken: the checks in the library's order (decoding, method,
   * signature, time claims); the claims come back only when all pass.
   */
  function ValidateToken(p: Parsed, now: int): (r: Result<Claims, TokenError>)
    ensures r.Ok? <==>
      p.Decoded? && IsHmac(p.token.alg)
      && p.token.sig == Mac(p.token.alg, SigningKey, p.token.claims)
      && (p.token.claims.expiresAt.None? || now < p.token.claims.expiresAt.value)
      && (p.token.claims.notBefore.None? || p.token.claims.notBefore.value <= now)
    ensures r.Ok? ==> r.value == p.token.claims
  {
    match p
    case Malformed => Err(ErrTokenMalformed)
    case Decoded(t) =>
      if !IsHmac(t.alg) then Err(ErrTokenUnverifiable)
      else if t.sig != Mac(t.alg, SigningKey, t.claims) then Err(ErrTokenSignatureInvalid)
      else match CheckTimes(t.claims, now)
        case Some(e) => Err(e)
        case None => Ok(t.claims)
  }

  /** A fresh token validates, until it expires, to its own claims, for every user id. */
  lemma GeneratedTokenValidates(userID: int, issued: int, now: int)
    requires issued <= now < issued + TokenExpiration
    ensures ValidateToken(Decoded(GenerateToken(userID, issued)), now).Ok?
    ensures ValidateToken(Decoded(GenerateToken(userID, issued)), now).value.userID == userID
  {
  }

  /** A fresh token's expiry lies after the moment it was issued. */
  lemma GeneratedTokenExpiresLater(userID: int, now: int)
    ensures GenerateToken(userID, now).claims.expiresAt.value > now
  {
  }

  /** From its expiry on, a token is refused as expired. */
  lemma GeneratedTokenExpires(userID: int, issued: int, now: int)
    requires now >= issued + TokenExpiration
    ensures ValidateToken(Decoded(GenerateToken(userID, issued)), now) == Err(ErrTokenExpired)
  {
  }

  /** Tokens of non-HMAC methods are refused, whatever they carry. */
  lemma NonHmacRefused(t: Token, now: int)
    requires !IsHmac(t.alg)
    ensures ValidateToken(Decoded(t), now) == Err(ErrTokenUnverifiable)
  {
  }

  /** A token whose claims were changed after signing is refused. */
  lemma TamperedClaimsRefused(userID: int, issued: int, forged: Claims, now: int)
    requires forged != GenerateToken(userID, issued).claims
    ensures ValidateToken(Decoded(GenerateToken(userID, issued).(claims := forged)), now) == Err(ErrTokenSignatureInvalid)
  {
  }

  /** A token signed under another key is refused. */
  lemma OtherKeyRefused(t: Token, key: string, now: int)
    requires key != SigningKey && IsHmac(t.alg) && t.sig == Mac(t.alg, key, t.claims)
    ensures ValidateToken(Decoded(t), now) == Err(ErrTokenSignatureInvalid)
  {
  }
}
