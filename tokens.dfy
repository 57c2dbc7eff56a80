/** JwtService: the claim set a login token carries, and its verification.

    HMAC-256 signing is a pair of functions supplied from outside: `sign` turns
    a claim set into a token, `decode` gives back the claim set of a token
    whose signature checks, and nothing for any other string. The lemmas that
    need the two to agree ask for `decode(sign(c)) == Some(c)`. */
module JwtTokens {
  import opened Outcomes
  import opened JavaText

  const SecondsPerMinute: int := 60

  /** The registered and private claims of a token. A claim a token lacks is
      `None`, as `getSubject()` and `asString()` then give null. */
  datatype Claims = Claims(
    issuer: string,
    issuedAt: Instant,
    expiresAt: Instant,
    subject: Option<string>,
    username: Option<string>,
    role: Option<string>)

  /** `app.jwt.issuer` and `app.jwt.expiresMinutes`. */
  datatype JwtConfig = JwtConfig(issuer: string, expiresMinutes: int)

  /** `Algorithm.HMAC256(app.jwt.secret)`: signing and signature checking. */
  datatype Signer = Signer(sign: Claims -> string, decode: string -> Option<Claims>)

  /** The moment a token issued at `now` stops being accepted. */
  function ExpiryOf(cfg: JwtConfig, now: Instant): Instant
  {
    now + cfg.expiresMinutes * SecondsPerMinute
  }

  /** The claims `issueToken(userId, username, role)` writes at `now`. */
  function IssueClaims(cfg: JwtConfig, userId: int, username: string, role: string, now: Instant): (c: Claims)
    requires IsLong(userId)
    ensures c.issuer == cfg.issuer
    ensures c.expiresAt - c.issuedAt == cfg.expiresMinutes * SecondsPerMinute && c.issuedAt == now
    ensures ParseLong(c.subject) == Some(userId)
    ensures c.username == Some(username) && c.role == Some(role)
  {
    LongDecimalRoundTrip(userId);
    Claims(cfg.issuer, now, ExpiryOf(cfg, now), Some(LongToString(userId)), Some(username), Some(role))
  }

  /** `issueToken(userId, username, role)` at `now`. */
  function IssueToken(cfg: JwtConfig, signer: Signer, userId: int, username: string, role: string, now: Instant): string
    requires IsLong(userId)
  {
    signer.sign(IssueClaims(cfg, userId, username, role, now))
  }

  /** `verify(token)` at `now`, in whole seconds: the signature must check,
      the issuer must be the configured one, the token must not be issued
      after `now`, and `now` must be before its expiry, so a token is refused
      from its expiry second on. Any failure is a `JWTVerificationException`,
      here `None`. */
  function Verify(cfg: JwtConfig, signer: Signer, token: string, now: Instant): (r: Option<Claims>)
    ensures r.Some? <==> signer.decode(token).Some? && signer.decode(token).value.issuer == cfg.issuer
                         && signer.decode(token).value.issuedAt <= now < signer.decode(token).value.expiresAt
    ensures r.Some? ==> r == signer.decode(token)
  {
    match signer.decode(token)
    case None => None
    case Some(c) =>
      if c.issuer != cfg.issuer || now < c.issuedAt || now >= c.expiresAt then None else Some(c)
  }

  /** A token issued at `now` verifies, with the claims it was issued with,
      from `now` until the second before its expiry, and from no moment after. */
  lemma IssueThenVerify(cfg: JwtConfig, signer: Signer, userId: int, username: string, role: string, now: Instant, at: Instant)
    requires IsLong(userId)
    requires var c := IssueClaims(cfg, userId, username, role, now); signer.decode(signer.sign(c)) == Some(c)
    ensures var t := IssueToken(cfg, signer, userId, username, role, now);
      && (now <= at < ExpiryOf(cfg, now) ==> Verify(cfg, signer, t, at) == Some(IssueClaims(cfg, userId, username, role, now)))
      && (at >= ExpiryOf(cfg, now) ==> Verify(cfg, signer, t, at) == None)
  {
  }

  /** A token signed for another issuer is refused even with a checking signature. */
  lemma ForeignIssuerRefused(cfg: JwtConfig, signer: Signer, c: Claims, now: Instant)
    requires signer.decode(signer.sign(c)) == Some(c) && c.issuer != cfg.issuer
    ensures Verify(cfg, signer, signer.sign(c), now) == None
  {
  }
}
