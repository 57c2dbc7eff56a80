/** JwtAuthFilter: once per request, a valid `Authorization: Bearer` token
    becomes the request's authentication; anything else leaves the request
    anonymous, and the rest of the chain runs either way. */
module AuthFilter {
  import opened Outcomes
  import opened JavaText
  import opened JwtTokens
  import opened RouteSecurity

  const BearerPrefix: string := "Bearer "
  const RolePrefix: string := "ROLE_"

  /** The principal: the user id read from the subject and the `username` claim. */
  datatype AuthUser = AuthUser(id: int, username: Option<string>)

  /** The authentication put into the security context. */
  datatype Authentication = Authentication(principal: AuthUser, authorities: seq<string>)

  /** The token of an `Authorization` header: what follows `Bearer `. */
  function BearerToken(header: Option<string>): (t: Option<string>)
    ensures t.Some? <==> header.Some? && StartsWith(header.value, BearerPrefix)
    ensures t.Some? ==> header.value == BearerPrefix + t.value
  {
    if header.Some? && StartsWith(header.value, BearerPrefix) then
      assert header.value == BearerPrefix + header.value[|BearerPrefix|..];
      Some(header.value[|BearerPrefix|..])
    else None
  }

  lemma BearerRoundTrip(token: string)
    ensures BearerToken(Some(BearerPrefix + token)) == Some(token)
  {
    StartsWithConcat(BearerPrefix, token);
  }

  /** The granted authorities: `ROLE_<role>` for a role claim that is present
      and not blank, none otherwise. */
  function Authorities(role: Option<string>): (a: seq<string>)
    ensures |a| <= 1
    ensures a == [] <==> role.None? || IsBlank(role.value)
  {
    if role.Some? && !IsBlank(role.value) then [RolePrefix + role.value] else []
  }

  /** Only the role claim `ADMIN` grants `ROLE_ADMIN`. */
  lemma AdminAuthorityOnlyForAdmin(role: Option<string>)
    ensures "ROLE_ADMIN" in Authorities(role) <==> role == Some("ADMIN")
  {
    if "ROLE_ADMIN" in Authorities(role) {
      assert (RolePrefix + role.value)[|RolePrefix|..] == role.value;
      assert "ROLE_ADMIN"[|RolePrefix|..] == "ADMIN";
    }
    if role == Some("ADMIN") {
      assert !IsJavaWhitespace("ADMIN"[0]);
      assert RolePrefix + "ADMIN" == "ROLE_ADMIN";
    }
  }

  /** What the filter authenticates the request as at `now`: `None` for no
      header, another scheme, a token that does not verify or a subject that
      is not a number. */
  function Authenticate(cfg: JwtConfig, signer: Signer, header: Option<string>, now: Instant): (r: Option<Authentication>)
    ensures r.Some? ==> BearerToken(header).Some? && Verify(cfg, signer, BearerToken(header).value, now).Some?
    ensures r.Some? ==> var c := Verify(cfg, signer, BearerToken(header).value, now).value;
      && ParseLong(c.subject) == Some(r.value.principal.id)
      && r.value == Authentication(AuthUser(r.value.principal.id, c.username), Authorities(c.role))
    ensures r.None? ==>
      BearerToken(header).None? || Verify(cfg, signer, BearerToken(header).value, now).None? || ParseLong(Verify(cfg, signer, BearerToken(header).value, now).value.subject).None?
  {
    match BearerToken(header)
    case None => None
    case Some(token) =>
      match Verify(cfg, signer, token, now)
      case None => None
      case Some(c) =>
        match ParseLong(c.subject)
        case None => None
        case Some(id) => Some(Authentication(AuthUser(id, c.username), Authorities(c.role)))
  }

  /** The token a login hands out authenticates its bearer, until it expires,
      as the user it was issued for, with the role it was issued with. */
  lemma LoginTokenAuthenticates(cfg: JwtConfig, signer: Signer, userId: int, username: string, role: string,
                                issuedAt: Instant, now: Instant)
    requires IsLong(userId)
    requires var c := IssueClaims(cfg, userId, username, role, issuedAt); signer.decode(signer.sign(c)) == Some(c)
    requires issuedAt <= now < ExpiryOf(cfg, issuedAt)
    ensures var t := IssueToken(cfg, signer, userId, username, role, issuedAt);
      Authenticate(cfg, signer, Some(BearerPrefix + t), now)
        == Some(Authentication(AuthUser(userId, Some(username)), Authorities(Some(role))))
  {
    var t := IssueToken(cfg, signer, userId, username, role, issuedAt);
    BearerRoundTrip(t);
    IssueThenVerify(cfg, signer, userId, username, role, issuedAt, now);
  }

  /** A user's token opens the admin endpoints exactly when it was issued
      with the role ADMIN. */
  lemma AdminTokenOpensAdmin(cfg: JwtConfig, signer: Signer, userId: int, username: string, role: string,
                             issuedAt: Instant, now: Instant, m: HttpMethod, path: string)
    requires IsLong(userId)
    requires var c := IssueClaims(cfg, userId, username, role, issuedAt); signer.decode(signer.sign(c)) == Some(c)
    requires issuedAt <= now < ExpiryOf(cfg, issuedAt)
    requires m != OPTIONS && PathMatches(Subtree("/api/admin"), path)
    ensures var a := Authenticate(cfg, signer, Some(BearerPrefix + IssueToken(cfg, signer, userId, username, role, issuedAt)), now);
      a.Some? && (Permits(m, path, Some(a.value.authorities)) <==> role == "ADMIN")
  {
    LoginTokenAuthenticates(cfg, signer, userId, username, role, issuedAt, now);
    AdminAuthorityOnlyForAdmin(Some(role));
    AdminNeedsRole(m, path, Some(Authorities(Some(role))));
  }

  /** The request's security context. */
  class SecurityContext {
    var authentication: Option<Authentication>

    constructor ()
      ensures authentication.None?
    {
      authentication := None;
    }
  }

  /** The rest of the filter chain, as far as this filter sees it: how often
      it has been handed the request. */
  class FilterChain {
    var invocations: nat

    constructor ()
      ensures invocations == 0
    {
      invocations := 0;
    }

    method DoFilter()
      modifies this
      ensures invocations == old(invocations) + 1
    {
      invocations := invocations + 1;
    }
  }

  class JwtAuthFilter {
    const cfg: JwtConfig
    const signer: Signer

    constructor (cfg: JwtConfig, signer: Signer)
      ensures this.cfg == cfg && this.signer == signer
    {
      this.cfg := cfg;
      this.signer := signer;
    }

    /** `doFilterInternal` on a request with the `Authorization` header
        `header`, at `now`: a failure to authenticate is swallowed, and the
        chain is invoked exactly once. */
    method DoFilterInternal(header: Option<string>, now: Instant, context: SecurityContext, chain: FilterChain)
      modifies context, chain
      ensures chain.invocations == old(chain.invocations) + 1
      ensures context.authentication
           == if Authenticate(cfg, signer, header, now).Some? then Authenticate(cfg, signer, header, now) else old(context.authentication)
    {
      if header.Some? && StartsWith(header.value, BearerPrefix) {
        var token := header.value[|BearerPrefix|..];
        var jwt := Verify(cfg, signer, token, now);
        if jwt.Some? {
          var userId := ParseLong(jwt.value.subject);
          if userId.Some? {
            var principal := AuthUser(userId.value, jwt.value.username);
            var authorities := Authorities(jwt.value.role);
            context.authentication := Some(Authentication(principal, authorities));
          }
        }
      }
      chain.DoFilter();
    }
  }
}
