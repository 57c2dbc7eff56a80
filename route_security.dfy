/** SecurityConfig's `authorizeHttpRequests` chain: an ordered list of rules,
    each a request matcher and the access it demands; the first rule whose
    matcher accepts the request decides, and a request no rule accepts needs
    an authenticated principal. */
module RouteSecurity {
  import opened Outcomes
  import opened JavaText

  datatype HttpMethod = GET | HEAD | POST | PUT | PATCH | DELETE | OPTIONS | TRACE

  // A path pattern as the rules write it: a literal path, or a prefix followed
  // by the double-star wildcard, which matches the prefix itself and
  // everything below it.
  datatype PathPattern = Exact(path: string) | Subtree(prefix: string)

  predicate PathMatches(pat: PathPattern, path: string)
  {
    match pat
    case Exact(p) => path == p
    case Subtree(p) => path == p || StartsWith(path, p + "/")
  }

  /** What a rule demands once it matches. */
  datatype Access = Permit | Authenticated | HasAuthority(authority: string)

  /** `requestMatchers([method,] patterns...)` followed by its access. */
  datatype Rule = Rule(verb: Option<HttpMethod>, patterns: seq<PathPattern>, access: Access)

  predicate RuleMatches(r: Rule, m: HttpMethod, path: string)
  {
    && (r.verb.None? || r.verb == Some(m))
    && exists i :: 0 <= i < |r.patterns| && PathMatches(r.patterns[i], path)
  }

  /** The rules of `filterChain`, in order; `anyRequest().authenticated()` is
      the fall-through of `Decide`. */
  const ChainRules: seq<Rule> := [
    Rule(Some(OPTIONS), [Subtree("")], Permit),
    Rule(None, [Subtree("/api/auth")], Permit),
    Rule(None, [Exact("/swagger-ui.html"), Subtree("/swagger-ui"), Subtree("/v3/api-docs"), Subtree("/h2-console")], Permit),
    Rule(Some(GET), [Subtree("/api/guides"), Exact("/api/templates"), Subtree("/uploads")], Permit),
    Rule(None, [Subtree("/api/admin")], HasAuthority("ROLE_ADMIN"))
  ]

  /** The access demanded of a request: that of the first matching rule. */
  function Decide(rules: seq<Rule>, m: HttpMethod, path: string): Access
  {
    if rules == [] then Authenticated
    else if RuleMatches(rules[0], m, path) then rules[0].access
    else Decide(rules[1..], m, path)
  }

  /** First match decides: rule `i` decides when it matches and no earlier
      rule does, and a request no rule matches needs authentication. */
  lemma {:induction false} DecideIsFirstMatch(rules: seq<Rule>, m: HttpMethod, path: string, i: int)
    requires 0 <= i <= |rules|
    requires forall j :: 0 <= j < i ==> !RuleMatches(rules[j], m, path)
    ensures i < |rules| && RuleMatches(rules[i], m, path) ==> Decide(rules, m, path) == rules[i].access
    ensures i == |rules| ==> Decide(rules, m, path) == Authenticated
  {
    if i > 0 {
      assert !RuleMatches(rules[0], m, path);
      assert forall j :: 0 <= j < i - 1 ==> rules[1..][j] == rules[j + 1];
      DecideIsFirstMatch(rules[1..], m, path, i - 1);
    }
  }

  /** Whether the access demanded is met by the request's authentication:
      `None` for an anonymous request, else the granted authorities. */
  predicate Satisfied(a: Access, authorities: Option<seq<string>>)
  {
    match a
    case Permit => true
    case Authenticated => authorities.Some?
    case HasAuthority(x) => authorities.Some? && x in authorities.value
  }

  /** The request reaches its handler. */
  predicate Permits(m: HttpMethod, path: string, authorities: Option<seq<string>>)
  {
    Satisfied(Decide(ChainRules, m, path), authorities)
  }

  /** The path of a servlet request always starts with `/`. */
  predicate RequestPath(path: string)
  {
    |path| > 0 && path[0] == '/'
  }

  /** A path that differs from `q` at a position both have matches neither
      `q` nor `q` with the wildcard. */
  lemma Mismatch(path: string, q: string, k: nat)
    requires k < |q| && k < |path| && path[k] != q[k]
    ensures !PathMatches(Exact(q), path) && !PathMatches(Subtree(q), path)
  {
    assert (q + "/")[k] == q[k];
  }

  function PatternText(pat: PathPattern): string
  {
    if pat.Exact? then pat.path else pat.prefix
  }

  /** A path matched by a pattern starts with the pattern's text. */
  lemma Matched(pat: PathPattern, path: string)
    requires PathMatches(pat, path)
    ensures |PatternText(pat)| <= |path| && forall k :: 0 <= k < |PatternText(pat)| ==> path[k] == PatternText(pat)[k]
  {
    if pat.Subtree? && path != pat.prefix {
      assert path[..|pat.prefix|] == (pat.prefix + "/")[..|pat.prefix|];
    }
  }

  /** OPTIONS is let through on every path, whoever asks. */
  lemma OptionsAlwaysPermitted(path: string, authorities: Option<seq<string>>)
    requires RequestPath(path)
    ensures Decide(ChainRules, OPTIONS, path) == Permit
    ensures Permits(OPTIONS, path, authorities)
  {
    assert path[..1] == "/";
    assert PathMatches(ChainRules[0].patterns[0], path);
  }

  /** A path that starts with `/api/` followed by a letter other than `a`
      matches none of the open rules. */
  lemma NotOpenApiPath(path: string)
    requires |path| > 5 && path[..5] == "/api/" && path[5] != 'a'
    ensures forall m :: !RuleMatches(ChainRules[1], m, path) && !RuleMatches(ChainRules[2], m, path)
  {
    assert path[1] == "/api/"[1];
    Mismatch(path, "/api/auth", 5);
    Mismatch(path, "/swagger-ui.html", 1);
    Mismatch(path, "/swagger-ui", 1);
    Mismatch(path, "/v3/api-docs", 1);
    Mismatch(path, "/h2-console", 1);
  }

  /** Login and registration, the API docs and the H2 console are open to
      every method. */
  lemma OpenPathsPermitted(m: HttpMethod, path: string)
    requires PathMatches(Subtree("/api/auth"), path) || PathMatches(Exact("/swagger-ui.html"), path)
          || PathMatches(Subtree("/swagger-ui"), path) || PathMatches(Subtree("/v3/api-docs"), path)
          || PathMatches(Subtree("/h2-console"), path)
    ensures Decide(ChainRules, m, path) == Permit
  {
    var open := ChainRules[1].patterns + ChainRules[2].patterns;
    var i := if PathMatches(open[0], path) then 0 else if PathMatches(open[1], path) then 1
      else if PathMatches(open[2], path) then 2 else if PathMatches(open[3], path) then 3 else 4;
    Matched(open[i], path);
    if m == OPTIONS {
      OptionsAlwaysPermitted(path, None);
    } else if i == 0 {
      assert PathMatches(ChainRules[1].patterns[0], path);
    } else {
      assert path[1] != 'a';
      Mismatch(path, "/api/auth", 1);
      assert PathMatches(ChainRules[2].patterns[i - 1], path);
      DecideIsFirstMatch(ChainRules, m, path, 2);
    }
  }

  /** Reading guides, the template list and uploaded files needs no login. */
  lemma PublicReadsPermitted(path: string)
    requires PathMatches(Subtree("/api/guides"), path) || PathMatches(Exact("/api/templates"), path)
          || PathMatches(Subtree("/uploads"), path)
    ensures Decide(ChainRules, GET, path) == Permit
  {
    var r := ChainRules[3];
    var i := if PathMatches(r.patterns[0], path) then 0 else if PathMatches(r.patterns[1], path) then 1 else 2;
    Matched(r.patterns[i], path);
    if i < 2 {
      assert path[..5] == "/api/";
      NotOpenApiPath(path);
    } else {
      assert path[1] == 'u';
      Mismatch(path, "/api/auth", 1);
      Mismatch(path, "/swagger-ui.html", 1);
      Mismatch(path, "/swagger-ui", 1);
      Mismatch(path, "/v3/api-docs", 1);
      Mismatch(path, "/h2-console", 1);
    }
    DecideIsFirstMatch(ChainRules, GET, path, 3);
  }

  /** Any method but GET on the guide paths needs a login, and so does every
      path of the follow, me, upload and user endpoints. */
  lemma OtherRequestsNeedLogin(m: HttpMethod, path: string)
    requires m != OPTIONS
    requires (m != GET && PathMatches(Subtree("/api/guides"), path))
          || PathMatches(Subtree("/api/me"), path) || PathMatches(Subtree("/api/users"), path)
          || PathMatches(Exact("/api/upload"), path)
    ensures Decide(ChainRules, m, path) == Authenticated
    ensures !Permits(m, path, None)
  {
    var pats := [Subtree("/api/guides"), Subtree("/api/me"), Subtree("/api/users"), Exact("/api/upload")];
    var i := if m != GET && PathMatches(pats[0], path) then 0 else if PathMatches(pats[1], path) then 1
      else if PathMatches(pats[2], path) then 2 else 3;
    Matched(pats[i], path);
    assert path[..5] == "/api/";
    NotOpenApiPath(path);
    assert !RuleMatches(ChainRules[3], m, path) by {
      if m == GET {
        assert path[5] == 'm' || path[5] == 'u';
        Mismatch(path, "/api/guides", 5);
        Mismatch(path, "/api/templates", 5);
        Mismatch(path, "/uploads", 1);
      }
    }
    Mismatch(path, "/api/admin", 5);
    DecideIsFirstMatch(ChainRules, m, path, 5);
  }

  /** The admin endpoints need ROLE_ADMIN for every method but OPTIONS, GET
      included: an anonymous request or a plain user is refused. */
  lemma AdminNeedsRole(m: HttpMethod, path: string, authorities: Option<seq<string>>)
    requires m != OPTIONS && PathMatches(Subtree("/api/admin"), path)
    ensures Decide(ChainRules, m, path) == HasAuthority("ROLE_ADMIN")
    ensures Permits(m, path, authorities) <==> authorities.Some? && "ROLE_ADMIN" in authorities.value
  {
    Matched(Subtree("/api/admin"), path);
    assert path[1] == 'a' && path[5] == 'a' && path[6] == 'd';
    Mismatch(path, "/api/auth", 6);
    Mismatch(path, "/swagger-ui.html", 1);
    Mismatch(path, "/swagger-ui", 1);
    Mismatch(path, "/v3/api-docs", 1);
    Mismatch(path, "/h2-console", 1);
    Mismatch(path, "/api/guides", 5);
    Mismatch(path, "/api/templates", 5);
    Mismatch(path, "/uploads", 1);
    assert PathMatches(ChainRules[4].patterns[0], path);
    DecideIsFirstMatch(ChainRules, m, path, 4);
  }
}
