/**
 * The bearer-token filter in front of the API: which paths it skips, and the
 * chain of checks that decides whether a request is authenticated. The token
 * parser (`extractUsername`, `isExpired`), the header's prefix and the user
 * lookup are parameters; a parser call that throws `JwtException` is a
 * `Failure`.
 */
module JwtFilter {
  import opened Wrappers
  import opened Text
  import opened Entities
  import opened Tables
  import opened UserService

  /** The path prefixes the filter lets through without looking at them. */
  const SKIPPED_PREFIXES: seq<string> :=
    ["/api/user/login", "/api/user/register", "/swagger-ui", "/v3/api-docs", "/h2"]

  /** `shouldNotFilter`: the servlet path starts with one of the skipped prefixes. */
  function ShouldNotFilter(path: string): (r: bool)
    ensures r <==> exists i :: 0 <= i < |SKIPPED_PREFIXES| && SKIPPED_PREFIXES[i] <= path
  {
    assert SKIPPED_PREFIXES[0] == "/api/user/login" && SKIPPED_PREFIXES[1] == "/api/user/register";
    assert SKIPPED_PREFIXES[2] == "/swagger-ui" && SKIPPED_PREFIXES[3] == "/v3/api-docs";
    assert SKIPPED_PREFIXES[4] == "/h2";
    if "/api/user/login" <= path || "/api/user/register" <= path then true
    else if "/swagger-ui" <= path || "/v3/api-docs" <= path || "/h2" <= path then true
    else false
  }

  /**
   * The skipped prefixes name `/api/user/...`, while the user endpoints live
   * under `/api/users`: the login and registration requests are filtered.
   */
  lemma LoginAndRegisterAreFiltered()
    ensures !ShouldNotFilter("/api/users/login") && !ShouldNotFilter("/api/users/register")
    ensures ShouldNotFilter("/api/user/login") && ShouldNotFilter("/h2-console")
  {
    forall path | path == "/api/users/login" || path == "/api/users/register"
      ensures !ShouldNotFilter(path)
    {
      assert path[9] == 's' && path[1] == 'a';
      assert "/api/user/login"[9] == '/' && "/api/user/register"[9] == '/';
      assert "/swagger-ui"[1] == 's' && "/v3/api-docs"[1] == 'v' && "/h2"[1] == 'h';
    }
  }

  /** The principal of an authenticated request. */
  datatype Principal = Principal(id: Option<int>, email: Option<string>, role: UserRole)

  /** A `UsernamePasswordAuthenticationToken`. */
  datatype Authentication = Authentication(
    principal: Principal,
    credentials: Option<string>,
    authorities: seq<string>,
    authenticated: bool)

  /** The request's `SecurityContext`. */
  class SecurityContext {
    var authentication: Option<Authentication>

    constructor(authentication: Option<Authentication>)
      ensures this.authentication == authentication
    {
      this.authentication := authentication;
    }
  }

  /** How the filter leaves the request. */
  datatype Outcome =
    | ChainContinued
    | ExceptionResolved
    | Thrown(exception: string)

  /**
   * `getUsernamePasswordAuthenticationToken`: the principal (id, e-mail, role),
   * no credentials and the single authority `ROLE_<role>`. A user without a
   * role throws NullPointerException.
   */
  function AuthenticationOf(u: User): (r: Result<Authentication>)
    reads u
    ensures r.Failure? <==> u.userRole.None?
    ensures r.Failure? ==> r.exception == "NullPointerException"
    ensures r.Success? ==>
              && r.value.principal == Principal(u.id, u.email, u.userRole.value)
              && r.value.credentials.None? && r.value.authenticated
              && r.value.authorities == ["ROLE_" + UserRoleName(u.userRole.value)]
  {
    match u.userRole
    case None => Failure("NullPointerException", "")
    case Some(role) =>
      Success(Authentication(Principal(u.id, u.email, role), None, ["ROLE_" + UserRoleName(role)], true))
  }

  /** The authority names the role it was built from. */
  lemma AuthorityNamesRole(u: User)
    requires u.userRole.Some?
    ensures var a := AuthenticationOf(u).value.authorities;
            |a| == 1 && a[0][..5] == "ROLE_" && a[0][5..] == UserRoleName(u.userRole.value)
  {
  }

  /**
   * The token in the header: present when the header starts with the prefix,
   * and then the rest of the header, trimmed.
   */
  function TokenOf(header: Option<string>, prefix: string): (r: Option<string>)
    ensures r.Some? <==> header.Some? && prefix <= header.value
    ensures r.Some? ==> IsTrimmed(JavaTrim, r.value) && |r.value| <= |header.value| - |prefix|
  {
    if header.Some? && prefix <= header.value then Some(Trim(JavaTrim, header.value[|prefix|..])) else None
  }

  /** A header made of the prefix and a trimmed token yields that token. */
  lemma TokenOfBearer(prefix: string, token: string)
    requires IsTrimmed(JavaTrim, token)
    ensures TokenOf(Some(prefix + token), prefix) == Some(token)
  {
    assert (prefix + token)[|prefix|..] == token;
    TrimOfTrimmed(JavaTrim, token);
  }

  /** Trimming makes the space after the prefix irrelevant. */
  lemma TokenOfSpacedBearer(prefix: string, token: string)
    requires IsTrimmed(JavaTrim, token)
    ensures TokenOf(Some(prefix + " " + token), prefix) == Some(token)
  {
    assert (prefix + " " + token)[|prefix|..] == " " + token;
    TrimDropsLeadingSpace(JavaTrim, token);
  }

  predicate IsAuthenticated(a: Option<Authentication>) {
    a.Some? && a.value.authenticated
  }

  /** The parser accepts the token for the non-blank user name `email`, and the token has not expired. */
  ghost predicate Admits(extractUsername: string -> Result<Option<string>>, isExpired: string -> Result<bool>,
                         token: string, email: string)
  {
    extractUsername(token) == Success(Some(email)) && !IsBlank(JavaIsWhitespace, email) && isExpired(token) == Success(false)
  }

  /** A parser failure before the user lookup. */
  ghost predicate ParserFails(extractUsername: string -> Result<Option<string>>, isExpired: string -> Result<bool>,
                              token: string)
  {
    || extractUsername(token).Failure?
    || (extractUsername(token).Success? && extractUsername(token).value.Some?
        && !IsBlank(JavaIsWhitespace, extractUsername(token).value.value) && isExpired(token).Failure?)
  }

  /** The user name the parser admits for `token`, if any. */
  function AdmittedName(extractUsername: string -> Result<Option<string>>, isExpired: string -> Result<bool>,
                        token: string): (r: Option<string>)
    ensures r.Some? ==> Admits(extractUsername, isExpired, token, r.value)
    ensures r.None? ==> forall email :: !Admits(extractUsername, isExpired, token, email)
  {
    match extractUsername(token)
    case Success(Some(email)) =>
      if !IsBlank(JavaIsWhitespace, email) && isExpired(token) == Success(false) then Some(email) else None
    case _ => None
  }

  /**
   * The stored user a request with this header designates: the header carries
   * a token, the parser admits a user name for it and a user has that e-mail
   * address.
   */
  ghost function Designated(db: Database, header: Option<string>, prefix: string,
                            extractUsername: string -> Result<Option<string>>, isExpired: string -> Result<bool>)
    : Option<User>
    requires db.UniqueEmails()
    reads db`users, db.users.Values`email
  {
    var token := TokenOf(header, prefix);
    if token.None? then None
    else
      var name := AdmittedName(extractUsername, isExpired, token.value);
      if name.None? then None else FindByEmail(db, name.value)
  }

  /**
   * `doFilterInternal`. Without a bearer header, or when the context already
   * holds an authenticated user, the chain continues untouched. Otherwise the
   * context becomes authenticated exactly when the token names a non-blank
   * user name, has not expired and a user with that e-mail address exists; a
   * failing parser is handed to the exception resolver, and every other case
   * (no user name, a blank one, an expired token, no such user) continues the
   * chain with the context as it was.
   */
  method DoFilterInternal(ctx: SecurityContext, db: Database, header: Option<string>, prefix: string,
                          extractUsername: string -> Result<Option<string>>, isExpired: string -> Result<bool>)
    returns (o: Outcome)
    requires db.UniqueEmails()
    modifies ctx
    ensures TokenOf(header, prefix).None? ==> o == ChainContinued && ctx.authentication == old(ctx.authentication)
    ensures IsAuthenticated(old(ctx.authentication)) ==>
              o == ChainContinued && ctx.authentication == old(ctx.authentication)
    ensures o == ExceptionResolved <==>
              && TokenOf(header, prefix).Some? && !IsAuthenticated(old(ctx.authentication))
              && ParserFails(extractUsername, isExpired, TokenOf(header, prefix).value)
    ensures o != ChainContinued ==> ctx.authentication == old(ctx.authentication)
    ensures && TokenOf(header, prefix).Some? && !IsAuthenticated(old(ctx.authentication))
            && !ParserFails(extractUsername, isExpired, TokenOf(header, prefix).value)
            && old(Designated(db, header, prefix, extractUsername, isExpired)).None? ==>
              o == ChainContinued && ctx.authentication == old(ctx.authentication)
    ensures ctx.authentication != old(ctx.authentication) ==>
              && !IsAuthenticated(old(ctx.authentication))
              && old(Designated(db, header, prefix, extractUsername, isExpired)).Some?
              && ctx.authentication.Some?
              && AuthenticationOf(old(Designated(db, header, prefix, extractUsername, isExpired)).value)
                 == Success(ctx.authentication.value)
    ensures !IsAuthenticated(old(ctx.authentication))
            && old(Designated(db, header, prefix, extractUsername, isExpired)).Some? ==>
              match AuthenticationOf(old(Designated(db, header, prefix, extractUsername, isExpired)).value)
              case Success(a) => o == ChainContinued && ctx.authentication == Some(a)
              case Failure(e, _) => o == Thrown(e)
  {
    var token := TokenOf(header, prefix);
    if token.None? {
      return ChainContinued;
    }
    if IsAuthenticated(ctx.authentication) {
      return ChainContinued;
    }
    var name := extractUsername(token.value);
    if name.Failure? {
      return ExceptionResolved;
    }
    if name.value.None? || IsBlank(JavaIsWhitespace, name.value.value) {
      return ChainContinued;
    }
    var email := name.value.value;
    var expired := isExpired(token.value);
    if expired.Failure? {
      return ExceptionResolved;
    }
    if expired.value {
      return ChainContinued;
    }
    var user := FindByEmail(db, email);
    if user.None? {
      return ChainContinued;
    }
    var auth := AuthenticationOf(user.value);
    if auth.Failure? {
      return Thrown(auth.exception);
    }
    ctx.authentication := Some(auth.value);
    o := ChainContinued;
  }
}
