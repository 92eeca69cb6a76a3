/** Signed tokens: the claims the service issues, what the signer adds and checks, and what the
    access-token dependency makes of a verified token. Times are seconds since the epoch. */
module Jwt {
  import opened Common

  datatype Claim = Iss | Aud | Iat | Exp | Jti | Sub | Typ | Email | TenantId | Active | Scopes

  /** A JSON claim value. `Uuid` is a string in the canonical form of a UUID, so that
      `str(id)` is `Uuid(id)` and `UUID(s)` fails on every `Str`. */
  datatype Json = Null | Str(s: string) | Uuid(id: Id) | Num(n: int) | Bool(b: bool) | List(items: seq<string>)

  type Payload = map<Claim, Json>

  /** A token is its payload and the key that signed it: signatures cannot be forged. */
  datatype Token = Token(payload: Payload, key: nat)

  datatype VerifyError = BadSignature | Malformed | Immature | Expired | WrongIssuer | WrongAudience

  const LEEWAY := 30.0

  /** Python's truth value of `claims.get(c)`. */
  predicate Truthy(payload: Payload, c: Claim) {
    c in payload &&
    match payload[c]
    case Null => false
    case Str(s) => s != ""
    case Uuid(_) => true
    case Num(n) => n != 0
    case Bool(b) => b
    case List(items) => items != []
  }

  /** `int(t.timestamp())`: truncation toward zero. */
  function Truncated(t: real): int {
    if t >= 0.0 then t.Floor else -((-t).Floor)
  }

  function Default(payload: Payload, c: Claim, value: Json): Payload {
    if c in payload then payload else payload[c := value]
  }

  datatype JwtSigner = JwtSigner(key: nat, issuer: string, audience: string, accessTtl: int) {

    function Signed(claims: Payload, now: real, jti: Id): Token {
      var p := Default(Default(claims, Iss, Str(issuer)), Aud, Str(audience));
      var p := Default(Default(p, Iat, Num(now.Floor)), Exp, Num((now + accessTtl as real).Floor));
      Token(Default(p, Jti, Uuid(jti)), key)
    }

    method Sign(claims: Payload, now: real, jti: Id) returns (token: Token)
      ensures token == Signed(claims, now, jti)
      ensures forall c | c in claims :: c in token.payload && token.payload[c] == claims[c]
      ensures token.payload.Keys == claims.Keys + {Iss, Aud, Iat, Exp, Jti}
      ensures var p := token.payload;
              && (Iss !in claims ==> p[Iss] == Str(issuer))
              && (Aud !in claims ==> p[Aud] == Str(audience))
              && (Iat !in claims ==> p[Iat] == Num(now.Floor))
              && (Exp !in claims ==> p[Exp] == Num((now + accessTtl as real).Floor))
              && (Jti !in claims ==> p[Jti] == Uuid(jti))
      ensures token.key == key
    {
      var payload := claims;
      if Iss !in payload { payload := payload[Iss := Str(issuer)]; }
      if Aud !in payload { payload := payload[Aud := Str(audience)]; }
      if Iat !in payload { payload := payload[Iat := Num(now.Floor)]; }
      if Exp !in payload { payload := payload[Exp := Num((now + accessTtl as real).Floor)]; }
      if Jti !in payload { payload := payload[Jti := Uuid(jti)]; }
      token := Token(payload, key);
      SignedKeeps(claims, now, jti);
      SignedFills(claims, now, jti);
    }

    /** Given claims stay, and just the five standard ones are filled in where they are missing. */
    lemma SignedKeeps(claims: Payload, now: real, jti: Id)
      ensures var p := Signed(claims, now, jti).payload;
              && (forall c | c in claims :: c in p && p[c] == claims[c])
              && p.Keys == claims.Keys + {Iss, Aud, Iat, Exp, Jti}
    {
    }

    lemma SignedFills(claims: Payload, now: real, jti: Id)
      ensures var p := Signed(claims, now, jti).payload;
              && p.Keys >= {Iss, Aud, Iat, Exp, Jti}
              && (Iss !in claims ==> p[Iss] == Str(issuer))
              && (Aud !in claims ==> p[Aud] == Str(audience))
              && (Iat !in claims ==> p[Iat] == Num(now.Floor))
              && (Exp !in claims ==> p[Exp] == Num((now + accessTtl as real).Floor))
              && (Jti !in claims ==> p[Jti] == Uuid(jti))
    {
    }

    /** The decoding checks: signature, then `iat` and `exp` with leeway, issuer and audience. */
    function Verify(token: Token, now: real): Result<Payload, VerifyError> {
      var p := token.payload;
      if token.key != key then Failure(BadSignature)
      else if Iat in p && !p[Iat].Num? then Failure(Malformed)
      else if Iat in p && p[Iat].n as real > now + LEEWAY then Failure(Immature)
      else if Exp in p && !p[Exp].Num? then Failure(Malformed)
      else if Exp in p && p[Exp].n as real <= now - LEEWAY then Failure(Expired)
      else if !(Iss in p && p[Iss] == Str(issuer)) then Failure(WrongIssuer)
      else if !(Aud in p && (p[Aud] == Str(audience) || (p[Aud].List? && audience in p[Aud].items)))
      then Failure(WrongAudience)
      else Success(p)
    }
  }

  // ---------------------------------------------------------------- claims issued by the service

  datatype UserAuthRecord = UserAuthRecord(
    id: Id, email: string, passwordHash: Digest<string>, tenantId: Option<Id>, disabled: bool)

  function AccessClaims(user: UserAuthRecord, now: real, expires: real): Payload {
    map[Sub := Uuid(user.id),
        Email := Str(user.email),
        TenantId := if user.tenantId.Some? then Uuid(user.tenantId.value) else Null,
        Typ := Str("access"),
        Active := Bool(!user.disabled),
        Exp := Num(Truncated(expires)),
        Iat := Num(Truncated(now)),
        Scopes := List(["user"])]
  }

  function RefreshClaims(userId: Id, tokenId: Id, now: real, expires: real): Payload {
    map[Sub := Uuid(userId),
        Jti := Uuid(tokenId),
        Typ := Str("refresh"),
        Exp := Num(Truncated(expires)),
        Iat := Num(Truncated(now))]
  }

  /** What the service is configured with: `get_auth_service` floors the two lifetimes. */
  datatype Config = Config(signer: JwtSigner, accessMinutes: int, refreshDays: int) {
    function AccessExpiry(now: real): real { now + (accessMinutes * 60) as real }

    function RefreshExpiry(now: real): real { now + (refreshDays * 86400) as real }

    function AccessToken(user: UserAuthRecord, now: real, jti: Id): Token {
      signer.Signed(AccessClaims(user, now, AccessExpiry(now)), now, jti)
    }

    function RefreshToken(userId: Id, tokenId: Id, now: real, jti: Id): Token {
      signer.Signed(RefreshClaims(userId, tokenId, now, RefreshExpiry(now)), now, jti)
    }
  }

  function GetAuthConfig(signer: JwtSigner, accessTtlSeconds: int, refreshTtlSeconds: int): Config {
    Config(signer, accessTtlSeconds / 60, refreshTtlSeconds / (60 * 60 * 24))
  }

  // ---------------------------------------------------------------- get_current_user

  datatype AuthenticatedUser = AuthenticatedUser(userId: Id, email: string, tenantId: Option<Id>, scopes: set<string>)

  datatype AccessError =
    | NotAuthenticated | Unverified(e: VerifyError) | InvalidTokenType | MissingSub | MissingEmail
    | Unparsable | UserDisabled

  /** The scopes claim as a frozenset; absent means empty. */
  function ScopesOf(p: Payload): Result<set<string>, AccessError> {
    if Scopes !in p then Success({})
    else match p[Scopes]
      case List(items) => Success(set s | s in items)
      case Str(s) => Success(set c | c in s :: [c])
      case _ => Failure(Unparsable)
  }

  function GetCurrentUser(signer: JwtSigner, credentials: Option<Token>, now: real)
    : Result<AuthenticatedUser, AccessError>
  {
    if credentials.None? then Failure(NotAuthenticated)
    else match signer.Verify(credentials.value, now)
      case Failure(e) => Failure(Unverified(e))
      case Success(p) =>
        if !(Typ in p && p[Typ] == Str("access")) then Failure(InvalidTokenType)
        else if !Truthy(p, Sub) then Failure(MissingSub)
        else if !Truthy(p, Email) then Failure(MissingEmail)
        else if !p[Sub].Uuid? || !p[Email].Str? || (Truthy(p, TenantId) && !p[TenantId].Uuid?) then Failure(Unparsable)
        else match ScopesOf(p)
          case Failure(e) => Failure(e)
          case Success(scopes) =>
            var tenant := if Truthy(p, TenantId) then Some(p[TenantId].id) else None;
            if !Truthy(p, Active) then Failure(UserDisabled)
            else Success(AuthenticatedUser(p[Sub].id, p[Email].s, tenant, scopes))
  }

  // ---------------------------------------------------------------- properties

  lemma TruncatedNear(t: real)
    ensures t - 1.0 < Truncated(t) as real < t + 1.0
    ensures t >= 0.0 ==> Truncated(t) as real <= t
    ensures t <= 0.0 ==> t <= Truncated(t) as real
  {
  }

  /** Python's false values, of the kinds a claim can have. */
  lemma FalsyValues(p: Payload, c: Claim)
    ensures Truthy(p, c) <==> c in p && p[c] !in {Null, Str(""), Num(0), Bool(false), List([])}
  {
  }

  // ---------------------------------------------------------------- what the signer accepts

  ghost predicate ForAudience(p: Payload, audience: string) {
    Aud in p && (p[Aud] == Str(audience) || (p[Aud].List? && audience in p[Aud].items))
  }

  /** Any token: it is accepted, as its payload, exactly if the key, the times, the issuer and the
      audience are all right. */
  lemma VerifyAccepts(signer: JwtSigner, token: Token, now: real)
    ensures var r, p := signer.Verify(token, now), token.payload;
            && (r.Success? <==>
                && token.key == signer.key
                && (Iat in p ==> p[Iat].Num? && p[Iat].n as real <= now + 30.0)
                && (Exp in p ==> p[Exp].Num? && now < p[Exp].n as real + 30.0)
                && Iss in p && p[Iss] == Str(signer.issuer) && ForAudience(p, signer.audience))
            && (r.Success? ==> r.value == p)
  {
  }

  /** A token of one signer shown to another, or to itself: what each refusal means. */
  lemma VerifyOutcomes(a: JwtSigner, b: JwtSigner, claims: Payload, issued: real, expires: real, signedAt: real,
      jti: Id, now: real)
    requires Exp in claims && claims[Exp] == Num(Truncated(expires))
    requires Iat in claims && claims[Iat] == Num(Truncated(issued))
    requires Iss !in claims && Aud !in claims
    ensures var r := b.Verify(a.Signed(claims, signedAt, jti), now);
            var early, late := now + 30.0 < Truncated(issued) as real, Truncated(expires) as real + 30.0 <= now;
            && (r == Failure(BadSignature) <==> a.key != b.key)
            && (r == Failure(Immature) <==> a.key == b.key && early)
            && (r == Failure(Expired) <==> a.key == b.key && !early && late)
            && (r == Failure(WrongIssuer) <==> a.key == b.key && !early && !late && a.issuer != b.issuer)
            && (r == Failure(WrongAudience) <==>
                a.key == b.key && !early && !late && a.issuer == b.issuer && a.audience != b.audience)
            && r != Failure(Malformed)
  {
    var p := a.Signed(claims, signedAt, jti).payload;
    assert p[Iss] == Str(a.issuer) && p[Aud] == Str(a.audience);
  }

  /** A time that is no number is noticed unless the signature or an immature issue time is first. */
  lemma MalformedIff(signer: JwtSigner, token: Token, now: real)
    ensures var p := token.payload;
            signer.Verify(token, now) == Failure(Malformed)
            <==> && token.key == signer.key
                 && (|| (Iat in p && !p[Iat].Num?)
                     || (Exp in p && !p[Exp].Num? && (Iat in p ==> p[Iat].n as real <= now + 30.0)))
  {
  }

  /** A token signed with neither time of its own is good from its signing on for the signer's lifetime,
      give or take the leeway. */
  lemma DefaultWindow(signer: JwtSigner, claims: Payload, signedAt: real, jti: Id, now: real)
    requires claims.Keys !! {Iss, Aud, Iat, Exp}
    ensures signer.Verify(signer.Signed(claims, signedAt, jti), now).Success?
            <==> signedAt.Floor as real - 30.0 <= now < (signedAt + signer.accessTtl as real).Floor as real + 30.0
  {
    VerifyAccepts(signer, signer.Signed(claims, signedAt, jti), now);
  }

  /** The acceptance window of a token this signer issued, whatever else it carries. */
  lemma IssuedVerifies(cfg: Config, claims: Payload, issued: real, expires: real, jti: Id, now: real)
    requires Exp in claims && claims[Exp] == Num(Truncated(expires))
    requires Iat in claims && claims[Iat] == Num(Truncated(issued))
    requires Iss !in claims && Aud !in claims
    ensures var token := cfg.signer.Signed(claims, issued, jti);
            cfg.signer.Verify(token, now).Success? <==>
            Truncated(issued) as real <= now + 30.0 && now - 30.0 < Truncated(expires) as real
    ensures var r := cfg.signer.Verify(cfg.signer.Signed(claims, issued, jti), now);
            r.Success? ==> r.value == cfg.signer.Signed(claims, issued, jti).payload
  {
  }

  /** A signer accepts nothing that a signer with another key, issuer or audience issued. */
  lemma SignersStayApart(a: JwtSigner, b: JwtSigner, claims: Payload, issued: real, jti: Id, now: real)
    requires Iss !in claims && Aud !in claims
    requires a.key != b.key || a.issuer != b.issuer || a.audience != b.audience
    ensures b.Verify(a.Signed(claims, issued, jti), now).Failure?
  {
    var p := a.Signed(claims, issued, jti).payload;
    assert p[Iss] == Str(a.issuer) && p[Aud] == Str(a.audience);
  }

  /** The token's own expiry and the row's expiry collapse to one test: from issue on, an issued
      refresh token passes both exactly when `now <= expires_at`. */
  lemma ExpiryChecksCollapse(cfg: Config, userId: Id, tokenId: Id, issued: real, jti: Id, now: real)
    requires issued <= now
    ensures var expiresAt := cfg.RefreshExpiry(issued);
            (cfg.signer.Verify(cfg.RefreshToken(userId, tokenId, issued, jti), now).Success? && !(expiresAt < now))
            <==> now <= expiresAt
  {
    var expiresAt := cfg.RefreshExpiry(issued);
    IssuedVerifies(cfg, RefreshClaims(userId, tokenId, issued, expiresAt), issued, expiresAt, jti, now);
    TruncatedNear(issued);
    TruncatedNear(expiresAt);
  }

  /** Flooring the configured lifetimes to whole days and minutes never lengthens them and costs
      less than a day and less than a minute. */
  lemma LifetimesFloor(signer: JwtSigner, accessTtl: int, refreshTtl: int, now: real)
    ensures var cfg := GetAuthConfig(signer, accessTtl, refreshTtl);
            && refreshTtl as real - 86400.0 < cfg.RefreshExpiry(now) - now <= refreshTtl as real
            && accessTtl as real - 60.0 < cfg.AccessExpiry(now) - now <= accessTtl as real
  {
    assert refreshTtl / 86400 * 86400 == refreshTtl - refreshTtl % 86400;
    assert accessTtl / 60 * 60 == accessTtl - accessTtl % 60;
  }

  /** A lifetime is exactly the whole days, or the whole minutes, that fit into what is configured. */
  lemma LifetimesAreWhole(signer: JwtSigner, accessTtl: int, refreshTtl: int, now: real)
    ensures var cfg := GetAuthConfig(signer, accessTtl, refreshTtl);
            && (forall days :: days * 86400 <= refreshTtl < (days + 1) * 86400 ==>
                  cfg.RefreshExpiry(now) == now + (days * 86400) as real)
            && (forall minutes :: minutes * 60 <= accessTtl < (minutes + 1) * 60 ==>
                  cfg.AccessExpiry(now) == now + (minutes * 60) as real)
            && cfg.signer == signer
  {
  }

  /** From issue on, the access token of an enabled user with an email is accepted until 30 s after the
      whole second its minutes end in, and no longer. */
  lemma AccessTokenLifetime(cfg: Config, user: UserAuthRecord, issued: real, jti: Id, now: real)
    requires 0.0 <= issued <= now && cfg.accessMinutes >= 0 && !user.disabled && user.email != ""
    ensures GetCurrentUser(cfg.signer, Some(cfg.AccessToken(user, issued, jti)), now).Success?
            <==> now < (issued + (cfg.accessMinutes * 60) as real).Floor as real + 30.0
  {
    ClaimsRoundTrip(cfg, user, issued, jti, now);
  }

  /** What each refusal of the dependency means, for any credentials: the first thing that is wrong, in
      this order. */
  lemma AccessRefusals(signer: JwtSigner, credentials: Option<Token>, now: real)
    ensures var r := GetCurrentUser(signer, credentials, now);
            && (r == Failure(NotAuthenticated) <==> credentials.None?)
            && (forall e :: r == Failure(Unverified(e)) <==>
                  credentials.Some? && signer.Verify(credentials.value, now) == Failure(e))
    ensures credentials.Some? && signer.Verify(credentials.value, now).Success? ==>
              var r, p := GetCurrentUser(signer, credentials, now), credentials.value.payload;
              var access := Typ in p && p[Typ] == Str("access");
              var parses := p.Keys >= {Sub, Email} && p[Sub].Uuid? && p[Email].Str?
                            && (Truthy(p, TenantId) ==> p[TenantId].Uuid?)
                            && (Scopes in p ==> p[Scopes].List? || p[Scopes].Str?);
              && (r == Failure(InvalidTokenType) <==> !access)
              && (r == Failure(MissingSub) <==> access && !Truthy(p, Sub))
              && (r == Failure(MissingEmail) <==> access && Truthy(p, Sub) && !Truthy(p, Email))
              && (r == Failure(Unparsable) <==> access && Truthy(p, Sub) && Truthy(p, Email) && !parses)
              && (r == Failure(UserDisabled) <==>
                  access && Truthy(p, Sub) && Truthy(p, Email) && parses && !Truthy(p, Active))
  {
    if credentials.Some? { VerifyAccepts(signer, credentials.value, now); }
  }

  /** Whoever is accepted is the one its claims name, with the scopes they list. */
  lemma AccessSays(signer: JwtSigner, token: Token, now: real)
    requires GetCurrentUser(signer, Some(token), now).Success?
    ensures var user, p := GetCurrentUser(signer, Some(token), now).value, token.payload;
            && p.Keys >= {Sub, Email} && p[Sub] == Uuid(user.userId) && p[Email] == Str(user.email)
            && (forall id: Id :: user.tenantId == Some(id) <==> TenantId in p && p[TenantId] == Uuid(id))
            && (Scopes !in p ==> user.scopes == {})
            && (Scopes in p && p[Scopes].List? ==> forall s :: s in user.scopes <==> s in p[Scopes].items)
            && (Scopes in p && p[Scopes].Str? ==> forall c :: [c] in user.scopes <==> c in p[Scopes].s)
            && Truthy(p, Active)
  {
    VerifyAccepts(signer, token, now);
  }

  /** Access tokens make a round trip through the dependency exactly when they were issued to an
      enabled user with an email and are inside their window. */
  lemma ClaimsRoundTrip(cfg: Config, user: UserAuthRecord, issued: real, jti: Id, now: real)
    ensures var r := GetCurrentUser(cfg.signer, Some(cfg.AccessToken(user, issued, jti)), now);
            && (r.Success? <==>
                && !user.disabled && user.email != ""
                && Truncated(issued) as real <= now + 30.0
                && now - 30.0 < Truncated(cfg.AccessExpiry(issued)) as real)
            && (r.Success? ==> r.value == AuthenticatedUser(user.id, user.email, user.tenantId, {"user"}))
  {
    var expires := cfg.AccessExpiry(issued);
    var claims := AccessClaims(user, issued, expires);
    IssuedVerifies(cfg, claims, issued, expires, jti, now);
    var p := cfg.AccessToken(user, issued, jti).payload;
    assert p[Sub] == Uuid(user.id) && p[Typ] == Str("access") && p[Email] == Str(user.email);
    assert p[TenantId] == claims[TenantId] && p[Active] == claims[Active] && p[Scopes] == List(["user"]);
    assert (set s | s in ["user"]) == {"user"};
  }

  /** From issue on, an access token is accepted for at most its configured lifetime and the leeway. */
  lemma AccessWindow(signer: JwtSigner, accessTtl: int, refreshTtl: int, user: UserAuthRecord, issued: real,
      jti: Id, now: real)
    requires 0.0 <= issued <= now && accessTtl >= 0
    ensures var cfg := GetAuthConfig(signer, accessTtl, refreshTtl);
            var r := GetCurrentUser(signer, Some(cfg.AccessToken(user, issued, jti)), now);
            r.Success? ==> now < issued + accessTtl as real + 30.0
  {
    var cfg := GetAuthConfig(signer, accessTtl, refreshTtl);
    ClaimsRoundTrip(cfg, user, issued, jti, now);
    LifetimesFloor(signer, accessTtl, refreshTtl, issued);
    TruncatedNear(cfg.AccessExpiry(issued));
  }
}
