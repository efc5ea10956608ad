/** Tokens: minting one, resolving it, and the identity a websocket gets from it. */
module Auth {
  import opened Units
  import opened Wrappers
  import opened Text

  // Instants are nanoseconds since the Unix epoch; claims carry whole seconds.

  datatype Error = Unauthenticated | IdsRequired | SignFailed

  datatype KimClaims = KimClaims(issuedAt: Option<int>, expiresAt: Option<int>, notBefore: Option<int>,
                                 userID: string, appID: string, platform: string, br: string)

  /** JSON Web Tokens signed with HMAC: what a secret and a text give. */
  datatype Jwt = Jwt(sign: (string, KimClaims) -> Option<string>, parse: (string, string) -> Option<KimClaims>)

  /** A signed token is a text without white space at its ends, and it yields its claims under
      the secret that signed it. */
  ghost predicate Faithful(jwt: Jwt) {
    forall secret, claims :: jwt.sign(secret, claims).Some? ==>
      && Clean(jwt.sign(secret, claims).value)
      && jwt.parse(secret, jwt.sign(secret, claims).value) == Some(claims)
  }

  /** NumericDate, section 2 of RFC 7519, at the library's precision of one second. */
  function NumericDate(t: int): int {
    t / SECOND
  }

  /** The rules of sections 4.1.4 and 4.1.5 of RFC 7519, which the library applies to the claims
      that are present: the current time must be before `exp` and not before `nbf`. */
  predicate InForce(claims: KimClaims, now: int) {
    && (claims.expiresAt.Some? ==> now < claims.expiresAt.value * SECOND)
    && (claims.notBefore.Some? ==> now >= claims.notBefore.value * SECOND)
  }

  datatype Minted = Minted(token: string, expiresAt: int)

  datatype JWTResolver = JWTResolver(jwt: Jwt, secret: string, expiration: int) {
    function ClaimsAt(appID: string, userID: string, platform: string, br: string, now: int): KimClaims {
      KimClaims(Some(NumericDate(now)), Some(NumericDate(now + expiration)), None, userID, appID, platform, br)
    }

    function GenerateToken(appID: string, userID: string, platform: string, br: string, now: int)
      : Result<Minted, Error>
    {
      if secret == "" then Err(Unauthenticated)
      else if appID == "" || userID == "" then Err(IdsRequired)
      else
        match jwt.sign(secret, ClaimsAt(appID, userID, platform, br, now))
        case None => Err(SignFailed)
        case Some(token) => Ok(Minted(token, (now + expiration) / SECOND))
    }

    /** The limit on a token's lifetime, which holds only when one is configured. */
    predicate LifetimeOK(claims: KimClaims) {
      expiration > 0 ==>
        && claims.issuedAt.Some? && claims.expiresAt.Some?
        && (claims.expiresAt.value - claims.issuedAt.value) * SECOND <= expiration
    }

    function ResolveToken(token: string, now: int): Result<string, Error> {
      if secret == "" then Err(Unauthenticated)
      else
        match jwt.parse(secret, token)
        case None => Err(Unauthenticated)
        case Some(claims) =>
          if !InForce(claims, now) || !LifetimeOK(claims) || claims.userID == "" || claims.appID == ""
          then Err(Unauthenticated)
          else Ok(claims.appID + ":" + claims.userID)
    }
  }

  // ----- Any token -----

  /** What a token must claim to be accepted at instant `t`. */
  predicate Acceptable(claims: KimClaims, expiration: int, t: int) {
    && (claims.expiresAt == None || t < claims.expiresAt.value * SECOND)
    && (claims.notBefore == None || claims.notBefore.value * SECOND <= t)
    && (expiration <= 0
        || (claims.issuedAt.Some? && claims.expiresAt.Some?
            && claims.expiresAt.value * SECOND <= claims.issuedAt.value * SECOND + expiration))
    && claims.appID != "" && claims.userID != ""
  }

  /** Exactly which texts resolve, whoever made them, and to what: those that a non-empty secret
      verifies and whose claims are acceptable, to app, colon, user. All others are refused as
      unauthenticated. */
  lemma ResolveTokenIff(r: JWTResolver, token: string, t: int, id: string)
    ensures r.ResolveToken(token, t) == Ok(id) <==>
              exists claims :: && r.secret != "" && r.jwt.parse(r.secret, token) == Some(claims)
                               && Acceptable(claims, r.expiration, t)
                               && id == claims.appID + ":" + claims.userID
    ensures r.ResolveToken(token, t).Err? ==> r.ResolveToken(token, t) == Err(Unauthenticated)
  {
  }

  /** The claims a minted token carries, and the expiry that is returned with it. */
  lemma MintedClaims(r: JWTResolver, appID: string, userID: string, platform: string, br: string, n: int)
    requires Faithful(r.jwt) && r.GenerateToken(appID, userID, platform, br, n).Ok?
    ensures var minted := r.GenerateToken(appID, userID, platform, br, n).value;
            var claims := r.jwt.parse(r.secret, minted.token);
            && claims.Some?
            && claims.value.appID == appID && claims.value.userID == userID
            && claims.value.platform == platform && claims.value.br == br
            && claims.value.notBefore == None
            && claims.value.issuedAt == Some(n / SECOND) && claims.value.expiresAt == Some((n + r.expiration) / SECOND)
            && minted.expiresAt == (n + r.expiration) / SECOND
  {
    assert r.jwt.sign(r.secret, r.ClaimsAt(appID, userID, platform, br, n)).Some?;
  }

  /** Why minting is refused: no secret, an empty id, or a failing signature. */
  lemma GenerateTokenRefusals(r: JWTResolver, appID: string, userID: string, platform: string, br: string, n: int)
    ensures var answer := r.GenerateToken(appID, userID, platform, br, n);
            && (answer == Err(Unauthenticated) <==> r.secret == "")
            && (answer == Err(IdsRequired) <==> r.secret != "" && "" in {appID, userID})
            && (answer.Ok? ==> r.secret != "" && appID != "" && userID != "")
  {
  }

  // ----- Lifetime arithmetic -----

  lemma CarryDecides(n: int, e: int)
    ensures (NumericDate(n + e) - NumericDate(n)) * SECOND <= e <==> n % SECOND + e % SECOND < SECOND
  {
    var a, b, x, y := n / SECOND, e / SECOND, n % SECOND, e % SECOND;
    assert n == a * SECOND + x && e == b * SECOND + y;
    assert (n + e) / SECOND == a + b + (if x + y < SECOND then 0 else 1);
  }

  /** A token minted at `n` passes the lifetime check exactly when the fractions of the clock
      reading and of the lifetime add up to less than a second, as they always do for a lifetime
      of whole seconds. */
  lemma MintedLifetime(r: JWTResolver, appID: string, userID: string, platform: string, br: string, n: int)
    requires r.expiration > 0
    ensures r.LifetimeOK(r.ClaimsAt(appID, userID, platform, br, n))
            <==> n % SECOND + r.expiration % SECOND < SECOND
    ensures r.expiration % SECOND == 0 ==> r.LifetimeOK(r.ClaimsAt(appID, userID, platform, br, n))
  {
    CarryDecides(n, r.expiration);
  }

  /** Exactly when a minted token resolves. One expects it to from `n` until `expiresAt`; that
      fails when the second fractions carry, and a configured lifetime of zero, which lifts the
      limit for foreign tokens, mints tokens that are expired from the start. */
  lemma MintedResolvesIff(r: JWTResolver, appID: string, userID: string, platform: string, br: string, n: int, t: int)
    requires Faithful(r.jwt) && r.GenerateToken(appID, userID, platform, br, n).Ok?
    requires n <= t
    ensures var minted := r.GenerateToken(appID, userID, platform, br, n).value;
            && (r.ResolveToken(minted.token, t) == Ok(appID + ":" + userID) <==>
                && r.expiration > 0
                && n % SECOND + r.expiration % SECOND < SECOND
                && t < minted.expiresAt * SECOND)
            && (r.ResolveToken(minted.token, t).Ok? ==> r.ResolveToken(minted.token, t) == Ok(appID + ":" + userID))
            && Some(minted.expiresAt) == r.ClaimsAt(appID, userID, platform, br, n).expiresAt
  {
    var claims := r.ClaimsAt(appID, userID, platform, br, n);
    assert r.jwt.sign(r.secret, claims).Some?;
    var minted := r.GenerateToken(appID, userID, platform, br, n).value;
    assert r.jwt.parse(r.secret, minted.token) == Some(claims);
    if r.expiration > 0 {
      MintedLifetime(r, appID, userID, platform, br, n);
    } else {
      NotFromThePast(n, r.expiration);
    }
    hide *;
  }

  /** Half a second into a second, a lifetime of 1.5 s mints a token that is refused at once and
      forever: its claims are two seconds apart. */
  lemma CarryingLifetimeExample(r: JWTResolver, appID: string, userID: string, platform: string, br: string, t: int)
    requires Faithful(r.jwt) && r.expiration == SECOND + SECOND / 2
    requires r.GenerateToken(appID, userID, platform, br, SECOND / 2).Ok? && SECOND / 2 <= t
    ensures r.GenerateToken(appID, userID, platform, br, SECOND / 2).value.expiresAt == 2
    ensures r.ResolveToken(r.GenerateToken(appID, userID, platform, br, SECOND / 2).value.token, t)
            == Err(Unauthenticated)
  {
    MintedResolvesIff(r, appID, userID, platform, br, SECOND / 2, t);
    OnlyUnauthenticated(r, r.GenerateToken(appID, userID, platform, br, SECOND / 2).value.token, t);
    hide JWTResolver.ResolveToken, Faithful;
  }

  /** A lifetime of zero mints tokens that never resolve. */
  lemma ZeroLifetimeExample(r: JWTResolver, appID: string, userID: string, platform: string, br: string, n: int, t: int)
    requires Faithful(r.jwt) && r.expiration == 0
    requires r.GenerateToken(appID, userID, platform, br, n).Ok? && n <= t
    ensures r.ResolveToken(r.GenerateToken(appID, userID, platform, br, n).value.token, t) == Err(Unauthenticated)
  {
    MintedResolvesIff(r, appID, userID, platform, br, n, t);
    OnlyUnauthenticated(r, r.GenerateToken(appID, userID, platform, br, n).value.token, t);
    hide JWTResolver.ResolveToken, Faithful;
  }

  lemma NotFromThePast(n: int, e: int)
    requires e <= 0
    ensures NumericDate(n + e) * SECOND <= n
  {
  }

  /** With a lifetime of whole seconds a minted token resolves at every instant from its minting
      up to the returned expiry, and at none after that. */
  lemma WholeSecondsResolve(r: JWTResolver, appID: string, userID: string, platform: string, br: string, n: int, t: int)
    requires Faithful(r.jwt) && r.GenerateToken(appID, userID, platform, br, n).Ok?
    requires r.expiration > 0 && r.expiration % SECOND == 0 && n <= t
    ensures var minted := r.GenerateToken(appID, userID, platform, br, n).value;
            && n < minted.expiresAt * SECOND
            && r.ResolveToken(minted.token, t)
               == if t < minted.expiresAt * SECOND then Ok(appID + ":" + userID) else Err(Unauthenticated)
  {
    MintedResolvesIff(r, appID, userID, platform, br, n, t);
    OnlyUnauthenticated(r, r.GenerateToken(appID, userID, platform, br, n).value.token, t);
    WholeSecondsAhead(n, r.expiration);
    hide JWTResolver.ResolveToken, Faithful;
  }

  lemma OnlyUnauthenticated(r: JWTResolver, token: string, t: int)
    ensures r.ResolveToken(token, t).Err? ==> r.ResolveToken(token, t).error == Unauthenticated
  {
  }

  lemma WholeSecondsAhead(n: int, e: int)
    requires e > 0 && e % SECOND == 0
    ensures n < (n + e) / SECOND * SECOND
  {
    assert e >= SECOND;
  }

  /** Every token minted for the ids resolves at the instant of its minting. */
  ghost predicate MintsGoodTokens(r: JWTResolver, appID: string, userID: string, platform: string, br: string) {
    forall n :: r.GenerateToken(appID, userID, platform, br, n).Ok? ==>
      r.ResolveToken(r.GenerateToken(appID, userID, platform, br, n).value.token, n) == Ok(appID + ":" + userID)
  }

  /** Which lifetimes are safe to configure: exactly the positive numbers of whole seconds. Any
      other one mints, at some clock reading, a token that is refused at once. */
  lemma MintsGoodTokensIff(r: JWTResolver, appID: string, userID: string, platform: string, br: string)
    requires Faithful(r.jwt) && r.secret != "" && appID != "" && userID != ""
    requires forall claims :: r.jwt.sign(r.secret, claims).Some?
    ensures MintsGoodTokens(r, appID, userID, platform, br) <==> r.expiration > 0 && r.expiration % SECOND == 0
  {
    assert forall n :: r.GenerateToken(appID, userID, platform, br, n).Ok?;
    hide JWTResolver.ResolveToken, JWTResolver.GenerateToken, Faithful, NumericDate;
    if r.expiration > 0 && r.expiration % SECOND == 0 {
      forall n | r.GenerateToken(appID, userID, platform, br, n).Ok?
        ensures r.ResolveToken(r.GenerateToken(appID, userID, platform, br, n).value.token, n)
                == Ok(appID + ":" + userID)
      {
        WholeSecondsResolve(r, appID, userID, platform, br, n, n);
      }
    } else {
      var n := SECOND - 1;
      assert r.GenerateToken(appID, userID, platform, br, n).Ok?;
      MintedResolvesIff(r, appID, userID, platform, br, n, n);
    }
  }

  // ----- From the request to the user id -----

  /** The three places a token can come in. */
  datatype Request = Request(authorization: string, xToken: string, accessToken: string)

  function ExtractToken(r: Option<Request>): string {
    if r == None then ""
    else
      var auth, x := TrimSpace(r.value.authorization), TrimSpace(r.value.xToken);
      if auth != "" then (if "Bearer " <= auth then auth[7..] else auth)
      else if x != "" then x
      else TrimSpace(r.value.accessToken)
  }

  /** Where a token is found, in order of precedence: what follows `Bearer ` in the trimmed header,
      or the trimmed header if it does not start that way, or the trimmed `X-Token`, or the trimmed
      query parameter. Without a request there is none. */
  lemma ExtractTokenFinds(r: Request)
    ensures ExtractToken(None) == ""
    ensures forall token :: TrimSpace(r.authorization) == "Bearer " + token ==> ExtractToken(Some(r)) == token
    ensures !AllSpace(r.authorization) && (forall rest :: TrimSpace(r.authorization) != "Bearer " + rest) ==>
              ExtractToken(Some(r)) == TrimSpace(r.authorization)
    ensures AllSpace(r.authorization) && !AllSpace(r.xToken) ==> ExtractToken(Some(r)) == TrimSpace(r.xToken)
    ensures AllSpace(r.authorization) && AllSpace(r.xToken) ==> ExtractToken(Some(r)) == TrimSpace(r.accessToken)
  {
    BlankIffAllSpace(r.authorization);
    BlankIffAllSpace(r.xToken);
    hide TrimSpace, AllSpace;
    var auth := TrimSpace(r.authorization);
    forall token | auth == "Bearer " + token ensures auth[7..] == token {
    }
    if "Bearer " <= auth { assert auth == "Bearer " + auth[7..]; }
  }

  /** `UserProvider.GetUserID`, with the resolver it was given, if any. */
  function GetUserID(resolver: Option<JWTResolver>, r: Option<Request>, now: int): Result<string, Error> {
    var token := ExtractToken(r);
    if token == "" || resolver == None then Err(Unauthenticated)
    else
      match resolver.value.ResolveToken(token, now)
      case Err(e) => Err(e)
      case Ok(userID) =>
        if TrimSpace(userID) == "" then Err(Unauthenticated) else Ok(TrimSpace(userID))
  }

  lemma ColonStays(a: string, b: string)
    ensures TrimSpace(a + ":" + b) != ""
  {
    BlankIffAllSpace(a + ":" + b);
    assert (a + ":" + b)[|a|] == ':';
    hide TrimSpace;
  }

  /** Exactly which requests get an identity, for every resolver, request and instant: those that
      carry a token, with a resolver that accepts it; the identity is app, colon, user, trimmed.
      Everything else is refused as unauthenticated. */
  lemma GetUserIDIff(resolver: Option<JWTResolver>, r: Option<Request>, t: int, id: string)
    ensures GetUserID(resolver, r, t) == Ok(id) <==>
              exists claims :: && ExtractToken(r) != "" && resolver.Some? && resolver.value.secret != ""
                               && resolver.value.jwt.parse(resolver.value.secret, ExtractToken(r)) == Some(claims)
                               && Acceptable(claims, resolver.value.expiration, t)
                               && id == TrimSpace(claims.appID + ":" + claims.userID)
    ensures GetUserID(resolver, r, t).Err? ==> GetUserID(resolver, r, t) == Err(Unauthenticated)
  {
    hide ExtractToken, TrimSpace, Acceptable;
    if resolver.Some? && resolver.value.ResolveToken(ExtractToken(r), t).Ok? {
      var resolved := resolver.value.ResolveToken(ExtractToken(r), t).value;
      ResolveTokenIff(resolver.value, ExtractToken(r), t, resolved);
      var claims :| && resolver.value.jwt.parse(resolver.value.secret, ExtractToken(r)) == Some(claims)
                    && Acceptable(claims, resolver.value.expiration, t)
                    && resolved == claims.appID + ":" + claims.userID;
      ColonStays(claims.appID, claims.userID);
    } else if resolver.Some? {
      ResolveRefuses(resolver.value, ExtractToken(r), t);
    }
  }

  lemma ResolveRefuses(r: JWTResolver, token: string, t: int)
    requires r.ResolveToken(token, t).Err?
    ensures r.ResolveToken(token, t) == Err(Unauthenticated)
    ensures r.secret != "" && r.jwt.parse(r.secret, token).Some? ==>
              !Acceptable(r.jwt.parse(r.secret, token).value, r.expiration, t)
  {
  }
}
