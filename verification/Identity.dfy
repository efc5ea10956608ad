/** From the GetToken RPC to the group a connection joins. */
module Identity {
  import opened Units
  import opened Wrappers
  import opened Text
  import opened Auth
  import AppGroup

  datatype Status = InvalidArgument(what: string) | NotAuthenticated | Internal

  datatype TokenRequest = TokenRequest(appID: string, userID: string, platform: string, br: string)

  /** The GetToken RPC. */
  function GetToken(r: JWTResolver, req: Option<TokenRequest>, now: int): Result<Minted, Status> {
    if req == None then Err(InvalidArgument("request is required"))
    else
      var app, user := TrimSpace(req.value.appID), TrimSpace(req.value.userID);
      if app == "" then Err(InvalidArgument("app_id is required"))
      else if user == "" then Err(InvalidArgument("user_id is required"))
      else
        match r.GenerateToken(app, user, req.value.platform, req.value.br, now)
        case Ok(minted) => Ok(minted)
        case Err(Unauthenticated) => Err(NotAuthenticated)
        case Err(_) => Err(Internal)
  }

  /** The signature of the request's claims succeeds. */
  predicate Signs(r: JWTResolver, req: TokenRequest, now: int) {
    r.jwt.sign(r.secret, r.ClaimsAt(TrimSpace(req.appID), TrimSpace(req.userID), req.platform, req.br, now)).Some?
  }

  /** Exactly when GetToken refuses, and how: no request, a blank id, a resolver without a secret,
      or a failing signature. */
  lemma GetTokenRefusals(r: JWTResolver, req: TokenRequest, now: int)
    ensures GetToken(r, None, now) == Err(InvalidArgument("request is required"))
    ensures var answer, named := GetToken(r, Some(req), now), !AllSpace(req.appID) && !AllSpace(req.userID);
            && (answer == Err(InvalidArgument("app_id is required")) <==> AllSpace(req.appID))
            && (answer == Err(InvalidArgument("user_id is required")) <==>
                !AllSpace(req.appID) && AllSpace(req.userID))
            && (answer == Err(NotAuthenticated) <==> named && r.secret == "")
            && (answer == Err(Internal) <==> named && r.secret != "" && !Signs(r, req, now))
            && (answer.Ok? <==> named && r.secret != "" && Signs(r, req, now))
  {
    BlankIffAllSpace(req.appID);
    BlankIffAllSpace(req.userID);
    assert "app_id is required" != "user_id is required" by {
      assert "app_id is required"[0] == 'a' && "user_id is required"[0] == 'u';
    }
    hide TrimSpace, AllSpace;
  }

  /** What a granted request gets: a token under the resolver's secret that claims the trimmed ids,
      the platform and the branch as given, and the time it is good for. */
  lemma GetTokenGrants(r: JWTResolver, req: TokenRequest, n: int)
    requires Faithful(r.jwt) && GetToken(r, Some(req), n).Ok?
    ensures var minted := GetToken(r, Some(req), n).value;
            var claims := r.jwt.parse(r.secret, minted.token);
            && claims.Some?
            && claims.value.appID == TrimSpace(req.appID) && claims.value.userID == TrimSpace(req.userID)
            && claims.value.platform == req.platform && claims.value.br == req.br
            && claims.value.notBefore == None && claims.value.issuedAt == Some(n / SECOND)
            && claims.value.expiresAt == Some((n + r.expiration) / SECOND)
            && minted.expiresAt == (n + r.expiration) / SECOND
  {
    MintedClaims(r, TrimSpace(req.appID), TrimSpace(req.userID), req.platform, req.br, n);
    hide TrimSpace, JWTResolver.GenerateToken, Faithful;
  }

  /** The identity of two clean ids has no white space to trim, and parses exactly when neither
      id holds a separator; then it names the group of the app. */
  lemma IdentityParses(app: string, user: string)
    requires Clean(app) && Clean(user)
    ensures TrimSpace(app + ":" + user) == app + ":" + user
    ensures AppGroup.ParseAppGroup(app + ":" + user).Ok? <==> ':' !in app && ':' !in user
    ensures ':' !in app && ':' !in user ==>
              AppGroup.ParseAppGroup(app + ":" + user) == Ok(AppGroup.Parsed("app:" + app, app))
  {
    var id := app + ":" + user;
    TrimSpaceTrims(id);
    TrimSpaceTrims(app);
    TrimSpaceTrims(user);
    AppGroup.ParseAppGroupSpec(id);
    if ':' !in app && ':' !in user {
      assert AppGroup.WellFormed(id, app, user);
    }
    forall a, u | AppGroup.WellFormed(id, a, u)
      ensures ':' !in app && ':' !in user
    {
      SplitIsUnique(app, user, a, u);
    }
  }

  /** If one split of the text has no further separator, it is the only split. */
  lemma SplitIsUnique(app: string, user: string, a: string, u: string)
    requires app + ":" + user == a + ":" + u
    requires ':' !in a && ':' !in u
    ensures app == a && user == u
  {
    var s := app + ":" + user;
    assert s[|app|] == ':';
    assert forall i :: 0 <= i < |a| ==> s[i] == a[i];
    assert forall i :: |a| < i < |s| ==> s[i] == u[i - |a| - 1];
    assert |app| == |a|;
    assert app == s[..|a|] && user == s[|a| + 1..];
  }

  /** The round trip, exactly. Take any app and user id that GetToken accepts, in whatever white
      space, a lifetime of whole seconds, and the token presented before it expires: the hub sees
      `app:user`, and lets the connection into the group of its app if and only if neither id
      holds a separator. */
  lemma IdentityRoundTrip(r: JWTResolver, req: TokenRequest, n: int, t: int, request: Request)
    requires Faithful(r.jwt) && r.expiration > 0 && r.expiration % SECOND == 0
    requires GetToken(r, Some(req), n).Ok?
    requires n <= t < GetToken(r, Some(req), n).value.expiresAt * SECOND
    requires ExtractToken(Some(request)) == GetToken(r, Some(req), n).value.token
    ensures var app, user := TrimSpace(req.appID), TrimSpace(req.userID);
            var parsed := AppGroup.ParseAppGroup(app + ":" + user);
            && GetUserID(Some(r), Some(request), t) == Ok(app + ":" + user)
            && (parsed.Ok? <==> ':' !in app && ':' !in user)
            && (parsed.Ok? ==> parsed.value == AppGroup.Parsed("app:" + app, app))
  {
    var app, user := TrimSpace(req.appID), TrimSpace(req.userID);
    TrimSpaceTrims(req.appID);
    TrimSpaceTrims(req.userID);
    IdentityParses(app, user);
    WholeSecondsResolve(r, app, user, req.platform, req.br, n, t);
    TokenClean(r, app, user, req.platform, req.br, n);
    hide TrimSpace, AppGroup.ParseAppGroup, ExtractToken, Faithful, JWTResolver.ResolveToken, JWTResolver.GenerateToken;
  }

  /** An app id with a colon gets its token, and an identity that the hub cannot parse. */
  lemma ColonExample(r: JWTResolver, platform: string, br: string, n: int)
    requires r.secret != "" && Signs(r, TokenRequest("a:b", "u", platform, br), n)
    ensures GetToken(r, Some(TokenRequest("a:b", "u", platform, br)), n).Ok?
    ensures AppGroup.ParseAppGroup("a:b:u").Err?
  {
    var app: string, user: string := "a:b", "u";
    assert Clean(app) && Clean(user) && app[1] == ':';
    GetTokenRefusals(r, TokenRequest(app, user, platform, br), n);
    IdentityParses(app, user);
    BlankIffAllSpace(app);
    BlankIffAllSpace(user);
    TrimSpaceTrims(app);
    TrimSpaceTrims(user);
    hide TrimSpace, AllSpace, AppGroup.ParseAppGroup, GetToken, Signs;
    assert app + ":" + user == "a:b:u";
  }

  lemma TokenClean(r: JWTResolver, app: string, user: string, platform: string, br: string, n: int)
    requires Faithful(r.jwt) && r.GenerateToken(app, user, platform, br, n).Ok?
    ensures Clean(r.GenerateToken(app, user, platform, br, n).value.token)
  {
    assert r.jwt.sign(r.secret, r.ClaimsAt(app, user, platform, br, n)).Some?;
  }

  /** Different apps never share a group: minted identities that the hub accepts land in one
      group only if their app ids are equal. */
  lemma AppsAreSeparate(app1: string, user1: string, app2: string, user2: string)
    requires Clean(app1) && Clean(user1) && Clean(app2) && Clean(user2)
    requires AppGroup.ParseAppGroup(app1 + ":" + user1).Ok? && AppGroup.ParseAppGroup(app2 + ":" + user2).Ok?
    ensures AppGroup.ParseAppGroup(app1 + ":" + user1).value.group
            == AppGroup.ParseAppGroup(app2 + ":" + user2).value.group
            <==> app1 == app2
  {
    IdentityParses(app1, user1);
    IdentityParses(app2, user2);
    AppGroup.GroupNamesApp(app1 + ":" + user1, app2 + ":" + user2);
  }
}
