/** Configuration: normalising it in place, and what that guarantees the push channels. */
module Config {
  import opened Wrappers
  import opened Text
  import Push

  const DEFAULT_WEBSOCKET_PATH := "/hub"
  const DEFAULT_REDIS_PUSH_CHANNEL := "kim:gateway:push"
  const PUSH_USERS_SUFFIX := ":users"
  const PUSH_GROUP_SUFFIX := ":group"
  const PUSH_BROADCAST_SUFFIX := ":broadcast"

  datatype Error =
    | HTTPAddrRequired
    | WebSocketPathRequired
    | GRPCAddrRequired
    | ShutdownTimeoutNotPositive
    | PingIntervalNegative
    | PingTimeoutNegative
    | RedisDSNRequired
    | RedisRouteTTLNotPositive
    | RedisPushChannelRequired
    | RedisPushUsersChannelRequired
    | RedisPushGroupChannelRequired
    | RedisPushBroadcastChannelRequired

  /** The fields of a configuration at one moment. */
  datatype Settings = Settings(
    httpAddr: string, webSocketPath: string, grpcAddr: string,
    etcdEndpointsStr: string, etcdEndpoints: seq<string>,
    etcdUsername: string, etcdPassword: string, env: string,
    shutdownTimeout: int, pingInterval: int, pingTimeout: int,
    redisDSN: string, redisRouteTTL: int,
    pushChannel: string, usersChannel: string, groupChannel: string, broadcastChannel: string,
    jwtSecret: string)

  /** `strings.Split(s, ",")` for a non-empty separator. */
  function Split(s: string, sep: char): seq<string>
    decreases |s|
  {
    var n := Find(s, sep);
    if n == |s| then [s] else [s[..n]] + Split(s[n + 1..], sep)
  }

  function Join(parts: seq<string>, sep: char): string {
    if parts == [] then ""
    else if |parts| == 1 then parts[0]
    else parts[0] + [sep] + Join(parts[1..], sep)
  }

  /** Splitting loses nothing and leaves no separator in a part. */
  lemma {:induction false} SplitJoins(s: string, sep: char)
    ensures Split(s, sep) != [] && Join(Split(s, sep), sep) == s
    ensures forall i :: 0 <= i < |Split(s, sep)| ==> sep !in Split(s, sep)[i]
    decreases |s|
  {
    var n := Find(s, sep);
    hide Find;
    if n < |s| {
      var rest := Split(s[n + 1..], sep);
      SplitJoins(s[n + 1..], sep);
      assert Split(s, sep) == [s[..n]] + rest;
      assert s == s[..n] + [sep] + s[n + 1..];
    }
  }

  function NormalizePath(path: string): string {
    var p := TrimSpace(path);
    if p == "" then DEFAULT_WEBSOCKET_PATH
    else if p[0] != '/' then "/" + p
    else p
  }

  /** The path from the raw text: the default for white space alone; otherwise the text between the
      white space, with a slash in front unless it has one. */
  lemma NormalizePathSpec(path: string)
    ensures AllSpace(path) ==> NormalizePath(path) == "/hub"
    ensures forall left, core, right ::
              path == left + core + right && AllSpace(left) && AllSpace(right) && Clean(core) ==>
                NormalizePath(path) == if core[0] == '/' then core else "/" + core
  {
    BlankIffAllSpace(path);
    forall left, core, right | path == left + core + right && AllSpace(left) && AllSpace(right) && Clean(core)
      ensures TrimSpace(path) == core
    {
      TrimSpaceUnique(left, core, right);
    }
    hide TrimSpace, AllSpace;
  }

  function OrElse(s: string, otherwise: string): string {
    if s == "" then otherwise else s
  }

  /** The prefix that missing channels are derived from. */
  function Base(pushChannel: string): string {
    OrElse(TrimSpace(pushChannel), DEFAULT_REDIS_PUSH_CHANNEL)
  }

  /** What `normalize` leaves behind: every text trimmed, the path completed, the endpoints read
      from their text unless that is blank, and missing channels derived from the base. */
  function Normalized(s: Settings): Settings {
    var base := Base(s.pushChannel);
    Settings(TrimSpace(s.httpAddr), NormalizePath(s.webSocketPath), TrimSpace(s.grpcAddr),
             TrimSpace(s.etcdEndpointsStr),
             if TrimSpace(s.etcdEndpointsStr) == "" then s.etcdEndpoints
             else Compact(Split(TrimSpace(s.etcdEndpointsStr), ',')),
             TrimSpace(s.etcdUsername), TrimSpace(s.etcdPassword), TrimSpace(s.env),
             s.shutdownTimeout, s.pingInterval, s.pingTimeout, TrimSpace(s.redisDSN), s.redisRouteTTL,
             base,
             OrElse(TrimSpace(s.usersChannel), base + PUSH_USERS_SUFFIX),
             OrElse(TrimSpace(s.groupChannel), base + PUSH_GROUP_SUFFIX),
             OrElse(TrimSpace(s.broadcastChannel), base + PUSH_BROADCAST_SUFFIX),
             TrimSpace(s.jwtSecret))
  }

  function Validate(s: Settings): Option<Error> {
    if s.httpAddr == "" then Some(HTTPAddrRequired)
    else if s.webSocketPath == "" then Some(WebSocketPathRequired)
    else if s.grpcAddr == "" then Some(GRPCAddrRequired)
    else if s.shutdownTimeout <= 0 then Some(ShutdownTimeoutNotPositive)
    else if s.pingInterval < 0 then Some(PingIntervalNegative)
    else if s.pingTimeout < 0 then Some(PingTimeoutNegative)
    else if s.redisDSN == "" then Some(RedisDSNRequired)
    else if s.redisRouteTTL <= 0 then Some(RedisRouteTTLNotPositive)
    else if s.pushChannel == "" then Some(RedisPushChannelRequired)
    else if s.usersChannel == "" then Some(RedisPushUsersChannelRequired)
    else if s.groupChannel == "" then Some(RedisPushGroupChannelRequired)
    else if s.broadcastChannel == "" then Some(RedisPushBroadcastChannelRequired)
    else None
  }

  class Config {
    var httpAddr: string
    var webSocketPath: string
    var grpcAddr: string
    var etcdEndpointsStr: string
    var etcdEndpoints: seq<string>
    var etcdUsername: string
    var etcdPassword: string
    var env: string
    var shutdownTimeout: int
    var pingInterval: int
    var pingTimeout: int
    var redisDSN: string
    var redisRouteTTL: int
    var pushChannel: string
    var usersChannel: string
    var groupChannel: string
    var broadcastChannel: string
    var jwtSecret: string

    function View(): Settings
      reads this
    {
      Settings(httpAddr, webSocketPath, grpcAddr, etcdEndpointsStr, etcdEndpoints, etcdUsername, etcdPassword, env,
               shutdownTimeout, pingInterval, pingTimeout, redisDSN, redisRouteTTL,
               pushChannel, usersChannel, groupChannel, broadcastChannel, jwtSecret)
    }

    /** The fields are those of `s`. */
    predicate Holds(s: Settings)
      reads this
    {
      && httpAddr == s.httpAddr && webSocketPath == s.webSocketPath && grpcAddr == s.grpcAddr
      && etcdEndpointsStr == s.etcdEndpointsStr && etcdEndpoints == s.etcdEndpoints
      && etcdUsername == s.etcdUsername && etcdPassword == s.etcdPassword && env == s.env
      && shutdownTimeout == s.shutdownTimeout && pingInterval == s.pingInterval && pingTimeout == s.pingTimeout
      && redisDSN == s.redisDSN && redisRouteTTL == s.redisRouteTTL
      && pushChannel == s.pushChannel && usersChannel == s.usersChannel
      && groupChannel == s.groupChannel && broadcastChannel == s.broadcastChannel
      && jwtSecret == s.jwtSecret
    }

    constructor (s: Settings)
      ensures Holds(s)
    {
      httpAddr, webSocketPath, grpcAddr := s.httpAddr, s.webSocketPath, s.grpcAddr;
      etcdEndpointsStr, etcdEndpoints := s.etcdEndpointsStr, s.etcdEndpoints;
      etcdUsername, etcdPassword, env := s.etcdUsername, s.etcdPassword, s.env;
      shutdownTimeout, pingInterval, pingTimeout := s.shutdownTimeout, s.pingInterval, s.pingTimeout;
      redisDSN, redisRouteTTL := s.redisDSN, s.redisRouteTTL;
      pushChannel, usersChannel := s.pushChannel, s.usersChannel;
      groupChannel, broadcastChannel, jwtSecret := s.groupChannel, s.broadcastChannel, s.jwtSecret;
    }

    method Normalize()
      modifies this`jwtSecret, this`httpAddr, this`webSocketPath, this`grpcAddr
      modifies this`etcdEndpointsStr, this`etcdEndpoints
      modifies this`etcdUsername, this`etcdPassword, this`env, this`redisDSN
      modifies this`pushChannel, this`usersChannel, this`groupChannel, this`broadcastChannel
      ensures jwtSecret == TrimSpace(old(jwtSecret)) && httpAddr == TrimSpace(old(httpAddr))
      ensures webSocketPath == NormalizePath(old(webSocketPath)) && grpcAddr == TrimSpace(old(grpcAddr))
      ensures etcdEndpointsStr == TrimSpace(old(etcdEndpointsStr))
      ensures etcdEndpoints == if TrimSpace(old(etcdEndpointsStr)) == "" then old(etcdEndpoints)
                               else Compact(Split(TrimSpace(old(etcdEndpointsStr)), ','))
      ensures etcdUsername == TrimSpace(old(etcdUsername)) && etcdPassword == TrimSpace(old(etcdPassword))
      ensures env == TrimSpace(old(env)) && redisDSN == TrimSpace(old(redisDSN))
      ensures pushChannel == Base(old(pushChannel))
      ensures usersChannel == OrElse(TrimSpace(old(usersChannel)), Base(old(pushChannel)) + PUSH_USERS_SUFFIX)
      ensures groupChannel == OrElse(TrimSpace(old(groupChannel)), Base(old(pushChannel)) + PUSH_GROUP_SUFFIX)
      ensures broadcastChannel
              == OrElse(TrimSpace(old(broadcastChannel)), Base(old(pushChannel)) + PUSH_BROADCAST_SUFFIX)
    {
      hide *;
      NormalizeAddresses();
      NormalizeStores();
    }

    /** The first half of `normalize`, through the etcd endpoints. */
    method NormalizeAddresses()
      modifies this`jwtSecret, this`httpAddr, this`webSocketPath, this`grpcAddr
      modifies this`etcdEndpointsStr, this`etcdEndpoints
      ensures jwtSecret == TrimSpace(old(jwtSecret)) && httpAddr == TrimSpace(old(httpAddr))
      ensures webSocketPath == NormalizePath(old(webSocketPath)) && grpcAddr == TrimSpace(old(grpcAddr))
      ensures etcdEndpointsStr == TrimSpace(old(etcdEndpointsStr))
      ensures etcdEndpoints == if TrimSpace(old(etcdEndpointsStr)) == "" then old(etcdEndpoints)
                               else Compact(Split(TrimSpace(old(etcdEndpointsStr)), ','))
    {
      hide *;
      jwtSecret := TrimSpace(jwtSecret);
      httpAddr := TrimSpace(httpAddr);
      webSocketPath := NormalizePath(webSocketPath);
      grpcAddr := TrimSpace(grpcAddr);
      etcdEndpointsStr := TrimSpace(etcdEndpointsStr);
      if etcdEndpointsStr != "" {
        etcdEndpoints := CompactStrings(Split(etcdEndpointsStr, ','));
      }
    }

    /** The second half: credentials, environment, Redis and the push channels. */
    method NormalizeStores()
      modifies this`etcdUsername, this`etcdPassword, this`env, this`redisDSN
      modifies this`pushChannel, this`usersChannel, this`groupChannel, this`broadcastChannel
      ensures etcdUsername == TrimSpace(old(etcdUsername)) && etcdPassword == TrimSpace(old(etcdPassword))
      ensures env == TrimSpace(old(env)) && redisDSN == TrimSpace(old(redisDSN))
      ensures pushChannel == Base(old(pushChannel))
      ensures usersChannel == OrElse(TrimSpace(old(usersChannel)), Base(old(pushChannel)) + PUSH_USERS_SUFFIX)
      ensures groupChannel == OrElse(TrimSpace(old(groupChannel)), Base(old(pushChannel)) + PUSH_GROUP_SUFFIX)
      ensures broadcastChannel
              == OrElse(TrimSpace(old(broadcastChannel)), Base(old(pushChannel)) + PUSH_BROADCAST_SUFFIX)
    {
      hide *;
      BaseTrims(pushChannel);
      etcdUsername := TrimSpace(etcdUsername);
      etcdPassword := TrimSpace(etcdPassword);
      env := TrimSpace(env);
      redisDSN := TrimSpace(redisDSN);
      pushChannel := TrimSpace(pushChannel);
      usersChannel := TrimSpace(usersChannel);
      groupChannel := TrimSpace(groupChannel);
      broadcastChannel := TrimSpace(broadcastChannel);
      NormalizePushChannels();
    }

    /** The end of `Load`: the settings read are normalised in place, then validated. */
    method FinishLoad() returns (err: Option<Error>)
      modifies this
      ensures Holds(Normalized(old(View())))
      ensures err == Validate(Normalized(old(View())))
    {
      hide TrimSpace, NormalizePath, Compact, Split, OrElse, Base, Validate;
      ghost var n := Normalized(View());
      Normalize();
      assert Holds(n);
      hide Normalized, Holds;
      err := Validate(View());
    }

    method NormalizePushChannels()
      modifies this`pushChannel, this`usersChannel, this`groupChannel, this`broadcastChannel
      ensures pushChannel == if TrimSpace(old(pushChannel)) == "" then Base(old(pushChannel)) else old(pushChannel)
      ensures usersChannel == OrElse(old(usersChannel), Base(old(pushChannel)) + PUSH_USERS_SUFFIX)
      ensures groupChannel == OrElse(old(groupChannel), Base(old(pushChannel)) + PUSH_GROUP_SUFFIX)
      ensures broadcastChannel == OrElse(old(broadcastChannel), Base(old(pushChannel)) + PUSH_BROADCAST_SUFFIX)
    {
      hide TrimSpace;
      var base := TrimSpace(pushChannel);
      if base == "" {
        base := DEFAULT_REDIS_PUSH_CHANNEL;
        pushChannel := base;
      }
      if usersChannel == "" {
        usersChannel := base + PUSH_USERS_SUFFIX;
      }
      if groupChannel == "" {
        groupChannel := base + PUSH_GROUP_SUFFIX;
      }
      if broadcastChannel == "" {
        broadcastChannel := base + PUSH_BROADCAST_SUFFIX;
      }
    }
  }

  lemma BaseTrims(pushChannel: string)
    ensures Base(TrimSpace(pushChannel)) == Base(pushChannel)
    ensures TrimSpace(TrimSpace(pushChannel)) == TrimSpace(pushChannel)
    ensures TrimSpace(pushChannel) != "" ==> Base(pushChannel) == TrimSpace(pushChannel)
  {
    TrimTwice(pushChannel);
  }

  lemma TrimTwice(s: string)
    ensures TrimSpace(TrimSpace(s)) == TrimSpace(s)
  {
    TrimSpaceTrims(s);
    TrimSpaceTrims(TrimSpace(s));
  }

  lemma SuffixedClean(base: string, suffix: string)
    requires Clean(base) && Clean(suffix)
    ensures Clean(base + suffix)
  {
  }

  lemma SuffixesClean()
    ensures Clean(DEFAULT_REDIS_PUSH_CHANNEL)
    ensures Clean(PUSH_USERS_SUFFIX) && Clean(PUSH_GROUP_SUFFIX) && Clean(PUSH_BROADCAST_SUFFIX)
  {
  }

  lemma OrElseClean(s: string, otherwise: string)
    requires Clean(otherwise)
    ensures Clean(OrElse(TrimSpace(s), otherwise))
  {
    TrimSpaceTrims(s);
  }

  /** After normalising, whatever was configured, all four channel settings are trimmed and
      not blank. */
  lemma ChannelsNormalized(s: Settings)
    ensures var n := Normalized(s);
            Clean(n.pushChannel) && Clean(n.usersChannel) && Clean(n.groupChannel) && Clean(n.broadcastChannel)
  {
    SuffixesClean();
    TrimTwice(s.pushChannel);
    hide TrimSpace, Clean, NormalizePath, Split, Compact;
    OrElseClean(s.pushChannel, DEFAULT_REDIS_PUSH_CHANNEL);
    var base := OrElse(TrimSpace(s.pushChannel), DEFAULT_REDIS_PUSH_CHANNEL);
    SuffixedClean(base, PUSH_USERS_SUFFIX);
    SuffixedClean(base, PUSH_GROUP_SUFFIX);
    SuffixedClean(base, PUSH_BROADCAST_SUFFIX);
    OrElseClean(s.usersChannel, base + PUSH_USERS_SUFFIX);
    OrElseClean(s.groupChannel, base + PUSH_GROUP_SUFFIX);
    OrElseClean(s.broadcastChannel, base + PUSH_BROADCAST_SUFFIX);
  }

  function PushChannelsOf(s: Settings): Push.PushChannels {
    Push.PushChannels(TrimSpace(s.usersChannel), TrimSpace(s.groupChannel), TrimSpace(s.broadcastChannel))
  }

  /** The publisher and the subscriber can always be built from a normalised configuration, with
      its three channels as they stand, and the subscriber hears every known target. */
  lemma ChannelCoverage(s: Settings)
    ensures var n := Normalized(s);
            var channels := Push.PushChannels(n.usersChannel, n.groupChannel, n.broadcastChannel);
            && Push.NormalizePushChannels(PushChannelsOf(n)) == Ok(channels)
            && forall t :: channels.ChannelForTarget(t).Ok? ==>
                 channels.ChannelForTarget(t).value in Push.Unique(channels.List())
  {
    var n := Normalized(s);
    ChannelsNormalized(s);
    TrimSpaceTrims(n.usersChannel);
    TrimSpaceTrims(n.groupChannel);
    TrimSpaceTrims(n.broadcastChannel);
    hide Normalized, TrimSpace;
    var channels := Push.PushChannels(n.usersChannel, n.groupChannel, n.broadcastChannel);
    Push.SubscribedToEveryTarget(channels);
    hide Push.Unique;
  }

  lemma SuffixesApart(base: string)
    ensures base + PUSH_USERS_SUFFIX != base + PUSH_GROUP_SUFFIX
    ensures base + PUSH_USERS_SUFFIX != base + PUSH_BROADCAST_SUFFIX
    ensures base + PUSH_GROUP_SUFFIX != base + PUSH_BROADCAST_SUFFIX
  {
    var n := |base|;
    assert (base + PUSH_USERS_SUFFIX)[n + 1] == 'u';
    assert (base + PUSH_GROUP_SUFFIX)[n + 1] == 'g';
    assert (base + PUSH_BROADCAST_SUFFIX)[n + 1] == 'b';
  }

  /** With only a base channel configured, or not even that, the derived channels split the
      traffic in three: all start with the base and no two are the same. */
  lemma DerivedChannelsSplit(s: Settings)
    requires AllSpace(s.usersChannel) && AllSpace(s.groupChannel) && AllSpace(s.broadcastChannel)
    ensures var n := Normalized(s);
            && n.pushChannel == (if AllSpace(s.pushChannel) then "kim:gateway:push" else TrimSpace(s.pushChannel))
            && n.usersChannel == n.pushChannel + ":users"
            && n.groupChannel == n.pushChannel + ":group"
            && n.broadcastChannel == n.pushChannel + ":broadcast"
            && n.usersChannel != n.groupChannel && n.usersChannel != n.broadcastChannel
            && n.groupChannel != n.broadcastChannel
  {
    BlankIffAllSpace(s.pushChannel);
    BlankIffAllSpace(s.usersChannel);
    BlankIffAllSpace(s.groupChannel);
    BlankIffAllSpace(s.broadcastChannel);
    SuffixesApart(Base(s.pushChannel));
    hide TrimSpace, NormalizePath, Split, Compact, AllSpace;
  }

  /** A channel that is configured is kept, trimmed, whatever the base. */
  lemma ConfiguredChannelsKept(s: Settings)
    ensures var n := Normalized(s);
            && (!AllSpace(s.pushChannel) ==> n.pushChannel == TrimSpace(s.pushChannel))
            && (!AllSpace(s.usersChannel) ==> n.usersChannel == TrimSpace(s.usersChannel))
            && (!AllSpace(s.groupChannel) ==> n.groupChannel == TrimSpace(s.groupChannel))
            && (!AllSpace(s.broadcastChannel) ==> n.broadcastChannel == TrimSpace(s.broadcastChannel))
  {
    BlankIffAllSpace(s.pushChannel);
    BlankIffAllSpace(s.usersChannel);
    BlankIffAllSpace(s.groupChannel);
    BlankIffAllSpace(s.broadcastChannel);
    hide TrimSpace, AllSpace, NormalizePath, Split, Compact;
  }

  lemma PathNormalized(path: string)
    ensures Clean(NormalizePath(path)) && NormalizePath(path)[0] == '/'
    ensures NormalizePath(NormalizePath(path)) == NormalizePath(path)
  {
    TrimSpaceTrims(path);
    TrimSpaceTrims(NormalizePath(path));
  }

  /** Normalising twice is normalising once. */
  lemma NormalizeIdempotent(s: Settings)
    ensures Normalized(Normalized(s)) == Normalized(s)
  {
    var n := Normalized(s);
    ChannelsNormalized(s);
    PathNormalized(s.webSocketPath);
    TrimTwice(s.jwtSecret);
    TrimTwice(s.httpAddr);
    TrimTwice(s.grpcAddr);
    TrimTwice(s.etcdEndpointsStr);
    TrimTwice(s.etcdUsername);
    TrimTwice(s.etcdPassword);
    TrimTwice(s.env);
    TrimTwice(s.redisDSN);
    TrimSpaceTrims(n.pushChannel);
    TrimSpaceTrims(n.usersChannel);
    TrimSpaceTrims(n.groupChannel);
    TrimSpaceTrims(n.broadcastChannel);
    hide TrimSpace, NormalizePath, Split, Compact, Trimmed;
  }

  /** Which error the raw settings lead to: the first of these that is wrong, in this order. */
  lemma ValidateErrors(s: Settings)
    ensures var err := Validate(Normalized(s));
            && (err == Some(HTTPAddrRequired) <==> AllSpace(s.httpAddr))
            && (err == Some(GRPCAddrRequired) <==> !AllSpace(s.httpAddr) && AllSpace(s.grpcAddr))
            && (!AllSpace(s.httpAddr) && !AllSpace(s.grpcAddr) ==>
                  && (err == Some(ShutdownTimeoutNotPositive) <==> s.shutdownTimeout <= 0)
                  && (s.shutdownTimeout > 0 ==>
                        && (err == Some(PingIntervalNegative) <==> s.pingInterval < 0)
                        && (err == Some(PingTimeoutNegative) <==> s.pingInterval >= 0 && s.pingTimeout < 0)
                        && (s.pingInterval >= 0 && s.pingTimeout >= 0 ==>
                              && (err == Some(RedisDSNRequired) <==> AllSpace(s.redisDSN))
                              && (err == Some(RedisRouteTTLNotPositive) <==>
                                  !AllSpace(s.redisDSN) && s.redisRouteTTL <= 0))))
            && (err.Some? ==>
                  err.value in {HTTPAddrRequired, GRPCAddrRequired, ShutdownTimeoutNotPositive, PingIntervalNegative,
                                PingTimeoutNegative, RedisDSNRequired, RedisRouteTTLNotPositive})
  {
    ChannelsNormalized(s);
    PathNormalized(s.webSocketPath);
    BlankIffAllSpace(s.httpAddr);
    BlankIffAllSpace(s.grpcAddr);
    BlankIffAllSpace(s.redisDSN);
    hide TrimSpace, NormalizePath, Split, Compact, AllSpace;
  }

  /** Validation of any settings, normalised or not: accepted exactly if nothing required is empty
      and no duration is out of range. */
  lemma ValidateAccepts(s: Settings)
    ensures Validate(s) == None <==>
              && "" !in {s.httpAddr, s.webSocketPath, s.grpcAddr, s.redisDSN}
              && "" !in {s.pushChannel, s.usersChannel, s.groupChannel, s.broadcastChannel}
              && 0 < s.shutdownTimeout && 0 <= s.pingInterval && 0 <= s.pingTimeout && 0 < s.redisRouteTTL
    ensures Validate(s) == Some(WebSocketPathRequired) <==> s.httpAddr != "" && s.webSocketPath == ""
  {
  }

  /** Which channel is missing decides the error, once everything else is in order. */
  lemma ValidateNamesChannel(s: Settings)
    requires "" !in {s.httpAddr, s.webSocketPath, s.grpcAddr, s.redisDSN}
    requires 0 < s.shutdownTimeout && 0 <= s.pingInterval && 0 <= s.pingTimeout && 0 < s.redisRouteTTL
    ensures Validate(s) == Some(RedisPushChannelRequired) <==> s.pushChannel == ""
    ensures s.pushChannel != "" ==> (Validate(s) == Some(RedisPushUsersChannelRequired) <==> s.usersChannel == "")
    ensures "" !in {s.pushChannel, s.usersChannel} ==>
              && (Validate(s) == Some(RedisPushGroupChannelRequired) <==> s.groupChannel == "")
              && (Validate(s) == Some(RedisPushBroadcastChannelRequired)
                  <==> s.groupChannel != "" && s.broadcastChannel == "")
  {
  }

  /** A normalised configuration is valid exactly when addresses and DSN are not blank, the TTL
      and the shutdown timeout are positive and the ping settings are not negative: its path and
      its channels never fail validation. */
  lemma ValidIff(s: Settings)
    ensures Validate(Normalized(s)) == None <==>
            && !AllSpace(s.httpAddr) && !AllSpace(s.grpcAddr) && !AllSpace(s.redisDSN)
            && s.shutdownTimeout > 0 && s.pingInterval >= 0 && s.pingTimeout >= 0 && s.redisRouteTTL > 0
  {
    ChannelsNormalized(s);
    PathNormalized(s.webSocketPath);
    BlankIffAllSpace(s.httpAddr);
    BlankIffAllSpace(s.grpcAddr);
    BlankIffAllSpace(s.redisDSN);
    hide TrimSpace, NormalizePath, Split, Compact, AllSpace;
  }
}
