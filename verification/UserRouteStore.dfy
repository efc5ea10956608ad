/** The route store of one gateway server, driving the Redis state all servers share. */
module UserRouteStore {
  import opened Network
  import opened Units
  import opened Wrappers
  import opened Text
  import opened Sorting
  import opened SortedSet
  import opened RouteKeys
  import opened RouteDb
  import opened RouteHistory
  import RouteConservation

  /** The keys and arguments of the register script. */
  datatype ScriptArgs = ScriptArgs(routeKey: string, expireKey: string, connectionID: string, serverID: string,
                                   ttlSeconds: int, expireScore: int, userID: string)

  /** The step a call becomes in the history of the shared state. */
  function Sent(fault: Fault, step: Step): Step {
    if fault.RequestLost? then Lost else step
  }

  function PollStep(fault: Fault, bucket: int, limit: int, cutoff: int): Step {
    Sent(fault, Poll(bucket, limit, cutoff, fault.Delivered?))
  }

  datatype Error =
    | ClientRequired
    | TtlNotPositive
    | ServerRequired
    | UserRequired
    | ConnectionRequired
    | CallbackRequired
    | BucketOutOfRange
    | RedisFailed
    | CallbackFailed(reason: string)

  datatype UserConnectionRoute = UserConnectionRoute(connectionID: string, serverID: string)

  /** The Redis server. Its state is always the outcome of the steps taken so far, by whichever
      gateway server took them. */
  class Redis {
    const dep: Deployment
    var db: Db
    ghost var history: seq<Step>

    ghost predicate Valid()
      reads this
    {
      LegalRun(history) && db == Run(dep, history)
    }

    constructor (dep: Deployment)
      ensures Valid() && this.dep == dep && history == []
    {
      this.dep := dep;
      db := Db(map[], map[], dep.epoch);
      history := [];
    }

    /** Time passes, and other servers do what they do. */
    method Elapse(steps: seq<Step>)
      requires Valid() && LegalRun(steps)
      modifies this
      ensures Valid() && history == old(history) + steps
    {
      hide Apply, LegalRun, Run;
      for i := 0 to |steps|
        invariant Valid()
        invariant history == old(history) + steps[..i]
      {
        OneLegal(steps, i);
        LegalSnoc(history, steps[i]);
        RunSnoc(dep, history, steps[i]);
        db := Apply(dep, db, steps[i]);
        history := history + [steps[i]];
      }
    }

    function Script(args: ScriptArgs): Option<Db>
      reads this`db
    {
      RegisterScript(db, args.routeKey, args.expireKey, args.connectionID, args.serverID,
                     args.ttlSeconds, args.expireScore, args.userID)
    }

    method RunScript(args: ScriptArgs, fault: Fault) returns (ok: bool)
      modifies this`db
      ensures db == if fault.RequestLost? || old(Script(args)).None? then old(db) else old(Script(args)).value
      ensures ok == (fault.Delivered? && old(Script(args)).Some?)
    {
      if fault.RequestLost? {
        return false;
      }
      var result := Script(args);
      if result.None? {
        return false;
      }
      db := result.value;
      ok := fault.Delivered?;
    }

    method Delete(key: string, field: string, fault: Fault) returns (ok: bool)
      modifies this`db
      ensures db == if fault.RequestLost? then old(db) else HDel(old(db), key, field)
      ensures ok == fault.Delivered?
    {
      if !fault.RequestLost? {
        db := HDel(db, key, field);
      }
      ok := fault.Delivered?;
    }

    method GetAll(key: string, fault: Fault) returns (values: map<string, string>, ok: bool)
      ensures ok == fault.Delivered?
      ensures values == if ok then HGetAll(db, key) else map[]
    {
      ok := fault.Delivered?;
      values := if ok then HGetAll(db, key) else map[];
    }

    method PollExpiredUsers(key: string, max: int, limit: int, fault: Fault) returns (userIDs: seq<string>, ok: bool)
      modifies this`db
      ensures db == if fault.RequestLost? then old(db) else PollScript(old(db), key, limit, max).0
      ensures ok == fault.Delivered?
      ensures userIDs == if ok then PollScript(old(db), key, limit, max).1 else []
    {
      userIDs, ok := [], fault.Delivered?;
      if !fault.RequestLost? {
        var (after, returned) := PollScript(db, key, limit, max);
        db := after;
        if ok { userIDs := returned; }
      }
    }
  }

  lemma OneLegal(steps: seq<Step>, i: nat)
    requires LegalRun(steps) && i < |steps|
    ensures Legal(steps[i])
  {
  }

  /** The function a poller passes to `PollExpiredUsers`: it keeps what it is given. */
  class Callback {
    var batches: seq<seq<string>>
    var reply: Option<Error>

    constructor (reply: Option<Error>)
      ensures batches == [] && this.reply == reply
    {
      batches := [];
      this.reply := reply;
    }

    method Call(userIDs: seq<string>) returns (err: Option<Error>)
      modifies this`batches
      ensures batches == old(batches) + [userIDs] && err == reply
    {
      batches := batches + [userIDs];
      err := reply;
    }
  }

  /** The stored connections that trim to this route. */
  ghost function Sources(values: map<string, string>, done: set<string>, r: UserConnectionRoute): set<string> {
    set c | c in done && c in values && r.connectionID != "" && r.serverID != ""
            && TrimSpace(c) == r.connectionID && TrimSpace(values[c]) == r.serverID
  }

  lemma SourcesGrow(values: map<string, string>, done: set<string>, c: string, r: UserConnectionRoute)
    requires c in values && c !in done
    ensures |Sources(values, done + {c}, r)| ==
            |Sources(values, done, r)| + |Sources(values, {c}, r)|
    ensures Sources(values, {c}, r) ==
            if r.connectionID != "" && r.serverID != "" && r == UserConnectionRoute(TrimSpace(c), TrimSpace(values[c]))
            then {c} else {}
  {
    assert Sources(values, done + {c}, r) == Sources(values, done, r) + Sources(values, {c}, r);
  }

  class UserRouteStore {
    const redis: Redis
    const hash: string -> nat
    const routeTTL: int
    const serverID: string

    /** All servers share the hash and the TTL. */
    ghost predicate Valid()
      reads this, redis
    {
      && redis.Valid()
      && redis.dep == Deployment(hash, routeTTL, redis.dep.epoch)
      && Clean(serverID)
    }

    constructor (redis: Redis, serverID: string)
      requires redis.Valid() && Clean(serverID)
      ensures Valid() && this.redis == redis && this.serverID == serverID
    {
      this.redis := redis;
      this.hash := redis.dep.hash;
      this.routeTTL := redis.dep.routeTTL;
      this.serverID := serverID;
    }

    /** The checks of the source's constructor: a client, a positive TTL, a server id. */
    static method New(client: Redis?, serverID: string) returns (r: Result<UserRouteStore, Error>)
      requires client != null ==> client.Valid()
      ensures r.Ok? <==> client != null && client.dep.routeTTL > 0 && TrimSpace(serverID) != ""
      ensures r == Err(ClientRequired) <==> client == null
      ensures r == Err(TtlNotPositive) <==> client != null && client.dep.routeTTL <= 0
      ensures r == Err(ServerRequired) <==> client != null && client.dep.routeTTL > 0 && TrimSpace(serverID) == ""
      ensures r.Ok? ==>
                && fresh(r.value) && r.value.Valid() && r.value.redis == client
                && r.value.serverID == TrimSpace(serverID)
    {
      if client == null {
        return Err(ClientRequired);
      }
      if client.dep.routeTTL <= 0 {
        return Err(TtlNotPositive);
      }
      TrimmedClean(serverID);
      if TrimSpace(serverID) == "" {
        return Err(ServerRequired);
      }
      var store := new UserRouteStore(client, TrimSpace(serverID));
      return Ok(store);
    }

    function BucketOf(userID: string): nat {
      hash(TrimSpace(userID)) % USER_ROUTE_BUCKET_COUNT
    }

    function RegisterScriptArgs(userID: string, connectionID: string, now: int): ScriptArgs {
      var bucket := BucketOf(userID);
      ScriptArgs(UserRouteKey(bucket, userID), UserExpireKey(bucket), connectionID, serverID,
                 WholeSeconds(routeTTL), ExpiresAt(now, routeTTL), userID)
    }

    /** `RegisterConnection` and `RefreshConnection` are this. The call succeeds exactly when the
        ids are not blank, the TTL holds a whole second and the network delivers the reply; what
        it does to the shared state is one `Register` step, or nothing. */
    method RefreshConnection(userID: string, connectionID: string, now: int, fault: Fault) returns (err: Option<Error>)
      requires Valid()
      modifies redis
      ensures Valid()
      ensures redis.history == old(redis.history)
                + [Sent(fault, Register(serverID, userID, connectionID, now))]
      ensures err == if TrimSpace(userID) == "" then Some(UserRequired)
                     else if TrimSpace(connectionID) == "" then Some(ConnectionRequired)
                     else if fault.Delivered? && redis.dep.TtlSeconds() > 0 then None
                     else Some(RedisFailed)
      ensures err == None ==>
                && TrimSpace(connectionID) in Routes(redis.dep, redis.db, TrimSpace(userID))
                && Routes(redis.dep, redis.db, TrimSpace(userID))[TrimSpace(connectionID)] == serverID
    {
      hide LegalRun, RegisterScript, UserRouteKey, UserExpireKey, HGetAll;
      ghost var step, steps := Sent(fault, Register(serverID, userID, connectionID, now)), redis.history;
      LegalSnoc(redis.history, step);
      RunSnoc(redis.dep, redis.history, step);
      redis.history := redis.history + [step];
      var u, c := TrimSpace(userID), TrimSpace(connectionID);
      if u == "" {
        return Some(UserRequired);
      }
      if c == "" {
        return Some(ConnectionRequired);
      }
      TrimSpaceTrims(userID);
      var ok := redis.RunScript(RegisterScriptArgs(u, c, now), fault);
      err := if ok then None else Some(RedisFailed);
      if ok {
        RegisterNeedsTtl(redis.dep, old(redis.db), RegisterScriptArgs(u, c, now));
        RegisteredRouteShows(redis.dep, steps, serverID, userID, connectionID, now);
      } else if fault.Delivered? {
        RegisterNeedsTtl(redis.dep, old(redis.db), RegisterScriptArgs(u, c, now));
      }
    }

    method RemoveConnection(userID: string, connectionID: string, fault: Fault) returns (err: Option<Error>)
      requires Valid()
      modifies redis
      ensures Valid()
      ensures redis.history == old(redis.history) + [Sent(fault, Remove(userID, connectionID))]
      ensures err == if TrimSpace(userID) == "" then Some(UserRequired)
                     else if TrimSpace(connectionID) == "" then Some(ConnectionRequired)
                     else if fault.Delivered? then None else Some(RedisFailed)
      ensures err == None ==> TrimSpace(connectionID) !in Routes(redis.dep, redis.db, TrimSpace(userID))
    {
      hide LegalRun, HDel, UserRouteKey, HGetAll;
      ghost var step, steps := Sent(fault, Remove(userID, connectionID)), redis.history;
      LegalSnoc(redis.history, step);
      RunSnoc(redis.dep, redis.history, step);
      redis.history := redis.history + [step];
      var u, c := TrimSpace(userID), TrimSpace(connectionID);
      if u == "" {
        return Some(UserRequired);
      }
      if c == "" {
        return Some(ConnectionRequired);
      }
      TrimSpaceTrims(userID);
      var ok := redis.Delete(UserRouteKey(BucketOf(u), u), c, fault);
      err := if ok then None else Some(RedisFailed);
      if ok {
        RemovedRouteGone(redis.dep, steps, userID, connectionID);
      }
    }

    /** The servers that hold a connection of the user, sorted, each once: exactly the servers
        the history says the user is connected to, in whatever order the map is walked. */
    method ListUserServerIDs(userID: string, fault: Fault) returns (serverIDs: seq<string>, err: Option<Error>)
      requires Valid()
      ensures err == if TrimSpace(userID) == "" || fault.Delivered? then None else Some(RedisFailed)
      ensures TrimSpace(userID) == "" || err.Some? ==> serverIDs == []
      ensures TrimSpace(userID) != "" && err == None ==>
                && StrictlySorted(serverIDs)
                && forall s :: s in serverIDs <==>
                               exists c :: Clean(c) && Connected(redis.dep, redis.history, TrimSpace(userID), c, s)
    {
      var u := TrimSpace(userID);
      if u == "" {
        return [], None;
      }
      TrimSpaceTrims(userID);
      var values, ok := redis.GetAll(UserRouteKey(BucketOf(u), u), fault);
      if !ok {
        return [], Some(RedisFailed);
      }
      assert values == Routes(redis.dep, redis.db, u);
      serverIDs := UniqueServers(values);
      ServersAreConnected(redis.dep, redis.history, u, values, serverIDs);
      err := None;
    }

    /** The user's connections sorted by connection id, each once: exactly the connections the
        history says are still leased, each with the server that last registered it. */
    method ListUserConnections(userID: string, fault: Fault)
      returns (connections: seq<UserConnectionRoute>, err: Option<Error>)
      requires Valid()
      ensures err == if TrimSpace(userID) == "" || fault.Delivered? then None else Some(RedisFailed)
      ensures TrimSpace(userID) == "" || err.Some? ==> connections == []
      ensures TrimSpace(userID) != "" && err == None ==>
                && SortedByConnection(connections)
                && forall c, s :: UserConnectionRoute(c, s) in connections <==>
                                  Clean(c) && Connected(redis.dep, redis.history, TrimSpace(userID), c, s)
    {
      var u := TrimSpace(userID);
      if u == "" {
        return [], None;
      }
      TrimSpaceTrims(userID);
      var values, ok := redis.GetAll(UserRouteKey(BucketOf(u), u), fault);
      if !ok {
        return [], Some(RedisFailed);
      }
      assert values == Routes(redis.dep, redis.db, u);
      connections := TrimmedConnections(values);
      connections := SortSlice(connections, (r: UserConnectionRoute) => r.connectionID);
      ConnectionsAreConnected(redis.dep, redis.history, u, values, connections);
      err := None;
    }

    /** The script call of a poll. What it returns holds nothing the blank filter could drop. */
    method PollBucket(bucket: nat, limit: int, cutoff: int, fault: Fault) returns (userIDs: seq<string>, ok: bool)
      requires Valid() && bucket < USER_ROUTE_BUCKET_COUNT
      modifies redis
      ensures Valid()
      ensures redis.history == old(redis.history) + [PollStep(fault, bucket, limit, cutoff)]
      ensures ok == fault.Delivered?
      ensures userIDs == if ok then PollScript(old(redis.db), UserExpireKey(bucket), limit, cutoff).1 else []
      ensures Compact(userIDs) == userIDs
    {
      ghost var step := PollStep(fault, bucket, limit, cutoff);
      PollApplies(redis.dep, redis.db, fault, bucket, limit, cutoff);
      hide LegalRun, PollScript, UserExpireKey, Run, Apply, Returned, Compact, PollStep;
      LegalSnoc(redis.history, step);
      RunSnoc(redis.dep, redis.history, step);
      RouteConservation.FilterDropsNothing(redis.dep, redis.history, Poll(bucket, limit, cutoff, fault.Delivered?));
      redis.history := redis.history + [step];
      userIDs, ok := redis.PollExpiredUsers(UserExpireKey(bucket), cutoff, limit, fault);
    }

    /** One poll of one bucket. The callback gets every user the script removed, and is not
        called when there are none. A lost reply loses the users it carried. */
    method PollExpiredUsers(bucket: int, limit: int, now: Option<int>, clock: int, fn: Callback?, fault: Fault)
      returns (err: Option<Error>)
      requires Valid()
      modifies redis, if fn == null then {} else {fn}
      ensures Valid()
      ensures fn == null || !(0 <= bucket < USER_ROUTE_BUCKET_COUNT) ==>
                && err == Some(if fn == null then CallbackRequired else BucketOutOfRange)
                && redis.db == old(redis.db) && redis.history == old(redis.history)
                && (fn != null ==> fn.batches == old(fn.batches))
      ensures fn != null && 0 <= bucket < USER_ROUTE_BUCKET_COUNT ==>
                var cutoff := (if now == None then clock else now.value) / MILLISECOND;
                var returned := old(PollScript(redis.db, UserExpireKey(bucket), limit, cutoff).1);
                && redis.history == old(redis.history) + [PollStep(fault, bucket, limit, cutoff)]
                && (fault.Delivered? && returned != [] ==>
                    fn.batches == old(fn.batches) + [returned] && err == old(fn.reply))
                && (fault.Delivered? && returned == [] ==> fn.batches == old(fn.batches) && err == None)
                && (!fault.Delivered? ==> fn.batches == old(fn.batches) && err == Some(RedisFailed))
                && fn.batches == old(fn.batches)
                     + old(var got := Received(redis.dep, redis.db, PollStep(fault, bucket, limit, cutoff));
                           if got == [] then [] else [got])
      ensures fn != null ==> fn.reply == old(fn.reply)
    {
      hide Received, PollScript, Run, LegalRun, UserExpireKey;
      if fn == null {
        return Some(CallbackRequired);
      }
      if !(0 <= bucket < USER_ROUTE_BUCKET_COUNT) {
        return Some(BucketOutOfRange);
      }
      var cutoff := (if now == None then clock else now.value) / MILLISECOND;
      ReceivedIs(redis.dep, redis.db, fault, bucket, limit, cutoff);
      var userIDs, ok := PollBucket(bucket, limit, cutoff, fault);
      if !ok {
        return Some(RedisFailed);
      }
      var filtered := CompactStrings(userIDs);
      if |filtered| == 0 {
        return None;
      }
      err := fn.Call(filtered);
    }
  }

  /** A poller receives what its call's step says: everything the script returned, or nothing. */
  lemma ReceivedIs(dep: Deployment, db: Db, fault: Fault, bucket: nat, limit: int, cutoff: int)
    requires bucket < USER_ROUTE_BUCKET_COUNT
    ensures Received(dep, db, PollStep(fault, bucket, limit, cutoff)) ==
            if fault.Delivered? then PollScript(db, UserExpireKey(bucket), limit, cutoff).1 else []
  {
    hide PollScript, UserExpireKey;
  }

  lemma PollApplies(dep: Deployment, db: Db, fault: Fault, bucket: nat, limit: int, cutoff: int)
    requires bucket < USER_ROUTE_BUCKET_COUNT
    ensures Legal(PollStep(fault, bucket, limit, cutoff))
    ensures Apply(dep, db, PollStep(fault, bucket, limit, cutoff)) ==
            if fault.RequestLost? then db else PollScript(db, UserExpireKey(bucket), limit, cutoff).0
    ensures Returned(dep, db, Poll(bucket, limit, cutoff, fault.Delivered?))
            == PollScript(db, UserExpireKey(bucket), limit, cutoff).1
  {
    hide PollScript, UserExpireKey;
  }

  lemma RegisterNeedsTtl(dep: Deployment, db: Db, args: ScriptArgs)
    requires args.ttlSeconds == dep.TtlSeconds()
    ensures dep.TtlSeconds() > 0 <==>
            RegisterScript(db, args.routeKey, args.expireKey, args.connectionID, args.serverID,
                           args.ttlSeconds, args.expireScore, args.userID).Some?
  {
  }

  predicate SortedByConnection(s: seq<UserConnectionRoute>) {
    forall i, j :: 0 <= i < j < |s| ==> Less(s[i].connectionID, s[j].connectionID)
  }

  /** Sorted by connection is ascending in the connection ids, without repetitions. */
  lemma SortedByConnectionIff(s: seq<UserConnectionRoute>)
    ensures SortedByConnection(s)
            <==> forall i, j :: 0 <= i < j < |s| ==> Precedes(s[i].connectionID, s[j].connectionID)
  {
    forall i, j | 0 <= i < j < |s|
      ensures Less(s[i].connectionID, s[j].connectionID) <==> Precedes(s[i].connectionID, s[j].connectionID)
    {
      LessIff(s[i].connectionID, s[j].connectionID);
    }
  }

  /** The deduplicating loop of `ListUserServerIDs`, over the map in any order, then the sort. */
  method UniqueServers(values: map<string, string>) returns (serverIDs: seq<string>)
    ensures StrictlySorted(serverIDs)
    ensures forall s :: s in serverIDs <==> s != "" && exists c :: c in values && TrimSpace(values[c]) == s
  {
    serverIDs := [];
    var unique: set<string> := {};
    var rest := values.Keys;
    while rest != {}
      invariant rest <= values.Keys
      invariant forall s :: s in unique <==> s in serverIDs
      invariant forall i, j :: 0 <= i < j < |serverIDs| ==> serverIDs[i] != serverIDs[j]
      invariant forall s :: s in serverIDs <==>
                              s != "" && exists c :: c in values.Keys - rest && TrimSpace(values[c]) == s
    {
      var c :| c in rest;
      var serverID := TrimSpace(values[c]);
      ghost var before := serverIDs;
      if serverID != "" && serverID !in unique {
        unique := unique + {serverID};
        serverIDs := serverIDs + [serverID];
      }
      assert values.Keys - (rest - {c}) == (values.Keys - rest) + {c};
      rest := rest - {c};
    }
    assert values.Keys - rest == values.Keys;
    var sorted := SortSlice(serverIDs, (x: string) => x);
    DistinctSortsStrictly(serverIDs, sorted);
    serverIDs := sorted;
  }

  /** The trimming loop of `ListUserConnections`, over the map in any order: each stored
      connection gives one route, unless it or its server is blank. */
  method TrimmedConnections(values: map<string, string>) returns (connections: seq<UserConnectionRoute>)
    ensures forall r :: multiset(connections)[r] == |Sources(values, values.Keys, r)|
  {
    connections := [];
    var rest := values.Keys;
    while rest != {}
      invariant rest <= values.Keys
      invariant forall r :: multiset(connections)[r] == |Sources(values, values.Keys - rest, r)|
    {
      var c :| c in rest;
      var connectionID, serverID := TrimSpace(c), TrimSpace(values[c]);
      ghost var done := values.Keys - rest;
      forall r ensures |Sources(values, done + {c}, r)| == |Sources(values, done, r)| +
                       if r.connectionID != "" && r.serverID != "" && r == UserConnectionRoute(connectionID, serverID)
                       then 1 else 0
      {
        SourcesGrow(values, done, c, r);
      }
      hide Sources, TrimSpace;
      if connectionID != "" && serverID != "" {
        connections := connections + [UserConnectionRoute(connectionID, serverID)];
      }
      assert values.Keys - (rest - {c}) == done + {c};
      rest := rest - {c};
    }
    assert values.Keys - rest == values.Keys;
  }

  lemma {:induction false} ServersAreConnected(dep: Deployment, steps: seq<Step>, u: string,
                                               values: map<string, string>, serverIDs: seq<string>)
    requires LegalRun(steps) && Clean(u) && values == Routes(dep, Run(dep, steps), u)
    requires forall s :: s in serverIDs <==> s != "" && exists c :: c in values && TrimSpace(values[c]) == s
    ensures forall s :: s in serverIDs <==> exists c :: Clean(c) && Connected(dep, steps, u, c, s)
  {
    StoredConnectionsClean(dep, steps, u);
    forall c | c in values ensures TrimSpace(values[c]) == values[c] != "" {
      TrimSpaceTrims(values[c]);
    }
    hide TrimSpace, Connected, Routes, Run;
    forall c, s ensures c in values && values[c] == s <==> Clean(c) && Connected(dep, steps, u, c, s) {
      ListingIsHistory(dep, steps, u, c, s);
    }
  }

  lemma {:induction false} ConnectionsAreConnected(dep: Deployment, steps: seq<Step>, u: string,
                                                   values: map<string, string>, connections: seq<UserConnectionRoute>)
    requires LegalRun(steps) && Clean(u) && values == Routes(dep, Run(dep, steps), u)
    requires SortedBy(connections, (r: UserConnectionRoute) => r.connectionID)
    requires forall r :: multiset(connections)[r] == |Sources(values, values.Keys, r)|
    ensures SortedByConnection(connections)
    ensures forall c, s :: UserConnectionRoute(c, s) in connections <==> Clean(c) && Connected(dep, steps, u, c, s)
  {
    StoredConnectionsClean(dep, steps, u);
    forall r ensures Sources(values, values.Keys, r) ==
                     if r.connectionID in values && values[r.connectionID] == r.serverID then {r.connectionID} else {}
    {
      CleanSources(values, r);
    }
    forall r ensures r in connections <==> r.connectionID in values && values[r.connectionID] == r.serverID {
      assert r in connections <==> multiset(connections)[r] > 0;
    }
    forall i, j | 0 <= i < j < |connections| ensures Less(connections[i].connectionID, connections[j].connectionID) {
      var a, b := connections[i], connections[j];
      LessTotal(a.connectionID, b.connectionID);
      if a.connectionID == b.connectionID {
        assert a in connections && b in connections;
        TwiceInMultiset(connections, i, j);
      }
      assert !Less(((r: UserConnectionRoute) => r.connectionID)(b), ((r: UserConnectionRoute) => r.connectionID)(a));
    }
    hide Sources, Connected, Routes, Run;
    forall c, s ensures UserConnectionRoute(c, s) in connections <==> Clean(c) && Connected(dep, steps, u, c, s) {
      ListingIsHistory(dep, steps, u, c, s);
    }
  }

  lemma CleanSources(values: map<string, string>, r: UserConnectionRoute)
    requires forall c :: c in values ==> Clean(c) && Clean(values[c])
    ensures Sources(values, values.Keys, r) ==
            if r.connectionID in values && values[r.connectionID] == r.serverID then {r.connectionID} else {}
  {
    forall c | c in values ensures TrimSpace(c) == c && TrimSpace(values[c]) == values[c] {
      TrimSpaceTrims(c);
      TrimSpaceTrims(values[c]);
    }
  }

  /** The two listings of one moment agree: the servers listed are those of the connections
      listed, each once, in order. */
  method ListingsAgree(store: UserRouteStore, userID: string, fault1: Fault, fault2: Fault)
    returns (serverIDs: seq<string>, connections: seq<UserConnectionRoute>, err: Option<Error>)
    requires store.Valid()
    ensures err == if TrimSpace(userID) == "" || (fault1.Delivered? && fault2.Delivered?) then None
                   else Some(RedisFailed)
    ensures err == None ==>
              && StrictlySorted(serverIDs) && SortedByConnection(connections)
              && forall s :: s in serverIDs <==> exists i :: 0 <= i < |connections| && connections[i].serverID == s
  {
    hide Connected, Clean, UserRouteStore.Valid, TrimSpace;
    var err1, err2;
    serverIDs, err1 := store.ListUserServerIDs(userID, fault1);
    connections, err2 := store.ListUserConnections(userID, fault2);
    err := if err1 == None then err2 else err1;
    if err == None && TrimSpace(userID) != "" {
      forall s ensures s in serverIDs <==> exists i :: 0 <= i < |connections| && connections[i].serverID == s {
        if s in serverIDs {
          var c :| Clean(c) && Connected(store.redis.dep, store.redis.history, TrimSpace(userID), c, s);
          assert UserConnectionRoute(c, s) in connections;
        }
        if i :| 0 <= i < |connections| && connections[i].serverID == s {
          assert UserConnectionRoute(connections[i].connectionID, s) in connections;
        }
      }
    }
  }
}
