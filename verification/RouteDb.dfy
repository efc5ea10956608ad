/** The route registry in Redis: the commands the gateway uses, its two scripts, and the
    steps by which any number of gateway servers change the shared state. */
module RouteDb {
  import opened Units
  import opened Wrappers
  import opened Text
  import opened SortedSet
  import opened RouteKeys

  const USER_ROUTE_BUCKET_COUNT: nat := 16

  /** One hash field: the server that holds the connection and when the field expires. */
  datatype Lease = Lease(serverID: string, deadline: int)

  datatype Db = Db(hashes: map<string, map<string, Lease>>, zsets: map<string, seq<Entry>>, clock: int)

  // ----- Redis commands -----

  function HashAt(db: Db, key: string): map<string, Lease> {
    if key in db.hashes then db.hashes[key] else map[]
  }

  function ZSetAt(db: Db, key: string): seq<Entry> {
    if key in db.zsets then db.zsets[key] else []
  }

  /** Redis drops a key together with its last element. */
  function PutHash(db: Db, key: string, fields: map<string, Lease>): Db {
    db.(hashes := if fields == map[] then db.hashes - {key} else db.hashes[key := fields])
  }

  function PutZSet(db: Db, key: string, z: seq<Entry>): Db {
    db.(zsets := if z == [] then db.zsets - {key} else db.zsets[key := z])
  }

  /** HSETEX key EX seconds FIELDS 1 field value; a lifetime below one second is an error. */
  function HSetEx(db: Db, key: string, seconds: int, field: string, value: string): Option<Db> {
    if seconds <= 0 then None
    else Some(PutHash(db, key, HashAt(db, key)[field := Lease(value, db.clock + seconds * 1000)]))
  }

  function HDel(db: Db, key: string, field: string): Db {
    PutHash(db, key, HashAt(db, key) - {field})
  }

  /** HGETALL: the fields whose deadline the clock has not passed. */
  function HGetAll(db: Db, key: string): map<string, string> {
    map field | field in HashAt(db, key) && db.clock <= HashAt(db, key)[field].deadline
      :: HashAt(db, key)[field].serverID
  }

  // ----- The two scripts -----

  /** A command that fails raises, so the sorted set is only reached after HSETEX succeeded. */
  function RegisterScript(db: Db, routeKey: string, expireKey: string, connectionID: string, serverID: string,
                          ttlSeconds: int, expireScore: int, userID: string): Option<Db>
  {
    match HSetEx(db, routeKey, ttlSeconds, connectionID, serverID)
    case None => None
    case Some(db') => Some(PutZSet(db', expireKey, ZAdd(ZSetAt(db', expireKey), expireScore, userID)))
  }

  function Members(z: seq<Entry>): seq<string> {
    seq(|z|, i requires 0 <= i < |z| => z[i].member)
  }

  function PollScript(db: Db, key: string, limit: int, maxScore: int): (Db, seq<string>) {
    var z := ZSetAt(db, key);
    (PutZSet(db, key, AfterPoll(z, maxScore, limit)), Members(Polled(z, maxScore, limit)))
  }

  // ----- A deployment and its steps -----

  /** `int64(ttl / time.Second)`: whole seconds, the rest cut off. */
  function WholeSeconds(ttl: int): int {
    if ttl >= 0 then ttl / SECOND else -(-ttl / SECOND)
  }

  /** `now.Add(ttl).UnixMilli()`. */
  function ExpiresAt(now: int, ttl: int): int {
    (now + ttl) / MILLISECOND
  }

  /** What all servers share: xxhash of a user id, the route TTL, and the Redis time at which
      the registry was empty. */
  datatype Deployment = Deployment(hash: string -> nat, routeTTL: int, epoch: int) {
    function BucketOf(userID: string): (b: nat)
      ensures b < USER_ROUTE_BUCKET_COUNT
    {
      hash(TrimSpace(userID)) % USER_ROUTE_BUCKET_COUNT
    }

    function TtlSeconds(): int {
      WholeSeconds(routeTTL)
    }

    function ExpireScore(now: int): int {
      ExpiresAt(now, routeTTL)
    }

    function RouteKey(userID: string): string {
      UserRouteKey(BucketOf(userID), userID)
    }

    function ExpireKey(userID: string): string {
      UserExpireKey(BucketOf(userID))
    }
  }

  /** A second is truncated toward zero, whatever the sign. */
  lemma WholeSecondsTruncates(ttl: int)
    ensures ttl >= 0 ==> WholeSeconds(ttl) * SECOND <= ttl < (WholeSeconds(ttl) + 1) * SECOND
    ensures WholeSeconds(-ttl) == -WholeSeconds(ttl)
  {
  }

  /** The score is the millisecond in which the TTL, counted from the clock reading, ends. */
  lemma ExpireScoreIs(dep: Deployment, now: int)
    ensures dep.ExpireScore(now) * MILLISECOND <= now + dep.routeTTL < (dep.ExpireScore(now) + 1) * MILLISECOND
  {
  }

  /** Users share a bucket exactly when their hashes agree modulo sixteen, white space around the
      ids ignored, and every bucket number below sixteen is the one of the hashes that reach it. */
  lemma BucketsByHash(dep: Deployment, u: string, v: string, b: nat)
    ensures dep.BucketOf(u) == dep.BucketOf(v) <==> (dep.hash(TrimSpace(u)) - dep.hash(TrimSpace(v))) % 16 == 0
    ensures b < 16 ==> (dep.BucketOf(u) == b <==> exists k: nat :: dep.hash(TrimSpace(u)) == 16 * k + b)
    ensures dep.BucketOf(TrimSpace(u)) == dep.BucketOf(u)
  {
    TrimSpaceTrims(u);
    TrimSpaceTrims(TrimSpace(u));
    var h := dep.hash(TrimSpace(u));
    assert h == 16 * (h / 16) + h % 16;
    hide TrimSpace;
  }

  /** One atomic change of the shared state. `Register` carries the raw arguments and the clock
      reading of the server that sent the script, `Poll` whether its answer arrived. `Lost` is a
      call that never reached Redis. */
  datatype Step =
    | Register(serverID: string, userID: string, connectionID: string, now: int)
    | Remove(userID: string, connectionID: string)
    | Poll(bucket: int, limit: int, cutoff: int, answered: bool)
    | Tick(elapsed: nat)
    | Lost

  /** Servers are only constructed with a trimmed, non-blank server id. */
  predicate Legal(step: Step) {
    step.Register? ==> Clean(step.serverID)
  }

  function Apply(dep: Deployment, db: Db, step: Step): Db {
    match step
    case Register(s, userID, connectionID, now) =>
      var u, c := TrimSpace(userID), TrimSpace(connectionID);
      if u == "" || c == "" then db else
        var result := RegisterScript(db, dep.RouteKey(u), dep.ExpireKey(u), c, s, dep.TtlSeconds(),
                                     dep.ExpireScore(now), u);
        if result.Some? then result.value else db
    case Remove(userID, connectionID) =>
      var u, c := TrimSpace(userID), TrimSpace(connectionID);
      if u == "" || c == "" then db else HDel(db, dep.RouteKey(u), c)
    case Poll(bucket, limit, cutoff, _) =>
      if 0 <= bucket < USER_ROUTE_BUCKET_COUNT then PollScript(db, UserExpireKey(bucket), limit, cutoff).0 else db
    case Tick(elapsed) => db.(clock := db.clock + elapsed)
    case Lost => db
  }

  /** The user ids a step takes out of the index and returns. */
  function Returned(dep: Deployment, db: Db, step: Step): seq<string> {
    match step
    case Poll(bucket, limit, cutoff, _) =>
      if 0 <= bucket < USER_ROUTE_BUCKET_COUNT then PollScript(db, UserExpireKey(bucket), limit, cutoff).1 else []
    case _ => []
  }

  /** The users whose names reach the poller that took them. */
  function Received(dep: Deployment, db: Db, step: Step): seq<string> {
    if step.Poll? && step.answered then Returned(dep, db, step) else []
  }

  /** The users taken by a poll whose answer was lost: no poller ever hears of them. */
  function Dropped(dep: Deployment, db: Db, step: Step): seq<string> {
    if step.Poll? && !step.answered then Returned(dep, db, step) else []
  }

  /** The registry after a run that started empty. */
  function Run(dep: Deployment, steps: seq<Step>): Db {
    if steps == [] then Db(map[], map[], dep.epoch)
    else Apply(dep, Run(dep, steps[..|steps| - 1]), steps[|steps| - 1])
  }

  predicate LegalRun(steps: seq<Step>) {
    forall i :: 0 <= i < |steps| ==> Legal(steps[i])
  }

  lemma {:induction false} RunSnoc(dep: Deployment, steps: seq<Step>, step: Step)
    ensures Run(dep, steps + [step]) == Apply(dep, Run(dep, steps), step)
  {
    var all := steps + [step];
    assert all[..|all| - 1] == steps;
  }

  lemma LegalSnoc(steps: seq<Step>, step: Step)
    requires LegalRun(steps) && Legal(step)
    ensures LegalRun(steps + [step])
  {
  }

  lemma LegalPrefix(pre: seq<Step>, step: Step)
    requires LegalRun(pre + [step])
    ensures LegalRun(pre) && Legal(step)
  {
    var all := pre + [step];
    assert forall i :: 0 <= i < |pre| ==> all[i] == pre[i];
    assert all[|pre|] == step;
  }

  // ----- Reading a step as an event -----

  /** A poll of bucket `b` with this limit and a cutoff at or past `cutoff`. */
  predicate PollsPast(step: Step, b: nat, limit: int, cutoff: int) {
    step.Poll? && step.bucket == b && step.limit == limit && step.cutoff >= cutoff
  }

  function CountPolls(steps: seq<Step>, b: nat, limit: int, cutoff: int): nat {
    if steps == [] then 0
    else CountPolls(steps[..|steps| - 1], b, limit, cutoff)
         + (if PollsPast(steps[|steps| - 1], b, limit, cutoff) then 1 else 0)
  }

  /** The step reaches Redis as a registration of this user, which needs a whole second of TTL. */
  predicate RegistersUser(dep: Deployment, step: Step, u: string) {
    step.Register? && TrimSpace(step.userID) == u && TrimSpace(step.connectionID) != "" && dep.TtlSeconds() > 0
  }

  predicate Registers(dep: Deployment, step: Step, u: string, c: string) {
    RegistersUser(dep, step, u) && TrimSpace(step.connectionID) == c
  }

  predicate Removes(step: Step, u: string, c: string) {
    step.Remove? && TrimSpace(step.userID) == u && TrimSpace(step.connectionID) == c
  }

  function RouteOf(dep: Deployment, db: Db, u: string, c: string): Option<Lease> {
    var fields := HashAt(db, dep.RouteKey(u));
    if c in fields then Some(fields[c]) else None
  }

  function ScoreIn(dep: Deployment, db: Db, u: string): Option<int> {
    ScoreOf(ZSetAt(db, dep.ExpireKey(u)), u)
  }

  // ----- Where data may live -----

  /** A route hash belongs to one clean user, under that user's bucket. */
  ghost predicate PlacedHash(dep: Deployment, key: string, fields: map<string, Lease>) {
    && (exists u :: Clean(u) && key == dep.RouteKey(u))
    && fields != map[]
    && forall c :: c in fields ==> Clean(c) && Clean(fields[c].serverID)
  }

  predicate InBucket(dep: Deployment, z: seq<Entry>, b: nat) {
    forall e :: e in z ==> Clean(e.member) && dep.BucketOf(e.member) == b
  }

  /** A sorted set belongs to one bucket and indexes clean users of that bucket only. */
  ghost predicate PlacedIndex(dep: Deployment, key: string, z: seq<Entry>) {
    && z != []
    && Valid(z)
    && exists b :: 0 <= b < USER_ROUTE_BUCKET_COUNT && key == UserExpireKey(b) && InBucket(dep, z, b)
  }

  ghost predicate Placed(dep: Deployment, db: Db) {
    && (forall key :: key in db.hashes ==> PlacedHash(dep, key, db.hashes[key]))
    && (forall key :: key in db.zsets ==> PlacedIndex(dep, key, db.zsets[key]))
  }

  lemma BucketIndex(dep: Deployment, db: Db, b: nat)
    requires Placed(dep, db) && b < USER_ROUTE_BUCKET_COUNT
    ensures Valid(ZSetAt(db, UserExpireKey(b))) && InBucket(dep, ZSetAt(db, UserExpireKey(b)), b)
  {
    var key := UserExpireKey(b);
    if key in db.zsets {
      var c :| 0 <= c < USER_ROUTE_BUCKET_COUNT && key == UserExpireKey(c) && InBucket(dep, db.zsets[key], c);
      UserExpireKeyInjective(b, c);
    }
  }

  lemma TrimmedClean(s: string)
    ensures TrimSpace(s) != "" ==> Clean(TrimSpace(s))
  {
    TrimSpaceTrims(s);
  }

  lemma PutHashPlaced(dep: Deployment, db: Db, u: string, fields: map<string, Lease>)
    requires Placed(dep, db) && Clean(u)
    requires forall c :: c in fields ==> Clean(c) && Clean(fields[c].serverID)
    ensures Placed(dep, PutHash(db, dep.RouteKey(u), fields))
  {
    var db' := PutHash(db, dep.RouteKey(u), fields);
    assert fields != map[] ==> PlacedHash(dep, dep.RouteKey(u), fields);
    assert forall key :: key in db'.hashes ==> PlacedHash(dep, key, db'.hashes[key]);
  }

  lemma PutZSetPlaced(dep: Deployment, db: Db, b: nat, z: seq<Entry>)
    requires Placed(dep, db) && b < USER_ROUTE_BUCKET_COUNT
    requires Valid(z) && InBucket(dep, z, b)
    ensures Placed(dep, PutZSet(db, UserExpireKey(b), z))
  {
    var db' := PutZSet(db, UserExpireKey(b), z);
    assert z != [] ==> PlacedIndex(dep, UserExpireKey(b), z);
    assert forall key :: key in db'.zsets ==> PlacedIndex(dep, key, db'.zsets[key]);
  }

  /** The lease a registration writes. */
  function NewLease(dep: Deployment, db: Db, serverID: string): Lease {
    Lease(serverID, db.clock + dep.TtlSeconds() * 1000)
  }

  /** The hash write and the index write of one registration. */
  function Registered(dep: Deployment, db: Db, u: string, c: string, lease: Lease, score: int): Db {
    PutZSet(PutHash(db, dep.RouteKey(u), HashAt(db, dep.RouteKey(u))[c := lease]),
            dep.ExpireKey(u), ZAdd(ZSetAt(db, dep.ExpireKey(u)), score, u))
  }

  lemma RegisterShape(dep: Deployment, db: Db, step: Step)
    requires step.Register?
    ensures var u, c := TrimSpace(step.userID), TrimSpace(step.connectionID);
            Apply(dep, db, step) ==
            if u != "" && RegistersUser(dep, step, u)
            then Registered(dep, db, u, c, NewLease(dep, db, step.serverID), dep.ExpireScore(step.now))
            else db
  {
    var u, c := TrimSpace(step.userID), TrimSpace(step.connectionID);
    var db' := PutHash(db, dep.RouteKey(u), HashAt(db, dep.RouteKey(u))[c := NewLease(dep, db, step.serverID)]);
    assert ZSetAt(db', dep.ExpireKey(u)) == ZSetAt(db, dep.ExpireKey(u));
  }

  lemma IndexPlaced(dep: Deployment, db: Db, u: string, score: int)
    requires Placed(dep, db) && Clean(u)
    ensures Placed(dep, PutZSet(db, dep.ExpireKey(u), ZAdd(ZSetAt(db, dep.ExpireKey(u)), score, u)))
  {
    var b := dep.BucketOf(u);
    TrimSpaceTrims(u);
    BucketIndex(dep, db, b);
    var z := ZSetAt(db, UserExpireKey(b));
    ZAddOverwrites(z, score, u);
    assert InBucket(dep, ZAdd(z, score, u), b);
    PutZSetPlaced(dep, db, b, ZAdd(z, score, u));
  }

  lemma RegisterPlaced(dep: Deployment, db: Db, u: string, c: string, lease: Lease, score: int)
    requires Placed(dep, db) && Clean(u) && Clean(c) && Clean(lease.serverID)
    ensures Placed(dep, Registered(dep, db, u, c, lease, score))
  {
    var fields := HashAt(db, dep.RouteKey(u));
    assert forall d :: d in fields ==> Clean(d) && Clean(fields[d].serverID);
    PutHashPlaced(dep, db, u, fields[c := lease]);
    var db' := PutHash(db, dep.RouteKey(u), fields[c := lease]);
    assert ZSetAt(db', dep.ExpireKey(u)) == ZSetAt(db, dep.ExpireKey(u));
    IndexPlaced(dep, db', u, score);
  }

  lemma PollPlaced(dep: Deployment, db: Db, bucket: nat, limit: int, cutoff: int)
    requires Placed(dep, db) && bucket < USER_ROUTE_BUCKET_COUNT
    ensures Placed(dep, PollScript(db, UserExpireKey(bucket), limit, cutoff).0)
  {
    BucketIndex(dep, db, bucket);
    var z := ZSetAt(db, UserExpireKey(bucket));
    PollScores(z, cutoff, limit, "");
    PollRemovesWhatItReturns(z, cutoff, limit);
    assert forall e :: e in AfterPoll(z, cutoff, limit) ==> e in z;
    PutZSetPlaced(dep, db, bucket, AfterPoll(z, cutoff, limit));
  }

  lemma ApplyPlaced(dep: Deployment, db: Db, step: Step)
    requires Placed(dep, db) && Legal(step)
    ensures Placed(dep, Apply(dep, db, step))
  {
    match step
    case Register(s, userID, connectionID, now) =>
      RegisterShape(dep, db, step);
      TrimmedClean(userID);
      TrimmedClean(connectionID);
      if TrimSpace(userID) != "" && RegistersUser(dep, step, TrimSpace(userID)) {
        RegisterPlaced(dep, db, TrimSpace(userID), TrimSpace(connectionID), NewLease(dep, db, s), dep.ExpireScore(now));
      }
    case Remove(userID, connectionID) =>
      var u, c := TrimSpace(userID), TrimSpace(connectionID);
      TrimmedClean(userID);
      if u != "" && c != "" {
        PutHashPlaced(dep, db, u, HashAt(db, dep.RouteKey(u)) - {c});
      }
    case Poll(bucket, limit, cutoff, _) =>
      if 0 <= bucket < USER_ROUTE_BUCKET_COUNT {
        PollPlaced(dep, db, bucket, limit, cutoff);
      }
    case Tick(_) =>
    case Lost =>
  }

  /** In every reachable state a user's routes and index entry exist only under the bucket of
      that user, everything stored is trimmed and non-blank, and every index is well formed. */
  lemma {:induction false} RunPlaced(dep: Deployment, steps: seq<Step>)
    requires LegalRun(steps)
    ensures Placed(dep, Run(dep, steps))
  {
    if steps != [] {
      RunPlaced(dep, steps[..|steps| - 1]);
      ApplyPlaced(dep, Run(dep, steps[..|steps| - 1]), steps[|steps| - 1]);
    }
  }

  // ----- What one step does to one route and one score -----

  /** Writing one user's hash leaves every other user's routes alone. */
  lemma RouteAfterPut(dep: Deployment, db: Db, v: string, fields: map<string, Lease>, u: string, c: string)
    ensures RouteOf(dep, PutHash(db, dep.RouteKey(v), fields), u, c) ==
            if u == v then (if c in fields then Some(fields[c]) else None) else RouteOf(dep, db, u, c)
  {
    if dep.RouteKey(u) == dep.RouteKey(v) {
      UserRouteKeyInjective(dep.BucketOf(u), u, dep.BucketOf(v), v);
    }
  }

  /** A route changes only by registrations and removals of that very user and connection. */
  lemma RouteEffect(dep: Deployment, db: Db, step: Step, u: string, c: string)
    requires Clean(u) && Clean(c)
    ensures RouteOf(dep, Apply(dep, db, step), u, c) ==
            if Registers(dep, step, u, c) then Some(NewLease(dep, db, step.serverID))
            else if Removes(step, u, c) then None
            else RouteOf(dep, db, u, c)
  {
    match step
    case Register(s, userID, connectionID, now) =>
      var v, d := TrimSpace(userID), TrimSpace(connectionID);
      RegisterShape(dep, db, step);
      RouteAfterPut(dep, db, v, HashAt(db, dep.RouteKey(v))[d := NewLease(dep, db, s)], u, c);
    case Remove(userID, connectionID) =>
      var v, d := TrimSpace(userID), TrimSpace(connectionID);
      if v != "" && d != "" {
        RouteAfterPut(dep, db, v, HashAt(db, dep.RouteKey(v)) - {d}, u, c);
      }
    case Poll(_, _, _, _) =>
    case Tick(_) =>
    case Lost =>
  }

  lemma {:induction false} MembersScored(z: seq<Entry>, u: string)
    ensures u in Members(z) <==> ScoreOf(z, u).Some?
  {
    if z != [] {
      MembersScored(z[1..], u);
      assert Members(z) == [z[0].member] + Members(z[1..]);
    }
  }

  lemma RegisterScore(dep: Deployment, db: Db, step: Step, u: string)
    requires Placed(dep, db) && step.Register? && Clean(u)
    ensures ScoreIn(dep, Apply(dep, db, step), u) ==
            if RegistersUser(dep, step, u) then Some(dep.ExpireScore(step.now)) else ScoreIn(dep, db, u)
  {
    var v := TrimSpace(step.userID);
    RegisterShape(dep, db, step);
    hide Apply;
    BucketIndex(dep, db, dep.BucketOf(u));
    if dep.ExpireKey(u) == dep.ExpireKey(v) {
      ZAddOverwrites(ZSetAt(db, dep.ExpireKey(u)), dep.ExpireScore(step.now), v);
    }
  }

  lemma PollOwnBucket(dep: Deployment, db: Db, limit: int, cutoff: int, u: string)
    requires Placed(dep, db)
    ensures var (db', out) := PollScript(db, dep.ExpireKey(u), limit, cutoff);
            && ScoreIn(dep, db', u) == (if u in out then None else ScoreIn(dep, db, u))
            && (u in out ==> ScoreIn(dep, db, u).Some? && ScoreIn(dep, db, u).value <= cutoff)
  {
    BucketIndex(dep, db, dep.BucketOf(u));
    var z := ZSetAt(db, dep.ExpireKey(u));
    PollScores(z, cutoff, limit, u);
    MembersScored(Polled(z, cutoff, limit), u);
    hide AfterPoll, Polled, UserExpireKey;
  }

  lemma PollOtherBucket(dep: Deployment, db: Db, bucket: nat, limit: int, cutoff: int, u: string)
    requires Placed(dep, db) && bucket < USER_ROUTE_BUCKET_COUNT && bucket != dep.BucketOf(u)
    ensures var (db', out) := PollScript(db, UserExpireKey(bucket), limit, cutoff);
            ScoreIn(dep, db', u) == ScoreIn(dep, db, u) && u !in out
  {
    BucketIndex(dep, db, bucket);
    var z := ZSetAt(db, UserExpireKey(bucket));
    ScoreOfNone(z, u);
    PollScores(z, cutoff, limit, u);
    MembersScored(Polled(z, cutoff, limit), u);
    if UserExpireKey(bucket) == dep.ExpireKey(u) { UserExpireKeyInjective(bucket, dep.BucketOf(u)); }
    hide AfterPoll, Polled, UserExpireKey;
  }

  lemma PollScore(dep: Deployment, db: Db, step: Step, u: string)
    requires Placed(dep, db) && step.Poll? && Clean(u)
    ensures ScoreIn(dep, Apply(dep, db, step), u) ==
            if u in Returned(dep, db, step) then None else ScoreIn(dep, db, u)
    ensures u in Returned(dep, db, step) ==>
              && step.bucket == dep.BucketOf(u)
              && ScoreIn(dep, db, u).Some? && ScoreIn(dep, db, u).value <= step.cutoff
  {
    if step.bucket == dep.BucketOf(u) {
      PollOwnBucket(dep, db, step.limit, step.cutoff, u);
    } else if 0 <= step.bucket < USER_ROUTE_BUCKET_COUNT {
      PollOtherBucket(dep, db, step.bucket, step.limit, step.cutoff, u);
    }
    hide PollScript, ScoreIn;
  }

  /** A score changes only when the user registers or is handed out; a user handed out was
      indexed in the polled bucket with a score the cutoff had reached. */
  lemma ScoreEffect(dep: Deployment, db: Db, step: Step, u: string)
    requires Placed(dep, db) && Clean(u)
    ensures ScoreIn(dep, Apply(dep, db, step), u) ==
            if RegistersUser(dep, step, u) then Some(dep.ExpireScore(step.now))
            else if u in Returned(dep, db, step) then None
            else ScoreIn(dep, db, u)
    ensures u in Returned(dep, db, step) ==>
              && step.Poll? && step.bucket == dep.BucketOf(u)
              && ScoreIn(dep, db, u).Some? && ScoreIn(dep, db, u).value <= step.cutoff
  {
    match step
    case Register(_, _, _, _) => RegisterScore(dep, db, step, u);
    case Poll(_, _, _, _) => PollScore(dep, db, step, u);
    case Remove(_, _) =>
    case Tick(_) =>
    case Lost =>
  }

  lemma {:induction false} ClockMonotone(dep: Deployment, steps: seq<Step>, i: nat)
    requires i <= |steps|
    ensures Run(dep, steps[..i]).clock <= Run(dep, steps).clock
  {
    if i == |steps| {
      assert steps[..i] == steps;
    } else {
      var pre := steps[..|steps| - 1];
      ClockMonotone(dep, pre, i);
      assert pre[..i] == steps[..i];
    }
  }

  lemma {:induction false} ClockBetween(dep: Deployment, steps: seq<Step>, i: nat, j: nat)
    requires i <= j <= |steps|
    ensures Run(dep, steps[..i]).clock <= Run(dep, steps[..j]).clock
  {
    ClockMonotone(dep, steps[..j], i);
    assert steps[..j][..i] == steps[..i];
  }
}
