/** The sixteen buckets behave as one unsharded registry. */
module RouteSharding {
  import opened Wrappers
  import opened Text
  import opened SortedSet
  import opened RouteKeys
  import opened RouteDb
  import opened RouteHistory

  /** A registry without keys or buckets: one table of routes and one index. */
  datatype Flat = Flat(routes: map<(string, string), Lease>, index: seq<Entry>, clock: int)

  function OfBucket(dep: Deployment, z: seq<Entry>, b: nat): seq<Entry> {
    if z == [] then []
    else (if dep.BucketOf(z[0].member) == b then [z[0]] else []) + OfBucket(dep, z[1..], b)
  }

  /** `z` without the entries listed in `out`. */
  function Minus(z: seq<Entry>, out: seq<Entry>): seq<Entry> {
    if z == [] then []
    else (if z[0] in out then [] else [z[0]]) + Minus(z[1..], out)
  }

  /** What a bucket's poll takes from the one index. */
  function FlatPolled(dep: Deployment, z: seq<Entry>, b: nat, limit: int, cutoff: int): seq<Entry> {
    Polled(OfBucket(dep, z, b), cutoff, limit)
  }

  function FlatApply(dep: Deployment, f: Flat, step: Step): Flat {
    match step
    case Register(s, userID, connectionID, now) =>
      var u, c := TrimSpace(userID), TrimSpace(connectionID);
      if u == "" || !RegistersUser(dep, step, u) then f else
        f.(routes := f.routes[(u, c) := Lease(s, f.clock + LeaseMillis(dep))],
           index := ZAdd(f.index, dep.ExpireScore(now), u))
    case Remove(userID, connectionID) =>
      f.(routes := f.routes - {(TrimSpace(userID), TrimSpace(connectionID))})
    case Poll(bucket, limit, cutoff, _) =>
      if 0 <= bucket < USER_ROUTE_BUCKET_COUNT
      then f.(index := Minus(f.index, FlatPolled(dep, f.index, bucket, limit, cutoff)))
      else f
    case Tick(elapsed) => f.(clock := f.clock + elapsed)
    case Lost => f
  }

  function FlatRun(dep: Deployment, steps: seq<Step>): Flat {
    if steps == [] then Flat(map[], [], dep.epoch)
    else FlatApply(dep, FlatRun(dep, steps[..|steps| - 1]), steps[|steps| - 1])
  }

  function FlatRoute(f: Flat, u: string, c: string): Option<Lease> {
    if (u, c) in f.routes then Some(f.routes[(u, c)]) else None
  }

  /** Each bucket's sorted set is that bucket's part of the one index, in the same order. */
  ghost predicate SameIndex(dep: Deployment, db: Db, index: seq<Entry>) {
    && Valid(index)
    && forall b: nat :: b < USER_ROUTE_BUCKET_COUNT ==> ZSetAt(db, UserExpireKey(b)) == OfBucket(dep, index, b)
  }

  ghost predicate SameRoutes(dep: Deployment, db: Db, f: Flat) {
    forall u, c :: Clean(u) && Clean(c) ==> RouteOf(dep, db, u, c) == FlatRoute(f, u, c)
  }

  ghost predicate Shards(dep: Deployment, db: Db, f: Flat) {
    && db.clock == f.clock
    && SameRoutes(dep, db, f)
    && SameIndex(dep, db, f.index)
  }

  // ----- Splitting the index by bucket -----

  lemma {:induction false} OfBucketKeeps(dep: Deployment, z: seq<Entry>, b: nat)
    requires Valid(z)
    ensures Valid(OfBucket(dep, z, b))
    ensures forall e :: e in OfBucket(dep, z, b) <==> e in z && dep.BucketOf(e.member) == b
  {
    if z != [] {
      HeadOfValid(z);
      OfBucketKeeps(dep, z[1..], b);
      ConsValid(z[0], OfBucket(dep, z[1..], b));
    }
  }

  lemma {:induction false} MinusKeeps(z: seq<Entry>, out: seq<Entry>)
    requires Valid(z)
    ensures Valid(Minus(z, out))
    ensures forall e :: e in Minus(z, out) <==> e in z && e !in out
  {
    if z != [] {
      HeadOfValid(z);
      MinusKeeps(z[1..], out);
      ConsValid(z[0], Minus(z[1..], out));
    }
  }

  /** ZADD on the one index is ZADD on the member's bucket and nothing elsewhere. */
  lemma {:induction false} OfBucketZAdd(dep: Deployment, z: seq<Entry>, score: int, m: string, b: nat)
    requires Valid(z)
    ensures OfBucket(dep, ZAdd(z, score, m), b) ==
            if dep.BucketOf(m) == b then ZAdd(OfBucket(dep, z, b), score, m) else OfBucket(dep, z, b)
  {
    ZAddOverwrites(z, score, m);
    OfBucketKeeps(dep, z, b);
    OfBucketKeeps(dep, ZAdd(z, score, m), b);
    ZAddOverwrites(OfBucket(dep, z, b), score, m);
    hide OfBucket, ZAdd;
    RankedUnique(OfBucket(dep, ZAdd(z, score, m), b),
                 if dep.BucketOf(m) == b then ZAdd(OfBucket(dep, z, b), score, m) else OfBucket(dep, z, b));
  }

  /** Taking a bucket's poll out of the one index is polling that bucket alone. */
  lemma {:induction false} OfBucketPoll(dep: Deployment, z: seq<Entry>, p: nat, limit: int, cutoff: int, b: nat)
    requires Valid(z)
    ensures OfBucket(dep, Minus(z, FlatPolled(dep, z, p, limit, cutoff)), b) ==
            if b == p then AfterPoll(OfBucket(dep, z, b), cutoff, limit) else OfBucket(dep, z, b)
  {
    var own := OfBucket(dep, z, p);
    var out, rest := Polled(own, cutoff, limit), AfterPoll(own, cutoff, limit);
    OfBucketKeeps(dep, z, p);
    OfBucketKeeps(dep, z, b);
    MinusKeeps(z, out);
    OfBucketKeeps(dep, Minus(z, out), b);
    PollRemovesWhatItReturns(own, cutoff, limit);
    PollScores(own, cutoff, limit, "");
    SplitDisjoint(out, rest);
    hide OfBucket, Minus, Polled, AfterPoll;
    RankedUnique(OfBucket(dep, Minus(z, out), b), if b == p then rest else OfBucket(dep, z, b));
  }

  lemma SplitDisjoint(p: seq<Entry>, q: seq<Entry>)
    requires Valid(p + q)
    ensures forall e :: e in p + q <==> e in p || e in q
    ensures forall e :: e in p ==> e !in q
  {
    var z := p + q;
    forall i, j | 0 <= i < |p| && 0 <= j < |q| ensures p[i] != q[j] {
      assert z[i] == p[i] && z[|p| + j] == q[j];
    }
  }

  // ----- One step -----

  lemma RegisterShards(dep: Deployment, db: Db, f: Flat, step: Step)
    requires SameIndex(dep, db, f.index) && step.Register?
    ensures SameIndex(dep, Apply(dep, db, step), FlatApply(dep, f, step).index)
  {
    var u, score := TrimSpace(step.userID), dep.ExpireScore(step.now);
    RegisterShape(dep, db, step);
    TrimSpaceTrims(step.userID);
    if u != "" && RegistersUser(dep, step, u) {
      ZAddOverwrites(f.index, score, u);
      forall b: nat | b < USER_ROUTE_BUCKET_COUNT
        ensures ZSetAt(Apply(dep, db, step), UserExpireKey(b)) == OfBucket(dep, ZAdd(f.index, score, u), b)
      {
        OfBucketZAdd(dep, f.index, score, u, b);
        hide Apply, ZAdd, OfBucket;
        if UserExpireKey(b) == dep.ExpireKey(u) { UserExpireKeyInjective(b, dep.BucketOf(u)); }
      }
    }
  }

  lemma PollShards(dep: Deployment, db: Db, f: Flat, bucket: nat, limit: int, cutoff: int)
    requires SameIndex(dep, db, f.index) && bucket < USER_ROUTE_BUCKET_COUNT
    ensures SameIndex(dep, PollScript(db, UserExpireKey(bucket), limit, cutoff).0,
                      Minus(f.index, FlatPolled(dep, f.index, bucket, limit, cutoff)))
    ensures PollScript(db, UserExpireKey(bucket), limit, cutoff).1
            == Members(FlatPolled(dep, f.index, bucket, limit, cutoff))
  {
    MinusKeeps(f.index, FlatPolled(dep, f.index, bucket, limit, cutoff));
    var db' := PollScript(db, UserExpireKey(bucket), limit, cutoff).0;
    forall b: nat | b < USER_ROUTE_BUCKET_COUNT
      ensures ZSetAt(db', UserExpireKey(b))
              == OfBucket(dep, Minus(f.index, FlatPolled(dep, f.index, bucket, limit, cutoff)), b)
    {
      OfBucketPoll(dep, f.index, bucket, limit, cutoff, b);
      hide Minus, FlatPolled, OfBucket, AfterPoll;
      if UserExpireKey(b) == UserExpireKey(bucket) { UserExpireKeyInjective(b, bucket); }
    }
  }

  lemma StepShardsIndex(dep: Deployment, db: Db, f: Flat, step: Step)
    requires SameIndex(dep, db, f.index)
    ensures SameIndex(dep, Apply(dep, db, step), FlatApply(dep, f, step).index)
  {
    match step
    case Register(_, _, _, _) => RegisterShards(dep, db, f, step);
    case Poll(bucket, limit, cutoff, _) =>
      if 0 <= bucket < USER_ROUTE_BUCKET_COUNT { PollShards(dep, db, f, bucket, limit, cutoff); }
    case Remove(_, _) =>
      assert forall key :: ZSetAt(Apply(dep, db, step), key) == ZSetAt(db, key);
    case Tick(_) =>
    case Lost =>
  }

  lemma FlatRouteEffect(dep: Deployment, f: Flat, step: Step, u: string, c: string)
    requires Clean(u) && Clean(c)
    ensures FlatRoute(FlatApply(dep, f, step), u, c) ==
            if Registers(dep, step, u, c) then Some(Lease(step.serverID, f.clock + LeaseMillis(dep)))
            else if Removes(step, u, c) then None
            else FlatRoute(f, u, c)
  {
    assert u != "" && c != "";
    hide ZAdd, Minus, FlatPolled, TrimSpace, Clean;
  }

  lemma StepShardsRoute(dep: Deployment, db: Db, f: Flat, step: Step, u: string, c: string)
    requires RouteOf(dep, db, u, c) == FlatRoute(f, u, c) && db.clock == f.clock && Clean(u) && Clean(c)
    ensures RouteOf(dep, Apply(dep, db, step), u, c) == FlatRoute(FlatApply(dep, f, step), u, c)
  {
    RouteEffect(dep, db, step, u, c);
    FlatRouteEffect(dep, f, step, u, c);
    hide Apply, FlatApply, RouteOf, FlatRoute, Clean, Registers, Removes;
  }

  lemma StepShardsRoutes(dep: Deployment, db: Db, f: Flat, step: Step)
    requires SameRoutes(dep, db, f) && db.clock == f.clock
    ensures SameRoutes(dep, Apply(dep, db, step), FlatApply(dep, f, step))
    ensures Apply(dep, db, step).clock == FlatApply(dep, f, step).clock
  {
    StepClock(dep, db, f, step);
    hide Apply, FlatApply, RouteOf, FlatRoute, Clean;
    forall u, c | Clean(u) && Clean(c)
      ensures RouteOf(dep, Apply(dep, db, step), u, c) == FlatRoute(FlatApply(dep, f, step), u, c)
    {
      StepShardsRoute(dep, db, f, step, u, c);
    }
  }

  lemma StepClock(dep: Deployment, db: Db, f: Flat, step: Step)
    requires db.clock == f.clock
    ensures Apply(dep, db, step).clock == FlatApply(dep, f, step).clock
  {
  }

  /** Sharding refines one registry: through every run the bucketed Redis state is the
      unsharded registry cut along buckets. */
  lemma {:induction false} ShardingRefinesOneRegistry(dep: Deployment, steps: seq<Step>)
    ensures Shards(dep, Run(dep, steps), FlatRun(dep, steps))
  {
    if steps != [] {
      hide Apply, FlatApply, SameRoutes, SameIndex;
      var n := |steps| - 1;
      var pre, step := steps[..n], steps[n];
      ShardingRefinesOneRegistry(dep, pre);
      StepShardsIndex(dep, Run(dep, pre), FlatRun(dep, pre), step);
      StepShardsRoutes(dep, Run(dep, pre), FlatRun(dep, pre), step);
    }
  }

  /** So listing a user shows the same connections either way. */
  lemma {:induction false} ListingIgnoresSharding(dep: Deployment, steps: seq<Step>, u: string, c: string, s: string)
    requires LegalRun(steps) && Clean(u)
    ensures c in Routes(dep, Run(dep, steps), u) && Routes(dep, Run(dep, steps), u)[c] == s
            <==> Clean(c) && (u, c) in FlatRun(dep, steps).routes
                 && FlatRun(dep, steps).routes[(u, c)].serverID == s
                 && FlatRun(dep, steps).clock <= FlatRun(dep, steps).routes[(u, c)].deadline
  {
    ShardingRefinesOneRegistry(dep, steps);
    StoredConnectionsClean(dep, steps, u);
    hide Run, FlatRun;
    if Clean(c) {
      assert RouteOf(dep, Run(dep, steps), u, c) == FlatRoute(FlatRun(dep, steps), u, c);
    }
  }
}
