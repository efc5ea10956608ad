/** The background sweep every gateway server runs over all buckets. */
module AppPoller {
  import opened Network
  import opened Units
  import opened Wrappers
  import opened Text
  import opened SortedSet
  import opened RouteKeys
  import opened RouteDb
  import opened RouteHistory
  import opened RouteLease
  import opened RouteFairness
  import opened RouteSharding
  import opened RouteDrain
  import Store = UserRouteStore

  const USER_ROUTE_POLL_LIMIT := 128

  /** One round through the buckets: for each, the clock reading, the network's behaviour, and
      what other servers do to the shared state before its poll. */
  datatype Round = Round(now: Option<int>, clocks: seq<int>, faults: seq<Fault>, others: seq<seq<Step>>) {
    predicate Complete() {
      && |clocks| == |faults| == |others| == USER_ROUTE_BUCKET_COUNT
      && forall b :: 0 <= b < |others| ==> LegalRun(others[b])
    }

    function Cutoff(b: nat): int
      requires b < |clocks|
    {
      (if now == None then clocks[b] else now.value) / MILLISECOND
    }
  }

  function SweepStep(round: Round, b: nat): Step
    requires round.Complete() && b < USER_ROUTE_BUCKET_COUNT
  {
    Store.PollStep(round.faults[b], b, USER_ROUTE_POLL_LIMIT, round.Cutoff(b))
  }

  /** The steps of the first `n` buckets of a round, those of other servers among them. */
  function RoundSteps(round: Round, n: nat): seq<Step>
    requires round.Complete() && n <= USER_ROUTE_BUCKET_COUNT
  {
    if n == 0 then [] else RoundSteps(round, n - 1) + round.others[n - 1] + [SweepStep(round, n - 1)]
  }

  /** The history at the moment bucket `b` is polled in a round that began after `steps`. */
  function BeforePoll(steps: seq<Step>, round: Round, b: nat): seq<Step>
    requires round.Complete() && b < USER_ROUTE_BUCKET_COUNT
  {
    steps + RoundSteps(round, b) + round.others[b]
  }

  /** The users bucket `b` gives up at its turn. */
  function BucketBatch(dep: Deployment, steps: seq<Step>, round: Round, b: nat): seq<string>
    requires round.Complete() && b < USER_ROUTE_BUCKET_COUNT
  {
    PollScript(Run(dep, BeforePoll(steps, round, b)), UserExpireKey(b), USER_ROUTE_POLL_LIMIT, round.Cutoff(b)).1
  }

  /** The batches a round logs from its first `n` buckets. */
  function Batches(dep: Deployment, steps: seq<Step>, round: Round, n: nat): seq<(nat, seq<string>)>
    requires round.Complete() && n <= USER_ROUTE_BUCKET_COUNT
  {
    if n == 0 then []
    else Batches(dep, steps, round, n - 1)
         + if round.faults[n - 1].Delivered? && BucketBatch(dep, steps, round, n - 1) != []
           then [(n - 1, BucketBatch(dep, steps, round, n - 1))] else []
  }

  /** A batch is logged for exactly the buckets whose poll was answered with somebody in it. */
  lemma {:induction false} BatchesSpec(dep: Deployment, steps: seq<Step>, round: Round, n: nat, b: nat,
                                       batch: seq<string>)
    requires round.Complete() && n <= USER_ROUTE_BUCKET_COUNT
    ensures (b, batch) in Batches(dep, steps, round, n) <==>
            b < n && round.faults[b].Delivered? && batch != [] && batch == BucketBatch(dep, steps, round, b)
  {
    hide BucketBatch;
    if n > 0 {
      BatchesSpec(dep, steps, round, n - 1, b, batch);
    }
  }

  // ----- The buckets are independent -----

  /** What a step does to one bucket's index depends on that index alone. */
  lemma IndexStepsAgree(dep: Deployment, x: Db, y: Db, step: Step, b: nat)
    requires ZSetAt(x, UserExpireKey(b)) == ZSetAt(y, UserExpireKey(b))
    ensures ZSetAt(Apply(dep, x, step), UserExpireKey(b)) == ZSetAt(Apply(dep, y, step), UserExpireKey(b))
  {
    match step
    case Register(_, _, _, _) => RegistersAgree(dep, x, y, step, b);
    case Poll(_, _, _, _) => PollsAgree(dep, x, y, step, b);
    case Remove(_, _) =>
    case Tick(_) =>
    case Lost =>
  }

  lemma PollsAgree(dep: Deployment, x: Db, y: Db, step: Step, b: nat)
    requires step.Poll? && ZSetAt(x, UserExpireKey(b)) == ZSetAt(y, UserExpireKey(b))
    ensures ZSetAt(Apply(dep, x, step), UserExpireKey(b)) == ZSetAt(Apply(dep, y, step), UserExpireKey(b))
  {
    hide AfterPoll, Polled, UserExpireKey;
  }

  lemma RegistersAgree(dep: Deployment, x: Db, y: Db, step: Step, b: nat)
    requires step.Register? && ZSetAt(x, UserExpireKey(b)) == ZSetAt(y, UserExpireKey(b))
    ensures ZSetAt(Apply(dep, x, step), UserExpireKey(b)) == ZSetAt(Apply(dep, y, step), UserExpireKey(b))
  {
    RegisterShape(dep, x, step);
    RegisterShape(dep, y, step);
    hide Apply, ZAdd, UserExpireKey, UserRouteKey;
  }

  lemma {:induction false} IndexRunsAgree(dep: Deployment, x: seq<Step>, y: seq<Step>, more: seq<Step>, b: nat)
    requires ZSetAt(Run(dep, x), UserExpireKey(b)) == ZSetAt(Run(dep, y), UserExpireKey(b))
    ensures ZSetAt(Run(dep, x + more), UserExpireKey(b)) == ZSetAt(Run(dep, y + more), UserExpireKey(b))
  {
    hide Apply, ZSetAt, UserExpireKey, Run;
    if more == [] {
      assert x + more == x && y + more == y;
    } else {
      var n := |more| - 1;
      IndexRunsAgree(dep, x, y, more[..n], b);
      assert x + more == (x + more[..n]) + [more[n]];
      assert y + more == (y + more[..n]) + [more[n]];
      RunSnoc(dep, x + more[..n], more[n]);
      RunSnoc(dep, y + more[..n], more[n]);
      IndexStepsAgree(dep, Run(dep, x + more[..n]), Run(dep, y + more[..n]), more[n], b);
    }
  }

  lemma OtherBucketKeeps(dep: Deployment, db: Db, round: Round, p: nat, b: nat)
    requires round.Complete() && p < USER_ROUTE_BUCKET_COUNT && b != p
    ensures ZSetAt(Apply(dep, db, SweepStep(round, p)), UserExpireKey(b)) == ZSetAt(db, UserExpireKey(b))
  {
    if UserExpireKey(b) == UserExpireKey(p) { UserExpireKeyInjective(b, p); }
    hide AfterPoll, UserExpireKey;
  }

  /** Two rounds amid the same steps of other servers, whatever becomes of their polls. */
  ghost predicate SameOthers(r: Round, q: Round) {
    r.Complete() && q.Complete() && r.others == q.others
  }

  lemma {:induction false} IndexUntouched(dep: Deployment, steps: seq<Step>, r: Round, q: Round, n: nat, b: nat)
    requires SameOthers(r, q) && n <= b < USER_ROUTE_BUCKET_COUNT
    ensures ZSetAt(Run(dep, steps + RoundSteps(r, n)), UserExpireKey(b))
            == ZSetAt(Run(dep, steps + RoundSteps(q, n)), UserExpireKey(b))
  {
    hide Apply, ZSetAt, UserExpireKey, Run, SweepStep;
    if n == 0 {
      assert steps + RoundSteps(r, 0) == steps && steps + RoundSteps(q, 0) == steps;
    } else {
      var x, y := steps + RoundSteps(r, n - 1), steps + RoundSteps(q, n - 1);
      var more := r.others[n - 1];
      IndexUntouched(dep, steps, r, q, n - 1, b);
      IndexRunsAgree(dep, x, y, more, b);
      assert steps + RoundSteps(r, n) == (x + more) + [SweepStep(r, n - 1)];
      assert steps + RoundSteps(q, n) == (y + more) + [SweepStep(q, n - 1)];
      RunSnoc(dep, x + more, SweepStep(r, n - 1));
      RunSnoc(dep, y + more, SweepStep(q, n - 1));
      OtherBucketKeeps(dep, Run(dep, x + more), r, n - 1, b);
      OtherBucketKeeps(dep, Run(dep, y + more), q, n - 1, b);
    }
  }

  /** What a bucket gives up does not depend on how the polls of the other buckets fare, nor on
      their cutoffs: an error in one bucket leaves the result of the others unchanged. */
  lemma BucketsAreIndependent(dep: Deployment, steps: seq<Step>, r: Round, q: Round, b: nat)
    requires SameOthers(r, q) && b < USER_ROUTE_BUCKET_COUNT && r.Cutoff(b) == q.Cutoff(b)
    ensures BucketBatch(dep, steps, r, b) == BucketBatch(dep, steps, q, b)
  {
    IndexUntouched(dep, steps, r, q, b, b);
    IndexRunsAgree(dep, steps + RoundSteps(r, b), steps + RoundSteps(q, b), r.others[b], b);
    hide Run, UserExpireKey, AfterPoll, Polled, RoundSteps;
  }

  // ----- The poller -----

  predicate AllComplete(rounds: seq<Round>) {
    forall k :: 0 <= k < |rounds| ==> rounds[k].Complete()
  }

  /** The steps of the first `n` rounds of a poller. */
  function AllRounds(rounds: seq<Round>, n: nat): seq<Step>
    requires n <= |rounds| && AllComplete(rounds)
  {
    if n == 0 then [] else AllRounds(rounds, n - 1) + RoundSteps(rounds[n - 1], USER_ROUTE_BUCKET_COUNT)
  }

  class App {
    const redisRouteTTL: int
    const userRoutes: Store.UserRouteStore?

    constructor (redisRouteTTL: int, userRoutes: Store.UserRouteStore?)
      ensures this.redisRouteTTL == redisRouteTTL && this.userRoutes == userRoutes
    {
      this.redisRouteTTL := redisRouteTTL;
      this.userRoutes := userRoutes;
    }

    /** Half the TTL from two seconds on, and one second below that. */
    function UserRoutePollInterval(): (interval: int)
      ensures interval >= SECOND
      ensures redisRouteTTL >= 2 * SECOND ==> 2 * interval <= redisRouteTTL < 2 * interval + 2
      ensures redisRouteTTL < 2 * SECOND ==> interval == SECOND
    {
      var interval := if redisRouteTTL >= 0 then redisRouteTTL / 2 else -(-redisRouteTTL / 2);
      if interval < SECOND then SECOND else interval
    }

    /** One bucket's turn. */
    method PollBucket(ghost steps: seq<Step>, round: Round, bucket: nat) returns (batch: seq<string>)
      requires userRoutes != null && userRoutes.Valid()
      requires round.Complete() && bucket < USER_ROUTE_BUCKET_COUNT
      requires userRoutes.redis.history == BeforePoll(steps, round, bucket)
      modifies userRoutes.redis
      ensures userRoutes.Valid()
      ensures userRoutes.redis.history == old(userRoutes.redis.history) + [SweepStep(round, bucket)]
      ensures batch == if round.faults[bucket].Delivered?
                       then BucketBatch(userRoutes.redis.dep, steps, round, bucket) else []
    {
      hide Run, LegalRun, PollScript, BeforePoll;
      var callback := new Store.Callback(None);
      var _ := userRoutes.PollExpiredUsers(bucket, USER_ROUTE_POLL_LIMIT, round.now, round.clocks[bucket], callback,
                                           round.faults[bucket]);
      batch := if |callback.batches| > 0 then callback.batches[0] else [];
    }

    /** One sweep, with other servers at work between its polls: every bucket is polled once, in
        order, and the batches logged are those the buckets give up at their turns. */
    method PollExpiredUserRoutesOnce(round: Round) returns (logged: seq<(nat, seq<string>)>)
      requires userRoutes != null ==> userRoutes.Valid()
      requires round.Complete()
      modifies if userRoutes == null then {} else {userRoutes.redis}
      ensures userRoutes == null ==> logged == []
      ensures userRoutes != null ==>
                && userRoutes.Valid()
                && userRoutes.redis.history
                   == old(userRoutes.redis.history) + RoundSteps(round, USER_ROUTE_BUCKET_COUNT)
                && logged
                   == Batches(userRoutes.redis.dep, old(userRoutes.redis.history), round, USER_ROUTE_BUCKET_COUNT)
    {
      logged := [];
      if userRoutes == null {
        return;
      }
      hide BucketBatch, Batches, RoundSteps, SweepStep, Run, LegalRun, Round.Complete;
      var redis := userRoutes.redis;
      ghost var steps := redis.history;
      NothingYet(redis.dep, steps, round);
      for bucket := 0 to USER_ROUTE_BUCKET_COUNT
        invariant userRoutes.Valid()
        invariant redis.history == steps + RoundSteps(round, bucket)
        invariant logged == Batches(redis.dep, steps, round, bucket)
      {
        NextTurn(redis.dep, steps, round, bucket);
        redis.Elapse(round.others[bucket]);
        var batch := PollBucket(steps, round, bucket);
        if |batch| > 0 {
          logged := logged + [(bucket, batch)];
        }
      }
    }

    /** The poller's loop, over the ticks until it is canceled: a round at once, and one after
        each tick. */
    method RunUserRoutePoller(rounds: seq<Round>)
      requires userRoutes != null ==> userRoutes.Valid()
      requires AllComplete(rounds)
      modifies if userRoutes == null then {} else {userRoutes.redis}
      ensures userRoutes != null ==>
                && userRoutes.Valid()
                && userRoutes.redis.history == old(userRoutes.redis.history) + AllRounds(rounds, |rounds|)
    {
      if userRoutes == null {
        return;
      }
      hide *;
      ghost var steps := userRoutes.redis.history;
      NoRounds(steps, rounds);
      for k := 0 to |rounds|
        invariant userRoutes.Valid()
        invariant userRoutes.redis.history == steps + AllRounds(rounds, k)
      {
        PollRound(steps, rounds, k);
      }
    }

    /** One round of the loop. */
    method PollRound(ghost steps: seq<Step>, rounds: seq<Round>, k: nat)
      requires userRoutes != null && userRoutes.Valid()
      requires k < |rounds| && AllComplete(rounds)
      requires userRoutes.redis.history == steps + AllRounds(rounds, k)
      modifies userRoutes.redis
      ensures userRoutes.Valid()
      ensures userRoutes.redis.history == steps + AllRounds(rounds, k + 1)
    {
      NextRound(steps, userRoutes.redis.history, rounds, k);
      hide *;
      var _ := PollExpiredUserRoutesOnce(rounds[k]);
    }
  }

  lemma {:induction false} NothingYet(dep: Deployment, steps: seq<Step>, round: Round)
    requires round.Complete()
    ensures RoundSteps(round, 0) == [] && Batches(dep, steps, round, 0) == []
    ensures |round.clocks| == |round.faults| == |round.others| == USER_ROUTE_BUCKET_COUNT
  {
  }

  /** What the next bucket's turn adds to the history and to the log. */
  lemma NextTurn(dep: Deployment, steps: seq<Step>, round: Round, b: nat)
    requires round.Complete() && b < USER_ROUTE_BUCKET_COUNT
    ensures LegalRun(round.others[b])
    ensures (steps + RoundSteps(round, b)) + round.others[b] == BeforePoll(steps, round, b)
    ensures ((steps + RoundSteps(round, b)) + round.others[b]) + [SweepStep(round, b)]
            == steps + RoundSteps(round, b + 1)
    ensures Batches(dep, steps, round, b + 1) == Batches(dep, steps, round, b)
              + if round.faults[b].Delivered? && BucketBatch(dep, steps, round, b) != []
                then [(b, BucketBatch(dep, steps, round, b))] else []
  {
    hide SweepStep, BucketBatch;
  }

  lemma {:induction false} NoRounds(steps: seq<Step>, rounds: seq<Round>)
    requires AllComplete(rounds)
    ensures steps + AllRounds(rounds, 0) == steps
  {
  }

  lemma NextRound(steps: seq<Step>, before: seq<Step>, rounds: seq<Round>, k: nat)
    requires k < |rounds| && AllComplete(rounds)
    requires before == steps + AllRounds(rounds, k)
    ensures rounds[k].Complete()
    ensures before + RoundSteps(rounds[k], USER_ROUTE_BUCKET_COUNT)
            == steps + AllRounds(rounds, k + 1)
  {
    hide RoundSteps;
  }

  // ----- Sweeps drain the index -----

  /** The sweep's poll of the bucket reaches Redis with a cutoff at or past the score. */
  predicate ReachesBucket(round: Round, b: nat, score: int)
    requires round.Complete() && b < USER_ROUTE_BUCKET_COUNT
  {
    !round.faults[b].RequestLost? && round.Cutoff(b) >= score
  }

  /** Between the round's polls nobody registers a connection. Time passes, other servers remove
      connections and poll the buckets as well. */
  predicate Undisturbed(round: Round) {
    round.Complete() && forall b :: 0 <= b < |round.others| ==> NoRegistration(round.others[b])
  }

  predicate NoPoll(steps: seq<Step>) {
    forall i :: 0 <= i < |steps| ==> !steps[i].Poll?
  }

  /** Moreover nobody else polls, and no poll that arrives has a cutoff before `cutoff`. */
  predicate Alone(round: Round, cutoff: int) {
    && Undisturbed(round)
    && (forall b :: 0 <= b < |round.others| ==> NoPoll(round.others[b]))
    && (forall b :: 0 <= b < |round.faults| ==> round.faults[b].RequestLost? || round.Cutoff(b) >= cutoff)
  }

  predicate AllUndisturbed(rounds: seq<Round>) {
    forall k :: 0 <= k < |rounds| ==> Undisturbed(rounds[k])
  }

  predicate AllAlone(rounds: seq<Round>, cutoff: int) {
    forall k :: 0 <= k < |rounds| ==> Alone(rounds[k], cutoff)
  }

  /** How many of the first `n` rounds reach the bucket. */
  function Reaching(rounds: seq<Round>, n: nat, b: nat, cutoff: int): nat
    requires n <= |rounds| && AllComplete(rounds) && b < USER_ROUTE_BUCKET_COUNT
  {
    if n == 0 then 0
    else Reaching(rounds, n - 1, b, cutoff) + if ReachesBucket(rounds[n - 1], b, cutoff) then 1 else 0
  }

  lemma {:induction false} NoPollsCounted(steps: seq<Step>, b: nat, cutoff: int)
    requires NoPoll(steps)
    ensures CountPolls(steps, b, USER_ROUTE_POLL_LIMIT, cutoff) == 0
    ensures PollsAt(steps, USER_ROUTE_POLL_LIMIT, cutoff)
  {
    if steps != [] {
      NoPollsCounted(steps[..|steps| - 1], b, cutoff);
    }
  }

  lemma {:induction false} SweepStepCounted(round: Round, p: nat, b: nat, cutoff: int)
    requires round.Complete() && p < USER_ROUTE_BUCKET_COUNT
    ensures CountPolls([SweepStep(round, p)], b, USER_ROUTE_POLL_LIMIT, cutoff)
            == if p == b && ReachesBucket(round, b, cutoff) then 1 else 0
    ensures NoRegistration([SweepStep(round, p)])
    ensures round.faults[p].RequestLost? || round.Cutoff(p) >= cutoff ==>
              PollsAt([SweepStep(round, p)], USER_ROUTE_POLL_LIMIT, cutoff)
  {
    var one := [SweepStep(round, p)];
    assert one[..0] == [];
  }

  lemma NoRegistrationAppend(x: seq<Step>, y: seq<Step>, cutoff: int)
    ensures NoRegistration(x) && NoRegistration(y) ==> NoRegistration(x + y)
    ensures PollsAt(x, USER_ROUTE_POLL_LIMIT, cutoff) && PollsAt(y, USER_ROUTE_POLL_LIMIT, cutoff) ==>
              PollsAt(x + y, USER_ROUTE_POLL_LIMIT, cutoff)
  {
    hide PollAt;
  }

  /** What a round's first `n` buckets contribute to the polls of bucket `b` past the cutoff. */
  lemma {:induction false} RoundPolls(round: Round, n: nat, b: nat, cutoff: int)
    requires Undisturbed(round) && n <= USER_ROUTE_BUCKET_COUNT && b < USER_ROUTE_BUCKET_COUNT
    ensures var steps, own := RoundSteps(round, n), if b < n && ReachesBucket(round, b, cutoff) then 1 else 0;
            && NoRegistration(steps)
            && CountPolls(steps, b, USER_ROUTE_POLL_LIMIT, cutoff) >= own
            && (Alone(round, cutoff) ==>
                  PollsAt(steps, USER_ROUTE_POLL_LIMIT, cutoff)
                  && CountPolls(steps, b, USER_ROUTE_POLL_LIMIT, cutoff) == own)
  {
    if n > 0 {
      var x, others, own := RoundSteps(round, n - 1), round.others[n - 1], [SweepStep(round, n - 1)];
      RoundPolls(round, n - 1, b, cutoff);
      SweepStepCounted(round, n - 1, b, cutoff);
      if NoPoll(others) { NoPollsCounted(others, b, cutoff); }
      assert RoundSteps(round, n) == x + others + own;
      assert NoRegistration(others) && (Alone(round, cutoff) ==> NoPoll(others));
      assert Alone(round, cutoff) ==> round.faults[n - 1].RequestLost? || round.Cutoff(n - 1) >= cutoff;
      hide CountPolls, PollsAt, NoPoll, NoRegistration, SweepStep, ReachesBucket, RoundSteps, Alone, Undisturbed;
      CountAppend(x, others, b, USER_ROUTE_POLL_LIMIT, cutoff);
      CountAppend(x + others, own, b, USER_ROUTE_POLL_LIMIT, cutoff);
      NoRegistrationAppend(x, others, cutoff);
      NoRegistrationAppend(x + others, own, cutoff);
    } else {
      NoPollsCounted([], b, cutoff);
    }
  }

  lemma {:induction false} RoundsPoll(rounds: seq<Round>, n: nat, b: nat, cutoff: int)
    requires n <= |rounds| && AllComplete(rounds) && AllUndisturbed(rounds) && b < USER_ROUTE_BUCKET_COUNT
    ensures var steps, own := AllRounds(rounds, n), Reaching(rounds, n, b, cutoff);
            && NoRegistration(steps)
            && CountPolls(steps, b, USER_ROUTE_POLL_LIMIT, cutoff) >= own
            && (AllAlone(rounds, cutoff) ==>
                  PollsAt(steps, USER_ROUTE_POLL_LIMIT, cutoff)
                  && CountPolls(steps, b, USER_ROUTE_POLL_LIMIT, cutoff) == own)
  {
    if n > 0 {
      RoundsPoll(rounds, n - 1, b, cutoff);
      RoundPolls(rounds[n - 1], USER_ROUTE_BUCKET_COUNT, b, cutoff);
      hide CountPolls, PollsAt, NoRegistration, ReachesBucket, RoundSteps, Alone, Undisturbed, AllComplete;
      var x, y := AllRounds(rounds, n - 1), RoundSteps(rounds[n - 1], USER_ROUTE_BUCKET_COUNT);
      CountAppend(x, y, b, USER_ROUTE_POLL_LIMIT, cutoff);
      NoRegistrationAppend(x, y, cutoff);
    } else {
      NoPollsCounted([], b, cutoff);
    }
  }

  /** No bucket has more due users than the rounds that reach it can take. */
  ghost predicate RoundsSuffice(dep: Deployment, index: seq<Entry>, rounds: seq<Round>, cutoff: int)
    requires AllComplete(rounds)
  {
    forall b: nat :: b < USER_ROUTE_BUCKET_COUNT ==>
      |Due(dep, index, cutoff, b)| <= Reaching(rounds, |rounds|, b, cutoff) * 128
  }

  lemma {:induction false} SufficeIsEnough(dep: Deployment, index: seq<Entry>, rounds: seq<Round>, cutoff: int)
    requires AllComplete(rounds) && AllUndisturbed(rounds)
    ensures var all := AllRounds(rounds, |rounds|);
            && NoRegistration(all)
            && (RoundsSuffice(dep, index, rounds, cutoff) ==>
                  EnoughPolls(dep, index, all, USER_ROUTE_POLL_LIMIT, cutoff))
            && (AllAlone(rounds, cutoff) ==> PollsAt(all, USER_ROUTE_POLL_LIMIT, cutoff))
            && (AllAlone(rounds, cutoff) && EnoughPolls(dep, index, all, USER_ROUTE_POLL_LIMIT, cutoff) ==>
                  RoundsSuffice(dep, index, rounds, cutoff))
  {
    var all := AllRounds(rounds, |rounds|);
    RoundsPoll(rounds, |rounds|, 0, cutoff);
    hide CountPolls, Due, Reaching, AllRounds, AllComplete, AllUndisturbed, PollsAt, NoRegistration, AllAlone;
    forall b: nat | b < USER_ROUTE_BUCKET_COUNT
      ensures var due := |Due(dep, index, cutoff, b)|;
              && (due <= Reaching(rounds, |rounds|, b, cutoff) * 128 ==>
                    EnoughFor(dep, index, all, USER_ROUTE_POLL_LIMIT, cutoff, b))
              && (AllAlone(rounds, cutoff) && EnoughFor(dep, index, all, USER_ROUTE_POLL_LIMIT, cutoff, b) ==>
                    due <= Reaching(rounds, |rounds|, b, cutoff) * 128)
    {
      RoundsPoll(rounds, |rounds|, b, cutoff);
    }
    hide EnoughFor;
  }

  /** The poller drains the registry, each poll by its own clock reading, while time passes, other
      servers remove connections and poll as well, and calls get lost. After the rounds nobody who
      was due at `cutoff` is left if those reaching each bucket with a cutoff at or past `cutoff`
      have room for its due users, 128 each; and only if, when nobody else polls. Nobody due is
      left exactly when those taken from among the due are a permutation of what one unlimited
      poll of the unsharded index takes; and the index left is that of the users not taken. */
  lemma {:induction false} RoundsDrain(dep: Deployment, steps: seq<Step>, rounds: seq<Round>, cutoff: int)
    requires AllComplete(rounds) && AllUndisturbed(rounds)
    ensures var index, all := FlatRun(dep, steps).index, AllRounds(rounds, |rounds|);
            var (db', out) := Replay(dep, Run(dep, steps), all);
            && db' == Run(dep, steps + all)
            && SameIndex(dep, db', Except(index, out))
            && (RoundsSuffice(dep, index, rounds, cutoff) ==> AllAnswerEmpty(db', USER_ROUTE_POLL_LIMIT, cutoff))
            && (AllAlone(rounds, cutoff) && AllAnswerEmpty(db', USER_ROUTE_POLL_LIMIT, cutoff) ==>
                  RoundsSuffice(dep, index, rounds, cutoff))
            && (AllAnswerEmpty(db', USER_ROUTE_POLL_LIMIT, cutoff) <==>
                multiset(DueUsers(dep, Run(dep, steps), out, cutoff)) == multiset(Members(Polled(index, cutoff, 0))))
  {
    var index, all := FlatRun(dep, steps).index, AllRounds(rounds, |rounds|);
    ShardingRefinesOneRegistry(dep, steps);
    hide Run, FlatRun, SameIndex, AllRounds, AllComplete, AllUndisturbed, SameRoutes;
    ReplayIsRun(dep, steps, all);
    SufficeIsEnough(dep, index, rounds, cutoff);
    hide *;
    LimitedPollsDrain(dep, Run(dep, steps), index, all, USER_ROUTE_POLL_LIMIT, cutoff);
  }

  // ----- Sweeps serve waiting users -----

  /** A round in a run: bucket `b` is polled at step `at[b]`. */
  datatype Visit = Visit(round: Round, at: seq<nat>)

  /** The run holds the round's polls at these places, in bucket order, from step `from` on. Any
      other steps may stand between them, those of other sweeps included. */
  ghost predicate Takes(steps: seq<Step>, from: nat, visit: Visit) {
    && visit.round.Complete()
    && |visit.at| == USER_ROUTE_BUCKET_COUNT
    && (forall b, d :: 0 <= b < d < USER_ROUTE_BUCKET_COUNT ==> visit.at[b] < visit.at[d])
    && (forall b :: 0 <= b < USER_ROUTE_BUCKET_COUNT ==>
          from <= visit.at[b] < |steps| && steps[visit.at[b]] == SweepStep(visit.round, b))
  }

  /** The places of a round that the sweep method runs after `offset` steps. */
  function Places(round: Round, offset: nat): seq<nat>
    requires round.Complete()
  {
    seq(USER_ROUTE_BUCKET_COUNT, b requires 0 <= b < USER_ROUTE_BUCKET_COUNT =>
      offset + |RoundSteps(round, b)| + |round.others[b]|)
  }

  lemma {:induction false} RoundStepsPrefix(round: Round, n: nat, m: nat)
    requires round.Complete() && n <= m <= USER_ROUTE_BUCKET_COUNT
    ensures |RoundSteps(round, n)| <= |RoundSteps(round, m)|
    ensures RoundSteps(round, n) == RoundSteps(round, m)[..|RoundSteps(round, n)|]
  {
    hide SweepStep;
    if n < m {
      RoundStepsPrefix(round, n, m - 1);
    } else {
      assert RoundSteps(round, n) == RoundSteps(round, m)[..|RoundSteps(round, m)|];
    }
  }

  lemma PlaceOfPoll(round: Round, b: nat)
    requires round.Complete() && b < USER_ROUTE_BUCKET_COUNT
    ensures var at := |RoundSteps(round, b)| + |round.others[b]|;
            && at < |RoundSteps(round, b + 1)| <= |RoundSteps(round, USER_ROUTE_BUCKET_COUNT)|
            && RoundSteps(round, USER_ROUTE_BUCKET_COUNT)[at] == SweepStep(round, b)
  {
    var at := |RoundSteps(round, b)| + |round.others[b]|;
    RoundStepsPrefix(round, b + 1, USER_ROUTE_BUCKET_COUNT);
    hide SweepStep;
    assert RoundSteps(round, b + 1)[at] == SweepStep(round, b);
  }

  /** A sweep of the app is such a round, wherever in a run it stands. */
  lemma {:induction false} SweepIsVisit(pre: seq<Step>, round: Round, post: seq<Step>)
    requires round.Complete()
    ensures Takes(pre + RoundSteps(round, USER_ROUTE_BUCKET_COUNT) + post, |pre|, Visit(round, Places(round, |pre|)))
  {
    var mid := RoundSteps(round, USER_ROUTE_BUCKET_COUNT);
    var at := Places(round, |pre|);
    hide SweepStep;
    forall b | 0 <= b < USER_ROUTE_BUCKET_COUNT
      ensures |pre| <= at[b] < |pre| + |mid| && (pre + mid + post)[at[b]] == SweepStep(round, b)
      ensures forall d :: b < d < USER_ROUTE_BUCKET_COUNT ==> at[b] < at[d]
    {
      PlaceOfPoll(round, b);
      forall d | b < d < USER_ROUTE_BUCKET_COUNT ensures at[b] < at[d] {
        RoundStepsPrefix(round, b + 1, d);
      }
    }
  }

  /** The polls of one bucket in a list of rounds, all different. */
  ghost predicate VisitsReach(dep: Deployment, steps: seq<Step>, from: nat, visits: seq<Visit>, u: string, score: int) {
    var b := dep.BucketOf(u);
    && (forall k :: 0 <= k < |visits| ==> Takes(steps, from, visits[k]) && ReachesBucket(visits[k].round, b, score))
    && Distinct(visits, b)
  }

  ghost predicate Distinct(visits: seq<Visit>, b: nat) {
    forall k, l :: 0 <= k < l < |visits| ==>
      b < |visits[k].at| && b < |visits[l].at| && visits[k].at[b] != visits[l].at[b]
  }

  function Elements(s: seq<nat>): set<nat> {
    set x | x in s
  }

  lemma {:induction false} DistinctPlaces(s: seq<nat>)
    requires forall k, l :: 0 <= k < l < |s| ==> s[k] != s[l]
    ensures |Elements(s)| == |s|
  {
    if s != [] {
      DistinctPlaces(s[1..]);
      assert s == [s[0]] + s[1..];
      assert Elements(s) == {s[0]} + Elements(s[1..]);
    }
  }

  /** The polls a run holds up to step `last` all count toward the end of the wait. */
  lemma VisitsQualify(dep: Deployment, steps: seq<Step>, from: nat, visits: seq<Visit>, u: string, score: int,
                      last: nat)
    requires from <= last < |steps| && VisitsReach(dep, steps, from, visits, u, score)
    requires forall k :: 0 <= k < |visits| ==> visits[k].at[dep.BucketOf(u)] <= last
    ensures Qualifying(dep, steps[..last + 1][from..], u, score, USER_ROUTE_POLL_LIMIT) >= |visits|
  {
    var b, cut := dep.BucketOf(u), steps[..last + 1][from..];
    forall k | 0 <= k < |visits|
      ensures from <= visits[k].at[b] <= last
      ensures Qualifies(dep, steps[visits[k].at[b]], u, score, USER_ROUTE_POLL_LIMIT)
    {
      VisitQualifies(dep, steps, from, visits[k], u, score);
    }
    hide Qualifies, Qualifying, Takes, ReachesBucket;
    var places: seq<nat> := seq(|visits|, k requires 0 <= k < |visits| => visits[k].at[b] - from);
    DistinctPlaces(places);
    hide VisitsReach, Distinct;
    forall i | i in Elements(places)
      ensures i < |cut| && Qualifies(dep, cut[i], u, score, USER_ROUTE_POLL_LIMIT)
    {
      var k :| 0 <= k < |visits| && places[k] == i;
      assert cut[i] == steps[visits[k].at[b]];
    }
    QualifyingAtLeast(dep, cut, Elements(places), u, score, USER_ROUTE_POLL_LIMIT);
  }

  lemma VisitQualifies(dep: Deployment, steps: seq<Step>, from: nat, visit: Visit, u: string, score: int)
    requires Takes(steps, from, visit) && ReachesBucket(visit.round, dep.BucketOf(u), score)
    ensures Qualifies(dep, steps[visit.at[dep.BucketOf(u)]], u, score, USER_ROUTE_POLL_LIMIT)
  {
  }

  /** The sweeps serve every waiting user. With `r` entries ahead of a user whose score Redis time
      has reached, any run that holds `r / 128 + 1` rounds, of whichever servers, amid any other
      steps, ends the wait, if their polls of the bucket reach Redis with a late enough cutoff. */
  lemma {:induction false} SweepsServe(dep: Deployment, steps: seq<Step>, from: nat, skew: nat, visits: seq<Visit>,
                                       u: string, score: int)
    requires LegalRun(steps) && SkewBound(dep, steps, skew) && Clean(u)
    requires skew < dep.routeTTL / MILLISECOND
    requires from <= |steps|
    requires ScoreIn(dep, Run(dep, steps[..from]), u) == Some(score)
    requires TimeOf(dep, steps, from) >= score
    requires VisitsReach(dep, steps, from, visits, u, score)
    requires |visits| >= AheadIn(dep, Run(dep, steps[..from]), u) / USER_ROUTE_POLL_LIMIT + 1
    ensures exists i, fate :: from <= i < |steps| && Meets(dep, steps, i, u, fate)
  {
    assert Takes(steps, from, visits[0]) && from <= visits[0].at[dep.BucketOf(u)] < |steps|;
    assert forall k :: 0 <= k < |visits| ==> visits[k].at[dep.BucketOf(u)] <= |steps| - 1;
    hide *;
    assert steps[..|steps|] == steps;
    VisitsQualify(dep, steps, from, visits, u, score, |steps| - 1);
    NoStarvation(dep, steps, from, skew, u, score, USER_ROUTE_POLL_LIMIT);
  }

  // ----- A bound in Redis time -----

  /** Redis time at the round's poll of bucket `b`. */
  function PollTime(dep: Deployment, steps: seq<Step>, visit: Visit, b: nat): int {
    if b < |visit.at| && visit.at[b] <= |steps| then TimeOf(dep, steps, visit.at[b]) else 0
  }

  /** The round's poll reaches Redis, by a clock that lags Redis by at most `lag`. */
  ghost predicate Timely(dep: Deployment, steps: seq<Step>, from: nat, visit: Visit, b: nat, lag: int) {
    && Takes(steps, from, visit)
    && b < USER_ROUTE_BUCKET_COUNT
    && ReachesBucket(visit.round, b, PollTime(dep, steps, visit, b) - lag)
  }

  /** The rounds come one after the other and at most `pace` milliseconds of Redis time apart, the
      first one at most that long after `start`. */
  ghost predicate OnTime(dep: Deployment, steps: seq<Step>, from: nat, visits: seq<Visit>, b: nat,
                         start: int, pace: nat, lag: int)
  {
    && (forall k :: 0 <= k < |visits| ==> Timely(dep, steps, from, visits[k], b, lag))
    && (forall k, l :: 0 <= k < l < |visits| ==>
          b < |visits[k].at| && b < |visits[l].at| && visits[k].at[b] < visits[l].at[b])
    && (forall k :: 0 <= k < |visits| ==> InPace(dep, steps, visits, b, start, pace, k))
  }

  /** The round's poll follows the one before it, or `start`, by at most `pace`. */
  ghost predicate InPace(dep: Deployment, steps: seq<Step>, visits: seq<Visit>, b: nat, start: int, pace: nat, k: nat)
    requires k < |visits|
  {
    var before := if k == 0 then start else PollTime(dep, steps, visits[k - 1], b);
    PollTime(dep, steps, visits[k], b) <= before + pace
  }

  lemma {:induction false} PaceAddsUp(dep: Deployment, steps: seq<Step>, from: nat, visits: seq<Visit>,
                                      b: nat, start: int, pace: nat, lag: int, k: nat)
    requires OnTime(dep, steps, from, visits, b, start, pace, lag) && k < |visits|
    ensures PollTime(dep, steps, visits[k], b) <= start + (k + 1) * pace
  {
    hide TimeOf, PollTime, Timely;
    assert InPace(dep, steps, visits, b, start, pace, k);
    if k > 0 {
      PaceAddsUp(dep, steps, from, visits, b, start, pace, lag, k - 1);
      hide *;
      assert (k + 1) * pace == k * pace + pace;
    }
  }

  /** Rounds on time reach the bucket late enough, and all of them by the last one's poll. */
  lemma TimelyVisitsReach(dep: Deployment, steps: seq<Step>, from: nat, visits: seq<Visit>,
                          u: string, score: int, start: int, pace: nat, lag: nat, last: nat)
    requires from <= |steps| && visits != [] && TimeOf(dep, steps, from) >= score + lag
    requires OnTime(dep, steps, from, visits, dep.BucketOf(u), start, pace, lag)
    requires Takes(steps, from, visits[|visits| - 1]) && last == visits[|visits| - 1].at[dep.BucketOf(u)]
    ensures VisitsReach(dep, steps, from, visits, u, score)
    ensures forall k :: 0 <= k < |visits| ==> visits[k].at[dep.BucketOf(u)] <= last
  {
    var b := dep.BucketOf(u);
    forall k | 0 <= k < |visits|
      ensures Takes(steps, from, visits[k]) && visits[k].at[b] <= last && ReachesBucket(visits[k].round, b, score)
    {
      assert Timely(dep, steps, from, visits[k], b, lag);
      ClockBetween(dep, steps, from, visits[k].at[b]);
      hide Run, OnTime;
    }
  }

  /** Served in time. If Redis time has reached a user's score plus the poller's lag, and sweeps
      follow `start` and each other at most `pace` apart, the wait ends within
      `(r / 128 + 1) * pace` of `start`. */
  lemma {:induction false} ServedInTime(dep: Deployment, steps: seq<Step>, from: nat, skew: nat, visits: seq<Visit>,
                     u: string, score: int, start: int, pace: nat, lag: nat)
    requires LegalRun(steps) && SkewBound(dep, steps, skew) && Clean(u)
    requires skew < dep.routeTTL / MILLISECOND
    requires from <= |steps|
    requires ScoreIn(dep, Run(dep, steps[..from]), u) == Some(score)
    requires TimeOf(dep, steps, from) >= score + lag
    requires OnTime(dep, steps, from, visits, dep.BucketOf(u), start, pace, lag)
    requires |visits| == AheadIn(dep, Run(dep, steps[..from]), u) / USER_ROUTE_POLL_LIMIT + 1
    ensures exists i, fate :: from <= i < |steps| && Meets(dep, steps, i, u, fate)
                              && TimeOf(dep, steps, i) <= start + |visits| * pace
  {
    var b, n := dep.BucketOf(u), |visits| - 1;
    assert Timely(dep, steps, from, visits[n], b, lag);
    var last: nat := visits[n].at[b];
    assert PollTime(dep, steps, visits[n], b) == TimeOf(dep, steps, last);
    hide Run, ScoreIn, AheadIn, Qualifying, Served, Meets, Timely, PollTime, LegalRun, SkewBound, TimeOf;
    TimelyVisitsReach(dep, steps, from, visits, u, score, start, pace, lag, last);
    VisitsQualify(dep, steps, from, visits, u, score, last);
    PaceAddsUp(dep, steps, from, visits, b, start, pace, lag, n);
    var i, fate := WaitEndsBy(dep, steps, from, skew, u, score, USER_ROUTE_POLL_LIMIT, last);
    assert |visits| * pace == (n + 1) * pace;
  }

  // ----- From a registration to what follows it -----

  /** When the pollers must have noticed that a registration was not refreshed. */
  function DueBy(dep: Deployment, register: Step, lag: nat): int
    requires register.Register?
  {
    dep.ExpireScore(register.now) + lag
  }

  lemma FirstPollInTime(dep: Deployment, steps: seq<Step>, from: nat, visits: seq<Visit>, b: nat,
                        start: int, pace: nat, lag: nat)
    requires from <= |steps| && visits != [] && OnTime(dep, steps, from, visits, b, start, pace, lag)
    ensures TimeOf(dep, steps, from) <= start + |visits| * pace
  {
    assert Timely(dep, steps, from, visits[0], b, lag);
    assert InPace(dep, steps, visits, b, start, pace, 0);
    ClockBetween(dep, steps, from, visits[0].at[b]);
    hide Run, OnTime, Timely, InPace;
    assert |visits| * pace >= pace;
  }

  /** Every registration is followed, within its score plus the poller's lag plus
      `(r / 128 + 1) * pace`, by another registration of the user or by a poll that takes the user,
      if the run goes on that long with sweeps at most `pace` apart; `r` counts the users ahead when
      the score plus the lag has passed. */
  lemma {:induction false} RegistrationIsFollowed(dep: Deployment, steps: seq<Step>, j: nat, from: nat, skew: nat,
                                                  visits: seq<Visit>, u: string, pace: nat, lag: nat)
    requires LegalRun(steps) && SkewBound(dep, steps, skew) && Clean(u)
    requires skew < dep.routeTTL / MILLISECOND
    requires j < from <= |steps| && RegistersUser(dep, steps[j], u)
    requires TimeOf(dep, steps, from) >= DueBy(dep, steps[j], lag)
    requires OnTime(dep, steps, from, visits, dep.BucketOf(u), DueBy(dep, steps[j], lag), pace, lag)
    requires |visits| == AheadIn(dep, Run(dep, steps[..from]), u) / USER_ROUTE_POLL_LIMIT + 1
    ensures exists i, fate :: j < i < |steps| && Meets(dep, steps, i, u, fate)
                              && TimeOf(dep, steps, i) <= DueBy(dep, steps[j], lag) + |visits| * pace
  {
    var score, start := dep.ExpireScore(steps[j].now), DueBy(dep, steps[j], lag);
    hide Run, ScoreIn, AheadIn, Served, Meets, LegalRun, SkewBound, OnTime, Deployment.ExpireScore;
    if Served(dep, steps[..from], j + 1, u) {
      var i, fate := ServedMeetsFate(dep, steps[..from], j + 1, u);
      CutAgrees(dep, steps, from, i, u, fate);
      ClockBetween(dep, steps, i, from);
      FirstPollInTime(dep, steps, from, visits, dep.BucketOf(u), start, pace, lag);
    } else {
      PrefixLegal(dep, steps, from, skew);
      assert steps[..from][j] == steps[j];
      ScoreKept(dep, steps[..from], j, u);
      hide TimeOf, RegistersUser;
      ServedInTime(dep, steps, from, skew, visits, u, score, start, pace, lag);
    }
  }

  /** With the poller's own interval. Suppose a round comes at most one interval and `delay` after
      a user's score plus the lag, fewer than 128 users are ahead, and the TTL is at least two
      seconds. Then a user whose last registration stays unrefreshed is taken by a poll within one
      and a half TTLs of the registering server's clock reading, plus the lag and the delay. */
  lemma {:induction false} AbandonedUserIsTaken(dep: Deployment, app: App, steps: seq<Step>, j: nat, from: nat,
                                                skew: nat, visits: seq<Visit>, u: string, pace: nat, lag: nat,
                                                delay: nat)
    requires LegalRun(steps) && SkewBound(dep, steps, skew) && Clean(u)
    requires skew < dep.routeTTL / MILLISECOND
    requires app.redisRouteTTL == dep.routeTTL >= 2 * SECOND
    requires pace == app.UserRoutePollInterval() / MILLISECOND + delay
    requires j < from <= |steps| && RegistersUser(dep, steps[j], u)
    requires forall i :: j < i < |steps| ==> !RegistersUser(dep, steps[i], u)
    requires TimeOf(dep, steps, from) >= DueBy(dep, steps[j], lag)
    requires |visits| == 1 && OnTime(dep, steps, from, visits, dep.BucketOf(u), DueBy(dep, steps[j], lag), pace, lag)
    requires AheadIn(dep, Run(dep, steps[..from]), u) < 128
    ensures exists i :: && j < i < |steps| && u in Returned(dep, Run(dep, steps[..i]), steps[i])
                        && 2 * TimeOf(dep, steps, i)
                           <= 2 * (steps[j].now / MILLISECOND + 1) + 3 * (dep.routeTTL / MILLISECOND)
                              + 2 * (lag + delay)
  {
    DueWithin(dep, app, steps[j], lag, delay);
    hide Run, ScoreIn, AheadIn, Meets, LegalRun, SkewBound, OnTime, DueBy, TimeOf, RegistersUser, Returned,
      Deployment.BucketOf, Deployment.ExpireScore, App.UserRoutePollInterval;
    var i := FollowedByPoll(dep, steps, j, from, skew, visits, u, pace, lag);
  }

  /** One round suffices for fewer than 128 users ahead. */
  lemma FollowedByPoll(dep: Deployment, steps: seq<Step>, j: nat, from: nat, skew: nat, visits: seq<Visit>,
                       u: string, pace: nat, lag: nat) returns (i: nat)
    requires LegalRun(steps) && SkewBound(dep, steps, skew) && Clean(u)
    requires skew < dep.routeTTL / MILLISECOND
    requires j < from <= |steps| && RegistersUser(dep, steps[j], u)
    requires forall i :: j < i < |steps| ==> !RegistersUser(dep, steps[i], u)
    requires TimeOf(dep, steps, from) >= DueBy(dep, steps[j], lag)
    requires |visits| == 1 && OnTime(dep, steps, from, visits, dep.BucketOf(u), DueBy(dep, steps[j], lag), pace, lag)
    requires AheadIn(dep, Run(dep, steps[..from]), u) < USER_ROUTE_POLL_LIMIT
    ensures j < i < |steps| && u in Returned(dep, Run(dep, steps[..i]), steps[i])
    ensures TimeOf(dep, steps, i) <= DueBy(dep, steps[j], lag) + pace
  {
    assert steps[j].Register?;
    hide Run, ScoreIn, AheadIn, Meets, LegalRun, SkewBound, OnTime, DueBy, TimeOf, RegistersUser, Returned,
      Deployment.BucketOf, Deployment.ExpireScore;
    RegistrationIsFollowed(dep, steps, j, from, skew, visits, u, pace, lag);
    var k, fate :| j < k < |steps| && Meets(dep, steps, k, u, fate)
                   && TimeOf(dep, steps, k) <= DueBy(dep, steps[j], lag) + |visits| * pace;
    i := k;
    MetButNotRegistered(dep, steps, i, u, fate);
  }

  lemma DueWithin(dep: Deployment, app: App, register: Step, lag: nat, delay: nat)
    requires register.Register? && app.redisRouteTTL == dep.routeTTL >= 2 * SECOND
    ensures var pace := app.UserRoutePollInterval() / MILLISECOND + delay;
            && pace >= 0
            && 2 * (DueBy(dep, register, lag) + pace)
               <= 2 * (register.now / MILLISECOND + 1) + 3 * (dep.routeTTL / MILLISECOND) + 2 * (lag + delay)
  {
    IntervalIsHalf(app);
    ScoreIsATtlAhead(dep, register.now);
    hide App.UserRoutePollInterval, Deployment.ExpireScore;
  }

  lemma IntervalIsHalf(app: App)
    requires app.redisRouteTTL >= 2 * SECOND
    ensures 0 <= 2 * (app.UserRoutePollInterval() / MILLISECOND) <= app.redisRouteTTL / MILLISECOND
  {
  }

  lemma ScoreIsATtlAhead(dep: Deployment, now: int)
    ensures dep.ExpireScore(now) <= now / MILLISECOND + dep.routeTTL / MILLISECOND + 1
  {
  }

  lemma {:induction false} MetButNotRegistered(dep: Deployment, steps: seq<Step>, i: int, u: string, fate: Fate)
    requires Meets(dep, steps, i, u, fate) && !RegistersUser(dep, steps[i], u)
    ensures u in Returned(dep, Run(dep, steps[..i]), steps[i])
  {
    hide Run, Returned;
  }
}
