/** The index of a bucket never forgets a user whose routes still run, over every run of any
    number of servers whose clocks lag Redis by at most `skew` milliseconds. */
module RouteLease {
  import opened Units
  import opened Wrappers
  import opened Text
  import opened SortedSet
  import opened RouteKeys
  import opened RouteDb
  import opened RouteHistory

  /** Every registration carries a clock reading at most `skew` milliseconds behind Redis time. */
  ghost predicate SkewBound(dep: Deployment, steps: seq<Step>, skew: nat) {
    forall i :: 0 <= i < |steps| && steps[i].Register? ==> steps[i].now / MILLISECOND >= TimeOf(dep, steps, i) - skew
  }

  /** Step `i` handed the user out with a cutoff of at least `due`, and the user has not
      registered since. */
  ghost predicate HandedOut(dep: Deployment, steps: seq<Step>, i: int, u: string, due: int) {
    && 0 <= i < |steps|
    && steps[i].Poll?
    && u in Returned(dep, Run(dep, steps[..i]), steps[i])
    && steps[i].cutoff >= due
    && forall j :: i < j < |steps| ==> !RegistersUser(dep, steps[j], u)
  }

  /** Something will still hand the user out no earlier than `due`, or has done so already. */
  ghost predicate Covered(dep: Deployment, steps: seq<Step>, u: string, due: int) {
    match ScoreIn(dep, Run(dep, steps), u)
    case Some(score) => score >= due
    case None => exists i :: HandedOut(dep, steps, i, u, due)
  }

  /** The milliseconds of the TTL that the score keeps and the whole-second lease drops. */
  function Margin(dep: Deployment): int {
    dep.routeTTL / MILLISECOND - LeaseMillis(dep)
  }

  /** Whole seconds in the lease against milliseconds in the score: the score lies past the
      lease by the margin, give or take the fraction of a millisecond the two readings carry. */
  lemma ScoreOutlastsLease(dep: Deployment, now: int)
    requires dep.TtlSeconds() > 0
    ensures 0 <= Margin(dep) < 1000
    ensures 0 <= dep.ExpireScore(now) - (now / MILLISECOND + LeaseMillis(dep) + Margin(dep)) <= 1
  {
    var ttl := dep.routeTTL;
    SecondsInMillis(ttl);
    var a, b := now / MILLISECOND, ttl / MILLISECOND;
    assert (a + b) * MILLISECOND <= now + ttl < (a + b + 2) * MILLISECOND;
  }

  lemma SecondsInMillis(ttl: int)
    requires ttl >= 0
    ensures 0 <= ttl / MILLISECOND - ttl / SECOND * 1000 < 1000
  {
    var q, r := ttl / SECOND, ttl % SECOND;
    assert ttl == (q * 1000) * MILLISECOND + r;
    assert ttl / MILLISECOND == q * 1000 + r / MILLISECOND;
  }

  lemma {:induction false} SkewBoundPrefix(dep: Deployment, pre: seq<Step>, step: Step, skew: nat)
    requires SkewBound(dep, pre + [step], skew)
    ensures SkewBound(dep, pre, skew)
    ensures step.Register? ==> step.now / MILLISECOND >= Run(dep, pre).clock - skew
  {
    var all := pre + [step];
    forall i | 0 <= i < |pre| && pre[i].Register?
      ensures pre[i].now / MILLISECOND >= TimeOf(dep, pre, i) - skew
    {
      assert all[i] == pre[i] && all[..i] == pre[..i];
    }
    assert all[|pre|] == step && all[..|pre|] == pre;
  }

  lemma HandedOutCarries(dep: Deployment, pre: seq<Step>, step: Step, i: int, u: string, due: int)
    requires HandedOut(dep, pre, i, u, due) && !RegistersUser(dep, step, u)
    ensures HandedOut(dep, pre + [step], i, u, due)
  {
    var all := pre + [step];
    assert forall j :: 0 <= j < |pre| ==> all[j] == pre[j];
    assert all[..i] == pre[..i];
  }

  lemma CoveredCarries(dep: Deployment, pre: seq<Step>, step: Step, u: string, due: int)
    requires LegalRun(pre) && Clean(u) && !RegistersUser(dep, step, u)
    requires Covered(dep, pre, u, due)
    ensures Covered(dep, pre + [step], u, due)
  {
    var all, db := pre + [step], Run(dep, pre);
    RunPlaced(dep, pre);
    RunSnoc(dep, pre, step);
    ScoreEffect(dep, db, step, u);
    hide Apply, Returned, RegistersUser;
    if u in Returned(dep, db, step) {
      assert all[|pre|] == step && all[..|pre|] == pre;
      assert HandedOut(dep, all, |pre|, u, due);
    } else if ScoreIn(dep, db, u) == None {
      var i :| HandedOut(dep, pre, i, u, due);
      HandedOutCarries(dep, pre, step, i, u, due);
    }
  }

  lemma {:induction false} CoveredByRegistration(dep: Deployment, pre: seq<Step>, step: Step, u: string, skew: nat)
    requires LegalRun(pre) && Clean(u) && RegistersUser(dep, step, u)
    requires step.now / MILLISECOND >= Run(dep, pre).clock - skew
    ensures Covered(dep, pre + [step], u, Run(dep, pre).clock + LeaseMillis(dep) + Margin(dep) - skew)
  {
    RunPlaced(dep, pre);
    RunSnoc(dep, pre, step);
    ScoreEffect(dep, Run(dep, pre), step, u);
    ScoreOutlastsLease(dep, step.now);
  }

  lemma {:induction false} SafeAfterRegistration(dep: Deployment, pre: seq<Step>, step: Step, skew: nat, u: string,
                                                 c: string)
    requires LegalRun(pre) && Clean(u) && Clean(c) && RegistersUser(dep, step, u)
    requires step.now / MILLISECOND >= Run(dep, pre).clock - skew
    requires RouteOf(dep, Run(dep, pre + [step]), u, c).Some?
    ensures Covered(dep, pre + [step], u,
                    RouteOf(dep, Run(dep, pre + [step]), u, c).value.deadline + Margin(dep) - skew)
  {
    hide Apply, RouteOf, ScoreIn, Covered;
    CoveredByRegistration(dep, pre, step, u, skew);
    RunSnoc(dep, pre, step);
    RegisterKeepsClock(dep, Run(dep, pre), step);
    DeadlineBound(dep, pre + [step], u, c);
    CoveredWeakens(dep, pre + [step], u, Run(dep, pre).clock + LeaseMillis(dep) + Margin(dep) - skew,
                   RouteOf(dep, Run(dep, pre + [step]), u, c).value.deadline + Margin(dep) - skew);
  }

  /** Lease-index safety. A stored route with deadline `d` is backed by an index entry scored at
      least `d + margin - skew`; if the user is not indexed, a poll with at least that cutoff has
      handed the user out and nothing registered the user since. */
  lemma {:induction false} LeaseIndexSafety(dep: Deployment, steps: seq<Step>, skew: nat, u: string, c: string)
    requires LegalRun(steps) && SkewBound(dep, steps, skew) && Clean(u) && Clean(c)
    requires RouteOf(dep, Run(dep, steps), u, c).Some?
    ensures Covered(dep, steps, u, RouteOf(dep, Run(dep, steps), u, c).value.deadline + Margin(dep) - skew)
  {
    hide Apply, RouteOf, ScoreIn, Covered, SkewBound;
    if steps == [] {
      NoRouteAtStart(dep, u, c);
    } else {
      var n := |steps| - 1;
      var pre, step := steps[..n], steps[n];
      assert steps == pre + [step];
      SkewBoundPrefix(dep, pre, step, skew);
      RouteEffect(dep, Run(dep, pre), step, u, c);
      if RegistersUser(dep, step, u) {
        SafeAfterRegistration(dep, pre, step, skew, u, c);
      } else {
        LeaseIndexSafety(dep, pre, skew, u, c);
        CoveredCarries(dep, pre, step, u, RouteOf(dep, Run(dep, pre), u, c).value.deadline + Margin(dep) - skew);
      }
    }
  }

  lemma {:induction false} NoRouteAtStart(dep: Deployment, u: string, c: string)
    ensures RouteOf(dep, Run(dep, []), u, c) == None
  {
  }

  lemma CoveredWeakens(dep: Deployment, steps: seq<Step>, u: string, due: int, due': int)
    requires Covered(dep, steps, u, due) && due' <= due
    ensures Covered(dep, steps, u, due')
  {
    if ScoreIn(dep, Run(dep, steps), u) == None {
      var i :| HandedOut(dep, steps, i, u, due);
      assert HandedOut(dep, steps, i, u, due');
    }
  }

  /** A user who is handed out has no route that lives more than `skew` less the margin past
      the cutoff. */
  lemma {:induction false} HandedOutUserIsDone(dep: Deployment, steps: seq<Step>, poll: Step, skew: nat, u: string,
                                               c: string)
    requires LegalRun(steps) && SkewBound(dep, steps, skew) && Clean(u) && Clean(c)
    requires u in Returned(dep, Run(dep, steps), poll)
    requires RouteOf(dep, Run(dep, steps + [poll]), u, c).Some?
    ensures RouteOf(dep, Run(dep, steps + [poll]), u, c).value.deadline <= poll.cutoff + skew - Margin(dep)
  {
    hide Apply, RouteOf, ScoreIn, Placed, SkewBound;
    RunPlaced(dep, steps);
    RunSnoc(dep, steps, poll);
    RouteEffect(dep, Run(dep, steps), poll, u, c);
    ScoreEffect(dep, Run(dep, steps), poll, u);
    LeaseIndexSafety(dep, steps, skew, u, c);
  }

  /** After a run in which clocks lag at most `skew`, a poll with this limit and a cutoff `gap`
      milliseconds behind Redis time hands the user out. */
  ghost predicate HandsOut(dep: Deployment, steps: seq<Step>, poll: Step, u: string, skew: nat, gap: int, limit: int) {
    && LegalRun(steps) && SkewBound(dep, steps, skew) && Clean(u)
    && poll.Poll? && poll.limit == limit
    && Run(dep, steps).clock - poll.cutoff == gap
    && u in Returned(dep, Run(dep, steps), poll)
  }

  /** Such polls hand out only users without a listed connection, in every run. */
  ghost predicate HandsOutGoneUsers(dep: Deployment, skew: nat, gap: int, limit: int) {
    forall steps, poll, u :: HandsOut(dep, steps, poll, u, skew, gap, limit) ==>
                               Routes(dep, Run(dep, steps + [poll]), u) == map[]
  }

  /** One direction: a cutoff far enough behind Redis time. */
  lemma {:induction false} HandedOutUserIsGone(dep: Deployment, steps: seq<Step>, poll: Step, skew: nat, u: string)
    requires LegalRun(steps) && SkewBound(dep, steps, skew) && Clean(u)
    requires u in Returned(dep, Run(dep, steps), poll)
    requires Run(dep, steps).clock - poll.cutoff > skew - Margin(dep)
    ensures Routes(dep, Run(dep, steps + [poll]), u) == map[]
  {
    var after := Run(dep, steps + [poll]);
    RunSnoc(dep, steps, poll);
    PollKeepsClock(dep, Run(dep, steps), poll);
    StoredConnectionsClean(dep, steps + [poll], u);
    hide Run, Apply, LegalRun, SkewBound, Returned;
    forall c | c in Routes(dep, after, u) ensures false {
      HandedOutUserIsDone(dep, steps, poll, skew, u, c);
    }
  }

  lemma PollKeepsClock(dep: Deployment, db: Db, poll: Step)
    requires !poll.Tick?
    ensures Apply(dep, db, poll).clock == db.clock
  {
  }

  /** The other direction: a server whose clock lags by `skew` registers a connection, the lease
      runs to its last millisecond, and a poll at that moment with a cutoff `gap` behind hands the
      user out while the connection is listed. */
  lemma LaggingClockWitness(dep: Deployment, skew: nat, gap: int, limit: int, serverID: string, u: string, c: string)
    returns (steps: seq<Step>, poll: Step)
    requires dep.routeTTL >= SECOND && gap <= skew - Margin(dep)
    requires Clean(serverID) && Clean(u) && Clean(c)
    ensures HandsOut(dep, steps, poll, u, skew, gap, limit)
    ensures var routes := Routes(dep, Run(dep, steps + [poll]), u); c in routes && routes[c] == serverID
    ensures gap == skew - Margin(dep) ==>
              RouteOf(dep, Run(dep, steps + [poll]), u, c) == Some(Lease(serverID, poll.cutoff + skew - Margin(dep)))
  {
    steps := LaggingRun(dep, skew, serverID, u, c);
    poll := Poll(dep.BucketOf(u), limit, dep.epoch + LeaseMillis(dep) - gap, true);
    hide Apply, RouteOf, Returned, Run, SkewBound, LegalRun, Routes, ZSetAt, UserExpireKey, Clean, Margin, LeaseMillis,
      Deployment.ExpireKey;
    SoleUserIsHandedOut(dep, Run(dep, steps), poll, u);
    RunSnoc(dep, steps, poll);
    PollKeepsRoutes(dep, Run(dep, steps), poll, u, c);
    PollKeepsClock(dep, Run(dep, steps), poll);
    StillListed(dep, Run(dep, steps + [poll]), u, c);
  }

  /** A registration by a clock that lags by `skew`, and then time until its lease ends. */
  lemma LaggingRun(dep: Deployment, skew: nat, serverID: string, u: string, c: string) returns (steps: seq<Step>)
    requires dep.routeTTL >= SECOND && Clean(serverID) && Clean(u) && Clean(c)
    ensures LegalRun(steps) && SkewBound(dep, steps, skew)
    ensures var db, done := Run(dep, steps), dep.epoch + LeaseMillis(dep);
            && db.clock == done
            && ZSetAt(db, dep.ExpireKey(u)) == [Entry(done - skew + Margin(dep), u)]
            && RouteOf(dep, db, u, c) == Some(Lease(serverID, done))
  {
    var register := Register(serverID, u, c, (dep.epoch - skew) * MILLISECOND);
    var tick := Tick(LeaseMillis(dep));
    steps := [register] + [tick];
    assert Legal(register) && dep.TtlSeconds() > 0;
    hide Apply, RouteOf, Run, SkewBound, LegalRun, ZSetAt, Legal, Clean, Margin, LeaseMillis,
      Deployment.ExpireScore, Deployment.TtlSeconds, Deployment.ExpireKey;
    LegalTwice(dep, skew, register, tick);
    FirstRegistration(dep, register, u, c);
    RunSnoc(dep, [register], tick);
    TickKeeps(dep, Run(dep, [register]), tick, u, c);
    LaggingScore(dep, skew);
  }

  /** Exactly when a poll hands out only users whose connections are gone: when its cutoff lies
      further behind Redis time than the server clocks, less the milliseconds that the lease drops
      from the TTL. */
  lemma HandsOutGoneUsersIff(dep: Deployment, skew: nat, gap: int, limit: int)
    requires dep.routeTTL >= SECOND
    ensures HandsOutGoneUsers(dep, skew, gap, limit) <==> gap > skew - Margin(dep)
  {
    if gap > skew - Margin(dep) {
      forall steps, poll, u | HandsOut(dep, steps, poll, u, skew, gap, limit)
        ensures Routes(dep, Run(dep, steps + [poll]), u) == map[]
      {
        HandedOutUserIsGone(dep, steps, poll, skew, u);
      }
    } else {
      CleanExample();
      var steps, poll := LaggingClockWitness(dep, skew, gap, limit, "s", "u", "c");
      hide LegalRun, SkewBound, Run, Returned, Routes, Clean;
      assert "c" in Routes(dep, Run(dep, steps + [poll]), "u");
    }
  }

  lemma CleanExample()
    ensures Clean("s") && Clean("u") && Clean("c")
  {
  }

  /** A poll without limit hands out every user of its bucket whose score the cutoff has reached. */
  lemma FullPollHandsOut(dep: Deployment, db: Db, poll: Step, u: string)
    requires Placed(dep, db) && Clean(u)
    requires poll.Poll? && poll.bucket == dep.BucketOf(u) && poll.limit <= 0
    requires ScoreIn(dep, db, u).Some? && ScoreIn(dep, db, u).value <= poll.cutoff
    ensures u in Returned(dep, db, poll)
  {
    BucketIndex(dep, db, dep.BucketOf(u));
    var z := ZSetAt(db, dep.ExpireKey(u));
    PollScores(z, poll.cutoff, poll.limit, u);
    PollRemovesWhatItReturns(z, poll.cutoff, poll.limit);
    MembersScored(Polled(z, poll.cutoff, poll.limit), u);
    var rest := AfterPoll(z, poll.cutoff, poll.limit);
    ScoreOfEntry(rest, u, ScoreOf(z, u).value);
    hide AfterPoll, Polled, UserExpireKey, Valid;
  }

  lemma LegalTwice(dep: Deployment, skew: nat, register: Step, tick: Step)
    requires Legal(register) && register.Register? && register.now == (dep.epoch - skew) * MILLISECOND && tick.Tick?
    ensures LegalRun([register] + [tick]) && SkewBound(dep, [register] + [tick], skew)
  {
    var steps := [register] + [tick];
    assert steps[..0] == [];
    assert Run(dep, []).clock == dep.epoch;
    assert register.now / MILLISECOND == dep.epoch - skew;
    hide Run;
  }

  lemma LaggingScore(dep: Deployment, skew: nat)
    requires dep.TtlSeconds() > 0
    ensures dep.ExpireScore((dep.epoch - skew) * MILLISECOND) == dep.epoch - skew + LeaseMillis(dep) + Margin(dep)
  {
    var a := dep.epoch - skew;
    assert (a * MILLISECOND + dep.routeTTL) / MILLISECOND == a + dep.routeTTL / MILLISECOND;
  }

  lemma PollKeepsRoutes(dep: Deployment, db: Db, poll: Step, u: string, c: string)
    requires poll.Poll? && Clean(u) && Clean(c)
    ensures RouteOf(dep, Apply(dep, db, poll), u, c) == RouteOf(dep, db, u, c)
  {
    RouteEffect(dep, db, poll, u, c);
  }

  lemma TickKeeps(dep: Deployment, db: Db, tick: Step, u: string, c: string)
    requires tick.Tick?
    ensures RouteOf(dep, Apply(dep, db, tick), u, c) == RouteOf(dep, db, u, c)
    ensures ZSetAt(Apply(dep, db, tick), dep.ExpireKey(u)) == ZSetAt(db, dep.ExpireKey(u))
    ensures Apply(dep, db, tick).clock == db.clock + tick.elapsed
  {
  }

  lemma StillListed(dep: Deployment, db: Db, u: string, c: string)
    requires RouteOf(dep, db, u, c).Some? && db.clock <= RouteOf(dep, db, u, c).value.deadline
    ensures c in Routes(dep, db, u) && Routes(dep, db, u)[c] == RouteOf(dep, db, u, c).value.serverID
  {
  }

  /** The state after the very first registration. */
  lemma {:induction false} FirstRegistration(dep: Deployment, register: Step, u: string, c: string)
    requires dep.TtlSeconds() > 0 && Clean(u) && Clean(c)
    requires register.Register? && register.userID == u && register.connectionID == c
    ensures var db := Run(dep, [register]);
            && db.clock == dep.epoch
            && ZSetAt(db, dep.ExpireKey(u)) == [Entry(dep.ExpireScore(register.now), u)]
            && RouteOf(dep, db, u, c) == Some(Lease(register.serverID, dep.epoch + LeaseMillis(dep)))
  {
    assert [] + [register] == [register];
    RunSnoc(dep, [], register);
    TrimSpaceTrims(u);
    TrimSpaceTrims(c);
    RegisterShape(dep, Run(dep, []), register);
    RouteEffect(dep, Run(dep, []), register, u, c);
    RegisterKeepsClock(dep, Run(dep, []), register);
    hide Apply, RouteOf, UserExpireKey, UserRouteKey;
  }

  /** A bucket's only user is handed out as soon as the cutoff reaches the score, whatever the limit. */
  lemma SoleUserIsHandedOut(dep: Deployment, db: Db, poll: Step, u: string)
    requires poll.Poll? && poll.bucket == dep.BucketOf(u)
    requires |ZSetAt(db, dep.ExpireKey(u))| == 1
    requires ZSetAt(db, dep.ExpireKey(u))[0].member == u && ZSetAt(db, dep.ExpireKey(u))[0].score <= poll.cutoff
    ensures u in Returned(dep, db, poll)
  {
    var z := ZSetAt(db, dep.ExpireKey(u));
    assert z[1..] == [];
    assert RangeByScore(z, poll.cutoff) == [z[0]];
    assert Polled(z, poll.cutoff, poll.limit) == [z[0]];
    assert Returned(dep, db, poll) == Members([z[0]]);
    hide UserExpireKey, Polled;
    assert Members([z[0]])[0] == u;
  }
}
