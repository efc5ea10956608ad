/** No indexed user is starved by a limited poll. */
module RouteFairness {
  import opened Units
  import opened Wrappers
  import opened Text
  import opened SortedSet
  import opened RouteKeys
  import opened RouteDb
  import opened RouteHistory
  import opened RouteLease

  /** How many entries stand ahead of the user in rank order. */
  function Ahead(z: seq<Entry>, u: string): nat {
    if z == [] || z[0].member == u then 0 else 1 + Ahead(z[1..], u)
  }

  lemma {:induction false} AheadIsRank(z: seq<Entry>, u: string)
    requires ScoreOf(z, u).Some?
    ensures Ahead(z, u) < |z| && z[Ahead(z, u)] == Entry(ScoreOf(z, u).value, u)
  {
    if z[0].member != u {
      AheadIsRank(z[1..], u);
    }
  }

  lemma {:induction false} AheadWithout(z: seq<Entry>, m: string, u: string)
    requires m != u
    ensures Ahead(Without(z, m), u) <= Ahead(z, u)
    ensures ScoreOf(Without(z, m), u) == ScoreOf(z, u)
  {
    if z != [] {
      AheadWithout(z[1..], m, u);
      assert Without(z, m) == if z[0].member == m then Without(z[1..], m) else [z[0]] + Without(z[1..], m);
    }
  }

  lemma {:induction false} AheadInsert(z: seq<Entry>, e: Entry, u: string)
    requires Ranked(z) && e.member != u
    requires ScoreOf(z, u).Some? && Before(Entry(ScoreOf(z, u).value, u), e)
    ensures Ahead(Insert(z, e), u) == Ahead(z, u)
  {
    var at := Entry(ScoreOf(z, u).value, u);
    AheadIsRank(z, u);
    BeforeOrder(at, e);
    BeforeOrder(e, z[0]);
    if z[0].member == u {
      assert z[0] == at;
      assert Insert(z, e)[0] == at;
    } else {
      assert Before(z[0], at);
      BeforeTransitive(z[0], at, e);
      assert Insert(z, e) == [z[0]] + Insert(z[1..], e);
      AheadInsert(z[1..], e, u);
    }
  }

  /** A member moved behind the user's score never gets ahead of the user. */
  lemma {:induction false} AheadZAdd(z: seq<Entry>, score: int, m: string, u: string)
    requires Valid(z) && m != u
    requires ScoreOf(z, u).Some? && ScoreOf(z, u).value < score
    ensures Ahead(ZAdd(z, score, m), u) <= Ahead(z, u)
  {
    AheadWithout(z, m, u);
    WithoutKeeps(z, m);
    AheadInsert(Without(z, m), Entry(score, m), u);
  }

  lemma {:induction false} AheadSplit(p: seq<Entry>, q: seq<Entry>, u: string)
    requires ScoreOf(p, u) == None
    ensures Ahead(p + q, u) == |p| + Ahead(q, u)
  {
    if p == [] {
      assert p + q == q;
    } else {
      assert (p + q)[1..] == p[1..] + q;
      AheadSplit(p[1..], q, u);
    }
  }

  /** A poll that leaves the user behind takes everything it returns from ahead of the user;
      if the cutoff had reached the user, it must have been full. */
  lemma {:induction false} AheadPoll(z: seq<Entry>, max: int, limit: int, u: string)
    requires Valid(z) && ScoreOf(z, u).Some? && ScoreOf(Polled(z, max, limit), u) == None
    ensures Ahead(AfterPoll(z, max, limit), u) == Ahead(z, u) - |Polled(z, max, limit)|
    ensures ScoreOf(z, u).value <= max ==> |Polled(z, max, limit)| == limit
  {
    var p, q := Polled(z, max, limit), AfterPoll(z, max, limit);
    PollRemovesWhatItReturns(z, max, limit);
    PollScores(z, max, limit, u);
    hide *;
    AheadSplit(p, q, u);
    AheadIsRank(q, u);
  }

  /** A poll of the user's bucket, with this limit and a cutoff the score has been reached by. */
  predicate Qualifies(dep: Deployment, step: Step, u: string, score: int, limit: nat) {
    PollsPast(step, dep.BucketOf(u), limit, score)
  }

  function Qualifying(dep: Deployment, steps: seq<Step>, u: string, score: int, limit: nat): nat {
    CountPolls(steps, dep.BucketOf(u), limit, score)
  }

  /** The places these steps bring the user forward. */
  function Gain(dep: Deployment, step: Step, u: string, score: int, limit: nat): nat {
    if Qualifies(dep, step, u, score, limit) then limit else 0
  }

  function Gains(dep: Deployment, steps: seq<Step>, u: string, score: int, limit: nat): nat {
    if steps == [] then 0
    else Gains(dep, steps[..|steps| - 1], u, score, limit) + Gain(dep, steps[|steps| - 1], u, score, limit)
  }

  lemma {:induction false} GainsPerPoll(dep: Deployment, steps: seq<Step>, u: string, score: int, limit: nat)
    ensures Gains(dep, steps, u, score, limit) == limit * Qualifying(dep, steps, u, score, limit)
  {
    if steps != [] {
      GainsPerPoll(dep, steps[..|steps| - 1], u, score, limit);
    }
  }

  function AheadIn(dep: Deployment, db: Db, u: string): nat {
    Ahead(ZSetAt(db, dep.ExpireKey(u)), u)
  }

  lemma PutOtherIndex(dep: Deployment, db: Db, key: string, z: seq<Entry>, u: string)
    requires key != dep.ExpireKey(u)
    ensures ZSetAt(PutZSet(db, key, z), dep.ExpireKey(u)) == ZSetAt(db, dep.ExpireKey(u))
  {
  }

  lemma AheadAfterRegister(dep: Deployment, db: Db, step: Step, u: string, score: int)
    requires Placed(dep, db) && Clean(u) && step.Register? && !RegistersUser(dep, step, u)
    requires ScoreIn(dep, db, u) == Some(score) && dep.ExpireScore(step.now) > score
    ensures AheadIn(dep, Apply(dep, db, step), u) <= AheadIn(dep, db, u)
  {
    var v := TrimSpace(step.userID);
    RegisterShape(dep, db, step);
    hide Apply;
    BucketIndex(dep, db, dep.BucketOf(u));
    if v != u && dep.ExpireKey(u) == dep.ExpireKey(v) {
      AheadZAdd(ZSetAt(db, dep.ExpireKey(u)), dep.ExpireScore(step.now), v, u);
    }
  }

  lemma AheadAfterOwnPoll(dep: Deployment, db: Db, limit: int, cutoff: int, u: string)
    requires Placed(dep, db) && ScoreIn(dep, db, u).Some?
    requires u !in PollScript(db, dep.ExpireKey(u), limit, cutoff).1
    ensures var after := AheadIn(dep, PollScript(db, dep.ExpireKey(u), limit, cutoff).0, u);
            && after <= AheadIn(dep, db, u)
            && (cutoff >= ScoreIn(dep, db, u).value ==> after + limit == AheadIn(dep, db, u))
  {
    BucketIndex(dep, db, dep.BucketOf(u));
    var z := ZSetAt(db, dep.ExpireKey(u));
    MembersScored(Polled(z, cutoff, limit), u);
    AheadPoll(z, cutoff, limit, u);
    hide AfterPoll, Polled, UserExpireKey, Placed;
  }

  lemma AheadAfterOtherPoll(dep: Deployment, db: Db, bucket: nat, limit: int, cutoff: int, u: string)
    requires bucket != dep.BucketOf(u)
    ensures AheadIn(dep, PollScript(db, UserExpireKey(bucket), limit, cutoff).0, u) == AheadIn(dep, db, u)
  {
    if UserExpireKey(bucket) == dep.ExpireKey(u) { UserExpireKeyInjective(bucket, dep.BucketOf(u)); }
    hide AfterPoll, UserExpireKey, Ahead;
    PutOtherIndex(dep, db, UserExpireKey(bucket), AfterPoll(ZSetAt(db, UserExpireKey(bucket)), cutoff, limit), u);
  }

  lemma AheadAfterPoll(dep: Deployment, db: Db, step: Step, u: string, score: int, limit: nat)
    requires Placed(dep, db) && Clean(u) && step.Poll? && u !in Returned(dep, db, step)
    requires ScoreIn(dep, db, u) == Some(score)
    ensures AheadIn(dep, Apply(dep, db, step), u) + Gain(dep, step, u, score, limit) <= AheadIn(dep, db, u)
  {
    if step.bucket == dep.BucketOf(u) {
      AheadAfterOwnPoll(dep, db, step.limit, step.cutoff, u);
      hide PollScript, AheadIn, ScoreIn;
    } else if 0 <= step.bucket < USER_ROUTE_BUCKET_COUNT {
      AheadAfterOtherPoll(dep, db, step.bucket, step.limit, step.cutoff, u);
      hide PollScript, AheadIn, ScoreIn;
    }
  }

  /** While the user is neither handed out nor refreshed, nobody gets ahead of the user, and
      each qualifying poll brings the user `limit` places forward. */
  lemma AheadStep(dep: Deployment, db: Db, step: Step, u: string, score: int, limit: nat)
    requires Placed(dep, db) && Clean(u)
    requires ScoreIn(dep, db, u) == Some(score)
    requires !RegistersUser(dep, step, u) && u !in Returned(dep, db, step)
    requires step.Register? ==> dep.ExpireScore(step.now) > score
    ensures ScoreIn(dep, Apply(dep, db, step), u) == Some(score)
    ensures AheadIn(dep, Apply(dep, db, step), u) + Gain(dep, step, u, score, limit) <= AheadIn(dep, db, u)
  {
    ScoreEffect(dep, db, step, u);
    match step
    case Register(_, _, _, _) => AheadAfterRegister(dep, db, step, u, score);
    case Poll(_, _, _, _) => AheadAfterPoll(dep, db, step, u, score, limit);
    case Remove(_, _) =>
    case Tick(_) =>
    case Lost =>
  }

  /** No later registration can be placed ahead of a user whose score Redis time has reached,
      provided clocks lag by less than the TTL. */
  lemma LaterRegistrationsQueueBehind(dep: Deployment, steps: seq<Step>, i: nat, j: nat, skew: nat)
    requires SkewBound(dep, steps, skew) && skew < dep.routeTTL / MILLISECOND
    requires i <= j < |steps| && steps[j].Register?
    ensures dep.ExpireScore(steps[j].now) > TimeOf(dep, steps, i)
  {
    ClockBetween(dep, steps, i, j);
    var now := steps[j].now;
    assert now + dep.routeTTL >= (now / MILLISECOND + dep.routeTTL / MILLISECOND) * MILLISECOND;
  }

  /** In every run whose clocks lag by at most `skew`, registrations queue behind every Redis time
      already reached. */
  ghost predicate RegistrationsQueueBehind(dep: Deployment, skew: nat) {
    forall steps: seq<Step>, i: nat, j: nat ::
      LegalRun(steps) && SkewBound(dep, steps, skew) && QueuesAt(steps, i, j) ==>
        dep.ExpireScore(steps[j].now) > TimeOf(dep, steps, i)
  }

  predicate QueuesAt(steps: seq<Step>, i: nat, j: nat) {
    i <= j < |steps| && steps[j].Register?
  }

  /** The bound on the lag is exact: from a lag of one TTL on, a registration can be placed at or
      ahead of a score that Redis time has reached. */
  lemma QueueBehindIff(dep: Deployment, skew: nat)
    ensures RegistrationsQueueBehind(dep, skew) <==> skew < dep.routeTTL / MILLISECOND
  {
    if skew < dep.routeTTL / MILLISECOND {
      forall steps: seq<Step>, i: nat, j: nat | LegalRun(steps) && SkewBound(dep, steps, skew) && QueuesAt(steps, i, j)
        ensures dep.ExpireScore(steps[j].now) > TimeOf(dep, steps, i)
      {
        LaterRegistrationsQueueBehind(dep, steps, i, j, skew);
      }
    } else {
      var steps := OvertakingExample(dep, skew);
      hide LegalRun, SkewBound, Run;
      assert QueuesAt(steps, 0, 0);
    }
  }

  /** A run with one registration, by a clock that lags by a TTL or more. */
  lemma OvertakingExample(dep: Deployment, skew: nat) returns (steps: seq<Step>)
    requires skew >= dep.routeTTL / MILLISECOND
    ensures LegalRun(steps) && SkewBound(dep, steps, skew) && |steps| == 1 && steps[0].Register?
    ensures dep.ExpireScore(steps[0].now) <= TimeOf(dep, steps, 0)
  {
    var now := (dep.epoch - skew) * MILLISECOND;
    steps := [Register("s", "u", "c", now)];
    CleanExample();
    assert steps[..0] == [] && now / MILLISECOND == dep.epoch - skew;
    assert (now + dep.routeTTL) / MILLISECOND == dep.epoch - skew + dep.routeTTL / MILLISECOND;
  }

  /** What can end a user's wait: a registration, a poll whose answer arrives, or one whose
      answer is lost. */
  datatype Fate = Refreshed | HandedOver | LostOnTheWay

  ghost predicate Meets(dep: Deployment, steps: seq<Step>, i: int, u: string, fate: Fate) {
    0 <= i < |steps| &&
    var db := Run(dep, steps[..i]);
    match fate
    case Refreshed => RegistersUser(dep, steps[i], u)
    case HandedOver => u in Received(dep, db, steps[i])
    case LostOnTheWay => u in Dropped(dep, db, steps[i])
  }

  /** Within `steps[from..]` the user was registered again or taken by a poll. */
  ghost predicate Served(dep: Deployment, steps: seq<Step>, from: nat, u: string)
  {
    exists i :: from <= i < |steps|
                && (RegistersUser(dep, steps[i], u) || u in Returned(dep, Run(dep, steps[..i]), steps[i]))
  }

  lemma ServedMeetsFate(dep: Deployment, steps: seq<Step>, from: nat, u: string) returns (i: int, fate: Fate)
    requires Served(dep, steps, from, u)
    ensures from <= i < |steps| && Meets(dep, steps, i, u, fate)
  {
    i :| from <= i < |steps|
         && (RegistersUser(dep, steps[i], u) || u in Returned(dep, Run(dep, steps[..i]), steps[i]));
    hide Run, Returned, RegistersUser;
    fate := if RegistersUser(dep, steps[i], u) then Refreshed
            else if steps[i].Poll? && steps[i].answered then HandedOver
            else LostOnTheWay;
    OnlyPollsReturn(dep, Run(dep, steps[..i]), steps[i]);
  }

  lemma OnlyPollsReturn(dep: Deployment, db: Db, step: Step)
    ensures !step.Poll? ==> Returned(dep, db, step) == []
  {
  }

  lemma {:induction false} ServedExtends(dep: Deployment, pre: seq<Step>, step: Step, from: nat, u: string)
    requires from <= |pre| && !Served(dep, pre + [step], from, u)
    ensures !Served(dep, pre, from, u)
    ensures !RegistersUser(dep, step, u) && u !in Returned(dep, Run(dep, pre), step)
  {
    var all := pre + [step];
    assert all[..|pre|] == pre && all[|pre|] == step;
    forall i | from <= i < |pre|
      ensures !(RegistersUser(dep, pre[i], u) || u in Returned(dep, Run(dep, pre[..i]), pre[i]))
    {
      assert all[..i] == pre[..i] && all[i] == pre[i];
    }
  }

  /** Until another registration or a poll that takes the user, the score stays the registered one. */
  lemma {:induction false} ScoreKept(dep: Deployment, steps: seq<Step>, j: nat, u: string)
    requires LegalRun(steps) && Clean(u) && j < |steps| && RegistersUser(dep, steps[j], u)
    requires !Served(dep, steps, j + 1, u)
    ensures ScoreIn(dep, Run(dep, steps), u) == Some(dep.ExpireScore(steps[j].now))
  {
    var n := |steps| - 1;
    var pre, step := steps[..n], steps[n];
    hide Run, ScoreIn, Served, LegalRun, RegistersUser, Returned, Apply, Deployment.ExpireScore;
    assert steps == pre + [step];
    LegalPrefix(pre, step);
    RunPlaced(dep, pre);
    RunSnoc(dep, pre, step);
    ScoreEffect(dep, Run(dep, pre), step, u);
    if j < n {
      assert pre[j] == steps[j];
      ServedExtends(dep, pre, step, j + 1, u);
      ScoreKept(dep, pre, j, u);
    }
  }

  /** Since `steps[..from]` the user has kept the score and moved up by what polls took. */
  ghost predicate Waiting(dep: Deployment, steps: seq<Step>, from: nat, u: string, score: int, limit: nat)
    requires from <= |steps|
  {
    && ScoreIn(dep, Run(dep, steps), u) == Some(score)
    && AheadIn(dep, Run(dep, steps), u) + Gains(dep, steps[from..], u, score, limit)
       <= AheadIn(dep, Run(dep, steps[..from]), u)
  }

  lemma {:induction false} WaitingStep(dep: Deployment, pre: seq<Step>, step: Step, from: nat, u: string, score: int,
                                       limit: nat)
    requires LegalRun(pre) && Clean(u) && from <= |pre| && Waiting(dep, pre, from, u, score, limit)
    requires !RegistersUser(dep, step, u) && u !in Returned(dep, Run(dep, pre), step)
    requires step.Register? ==> dep.ExpireScore(step.now) > score
    ensures Waiting(dep, pre + [step], from, u, score, limit)
  {
    hide Apply, ScoreIn, AheadIn, Gain, Gains, Run;
    RunPlaced(dep, pre);
    RunSnoc(dep, pre, step);
    AheadStep(dep, Run(dep, pre), step, u, score, limit);
    GainsSnoc(dep, pre[from..], step, u, score, limit);
    assert (pre + [step])[from..] == pre[from..] + [step];
    assert (pre + [step])[..from] == pre[..from];
  }

  lemma {:induction false} WaitingUserMovesUp(dep: Deployment, steps: seq<Step>, from: nat, skew: nat, u: string,
                                              score: int, limit: nat)
    requires LegalRun(steps) && SkewBound(dep, steps, skew) && Clean(u)
    requires skew < dep.routeTTL / MILLISECOND
    requires from <= |steps|
    requires ScoreIn(dep, Run(dep, steps[..from]), u) == Some(score)
    requires TimeOf(dep, steps, from) >= score
    requires !Served(dep, steps, from, u)
    ensures Waiting(dep, steps, from, u, score, limit)
  {
    hide ScoreIn, AheadIn, Served, SkewBound, Run, LegalRun;
    if from == |steps| {
      assert steps[..from] == steps && steps[from..] == [];
    } else {
      hide Waiting;
      var n := |steps| - 1;
      var pre, step := steps[..n], steps[n];
      assert steps == pre + [step] && pre[..from] == steps[..from];
      LegalPrefix(pre, step);
      ServedExtends(dep, pre, step, from, u);
      SkewBoundPrefix(dep, pre, step, skew);
      WaitingUserMovesUp(dep, pre, from, skew, u, score, limit);
      if step.Register? { LaterRegistrationsQueueBehind(dep, steps, from, n, skew); }
      WaitingStep(dep, pre, step, from, u, score, limit);
    }
  }

  lemma {:induction false} GainsSnoc(dep: Deployment, steps: seq<Step>, step: Step, u: string, score: int, limit: nat)
    ensures Gains(dep, steps + [step], u, score, limit)
            == Gains(dep, steps, u, score, limit) + Gain(dep, step, u, score, limit)
  {
    var all := steps + [step];
    assert all[..|all| - 1] == steps;
  }

  lemma {:induction false} WaitEnds(dep: Deployment, steps: seq<Step>, from: nat, skew: nat, u: string, score: int,
                                    limit: nat)
    requires LegalRun(steps) && SkewBound(dep, steps, skew) && Clean(u)
    requires skew < dep.routeTTL / MILLISECOND && limit > 0
    requires from <= |steps|
    requires ScoreIn(dep, Run(dep, steps[..from]), u) == Some(score)
    requires TimeOf(dep, steps, from) >= score
    requires Qualifying(dep, steps[from..], u, score, limit)
             >= AheadIn(dep, Run(dep, steps[..from]), u) / limit + 1
    ensures Served(dep, steps, from, u)
  {
    if !Served(dep, steps, from, u) {
      WaitingUserMovesUp(dep, steps, from, skew, u, score, limit);
      var r, q := AheadIn(dep, Run(dep, steps[..from]), u), Qualifying(dep, steps[from..], u, score, limit);
      GainsPerPoll(dep, steps[from..], u, score, limit);
      TooManyPolls(r, q, limit);
    }
  }

  /** No starvation. Once Redis time has reached the score of an indexed user, with `r` entries
      ahead, the wait ends before `r / limit + 1` polls of the bucket with a cutoff at or past that
      score have gone by, whatever else happens: the user is registered again, or handed to a
      poller, or taken by a poll whose answer is lost. */
  lemma {:induction false} NoStarvation(dep: Deployment, steps: seq<Step>, from: nat, skew: nat, u: string,
                                        score: int, limit: nat)
    requires LegalRun(steps) && SkewBound(dep, steps, skew) && Clean(u)
    requires skew < dep.routeTTL / MILLISECOND && limit > 0
    requires from <= |steps|
    requires ScoreIn(dep, Run(dep, steps[..from]), u) == Some(score)
    requires TimeOf(dep, steps, from) >= score
    requires Qualifying(dep, steps[from..], u, score, limit)
             >= AheadIn(dep, Run(dep, steps[..from]), u) / limit + 1
    ensures exists i, fate :: from <= i < |steps| && Meets(dep, steps, i, u, fate)
    ensures (forall i :: from <= i < |steps| ==> !Meets(dep, steps, i, u, LostOnTheWay)) ==>
              exists i, fate :: from <= i < |steps| && fate != LostOnTheWay && Meets(dep, steps, i, u, fate)
  {
    WaitEnds(dep, steps, from, skew, u, score, limit);
    var i, fate := ServedMeetsFate(dep, steps, from, u);
    hide *;
    assert from <= i < |steps| && Meets(dep, steps, i, u, fate);
  }

  lemma TooManyPolls(r: nat, q: nat, limit: nat)
    requires limit > 0 && q >= r / limit + 1
    ensures limit * q > r
  {
    assert r == limit * (r / limit) + r % limit;
    assert limit * q >= limit * (r / limit + 1);
  }

  // ----- Counting polls in a run -----

  /** Any set of places where qualifying polls stand is no larger than the count. */
  lemma {:induction false} QualifyingAtLeast(dep: Deployment, steps: seq<Step>, at: set<nat>, u: string, score: int,
                                             limit: nat)
    requires forall i :: i in at ==> i < |steps| && Qualifies(dep, steps[i], u, score, limit)
    ensures Qualifying(dep, steps, u, score, limit) >= |at|
  {
    hide PollsPast;
    if steps == [] {
      assert at == {};
    } else {
      var n: nat := |steps| - 1;
      forall i | i in at - {n} ensures i < n && Qualifies(dep, steps[..n][i], u, score, limit) {
        assert steps[..n][i] == steps[i];
      }
      QualifyingAtLeast(dep, steps[..n], at - {n}, u, score, limit);
    }
  }

  lemma CutAgrees(dep: Deployment, steps: seq<Step>, n: nat, i: nat, u: string, fate: Fate)
    requires i < n <= |steps|
    ensures TimeOf(dep, steps[..n], i) == TimeOf(dep, steps, i)
    ensures Meets(dep, steps[..n], i, u, fate) == Meets(dep, steps, i, u, fate)
  {
    assert steps[..n][..i] == steps[..i] && steps[..n][i] == steps[i];
    hide Run, RegistersUser, Received, Dropped;
  }

  lemma PrefixLegal(dep: Deployment, steps: seq<Step>, n: nat, skew: nat)
    requires n <= |steps| && LegalRun(steps) && SkewBound(dep, steps, skew)
    ensures LegalRun(steps[..n]) && SkewBound(dep, steps[..n], skew)
  {
    forall i | 0 <= i < n ensures steps[..n][..i] == steps[..i] && steps[..n][i] == steps[i] {
    }
    hide Run;
  }

  /** What a run whose polls suffice shows in any continuation. */
  lemma WaitEndsIn(dep: Deployment, cut: seq<Step>, steps: seq<Step>, from: nat, skew: nat, u: string, score: int,
                   limit: nat) returns (i: int, fate: Fate)
    requires LegalRun(cut) && SkewBound(dep, cut, skew) && Clean(u)
    requires skew < dep.routeTTL / MILLISECOND && limit > 0
    requires from <= |cut| <= |steps| && cut == steps[..|cut|]
    requires ScoreIn(dep, Run(dep, cut[..from]), u) == Some(score)
    requires TimeOf(dep, cut, from) >= score
    requires Qualifying(dep, cut[from..], u, score, limit) >= AheadIn(dep, Run(dep, cut[..from]), u) / limit + 1
    ensures from <= i < |cut| && Meets(dep, steps, i, u, fate)
  {
    hide *;
    WaitEnds(dep, cut, from, skew, u, score, limit);
    i, fate := ServedMeetsFate(dep, cut, from, u);
    CutAgrees(dep, steps, |cut|, i, u, fate);
  }

  /** The wait ends before step `last` if the polls up to there suffice. */
  lemma WaitEndsBy(dep: Deployment, steps: seq<Step>, from: nat, skew: nat, u: string, score: int, limit: nat,
                   last: nat) returns (i: nat, fate: Fate)
    requires LegalRun(steps) && SkewBound(dep, steps, skew) && Clean(u)
    requires skew < dep.routeTTL / MILLISECOND && limit > 0
    requires from <= last < |steps|
    requires ScoreIn(dep, Run(dep, steps[..from]), u) == Some(score) && TimeOf(dep, steps, from) >= score
    requires Qualifying(dep, steps[..last + 1][from..], u, score, limit)
             >= AheadIn(dep, Run(dep, steps[..from]), u) / limit + 1
    ensures from <= i < |steps| && Meets(dep, steps, i, u, fate)
    ensures TimeOf(dep, steps, i) <= TimeOf(dep, steps, last)
  {
    hide Run, ScoreIn, AheadIn, Qualifying, Served, Meets, LegalRun, SkewBound, Apply;
    PrefixLegal(dep, steps, last + 1, skew);
    CutAgrees(dep, steps, last + 1, from, u, Refreshed);
    assert steps[..last + 1][..from] == steps[..from];
    var at: int;
    at, fate := WaitEndsIn(dep, steps[..last + 1], steps, from, skew, u, score, limit);
    i := at;
    ClockBetween(dep, steps, i, last);
  }
}
