/** Where every user put into the index ends up, with any number of pollers at work. */
module RouteConservation {
  import opened Wrappers
  import opened Text
  import opened SortedSet
  import opened RouteDb
  import RouteLease

  function One(b: bool): nat {
    if b then 1 else 0
  }

  /** Registrations that put the user into an index not already holding the user. */
  function Insertions(dep: Deployment, steps: seq<Step>, u: string): nat {
    if steps == [] then 0 else
      var pre := steps[..|steps| - 1];
      Insertions(dep, pre, u)
      + One(RegistersUser(dep, steps[|steps| - 1], u) && ScoreIn(dep, Run(dep, pre), u) == None)
  }

  function Count(s: seq<string>, u: string): nat {
    multiset(s)[u]
  }

  /** How many times a poller received the user's name, counting repetitions in one answer. */
  function Receipts(dep: Deployment, steps: seq<Step>, u: string): nat {
    if steps == [] then 0 else
      var pre := steps[..|steps| - 1];
      Receipts(dep, pre, u) + Count(Received(dep, Run(dep, pre), steps[|steps| - 1]), u)
  }

  /** How many times a poll took the user out of the index and its answer was lost. */
  function Losses(dep: Deployment, steps: seq<Step>, u: string): nat {
    if steps == [] then 0 else
      var pre := steps[..|steps| - 1];
      Losses(dep, pre, u) + Count(Dropped(dep, Run(dep, pre), steps[|steps| - 1]), u)
  }

  lemma {:induction false} MemberOnce(z: seq<Entry>, u: string)
    requires Valid(z)
    ensures multiset(Members(z))[u] == One(ScoreOf(z, u).Some?)
  {
    if z != [] {
      HeadOfValid(z);
      MemberOnce(z[1..], u);
      assert Members(z) == [z[0].member] + Members(z[1..]);
      if z[0].member == u { ScoreOfNone(z[1..], u); }
    }
  }

  /** One answer names a user at most once. */
  lemma ReturnedOnce(dep: Deployment, db: Db, step: Step, u: string)
    requires Placed(dep, db)
    ensures Count(Returned(dep, db, step), u) == One(u in Returned(dep, db, step))
  {
    if step.Poll? && 0 <= step.bucket < USER_ROUTE_BUCKET_COUNT {
      BucketIndex(dep, db, step.bucket);
      var z := ZSetAt(db, RouteKeys.UserExpireKey(step.bucket));
      PollScores(z, step.cutoff, step.limit, u);
      MemberOnce(Polled(z, step.cutoff, step.limit), u);
      MembersScored(Polled(z, step.cutoff, step.limit), u);
    }
  }

  /** The users a step takes are received or dropped, never both. */
  lemma TakenIsReceivedOrDropped(dep: Deployment, db: Db, step: Step, u: string)
    requires Placed(dep, db)
    ensures Count(Received(dep, db, step), u) + Count(Dropped(dep, db, step), u) == One(u in Returned(dep, db, step))
  {
    ReturnedOnce(dep, db, step, u);
    hide Placed;
  }

  lemma {:induction false} InsertionStep(dep: Deployment, pre: seq<Step>, step: Step, u: string)
    requires LegalRun(pre) && Clean(u)
    ensures var db := Run(dep, pre);
            One(RegistersUser(dep, step, u) && ScoreIn(dep, db, u) == None) + One(ScoreIn(dep, db, u).Some?)
            == Count(Received(dep, db, step), u) + Count(Dropped(dep, db, step), u)
               + One(ScoreIn(dep, Apply(dep, db, step), u).Some?)
  {
    RunPlaced(dep, pre);
    TakenIsReceivedOrDropped(dep, Run(dep, pre), step, u);
    ScoreEffect(dep, Run(dep, pre), step, u);
    hide Apply, ScoreIn, Returned, Received, Dropped, Placed, Run;
  }

  /** Conservation, over every run: what was put into the index was received by a poller, or was
      taken by a poll whose answer was lost, or is still indexed, each insertion exactly once. */
  lemma {:induction false} InsertedIsReceivedLostOrIndexed(dep: Deployment, steps: seq<Step>, u: string)
    requires LegalRun(steps) && Clean(u)
    ensures Insertions(dep, steps, u)
            == Receipts(dep, steps, u) + Losses(dep, steps, u) + One(ScoreIn(dep, Run(dep, steps), u).Some?)
  {
    hide Apply, ScoreIn, Count, RegistersUser, LegalRun;
    if steps == [] {
      NotIndexedAtStart(dep, u);
    } else {
      var n := |steps| - 1;
      var pre, step := steps[..n], steps[n];
      assert steps == pre + [step];
      LegalPrefix(pre, step);
      InsertedIsReceivedLostOrIndexed(dep, pre, u);
      InsertionStep(dep, pre, step, u);
    }
  }

  lemma {:induction false} NotIndexedAtStart(dep: Deployment, u: string)
    ensures ScoreIn(dep, Run(dep, []), u) == None
  {
  }

  /** A poll whose answer was lost took somebody. */
  ghost predicate LosesSomebody(dep: Deployment, steps: seq<Step>, i: int) {
    0 <= i < |steps| && Dropped(dep, Run(dep, steps[..i]), steps[i]) != []
  }

  lemma {:induction false} LosesCarries(dep: Deployment, pre: seq<Step>, step: Step, i: int)
    ensures i != |pre| ==> (LosesSomebody(dep, pre + [step], i) <==> LosesSomebody(dep, pre, i))
    ensures LosesSomebody(dep, pre + [step], |pre|) <==> Dropped(dep, Run(dep, pre), step) != []
  {
    var all := pre + [step];
    assert all[..|pre|] == pre;
    if 0 <= i < |pre| { assert all[..i] == pre[..i]; }
  }

  lemma {:induction false} LossesSnoc(dep: Deployment, pre: seq<Step>, step: Step, u: string)
    ensures Losses(dep, pre + [step], u) == Losses(dep, pre, u) + Count(Dropped(dep, Run(dep, pre), step), u)
  {
    var all := pre + [step];
    assert all[..|all| - 1] == pre;
  }

  /** A loss counted for a user happened at some step. */
  lemma {:induction false} LossHappened(dep: Deployment, steps: seq<Step>, u: string) returns (i: int)
    requires Losses(dep, steps, u) > 0
    ensures LosesSomebody(dep, steps, i)
  {
    hide Run, Dropped, LosesSomebody, Count;
    var n := |steps| - 1;
    var pre, step := steps[..n], steps[n];
    assert steps == pre + [step];
    LossesSnoc(dep, pre, step, u);
    if Losses(dep, pre, u) > 0 {
      i := LossHappened(dep, pre, u);
      InRange(dep, pre, i);
      LosesCarries(dep, pre, step, i);
    } else {
      i := n;
      LosesCarries(dep, pre, step, n);
      NobodyCounted(u);
    }
  }

  lemma InRange(dep: Deployment, steps: seq<Step>, i: int)
    requires LosesSomebody(dep, steps, i)
    ensures 0 <= i < |steps|
  {
  }

  lemma NobodyCounted(u: string)
    ensures Count([], u) == 0
  {
  }

  /** A step that loses somebody counts as a loss for that user. */
  lemma {:induction false} LossCounted(dep: Deployment, steps: seq<Step>, i: int) returns (u: string)
    requires LosesSomebody(dep, steps, i)
    ensures Losses(dep, steps, u) > 0
  {
    hide Run, Dropped, LosesSomebody, Losses, Count;
    InRange(dep, steps, i);
    var n := |steps| - 1;
    var pre, step := steps[..n], steps[n];
    assert steps == pre + [step];
    LosesCarries(dep, pre, step, i);
    if i == n {
      u := Dropped(dep, Run(dep, pre), step)[0];
      FirstCounted(Dropped(dep, Run(dep, pre), step));
    } else {
      u := LossCounted(dep, pre, i);
    }
    LossesSnoc(dep, pre, step, u);
  }

  lemma FirstCounted(s: seq<string>)
    requires s != []
    ensures Count(s, s[0]) > 0
  {
    assert s[0] in multiset(s);
  }

  /** The index of the bucket holds somebody whose score the cutoff has reached. */
  ghost predicate DueInBucket(dep: Deployment, db: Db, bucket: int, cutoff: int) {
    exists u :: && Clean(u) && dep.BucketOf(u) == bucket
                && ScoreIn(dep, db, u).Some? && ScoreIn(dep, db, u).value <= cutoff
  }

  /** A poll, with whatever limit, takes somebody exactly when somebody in its bucket is due. */
  lemma PollTakesSomebodyIff(dep: Deployment, db: Db, poll: Step)
    requires Placed(dep, db) && poll.Poll?
    ensures Returned(dep, db, poll) != [] <==> DueInBucket(dep, db, poll.bucket, poll.cutoff)
  {
    if 0 <= poll.bucket < USER_ROUTE_BUCKET_COUNT {
      BucketIndex(dep, db, poll.bucket);
      var z := ZSetAt(db, RouteKeys.UserExpireKey(poll.bucket));
      PollTakesIff(z, poll.cutoff, poll.limit);
      hide Polled, AfterPoll, RouteKeys.UserExpireKey, Valid;
      if Returned(dep, db, poll) != [] {
        var e :| e in z && e.score <= poll.cutoff;
        ScoreOfEntry(z, e.member, e.score);
      }
      if u :| && Clean(u) && dep.BucketOf(u) == poll.bucket
              && ScoreIn(dep, db, u).Some? && ScoreIn(dep, db, u).value <= poll.cutoff
      {
        ScoreOfEntry(z, u, ScoreIn(dep, db, u).value);
      }
    }
  }

  lemma PollTakesIff(z: seq<Entry>, cutoff: int, limit: int)
    requires Valid(z)
    ensures Polled(z, cutoff, limit) != [] <==> exists e :: e in z && e.score <= cutoff
    ensures |Members(Polled(z, cutoff, limit))| == |Polled(z, cutoff, limit)|
  {
    RangeByScoreIsPrefix(z, cutoff);
    hide RangeByScore;
    if Polled(z, cutoff, limit) != [] {
      assert z[0] in z && z[0].score <= cutoff;
    }
    if e :| e in z && e.score <= cutoff {
      var i :| 0 <= i < |z| && z[i] == e;
      assert i < |RangeByScore(z, cutoff)|;
    }
  }

  /** Step `i` is a poll of a bucket with somebody due, and its answer is lost on the way. */
  ghost predicate PollsInVain(dep: Deployment, steps: seq<Step>, i: int) {
    && 0 <= i < |steps|
    && steps[i].Poll? && !steps[i].answered
    && DueInBucket(dep, Run(dep, steps[..i]), steps[i].bucket, steps[i].cutoff)
  }

  lemma LosesIff(dep: Deployment, steps: seq<Step>, i: int)
    requires LegalRun(steps)
    ensures LosesSomebody(dep, steps, i) <==> PollsInVain(dep, steps, i)
  {
    if 0 <= i < |steps| && steps[i].Poll? {
      RunPlaced(dep, steps[..i]);
      PollTakesSomebodyIff(dep, Run(dep, steps[..i]), steps[i]);
      hide Run, Returned, DueInBucket;
    }
  }

  /** Every user ever taken out of the index reaches a poller if and only if no answer is lost of
      a poll whose bucket holds, at that moment, a user with a score the cutoff has reached. */
  lemma NobodyLostIff(dep: Deployment, steps: seq<Step>)
    requires LegalRun(steps)
    ensures (forall u :: Losses(dep, steps, u) == 0) <==> (forall i :: !PollsInVain(dep, steps, i))
  {
    hide *;
    if u :| Losses(dep, steps, u) != 0 {
      var i := LossHappened(dep, steps, u);
      LosesIff(dep, steps, i);
    }
    if i :| PollsInVain(dep, steps, i) {
      LosesIff(dep, steps, i);
      var u := LossCounted(dep, steps, i);
    }
  }

  /** A run that loses a user: one connection, one poll past the score, its answer lost. The user
      is gone from the index and no poller ever hears of it. */
  lemma LostAnswerExample(dep: Deployment) returns (steps: seq<Step>)
    requires dep.TtlSeconds() > 0
    ensures LegalRun(steps)
    ensures Insertions(dep, steps, "u") == 1 && Receipts(dep, steps, "u") == 0 && Losses(dep, steps, "u") == 1
    ensures ScoreIn(dep, Run(dep, steps), "u") == None
  {
    var register := Register("s", "u", "c", 0);
    var poll := Poll(dep.BucketOf("u"), 0, dep.ExpireScore(0), false);
    steps := [register] + [poll];
    FirstInsertion(dep, register);
    RunSnoc(dep, [register], poll);
    assert steps[..1] == [register];
    hide Apply, ScoreIn, Run;
    RunPlaced(dep, [register]);
    ScoreEffect(dep, Run(dep, [register]), poll, "u");
    RouteLease.FullPollHandsOut(dep, Run(dep, [register]), poll, "u");
    InsertionStep(dep, [register], poll, "u");
  }

  lemma {:induction false} FirstInsertion(dep: Deployment, register: Step)
    requires dep.TtlSeconds() > 0 && register == Register("s", "u", "c", 0)
    ensures LegalRun([register]) && Clean("u")
    ensures ScoreIn(dep, Run(dep, [register]), "u") == Some(dep.ExpireScore(0))
    ensures Insertions(dep, [register], "u") == 1 && Receipts(dep, [register], "u") == 0
              && Losses(dep, [register], "u") == 0
  {
    RouteLease.CleanExample();
    RouteLease.FirstRegistration(dep, register, "u", "c");
    assert [register][..0] == [];
    NotIndexedAtStart(dep, "u");
    TrimSpaceTrims("u");
    TrimSpaceTrims("c");
    hide Apply, Run, ScoreIn;
    assert RegistersUser(dep, register, "u");
  }

  /** The last step aside, a user taken by a poll is out of the index. */
  lemma {:induction false} TakenIsOut(dep: Deployment, pre: seq<Step>, step: Step, u: string)
    requires LegalRun(pre) && Clean(u) && u in Returned(dep, Run(dep, pre), step)
    ensures ScoreIn(dep, Run(dep, pre + [step]), u) == None
  {
    RunPlaced(dep, pre);
    RunSnoc(dep, pre, step);
    ScoreEffect(dep, Run(dep, pre), step, u);
    hide Apply, ScoreIn, Returned, Placed, Run;
  }

  lemma {:induction false} StaysOut(dep: Deployment, pre: seq<Step>, step: Step, u: string)
    requires LegalRun(pre) && Clean(u) && ScoreIn(dep, Run(dep, pre), u) == None && !RegistersUser(dep, step, u)
    ensures ScoreIn(dep, Run(dep, pre + [step]), u) == None
  {
    RunPlaced(dep, pre);
    RunSnoc(dep, pre, step);
    ScoreEffect(dep, Run(dep, pre), step, u);
    hide Apply, ScoreIn, Returned, Placed, Run;
  }

  lemma {:induction false} StaysOutUntilRegistered(dep: Deployment, steps: seq<Step>, i: nat, u: string)
    requires LegalRun(steps) && Clean(u)
    requires i < |steps| && u in Returned(dep, Run(dep, steps[..i]), steps[i])
    requires forall k :: i < k < |steps| ==> !RegistersUser(dep, steps[k], u)
    ensures ScoreIn(dep, Run(dep, steps), u) == None
  {
    hide Run, ScoreIn, Returned, RegistersUser, LegalRun;
    var n := |steps| - 1;
    var pre, step := steps[..n], steps[n];
    assert steps == pre + [step];
    LegalPrefix(pre, step);
    if i == n {
      TakenIsOut(dep, pre, step, u);
    } else {
      assert pre[..i] == steps[..i];
      StaysOutUntilRegistered(dep, pre, i, u);
      StaysOut(dep, pre, step, u);
    }
  }

  /** Between two polls that take a user there is always a registration of that user. */
  lemma {:induction false} RegisteredBetweenPolls(dep: Deployment, steps: seq<Step>, i: nat, j: nat, u: string)
    requires LegalRun(steps) && Clean(u) && i < j < |steps|
    requires u in Returned(dep, Run(dep, steps[..i]), steps[i])
    requires u in Returned(dep, Run(dep, steps[..j]), steps[j])
    ensures exists k :: i < k < j && RegistersUser(dep, steps[k], u)
  {
    var pre := steps[..j];
    if forall k :: i < k < j ==> !RegistersUser(dep, steps[k], u) {
      assert pre[..i] == steps[..i];
      StaysOutUntilRegistered(dep, pre, i, u);
      RunPlaced(dep, pre);
      ScoreEffect(dep, Run(dep, pre), steps[j], u);
    }
  }

  /** The blank filter of `PollExpiredUsers` drops nothing in a reachable state: the callback
      sees every user the script removed. */
  lemma {:induction false} FilterDropsNothing(dep: Deployment, steps: seq<Step>, step: Step)
    requires LegalRun(steps)
    ensures Compact(Returned(dep, Run(dep, steps), step)) == Returned(dep, Run(dep, steps), step)
  {
    RunPlaced(dep, steps);
    ReturnedClean(dep, Run(dep, steps), step);
    hide Run, Returned, Compact, Clean;
    CompactClean(Returned(dep, Run(dep, steps), step));
  }

  lemma ReturnedClean(dep: Deployment, db: Db, step: Step)
    requires Placed(dep, db)
    ensures forall i :: 0 <= i < |Returned(dep, db, step)| ==> Clean(Returned(dep, db, step)[i])
  {
    if step.Poll? && 0 <= step.bucket < USER_ROUTE_BUCKET_COUNT {
      BucketIndex(dep, db, step.bucket);
      var z, out := ZSetAt(db, RouteKeys.UserExpireKey(step.bucket)), Returned(dep, db, step);
      PollRemovesWhatItReturns(z, step.cutoff, step.limit);
      var p := Polled(z, step.cutoff, step.limit);
      hide AfterPoll, Polled, Clean, RouteKeys.UserExpireKey, Valid;
      forall i | 0 <= i < |out| ensures Clean(out[i]) {
        assert out[i] == p[i].member && p[i] in z;
      }
    }
  }
}
