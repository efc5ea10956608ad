/** Limited sweeps of the sixteen buckets hand out what one unlimited poll of one index would. */
module RouteDrain {
  import opened Wrappers
  import opened SortedSet
  import opened RouteKeys
  import opened RouteDb
  import opened RouteSharding

  /** The state after these steps and everybody their polls took, in order. */
  function Replay(dep: Deployment, db: Db, steps: seq<Step>): (Db, seq<string>) {
    if steps == [] then (db, []) else
      var (db', out) := Replay(dep, db, steps[..|steps| - 1]);
      var step := steps[|steps| - 1];
      (Apply(dep, db', step), out + Returned(dep, db', step))
  }

  lemma {:induction false} ReplayIsRun(dep: Deployment, pre: seq<Step>, steps: seq<Step>)
    ensures Replay(dep, Run(dep, pre), steps).0 == Run(dep, pre + steps)
  {
    hide Apply, Returned, Run;
    if steps == [] {
      assert pre + steps == pre;
    } else {
      var n := |steps| - 1;
      ReplayIsRun(dep, pre, steps[..n]);
      assert pre + steps == (pre + steps[..n]) + [steps[n]];
      RunSnoc(dep, pre + steps[..n], steps[n]);
    }
  }

  predicate NoRegistration(steps: seq<Step>) {
    forall i :: 0 <= i < |steps| ==> !steps[i].Register?
  }

  /** All polls among the steps have this limit and a cutoff at or past `cutoff`. */
  predicate PollsAt(steps: seq<Step>, limit: int, cutoff: int) {
    forall i :: 0 <= i < |steps| ==> PollAt(steps[i], limit, cutoff)
  }

  predicate PollAt(step: Step, limit: int, cutoff: int) {
    step.Poll? ==> step.limit == limit && step.cutoff >= cutoff
  }

  lemma {:induction false} CountAppend(x: seq<Step>, y: seq<Step>, b: nat, limit: int, cutoff: int)
    ensures CountPolls(x + y, b, limit, cutoff) == CountPolls(x, b, limit, cutoff) + CountPolls(y, b, limit, cutoff)
  {
    hide PollsPast;
    if y == [] {
      assert x + y == x;
    } else {
      assert (x + y)[..|x + y| - 1] == x + y[..|y| - 1];
      CountAppend(x, y[..|y| - 1], b, limit, cutoff);
    }
  }

  /** The users among these whom the index held with a score at or below `cutoff`. */
  function DueUsers(dep: Deployment, db: Db, users: seq<string>, cutoff: int): seq<string> {
    if users == [] then []
    else (if ScoreIn(dep, db, users[0]).Some? && ScoreIn(dep, db, users[0]).value <= cutoff then [users[0]] else [])
         + DueUsers(dep, db, users[1..], cutoff)
  }

  // ----- The same on the one index -----

  predicate InRange(step: Step) {
    step.Poll? && 0 <= step.bucket < USER_ROUTE_BUCKET_COUNT
  }

  function Taken(dep: Deployment, z: seq<Entry>, step: Step): seq<Entry> {
    if InRange(step) then FlatPolled(dep, z, step.bucket, step.limit, step.cutoff) else []
  }

  function Rest(dep: Deployment, z: seq<Entry>, step: Step): seq<Entry> {
    if InRange(step) then Minus(z, Taken(dep, z, step)) else z
  }

  function FlatReplay(dep: Deployment, z: seq<Entry>, steps: seq<Step>): (seq<Entry>, seq<Entry>) {
    if steps == [] then (z, []) else
      var (rest, out) := FlatReplay(dep, z, steps[..|steps| - 1]);
      var step := steps[|steps| - 1];
      (Rest(dep, rest, step), out + Taken(dep, rest, step))
  }

  lemma StepShards(dep: Deployment, db: Db, z: seq<Entry>, step: Step)
    requires SameIndex(dep, db, z) && !step.Register?
    ensures SameIndex(dep, Apply(dep, db, step), Rest(dep, z, step))
    ensures Returned(dep, db, step) == Members(Taken(dep, z, step))
  {
    var f := Flat(map[], z, 0);
    StepShardsIndex(dep, db, f, step);
    if InRange(step) { PollShards(dep, db, f, step.bucket, step.limit, step.cutoff); }
    hide SameIndex, Minus, FlatPolled, PollScript;
  }

  lemma {:induction false} ReplayShards(dep: Deployment, db: Db, z: seq<Entry>, steps: seq<Step>)
    requires SameIndex(dep, db, z) && NoRegistration(steps)
    ensures SameIndex(dep, Replay(dep, db, steps).0, FlatReplay(dep, z, steps).0)
    ensures Replay(dep, db, steps).1 == Members(FlatReplay(dep, z, steps).1)
  {
    hide SameIndex, Apply, Returned, Rest, Taken;
    if steps != [] {
      var n := |steps| - 1;
      ReplayShards(dep, db, z, steps[..n]);
      var (db', rest) := (Replay(dep, db, steps[..n]).0, FlatReplay(dep, z, steps[..n]).0);
      StepShards(dep, db', rest, steps[n]);
      MembersAppend(FlatReplay(dep, z, steps[..n]).1, Taken(dep, rest, steps[n]));
    }
  }

  lemma MembersAppend(x: seq<Entry>, y: seq<Entry>)
    ensures Members(x + y) == Members(x) + Members(y)
  {
  }

  // ----- What stays due -----

  lemma {:induction false} RangeMembers(z: seq<Entry>, max: int)
    ensures forall e :: e in RangeByScore(z, max) <==> e in z && e.score <= max
  {
    if z != [] {
      RangeMembers(z[1..], max);
      assert z == [z[0]] + z[1..];
    }
  }

  lemma {:induction false} NoneInRange(z: seq<Entry>, max: int)
    requires forall e :: e in z ==> e.score > max
    ensures RangeByScore(z, max) == []
  {
    if z != [] {
      assert z[0] in z;
      NoneInRange(z[1..], max);
    }
  }

  lemma {:induction false} RangeValid(z: seq<Entry>, max: int)
    requires Valid(z)
    ensures Valid(RangeByScore(z, max))
  {
    PollScores(z, max, 0, "");
    assert Polled(z, max, 0) == RangeByScore(z, max);
  }

  lemma {:induction false} ValidMultiset(z: seq<Entry>)
    requires Valid(z)
    ensures forall e :: multiset(z)[e] == if e in z then 1 else 0
  {
    if z != [] {
      HeadOfValid(z);
      ValidMultiset(z[1..]);
      assert z == [z[0]] + z[1..];
    }
  }

  lemma {:induction false} RangeAppend(x: seq<Entry>, y: seq<Entry>, max: int)
    ensures RangeByScore(x + y, max) == RangeByScore(x, max) + RangeByScore(y, max)
  {
    if x == [] {
      assert x + y == y;
    } else {
      assert (x + y)[1..] == x[1..] + y;
      RangeAppend(x[1..], y, max);
      assert RangeByScore(x + y, max) == (if x[0].score <= max then [x[0]] else []) + RangeByScore(x[1..] + y, max);
      assert RangeByScore(x, max) == (if x[0].score <= max then [x[0]] else []) + RangeByScore(x[1..], max);
      hide RangeByScore;
    }
  }

  /** A poll takes entries of the index, none above its cutoff, and touches no other entry. */
  lemma TakenIsDue(dep: Deployment, z: seq<Entry>, step: Step)
    requires Valid(z) && InRange(step)
    ensures var out, rest := Taken(dep, z, step), Rest(dep, z, step);
            && Valid(out) && Valid(rest)
            && (forall e :: e in out ==> e in z && e.score <= step.cutoff)
            && (forall e :: e in rest <==> e in z && e !in out)
  {
    var own, out := OfBucket(dep, z, step.bucket), Taken(dep, z, step);
    OfBucketKeeps(dep, z, step.bucket);
    PollScores(own, step.cutoff, step.limit, "");
    PollRemovesWhatItReturns(own, step.cutoff, step.limit);
    assert out == Polled(own, step.cutoff, step.limit);
    assert own == out + AfterPoll(own, step.cutoff, step.limit);
    hide Polled, AfterPoll, OfBucket;
    MinusKeeps(z, out);
  }

  /** Without repetitions, a split of the members is a split of the multiset. */
  lemma SplitMultiset(z: seq<Entry>, p: seq<Entry>, q: seq<Entry>)
    requires Valid(z) && Valid(p) && Valid(q)
    requires forall e :: e in z <==> e in p || e in q
    requires forall e :: e in p ==> e !in q
    ensures multiset(z) == multiset(p) + multiset(q)
  {
    ValidMultiset(z);
    ValidMultiset(p);
    ValidMultiset(q);
    hide Valid;
  }

  lemma {:induction false} EntriesMove(z: seq<Entry>, out: seq<Entry>, rest: seq<Entry>, cutoff: int)
    requires Valid(z) && Valid(out) && Valid(rest)
    requires forall e :: e in out ==> e in z
    requires forall e :: e in rest <==> e in z && e !in out
    ensures multiset(z) == multiset(out) + multiset(rest)
    ensures multiset(RangeByScore(z, cutoff))
            == multiset(RangeByScore(out, cutoff)) + multiset(RangeByScore(rest, cutoff))
  {
    SplitMultiset(z, out, rest);
    RangeMembers(z, cutoff);
    RangeMembers(out, cutoff);
    RangeMembers(rest, cutoff);
    RangeValid(z, cutoff);
    RangeValid(out, cutoff);
    RangeValid(rest, cutoff);
    hide RangeByScore, Valid;
    SplitMultiset(RangeByScore(z, cutoff), RangeByScore(out, cutoff), RangeByScore(rest, cutoff));
  }

  /** Whatever the polls were: every entry was taken once or is still there, and so was and is
      every entry that was due at `cutoff`. */
  lemma {:induction false} EntriesConserved(dep: Deployment, z: seq<Entry>, steps: seq<Step>, cutoff: int)
    requires Valid(z)
    ensures var (rest, out) := FlatReplay(dep, z, steps);
            && Valid(rest)
            && multiset(z) == multiset(out) + multiset(rest)
            && multiset(RangeByScore(z, cutoff))
               == multiset(RangeByScore(out, cutoff)) + multiset(RangeByScore(rest, cutoff))
  {
    hide Valid, RangeByScore, Rest, Taken;
    if steps == [] {
      RangeOfNothing(cutoff);
    } else {
      var n := |steps| - 1;
      EntriesConserved(dep, z, steps[..n], cutoff);
      var (rest, out) := FlatReplay(dep, z, steps[..n]);
      EntriesConservedStep(dep, rest, steps[n], cutoff);
      RangeAppend(out, Taken(dep, rest, steps[n]), cutoff);
    }
  }

  lemma {:induction false} RangeOfNothing(cutoff: int)
    ensures RangeByScore([], cutoff) == []
  {
  }

  lemma {:induction false} EntriesConservedStep(dep: Deployment, z: seq<Entry>, step: Step, cutoff: int)
    requires Valid(z)
    ensures var out, rest := Taken(dep, z, step), Rest(dep, z, step);
            && Valid(rest)
            && multiset(z) == multiset(out) + multiset(rest)
            && multiset(RangeByScore(z, cutoff))
               == multiset(RangeByScore(out, cutoff)) + multiset(RangeByScore(rest, cutoff))
  {
    if InRange(step) {
      TakenIsDue(dep, z, step);
      hide Rest, Taken;
      EntriesMove(z, Taken(dep, z, step), Rest(dep, z, step), cutoff);
    } else {
      RangeOfNothing(cutoff);
    }
    hide Valid, RangeByScore, FlatPolled, Minus;
  }

  // ----- How often a bucket must be polled -----

  /** The due entries of a bucket. */
  function Due(dep: Deployment, z: seq<Entry>, cutoff: int, b: nat): seq<Entry> {
    RangeByScore(OfBucket(dep, z, b), cutoff)
  }

  /** What one poll leaves of `n` due entries, and what `k` polls leave. */
  function Left(n: nat, limit: int): nat {
    if 0 < limit < n then n - limit else 0
  }

  function LeftAfter(n: nat, limit: int, k: nat): nat {
    if k == 0 then n else Left(LeftAfter(n, limit, k - 1), limit)
  }

  /** `k` polls suffice for `n` due entries. */
  predicate Enough(n: nat, limit: int, k: nat) {
    if limit > 0 then n <= k * limit else n == 0 || k > 0
  }

  lemma {:induction false} LeftAfterIs(n: nat, limit: int, k: nat)
    ensures LeftAfter(n, limit, k) ==
            if limit > 0 then (if n <= k * limit then 0 else n - k * limit) else (if k > 0 then 0 else n)
    ensures LeftAfter(n, limit, k) == 0 <==> Enough(n, limit, k)
  {
    if k > 0 {
      LeftAfterIs(n, limit, k - 1);
      assert k * limit == (k - 1) * limit + limit;
    }
  }

  lemma {:induction false} LeftAfterMonotone(n: nat, m: nat, limit: int)
    requires n <= m
    ensures Left(n, limit) <= Left(m, limit) <= m
  {
  }

  /** What a poll leaves of the entries due at `cutoff`: any poll leaves no more than there were,
      and one with a cutoff at or past `cutoff` takes from them as many as its limit allows. */
  lemma {:induction false} DueAfterPoll(own: seq<Entry>, c: int, limit: int, cutoff: int)
    requires Ranked(own)
    ensures var due, left := |RangeByScore(own, cutoff)|, |RangeByScore(AfterPoll(own, c, limit), cutoff)|;
            && left <= due
            && (cutoff <= c ==> left == Left(due, limit))
  {
    var due, past := |RangeByScore(own, cutoff)|, |RangeByScore(own, c)|;
    var rest, m := AfterPoll(own, c, limit), |Polled(own, c, limit)|;
    PollCuts(own, c, limit);
    ScoredPrefix(own, cutoff);
    ScoredPrefix(own, c);
    ScoredPrefix(rest, cutoff);
    hide AfterPoll, Polled, RangeByScore, PrefixScored, Ranked;
    PrefixLengths(own, m, cutoff, due, |RangeByScore(rest, cutoff)|);
    PrefixOrder(own, cutoff, c, due, past);
  }

  lemma {:induction false} PollCuts(own: seq<Entry>, c: int, limit: int)
    requires Ranked(own)
    ensures var past, m := |RangeByScore(own, c)|, |Polled(own, c, limit)|;
            && m == (if 0 < limit < past then limit else past)
            && m <= |own| && AfterPoll(own, c, limit) == own[m..]
    ensures Ranked(AfterPoll(own, c, limit))
  {
    RangeByScoreIsPrefix(own, c);
    PollRemovesWhatItReturns(own, c, limit);
    var past, m, rest := |RangeByScore(own, c)|, |Polled(own, c, limit)|, AfterPoll(own, c, limit);
    assert m == if 0 < limit < past then limit else past;
    assert own == Polled(own, c, limit) + rest;
    hide RangeByScore, Polled, AfterPoll;
    assert rest == own[m..];
  }

  lemma {:induction false} ScoredPrefix(z: seq<Entry>, cutoff: int)
    requires Ranked(z)
    ensures PrefixScored(z, cutoff, |RangeByScore(z, cutoff)|)
  {
    RangeByScoreIsPrefix(z, cutoff);
  }

  /** `n` of the entries are scored at most `cutoff`, and these are the first ones. */
  ghost predicate PrefixScored(z: seq<Entry>, cutoff: int, n: nat) {
    n <= |z| && forall i :: 0 <= i < |z| ==> (z[i].score <= cutoff <==> i < n)
  }

  lemma PrefixLengths(z: seq<Entry>, m: nat, cutoff: int, n: nat, left: nat)
    requires m <= |z| && PrefixScored(z, cutoff, n) && PrefixScored(z[m..], cutoff, left)
    ensures left == if n <= m then 0 else n - m
  {
    if left > 0 { assert z[m..][left - 1] == z[m + left - 1]; }
    if left < |z[m..]| { assert z[m..][left] == z[m + left]; }
  }

  lemma PrefixOrder(z: seq<Entry>, a: int, b: int, n: nat, m: nat)
    requires PrefixScored(z, a, n) && PrefixScored(z, b, m)
    ensures a <= b ==> n <= m
  {
    if n > 0 { assert z[n - 1].score <= a; }
  }

  lemma DueStep(dep: Deployment, z: seq<Entry>, step: Step, limit: int, cutoff: int, b: nat)
    requires Valid(z) && b < USER_ROUTE_BUCKET_COUNT
    ensures var due, left := |Due(dep, z, cutoff, b)|, |Due(dep, Rest(dep, z, step), cutoff, b)|;
            && left <= due
            && (PollsPast(step, b, limit, cutoff) ==> left == Left(due, limit))
            && (PollAt(step, limit, cutoff) && !PollsPast(step, b, limit, cutoff) ==> left == due)
  {
    if InRange(step) {
      OfBucketPoll(dep, z, step.bucket, step.limit, step.cutoff, b);
      OfBucketKeeps(dep, z, b);
      DueAfterPoll(OfBucket(dep, z, b), step.cutoff, step.limit, cutoff);
    }
    hide RangeByScore, AfterPoll, OfBucket, FlatPolled, Minus, Left;
  }

  /** Polls past the cutoff leave of a bucket's due entries what their number says, and other
      polls can only leave less. */
  lemma {:induction false} DueLeft(dep: Deployment, z: seq<Entry>, steps: seq<Step>, limit: int, cutoff: int, b: nat)
    requires Valid(z) && b < USER_ROUTE_BUCKET_COUNT
    ensures var left := |Due(dep, FlatReplay(dep, z, steps).0, cutoff, b)|;
            var bound := LeftAfter(|Due(dep, z, cutoff, b)|, limit, CountPolls(steps, b, limit, cutoff));
            left <= bound && (PollsAt(steps, limit, cutoff) ==> left == bound)
  {
    hide Valid, Due, Rest, Taken, Left, PollsPast, PollAt;
    if steps != [] {
      var n := |steps| - 1;
      var rest := FlatReplay(dep, z, steps[..n]).0;
      EntriesConserved(dep, z, steps[..n], cutoff);
      DueLeft(dep, z, steps[..n], limit, cutoff, b);
      DueStep(dep, rest, steps[n], limit, cutoff, b);
      LeftAfterMonotone(|Due(dep, rest, cutoff, b)|,
                        LeftAfter(|Due(dep, z, cutoff, b)|, limit, CountPolls(steps[..n], b, limit, cutoff)), limit);
    }
  }

  lemma DueSomewhere(dep: Deployment, z: seq<Entry>, cutoff: int, e: Entry)
    requires Valid(z) && e in z && e.score <= cutoff
    ensures |Due(dep, z, cutoff, dep.BucketOf(e.member))| > 0
  {
    var b := dep.BucketOf(e.member);
    OfBucketKeeps(dep, z, b);
    RangeMembers(OfBucket(dep, z, b), cutoff);
  }

  lemma {:induction false} DueIsPart(dep: Deployment, z: seq<Entry>, cutoff: int, b: nat)
    ensures |Due(dep, z, cutoff, b)| <= |RangeByScore(z, cutoff)|
  {
    if z != [] {
      DueIsPart(dep, z[1..], cutoff, b);
      assert forall x: seq<Entry> :: [] + x == x;
    }
  }

  lemma {:induction false} NothingDueIff(dep: Deployment, z: seq<Entry>, cutoff: int)
    requires Valid(z)
    ensures (forall b: nat :: b < USER_ROUTE_BUCKET_COUNT ==> |Due(dep, z, cutoff, b)| == 0)
            <==> RangeByScore(z, cutoff) == []
  {
    if RangeByScore(z, cutoff) == [] {
      forall b: nat | b < USER_ROUTE_BUCKET_COUNT ensures |Due(dep, z, cutoff, b)| == 0 {
        DueIsPart(dep, z, cutoff, b);
      }
    } else {
      var e := RangeByScore(z, cutoff)[0];
      assert e in RangeByScore(z, cutoff);
      RangeMembers(z, cutoff);
      DueSomewhere(dep, z, cutoff, e);
    }
  }

  // ----- The users taken -----

  lemma ScoreInIndex(dep: Deployment, db: Db, index: seq<Entry>, e: Entry)
    requires SameIndex(dep, db, index) && e in index
    ensures ScoreIn(dep, db, e.member) == Some(e.score)
  {
    var b := dep.BucketOf(e.member);
    OfBucketKeeps(dep, index, b);
    ScoreOfEntry(OfBucket(dep, index, b), e.member, e.score);
  }

  lemma {:induction false} DueUsersAre(dep: Deployment, db: Db, index: seq<Entry>, out: seq<Entry>, cutoff: int)
    requires SameIndex(dep, db, index) && forall e :: e in out ==> e in index
    ensures DueUsers(dep, db, Members(out), cutoff) == Members(RangeByScore(out, cutoff))
  {
    hide SameIndex, ScoreIn;
    if out != [] {
      DueUsersAre(dep, db, index, out[1..], cutoff);
      ScoreInIndex(dep, db, index, out[0]);
      assert Members(out)[1..] == Members(out[1..]);
      assert Members([out[0]]) == [out[0].member];
      MembersAppend(if out[0].score <= cutoff then [out[0]] else [], RangeByScore(out[1..], cutoff));
    }
  }

  /** `index` without the entries of these users. */
  function Except(index: seq<Entry>, users: seq<string>): seq<Entry> {
    if index == [] then []
    else (if index[0].member in users then [] else [index[0]]) + Except(index[1..], users)
  }

  lemma {:induction false} ExceptKeeps(z: seq<Entry>, users: seq<string>)
    requires Valid(z)
    ensures Valid(Except(z, users))
    ensures forall e :: e in Except(z, users) <==> e in z && e.member !in users
  {
    if z != [] {
      HeadOfValid(z);
      ExceptKeeps(z[1..], users);
      ConsValid(z[0], Except(z[1..], users));
    }
  }

  lemma MemberOfEntry(out: seq<Entry>, u: string)
    ensures u in Members(out) <==> exists e :: e in out && e.member == u
  {
    if u in Members(out) {
      var i :| 0 <= i < |out| && Members(out)[i] == u;
      assert out[i] in out;
    }
    if e :| e in out && e.member == u {
      var i :| 0 <= i < |out| && out[i] == e;
      assert Members(out)[i] == u;
    }
  }

  lemma SameMemberSameEntry(z: seq<Entry>, e: Entry, d: Entry)
    requires Valid(z) && e in z && d in z && e.member == d.member
    ensures e == d
  {
    ScoreOfEntry(z, e.member, e.score);
    ScoreOfEntry(z, d.member, d.score);
  }

  lemma {:induction false} RestIsExcept(z: seq<Entry>, out: seq<Entry>, rest: seq<Entry>)
    requires Valid(z) && Valid(rest) && multiset(z) == multiset(out) + multiset(rest)
    ensures rest == Except(z, Members(out))
  {
    ExceptKeeps(z, Members(out));
    ValidMultiset(z);
    ValidMultiset(rest);
    hide Members, Except, Valid;
    forall e ensures e in rest <==> e in Except(z, Members(out)) {
      assert e in out <==> e in multiset(out);
      assert multiset(z)[e] == multiset(out)[e] + multiset(rest)[e];
      MemberOfEntry(out, e.member);
      if d :| e in z && d in out && d.member == e.member {
        assert d in multiset(z);
        SameMemberSameEntry(z, e, d);
      }
    }
    RankedOf(rest);
    RankedOf(Except(z, Members(out)));
    RankedUnique(rest, Except(z, Members(out)));
  }

  lemma RankedOf(z: seq<Entry>)
    requires Valid(z)
    ensures Ranked(z)
  {
  }

  // ----- Limited sweeps drain the index -----

  ghost predicate EnoughPolls(dep: Deployment, index: seq<Entry>, steps: seq<Step>, limit: int, cutoff: int) {
    forall b: nat :: b < USER_ROUTE_BUCKET_COUNT ==> EnoughFor(dep, index, steps, limit, cutoff, b)
  }

  ghost predicate AllAnswerEmpty(db: Db, limit: int, cutoff: int) {
    forall b: nat :: b < USER_ROUTE_BUCKET_COUNT ==> PollScript(db, UserExpireKey(b), limit, cutoff).1 == []
  }

  /** Polls of the buckets with moving cutoffs, in any order, amid removals, lost calls, passing
      time and polls with any other limits and cutoffs. Every user still indexed is one they did
      not take, and no user is taken twice. Nobody due at `cutoff` is left if each bucket got
      `ceil(due / limit)` polls with that limit and a cutoff at or past `cutoff`, and only if, when
      there are no other polls. And nobody due is left exactly when the users taken from among
      those due are a permutation of what one unlimited poll of the one index takes. */
  lemma {:induction false} LimitedPollsDrain(dep: Deployment, db: Db, index: seq<Entry>, steps: seq<Step>,
                                             limit: int, cutoff: int)
    requires SameIndex(dep, db, index) && NoRegistration(steps)
    ensures var (db', out) := Replay(dep, db, steps);
            && SameIndex(dep, db', Except(index, out))
            && multiset(Members(index)) == multiset(out) + multiset(Members(Except(index, out)))
            && (EnoughPolls(dep, index, steps, limit, cutoff) ==> AllAnswerEmpty(db', limit, cutoff))
            && (PollsAt(steps, limit, cutoff) && AllAnswerEmpty(db', limit, cutoff) ==>
                  EnoughPolls(dep, index, steps, limit, cutoff))
            && (AllAnswerEmpty(db', limit, cutoff) <==>
                multiset(DueUsers(dep, db, out, cutoff)) == multiset(Members(Polled(index, cutoff, 0))))
  {
    var (rest, out) := FlatReplay(dep, index, steps);
    var db' := Replay(dep, db, steps).0;
    ReplayShards(dep, db, index, steps);
    EntriesConserved(dep, index, steps, cutoff);
    EmptyIffNothingDue(dep, db', rest, limit, cutoff);
    NothingDueIff(dep, rest, cutoff);
    forall b: nat | b < USER_ROUTE_BUCKET_COUNT
      ensures EnoughFor(dep, index, steps, limit, cutoff, b) ==> |Due(dep, rest, cutoff, b)| == 0
      ensures PollsAt(steps, limit, cutoff) && |Due(dep, rest, cutoff, b)| == 0 ==>
                EnoughFor(dep, index, steps, limit, cutoff, b)
    {
      DueLeft(dep, index, steps, limit, cutoff, b);
      LeftAfterIs(|Due(dep, index, cutoff, b)|, limit, CountPolls(steps, b, limit, cutoff));
    }
    hide SameIndex, Due, Enough, Replay, FlatReplay, RangeByScore, Valid, PollsAt, CountPolls, AllAnswerEmpty, Members,
      Except, DueUsers;
    RestIsExcept(index, out, rest);
    UsersSplit(index, out, rest);
    DrainedIff(dep, db, index, out, rest, cutoff);
  }

  ghost predicate EnoughFor(dep: Deployment, index: seq<Entry>, steps: seq<Step>, limit: int, cutoff: int, b: nat) {
    Enough(|Due(dep, index, cutoff, b)|, limit, CountPolls(steps, b, limit, cutoff))
  }

  lemma UsersSplit(z: seq<Entry>, x: seq<Entry>, y: seq<Entry>)
    requires multiset(z) == multiset(x) + multiset(y)
    ensures multiset(Members(z)) == multiset(Members(x)) + multiset(Members(y))
  {
    assert multiset(x + y) == multiset(z);
    SameMembers(z, x + y);
    MembersAppend(x, y);
    hide Members;
  }

  lemma {:induction false} DrainedIff(dep: Deployment, db: Db, index: seq<Entry>, out: seq<Entry>, rest: seq<Entry>,
                                      cutoff: int)
    requires SameIndex(dep, db, index) && multiset(index) == multiset(out) + multiset(rest)
    requires multiset(RangeByScore(index, cutoff))
             == multiset(RangeByScore(out, cutoff)) + multiset(RangeByScore(rest, cutoff))
    ensures RangeByScore(rest, cutoff) == []
            <==> multiset(DueUsers(dep, db, Members(out), cutoff)) == multiset(Members(Polled(index, cutoff, 0)))
  {
    assert Polled(index, cutoff, 0) == RangeByScore(index, cutoff);
    forall e | e in out ensures e in index {
      assert e in multiset(out) && e in multiset(index);
    }
    DueUsersAre(dep, db, index, out, cutoff);
    UsersSplit(RangeByScore(index, cutoff), RangeByScore(out, cutoff), RangeByScore(rest, cutoff));
    hide SameIndex, RangeByScore, Polled, DueUsers;
    var left := RangeByScore(rest, cutoff);
    assert |Members(left)| == |left|;
    assert |multiset(Members(left))| == |Members(left)|;
  }

  lemma EmptyIffNothingDue(dep: Deployment, db: Db, z: seq<Entry>, limit: int, cutoff: int)
    requires SameIndex(dep, db, z)
    ensures AllAnswerEmpty(db, limit, cutoff)
            <==> forall b: nat :: b < USER_ROUTE_BUCKET_COUNT ==> |Due(dep, z, cutoff, b)| == 0
  {
    hide UserExpireKey, ZSetAt, RangeByScore, OfBucket, AfterPoll, PutZSet;
    forall b: nat | b < USER_ROUTE_BUCKET_COUNT
      ensures PollScript(db, UserExpireKey(b), limit, cutoff).1 == [] <==> |Due(dep, z, cutoff, b)| == 0
    {
      assert ZSetAt(db, UserExpireKey(b)) == OfBucket(dep, z, b);
      assert |Members(Polled(OfBucket(dep, z, b), cutoff, limit))| == |Polled(OfBucket(dep, z, b), cutoff, limit)|;
    }
  }

  lemma {:induction false} SameMembers(x: seq<Entry>, y: seq<Entry>)
    requires multiset(x) == multiset(y)
    ensures multiset(Members(x)) == multiset(Members(y))
    decreases |x|
  {
    hide Members;
    if x == [] {
      assert |y| == |multiset(y)| == 0;
      assert y == x;
    } else {
      assert x[0] in multiset(y);
      var i :| 0 <= i < |y| && y[i] == x[0];
      TakeOut(x, 0);
      TakeOut(y, i);
      var xs, ys := x[..0] + x[1..], y[..i] + y[i + 1..];
      assert multiset(xs) == multiset(x) - multiset{x[0]};
      assert multiset(ys) == multiset(y) - multiset{x[0]};
      SameMembers(xs, ys);
    }
  }

  lemma TakeOut(y: seq<Entry>, i: nat)
    requires i < |y|
    ensures var rest := y[..i] + y[i + 1..];
            && multiset(y) == multiset{y[i]} + multiset(rest)
            && multiset(Members(y)) == multiset{y[i].member} + multiset(Members(rest))
  {
    assert y == y[..i] + [y[i]] + y[i + 1..];
    assert Members(y) == Members(y[..i]) + [y[i].member] + Members(y[i + 1..]);
    MembersAppend(y[..i], y[i + 1..]);
    hide Members;
  }

  // ----- Sweeps -----

  /** No bucket has more than `n` users due. */
  ghost predicate FewDue(dep: Deployment, index: seq<Entry>, cutoff: int, n: int) {
    forall b: nat :: b < USER_ROUTE_BUCKET_COUNT ==> |Due(dep, index, cutoff, b)| <= n
  }

  lemma {:induction false} EnoughIsFew(dep: Deployment, index: seq<Entry>, steps: seq<Step>, limit: int, cutoff: int,
                                       k: nat)
    requires limit > 0
    requires forall b: nat :: b < USER_ROUTE_BUCKET_COUNT ==> CountPolls(steps, b, limit, cutoff) == k
    ensures EnoughPolls(dep, index, steps, limit, cutoff) <==> FewDue(dep, index, cutoff, k * limit)
  {
    hide CountPolls, Due;
    forall b: nat | b < USER_ROUTE_BUCKET_COUNT
      ensures EnoughFor(dep, index, steps, limit, cutoff, b) <==> |Due(dep, index, cutoff, b)| <= k * limit
    {
      assert CountPolls(steps, b, limit, cutoff) == k;
    }
    hide EnoughFor;
  }

  lemma FewAtMost(dep: Deployment, index: seq<Entry>, cutoff: int, n: int)
    requires |Polled(index, cutoff, 0)| <= n
    ensures FewDue(dep, index, cutoff, n)
  {
    assert Polled(index, cutoff, 0) == RangeByScore(index, cutoff);
    forall b: nat | b < USER_ROUTE_BUCKET_COUNT ensures |Due(dep, index, cutoff, b)| <= n {
      DueIsPart(dep, index, cutoff, b);
    }
  }

  /** With a positive limit, `k` sweeps, of whichever servers and with a clock reading for every
      poll, leave nobody due at `cutoff` if no bucket had more than `k * limit` due users, so
      finitely many suffice; and only if, when those are the only polls. */
  lemma {:induction false} SweepsDrain(dep: Deployment, db: Db, index: seq<Entry>, steps: seq<Step>, limit: int,
                                       cutoff: int, k: nat)
    requires SameIndex(dep, db, index) && NoRegistration(steps) && limit > 0
    requires forall b: nat :: b < USER_ROUTE_BUCKET_COUNT ==> CountPolls(steps, b, limit, cutoff) == k
    ensures var (db', out) := Replay(dep, db, steps);
            && (FewDue(dep, index, cutoff, k * limit) ==> AllAnswerEmpty(db', limit, cutoff))
            && (PollsAt(steps, limit, cutoff) && AllAnswerEmpty(db', limit, cutoff) ==>
                  FewDue(dep, index, cutoff, k * limit))
            && (|Polled(index, cutoff, 0)| <= k * limit ==> FewDue(dep, index, cutoff, k * limit))
            && (AllAnswerEmpty(db', limit, cutoff) <==>
                multiset(DueUsers(dep, db, out, cutoff)) == multiset(Members(Polled(index, cutoff, 0))))
  {
    hide *;
    EnoughIsFew(dep, index, steps, limit, cutoff, k);
    if |Polled(index, cutoff, 0)| <= k * limit { FewAtMost(dep, index, cutoff, k * limit); }
    LimitedPollsDrain(dep, db, index, steps, limit, cutoff);
  }

  /** Polling buckets `0..n` in order. */
  function SweepSteps(limit: int, cutoff: int, n: nat): seq<Step> {
    if n == 0 then [] else SweepSteps(limit, cutoff, n - 1) + [Poll(n - 1, limit, cutoff, true)]
  }

  lemma {:induction false} SweepCounts(limit: int, cutoff: int, n: nat, b: nat)
    ensures CountPolls(SweepSteps(limit, cutoff, n), b, limit, cutoff) == if b < n then 1 else 0
    ensures NoRegistration(SweepSteps(limit, cutoff, n)) && NoneAbove(SweepSteps(limit, cutoff, n), cutoff)
  {
    if n > 0 {
      SweepCounts(limit, cutoff, n - 1, b);
      var all := SweepSteps(limit, cutoff, n);
      assert all[..|all| - 1] == SweepSteps(limit, cutoff, n - 1);
    }
  }

  /** No poll has a cutoff above this one. */
  predicate NoneAbove(steps: seq<Step>, cutoff: int) {
    forall i :: 0 <= i < |steps| && steps[i].Poll? ==> steps[i].cutoff <= cutoff
  }

  lemma {:induction false} TakenBelow(dep: Deployment, z: seq<Entry>, steps: seq<Step>, cutoff: int)
    requires Valid(z) && NoneAbove(steps, cutoff)
    ensures forall e :: e in FlatReplay(dep, z, steps).1 ==> e.score <= cutoff
  {
    hide Valid, Rest, Taken;
    if steps != [] {
      var n := |steps| - 1;
      TakenBelow(dep, z, steps[..n], cutoff);
      EntriesConserved(dep, z, steps[..n], cutoff);
      var rest := FlatReplay(dep, z, steps[..n]).0;
      if InRange(steps[n]) { TakenIsDue(dep, rest, steps[n]); } else { NothingTaken(dep, rest, steps[n]); }
    }
  }

  lemma NothingTaken(dep: Deployment, z: seq<Entry>, step: Step)
    requires !InRange(step)
    ensures Taken(dep, z, step) == []
  {
  }

  /** With no cutoff past `cutoff`, drained means exactly what one unlimited poll means: the same
      users out, up to order, and the same index left. */
  lemma {:induction false} OneCutoffDrain(dep: Deployment, db: Db, index: seq<Entry>, steps: seq<Step>, limit: int,
                                          cutoff: int)
    requires SameIndex(dep, db, index) && NoRegistration(steps) && NoneAbove(steps, cutoff)
    requires EnoughPolls(dep, index, steps, limit, cutoff)
    ensures var (db', out) := Replay(dep, db, steps);
            && multiset(out) == multiset(Members(Polled(index, cutoff, 0)))
            && SameIndex(dep, db', AfterPoll(index, cutoff, 0))
  {
    var (rest, out) := FlatReplay(dep, index, steps);
    assert Polled(index, cutoff, 0) == RangeByScore(index, cutoff);
    LimitedPollsDrain(dep, db, index, steps, limit, cutoff);
    ReplayShards(dep, db, index, steps);
    EntriesConserved(dep, index, steps, cutoff);
    EmptyIffNothingDue(dep, Replay(dep, db, steps).0, rest, limit, cutoff);
    NothingDueIff(dep, rest, cutoff);
    TakenBelow(dep, index, steps, cutoff);
    AllInRange(out, cutoff);
    hide SameIndex, Due, Replay, FlatReplay, EnoughPolls, AllAnswerEmpty, AfterPoll, Polled, Except, DueUsers, Valid;
    SameMembers(out, RangeByScore(index, cutoff));
    RestIsAfterPoll(index, out, rest, cutoff);
  }

  lemma {:induction false} AllInRange(z: seq<Entry>, cutoff: int)
    requires forall e :: e in z ==> e.score <= cutoff
    ensures RangeByScore(z, cutoff) == z
  {
    if z != [] {
      assert z[0] in z;
      AllInRange(z[1..], cutoff);
      assert z == [z[0]] + z[1..];
    }
  }

  lemma {:induction false} RestIsAfterPoll(z: seq<Entry>, out: seq<Entry>, rest: seq<Entry>, cutoff: int)
    requires Valid(z) && Valid(rest) && multiset(z) == multiset(out) + multiset(rest)
    requires RangeByScore(rest, cutoff) == [] && forall e :: e in out ==> e.score <= cutoff
    ensures rest == AfterPoll(z, cutoff, 0)
  {
    PollScores(z, cutoff, 0, "");
    AfterFullPoll(z, cutoff);
    RangeMembers(rest, cutoff);
    hide AfterPoll, RangeByScore;
    forall e ensures e in rest <==> e in AfterPoll(z, cutoff, 0) {
      assert e in z <==> e in multiset(z);
      assert e in out <==> e in multiset(out);
      assert e in rest <==> e in multiset(rest);
    }
    RankedUnique(rest, AfterPoll(z, cutoff, 0));
  }

  /** An unlimited poll leaves exactly the entries scored above the cutoff. */
  lemma AfterFullPoll(z: seq<Entry>, cutoff: int)
    requires Ranked(z)
    ensures forall e :: e in AfterPoll(z, cutoff, 0) <==> e in z && e.score > cutoff
  {
    PollRemovesWhatItReturns(z, cutoff, 0);
    hide AfterPoll, Polled;
    assert forall e :: e in z <==> e in Polled(z, cutoff, 0) || e in AfterPoll(z, cutoff, 0);
  }

  /** Without a limit one sweep does. */
  lemma {:induction false} SweepIsOnePoll(dep: Deployment, db: Db, index: seq<Entry>, cutoff: int)
    requires SameIndex(dep, db, index)
    ensures var (db', out) := Replay(dep, db, SweepSteps(0, cutoff, USER_ROUTE_BUCKET_COUNT));
            && multiset(out) == multiset(Members(Polled(index, cutoff, 0)))
            && SameIndex(dep, db', AfterPoll(index, cutoff, 0))
  {
    var steps := SweepSteps(0, cutoff, USER_ROUTE_BUCKET_COUNT);
    SweepCounts(0, cutoff, USER_ROUTE_BUCKET_COUNT, 0);
    forall b: nat | b < USER_ROUTE_BUCKET_COUNT ensures CountPolls(steps, b, 0, cutoff) == 1 {
      SweepCounts(0, cutoff, USER_ROUTE_BUCKET_COUNT, b);
    }
    hide SameIndex, Due, Replay, SweepSteps, Polled, AfterPoll, CountPolls, NoRegistration, NoneAbove;
    OneCutoffDrain(dep, db, index, steps, 0, cutoff);
  }
}
