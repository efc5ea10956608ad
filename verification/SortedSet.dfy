/** Redis sorted sets, kept in rank order, and what the poll script does to one. */
module SortedSet {
  import opened Text
  import opened Wrappers

  datatype Entry = Entry(score: int, member: string)

  /** Rank order: by score, then by member. */
  predicate Before(a: Entry, b: Entry) {
    a.score < b.score || (a.score == b.score && Less(a.member, b.member))
  }

  lemma BeforeOrder(a: Entry, b: Entry)
    ensures a == b || Before(a, b) || Before(b, a)
    ensures Before(a, b) ==> a != b && !Before(b, a)
  {
    LessTotal(a.member, b.member);
    if Less(a.member, b.member) { LessAsymmetric(a.member, b.member); }
    if Less(b.member, a.member) { LessAsymmetric(b.member, a.member); }
  }

  lemma BeforeTransitive(a: Entry, b: Entry, c: Entry)
    requires Before(a, b) && Before(b, c)
    ensures Before(a, c)
  {
    if a.score == c.score { LessTransitive(a.member, b.member, c.member); }
  }

  predicate Ranked(z: seq<Entry>) {
    forall i, j :: 0 <= i < j < |z| ==> Before(z[i], z[j])
  }

  /** In rank order, each member once. */
  predicate Valid(z: seq<Entry>) {
    Ranked(z) && forall i, j :: 0 <= i < j < |z| ==> z[i].member != z[j].member
  }

  /** Rank order leaves no freedom: equal contents mean equal sequences. */
  lemma {:induction false} RankedUnique(a: seq<Entry>, b: seq<Entry>)
    requires Ranked(a) && Ranked(b)
    requires forall e :: e in a <==> e in b
    ensures a == b
  {
    assert (a != [] ==> a[0] in b) && (b != [] ==> b[0] in a);
    if a != [] && b != [] {
      BeforeOrder(a[0], b[0]);
      if a[0] != b[0] {
        assert false;
      }
      forall e ensures e in a[1..] <==> e in b[1..] {
        BeforeOrder(a[0], e);
        assert e in a <==> e in b;
      }
      RankedUnique(a[1..], b[1..]);
      assert a == [a[0]] + a[1..] && b == [b[0]] + b[1..];
    }
  }

  function ScoreOf(z: seq<Entry>, m: string): Option<int> {
    if z == [] then None
    else if z[0].member == m then Some(z[0].score)
    else ScoreOf(z[1..], m)
  }

  lemma {:induction false} ScoreOfEntry(z: seq<Entry>, m: string, s: int)
    requires Valid(z)
    ensures ScoreOf(z, m) == Some(s) <==> Entry(s, m) in z
  {
    if z != [] {
      ScoreOfEntry(z[1..], m, s);
      assert forall e :: e in z[1..] ==> e in z && e.member != z[0].member;
      assert z == [z[0]] + z[1..];
    }
  }

  lemma {:induction false} ScoreOfNone(z: seq<Entry>, m: string)
    requires Valid(z)
    ensures ScoreOf(z, m) == None <==> forall e :: e in z ==> e.member != m
  {
    forall e | e in z && e.member == m
      ensures ScoreOf(z, m) == Some(e.score)
    {
      ScoreOfEntry(z, m, e.score);
    }
    if ScoreOf(z, m).Some? {
      ScoreOfEntry(z, m, ScoreOf(z, m).value);
    }
  }

  /** Rank order, spelled out: ascending scores, and members in ascending order within a score. */
  lemma RankOrder(z: seq<Entry>, i: nat, j: nat)
    requires Ranked(z) && i < j < |z|
    ensures z[i].score < z[j].score || (z[i].score == z[j].score && Precedes(z[i].member, z[j].member))
  {
    LessIff(z[i].member, z[j].member);
    hide Less, Precedes;
  }

  function Without(z: seq<Entry>, m: string): seq<Entry> {
    if z == [] then []
    else (if z[0].member == m then [] else [z[0]]) + Without(z[1..], m)
  }

  function Insert(z: seq<Entry>, e: Entry): seq<Entry> {
    if z == [] || Before(e, z[0]) then [e] + z else [z[0]] + Insert(z[1..], e)
  }

  /** ZADD: a member already present is moved to its new score. */
  function ZAdd(z: seq<Entry>, score: int, m: string): seq<Entry> {
    Insert(Without(z, m), Entry(score, m))
  }

  lemma ConsValid(x: Entry, rest: seq<Entry>)
    requires Valid(rest)
    requires forall y :: y in rest ==> Before(x, y) && x.member != y.member
    ensures Valid([x] + rest)
  {
    var z := [x] + rest;
    assert forall i :: 1 <= i < |z| ==> z[i] == rest[i - 1] && z[i] in rest;
  }

  lemma HeadOfValid(z: seq<Entry>)
    requires Valid(z) && z != []
    ensures Valid(z[1..])
    ensures forall e :: e in z <==> e == z[0] || e in z[1..]
    ensures forall e :: e in z[1..] ==> Before(z[0], e) && z[0].member != e.member
  {
    assert z == [z[0]] + z[1..];
  }

  lemma {:induction false} WithoutKeeps(z: seq<Entry>, m: string)
    requires Valid(z)
    ensures Valid(Without(z, m))
    ensures forall e :: e in Without(z, m) <==> e in z && e.member != m
  {
    if z != [] {
      HeadOfValid(z);
      WithoutKeeps(z[1..], m);
      ConsValid(z[0], Without(z[1..], m));
    }
  }

  lemma {:induction false} InsertKeeps(z: seq<Entry>, e: Entry)
    requires Valid(z) && forall x :: x in z ==> x.member != e.member
    ensures Valid(Insert(z, e))
    ensures forall x :: x in Insert(z, e) <==> x == e || x in z
  {
    if z == [] {
    } else if Before(e, z[0]) {
      HeadOfValid(z);
      forall x | x in z ensures Before(e, x) {
        if x != z[0] { BeforeTransitive(e, z[0], x); }
      }
      ConsValid(e, z);
    } else {
      HeadOfValid(z);
      BeforeOrder(e, z[0]);
      InsertKeeps(z[1..], e);
      ConsValid(z[0], Insert(z[1..], e));
    }
  }

  /** ZADD keeps the set well formed and overwrites exactly one member's score. */
  lemma {:induction false} ZAddOverwrites(z: seq<Entry>, score: int, m: string)
    requires Valid(z)
    ensures Valid(ZAdd(z, score, m))
    ensures forall e :: e in ZAdd(z, score, m) <==> e == Entry(score, m) || (e in z && e.member != m)
    ensures forall u :: ScoreOf(ZAdd(z, score, m), u) == if u == m then Some(score) else ScoreOf(z, u)
  {
    WithoutKeeps(z, m);
    InsertKeeps(Without(z, m), Entry(score, m));
    var z' := ZAdd(z, score, m);
    forall u ensures ScoreOf(z', u) == if u == m then Some(score) else ScoreOf(z, u) {
      ScoreOfEntry(z', m, score);
      ScoreOfNone(z', u);
      ScoreOfNone(z, u);
      if ScoreOf(z, u).Some? {
        ScoreOfEntry(z, u, ScoreOf(z, u).value);
        ScoreOfEntry(z', u, ScoreOf(z, u).value);
      }
    }
  }

  /** ZRANGE -inf max BYSCORE: the entries scored at most `max`, wherever they are. */
  function RangeByScore(z: seq<Entry>, max: int): seq<Entry> {
    if z == [] then []
    else (if z[0].score <= max then [z[0]] else []) + RangeByScore(z[1..], max)
  }

  /** LIMIT 0 limit, used by the script only when `limit > 0`. */
  function Limit<T>(s: seq<T>, limit: int): seq<T> {
    if 0 < limit < |s| then s[..limit] else s
  }

  /** ZREMRANGEBYRANK start stop, both ranks included, for `0 <= start` and `-1 <= stop`. */
  function RemoveRanks(z: seq<Entry>, start: nat, stop: int): seq<Entry>
    requires -1 <= stop
  {
    if start > stop || start >= |z| then z
    else z[..start] + (if stop + 1 <= |z| then z[stop + 1..] else [])
  }

  /** The entries the poll script returns. */
  function Polled(z: seq<Entry>, max: int, limit: int): seq<Entry> {
    Limit(RangeByScore(z, max), limit)
  }

  /** The sorted set the poll script leaves behind. */
  function AfterPoll(z: seq<Entry>, max: int, limit: int): seq<Entry> {
    var count := |Polled(z, max, limit)|;
    if count > 0 then RemoveRanks(z, 0, count - 1) else z
  }

  lemma {:induction false} RangeByScoreIsPrefix(z: seq<Entry>, max: int)
    requires Ranked(z)
    ensures |RangeByScore(z, max)| <= |z|
    ensures RangeByScore(z, max) == z[..|RangeByScore(z, max)|]
    ensures forall i :: 0 <= i < |z| ==> (z[i].score <= max <==> i < |RangeByScore(z, max)|)
  {
    if z != [] {
      RangeByScoreIsPrefix(z[1..], max);
      var n := |RangeByScore(z[1..], max)|;
      assert forall i :: 1 <= i < |z| ==> z[i] == z[1..][i - 1] && Before(z[0], z[i]);
      assert n > 0 ==> z[1].score <= max && z[0].score <= z[1].score;
      if z[0].score <= max {
        assert z[..n + 1] == [z[0]] + z[1..][..n];
      }
    }
  }

  /** The script selects by score and removes by rank; both mean the same entries. What is
      returned is taken off the front, nothing else is removed, and a poll that returns
      fewer entries than its limit leaves nothing expired behind. */
  lemma PollRemovesWhatItReturns(z: seq<Entry>, max: int, limit: int)
    requires Ranked(z)
    ensures z == Polled(z, max, limit) + AfterPoll(z, max, limit)
    ensures forall e :: e in Polled(z, max, limit) ==> e.score <= max
    ensures limit <= 0 || |Polled(z, max, limit)| < limit ==>
              forall e :: e in AfterPoll(z, max, limit) ==> e.score > max
    ensures limit > 0 ==> |Polled(z, max, limit)| <= limit
    ensures multiset(z) == multiset(Polled(z, max, limit)) + multiset(AfterPoll(z, max, limit))
  {
    RangeByScoreIsPrefix(z, max);
    hide RangeByScore;
    var n := |Polled(z, max, limit)|;
    var p, q := Polled(z, max, limit), AfterPoll(z, max, limit);
    assert p == z[..n] && q == z[n..];
    hide *;
    assert z == p + q;
  }

  lemma {:induction false} ScoreOfSplit(p: seq<Entry>, q: seq<Entry>, u: string)
    requires Valid(p + q)
    ensures Valid(p) && Valid(q)
    ensures ScoreOf(p + q, u) == if ScoreOf(p, u).Some? then ScoreOf(p, u) else ScoreOf(q, u)
    ensures ScoreOf(p, u).Some? ==> ScoreOf(q, u) == None
  {
    var z := p + q;
    if p == [] {
      assert z == q;
    } else {
      HeadOfValid(z);
      assert z[1..] == p[1..] + q;
      ScoreOfSplit(p[1..], q, u);
      assert p == [p[0]] + p[1..];
      assert forall y :: y in p[1..] ==> y in z[1..];
      ConsValid(p[0], p[1..]);
      assert forall y :: y in q ==> y in z[1..];
      ScoreOfNone(q, p[0].member);
    }
  }

  /** Polling in terms of members: the polled ones lose their score, the others keep it. */
  lemma {:induction false} PollScores(z: seq<Entry>, max: int, limit: int, u: string)
    requires Valid(z)
    ensures Valid(AfterPoll(z, max, limit)) && Valid(Polled(z, max, limit))
    ensures var out := ScoreOf(Polled(z, max, limit), u);
            && (out.Some? ==> out == ScoreOf(z, u) && out.value <= max)
            && ScoreOf(AfterPoll(z, max, limit), u) == if out.Some? then None else ScoreOf(z, u)
  {
    PollRemovesWhatItReturns(z, max, limit);
    var p := Polled(z, max, limit);
    ScoreOfSplit(p, AfterPoll(z, max, limit), u);
    if ScoreOf(p, u).Some? {
      ScoreOfEntry(p, u, ScoreOf(p, u).value);
    }
  }

  // ----- Draining -----

  function Flatten<T>(batches: seq<seq<T>>): seq<T> {
    if batches == [] then [] else batches[0] + Flatten(batches[1..])
  }

  /** Polling with one cutoff until a poll comes back empty: the non-empty batches. */
  function Drain(z: seq<Entry>, max: int, limit: int): seq<seq<Entry>>
    decreases |z|
  {
    var batch := Polled(z, max, limit);
    if batch == [] then []
    else [batch] + Drain(AfterPoll(z, max, limit), max, limit)
  }

  lemma {:induction false} RangeAfterPrefix(z: seq<Entry>, max: int, n: nat)
    requires Ranked(z) && n <= |RangeByScore(z, max)|
    ensures n <= |z|
    ensures RangeByScore(z, max) == z[..n] + RangeByScore(z[n..], max)
  {
    RangeByScoreIsPrefix(z, max);
    if n > 0 {
      assert z[0].score <= max;
      RangeAfterPrefix(z[1..], max, n - 1);
      assert z[1..][n - 1..] == z[n..];
      assert z[..n] == [z[0]] + z[1..][..n - 1];
    }
  }

  /** One poll of a drain: what is taken, and what the same cutoff would still return. */
  lemma {:induction false} DrainStep(z: seq<Entry>, max: int, limit: int)
    requires Ranked(z) && limit > 0
    ensures var batch, rest := Polled(z, max, limit), AfterPoll(z, max, limit);
            && Ranked(rest)
            && |rest| == |z| - |batch|
            && RangeByScore(z, max) == batch + RangeByScore(rest, max)
            && |batch| <= limit
            && (RangeByScore(rest, max) != [] ==> |batch| == limit)
            && (batch == [] ==> RangeByScore(z, max) == [])
  {
    PollRemovesWhatItReturns(z, max, limit);
    RangeByScoreIsPrefix(z, max);
    var n := |Polled(z, max, limit)|;
    assert Polled(z, max, limit) == z[..n] && AfterPoll(z, max, limit) == z[n..];
    RangeAfterPrefix(z, max, n);
  }

  function BatchCount(n: nat, limit: int): nat
    requires limit > 0
  {
    if n == 0 then 0 else 1 + BatchCount(if n < limit then 0 else n - limit, limit)
  }

  lemma {:induction false} BatchCountIsCeiling(n: nat, limit: int)
    requires limit > 0
    ensures BatchCount(n, limit) == (n + limit - 1) / limit
  {
    if n > limit {
      BatchCountIsCeiling(n - limit, limit);
      DivStep(n - 1, limit);
    } else if n > 0 {
      assert BatchCount(0, limit) == 0;
      DivStep(n - 1, limit);
    }
  }

  lemma DivStep(a: nat, k: int)
    requires k > 0
    ensures (a + k) / k == a / k + 1
  {
    assert (a + k) / k - a / k - 1 == 0 by {
      var d := (a + k) / k - a / k - 1;
      assert d * k == a % k - (a + k) % k;
      assert -k < d * k < k;
    }
  }

  lemma {:induction false} DrainBatches(z: seq<Entry>, max: int, limit: int)
    requires Ranked(z) && limit > 0
    ensures Flatten(Drain(z, max, limit)) == RangeByScore(z, max)
    ensures |Drain(z, max, limit)| == BatchCount(|RangeByScore(z, max)|, limit)
    ensures forall i :: 0 <= i < |Drain(z, max, limit)| - 1 ==> |Drain(z, max, limit)[i]| == limit
    decreases |z|
  {
    DrainStep(z, max, limit);
    var batch, rest := Polled(z, max, limit), AfterPoll(z, max, limit);
    if batch != [] {
      DrainBatches(rest, max, limit);
      assert Drain(z, max, limit) == [batch] + Drain(rest, max, limit);
    }
  }

  /** Draining in batches of `limit` hands out the very list one unlimited poll would,
      in the same order, in as few batches as that list has room for, all full but the last. */
  lemma {:induction false} DrainIsOneBigPoll(z: seq<Entry>, max: int, limit: int)
    requires Ranked(z) && limit > 0
    ensures Flatten(Drain(z, max, limit)) == Polled(z, max, 0)
    ensures |Drain(z, max, limit)| == (|Polled(z, max, 0)| + limit - 1) / limit
    ensures forall i :: 0 <= i < |Drain(z, max, limit)| - 1 ==> |Drain(z, max, limit)[i]| == limit
  {
    assert Polled(z, max, 0) == RangeByScore(z, max);
    hide *;
    DrainBatches(z, max, limit);
    BatchCountIsCeiling(|RangeByScore(z, max)|, limit);
  }
}
