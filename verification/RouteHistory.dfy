/** What the route hashes hold is what the history of the run says. */
module RouteHistory {
  import opened Units
  import opened Wrappers
  import opened Text
  import opened RouteKeys
  import opened RouteDb

  /** Step `i` registered the connection and nothing after it touched that connection. */
  ghost predicate LastTouch(dep: Deployment, steps: seq<Step>, i: int, u: string, c: string) {
    && 0 <= i < |steps|
    && Registers(dep, steps[i], u, c)
    && forall j :: i < j < |steps| ==> !Registers(dep, steps[j], u, c) && !Removes(steps[j], u, c)
  }

  /** Redis time just before step `i` of the run. */
  function TimeOf(dep: Deployment, steps: seq<Step>, i: nat): int
    requires i <= |steps|
  {
    Run(dep, steps[..i]).clock
  }

  function LeaseMillis(dep: Deployment): int {
    dep.TtlSeconds() * 1000
  }

  /** The last event on the connection is a registration at step `i`, which wrote `lease`. */
  ghost predicate LastWrote(dep: Deployment, steps: seq<Step>, i: int, u: string, c: string, lease: Lease) {
    && LastTouch(dep, steps, i, u, c)
    && lease == Lease(steps[i].serverID, TimeOf(dep, steps, i) + LeaseMillis(dep))
  }

  lemma LastTouchCarries(dep: Deployment, pre: seq<Step>, step: Step, i: int, u: string, c: string)
    requires !Registers(dep, step, u, c) && !Removes(step, u, c)
    ensures LastTouch(dep, pre + [step], i, u, c) <==> LastTouch(dep, pre, i, u, c)
    ensures 0 <= i < |pre| ==> TimeOf(dep, pre + [step], i) == TimeOf(dep, pre, i)
  {
    var all := pre + [step];
    assert forall j :: 0 <= j < |pre| ==> all[j] == pre[j];
    if 0 <= i < |pre| { assert all[..i] == pre[..i]; }
  }

  /** What the stored lease, if any, must look like given the history. */
  ghost predicate ExplainedBy(dep: Deployment, steps: seq<Step>, u: string, c: string, route: Option<Lease>) {
    match route
    case None => forall i :: !LastTouch(dep, steps, i, u, c)
    case Some(lease) => exists i :: LastWrote(dep, steps, i, u, c, lease)
  }

  lemma ExplainedCarries(dep: Deployment, pre: seq<Step>, step: Step, u: string, c: string, route: Option<Lease>)
    requires !Registers(dep, step, u, c) && !Removes(step, u, c)
    requires ExplainedBy(dep, pre, u, c, route)
    ensures ExplainedBy(dep, pre + [step], u, c, route)
  {
    forall i ensures LastTouch(dep, pre + [step], i, u, c) <==> LastTouch(dep, pre, i, u, c) {
      LastTouchCarries(dep, pre, step, i, u, c);
    }
    if route.Some? {
      var i :| LastWrote(dep, pre, i, u, c, route.value);
      LastTouchCarries(dep, pre, step, i, u, c);
      assert LastWrote(dep, pre + [step], i, u, c, route.value);
    }
  }

  lemma {:induction false} ExplainedByLast(dep: Deployment, pre: seq<Step>, step: Step, u: string, c: string)
    ensures Registers(dep, step, u, c) ==>
              ExplainedBy(dep, pre + [step], u, c, Some(NewLease(dep, Run(dep, pre), step.serverID)))
    ensures Removes(step, u, c) ==> ExplainedBy(dep, pre + [step], u, c, None)
  {
    var all := pre + [step];
    assert all[|pre|] == step && all[..|pre|] == pre;
    if Registers(dep, step, u, c) {
      assert LastWrote(dep, all, |pre|, u, c, NewLease(dep, Run(dep, pre), step.serverID));
    }
  }

  /** The stored lease is the one written by the last registration, if nothing removed it since. */
  lemma {:induction false} RouteIsLastWritten(dep: Deployment, steps: seq<Step>, u: string, c: string)
    requires Clean(u) && Clean(c)
    ensures ExplainedBy(dep, steps, u, c, RouteOf(dep, Run(dep, steps), u, c))
  {
    if steps != [] {
      hide Apply, RouteOf, ExplainedBy;
      var n := |steps| - 1;
      var pre, step := steps[..n], steps[n];
      assert steps == pre + [step];
      RouteIsLastWritten(dep, pre, u, c);
      RouteEffect(dep, Run(dep, pre), step, u, c);
      if Registers(dep, step, u, c) || Removes(step, u, c) {
        ExplainedByLast(dep, pre, step, u, c);
      } else {
        ExplainedCarries(dep, pre, step, u, c, RouteOf(dep, Run(dep, pre), u, c));
      }
    }
  }

  /** Connection `c` of user `u` was last registered by server `s`, and that lease still runs. */
  ghost predicate Connected(dep: Deployment, steps: seq<Step>, u: string, c: string, s: string) {
    exists i :: LastTouch(dep, steps, i, u, c) && steps[i].serverID == s
                && Run(dep, steps).clock <= TimeOf(dep, steps, i) + LeaseMillis(dep)
  }

  /** The routes of a user as HGETALL shows them. */
  function Routes(dep: Deployment, db: Db, u: string): map<string, string> {
    HGetAll(db, dep.RouteKey(u))
  }

  /** Listing equals history, in every reachable state: a pair is listed exactly when the last
      successful event on that connection is a registration by that server whose whole-second
      lease has not run out. */
  lemma {:induction false} ListingIsHistory(dep: Deployment, steps: seq<Step>, u: string, c: string, s: string)
    requires LegalRun(steps) && Clean(u)
    ensures c in Routes(dep, Run(dep, steps), u) && Routes(dep, Run(dep, steps), u)[c] == s
            <==> Clean(c) && Connected(dep, steps, u, c, s)
  {
    StoredConnectionsClean(dep, steps, u);
    if Clean(c) {
      RouteIsLastWritten(dep, steps, u, c);
      var route := RouteOf(dep, Run(dep, steps), u, c);
      if route.Some? {
        var i :| LastWrote(dep, steps, i, u, c, route.value);
        assert forall j :: LastTouch(dep, steps, j, u, c) ==> j == i;
      }
    }
  }

  lemma {:induction false} StoredConnectionsClean(dep: Deployment, steps: seq<Step>, u: string)
    requires LegalRun(steps)
    ensures forall c :: c in Routes(dep, Run(dep, steps), u) ==> Clean(c) && Clean(Routes(dep, Run(dep, steps), u)[c])
  {
    RunPlaced(dep, steps);
    var db := Run(dep, steps);
    assert dep.RouteKey(u) in db.hashes ==> PlacedHash(dep, dep.RouteKey(u), db.hashes[dep.RouteKey(u)]);
  }

  /** A connection that was pinged within one lease and not removed since is never missing. */
  lemma {:induction false} PingedConnectionIsListed(dep: Deployment, steps: seq<Step>, i: nat, u: string, c: string)
    requires LegalRun(steps) && Clean(u) && Clean(c)
    requires i < |steps| && Registers(dep, steps[i], u, c)
    requires forall j :: i < j < |steps| ==> !Removes(steps[j], u, c)
    requires Run(dep, steps).clock <= TimeOf(dep, steps, i) + LeaseMillis(dep)
    ensures c in Routes(dep, Run(dep, steps), u)
  {
    LeaseKept(dep, steps, i, u, c);
  }

  lemma {:induction false} LeaseKept(dep: Deployment, steps: seq<Step>, i: nat, u: string, c: string)
    requires Clean(u) && Clean(c)
    requires i < |steps| && Registers(dep, steps[i], u, c)
    requires forall j :: i < j < |steps| ==> !Removes(steps[j], u, c)
    ensures RouteOf(dep, Run(dep, steps), u, c).Some?
    ensures RouteOf(dep, Run(dep, steps), u, c).value.deadline >= TimeOf(dep, steps, i) + LeaseMillis(dep)
  {
    hide Apply, RouteOf;
    var n := |steps| - 1;
    var pre, step := steps[..n], steps[n];
    var now := Run(dep, pre).clock;
    RouteEffect(dep, Run(dep, pre), step, u, c);
    assert pre[..i] == steps[..i];
    assert TimeOf(dep, steps, i) <= now by { ClockMonotone(dep, pre, i); }
    if i < n {
      LeaseKept(dep, pre, i, u, c);
    }
  }

  /** No stored deadline lies more than one lease ahead of the clock. */
  lemma {:induction false} DeadlineBound(dep: Deployment, steps: seq<Step>, u: string, c: string)
    requires Clean(u) && Clean(c) && RouteOf(dep, Run(dep, steps), u, c).Some?
    ensures RouteOf(dep, Run(dep, steps), u, c).value.deadline <= Run(dep, steps).clock + LeaseMillis(dep)
  {
    RouteIsLastWritten(dep, steps, u, c);
    var i :| LastWrote(dep, steps, i, u, c, RouteOf(dep, Run(dep, steps), u, c).value);
    ClockMonotone(dep, steps, i);
  }

  /** A registration that reaches Redis shows at once, under the server that made it. */
  lemma {:induction false} RegisteredRouteShows(dep: Deployment, steps: seq<Step>, serverID: string, userID: string,
                             connectionID: string, now: int)
    requires TrimSpace(userID) != "" && TrimSpace(connectionID) != "" && dep.TtlSeconds() > 0
    ensures var after := Run(dep, steps + [Register(serverID, userID, connectionID, now)]);
            var routes := Routes(dep, after, TrimSpace(userID));
            TrimSpace(connectionID) in routes && routes[TrimSpace(connectionID)] == serverID
  {
    var step := Register(serverID, userID, connectionID, now);
    RunSnoc(dep, steps, step);
    TrimmedClean(userID);
    TrimmedClean(connectionID);
    RouteEffect(dep, Run(dep, steps), step, TrimSpace(userID), TrimSpace(connectionID));
    RegisterKeepsClock(dep, Run(dep, steps), step);
    hide Apply, TrimSpace;
  }

  lemma RegisterKeepsClock(dep: Deployment, db: Db, step: Step)
    requires step.Register?
    ensures Apply(dep, db, step).clock == db.clock
  {
  }

  /** A removal that reaches Redis takes effect at once. */
  lemma {:induction false} RemovedRouteGone(dep: Deployment, steps: seq<Step>, userID: string, connectionID: string)
    requires TrimSpace(userID) != "" && TrimSpace(connectionID) != ""
    ensures TrimSpace(connectionID) !in Routes(dep, Run(dep, steps + [Remove(userID, connectionID)]), TrimSpace(userID))
  {
    var step := Remove(userID, connectionID);
    RunSnoc(dep, steps, step);
    TrimmedClean(userID);
    TrimmedClean(connectionID);
    RouteEffect(dep, Run(dep, steps), step, TrimSpace(userID), TrimSpace(connectionID));
    hide Apply, TrimSpace;
  }

  /** A route left behind, by a failed removal or by a ping that arrives after the removal,
      outlives the last registration of its connection by at most one lease. */
  lemma {:induction false} AbandonedRouteDies(dep: Deployment, steps: seq<Step>, last: nat, u: string, c: string)
    requires LegalRun(steps) && Clean(u) && last <= |steps|
    requires forall j :: last <= j < |steps| ==> !Registers(dep, steps[j], u, c)
    requires Run(dep, steps).clock > TimeOf(dep, steps, last) + LeaseMillis(dep)
    ensures c !in Routes(dep, Run(dep, steps), u)
  {
    if c in Routes(dep, Run(dep, steps), u) {
      var s := Routes(dep, Run(dep, steps), u)[c];
      ListingIsHistory(dep, steps, u, c, s);
      var i :| LastTouch(dep, steps, i, u, c) && steps[i].serverID == s
               && Run(dep, steps).clock <= TimeOf(dep, steps, i) + LeaseMillis(dep);
      ClockBetween(dep, steps, i, last);
    }
  }

  /** The constructor accepts every positive TTL, but Redis refuses a lifetime of zero seconds:
      registering works exactly when the TTL is at least one second. */
  lemma {:induction false} RegistrationWorksIff(dep: Deployment, steps: seq<Step>, step: Step)
    requires LegalRun(steps) && step.Register? && Legal(step) && dep.routeTTL > 0
    requires Clean(step.userID) && Clean(step.connectionID)
    ensures var after := Run(dep, steps + [step]);
            (step.connectionID in Routes(dep, after, step.userID)
             && Routes(dep, after, step.userID)[step.connectionID] == step.serverID)
            <==> dep.routeTTL >= SECOND
  {
    var u, c := step.userID, step.connectionID;
    var all := steps + [step];
    TrimSpaceTrims(u);
    TrimSpaceTrims(c);
    assert all[..|steps|] == steps;
    if dep.routeTTL >= SECOND {
      RouteEffect(dep, Run(dep, steps), step, u, c);
    } else {
      NothingRegistered(dep, all);
    }
  }

  /** Below one second of TTL the registry stays empty through every run. */
  lemma {:induction false} NothingRegistered(dep: Deployment, steps: seq<Step>)
    requires dep.routeTTL < SECOND
    ensures Run(dep, steps).hashes == map[] && Run(dep, steps).zsets == map[]
  {
    if steps != [] {
      NothingRegistered(dep, steps[..|steps| - 1]);
    }
  }
}
