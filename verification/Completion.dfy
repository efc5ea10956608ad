/** The completion channels of the app and of its RPC server, as a concurrent step model: bounded
    channels, the goroutines that send on them, and any interleaving of their moves. */
module Completion {
  import opened Wrappers

  const APP_DONE_CAPACITY := 3
  const GRPC_DONE_CAPACITY := 1

  /** What a goroutine reports: nil, a canceled context, or some other failure. */
  datatype Report = NoError | Canceled | Failure(reason: string)

  /** The goroutines of one `Start`: the push subscriber, the HTTP server, the gRPC server, and
      the one that forwards the gRPC server's failure. */
  datatype Kind = PushLoop | HttpRun | GrpcServe | GrpcForward

  datatype Status = Running | Sending(report: Report) | Finished

  datatype Proc = Proc(kind: Kind, status: Status)

  datatype Sys = Sys(procs: seq<Proc>, appDone: seq<Report>, grpcDone: seq<Report>, starts: nat)

  /** `Start` launches its goroutines; the subscriber exists only if push is configured. A
      goroutine's work returns some report at any time, in particular after `Shutdown`. A pending
      send goes through when its channel has room. Anyone may read `App.Done`, or nobody. */
  datatype Step =
    | Start
    | Return(proc: nat, report: Report)
    | Forward(proc: nat)
    | Send(proc: nat)
    | ReadDone

  function Launched(push: bool): seq<Proc> {
    (if push then [Proc(PushLoop, Running)] else [])
    + [Proc(GrpcServe, Running), Proc(HttpRun, Running), Proc(GrpcForward, Running)]
  }

  /** What a goroutine does once its work has returned: the subscriber keeps nil and cancelation
      to itself, the servers report whatever came back. */
  function AfterReturn(kind: Kind, report: Report): Status {
    if kind == PushLoop && !report.Failure? then Finished else Sending(report)
  }

  function HasRoom(s: Sys, kind: Kind): bool {
    if kind == GrpcServe then |s.grpcDone| < GRPC_DONE_CAPACITY else |s.appDone| < APP_DONE_CAPACITY
  }

  predicate Enabled(s: Sys, step: Step) {
    match step
    case Start => true
    case Return(i, _) => i < |s.procs| && s.procs[i].status.Running? && s.procs[i].kind != GrpcForward
    case Forward(i) => i < |s.procs| && s.procs[i] == Proc(GrpcForward, Running) && s.grpcDone != []
    case Send(i) => i < |s.procs| && s.procs[i].status.Sending? && HasRoom(s, s.procs[i].kind)
    case ReadDone => s.appDone != []
  }

  function Set(s: Sys, i: nat, status: Status): Sys
    requires i < |s.procs|
  {
    s.(procs := s.procs[i := s.procs[i].(status := status)])
  }

  function Apply(push: bool, s: Sys, step: Step): Sys
    requires Enabled(s, step)
  {
    match step
    case Start => s.(procs := s.procs + Launched(push), starts := s.starts + 1)
    case Return(i, report) => Set(s, i, AfterReturn(s.procs[i].kind, report))
    case Forward(i) =>
      var report := s.grpcDone[0];
      Set(s.(grpcDone := s.grpcDone[1..]), i, if report == NoError then Finished else Sending(report))
    case Send(i) =>
      var report := s.procs[i].status.report;
      if s.procs[i].kind == GrpcServe
      then Set(s.(grpcDone := s.grpcDone + [report]), i, Finished)
      else Set(s.(appDone := s.appDone + [report]), i, Finished)
    case ReadDone => s.(appDone := s.appDone[1..])
  }

  /** The state an interleaving leads to, unless some step of it is not possible. */
  function After(push: bool, steps: seq<Step>): Option<Sys> {
    if steps == [] then Some(Sys([], [], [], 0))
    else
      var pre, step := After(push, steps[..|steps| - 1]), steps[|steps| - 1];
      if pre == None || !Enabled(pre.value, step) then None else Some(Apply(push, pre.value, step))
  }

  /** A goroutine wants to send and its channel is full. */
  ghost predicate Blocked(s: Sys) {
    exists i :: 0 <= i < |s.procs| && s.procs[i].status.Sending? && !HasRoom(s, s.procs[i].kind)
  }

  /** Goroutines that may still send on the gRPC server's channel, or on the app's. */
  function Owed(procs: seq<Proc>, grpc: bool): nat {
    if procs == [] then 0
    else (if procs[0].status != Finished && (procs[0].kind == GrpcServe) == grpc then 1 else 0) + Owed(procs[1..], grpc)
  }

  lemma {:induction false} OwedAppend(a: seq<Proc>, b: seq<Proc>, grpc: bool)
    ensures Owed(a + b, grpc) == Owed(a, grpc) + Owed(b, grpc)
  {
    if a == [] {
      assert a + b == b;
    } else {
      assert (a + b)[1..] == a[1..] + b;
      OwedAppend(a[1..], b, grpc);
    }
  }

  lemma {:induction false} OwedUpdate(procs: seq<Proc>, i: nat, p: Proc, grpc: bool)
    requires i < |procs| && p.kind == procs[i].kind
    ensures Owed(procs[i := p], grpc) + Owed([procs[i]], grpc) == Owed(procs, grpc) + Owed([p], grpc)
  {
    if i == 0 {
      assert procs[0 := p][1..] == procs[1..];
    } else {
      assert procs[i := p][1..] == procs[1..][i - 1 := p];
      OwedUpdate(procs[1..], i - 1, p, grpc);
    }
  }

  lemma LaunchedOwes(push: bool)
    ensures Owed(Launched(push), true) == 1
    ensures Owed(Launched(push), false) == if push then 3 else 2
  {
    var rest := [Proc(GrpcServe, Running), Proc(HttpRun, Running), Proc(GrpcForward, Running)];
    assert rest[1..] == [Proc(HttpRun, Running), Proc(GrpcForward, Running)];
    assert rest[1..][1..] == [Proc(GrpcForward, Running)];
    assert rest[1..][1..][1..] == [];
    OwedAppend([Proc(PushLoop, Running)], rest, true);
    OwedAppend([Proc(PushLoop, Running)], rest, false);
    assert [Proc(PushLoop, Running)][1..] == [];
    if !push { assert Launched(push) == rest; }
  }

  /** Sent and still-possible sends together never exceed what each `Start` brings, even if
      nobody ever reads. */
  ghost predicate WithinBudget(push: bool, s: Sys) {
    && |s.grpcDone| + Owed(s.procs, true) <= s.starts
    && |s.appDone| + Owed(s.procs, false) <= (if push then 3 else 2) * s.starts
  }

  lemma StepKeepsBudget(push: bool, s: Sys, step: Step)
    requires WithinBudget(push, s) && Enabled(s, step)
    ensures WithinBudget(push, Apply(push, s, step))
  {
    match step
    case Start =>
      LaunchedOwes(push);
      OwedAppend(s.procs, Launched(push), true);
      OwedAppend(s.procs, Launched(push), false);
    case Return(i, report) =>
      var p := s.procs[i].(status := AfterReturn(s.procs[i].kind, report));
      OwedUpdate(s.procs, i, p, true);
      OwedUpdate(s.procs, i, p, false);
    case Forward(i) =>
      var p := s.procs[i].(status := if s.grpcDone[0] == NoError then Finished else Sending(s.grpcDone[0]));
      OwedUpdate(s.procs, i, p, true);
      OwedUpdate(s.procs, i, p, false);
    case Send(i) =>
      var p := s.procs[i].(status := Finished);
      OwedUpdate(s.procs, i, p, true);
      OwedUpdate(s.procs, i, p, false);
    case ReadDone =>
  }

  function Starts(steps: seq<Step>): nat {
    if steps == [] then 0 else Starts(steps[..|steps| - 1]) + if steps[|steps| - 1].Start? then 1 else 0
  }

  lemma {:induction false} BudgetAlways(push: bool, steps: seq<Step>, s: Sys)
    requires After(push, steps) == Some(s)
    ensures WithinBudget(push, s) && s.starts == Starts(steps)
  {
    if steps != [] {
      var pre := After(push, steps[..|steps| - 1]).value;
      BudgetAlways(push, steps[..|steps| - 1], pre);
      StepKeepsBudget(push, pre, steps[|steps| - 1]);
      hide WithinBudget;
    }
  }

  lemma {:induction false} SenderOwes(procs: seq<Proc>, i: nat)
    requires i < |procs| && procs[i].status.Sending?
    ensures Owed(procs, procs[i].kind == GrpcServe) >= 1
  {
    if i > 0 {
      SenderOwes(procs[1..], i - 1);
    }
  }

  lemma {:induction false} OneStartNeverBlocks(push: bool, steps: seq<Step>, s: Sys)
    requires After(push, steps) == Some(s) && Starts(steps) <= 1
    ensures !Blocked(s)
  {
    BudgetAlways(push, steps, s);
    forall i | 0 <= i < |s.procs| && s.procs[i].status.Sending?
      ensures HasRoom(s, s.procs[i].kind)
    {
      SenderOwes(s.procs, i);
    }
  }

  // ----- No report is lost -----

  /** What `App.Done` is for: whatever the HTTP server returns, and the failures of the others,
      cancelation of the gRPC server included. */
  predicate MustArrive(kind: Kind, report: Report) {
    match kind
    case HttpRun => true
    case GrpcServe => report != NoError
    case PushLoop => report.Failure?
    case GrpcForward => false
  }

  function One(b: bool): nat {
    if b then 1 else 0
  }

  /** Whether the step's work returns `r`, and it must arrive. */
  predicate Returns(s: Sys, step: Step, r: Report) {
    step.Return? && step.report == r && step.proc < |s.procs| && MustArrive(s.procs[step.proc].kind, r)
  }

  predicate Reads(s: Sys, step: Step, r: Report) {
    step.ReadDone? && s.appDone != [] && s.appDone[0] == r
  }

  /** How often work has returned the report so far, such that it must arrive. */
  function Due(push: bool, steps: seq<Step>, r: Report): nat {
    if steps == [] then 0 else
      var pre := steps[..|steps| - 1];
      Due(push, pre, r) + One(After(push, pre).Some? && Returns(After(push, pre).value, steps[|pre|], r))
  }

  /** How often the report has been read from `App.Done` so far. */
  function Read(push: bool, steps: seq<Step>, r: Report): nat {
    if steps == [] then 0 else
      var pre := steps[..|steps| - 1];
      Read(push, pre, r) + One(After(push, pre).Some? && Reads(After(push, pre).value, steps[|pre|], r))
  }

  function Times(reports: seq<Report>, r: Report): nat {
    if reports == [] then 0 else One(reports[0] == r) + Times(reports[1..], r)
  }

  /** The goroutine has the report to send, and it is not a gRPC server's nil, which the forwarder
      will drop. */
  predicate Holds(p: Proc, r: Report) {
    p.status == Sending(r) && (p.kind == GrpcServe ==> r != NoError)
  }

  function Pending(procs: seq<Proc>, r: Report): nat {
    if procs == [] then 0 else One(Holds(procs[0], r)) + Pending(procs[1..], r)
  }

  lemma {:induction false} PendingAppend(a: seq<Proc>, b: seq<Proc>, r: Report)
    ensures Pending(a + b, r) == Pending(a, r) + Pending(b, r)
  {
    hide Holds;
    if a == [] {
      assert a + b == b;
    } else {
      assert (a + b)[1..] == a[1..] + b;
      PendingAppend(a[1..], b, r);
    }
  }

  lemma {:induction false} PendingUpdate(procs: seq<Proc>, i: nat, p: Proc, r: Report)
    requires i < |procs|
    ensures Pending(procs[i := p], r) + One(Holds(procs[i], r)) == Pending(procs, r) + One(Holds(p, r))
  {
    hide Holds;
    if i == 0 {
      assert procs[0 := p][1..] == procs[1..];
    } else {
      assert procs[i := p][1..] == procs[1..][i - 1 := p];
      PendingUpdate(procs[1..], i - 1, p, r);
    }
  }

  lemma {:induction false} TimesAppend(a: seq<Report>, b: seq<Report>, r: Report)
    ensures Times(a + b, r) == Times(a, r) + Times(b, r)
  {
    if a == [] {
      assert a + b == b;
    } else {
      assert (a + b)[1..] == a[1..] + b;
      TimesAppend(a[1..], b, r);
    }
  }

  lemma {:induction false} TimesSnoc(a: seq<Report>, x: Report, r: Report)
    ensures Times(a + [x], r) == Times(a, r) + One(x == r)
  {
    TimesAppend(a, [x], r);
    assert [x][1..] == [];
  }

  lemma {:induction false} NothingPending(procs: seq<Proc>, r: Report)
    requires forall i :: 0 <= i < |procs| ==> !procs[i].status.Sending?
    ensures Pending(procs, r) == 0
  {
    if procs != [] {
      assert !procs[0].status.Sending?;
      NothingPending(procs[1..], r);
    }
  }

  /** How often the report waits in `App.Done` or is still on its way there. */
  function OnTheWay(s: Sys, r: Report): nat {
    Times(s.appDone, r) + (if r == NoError then 0 else Times(s.grpcDone, r)) + Pending(s.procs, r)
  }

  /** The subscriber only sends failures, and the forwarder only errors. */
  predicate Reasonable(p: Proc) {
    p.status.Sending? ==>
      && (p.kind == PushLoop ==> p.status.report.Failure?)
      && (p.kind == GrpcForward ==> p.status.report != NoError)
  }

  ghost predicate AllReasonable(s: Sys) {
    forall i :: 0 <= i < |s.procs| ==> Reasonable(s.procs[i])
  }

  lemma StepKeepsReasonable(push: bool, s: Sys, step: Step)
    requires Enabled(s, step) && AllReasonable(s)
    ensures AllReasonable(Apply(push, s, step))
  {
    if step.Start? {
      assert forall i :: 0 <= i < |Launched(push)| ==> Launched(push)[i].status == Running;
      hide Launched;
    }
  }

  lemma StepKeepsReports(push: bool, s: Sys, step: Step, r: Report)
    requires Enabled(s, step) && AllReasonable(s)
    ensures OnTheWay(Apply(push, s, step), r) + One(Reads(s, step, r)) == OnTheWay(s, r) + One(Returns(s, step, r))
  {
    match step
    case Start =>
      PendingAppend(s.procs, Launched(push), r);
      NothingPending(Launched(push), r);
      hide Pending, Times, Launched;
    case Return(i, report) =>
      PendingUpdate(s.procs, i, s.procs[i].(status := AfterReturn(s.procs[i].kind, report)), r);
      hide Pending, Times;
    case Forward(i) =>
      PendingUpdate(s.procs, i,
                    s.procs[i].(status := if s.grpcDone[0] == NoError then Finished else Sending(s.grpcDone[0])), r);
      assert Times(s.grpcDone, r) == One(s.grpcDone[0] == r) + Times(s.grpcDone[1..], r);
      hide Pending, Times;
    case Send(i) =>
      PendingUpdate(s.procs, i, s.procs[i].(status := Finished), r);
      TimesSnoc(s.grpcDone, s.procs[i].status.report, r);
      TimesSnoc(s.appDone, s.procs[i].status.report, r);
      assert Reasonable(s.procs[i]);
      hide Pending, Times;
    case ReadDone =>
      hide Pending;
  }

  /** Conservation, through every interleaving: each report that must arrive was read from
      `App.Done`, or waits there, or is on its way, exactly once; and nothing else is. */
  lemma {:induction false} ReportsConserved(push: bool, steps: seq<Step>, s: Sys, r: Report)
    requires After(push, steps) == Some(s)
    ensures Due(push, steps, r) == Read(push, steps, r) + OnTheWay(s, r)
    ensures AllReasonable(s)
  {
    if steps != [] {
      var n := |steps| - 1;
      var pre := After(push, steps[..n]).value;
      hide OnTheWay, Returns, Reads, Apply, Enabled, AllReasonable;
      ReportsConserved(push, steps[..n], pre, r);
      StepKeepsReports(push, pre, steps[n], r);
      StepKeepsReasonable(push, pre, steps[n]);
    }
  }

  function CountKind(procs: seq<Proc>, kind: Kind, running: bool): nat {
    if procs == [] then 0
    else (if procs[0].kind == kind && (running ==> procs[0].status == Running) then 1 else 0)
         + CountKind(procs[1..], kind, running)
  }

  lemma {:induction false} CountKindAppend(a: seq<Proc>, b: seq<Proc>, kind: Kind, running: bool)
    ensures CountKind(a + b, kind, running) == CountKind(a, kind, running) + CountKind(b, kind, running)
  {
    if a == [] {
      assert a + b == b;
    } else {
      assert (a + b)[1..] == a[1..] + b;
      CountKindAppend(a[1..], b, kind, running);
    }
  }

  lemma {:induction false} CountKindUpdate(procs: seq<Proc>, i: nat, p: Proc, kind: Kind, running: bool)
    requires i < |procs|
    ensures CountKind(procs[i := p], kind, running) + CountKind([procs[i]], kind, running)
            == CountKind(procs, kind, running) + CountKind([p], kind, running)
  {
    if i == 0 {
      assert procs[0 := p][1..] == procs[1..];
    } else {
      assert procs[i := p][1..] == procs[1..][i - 1 := p];
      CountKindUpdate(procs[1..], i - 1, p, kind, running);
    }
  }

  lemma {:induction false} LaunchedKinds(push: bool, kind: Kind, running: bool)
    ensures CountKind(Launched(push), kind, running) == if kind == PushLoop && !push then 0 else 1
  {
    var loop, serve, run, forward :=
      Proc(PushLoop, Running), Proc(GrpcServe, Running), Proc(HttpRun, Running), Proc(GrpcForward, Running);
    CountOne(loop, kind, running);
    CountOne(serve, kind, running);
    CountOne(run, kind, running);
    CountOne(forward, kind, running);
    hide CountKind;
    CountKindAppend([serve], [run] + [forward], kind, running);
    CountKindAppend([run], [forward], kind, running);
    CountKindAppend([loop], [serve] + ([run] + [forward]), kind, running);
    assert Launched(push) == (if push then [loop] else []) + ([serve] + ([run] + [forward]));
    hide Launched;
    assert !push ==> Launched(push) == [serve] + ([run] + [forward]);
  }

  lemma {:induction false} CountOne(p: Proc, kind: Kind, running: bool)
    ensures CountKind([p], kind, running) == One(p.kind == kind && (running ==> p.status == Running))
  {
    assert [p][1..] == [];
  }

  /** Every `Start` launches one goroutine of each kind, the subscriber only if push is configured. */
  lemma {:induction false} OneOfEachKind(push: bool, steps: seq<Step>, s: Sys, kind: Kind)
    requires After(push, steps) == Some(s)
    ensures CountKind(s.procs, kind, false) == if kind == PushLoop && !push then 0 else Starts(steps)
  {
    if steps != [] {
      var n := |steps| - 1;
      var pre, step := After(push, steps[..n]).value, steps[n];
      OneOfEachKind(push, steps[..n], pre, kind);
      hide CountKind, Launched;
      match step
      case Start =>
        LaunchedKinds(push, kind, false);
        CountKindAppend(pre.procs, Launched(push), kind, false);
      case ReadDone =>
      case Return(i, report) => SameKind(pre.procs, i, AfterReturn(pre.procs[i].kind, report), kind);
      case Forward(i) =>
        SameKind(pre.procs, i, if pre.grpcDone[0] == NoError then Finished else Sending(pre.grpcDone[0]), kind);
      case Send(i) => SameKind(pre.procs, i, Finished, kind);
    }
  }

  lemma SameKind(procs: seq<Proc>, i: nat, status: Status, kind: Kind)
    requires i < |procs|
    ensures CountKind(procs[i := procs[i].(status := status)], kind, false) == CountKind(procs, kind, false)
  {
    CountKindUpdate(procs, i, procs[i].(status := status), kind, false);
  }

  /** A forwarder is waiting for every report in the gRPC server's channel, and for every one
      that may still come. */
  ghost predicate ForwardersWait(s: Sys) {
    CountKind(s.procs, GrpcForward, true) == |s.grpcDone| + Owed(s.procs, true)
  }

  lemma StepKeepsForwarders(push: bool, s: Sys, step: Step)
    requires ForwardersWait(s) && Enabled(s, step)
    ensures ForwardersWait(Apply(push, s, step))
  {
    match step
    case Start =>
      LaunchedKinds(push, GrpcForward, true);
      LaunchedOwes(push);
      OwedAppend(s.procs, Launched(push), true);
      CountKindAppend(s.procs, Launched(push), GrpcForward, true);
    case Return(i, report) =>
      var p := s.procs[i].(status := AfterReturn(s.procs[i].kind, report));
      OwedUpdate(s.procs, i, p, true);
      CountKindUpdate(s.procs, i, p, GrpcForward, true);
    case Forward(i) =>
      var p := s.procs[i].(status := if s.grpcDone[0] == NoError then Finished else Sending(s.grpcDone[0]));
      OwedUpdate(s.procs, i, p, true);
      CountKindUpdate(s.procs, i, p, GrpcForward, true);
    case Send(i) =>
      var p := s.procs[i].(status := Finished);
      OwedUpdate(s.procs, i, p, true);
      CountKindUpdate(s.procs, i, p, GrpcForward, true);
    case ReadDone =>
  }

  lemma {:induction false} ForwardersAlwaysWait(push: bool, steps: seq<Step>, s: Sys)
    requires After(push, steps) == Some(s)
    ensures ForwardersWait(s)
  {
    if steps != [] {
      var pre := After(push, steps[..|steps| - 1]).value;
      ForwardersAlwaysWait(push, steps[..|steps| - 1], pre);
      StepKeepsForwarders(push, pre, steps[|steps| - 1]);
      hide ForwardersWait, Apply, Enabled;
    }
  }

  lemma {:induction false} FindForwarder(procs: seq<Proc>) returns (i: nat)
    requires CountKind(procs, GrpcForward, true) > 0
    ensures i < |procs| && procs[i] == Proc(GrpcForward, Running)
  {
    if procs[0] == Proc(GrpcForward, Running) {
      i := 0;
    } else {
      i := FindForwarder(procs[1..]);
      i := i + 1;
    }
  }

  lemma ForwardPossible(s: Sys) returns (i: nat)
    requires ForwardersWait(s) && s.grpcDone != []
    ensures Enabled(s, Forward(i))
  {
    i := FindForwarder(s.procs);
  }

  /** No goroutine can take another step on its own. */
  ghost predicate Settled(s: Sys) {
    forall step: Step :: step.Send? || step.Forward? ==> !Enabled(s, step)
  }

  lemma NobodySends(s: Sys)
    requires !Blocked(s) && Settled(s)
    ensures forall i :: 0 <= i < |s.procs| ==> !s.procs[i].status.Sending?
  {
    forall i | 0 <= i < |s.procs| ensures !s.procs[i].status.Sending? {
      if s.procs[i].status.Sending? { SendPossible(s, i); }
    }
  }

  lemma SendPossible(s: Sys, i: nat)
    requires !Blocked(s) && i < |s.procs| && s.procs[i].status.Sending?
    ensures Enabled(s, Send(i))
  {
  }

  /** With one `Start`, once no pending send or forward is left, everything that must arrive has
      arrived in `App.Done`, each report as often as it was returned and nothing else, and none is
      stuck on the way. */
  lemma {:induction false} ReportsArrive(push: bool, steps: seq<Step>, s: Sys, r: Report)
    requires After(push, steps) == Some(s) && Starts(steps) <= 1 && Settled(s)
    ensures Due(push, steps, r) == Read(push, steps, r) + Times(s.appDone, r)
  {
    OneStartNeverBlocks(push, steps, s);
    ReportsConserved(push, steps, s, r);
    ForwardersAlwaysWait(push, steps, s);
    NobodySends(s);
    NothingPending(s.procs, r);
    hide Due, Read, After, Pending, Starts, Enabled, ForwardersWait;
    if s.grpcDone != [] {
      var i := ForwardPossible(s);
    }
  }

  /** Work may end at any time, with any report: the subscriber's, and both servers'. */
  lemma {:induction false} WorkMayReturn(push: bool, report: Report)
    ensures var s := After(push, [Start]);
            && s.Some?
            && (forall i :: 0 <= i < |s.value.procs| && s.value.procs[i].kind != GrpcForward ==>
                  Enabled(s.value, Return(i, report)))
            && exists i :: 0 <= i < |s.value.procs| && s.value.procs[i].kind == HttpRun
  {
    AfterNothing(push);
    AfterSnoc(push, [], Sys([], [], [], 0), Start);
    assert [] + [Start] == [Start];
    var s := Apply(push, Sys([], [], [], 0), Start);
    assert s.procs == Launched(push);
    hide After;
    assert s.procs[if push then 2 else 1].kind == HttpRun;
  }

  /** The room in `App.Done` is exactly what one `Start` can send: three reports fill it, when both
      servers and the subscriber fail and nobody reads. */
  lemma RoomIsExact(reason: string) returns (steps: seq<Step>, s: Sys)
    ensures After(true, steps) == Some(s) && Starts(steps) == 1
    ensures |s.appDone| == 3 && !HasRoom(s, HttpRun)
  {
    var e := Failure(reason);
    steps, s := TwoReports(e);
    hide After, Starts;
    steps, s := Next(steps, s, Forward(3));
    steps, s := Next(steps, s, Send(3));
    steps, s := Next(steps, s, Return(2, e));
    steps, s := Next(steps, s, Send(2));
  }

  /** The subscriber has reported its failure, and the gRPC server on its own channel. */
  lemma TwoReports(e: Report) returns (steps: seq<Step>, s: Sys)
    requires e.Failure?
    ensures After(true, steps) == Some(s) && Starts(steps) == 1
    ensures s == Sys([Proc(PushLoop, Finished), Proc(GrpcServe, Finished), Proc(HttpRun, Running),
                      Proc(GrpcForward, Running)], [e], [e], 1)
  {
    AfterNothing(true);
    hide After, Starts;
    steps, s := Next([], Sys([], [], [], 0), Start);
    steps, s := Next(steps, s, Return(0, e));
    steps, s := Next(steps, s, Send(0));
    steps, s := Next(steps, s, Return(1, e));
    steps, s := Next(steps, s, Send(1));
  }

  lemma Next(steps: seq<Step>, s: Sys, step: Step) returns (steps': seq<Step>, s': Sys)
    requires After(true, steps) == Some(s) && Enabled(s, step)
    ensures steps' == steps + [step] && s' == Apply(true, s, step) && After(true, steps') == Some(s')
    ensures Starts(steps') == Starts(steps) + if step.Start? then 1 else 0
  {
    steps', s' := steps + [step], Apply(true, s, step);
    AfterSnoc(true, steps, s, step);
  }

  // ----- More than one Start -----

  function Repeat(n: nat): seq<Step> {
    if n == 0 then [] else Repeat(n - 1) + [Start]
  }

  function Copies(push: bool, n: nat): seq<Proc> {
    if n == 0 then [] else Copies(push, n - 1) + Launched(push)
  }

  lemma {:induction false} AfterSnoc(push: bool, steps: seq<Step>, s: Sys, step: Step)
    requires After(push, steps) == Some(s) && Enabled(s, step)
    ensures After(push, steps + [step]) == Some(Apply(push, s, step))
    ensures Starts(steps + [step]) == Starts(steps) + if step.Start? then 1 else 0
  {
    var all := steps + [step];
    assert all[..|all| - 1] == steps;
  }

  lemma {:induction false} AfterStarts(push: bool, n: nat)
    ensures After(push, Repeat(n)) == Some(Sys(Copies(push, n), [], [], n))
    ensures Starts(Repeat(n)) == n
  {
    hide After, Starts, Launched;
    if n == 0 {
      AfterNothing(push);
    } else {
      AfterStarts(push, n - 1);
      AfterSnoc(push, Repeat(n - 1), Sys(Copies(push, n - 1), [], [], n - 1), Start);
    }
  }

  lemma {:induction false} AfterNothing(push: bool)
    ensures After(push, []) == Some(Sys([], [], [], 0)) && Starts([]) == 0
  {
  }

  lemma {:induction false} FirstTwoCopies(push: bool, n: nat)
    requires n >= 2
    ensures |Copies(push, n)| >= |Launched(push) + Launched(push)|
    ensures Copies(push, n)[..|Launched(push) + Launched(push)|] == Launched(push) + Launched(push)
  {
    if n == 2 {
      assert Copies(push, 1) == Launched(push);
    } else {
      FirstTwoCopies(push, n - 1);
    }
  }

  /** With a second `Start` two gRPC servers share the one slot of their channel: one may have
      filled it when the other wants to report. */
  lemma TwoStartsCanBlock(push: bool, n: nat) returns (steps: seq<Step>, s: Sys)
    requires n >= 2
    ensures Starts(steps) == n && After(push, steps) == Some(s) && Blocked(s)
  {
    var first: nat := if push then 1 else 0;
    var second: nat := first + |Launched(push)|;
    AfterStarts(push, n);
    TwoServers(push, n);
    var s0, s1, s2 := Sys(Copies(push, n), [], [], n), Sys([], [], [], 0), Sys([], [], [], 0);
    hide Copies, Launched, Repeat, After, Starts;
    s1, s2, s := SlotTaken(push, s0, first, second);
    hide Apply, Enabled, Blocked;
    var steps1 := Repeat(n) + [Return(first, NoError)];
    AfterSnoc(push, Repeat(n), s0, Return(first, NoError));
    var steps2 := steps1 + [Send(first)];
    AfterSnoc(push, steps1, s1, Send(first));
    steps := steps2 + [Return(second, NoError)];
    AfterSnoc(push, steps2, s2, Return(second, NoError));
  }

  /** The first server's report fills the channel, and the second server's finds it full. */
  lemma SlotTaken(push: bool, s0: Sys, first: nat, second: nat) returns (s1: Sys, s2: Sys, s3: Sys)
    requires first < second < |s0.procs| && s0.grpcDone == []
    requires s0.procs[first] == s0.procs[second] == Proc(GrpcServe, Running)
    ensures Enabled(s0, Return(first, NoError)) && Apply(push, s0, Return(first, NoError)) == s1
    ensures Enabled(s1, Send(first)) && Apply(push, s1, Send(first)) == s2
    ensures Enabled(s2, Return(second, NoError)) && Apply(push, s2, Return(second, NoError)) == s3
    ensures Blocked(s3)
  {
    s1 := Apply(push, s0, Return(first, NoError));
    s2 := Apply(push, s1, Send(first));
    s3 := Apply(push, s2, Return(second, NoError));
    assert s3.procs[second].status.Sending?;
  }

  lemma {:induction false} TwoServers(push: bool, n: nat)
    requires n >= 2
    ensures var first: nat := if push then 1 else 0;
            var second := first + |Launched(push)|;
            && first < second < |Copies(push, n)|
            && Copies(push, n)[first] == Copies(push, n)[second] == Proc(GrpcServe, Running)
  {
    var first: nat := if push then 1 else 0;
    var second := first + |Launched(push)|;
    FirstTwoCopies(push, n);
    var both := Launched(push) + Launched(push);
    assert both[first] == both[second] == Proc(GrpcServe, Running);
    hide Copies;
    assert Copies(push, n)[first] == Copies(push, n)[..|both|][first];
    assert Copies(push, n)[second] == Copies(push, n)[..|both|][second];
  }

  /** No goroutine ever blocks on a completion channel, in any interleaving and whether or not
      anybody reads, exactly when `Start` is called at most once. */
  lemma NeverBlocksIffStartedOnce(push: bool, n: nat)
    ensures (forall steps, s :: Starts(steps) == n && After(push, steps) == Some(s) ==> !Blocked(s)) <==> n <= 1
  {
    if n <= 1 {
      forall steps, s | Starts(steps) == n && After(push, steps) == Some(s) ensures !Blocked(s) {
        OneStartNeverBlocks(push, steps, s);
      }
    } else {
      var steps, s := TwoStartsCanBlock(push, n);
    }
  }
}
