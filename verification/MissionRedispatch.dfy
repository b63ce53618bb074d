/** After a failure, the same mission is not sent again from the same place without a new selection. */
module MissionRedispatch {
  import opened Options
  import opened MissionSpec
  import opened MissionNodeSpec
  import opened MissionInvariants

  /** The mission `id` failed at `pose` and cannot be sent: either it is not held, or dispatching it is refused. */
  ghost predicate Barred(tol: Tolerance, n: Node, id: string, pose: Pose) {
    n.rt.mission.Some? && n.rt.mission.value.id == id ==>
      && !n.rt.inflight
      && n.rt.failed.Some? && n.rt.failed.value.missionId == id && n.rt.failed.value.pose == pose
      && n.rt.robotPose.Some? && tol.Same(pose, n.rt.robotPose.value)
  }

  /** Nothing that lifts the bar: no accepted select, and every valid observed pose close to `pose`. */
  ghost predicate QuietEvent(tol: Tolerance, n: Node, e: Event, pose: Pose) {
    && (e.SelectRequest? ==> !AcceptsSelect(n.rt, e.m))
    && (e.Odometry? && e.pose.IsValid("odom") ==> tol.Same(pose, e.pose))
  }

  ghost predicate Quiet(tol: Tolerance, n: Node, events: seq<(Event, Env)>, pose: Pose) {
    forall k :: 0 <= k < |events| ==> QuietEvent(tol, Run(tol, n, events[..k]), events[k].0, pose)
  }

  /** An orientation does not differ from itself. */
  ghost predicate Reflexive(tol: Tolerance) {
    forall q :: -tol.yaw <= tol.yawDelta(q, q) <= tol.yaw
  }

  ghost predicate PoseOk(rt: Runtime) {
    rt.robotPose.Some? ==> rt.robotPose.value.IsValid("odom")
  }

  /** The observed pose is always a valid odometry pose. */
  lemma StepKeepsPose(tol: Tolerance, n: Node, e: Event, env: Env)
    requires PoseOk(n.rt)
    ensures PoseOk(Step(tol, n, e, env).rt)
    ensures !e.Odometry? ==> Step(tol, n, e, env).rt.robotPose == n.rt.robotPose
  {
    hide Apply, OnGoalResponseEvent, OnTick, OnResultEvent;
    match e
    case ModeState(epoch, mapId, ok) => ApplyKeepsPose(n, ObserveRuntime(n.rt, epoch, mapId, ok), env);
    case SelectRequest(m) => ApplyKeepsPose(n, Select(n.rt, m), env);
    case DispatchRequest => ApplyKeepsPose(n, Dispatch(tol, n.rt), env);
    case CancelRequest => ApplyKeepsPose(n, Cancel(n.rt), env);
    case GoalResponse(f, raised, accepted, uuid) => GoalResponseKeepsPose(n, f, raised, accepted, uuid, env);
    case Result(f, raised, status, errorCode) => ResultKeepsPose(n, f, raised, status, errorCode);
    case Tick => TickPumps(n, env);
    case _ =>
  }

  lemma {:induction false} RunEachKeepsPose(n: Node, commands: seq<Command>, env: Env)
    ensures RunEach(n, commands, env).rt.robotPose == n.rt.robotPose
    decreases |commands|
  {
    if commands != [] {
      RunEachKeepsPose(RunCommand(n, commands[0], env), commands[1..], env);
    }
  }

  lemma RunCommandsKeepPose(n: Node, commands: seq<Command>, env: Env)
    ensures RunCommands(n, commands, env).rt.robotPose == n.rt.robotPose
  {
    hide RunEach;
    RunEachKeepsPose(n, commands, env);
  }

  lemma ApplyKeepsPose(n: Node, r: (Runtime, seq<Command>), env: Env)
    ensures Apply(n, r, env).rt.robotPose == r.0.robotPose
  {
    RunCommandsKeepPose(n.(rt := r.0), r.1, env);
  }

  lemma GoalResponseKeepsPose(n: Node, f: nat, raised: bool, accepted: bool, uuid: string, env: Env)
    ensures OnGoalResponseEvent(n, f, raised, accepted, uuid, env).rt.robotPose == n.rt.robotPose
  {
    hide RunCommands;
    if n.sendFuture == Some(f) && f < |n.created| && !raised {
      var (rt, commands) := OnGoalResponse(n.rt, n.created[f], accepted, uuid);
      var n1 := n.(sendFuture := None, rt := rt, handle := if accepted && IsCurrent(rt, n.created[f]) then Some(n.created[f]) else n.handle);
      RunCommandsKeepPose(n1, commands, env);
    }
  }

  lemma ResultKeepsPose(n: Node, f: nat, raised: bool, status: int, errorCode: int)
    ensures OnResultEvent(n, f, raised, status, errorCode).rt.robotPose == n.rt.robotPose
  {
  }

  // ---- what gets sent

  ghost predicate SendsOnlyHeld(n: Node, n': Node) {
    n.sent <= n'.sent && forall i :: |n.sent| <= i < |n'.sent| ==> n.rt.mission == Some(n'.sent[i].1)
  }

  lemma PumpSendSendsHeld(n: Node, env: Env)
    requires n.pending.Some? ==> n.rt.mission == Some(n.pending.value.1)
    ensures SendsOnlyHeld(n, PumpSend(n, env))
  {
  }

  /** A goal handed to Nav2 is always the mission held at that moment. */
  lemma StepSendsHeld(tol: Tolerance, n: Node, e: Event, env: Env)
    requires Inv(n)
    ensures SendsOnlyHeld(n, Step(tol, n, e, env))
  {
    hide Apply, OnGoalResponseEvent, OnTick, OnResultEvent, Inv;
    match e
    case ModeState(epoch, mapId, ok) => QuietApply(n, ObserveRuntime(n.rt, epoch, mapId, ok), env);
    case SelectRequest(m) => QuietApply(n, Select(n.rt, m), env);
    case DispatchRequest => DispatchSendsHeld(tol, n, env);
    case CancelRequest => QuietApply(n, Cancel(n.rt), env);
    case GoalResponse(f, raised, accepted, uuid) => QuietGoalResponse(n, f, raised, accepted, uuid, env);
    case Result(f, raised, status, errorCode) => QuietResult(n, f, raised, status, errorCode);
    case Tick => TickSendsHeld(n, env);
    case _ =>
  }

  ghost predicate NoSend(commands: seq<Command>) {
    forall i :: 0 <= i < |commands| ==> !commands[i].SendGoal?
  }

  lemma {:induction false} QuietRunEach(n: Node, commands: seq<Command>, env: Env)
    requires NoSend(commands)
    ensures RunEach(n, commands, env).sent == n.sent
    decreases |commands|
  {
    if commands != [] {
      assert !commands[0].SendGoal?;
      QuietRunEach(RunCommand(n, commands[0], env), commands[1..], env);
    }
  }

  lemma QuietApply(n: Node, r: (Runtime, seq<Command>), env: Env)
    requires NoSend(r.1)
    ensures Apply(n, r, env).sent == n.sent
  {
    hide RunEach;
    QuietRunEach(n.(rt := r.0), r.1, env);
  }

  lemma QuietGoalResponse(n: Node, f: nat, raised: bool, accepted: bool, uuid: string, env: Env)
    ensures OnGoalResponseEvent(n, f, raised, accepted, uuid, env).sent == n.sent
  {
    hide RunEach;
    if n.sendFuture == Some(f) && f < |n.created| && !raised {
      var (rt, commands) := OnGoalResponse(n.rt, n.created[f], accepted, uuid);
      var n1 := n.(sendFuture := None, rt := rt, handle := if accepted && IsCurrent(rt, n.created[f]) then Some(n.created[f]) else n.handle);
      QuietRunEach(n1, commands, env);
    }
  }

  lemma QuietResult(n: Node, f: nat, raised: bool, status: int, errorCode: int)
    ensures OnResultEvent(n, f, raised, status, errorCode).sent == n.sent
  {
  }

  lemma TickSendsHeld(n: Node, env: Env)
    requires Inv(n)
    ensures SendsOnlyHeld(n, OnTick(n, env))
  {
    PumpSendSendsHeld(n, env);
  }

  lemma DispatchSendsHeld(tol: Tolerance, n: Node, env: Env)
    requires Inv(n)
    ensures SendsOnlyHeld(n, Apply(n, Dispatch(tol, n.rt), env))
    ensures Dispatch(tol, n.rt).1 == [] ==> Apply(n, Dispatch(tol, n.rt), env).sent == n.sent
  {
    var (rt, commands) := Dispatch(tol, n.rt);
    if commands == [] {
      QuietApply(n, (rt, commands), env);
    } else {
      var c := SendGoal(rt.generation, n.rt.mission.value);
      var n1 := n.(rt := rt, pending := Some((rt.generation, n.rt.mission.value)));
      PumpSendSendsHeld(n1, env);
      OneCommand(n.(rt := rt), c, env);
      if !n.rt.residualCleared {
        assert commands[1..] == [c];
      }
      assert RunEach(n.(rt := rt), commands, env) == PumpSend(n1, env);
    }
  }

  // ---- the bar

  /** While barred, one quiet event neither sends the mission nor lifts the bar. */
  lemma BarHolds(tol: Tolerance, n: Node, e: Event, env: Env, id: string, pose: Pose)
    requires Inv(n) && Barred(tol, n, id, pose) && QuietEvent(tol, n, e, pose)
    ensures var n' := Step(tol, n, e, env);
            Barred(tol, n', id, pose) && n.sent <= n'.sent &&
            forall i :: |n.sent| <= i < |n'.sent| ==> n'.sent[i].1.id != id
  {
    StepSendsHeld(tol, n, e, env);
    if n.rt.mission.Some? && n.rt.mission.value.id == id {
      IdleBarHolds(tol, n, e, env, id, pose);
    } else {
      hide Step, FlightOk, HeldIsSent, EndedOk, SentOk;
      var n' := Step(tol, n, e, env);
      if n'.rt.mission.Some? {
        HeldByStep(tol, n, e, env);
      }
    }
  }

  lemma IdleBarHolds(tol: Tolerance, n: Node, e: Event, env: Env, id: string, pose: Pose)
    requires Inv(n) && Barred(tol, n, id, pose) && QuietEvent(tol, n, e, pose)
    requires n.rt.mission.Some? && n.rt.mission.value.id == id
    ensures Barred(tol, Step(tol, n, e, env), id, pose) && Step(tol, n, e, env).sent == n.sent
  {
    hide RunCommands, Inv, Tolerance.Same, Pose.IsValid;
    IdleFacts(n);
    match e
    case ModeState(epoch, mapId, ok) => IdleBarHoldsOnMode(tol, n, epoch, mapId, ok, env, id, pose);
    case SelectRequest(m) => NoCommands(n, env);
    case DispatchRequest =>
      SessionChangeKeeps(n, Dispatch(tol, n.rt).0);
      NoCommands(n.(rt := Dispatch(tol, n.rt).0), env);
    case CancelRequest => NoCommands(n, env);
    case _ =>
  }

  lemma IdleBarHoldsOnMode(tol: Tolerance, n: Node, epoch: int, mapId: string, ok: bool, env: Env, id: string, pose: Pose)
    requires Inv(n) && Barred(tol, n, id, pose) && n.rt.mission.Some? && n.rt.mission.value.id == id
    ensures var n' := Apply(n, ObserveRuntime(n.rt, epoch, mapId, ok), env);
            Barred(tol, n', id, pose) && n'.sent == n.sent
  {
    hide RunCommands, Inv, Tolerance.Same, Pose.IsValid;
    IdleFacts(n);
    var r := ObserveRuntime(n.rt, epoch, mapId, ok);
    QuietApply(n, r, env);
    ApplyKeepsSession(n, r, env);
    if r.0.mission.Some? {
      SessionChangeKeeps(n, r.0);
      NoCommands(n.(rt := r.0), env);
    }
  }

  lemma IdleFacts(n: Node)
    requires Inv(n) && !n.rt.inflight
    ensures SessionOk(n.rt) && !n.rt.state.InFlight() && n.pending.None? && n.sendFuture.None? && n.handle.None?
    ensures n.resultFuture.None? && n.cancelFuture.None?
  {
  }

  lemma SameSelf(tol: Tolerance, pose: Pose)
    requires Reflexive(tol) && pose.IsValid("odom")
    ensures tol.Same(pose, pose)
  {
  }

  /** A failed result with a known robot pose raises the bar for the mission that was in flight. */
  lemma FailureBars(tol: Tolerance, n: Node, future: nat, status: int, errorCode: int, env: Env)
    requires Inv(n) && PoseOk(n.rt) && Reflexive(tol)
    requires n.resultFuture == Some(future) && status != STATUS_SUCCEEDED && status != STATUS_CANCELED
    requires n.rt.robotPose.Some?
    ensures Barred(tol, Step(tol, n, Result(future, false, status, errorCode), env), n.rt.inflightId, n.rt.robotPose.value)
  {
    SameSelf(tol, n.rt.robotPose.value);
  }

  /** For every later quiet event sequence, no goal for the failed mission is sent. */
  lemma {:induction false} NoRedispatchStorm(tol: Tolerance, n: Node, id: string, pose: Pose, events: seq<(Event, Env)>)
    requires Inv(n) && Barred(tol, n, id, pose) && Quiet(tol, n, events, pose)
    ensures var n' := Run(tol, n, events);
            Inv(n') && Barred(tol, n', id, pose) && n.sent <= n'.sent &&
            forall i :: |n.sent| <= i < |n'.sent| ==> n'.sent[i].1.id != id
  {
    hide Step, Inv, Barred, QuietEvent;
    if events != [] {
      var k := |events| - 1;
      var prefix := events[..k];
      forall j | 0 <= j < k
        ensures QuietEvent(tol, Run(tol, n, prefix[..j]), prefix[j].0, pose)
      {
        assert prefix[..j] == events[..j];
      }
      NoRedispatchStorm(tol, n, id, pose, prefix);
      assert QuietEvent(tol, Run(tol, n, events[..k]), events[k].0, pose);
      BarHolds(tol, Run(tol, n, prefix), events[k].0, events[k].1, id, pose);
      StepKeepsInv(tol, Run(tol, n, prefix), events[k].0, events[k].1);
    }
  }

  lemma {:induction false} RunSplit(tol: Tolerance, n: Node, events: seq<(Event, Env)>, k: nat)
    requires k <= |events|
    ensures Run(tol, n, events) == Run(tol, Run(tol, n, events[..k]), events[k..])
  {
    hide Step;
    var last := |events| - 1;
    if k == |events| {
      assert events[..k] == events && events[k..] == [];
    } else {
      RunSplit(tol, n, events[..last], k);
      assert events[..last][..k] == events[..k] && events[..last][k..] == events[k..][..last - k];
    }
  }

  lemma {:induction false} RunKeepsPose(tol: Tolerance, events: seq<(Event, Env)>)
    ensures PoseOk(After(tol, events).rt)
  {
    hide Step;
    if events != [] {
      var k := |events| - 1;
      RunKeepsPose(tol, events[..k]);
      StepKeepsPose(tol, After(tol, events[..k]), events[k].0, events[k].1);
    }
  }

  /**
   In every run from start-up: once a generation fails with a known robot pose, the mission it
   carried is not sent again until a select is accepted or a pose outside the tolerance is observed.
   */
  lemma FailedMissionIsNotResent(tol: Tolerance, events: seq<(Event, Env)>, k: nat, id: string, pose: Pose)
    requires Reflexive(tol) && k < |events|
    requires var n := After(tol, events[..k]);
             n.rt.robotPose == Some(pose) && n.rt.inflightId == id && n.resultFuture.Some? &&
             events[k].0.Result? && events[k].0.future == n.resultFuture.value && !events[k].0.raised &&
             events[k].0.status != STATUS_SUCCEEDED && events[k].0.status != STATUS_CANCELED
    requires Quiet(tol, After(tol, events[..k + 1]), events[k + 1..], pose)
    ensures var failed, end := After(tol, events[..k + 1]), After(tol, events);
            failed.sent <= end.sent && forall i :: |failed.sent| <= i < |end.sent| ==> end.sent[i].1.id != id
  {
    hide Step, Inv, Barred, Quiet, Reflexive;
    var n := After(tol, events[..k]);
    RunKeepsInv(tol, events[..k]);
    RunKeepsPose(tol, events[..k]);
    assert events[..k + 1][..k] == events[..k];
    FailureBars(tol, n, events[k].0.future, events[k].0.status, events[k].0.errorCode, events[k].1);
    StepKeepsInv(tol, n, events[k].0, events[k].1);
    RunSplit(tol, INITIAL_NODE, events, k + 1);
    NoRedispatchStorm(tol, After(tol, events[..k + 1]), id, pose, events[k + 1..]);
  }
}
