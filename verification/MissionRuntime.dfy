/**
 The mission runtime and the node around it as the objects the program keeps: fields updated in
 place by operations and callbacks. Every method is proved to do what the value-level machine does,
 so the invariants of all runs carry over.
 */
module MissionRuntime {
  import opened Options
  import Spec = MissionSpec
  import NodeSpec = MissionNodeSpec
  import opened MissionInvariants
  import opened MissionSpec

  class Runtime {
    const tolerance: Tolerance
    var epoch: int
    var mapId: string
    var state: State
    var mission: Option<Mission>
    var missionValid: bool
    var generation: nat
    var goalUuid: string
    var status: int
    var errorCode: int
    var inflight: bool
    var cancelRequested: bool
    var autonomyOk: Option<bool>
    var autonomyKey: Option<(int, string)>
    var maxRevision: int
    var residualCleared: bool
    var robotPose: Option<Pose>
    var failed: Option<Failure>
    var inflightId: string
    ghost var ended: seq<nat>
    ghost var accepted: seq<int>

    ghost function View(): Spec.Runtime
      reads this
    {
      Spec.Runtime(epoch, mapId, state, mission, missionValid, generation, goalUuid, status, errorCode, inflight,
                   cancelRequested, autonomyOk, autonomyKey, maxRevision, residualCleared, robotPose, failed, inflightId,
                   ended, accepted)
    }

    constructor (tolerance: Tolerance)
      ensures View() == INITIAL && this.tolerance == tolerance
    {
      this.tolerance := tolerance;
      epoch, mapId, state, mission, missionValid, generation := 0, "", Idle, None, false, 0;
      goalUuid, status, errorCode, inflight, cancelRequested := "", -1, 0, false, false;
      autonomyOk, autonomyKey, maxRevision, residualCleared := None, None, 0, false;
      robotPose, failed, inflightId := None, None, "";
      ended, accepted := [], [];
    }

    /** The mission that is held, or none; a new one forgets the last failure. */
    method Hold(m: Option<Mission>)
      modifies this
      ensures View() == old(View()).(mission := m, missionValid := m.Some?, failed := None)
    {
      mission := m;
      missionValid := m.Some?;
      failed := None;
    }

    method Start(missionId: string)
      modifies this
      ensures View() == old(View()).(generation := old(generation) + 1, inflight := true, inflightId := missionId)
    {
      generation := generation + 1;
      inflight := true;
      inflightId := missionId;
    }

    /** A new generation is on its way. */
    method Launch(missionId: string)
      modifies this
      ensures View() == old(View()).(generation := old(generation) + 1, inflight := true, inflightId := missionId,
                          cancelRequested := false, goalUuid := "", status := -1, errorCode := 0, state := Dispatching)
    {
      Start(missionId);
      ClearGoal();
      Report(-1, 0);
      state := Dispatching;
    }

    /** Generation `g` is over. */
    method End(g: nat)
      modifies this
      ensures View() == old(View()).(inflight := false, inflightId := "", ended := old(ended) + [g])
    {
      inflight := false;
      inflightId := "";
      ended := ended + [g];
    }

    method ClearGoal()
      modifies this
      ensures View() == old(View()).(cancelRequested := false, goalUuid := "")
    {
      cancelRequested := false;
      goalUuid := "";
    }

    method Report(status: int, errorCode: int)
      modifies this
      ensures View() == old(View()).(status := status, errorCode := errorCode)
    {
      this.status := status;
      this.errorCode := errorCode;
    }

    method Join(epoch: int, mapId: string)
      modifies this
      ensures View() == old(View()).(autonomyKey := Some((epoch, mapId)), epoch := epoch, mapId := mapId)
    {
      autonomyKey := Some((epoch, mapId));
      this.epoch := epoch;
      this.mapId := mapId;
    }

    method BeginCancel() returns (commands: seq<Command>)
      modifies this
      ensures (View(), commands) == Spec.BeginCancel(old(View()))
    {
      cancelRequested := true;
      state := Canceling;
      if goalUuid != "" {
        return [CancelActiveGoal(generation)];
      }
      return [];
    }

    method Invalidate() returns (commands: seq<Command>)
      modifies this
      ensures (View(), commands) == Spec.Invalidate(old(View()))
    {
      commands := [];
      Hold(None);
      if inflight {
        commands := BeginCancel();
      } else if state == Dispatching || state == Active || state == Canceling {
        state := Idle;
      }
    }

    method ObserveRuntime(epoch: int, mapId: string, ok: bool) returns (commands: seq<Command>)
      modifies this
      ensures (View(), commands) == Spec.ObserveRuntime(old(View()), epoch, mapId, ok)
    {
      commands := [];
      var wasOk := autonomyOk;
      autonomyOk := Some(ok);
      if ok {
        var key := (epoch, mapId);
        if autonomyKey.Some? && key != autonomyKey.value {
          commands := Invalidate();
        }
        Join(epoch, mapId);
      } else if wasOk == Some(true) {
        commands := Invalidate();
      }
    }

    method Accepts(m: Mission) returns (ok: bool)
      ensures ok <==> AcceptsSelect(View(), m)
    {
      hide Pose.IsValid;
      if m.id == "" {
        return false;
      }
      if m.kind != SINGLE_GOAL && m.kind != ORDERED_POSES {
        return false;
      }
      if m.poses == [] || exists i :: 0 <= i < |m.poses| && !m.poses[i].IsValid("map") {
        return false;
      }
      if m.kind == SINGLE_GOAL && |m.poses| != 1 {
        return false;
      }
      if autonomyOk != Some(true) {
        return false;
      }
      if m.epoch != epoch {
        return false;
      }
      if mapId != "" && m.mapId != mapId {
        return false;
      }
      return m.revision > maxRevision;
    }

    method Select(m: Mission) returns (commands: seq<Command>)
      modifies this
      ensures (View(), commands) == Spec.Select(old(View()), m)
    {
      hide AcceptsSelect;
      commands := [];
      var ok := Accepts(m);
      if !ok {
        return;
      }
      maxRevision := m.revision;
      accepted := accepted + [m.revision];
      if inflight {
        commands := BeginCancel();
      }
      Hold(Some(m));
      if !inflight {
        state := Idle;
      }
    }

    method Dispatch() returns (commands: seq<Command>)
      modifies this
      ensures (View(), commands) == Spec.Dispatch(tolerance, old(View()))
    {
      hide Tolerance.Same;
      commands := [];
      if !missionValid || mission.None? {
        return;
      }
      if inflight || state == Canceling {
        return;
      }
      if autonomyOk != Some(true) {
        return;
      }
      if mission.value.epoch != epoch {
        mission := None;
        missionValid := false;
        return;
      }
      if failed.Some? && failed.value.missionId == mission.value.id && robotPose.Some?
        && tolerance.Same(failed.value.pose, robotPose.value) {
        errorCode := failed.value.errorCode;
        return;
      }
      var selected := mission.value;
      Launch(selected.id);
      if !residualCleared {
        residualCleared := true;
        commands := [CancelResidualGoals];
      }
      commands := commands + [SendGoal(generation, selected)];
    }

    method Cancel() returns (commands: seq<Command>)
      modifies this
      ensures (View(), commands) == Spec.Cancel(old(View()))
    {
      commands := [];
      if inflight {
        commands := BeginCancel();
        return;
      }
      if state == Dispatching || state == Active || state == Canceling {
        state := Idle;
      }
    }

    method OnGoalResponse(g: nat, ok: bool, uuid: string) returns (commands: seq<Command>)
      modifies this
      ensures (View(), commands) == Spec.OnGoalResponse(old(View()), g, ok, uuid)
    {
      commands := [];
      if g != generation || !inflight {
        return;
      }
      if !ok {
        End(g);
        state := Failed;
        status := STATUS_ABORTED;
        return;
      }
      goalUuid := uuid;
      if cancelRequested {
        state := Canceling;
        return [CancelActiveGoal(g)];
      }
      state := Active;
      status := STATUS_ACCEPTED;
    }

    method OnFeedback(g: nat)
      modifies this
      ensures View() == Spec.OnFeedback(old(View()), g)
    {
      if g != generation || !inflight {
        return;
      }
      if state == Dispatching {
        state := Active;
      }
      if state == Active {
        status := STATUS_EXECUTING;
      }
    }

    method ObserveRobotPose(pose: Pose)
      modifies this
      ensures View() == Spec.ObserveRobotPose(old(View()), pose)
    {
      if pose.IsValid("odom") {
        robotPose := Some(pose);
      }
    }

    method OnResult(g: nat, status: int, errorCode: int)
      modifies this
      ensures View() == Spec.OnResult(old(View()), g, status, errorCode)
    {
      if g != generation || !inflight {
        return;
      }
      var missionId := inflightId;
      End(g);
      ClearGoal();
      Report(status, errorCode);
      if status == STATUS_SUCCEEDED {
        state := Succeeded;
        failed := None;
      } else if status == STATUS_CANCELED {
        state := Canceled;
        failed := None;
      } else {
        state := Failed;
        if missionId != "" && robotPose.Some? {
          failed := Some(Failure(missionId, robotPose.value, errorCode));
        }
      }
    }
  }

  class RuntimeNode {
    const runtime: Runtime
    var pending: Option<(nat, Mission)>
    var sendFuture: Option<nat>
    var goalHandle: Option<nat>
    var resultFuture: Option<nat>
    var cancelFuture: Option<nat>
    var cancelAttempts: nat
    var nextFuture: nat
    /** The generation each future was created for, and every goal handed to Nav2. */
    ghost var created: seq<nat>
    ghost var sent: seq<(nat, Mission)>

    ghost function View(): NodeSpec.Node
      reads this, runtime
    {
      NodeSpec.Node(runtime.View(), pending, sendFuture, goalHandle, resultFuture, cancelFuture, cancelAttempts, created, sent)
    }

    /** Future identities are handed out in order. */
    ghost predicate Valid()
      reads this
    {
      nextFuture == |created|
    }

    constructor (tolerance: Tolerance)
      ensures Valid() && View() == NodeSpec.INITIAL_NODE && runtime.tolerance == tolerance && fresh(runtime)
    {
      runtime := new Runtime(tolerance);
      pending, sendFuture, goalHandle, resultFuture, cancelFuture := None, None, None, None, None;
      cancelAttempts, nextFuture := 0, 0;
      created, sent := [], [];
    }

    method NewFuture(g: nat) returns (id: nat)
      requires Valid()
      modifies this`nextFuture, this`created
      ensures Valid() && id == |old(created)| && created == old(created) + [g]
    {
      id := nextFuture;
      nextFuture := nextFuture + 1;
      created := created + [g];
    }

    method PumpSend(env: NodeSpec.Env)
      requires Valid()
      modifies this, runtime
      ensures Valid() && View() == NodeSpec.PumpSend(old(View()), env)
    {
      if pending.None? || !(pending.value.0 == runtime.generation && runtime.inflight) {
        pending := None;
        return;
      }
      if runtime.state == Canceling {
        pending := None;
        return;
      }
      if goalHandle.Some? || sendFuture.Some? {
        return;
      }
      if !env.serverReady {
        return;
      }
      var command := pending.value;
      pending := None;
      if env.sendRaises {
        var commands := runtime.OnGoalResponse(command.0, false, "");
        return;
      }
      var id := NewFuture(command.0);
      sendFuture := Some(id);
      sent := sent + [command];
    }

    method PumpCancel(due: bool, env: NodeSpec.Env)
      requires Valid()
      modifies this
      ensures Valid() && View() == NodeSpec.PumpCancel(old(View()), due, env)
    {
      if goalHandle.None? || cancelFuture.Some? {
        return;
      }
      if cancelAttempts >= NodeSpec.MAX_CANCEL_ATTEMPTS {
        return;
      }
      if !due {
        return;
      }
      cancelAttempts := cancelAttempts + 1;
      if env.cancelRaises {
        return;
      }
      var id := NewFuture(runtime.generation);
      cancelFuture := Some(id);
    }

    method RequestResult(g: nat, env: NodeSpec.Env)
      requires Valid()
      modifies this
      ensures Valid() && View() == NodeSpec.RequestResult(old(View()), g, env)
    {
      if goalHandle.None? {
        return;
      }
      if env.resultRaises {
        return;
      }
      var id := NewFuture(g);
      resultFuture := Some(id);
    }

    method ResolveUndeliveredCancel()
      requires Valid()
      modifies runtime
      ensures Valid() && View() == NodeSpec.ResolveUndelivered(old(View()))
    {
      if runtime.state == Canceling && runtime.inflight && pending.None? && sendFuture.None? && goalHandle.None? && cancelFuture.None? {
        runtime.OnResult(runtime.generation, STATUS_CANCELED, 0);
      }
    }

    method RunCommands(commands: seq<Command>, env: NodeSpec.Env)
      requires Valid()
      modifies this, runtime
      ensures Valid() && View() == NodeSpec.RunCommands(old(View()), commands, env)
    {
      for i := 0 to |commands|
        invariant Valid()
        invariant NodeSpec.RunEach(View(), commands[i..], env) == NodeSpec.RunEach(old(View()), commands, env)
      {
        assert commands[i..][0] == commands[i] && commands[i..][1..] == commands[i + 1..];
        match commands[i]
        case SendGoal(g, m) =>
          pending := Some((g, m));
          PumpSend(env);
        case CancelActiveGoal(_) =>
          cancelAttempts := 0;
          PumpCancel(true, env);
        case CancelResidualGoals =>
      }
      assert commands[|commands|..] == [];
      if runtime.state == Canceling {
        pending := None;
        ResolveUndeliveredCancel();
      }
    }

    method GoalResponseCallback(future: nat, g: nat, raised: bool, ok: bool, uuid: string, env: NodeSpec.Env)
      requires Valid() && future < |created| && created[future] == g
      modifies this, runtime
      ensures Valid() && View() == NodeSpec.OnGoalResponseEvent(old(View()), future, raised, ok, uuid, env)
    {
      if sendFuture != Some(future) {
        return;
      }
      sendFuture := None;
      if raised {
        var commands := runtime.OnGoalResponse(g, false, "");
        return;
      }
      var commands := runtime.OnGoalResponse(g, ok, uuid);
      if ok && g == runtime.generation && runtime.inflight {
        goalHandle := Some(g);
      }
      RunCommands(commands, env);
      if goalHandle.Some? && resultFuture.None? && g == runtime.generation && runtime.inflight {
        RequestResult(g, env);
      }
    }

    method ResultCallback(future: nat, g: nat, raised: bool, status: int, errorCode: int)
      requires Valid() && future < |created| && created[future] == g
      modifies this, runtime
      ensures Valid() && View() == NodeSpec.OnResultEvent(old(View()), future, raised, status, errorCode)
    {
      if resultFuture != Some(future) {
        return;
      }
      resultFuture := None;
      if raised {
        return;
      }
      runtime.OnResult(g, status, errorCode);
      goalHandle, sendFuture, resultFuture, cancelFuture, cancelAttempts := None, None, None, None, 0;
    }

    method Tick(env: NodeSpec.Env)
      requires Valid()
      modifies this, runtime
      ensures Valid() && View() == NodeSpec.OnTick(old(View()), env)
    {
      if pending.Some? {
        PumpSend(env);
      }
      if runtime.state == Canceling {
        PumpCancel(env.cancelDue, env);
        ResolveUndeliveredCancel();
      }
      if goalHandle.Some? && resultFuture.None? && runtime.inflight && env.resultDue {
        RequestResult(runtime.generation, env);
      }
    }

    /** Any event: the node does what the machine does, so what holds of every run holds of the node. */
    method Handle(event: NodeSpec.Event, g: nat, env: NodeSpec.Env)
      requires Valid() && Inv(View())
      requires event.GoalResponse? || event.Result? ==> event.future < |created| && created[event.future] == g
      modifies this, runtime
      ensures Valid() && View() == NodeSpec.Step(runtime.tolerance, old(View()), event, env) && Inv(View())
    {
      hide Inv;
      StepKeepsInv(runtime.tolerance, View(), event, env);
      match event
      case ModeState(epoch, mapId, ok) =>
        var commands := runtime.ObserveRuntime(epoch, mapId, ok);
        RunCommands(commands, env);
      case SelectRequest(m) =>
        var commands := runtime.Select(m);
        RunCommands(commands, env);
      case DispatchRequest =>
        var commands := runtime.Dispatch();
        RunCommands(commands, env);
      case CancelRequest =>
        var commands := runtime.Cancel();
        RunCommands(commands, env);
      case UnknownRequest =>
      case Odometry(pose) => runtime.ObserveRobotPose(pose);
      case Feedback(sentGeneration) => runtime.OnFeedback(sentGeneration);
      case GoalResponse(future, raised, ok, uuid) => GoalResponseCallback(future, g, raised, ok, uuid, env);
      case Result(future, raised, status, errorCode) => ResultCallback(future, g, raised, status, errorCode);
      case CancelResponse(future, raised) =>
        if cancelFuture == Some(future) {
          cancelFuture := None;
        }
      case Tick => Tick(env);
    }
  }
}
