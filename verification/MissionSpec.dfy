/**
 The ROS-free mission lifecycle as a state machine over values: what each authorized operation and
 each asynchronous Nav2 callback does to the runtime. Free-text detail is not part of the state.
 */
module MissionSpec {
  import opened Options
  import opened Numbers

  datatype Pose = Pose(frame: string, position: seq<Num>, orientation: seq<Num>) {
    predicate IsValid(expected: string) {
      && |position| == 3 && |orientation| == 4
      && (forall i :: 0 <= i < 3 ==> position[i].Finite?)
      && (forall i :: 0 <= i < 4 ==> orientation[i].Finite?)
      && SquaredNorm(orientation) >= 0.000001 * 0.000001
      && frame == expected
    }
  }

  function SquaredNorm(q: seq<Num>): real {
    if q == [] then 0.0
    else (match q[0] case Finite(r) => r * r case NonFinite => 0.0) + SquaredNorm(q[1..])
  }

  /** The yaw difference of two orientations is foreign trigonometry; here it is a parameter. */
  datatype Tolerance = Tolerance(yawDelta: (seq<Num>, seq<Num>) -> real, yaw: real) {
    predicate Same(a: Pose, b: Pose)
    {
      && a.frame == b.frame
      && |a.position| == 3 && |b.position| == 3
      && a.position[0].Finite? && a.position[1].Finite? && b.position[0].Finite? && b.position[1].Finite?
      && (var dx, dy := a.position[0].r - b.position[0].r, a.position[1].r - b.position[1].r;
          dx * dx + dy * dy <= 0.10 * 0.10)
      && -yaw <= yawDelta(a.orientation, b.orientation) <= yaw
    }
  }

  datatype State = Idle | Dispatching | Active | Canceling | Succeeded | Failed | Canceled {
    predicate InFlight() {
      Dispatching? || Active? || Canceling?
    }
  }

  const SINGLE_GOAL: int := 0
  const ORDERED_POSES: int := 1
  const STATUS_ACCEPTED: int := 1
  const STATUS_EXECUTING: int := 2
  const STATUS_SUCCEEDED: int := 4
  const STATUS_CANCELED: int := 5
  const STATUS_ABORTED: int := 6

  datatype Mission = Mission(id: string, revision: int, epoch: int, mapId: string, kind: int, poses: seq<Pose>)

  datatype Failure = Failure(missionId: string, pose: Pose, errorCode: int)

  datatype Command = SendGoal(generation: nat, mission: Mission) | CancelActiveGoal(generation: nat) | CancelResidualGoals

  /** `ended` and `accepted` are histories: generations that became terminal, revisions that were accepted. */
  datatype Runtime = Runtime(
    epoch: int, mapId: string, state: State, mission: Option<Mission>, missionValid: bool,
    generation: nat, goalUuid: string, status: int, errorCode: int,
    inflight: bool, cancelRequested: bool, autonomyOk: Option<bool>, autonomyKey: Option<(int, string)>,
    maxRevision: int, residualCleared: bool, robotPose: Option<Pose>, failed: Option<Failure>, inflightId: string,
    ended: seq<nat>, accepted: seq<int>)

  const INITIAL: Runtime := Runtime(
    0, "", Idle, None, false, 0, "", -1, 0, false, false, None, None, 0, false, None, None, "", [], [])

  predicate IsCurrent(rt: Runtime, generation: nat) {
    generation == rt.generation && rt.inflight
  }

  function BeginCancel(rt: Runtime): (Runtime, seq<Command>) {
    (rt.(cancelRequested := true, state := Canceling),
     if rt.goalUuid != "" then [CancelActiveGoal(rt.generation)] else [])
  }

  function Invalidate(rt: Runtime): (Runtime, seq<Command>) {
    var rt := rt.(missionValid := false, mission := None, failed := None);
    if rt.inflight then BeginCancel(rt)
    else (rt.(state := if rt.state.InFlight() then Idle else rt.state), [])
  }

  function ObserveRuntime(rt: Runtime, epoch: int, mapId: string, ok: bool): (Runtime, seq<Command>) {
    var wasOk := rt.autonomyOk;
    var rt := rt.(autonomyOk := Some(ok));
    if ok then
      var key := (epoch, mapId);
      var (rt, commands) := if rt.autonomyKey.Some? && rt.autonomyKey.value != key then Invalidate(rt) else (rt, []);
      (rt.(autonomyKey := Some(key), epoch := epoch, mapId := mapId), commands)
    else if wasOk == Some(true) then Invalidate(rt)
    else (rt, [])
  }

  predicate AcceptsSelect(rt: Runtime, m: Mission) {
    && m.id != ""
    && (m.kind == SINGLE_GOAL || m.kind == ORDERED_POSES)
    && m.poses != [] && (forall i :: 0 <= i < |m.poses| ==> m.poses[i].IsValid("map"))
    && (m.kind == SINGLE_GOAL ==> |m.poses| == 1)
    && rt.autonomyOk == Some(true)
    && m.epoch == rt.epoch
    && (rt.mapId == "" || m.mapId == rt.mapId)
    && m.revision > rt.maxRevision
  }

  function Select(rt: Runtime, m: Mission): (Runtime, seq<Command>) {
    if !AcceptsSelect(rt, m) then (rt, []) else
      var rt := rt.(maxRevision := m.revision, accepted := rt.accepted + [m.revision]);
      var (rt, commands) := if rt.inflight then BeginCancel(rt) else (rt.(state := Idle), []);
      (rt.(mission := Some(m), missionValid := true, failed := None), commands)
  }

  predicate Blocked(tol: Tolerance, rt: Runtime) {
    rt.failed.Some? && rt.mission.Some? && rt.failed.value.missionId == rt.mission.value.id &&
    rt.robotPose.Some? && tol.Same(rt.failed.value.pose, rt.robotPose.value)
  }

  function Dispatch(tol: Tolerance, rt: Runtime): (Runtime, seq<Command>) {
    if !rt.missionValid || rt.mission.None? then (rt, [])
    else if rt.inflight || rt.state == Canceling then (rt, [])
    else if rt.autonomyOk != Some(true) then (rt, [])
    else if rt.mission.value.epoch != rt.epoch then (rt.(mission := None, missionValid := false), [])
    else if Blocked(tol, rt) then (rt.(errorCode := rt.failed.value.errorCode), [])
    else
      (rt.(generation := rt.generation + 1, inflight := true, inflightId := rt.mission.value.id, cancelRequested := false,
           goalUuid := "", status := -1, errorCode := 0, state := Dispatching, residualCleared := true),
       (if rt.residualCleared then [] else [CancelResidualGoals]) + [SendGoal(rt.generation + 1, rt.mission.value)])
  }

  function Cancel(rt: Runtime): (Runtime, seq<Command>) {
    if rt.inflight then BeginCancel(rt)
    else (rt.(state := if rt.state.InFlight() then Idle else rt.state), [])
  }

  function OnGoalResponse(rt: Runtime, generation: nat, accepted: bool, uuid: string): (Runtime, seq<Command>) {
    if !IsCurrent(rt, generation) then (rt, [])
    else if !accepted then
      (rt.(inflight := false, inflightId := "", state := Failed, status := STATUS_ABORTED, ended := rt.ended + [generation]), [])
    else
      var rt := rt.(goalUuid := uuid);
      if rt.cancelRequested then (rt.(state := Canceling), [CancelActiveGoal(generation)])
      else (rt.(state := Active, status := STATUS_ACCEPTED), [])
  }

  function OnFeedback(rt: Runtime, generation: nat): Runtime {
    if !IsCurrent(rt, generation) then rt
    else if rt.state == Dispatching || rt.state == Active then rt.(state := Active, status := STATUS_EXECUTING)
    else rt
  }

  function ObserveRobotPose(rt: Runtime, pose: Pose): Runtime {
    if pose.IsValid("odom") then rt.(robotPose := Some(pose)) else rt
  }

  function OnResult(rt: Runtime, generation: nat, status: int, errorCode: int): Runtime {
    if !IsCurrent(rt, generation) then rt else
      var id := rt.inflightId;
      var rt := rt.(inflight := false, inflightId := "", cancelRequested := false, goalUuid := "",
                    status := status, errorCode := errorCode, ended := rt.ended + [generation]);
      if status == STATUS_SUCCEEDED then rt.(state := Succeeded, failed := None)
      else if status == STATUS_CANCELED then rt.(state := Canceled, failed := None)
      else if id != "" && rt.robotPose.Some? then
        rt.(state := Failed, failed := Some(Failure(id, rt.robotPose.value, errorCode)))
      else rt.(state := Failed)
  }
}

/**
 The node around the runtime: at most one pending dispatch, one outstanding send future, one goal
 handle, and the result and cancel futures of that handle. Events cover every callback order; what
 the action servers and the clock do in an event is part of the event.
 */
module MissionNodeSpec {
  import opened Options
  import opened Numbers
  import opened MissionSpec

  const MAX_CANCEL_ATTEMPTS: nat := 5

  /** `created` remembers the generation each future was created for; `sent` every goal handed to Nav2. */
  datatype Node = Node(
    rt: Runtime, pending: Option<(nat, Mission)>, sendFuture: Option<nat>, handle: Option<nat>,
    resultFuture: Option<nat>, cancelFuture: Option<nat>, cancelAttempts: nat,
    created: seq<nat>, sent: seq<(nat, Mission)>)

  const INITIAL_NODE: Node := Node(INITIAL, None, None, None, None, None, 0, [], [])

  /** The environment during one event: servers ready, client calls raising, retry times reached. */
  datatype Env = Env(serverReady: bool, sendRaises: bool, cancelDue: bool, cancelRaises: bool, resultDue: bool, resultRaises: bool)

  datatype Event =
    | ModeState(epoch: int, mapId: string, ok: bool)
    | SelectRequest(m: Mission)
    | DispatchRequest
    | CancelRequest
    | UnknownRequest
    | Odometry(pose: Pose)
    | Feedback(generation: nat)
    | GoalResponse(future: nat, raised: bool, accepted: bool, uuid: string)
    | Result(future: nat, raised: bool, status: int, errorCode: int)
    | CancelResponse(future: nat, raised: bool)
    | Tick

  function PumpSend(n: Node, env: Env): Node {
    if n.pending.None? || !IsCurrent(n.rt, n.pending.value.0) then n.(pending := None)
    else if n.rt.state == Canceling then n.(pending := None)
    else if n.handle.Some? || n.sendFuture.Some? then n
    else if !env.serverReady then n
    else
      var (g, m) := n.pending.value;
      if env.sendRaises then n.(pending := None, rt := OnGoalResponse(n.rt, g, false, "").0)
      else n.(pending := None, sendFuture := Some(|n.created|), created := n.created + [g], sent := n.sent + [(g, m)])
  }

  function PumpCancel(n: Node, due: bool, env: Env): Node {
    if n.handle.None? || n.cancelFuture.Some? || n.cancelAttempts >= MAX_CANCEL_ATTEMPTS || !due then n
    else
      var n := n.(cancelAttempts := n.cancelAttempts + 1);
      if env.cancelRaises then n
      else n.(cancelFuture := Some(|n.created|), created := n.created + [n.rt.generation])
  }

  function RequestResult(n: Node, generation: nat, env: Env): Node {
    if n.handle.None? || env.resultRaises then n
    else n.(resultFuture := Some(|n.created|), created := n.created + [generation])
  }

  function ResolveUndelivered(n: Node): Node {
    if n.rt.state == Canceling && n.rt.inflight && n.pending.None? && n.sendFuture.None? && n.handle.None? && n.cancelFuture.None?
    then n.(rt := OnResult(n.rt, n.rt.generation, STATUS_CANCELED, 0))
    else n
  }

  function RunCommand(n: Node, c: Command, env: Env): Node {
    match c
    case SendGoal(g, m) => PumpSend(n.(pending := Some((g, m))), env)
    case CancelActiveGoal(_) => PumpCancel(n.(cancelAttempts := 0), true, env)
    case CancelResidualGoals => n
  }

  function RunEach(n: Node, commands: seq<Command>, env: Env): Node
    decreases |commands|
  {
    if commands == [] then n else RunEach(RunCommand(n, commands[0], env), commands[1..], env)
  }

  function RunCommands(n: Node, commands: seq<Command>, env: Env): Node {
    var n := RunEach(n, commands, env);
    if n.rt.state == Canceling then ResolveUndelivered(n.(pending := None)) else n
  }

  function Apply(n: Node, r: (Runtime, seq<Command>), env: Env): Node {
    RunCommands(n.(rt := r.0), r.1, env)
  }

  function OnGoalResponseEvent(n: Node, future: nat, raised: bool, accepted: bool, uuid: string, env: Env): Node {
    if n.sendFuture != Some(future) || future >= |n.created| then n else
      var g := n.created[future];
      var n := n.(sendFuture := None);
      if raised then n.(rt := OnGoalResponse(n.rt, g, false, "").0)
      else
        var (rt, commands) := OnGoalResponse(n.rt, g, accepted, uuid);
        var n := n.(rt := rt, handle := if accepted && IsCurrent(rt, g) then Some(g) else n.handle);
        var n := RunCommands(n, commands, env);
        if n.handle.Some? && n.resultFuture.None? && IsCurrent(n.rt, g) then RequestResult(n, g, env) else n
  }

  function ClearActionFutures(n: Node): Node {
    n.(handle := None, sendFuture := None, resultFuture := None, cancelFuture := None, cancelAttempts := 0)
  }

  function OnResultEvent(n: Node, future: nat, raised: bool, status: int, errorCode: int): Node {
    if n.resultFuture != Some(future) || future >= |n.created| then n else
      var g := n.created[future];
      var n := n.(resultFuture := None);
      if raised then n else ClearActionFutures(n.(rt := OnResult(n.rt, g, status, errorCode)))
  }

  function OnTick(n: Node, env: Env): Node {
    var n := if n.pending.Some? then PumpSend(n, env) else n;
    var n := if n.rt.state == Canceling then ResolveUndelivered(PumpCancel(n, env.cancelDue, env)) else n;
    if n.handle.Some? && n.resultFuture.None? && n.rt.inflight && env.resultDue then RequestResult(n, n.rt.generation, env) else n
  }

  function Step(tol: Tolerance, n: Node, e: Event, env: Env): Node {
    match e
    case ModeState(epoch, mapId, ok) => Apply(n, ObserveRuntime(n.rt, epoch, mapId, ok), env)
    case SelectRequest(m) => Apply(n, Select(n.rt, m), env)
    case DispatchRequest => Apply(n, Dispatch(tol, n.rt), env)
    case CancelRequest => Apply(n, Cancel(n.rt), env)
    case UnknownRequest => n
    case Odometry(pose) => n.(rt := ObserveRobotPose(n.rt, pose))
    case Feedback(g) => n.(rt := OnFeedback(n.rt, g))
    case GoalResponse(f, raised, accepted, uuid) => OnGoalResponseEvent(n, f, raised, accepted, uuid, env)
    case Result(f, raised, status, errorCode) => OnResultEvent(n, f, raised, status, errorCode)
    case CancelResponse(f, raised) => if n.cancelFuture == Some(f) then n.(cancelFuture := None) else n
    case Tick => OnTick(n, env)
  }

  function Run(tol: Tolerance, n: Node, events: seq<(Event, Env)>): Node
    decreases |events|
  {
    if events == [] then n
    else
      var before := Run(tol, n, events[..|events| - 1]);
      Step(tol, before, events[|events| - 1].0, events[|events| - 1].1)
  }
}
