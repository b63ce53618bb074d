/** What holds at every quiescent point of every callback interleaving of the mission protocol. */
module MissionInvariants {
  import opened Options
  import opened MissionSpec
  import opened MissionNodeSpec

  ghost predicate Increasing(s: seq<int>) {
    forall i, j :: 0 <= i < j < |s| ==> s[i] < s[j]
  }

  /** A held mission belongs to the AUTONOMY session, epoch and map it was selected in. */
  ghost predicate SessionOk(rt: Runtime) {
    && (rt.missionValid <==> rt.mission.Some?)
    && (rt.mission.Some? ==> rt.mission.value.id != "")
    && (rt.autonomyOk == Some(true) ==> rt.autonomyKey == Some((rt.epoch, rt.mapId)))
    && (rt.mission.Some? ==>
          rt.autonomyOk == Some(true) && rt.mission.value.epoch == rt.epoch &&
          (rt.mapId == "" || rt.mission.value.mapId == rt.mapId) && rt.mission.value.revision == rt.maxRevision)
    && Increasing(rt.accepted) && (forall i :: 0 <= i < |rt.accepted| ==> 0 < rt.accepted[i] <= rt.maxRevision)
    && rt.maxRevision == (if rt.accepted == [] then 0 else rt.accepted[|rt.accepted| - 1])
  }

  function Held<T>(o: Option<T>): nat { if o.Some? then 1 else 0 }

  /** In flight means exactly one of: a pending dispatch, an outstanding send future, a live goal handle. */
  ghost predicate FlightOk(n: Node) {
    && (n.rt.inflight <==> n.rt.state.InFlight())
    && Held(n.pending) + Held(n.sendFuture) + Held(n.handle) == (if n.rt.inflight then 1 else 0)
    && (n.pending.Some? ==> n.pending.value.0 == n.rt.generation && n.rt.mission == Some(n.pending.value.1) && n.rt.state != Canceling)
    && (n.sendFuture.Some? ==> n.sendFuture.value < |n.created| && n.created[n.sendFuture.value] == n.rt.generation)
    && (n.handle.Some? ==> n.handle.value == n.rt.generation)
    && (n.resultFuture.Some? ==> n.handle.Some? && n.resultFuture.value < |n.created| && n.created[n.resultFuture.value] == n.rt.generation)
    && (n.cancelFuture.Some? ==> n.handle.Some?)
    && (n.rt.inflight ==> n.rt.inflightId != "" && (n.rt.state == Canceling <==> n.rt.cancelRequested))
  }

  /** While dispatching or active, the held mission is the one handed over under the current generation. */
  ghost predicate HeldIsSent(n: Node) {
    (n.rt.state == Dispatching || n.rt.state == Active) ==>
      n.rt.mission.Some? && n.rt.inflightId == n.rt.mission.value.id &&
      (n.pending == Some((n.rt.generation, n.rt.mission.value)) ||
       (n.sent != [] && n.sent[|n.sent| - 1] == (n.rt.generation, n.rt.mission.value)))
  }

  /** Generations end at most once, in order, and only after they started. */
  ghost predicate EndedOk(rt: Runtime) {
    && Increasing(rt.ended)
    && (forall i :: 0 <= i < |rt.ended| ==> if rt.inflight then rt.ended[i] < rt.generation else rt.ended[i] <= rt.generation)
  }

  ghost predicate Unresolved(n: Node, g: nat) {
    (exists i :: 0 <= i < |n.sent| && n.sent[i].0 == g) && g !in n.rt.ended
  }

  /** Each generation is sent at most once; a goal sent earlier than the live one has ended. */
  ghost predicate SentOk(n: Node) {
    && (forall i, j :: 0 <= i < j < |n.sent| ==> n.sent[i].0 < n.sent[j].0)
    && (forall i :: 0 <= i < |n.sent| ==> n.sent[i].0 <= n.rt.generation && (n.pending.Some? ==> n.sent[i].0 < n.rt.generation))
    && (forall i :: 0 <= i < |n.sent| ==> n.sent[i].0 in n.rt.ended || (n.sent[i].0 == n.rt.generation && n.rt.inflight))
    && (n.sendFuture.Some? || n.handle.Some? ==> n.sent != [] && n.sent[|n.sent| - 1].0 == n.rt.generation)
  }

  ghost predicate Inv(n: Node) {
    SessionOk(n.rt) && FlightOk(n) && HeldIsSent(n) && EndedOk(n.rt) && SentOk(n)
  }

  /** The live generation ends: nothing of it is kept, and it is recorded once. */
  lemma EndKeeps(n: Node, rt: Runtime)
    requires SessionOk(n.rt) && EndedOk(n.rt) && SentOk(n) && n.rt.inflight
    requires SessionOk(rt) && !rt.inflight && !rt.state.InFlight()
    requires rt.generation == n.rt.generation && rt.ended == n.rt.ended + [n.rt.generation]
    ensures Inv(ClearActionFutures(n.(rt := rt, pending := None)))
  {
    var n' := ClearActionFutures(n.(rt := rt, pending := None));
    forall i | 0 <= i < |n'.sent|
      ensures n'.sent[i].0 in rt.ended
    {
      assert n.sent[i].0 in n.rt.ended || n.sent[i].0 == n.rt.generation;
      assert rt.ended[|n.rt.ended|] == n.rt.generation;
    }
  }

  lemma PumpSendKeeps(n: Node, env: Env)
    requires Inv(n) && n.pending.Some?
    ensures Inv(PumpSend(n, env)) && PumpSend(n, env).rt.state != Canceling
  {
    var (g, m) := n.pending.value;
    if env.serverReady && !env.sendRaises {
      var n' := PumpSend(n, env);
      assert n'.sent == n.sent + [(g, m)];
    }
  }

  lemma PumpCancelKeeps(n: Node, due: bool, env: Env)
    requires Inv(n)
    ensures Inv(PumpCancel(n, due, env)) && PumpCancel(n, due, env).rt == n.rt
    ensures PumpCancel(n, due, env).pending == n.pending && PumpCancel(n, due, env).sendFuture == n.sendFuture
  {
  }

  lemma RequestResultKeeps(n: Node, env: Env)
    requires Inv(n)
    ensures Inv(RequestResult(n, n.rt.generation, env))
  {
  }

  /** A cancel that finds nothing delivered ends the generation on the spot. */
  lemma ResolveKeeps(n: Node)
    requires SessionOk(n.rt) && EndedOk(n.rt) && SentOk(n) && n.pending.None?
    requires n.rt.inflight && n.rt.state == Canceling && n.rt.cancelRequested
    requires Inv(n) || (n.sendFuture.None? && n.handle.None? && n.resultFuture.None? && n.cancelFuture.None?)
    ensures Inv(ResolveUndelivered(n))
  {
  }

  /** With nothing to run, a quiescent node stays as it is. */
  lemma NoCommands(n: Node, env: Env)
    requires Inv(n)
    ensures RunCommands(n, [], env) == n
  {
  }

  lemma OneCommand(n: Node, c: Command, env: Env)
    ensures RunEach(n, [c], env) == RunCommand(n, c, env)
  {
    assert RunEach(RunCommand(n, c, env), [], env) == RunCommand(n, c, env);
  }

  /** Cancelling, for whatever reason, what is in flight. */
  lemma CancelKeeps(n: Node, rt: Runtime, env: Env)
    requires Inv(n) && n.rt.inflight && SessionOk(rt)
    requires rt.inflight && rt.state == Canceling && rt.cancelRequested
    requires rt.generation == n.rt.generation && rt.ended == n.rt.ended && rt.goalUuid == n.rt.goalUuid && rt.inflightId == n.rt.inflightId
    ensures Inv(RunCommands(n.(rt := rt), if rt.goalUuid != "" then [CancelActiveGoal(rt.generation)] else [], env))
  {
    hide EndedOk, SentOk, SessionOk;
    var n1 := n.(rt := rt);
    var c := CancelActiveGoal(rt.generation);
    OneCommand(n1, c, env);
    var n2 := if rt.goalUuid != "" then RunCommand(n1, c, env) else n1;
    assert RunEach(n1, if rt.goalUuid != "" then [c] else [], env) == n2;
    SentAfterCancel(n, rt, n2.(pending := None));
    ResolveKeeps(n2.(pending := None));
  }

  lemma SentAfterCancel(n: Node, rt: Runtime, n': Node)
    requires SentOk(n) && EndedOk(n.rt) && rt.inflight && n.rt.inflight && rt.generation == n.rt.generation && rt.ended == n.rt.ended
    requires n'.rt == rt && n'.pending.None? && n'.sendFuture == n.sendFuture && n'.handle == n.handle && n'.sent == n.sent
    ensures SentOk(n') && EndedOk(rt)
  {
  }

  lemma NewDispatchKeeps(n: Node, rt: Runtime)
    requires Inv(n) && !n.rt.inflight && n.rt.mission.Some? && n.rt.autonomyOk == Some(true)
    requires rt == n.rt.(generation := n.rt.generation + 1, inflight := true, inflightId := n.rt.mission.value.id, cancelRequested := false,
                         goalUuid := "", status := -1, errorCode := 0, state := Dispatching, residualCleared := true)
    ensures Inv(n.(rt := rt, pending := Some((rt.generation, rt.mission.value))))
  {
  }

  lemma DispatchKeeps(tol: Tolerance, n: Node, env: Env)
    requires Inv(n)
    ensures Inv(Apply(n, Dispatch(tol, n.rt), env))
  {
    hide Inv, PumpSend;
    InFlightState(n);
    var (rt, commands) := Dispatch(tol, n.rt);
    if commands == [] {
      SessionChangeKeeps(n, rt);
      NoCommands(n.(rt := rt), env);
    } else {
      var g, m := rt.generation, rt.mission.value;
      var n1 := n.(rt := rt, pending := Some((g, m)));
      NewDispatchKeeps(n, rt);
      PumpSendKeeps(n1, env);
      OneCommand(n.(rt := rt), SendGoal(g, m), env);
      if !n.rt.residualCleared {
        assert commands[1..] == [SendGoal(g, m)];
      }
      assert RunEach(n.(rt := rt), commands, env) == PumpSend(n1, env);
    }
  }

  lemma SelectKeeps(n: Node, m: Mission, env: Env)
    requires Inv(n)
    ensures Inv(Apply(n, Select(n.rt, m), env))
  {
    hide RunCommands, Inv;
    InFlightState(n);
    var (rt, commands) := Select(n.rt, m);
    if !AcceptsSelect(n.rt, m) {
      NoCommands(n, env);
    } else if n.rt.inflight {
      CancelKeeps(n, rt, env);
    } else {
      SessionChangeKeeps(n, rt);
      NoCommands(n.(rt := rt), env);
    }
  }

  /** Changes of session data that leave the action alone; a mission may be dropped only when none is in flight. */
  lemma SessionChangeKeeps(n: Node, rt: Runtime)
    requires Inv(n) && SessionOk(rt)
    requires rt.inflight == n.rt.inflight && rt.generation == n.rt.generation && rt.ended == n.rt.ended
    requires rt.cancelRequested == n.rt.cancelRequested && rt.inflightId == n.rt.inflightId
    requires n.rt.inflight ==> rt.state == n.rt.state && rt.mission == n.rt.mission
    requires !n.rt.inflight ==> !rt.state.InFlight()
    ensures Inv(n.(rt := rt))
  {
  }

  lemma InvalidateKeeps(n: Node, rt: Runtime, env: Env)
    requires Inv(n) && rt.mission.None? && SessionOk(rt)
    requires rt.inflight == n.rt.inflight && rt.generation == n.rt.generation && rt.ended == n.rt.ended
    requires rt.inflightId == n.rt.inflightId && rt.goalUuid == n.rt.goalUuid
    requires n.rt.inflight ==> rt.state == Canceling && rt.cancelRequested
    requires !n.rt.inflight ==> !rt.state.InFlight() && rt.cancelRequested == n.rt.cancelRequested
    ensures Inv(RunCommands(n.(rt := rt), if n.rt.inflight && rt.goalUuid != "" then [CancelActiveGoal(rt.generation)] else [], env))
  {
    hide RunCommands, Inv;
    if n.rt.inflight {
      InFlightState(n);
      CancelKeeps(n, rt, env);
    } else {
      SessionChangeKeeps(n, rt);
      NoCommands(n.(rt := rt), env);
    }
  }

  lemma InFlightState(n: Node)
    requires Inv(n)
    ensures n.rt.inflight <==> n.rt.state.InFlight()
    ensures SessionOk(n.rt)
  {
  }

  lemma ObserveKeeps(n: Node, epoch: int, mapId: string, ok: bool, env: Env)
    requires Inv(n)
    ensures Inv(Apply(n, ObserveRuntime(n.rt, epoch, mapId, ok), env))
  {
    hide RunCommands, Inv;
    InFlightState(n);
    var (rt, commands) := ObserveRuntime(n.rt, epoch, mapId, ok);
    if (ok && n.rt.autonomyKey.Some? && n.rt.autonomyKey.value != (epoch, mapId)) || (!ok && n.rt.autonomyOk == Some(true)) {
      InvalidateKeeps(n, rt, env);
    } else {
      SessionChangeKeeps(n, rt);
      NoCommands(n.(rt := rt), env);
    }
  }

  lemma SendFutureFacts(n: Node, future: nat)
    requires Inv(n) && n.sendFuture == Some(future)
    ensures future < |n.created| && n.created[future] == n.rt.generation && n.rt.inflight
    ensures n.pending.None? && n.handle.None? && n.resultFuture.None? && n.cancelFuture.None?
  {
  }

  lemma AcceptedKeeps(n: Node, uuid: string)
    requires Inv(n) && n.sendFuture.Some?
    ensures Inv(n.(sendFuture := None, rt := OnGoalResponse(n.rt, n.rt.generation, true, uuid).0, handle := Some(n.rt.generation)))
  {
    hide SessionOk, EndedOk;
    SameSession(n.rt, OnGoalResponse(n.rt, n.rt.generation, true, uuid).0);
    SameEnded(n.rt, OnGoalResponse(n.rt, n.rt.generation, true, uuid).0);
  }

  lemma SameEnded(rt: Runtime, rt': Runtime)
    requires EndedOk(rt) && rt'.ended == rt.ended && rt'.generation == rt.generation && rt'.inflight == rt.inflight
    ensures EndedOk(rt')
  {
  }

  lemma RejectedKeeps(n: Node)
    requires Inv(n) && n.sendFuture.Some?
    ensures Inv(n.(sendFuture := None, rt := OnGoalResponse(n.rt, n.rt.generation, false, "").0))
  {
    hide SessionOk, EndedOk, SentOk;
    var rt := OnGoalResponse(n.rt, n.rt.generation, false, "").0;
    SameSession(n.rt, rt);
    EndKeeps(n, rt);
    AttemptsDoNotMatter(ClearActionFutures(n.(rt := rt, pending := None)), n.cancelAttempts);
  }

  lemma AttemptsDoNotMatter(n: Node, attempts: nat)
    requires Inv(n)
    ensures Inv(n.(cancelAttempts := attempts))
  {
  }

  lemma GoalResponseKeeps(n: Node, future: nat, raised: bool, accepted: bool, uuid: string, env: Env)
    requires Inv(n)
    ensures Inv(OnGoalResponseEvent(n, future, raised, accepted, uuid, env))
  {
    hide RunCommands, Inv, RequestResult;
    if n.sendFuture == Some(future) {
      SendFutureFacts(n, future);
      AcceptedKeeps(n, uuid);
      RejectedKeeps(n);
      var g := n.rt.generation;
      var (rt, commands) := OnGoalResponse(n.rt, g, accepted, uuid);
      var n1 := n.(sendFuture := None, rt := rt, handle := if accepted then Some(g) else None);
      if accepted && n.rt.cancelRequested {
        CancelAcceptedKeeps(n1, g, env);
      } else {
        NoCommands(n1, env);
      }
      RequestResultKeeps(RunCommands(n1, commands, env), env);
    }
  }

  lemma CancelAcceptedKeeps(n: Node, g: nat, env: Env)
    requires Inv(n) && n.handle == Some(g) && n.rt.state == Canceling
    ensures Inv(RunCommands(n, [CancelActiveGoal(g)], env)) && RunCommands(n, [CancelActiveGoal(g)], env).rt == n.rt
  {
    OneCommand(n, CancelActiveGoal(g), env);
    PumpCancelKeeps(n.(cancelAttempts := 0), true, env);
    ResolveKeeps(PumpCancel(n.(cancelAttempts := 0), true, env));
  }

  lemma TickKeeps(n: Node, env: Env)
    requires Inv(n)
    ensures Inv(OnTick(n, env))
  {
    var n1 := if n.pending.Some? then PumpSend(n, env) else n;
    if n.pending.Some? {
      PumpSendKeeps(n, env);
    }
    PumpCancelKeeps(n1, env.cancelDue, env);
    var n2 := PumpCancel(n1, env.cancelDue, env);
    if n1.rt.state == Canceling {
      ResolveKeeps(n2);
    }
    var n3 := if n1.rt.state == Canceling then ResolveUndelivered(n2) else n1;
    RequestResultKeeps(n3, env);
  }

  lemma ResultKeeps(n: Node, future: nat, raised: bool, status: int, errorCode: int)
    requires Inv(n)
    ensures Inv(OnResultEvent(n, future, raised, status, errorCode))
  {
    if n.resultFuture == Some(future) && !raised {
      hide EndedOk, SentOk, SessionOk;
      var rt := OnResult(n.rt, n.rt.generation, status, errorCode);
      SameSession(n.rt, rt);
      EndKeeps(n, rt);
    }
  }

  lemma SameSession(rt: Runtime, rt': Runtime)
    requires SessionOk(rt)
    requires rt' == rt.(state := rt'.state, status := rt'.status, errorCode := rt'.errorCode, inflight := rt'.inflight,
                        inflightId := rt'.inflightId, cancelRequested := rt'.cancelRequested, goalUuid := rt'.goalUuid,
                        failed := rt'.failed, ended := rt'.ended)
    ensures SessionOk(rt')
  {
  }

  lemma CancelRequestKeeps(n: Node, env: Env)
    requires Inv(n)
    ensures Inv(Apply(n, Cancel(n.rt), env))
  {
    hide RunCommands, Inv;
    InFlightState(n);
    var (rt, commands) := Cancel(n.rt);
    if n.rt.inflight {
      CancelKeeps(n, rt, env);
    } else {
      NoCommands(n, env);
    }
  }

  lemma FeedbackKeeps(n: Node, g: nat)
    requires Inv(n)
    ensures Inv(n.(rt := OnFeedback(n.rt, g)))
  {
  }

  lemma CancelResponseKeeps(n: Node)
    requires Inv(n)
    ensures Inv(n.(cancelFuture := None))
  {
  }

  /** Every event, whatever the servers do during it, keeps the invariant. */
  lemma StepKeepsInv(tol: Tolerance, n: Node, e: Event, env: Env)
    requires Inv(n)
    ensures Inv(Step(tol, n, e, env))
  {
    hide Inv, Apply, OnGoalResponseEvent, OnResultEvent, OnTick, OnFeedback;
    match e
    case ModeState(epoch, mapId, ok) => ObserveKeeps(n, epoch, mapId, ok, env);
    case SelectRequest(m) => SelectKeeps(n, m, env);
    case DispatchRequest => DispatchKeeps(tol, n, env);
    case CancelRequest => CancelRequestKeeps(n, env);
    case UnknownRequest =>
    case Odometry(pose) =>
      InFlightState(n);
      SessionChangeKeeps(n, ObserveRobotPose(n.rt, pose));
    case Feedback(g) => FeedbackKeeps(n, g);
    case GoalResponse(f, raised, accepted, uuid) => GoalResponseKeeps(n, f, raised, accepted, uuid, env);
    case Result(f, raised, status, errorCode) => ResultKeeps(n, f, raised, status, errorCode);
    case CancelResponse(f, raised) => CancelResponseKeeps(n);
    case Tick => TickKeeps(n, env);
  }

  // ---- whole runs

  ghost function After(tol: Tolerance, events: seq<(Event, Env)>): Node {
    Run(tol, INITIAL_NODE, events)
  }

  lemma InitialInv(n: Node)
    requires n == INITIAL_NODE
    ensures Inv(n)
  {
    hide SentOk, EndedOk, SessionOk, FlightOk, HeldIsSent;
    InitialHistory(n);
    InitialFlight();
    InitiallyNothingSent();
  }

  lemma InitialFlight()
    ensures FlightOk(INITIAL_NODE)
  {
  }

  lemma InitiallyNothingSent()
    ensures HeldIsSent(INITIAL_NODE)
  {
  }

  lemma InitialHistory(n: Node)
    requires n == INITIAL_NODE
    ensures SessionOk(n.rt) && EndedOk(n.rt) && SentOk(n)
  {
  }

  /** The invariant holds after every event sequence from start-up. */
  lemma {:induction false} RunKeepsInv(tol: Tolerance, events: seq<(Event, Env)>)
    ensures Inv(After(tol, events))
  {
    hide Inv, Step;
    if events == [] {
      InitialInv(After(tol, events));
    } else {
      var k := |events| - 1;
      RunKeepsInv(tol, events[..k]);
      StepKeepsInv(tol, After(tol, events[..k]), events[k].0, events[k].1);
    }
  }

  /** In every run: one live goal at most, and `in flight` says so truthfully. */
  lemma OneGoalAtATime(tol: Tolerance, events: seq<(Event, Env)>)
    ensures var n := After(tol, events);
            && (n.rt.inflight <==> n.rt.state.InFlight())
            && (n.rt.inflight <==> Held(n.pending) + Held(n.sendFuture) + Held(n.handle) == 1)
            && (!n.rt.inflight <==> n.pending.None? && n.sendFuture.None? && n.handle.None?)
            && (forall g: nat, h: nat :: Unresolved(n, g) && Unresolved(n, h) ==> g == h)
            && (forall g: nat :: Unresolved(n, g) ==> g == n.rt.generation && (n.sendFuture.Some? || n.handle.Some?))
  {
    RunKeepsInv(tol, events);
    var n := After(tol, events);
    forall g: nat | Unresolved(n, g)
      ensures g == n.rt.generation && (n.sendFuture.Some? || n.handle.Some?)
    {
      var i :| 0 <= i < |n.sent| && n.sent[i].0 == g;
    }
  }

  /** Histories only grow: no event rewrites what ended, what was accepted or what was sent. */
  ghost predicate Grown(n: Node, n': Node) {
    n.rt.ended <= n'.rt.ended && n.rt.accepted <= n'.rt.accepted && n.sent <= n'.sent
  }

  lemma HistoriesGrow(tol: Tolerance, n: Node, e: Event, env: Env)
    ensures Grown(n, Step(tol, n, e, env))
  {
    hide Apply, OnGoalResponseEvent, OnTick, OnResultEvent, ObserveRuntime, Select, Dispatch, Cancel;
    match e
    case ModeState(epoch, mapId, ok) =>
      ObserveHistory(n.rt, epoch, mapId, ok);
      ApplyGrows(n, ObserveRuntime(n.rt, epoch, mapId, ok), env);
    case SelectRequest(m) =>
      SelectHistory(n.rt, m);
      ApplyGrows(n, Select(n.rt, m), env);
    case DispatchRequest =>
      DispatchHistory(tol, n.rt);
      ApplyGrows(n, Dispatch(tol, n.rt), env);
    case CancelRequest =>
      CancelHistory(n.rt);
      ApplyGrows(n, Cancel(n.rt), env);
    case Result(f, raised, status, errorCode) => ResultGrows(n, f, raised, status, errorCode);
    case GoalResponse(f, raised, accepted, uuid) => GoalResponseGrows(n, f, raised, accepted, uuid, env);
    case Tick => TickPumps(n, env);
    case _ =>
  }

  lemma RunCommandsGrow(n: Node, commands: seq<Command>, env: Env)
    ensures Grown(n, RunCommands(n, commands, env))
  {
    hide RunEach;
    RunEachGrow(n, commands, env);
  }

  lemma ApplyGrows(n: Node, r: (Runtime, seq<Command>), env: Env)
    requires n.rt.ended == r.0.ended && n.rt.accepted <= r.0.accepted
    ensures Grown(n, Apply(n, r, env))
  {
    hide RunCommands;
    RunCommandsGrow(n.(rt := r.0), r.1, env);
  }

  lemma ObserveHistory(rt: Runtime, epoch: int, mapId: string, ok: bool)
    ensures var r := ObserveRuntime(rt, epoch, mapId, ok).0; r.ended == rt.ended && r.accepted == rt.accepted
  {
  }

  lemma SelectHistory(rt: Runtime, m: Mission)
    ensures Select(rt, m).0.ended == rt.ended && rt.accepted <= Select(rt, m).0.accepted
  {
    hide AcceptsSelect;
  }

  lemma DispatchHistory(tol: Tolerance, rt: Runtime)
    ensures var r := Dispatch(tol, rt).0; r.ended == rt.ended && r.accepted == rt.accepted
  {
    hide Blocked;
  }

  lemma CancelHistory(rt: Runtime)
    ensures var r := Cancel(rt).0; r.ended == rt.ended && r.accepted == rt.accepted
  {
  }

  lemma ResultGrows(n: Node, f: nat, raised: bool, status: int, errorCode: int)
    ensures Grown(n, OnResultEvent(n, f, raised, status, errorCode))
  {
  }

  lemma GoalResponseGrows(n: Node, f: nat, raised: bool, accepted: bool, uuid: string, env: Env)
    ensures Grown(n, OnGoalResponseEvent(n, f, raised, accepted, uuid, env))
  {
    hide RunCommands;
    if n.sendFuture == Some(f) && f < |n.created| && !raised {
      var (rt, commands) := OnGoalResponse(n.rt, n.created[f], accepted, uuid);
      var n1 := n.(sendFuture := None, rt := rt, handle := if accepted && IsCurrent(rt, n.created[f]) then Some(n.created[f]) else n.handle);
      RunCommandsGrow(n1, commands, env);
    }
  }

  /** What handing over work does not touch. */
  ghost predicate Pumped(n: Node, n': Node) {
    Grown(n, n') && SameMissionSession(n.rt, n'.rt) && n'.rt.robotPose == n.rt.robotPose
  }

  lemma PumpSendPumps(n: Node, env: Env)
    ensures Pumped(n, PumpSend(n, env))
  {
  }

  lemma CancelPumps(n: Node, due: bool, env: Env)
    ensures Pumped(n, ResolveUndelivered(PumpCancel(n, due, env)))
  {
  }

  lemma TickPumps(n: Node, env: Env)
    ensures Pumped(n, OnTick(n, env))
  {
    hide PumpSend, PumpCancel, ResolveUndelivered;
    PumpSendPumps(n, env);
    var n1 := if n.pending.Some? then PumpSend(n, env) else n;
    assert Pumped(n, n1);
    CancelPumps(n1, env.cancelDue, env);
    var n2 := if n1.rt.state == Canceling then ResolveUndelivered(PumpCancel(n1, env.cancelDue, env)) else n1;
    assert Pumped(n1, n2);
  }

  lemma {:induction false} RunEachGrow(n: Node, commands: seq<Command>, env: Env)
    ensures n.rt.ended <= RunEach(n, commands, env).rt.ended
    ensures n.rt.accepted == RunEach(n, commands, env).rt.accepted
    ensures n.sent <= RunEach(n, commands, env).sent
    decreases |commands|
  {
    if commands != [] {
      RunEachGrow(RunCommand(n, commands[0], env), commands[1..], env);
    }
  }

  lemma SessionHistory(rt: Runtime)
    requires SessionOk(rt)
    ensures Increasing(rt.accepted)
  {
  }

  /** Accepted revisions strictly increase, and every generation ends at most once, over the whole run. */
  lemma {:induction false} HistoriesOfARun(tol: Tolerance, events: seq<(Event, Env)>, k: nat)
    requires k <= |events|
    ensures Increasing(After(tol, events).rt.accepted) && Increasing(After(tol, events).rt.ended)
    ensures After(tol, events[..k]).rt.accepted <= After(tol, events).rt.accepted
    ensures After(tol, events[..k]).rt.ended <= After(tol, events).rt.ended
    ensures After(tol, events[..k]).sent <= After(tol, events).sent
  {
    hide Step, SessionOk;
    RunKeepsInv(tol, events);
    SessionHistory(After(tol, events).rt);
    if k == |events| {
      assert events[..k] == events;
    } else {
      var last := |events| - 1;
      HistoriesOfARun(tol, events[..last], k);
      assert events[..last][..k] == events[..k];
      HistoriesGrow(tol, After(tol, events[..last]), events[last].0, events[last].1);
    }
  }

  // ---- the session of a held mission

  lemma {:induction false} RunEachKeepsSession(n: Node, commands: seq<Command>, env: Env)
    ensures var n' := RunEach(n, commands, env);
            n'.rt.mission == n.rt.mission && n'.rt.epoch == n.rt.epoch && n'.rt.mapId == n.rt.mapId
    decreases |commands|
  {
    if commands != [] {
      RunEachKeepsSession(RunCommand(n, commands[0], env), commands[1..], env);
    }
  }

  ghost predicate SameMissionSession(rt: Runtime, rt': Runtime) {
    rt'.mission == rt.mission && rt'.epoch == rt.epoch && rt'.mapId == rt.mapId
  }

  lemma RunCommandsKeepSession(n: Node, commands: seq<Command>, env: Env)
    ensures SameMissionSession(n.rt, RunCommands(n, commands, env).rt)
  {
    hide RunEach;
    RunEachKeepsSession(n, commands, env);
  }

  lemma ApplyKeepsSession(n: Node, r: (Runtime, seq<Command>), env: Env)
    ensures SameMissionSession(r.0, Apply(n, r, env).rt)
  {
    hide RunCommands;
    RunCommandsKeepSession(n.(rt := r.0), r.1, env);
  }

  lemma GoalResponseKeepsSession(n: Node, f: nat, raised: bool, accepted: bool, uuid: string, env: Env)
    ensures SameMissionSession(n.rt, OnGoalResponseEvent(n, f, raised, accepted, uuid, env).rt)
  {
    hide RunCommands;
    if n.sendFuture == Some(f) && f < |n.created| && !raised {
      var (rt, commands) := OnGoalResponse(n.rt, n.created[f], accepted, uuid);
      var n1 := n.(sendFuture := None, rt := rt, handle := if accepted && IsCurrent(rt, n.created[f]) then Some(n.created[f]) else n.handle);
      RunCommandsKeepSession(n1, commands, env);
    }
  }

  lemma ResultKeepsSession(n: Node, f: nat, raised: bool, status: int, errorCode: int)
    ensures SameMissionSession(n.rt, OnResultEvent(n, f, raised, status, errorCode).rt)
  {
  }

  /** A mission held after an event was either just accepted or held before, in the same epoch and map. */
  lemma HeldByStep(tol: Tolerance, n: Node, e: Event, env: Env)
    requires SessionOk(n.rt) && Step(tol, n, e, env).rt.mission.Some?
    ensures var n' := Step(tol, n, e, env);
            SameMissionSession(n.rt, n'.rt) ||
            (e.SelectRequest? && n'.rt.mission == Some(e.m) && AcceptsSelect(n.rt, e.m) && n'.rt.epoch == n.rt.epoch && n'.rt.mapId == n.rt.mapId)
  {
    hide Apply, OnGoalResponseEvent, OnTick, OnResultEvent;
    match e
    case ModeState(epoch, mapId, ok) => ApplyKeepsSession(n, ObserveRuntime(n.rt, epoch, mapId, ok), env);
    case SelectRequest(m) => ApplyKeepsSession(n, Select(n.rt, m), env);
    case DispatchRequest => ApplyKeepsSession(n, Dispatch(tol, n.rt), env);
    case CancelRequest => ApplyKeepsSession(n, Cancel(n.rt), env);
    case GoalResponse(f, raised, accepted, uuid) => GoalResponseKeepsSession(n, f, raised, accepted, uuid, env);
    case Result(f, raised, status, errorCode) => ResultKeepsSession(n, f, raised, status, errorCode);
    case Tick => TickPumps(n, env);
    case _ =>
  }

  /** From position `k` on, mission `m` is held in AUTONOMY under one epoch and one map. */
  ghost predicate HeldFrom(tol: Tolerance, events: seq<(Event, Env)>, k: nat, m: Mission) {
    forall j :: k < j <= |events| ==>
      var rt := After(tol, events[..j]).rt;
      rt.mission == Some(m) && rt.autonomyOk == Some(true) && rt.epoch == m.epoch && rt.mapId == After(tol, events[..k]).rt.mapId
  }

  /**
   A held mission was accepted by a select in this very session: since then the runtime never left
   AUTONOMY and never changed epoch or map.
   */
  lemma {:induction false} HeldSinceItsSelect(tol: Tolerance, events: seq<(Event, Env)>) returns (k: nat)
    requires After(tol, events).rt.mission.Some?
    ensures k < |events| && events[k].0 == SelectRequest(After(tol, events).rt.mission.value)
    ensures var m := After(tol, events).rt.mission.value;
            var rt := After(tol, events[..k]).rt;
            AcceptsSelect(rt, m) && (rt.mapId == "" || rt.mapId == m.mapId) && HeldFrom(tol, events, k, m)
  {
    hide Step, FlightOk, HeldIsSent, EndedOk, SentOk;
    var last := |events| - 1;
    assert last >= 0;
    var before := After(tol, events[..last]);
    var m := After(tol, events).rt.mission.value;
    RunKeepsInv(tol, events[..last]);
    RunKeepsInv(tol, events);
    HeldByStep(tol, before, events[last].0, events[last].1);
    assert events[..|events|] == events;
    if SameMissionSession(before.rt, After(tol, events).rt) {
      k := HeldSinceItsSelect(tol, events[..last]);
      assert events[..last][..k] == events[..k];
      forall j | k < j <= |events|
        ensures var rt := After(tol, events[..j]).rt;
                rt.mission == Some(m) && rt.autonomyOk == Some(true) && rt.epoch == m.epoch && rt.mapId == After(tol, events[..k]).rt.mapId
      {
        if j <= last {
          assert events[..last][..j] == events[..j];
        }
        assert events[..last][..last] == events[..last];
      }
    } else {
      k := last;
    }
  }
}
