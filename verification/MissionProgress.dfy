/**
 What the protocol does do, event by event, in every state that a run can reach: which requests hand a
 goal to Nav2, which selections are held, and in which state each response, result and cancel ends.
 */
module MissionProgress {
  import opened Options
  import opened Numbers
  import opened MissionSpec
  import opened MissionNodeSpec
  import opened MissionInvariants

  // ---- poses

  /** A pose of finite components is valid in its own frame unless its quaternion vanishes. */
  lemma FinitePose(frame: string, x: real, y: real, z: real, a: real, b: real, c: real, d: real, expected: string)
    ensures Pose(frame, [Finite(x), Finite(y), Finite(z)], [Finite(a), Finite(b), Finite(c), Finite(d)]).IsValid(expected) <==>
            frame == expected && a * a + b * b + c * c + d * d >= 0.000000000001
  {
    NormStep(a, [Finite(b), Finite(c), Finite(d)]);
    NormStep(b, [Finite(c), Finite(d)]);
    NormStep(c, [Finite(d)]);
    NormStep(d, []);
    hide SquaredNorm;
    assert [Finite(a)] + [Finite(b), Finite(c), Finite(d)] == [Finite(a), Finite(b), Finite(c), Finite(d)];
    assert [Finite(b)] + [Finite(c), Finite(d)] == [Finite(b), Finite(c), Finite(d)] && [Finite(c)] + [Finite(d)] == [Finite(c), Finite(d)];
    assert [Finite(d)] + [] == [Finite(d)];
  }

  lemma NormStep(a: real, rest: seq<Num>)
    ensures SquaredNorm([Finite(a)] + rest) == a * a + SquaredNorm(rest) && SquaredNorm([]) == 0.0
  {
    assert ([Finite(a)] + rest)[1..] == rest;
  }

  lemma UnusablePose(p: Pose, expected: string, i: nat)
    requires |p.position| != 3 || |p.orientation| != 4 || (i < 3 && !p.position[i].Finite?) || (i < 4 && !p.orientation[i].Finite?)
    ensures !p.IsValid(expected)
  {
  }

  /** Within 0.10 m and the yaw tolerance, in one frame. */
  ghost predicate Close(tol: Tolerance, a: Pose, b: Pose) {
    a.frame == b.frame && |a.position| == 3 && |b.position| == 3 &&
    match (a.position[0], a.position[1], b.position[0], b.position[1])
    case (Finite(x), Finite(y), Finite(u), Finite(v)) =>
      && (x - u) * (x - u) + (y - v) * (y - v) <= 0.01
      && tol.yawDelta(a.orientation, b.orientation) <= tol.yaw && -tol.yawDelta(a.orientation, b.orientation) <= tol.yaw
    case _ => false
  }

  /** The held mission failed last, at a pose close to where the robot is. */
  ghost predicate FailedHere(tol: Tolerance, rt: Runtime) {
    && rt.failed.Some? && rt.mission.Some? && rt.robotPose.Some?
    && rt.failed.value.missionId == rt.mission.value.id && Close(tol, rt.failed.value.pose, rt.robotPose.value)
  }

  lemma BlockedMeansFailedHere(tol: Tolerance, rt: Runtime)
    ensures Blocked(tol, rt) <==> FailedHere(tol, rt)
  {
    if rt.failed.Some? && rt.robotPose.Some? {
      var a, b := rt.failed.value.pose, rt.robotPose.value;
      assert tol.Same(a, b) <==> Close(tol, a, b);
    }
  }

  // ---- requests

  /** A dispatch starts a generation exactly when a mission is held, nothing is in flight and it did not fail here. */
  ghost predicate Startable(tol: Tolerance, rt: Runtime) {
    rt.mission.Some? && !rt.inflight && !FailedHere(tol, rt)
  }

  /** A startable dispatch hands over the held mission under the next generation, or keeps it pending, or fails. */
  lemma DispatchSends(tol: Tolerance, n: Node, env: Env)
    requires Inv(n) && Startable(tol, n.rt)
    ensures var n', g, m := Step(tol, n, DispatchRequest, env), n.rt.generation + 1, n.rt.mission.value;
            && n'.rt.generation == g && n'.rt.mission == Some(m)
            && (env.serverReady && !env.sendRaises ==>
                  n'.sent == n.sent + [(g, m)] && n'.rt.state == Dispatching && n'.sendFuture == Some(|n.created|))
            && (!env.serverReady ==> n'.sent == n.sent && n'.rt.state == Dispatching && n'.pending == Some((g, m)))
            && (env.serverReady && env.sendRaises ==> n'.sent == n.sent && n'.rt.state == Failed && n'.rt.ended == n.rt.ended + [g])
  {
    hide SentOk, EndedOk, HeldIsSent, FailedHere, Blocked;
    BlockedMeansFailedHere(tol, n.rt);
    var (rt, commands) := Dispatch(tol, n.rt);
    var c := SendGoal(rt.generation, n.rt.mission.value);
    var n1 := n.(rt := rt);
    OneCommand(n1, c, env);
    if !n.rt.residualCleared {
      assert commands == [CancelResidualGoals, c] && commands[1..] == [c];
      assert RunEach(n1, commands, env) == RunEach(RunCommand(n1, commands[0], env), commands[1..], env);
    } else {
      assert commands == [c];
    }
    assert RunEach(n1, commands, env) == RunCommand(n1, c, env);
  }

  /** Any other dispatch sends and starts nothing; a barred one reports the error of the failure. */
  lemma DispatchRefused(tol: Tolerance, n: Node, env: Env)
    requires Inv(n) && !Startable(tol, n.rt)
    ensures Step(tol, n, DispatchRequest, env) ==
            (if n.rt.mission.Some? && !n.rt.inflight then n.(rt := n.rt.(errorCode := n.rt.failed.value.errorCode)) else n)
  {
    hide SentOk, EndedOk, HeldIsSent, FailedHere, Blocked;
    BlockedMeansFailedHere(tol, n.rt);
    assert Dispatch(tol, n.rt).1 == [];
  }

  /** What the program asks of a selected mission. */
  ghost predicate Selectable(rt: Runtime, m: Mission) {
    && m.id != "" && m.poses != [] && (forall i :: 0 <= i < |m.poses| ==> m.poses[i].IsValid("map"))
    && (m.kind == 1 || (m.kind == 0 && |m.poses| == 1))
    && rt.autonomyOk == Some(true) && m.epoch == rt.epoch && (rt.mapId == "" || m.mapId == rt.mapId)
    && m.revision > 0 && forall i :: 0 <= i < |rt.accepted| ==> m.revision > rt.accepted[i]
  }

  /** Such a mission is held, and what was in flight is being canceled; any other selection changes nothing. */
  lemma SelectHolds(tol: Tolerance, n: Node, m: Mission, env: Env)
    requires Inv(n)
    ensures var n' := Step(tol, n, SelectRequest(m), env);
            && n'.sent == n.sent && (n'.rt.accepted == n.rt.accepted + if Selectable(n.rt, m) then [m.revision] else [])
            && (!Selectable(n.rt, m) ==> n' == n)
            && (Selectable(n.rt, m) ==>
                  && n'.rt.mission == Some(m) && n'.rt.failed == None && n'.rt.generation == n.rt.generation
                  && n'.rt.state == (if !n.rt.inflight then Idle else if n.pending.Some? then Canceled else Canceling)
                  && (n'.rt.inflight <==> n.rt.inflight && n.pending.None?))
  {
    hide SentOk, EndedOk, HeldIsSent, Pose.IsValid;
    var (rt, commands) := Select(n.rt, m);
    assert AcceptsSelect(n.rt, m) <==> Selectable(n.rt, m);
    if Selectable(n.rt, m) && n.rt.inflight {
      CancelOf(n, rt, env);
    }
  }

  /** Commands of a cancel: a pending dispatch ends at once, a delivered goal is asked to cancel. */
  lemma CancelOf(n: Node, rt: Runtime, env: Env)
    requires FlightOk(n) && n.rt.inflight && rt.inflight && rt.state == Canceling && rt.generation == n.rt.generation
    requires rt.goalUuid == n.rt.goalUuid
    ensures var n' := RunCommands(n.(rt := rt), if rt.goalUuid != "" then [CancelActiveGoal(rt.generation)] else [], env);
            && n'.sent == n.sent && n'.pending.None? && n'.handle == n.handle && n'.sendFuture == n.sendFuture
            && (n.pending.Some? ==> n'.rt == OnResult(rt, rt.generation, STATUS_CANCELED, 0))
            && (n.pending.None? ==> n'.rt == rt)
            && (n.handle.Some? && n.cancelFuture.None? && rt.goalUuid != "" && !env.cancelRaises ==> n'.cancelFuture == Some(|n.created|))
            && (n.cancelFuture.Some? ==> n'.cancelFuture == n.cancelFuture)
  {
    OneCommand(n.(rt := rt), CancelActiveGoal(rt.generation), env);
  }

  /** A cancel ends a pending dispatch, asks a delivered goal to cancel, and keeps the mission. */
  lemma CancelCancels(tol: Tolerance, n: Node, env: Env)
    requires Inv(n)
    ensures var n' := Step(tol, n, CancelRequest, env);
            && n'.sent == n.sent && n'.rt.mission == n.rt.mission
            && (!n.rt.inflight ==> n' == n)
            && (n.pending.Some? ==> n'.rt.state == Canceled && !n'.rt.inflight && n'.rt.ended == n.rt.ended + [n.rt.generation])
            && (n.rt.inflight && n.pending.None? ==> n'.rt.state == Canceling && n'.rt.inflight && n'.rt.ended == n.rt.ended)
            && (n.handle.Some? && n.rt.goalUuid != "" && n.cancelFuture.None? && !env.cancelRaises ==> n'.cancelFuture == Some(|n.created|))
  {
    hide SentOk, EndedOk, HeldIsSent, SessionOk;
    if n.rt.inflight {
      CancelOf(n, Cancel(n.rt).0, env);
    }
  }

  lemma NoCommandsRun(n: Node, env: Env)
    requires FlightOk(n) || n.rt.state != Canceling
    ensures RunCommands(n, [], env).rt == n.rt && RunCommands(n, [], env).sent == n.sent
  {
  }

  lemma ReportKeepsOrCancels(rt: Runtime, epoch: int, mapId: string, ok: bool)
    requires SessionOk(rt) && (rt.inflight <==> rt.state.InFlight())
    ensures var (rt', commands) := ObserveRuntime(rt, epoch, mapId, ok);
            && rt'.autonomyOk == Some(ok) && rt'.accepted == rt.accepted && rt'.generation == rt.generation
            && rt'.goalUuid == rt.goalUuid && rt'.inflight == rt.inflight && rt'.ended == rt.ended
            && (ok ==> rt'.epoch == epoch && rt'.mapId == mapId)
            && (var same := ok && (rt.autonomyKey == None || rt.autonomyKey == Some((epoch, mapId)));
                && (rt'.mission == if same then rt.mission else None)
                && (if same || !rt.inflight || (!ok && rt.autonomyOk != Some(true)) then rt'.state == rt.state && commands == [] && rt'.cancelRequested == rt.cancelRequested
                    else rt'.state == Canceling && commands == if rt.goalUuid != "" then [CancelActiveGoal(rt.generation)] else []))
  {
  }

  /** A mode report is taken over; the mission is kept exactly in the same AUTONOMY session, else in-flight work is canceled. */
  lemma ModeReport(tol: Tolerance, n: Node, epoch: int, mapId: string, ok: bool, env: Env)
    requires Inv(n)
    ensures var n' := Step(tol, n, ModeState(epoch, mapId, ok), env);
            && n'.sent == n.sent && n'.rt.autonomyOk == Some(ok) && n'.rt.accepted == n.rt.accepted
            && (ok ==> n'.rt.epoch == epoch && n'.rt.mapId == mapId)
            && (n'.rt.generation == n.rt.generation && (!n.rt.inflight ==> !n'.rt.inflight))
            && (var same := ok && (n.rt.autonomyKey == None || n.rt.autonomyKey == Some((epoch, mapId)));
                && (n'.rt.mission == if same then n.rt.mission else None)
                && (same ==> n'.rt.state == n.rt.state && n'.rt.inflight == n.rt.inflight)
                && (!same && n.rt.inflight && (ok || n.rt.autonomyOk == Some(true)) ==>
                      n'.rt.state == if n.pending.Some? then Canceled else Canceling))
  {
    hide SentOk, EndedOk, HeldIsSent;
    var (rt, commands) := ObserveRuntime(n.rt, epoch, mapId, ok);
    ReportKeepsOrCancels(n.rt, epoch, mapId, ok);
    hide ObserveRuntime, SessionOk;
    if rt.state == n.rt.state && commands == [] {
      NoCommandsRun(n.(rt := rt), env);
    } else {
      CancelOf(n, rt, env);
    }
  }

  // ---- callbacks and the timer

  /** The live send future: a rejection or a raise fails the generation, an acceptance makes it active or canceled. */
  lemma ResponseOutcome(tol: Tolerance, n: Node, future: nat, raised: bool, accepted: bool, uuid: string, env: Env)
    requires Inv(n) && n.sendFuture == Some(future)
    ensures var n', g := Step(tol, n, GoalResponse(future, raised, accepted, uuid), env), n.rt.generation;
            && n'.sent == n.sent && n'.sendFuture.None? && n'.rt.mission == n.rt.mission
            && (raised || !accepted ==>
                  n'.rt.state == Failed && !n'.rt.inflight && n'.rt.ended == n.rt.ended + [g] && n'.handle.None?)
            && (!raised && accepted ==>
                  && n'.rt.inflight && n'.handle == Some(g) && n'.rt.goalUuid == uuid && n'.rt.ended == n.rt.ended
                  && n'.rt.state == (if n.rt.state == Canceling then Canceling else Active)
                  && (n'.cancelFuture.Some? <==> n.rt.state == Canceling && !env.cancelRaises)
                  && (n'.resultFuture.Some? <==> !env.resultRaises))
  {
    hide SentOk, EndedOk, HeldIsSent, SessionOk;
    var (rt, commands) := OnGoalResponse(n.rt, n.rt.generation, accepted, uuid);
    if !raised && accepted && n.rt.cancelRequested {
      OneCommand(n.(sendFuture := None, rt := rt, handle := Some(n.rt.generation)), commands[0], env);
    }
  }

  /** The live result: status 4 ends in SUCCEEDED, 5 in CANCELED, any other in FAILED, remembered with the robot's pose. */
  lemma ResultOutcome(tol: Tolerance, n: Node, future: nat, status: int, errorCode: int, env: Env)
    requires Inv(n) && n.resultFuture == Some(future)
    ensures var n', g := Step(tol, n, Result(future, false, status, errorCode), env), n.rt.generation;
            && n'.rt.state == (if status == 4 then Succeeded else if status == 5 then Canceled else Failed)
            && n'.rt.status == status && n'.rt.errorCode == errorCode && !n'.rt.inflight && n'.rt.ended == n.rt.ended + [g]
            && n'.rt.failed == (if status == 4 || status == 5 then None
                                else if n.rt.robotPose.None? then n.rt.failed
                                else Some(Failure(n.rt.inflightId, n.rt.robotPose.value, errorCode)))
            && n'.rt.mission == n.rt.mission && n'.sent == n.sent && n'.handle.None?
  {
    hide SentOk, EndedOk, HeldIsSent, SessionOk;
  }

  /** The timer hands over a pending dispatch as soon as the server is ready, and asks again for a cancel that is due. */
  lemma TickProceeds(tol: Tolerance, n: Node, env: Env)
    requires Inv(n)
    ensures var n' := Step(tol, n, Tick, env);
            && (n.pending.None? ==> n'.sent == n.sent)
            && (n.pending.Some? ==>
                  && (env.serverReady && !env.sendRaises ==> n'.sent == n.sent + [n.pending.value] && n'.rt == n.rt && n'.sendFuture.Some?)
                  && (env.serverReady && env.sendRaises ==> n'.sent == n.sent && n'.rt.state == Failed)
                  && (!env.serverReady ==> n' == n))
            && (n.rt.state == Canceling && n.handle.Some? && n.cancelFuture.None? ==>
                  (n'.cancelFuture.Some? <==> n.cancelAttempts < 5 && env.cancelDue && !env.cancelRaises))
            && (n.handle.Some? && n.resultFuture.None? ==> (n'.resultFuture.Some? <==> env.resultDue && !env.resultRaises))
  {
    hide SentOk, EndedOk, HeldIsSent, SessionOk;
  }

  /** Feedback of the live generation makes a dispatched goal active and executing; any other changes nothing. */
  lemma FeedbackActivates(tol: Tolerance, n: Node, g: nat, env: Env)
    requires Inv(n)
    ensures Step(tol, n, Feedback(g), env) ==
            if g == n.rt.generation && (n.rt.state == Dispatching || n.rt.state == Active)
            then n.(rt := n.rt.(state := Active, status := 2)) else n
  {
  }

  /** A valid odometry pose is where the robot is from then on; an invalid one is not. */
  lemma PoseIsObserved(tol: Tolerance, n: Node, pose: Pose, env: Env)
    ensures Step(tol, n, Odometry(pose), env) == if pose.IsValid("odom") then n.(rt := n.rt.(robotPose := Some(pose))) else n
  {
  }

  // ---- a run that gets somewhere

  lemma OneMore(tol: Tolerance, events: seq<(Event, Env)>, e: Event, env: Env)
    ensures After(tol, events + [(e, env)]) == Step(tol, After(tol, events), e, env)
    ensures Inv(After(tol, events)) && Inv(After(tol, events + [(e, env)]))
  {
    hide Step, Inv;
    assert (events + [(e, env)])[..|events|] == events;
    RunKeepsInv(tol, events);
    RunKeepsInv(tol, events + [(e, env)]);
  }

  /**
   From any state of any run in which nothing is in flight: once AUTONOMY is reported, a well-formed mission
   of that session with a new revision that is selected and then dispatched is sent under the next generation.
   */
  lemma SelectedMissionIsSent(tol: Tolerance, events: seq<(Event, Env)>, m: Mission, mode: Env, select: Env, dispatch: Env)
    requires var n := After(tol, events);
             && !n.rt.inflight && m.id != "" && m.poses != [] && (forall i :: 0 <= i < |m.poses| ==> m.poses[i].IsValid("map"))
             && (m.kind == 1 || (m.kind == 0 && |m.poses| == 1))
             && m.revision > 0 && forall i :: 0 <= i < |n.rt.accepted| ==> m.revision > n.rt.accepted[i]
    requires dispatch.serverReady && !dispatch.sendRaises
    ensures var n := After(tol, events);
            var n' := After(tol, events + [(ModeState(m.epoch, m.mapId, true), mode)] + [(SelectRequest(m), select)] + [(DispatchRequest, dispatch)]);
            n'.sent == n.sent + [(n.rt.generation + 1, m)] && n'.rt.state == Dispatching && n'.rt.generation == n.rt.generation + 1
  {
    hide Step, Inv, Pose.IsValid;
    var e1, e2, e3 := ModeState(m.epoch, m.mapId, true), SelectRequest(m), DispatchRequest;
    OneMore(tol, events, e1, mode);
    OneMore(tol, events + [(e1, mode)], e2, select);
    OneMore(tol, events + [(e1, mode)] + [(e2, select)], e3, dispatch);
    ModeReport(tol, After(tol, events), m.epoch, m.mapId, true, mode);
    SelectHolds(tol, After(tol, events + [(e1, mode)]), m, select);
    DispatchSends(tol, After(tol, events + [(e1, mode)] + [(e2, select)]), dispatch);
  }
}
