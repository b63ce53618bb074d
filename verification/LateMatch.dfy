/** Runs that match a profile too late: the plan is set and pruned without one, then a profile marks a stop already pruned. */
module LateMatch {
  import opened Numbers
  import opened PathHandler
  import opened CuspExecution

  const LINE: seq<Pose> := seq(6, i => Pose(i as real, 0.0, 0.0))
  const LINE_PATH: Path := Path(LINE, Stamp(0, 0), "map")
  const LINE_GEOMETRY: Geometry := Geometry((a: Pose, b: Pose) => Abs(a.x - b.x), (x: real) => x + 1.0, (p: Pose) => true)
  /** Pose 1 of the line is a stop. */
  const LINE_PROFILE: Profile := Profile(6, 0, Stamp(0, 0), seq(6, i => Point(i as real, 1.0, if i == 1 then CUSP_STOP else 0)))
  const LINE_ORACLE: Oracle := Oracle(
    (p: Profile, path: Path) => p.poseCount == |path.poses| == |p.points| && p.pathHash == 0 && p.stamp == path.stamp && p.points != [],
    (path: Path) => 0)

  lemma LinePoses(i: nat)
    requires i < 6
    ensures LINE[i] == Pose(i as real, 0.0, 0.0) && |LINE| == 6
  {
  }

  lemma LineDistance(a: Pose, b: Pose)
    ensures LINE_GEOMETRY.dist(a, b) == Abs(a.x - b.x)
  {
  }

  lemma {:induction false} LineArc(i: nat)
    requires i < 6
    ensures Arc(LINE_GEOMETRY, LINE, i) == i as real
  {
    if i > 0 {
      LineArc(i - 1);
      LinePoses(i - 1);
      LinePoses(i);
      LineDistance(LINE[i - 1], LINE[i]);
    }
  }

  lemma LineTerminals()
    ensures Terminals(LINE_PROFILE.points) == [1, 5]
  {
    var p := LINE_PROFILE.points;
    assert StopPoints(p, 0) == [] && StopPoints(p, 1) == [] && StopPoints(p, 2) == [1] && StopPoints(p, 3) == [1];
    assert StopPoints(p, 4) == [1] && StopPoints(p, 5) == [1] && StopPoints(p, 6) == [1];
  }

  lemma LineTargeted(o: Oracle, received: seq<Profile>)
    requires o == LINE_ORACLE && received == [LINE_PROFILE]
    ensures LastTargeting(o, received, LINE_PATH) == [LINE_PROFILE] && o.valid(LINE_PROFILE, LINE_PATH)
  {
    assert received[|received| - 1] == LINE_PROFILE;
  }

  lemma LineLocatable(h: Handler)
    requires h.g == LINE_GEOMETRY && h.plan == LINE && h.terminals == []
    ensures h.Locatable(true, 10.0, false)
  {
    LinePoses(0);
    LinePoses(1);
    LineDistance(LINE[0], LINE[1]);
    assert forall p :: LINE_GEOMETRY.toLocal(p);
  }

  /** The robot drives to pose `r` while no profile is matched. */
  method Drive(r: nat) returns (c: Controller)
    requires r < 5
    ensures fresh(c) && fresh(c.handler) && c.Valid() && c.Trusted() && c.Recorded() && c.Current()
    ensures c.o == LINE_ORACLE && !c.matched && c.received == [] && c.currentPath == LINE_PATH && c.handler.index == r
  {
    hide Arc, Terminals, StopPoints, LastTargeting, CacheOk, PassagesOk, Handler.IsCut, Handler.SegmentWindow, Handler.Locatable, Handler.HandsOver;
    c := OnLine();
    LineLocatable(c.handler);
    label driving:
    var outcome, transformed, advanced, cut := c.Cycle(Pose(r as real, 0.0, 0.0), true, 10.0, false, 100.0, 0);
    CutAtRobot@driving(c.handler, r, cut);
  }

  /** A controller that was just given the plan. */
  method OnLine() returns (c: Controller)
    ensures fresh(c) && fresh(c.handler) && c.Valid() && c.Trusted() && c.Recorded() && c.Current()
    ensures c.o == LINE_ORACLE && !c.matched && c.received == [] && c.currentPath == LINE_PATH && c.handler.index == 0
    ensures c.handler.g == LINE_GEOMETRY && c.handler.plan == LINE && !c.handler.HasActiveCusp()
  {
    hide Arc, Terminals, StopPoints, LastTargeting, CacheOk, PassagesOk;
    var h := new Handler(LINE_GEOMETRY);
    c := new Controller(LINE_ORACLE, h);
    LastTargetingNone(c.o, LINE_PATH);
    c.SetPlan(LINE_PATH);
  }

  /** Then the profile with its stop at pose 1 arrives. */
  method MatchLate(r: nat) returns (c: Controller)
    requires r < 5
    ensures fresh(c) && fresh(c.handler) && c.Valid() && c.Trusted() && c.Recorded() && c.Current() && c.currentPath == LINE_PATH
    ensures c.matched && c.active == LINE_PROFILE && c.handler.index == r && c.handler.terminals == [1, 5] && c.handler.segment == 0
  {
    hide Arc, Terminals, StopPoints, LastTargeting, PassagesOk, Handler.SegmentWindow;
    c := Drive(r);
    c.ReceiveProfile(LINE_PROFILE);
    LineTargeted(c.o, c.received);
    assert c.cache == c.received;
    LineTerminals();
  }

  twostate lemma CutAtRobot(h: Handler, new r: nat, new cut: Cut)
    requires h.g == LINE_GEOMETRY && old(h.plan) == LINE && !old(h.HasActiveCusp()) && r < 5
    requires old(h.IsCut(Pose(r as real, 0.0, 0.0), 10.0, 100.0, cut))
    ensures cut.begin == r
  {
    var plan := old(h.plan);
    assert old(h.IsWindow(10.0, cut.window));
    var u :| IsReach(h.g, plan, 10.0, u) && cut.window == u;
    if u < 6 {
      LineArc(u);
    }
    LinePoses(r);
    LinePoses(cut.closest);
    LineDistance(Pose(r as real, 0.0, 0.0), plan[r]);
    LineDistance(Pose(r as real, 0.0, 0.0), plan[cut.closest]);
    assert h.g.dist(Pose(r as real, 0.0, 0.0), plan[cut.closest]) <= h.g.dist(Pose(r as real, 0.0, 0.0), plan[r]);
  }

  /** One pose past the stop: from then on every control cycle fails, and the plan is never pruned again. */
  method OnePast(robot: Pose, known: bool, searchDistance: real, reject: bool, extent: real, now: int) returns (c: Controller, outcome: Outcome)
    ensures fresh(c) && fresh(c.handler) && c.Valid() && !c.handler.Aligned()
    ensures c.handler.HasActiveCusp() && c.handler.terminals[c.handler.segment] == 1 && c.handler.SegmentWindow() == 0
    ensures outcome != Ok && c.handler.index == 2
  {
    c := MatchLate(2);
    c.handler.WindowPastCusp();
    var transformed, advanced, cut;
    outcome, transformed, advanced, cut := c.Cycle(robot, known, searchDistance, reject, extent, now);
    c.handler.WindowPastCusp();
  }

  /** Farther past the stop: the window is the whole remaining plan, so the active stop does not hold pruning back. */
  method FartherPast(r: nat) returns (c: Controller)
    requires 3 <= r < 5
    ensures fresh(c) && fresh(c.handler) && c.Valid() && !c.handler.Aligned()
    ensures c.handler.HasActiveCusp() && c.handler.terminals[c.handler.segment] == 1 && c.handler.index == r
    ensures c.handler.SegmentWindow() == |c.handler.plan| == 6 - r
  {
    c := MatchLate(r);
    c.handler.WindowPastCusp();
  }
}
