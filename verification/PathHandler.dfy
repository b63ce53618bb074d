/**
 Plan pruning in the pure-pursuit controller: the plan vector is erased from the front while an
 index and an arc length keep track of how much of the original plan is gone, and an active cusp
 bounds how far pruning may go.
 */
module PathHandler {
  import opened Numbers

  datatype Pose = Pose(x: real, y: real, yaw: real)

  /** Distances, the next larger double and the transform into the robot frame are foreign; None is a transform error. */
  datatype Geometry = Geometry(dist: (Pose, Pose) -> real, nextAfter: real -> real, toLocal: Pose -> bool) {
    ghost predicate Sound() {
      forall x :: nextAfter(x) > x
    }
  }

  /** Length of the plan from its first pose to pose `i`. */
  function Arc(g: Geometry, plan: seq<Pose>, i: nat): real
    requires i < |plan| || i == 0
  {
    if i == 0 then 0.0 else Arc(g, plan, i - 1) + g.dist(plan[i - 1], plan[i])
  }

  lemma {:induction false} ArcOfSuffix(g: Geometry, plan: seq<Pose>, k: nat, i: nat)
    requires k + i < |plan|
    ensures Arc(g, plan, k + i) == Arc(g, plan, k) + Arc(g, plan[k..], i)
  {
    if i > 0 {
      ArcOfSuffix(g, plan, k, i - 1);
      assert plan[k..][i - 1] == plan[k + i - 1] && plan[k..][i] == plan[k + i];
    }
  }

  /** `u` is the first pose whose arc length exceeds the limit, or the end. */
  ghost predicate IsReach(g: Geometry, plan: seq<Pose>, limit: real, u: nat) {
    && 1 <= u <= |plan|
    && (u < |plan| ==> Arc(g, plan, u) > limit)
    && forall i :: 1 <= i < u ==> Arc(g, plan, i) <= limit
  }

  /** `k` is the closest of the first `hi` poses, the last of them on ties; 0 when there is none. */
  ghost predicate IsClosest(g: Geometry, robot: Pose, plan: seq<Pose>, hi: nat, k: nat)
    requires hi <= |plan|
  {
    && (if hi == 0 then k == 0 else k < hi)
    && (forall j :: 0 <= j < hi ==> g.dist(robot, plan[k]) <= g.dist(robot, plan[j]))
    && (forall j :: k < j < hi ==> g.dist(robot, plan[k]) < g.dist(robot, plan[j]))
  }

  /** The first pose beyond the integrated distance, or the end. */
  method FirstAfterIntegratedDistance(g: Geometry, plan: seq<Pose>, limit: real) returns (u: nat)
    requires |plan| > 0
    ensures IsReach(g, plan, limit, u)
  {
    var total := 0.0;
    u := 1;
    while u < |plan|
      invariant 1 <= u <= |plan| && total == Arc(g, plan, u - 1)
      invariant forall i :: 1 <= i < u ==> Arc(g, plan, i) <= limit
    {
      total := total + g.dist(plan[u - 1], plan[u]);
      if total > limit {
        return;
      }
      u := u + 1;
    }
  }

  /** The closest pose among the first `hi`, the later one on ties; 0 when there is none to choose. */
  method ClosestPose(g: Geometry, robot: Pose, plan: seq<Pose>, hi: nat) returns (k: nat)
    requires hi <= |plan|
    ensures IsClosest(g, robot, plan, hi, k)
  {
    k := 0;
    var i := 1;
    while i < hi
      invariant k < i && (if hi > 0 then k < hi && i <= hi else k == 0)
      invariant forall j :: 0 <= j < i && j < hi ==> g.dist(robot, plan[k]) <= g.dist(robot, plan[j])
      invariant forall j :: k < j < i && j < hi ==> g.dist(robot, plan[k]) < g.dist(robot, plan[j])
    {
      if g.dist(robot, plan[i]) <= g.dist(robot, plan[k]) {
        k := i;
      }
      i := i + 1;
    }
  }

  /** A longest stretch of what remains of a plan, counted on the whole plan. */
  lemma StretchOfSuffix(
    g: Geometry, robot: Pose, extent: real, original: seq<Pose>, from: nat, begin: nat, taken: nat, eligible: nat)
    requires from <= |original| && begin + taken <= eligible <= |original| - from
    requires forall j :: begin <= j < begin + taken ==> g.dist(original[from..][j], robot) <= extent
    requires begin + taken < eligible ==> g.dist(original[from..][begin + taken], robot) > extent
    ensures forall j :: from + begin <= j < from + begin + taken ==> g.dist(original[j], robot) <= extent
    ensures begin + taken < eligible ==> g.dist(original[from + begin + taken], robot) > extent
    ensures original[from..][begin..begin + taken] == original[from + begin..from + begin + taken]
  {
    var before := original[from..];
    forall j | from + begin <= j < from + begin + taken
      ensures g.dist(original[j], robot) <= extent
    {
      assert before[j - from] == original[j];
    }
  }

  datatype Outcome = Ok | ZeroLength | UnitLength | RobotTransformError | PlanTransformError | NothingLeft | BeforeBegin

  /** The robot was located on the plan, and the plan pruned. */
  predicate Located(o: Outcome) {
    o == Ok || o == NothingLeft
  }

  /** How one call cuts the plan: poses considered, the closest of them, where the plan now begins, poses handed over. */
  datatype Cut = Cut(window: nat, closest: nat, begin: nat, taken: nat)

  class Handler {
    const g: Geometry
    var plan: seq<Pose>
    var offset: real
    var index: nat
    var terminals: seq<nat>
    var segment: nat
    /** The plan as it was set, and the sum of the bumps past cusps. */
    ghost var original: seq<Pose>
    ghost var bumps: real

    /** Pruning bookkeeping: the plan is a suffix, index and offset say which. */
    ghost predicate Valid()
      reads this
    {
      && g.Sound()
      && (original != [] ==> index < |original|)
      && (original == [] ==> index == 0)
      && plan == original[index..]
      && offset == Arc(g, original, index) + bumps && bumps >= 0.0
      && (terminals != [] ==> segment < |terminals|)
    }

    predicate HasActiveCusp()
      reads this
    {
      segment + 1 < |terminals|
    }

    /** The pruned index has not passed the active cusp. */
    ghost predicate Aligned()
      reads this
    {
      && (forall i, j :: 0 <= i < j < |terminals| ==> terminals[i] <= terminals[j])
      && (HasActiveCusp() ==> index <= terminals[segment])
    }

    constructor (g: Geometry)
      requires g.Sound()
      ensures Valid() && this.g == g && plan == [] && terminals == [] && segment == 0
    {
      this.g := g;
      plan, offset, index, terminals, segment := [], 0.0, 0, [], 0;
      original, bumps := [], 0.0;
    }

    method SetPlan(path: seq<Pose>)
      requires g.Sound()
      modifies this
      ensures Valid() && Aligned() && plan == original == path && index == 0 && offset == 0.0 && segment == 0 && terminals == []
    {
      plan, offset, index, segment, terminals := path, 0.0, 0, 0, [];
      original, bumps := path, 0.0;
    }

    method SetSegmentTerminalIndices(indices: seq<nat>)
      requires Valid()
      modifies this`terminals, this`segment
      ensures Valid() && terminals == indices && segment == 0
    {
      terminals, segment := indices, 0;
    }

    /** The index has reached the active stop, or passed it. */
    ghost predicate AtStop()
      reads this
    {
      segment + 1 < |terminals| && terminals[segment] <= index
    }

    predicate AtSegmentTerminal()
      reads this
    {
      segment < |terminals| && index >= terminals[segment]
    }

    /** Moves past a reached cusp; the last segment is never left. */
    method AdvanceSegment() returns (advanced: bool)
      requires Valid()
      modifies this`offset, this`segment, this`bumps
      ensures Valid() && (old(Aligned()) ==> Aligned())
      ensures advanced <==> old(AtStop())
      ensures segment == old(segment) + (if advanced then 1 else 0)
      ensures !advanced ==> offset == old(offset) && bumps == old(bumps)
      ensures advanced ==> offset == g.nextAfter(old(offset))
    {
      if !AtSegmentTerminal() || segment + 1 >= |terminals| {
        return false;
      }
      bumps := bumps + (g.nextAfter(offset) - offset);
      offset := g.nextAfter(offset);
      segment := segment + 1;
      return true;
    }

    /** How many poses up to and including the active terminal remain, as the unsigned code computes it. */
    function SegmentWindow(): (w: nat)
      requires HasActiveCusp()
      reads this
      ensures w <= |plan|
    {
      MinNat(|plan|, Wrap64(Wrap64(terminals[segment] - index) + 1))
    }

    method Prune(k: nat)
      requires Valid() && (k < |plan| || k == 0)
      modifies this`plan, this`offset, this`index
      ensures Valid() && index == old(index) + k && plan == old(plan)[k..]
      ensures offset == old(offset) + Arc(g, old(plan), k)
    {
      var i := 0;
      while i < k
        invariant i <= k && plan == old(plan) && index == old(index) && offset == old(offset) + Arc(g, plan, i)
      {
        offset := offset + g.dist(plan[i], plan[i + 1]);
        i := i + 1;
      }
      if k > 0 {
        ArcOfSuffix(g, original, index, k);
      }
      index := index + k;
      plan := plan[k..];
    }

    /** The poses among which the robot is located: within reach and, before a cusp, within the segment. */
    ghost predicate IsWindow(searchDistance: real, window: nat)
      reads this
    {
      && window <= |plan|
      && exists u :: IsReach(g, plan, searchDistance, u) && window == if HasActiveCusp() then MinNat(u, SegmentWindow()) else u
    }

    /** One pose before the end of the window when no cusp is active, so that two poses remain. */
    function Begin(window: nat, closest: nat): int
      reads this
    {
      if !HasActiveCusp() && |plan| > 1 && closest == window - 1 then window - 2 else closest
    }

    /** Where pruning starts: the closest pose in the window, stepping back once at the window's end when no cusp is active. */
    method FindBegin(robot: Pose, searchDistance: real) returns (begin: int, window: nat, closest: nat)
      requires Valid() && plan != []
      ensures begin < |plan| && IsWindow(searchDistance, window) && IsClosest(g, robot, plan, window, closest)
      ensures begin == Begin(window, closest)
      ensures begin >= 0 <==> HasActiveCusp() || |plan| == 1 || g.dist(plan[0], plan[1]) <= searchDistance
      ensures HasActiveCusp() ==> window <= SegmentWindow() && (begin < window || (begin == 0 && SegmentWindow() == 0))
      ensures !HasActiveCusp() && begin >= 0 && |plan| > 1 ==> begin <= |plan| - 2
    {
      window := FirstAfterIntegratedDistance(g, plan, searchDistance);
      if HasActiveCusp() {
        window := MinNat(window, SegmentWindow());
      }
      closest := ClosestPose(g, robot, plan, window);
      begin := closest;
      assert Arc(g, plan, 0) == 0.0;
      assert |plan| > 1 ==> Arc(g, plan, 1) == g.dist(plan[0], plan[1]);
      if !HasActiveCusp() && |plan| > 1 && begin == window - 1 {
        begin := window - 2;
      }
    }

    /** How many poses may be handed over: those of the active segment, or all. */
    function Eligible(): (n: nat)
      reads this
      ensures n <= |plan|
    {
      if HasActiveCusp() then SegmentWindow() else |plan|
    }

    /** The `taken` poses from `begin` on are the longest eligible stretch within the costmap. */
    ghost predicate IsStretch(robot: Pose, extent: real, begin: nat, taken: nat)
      reads this
    {
      && begin + taken <= |plan| && (begin <= Eligible() ==> begin + taken <= Eligible())
      && (forall j :: begin <= j < begin + taken ==> g.dist(plan[j], robot) <= extent)
      && (begin + taken < Eligible() ==> g.dist(plan[begin + taken], robot) > extent)
    }

    /** The end of the stretch handed to the controller. */
    method FindEnd(robot: Pose, begin: nat, eligible: nat, extent: real) returns (end: nat)
      requires begin < |plan| && eligible <= |plan|
      ensures begin <= end <= |plan| && (begin <= eligible ==> end <= eligible)
      ensures forall j :: begin <= j < end ==> g.dist(plan[j], robot) <= extent
      ensures end < eligible ==> g.dist(plan[end], robot) > extent
    {
      end := begin;
      while end < eligible && g.dist(plan[end], robot) <= extent
        invariant begin <= end <= |plan| && (begin <= eligible ==> end <= eligible)
        invariant forall j :: begin <= j < end ==> g.dist(plan[j], robot) <= extent
      {
        end := end + 1;
      }
    }

    /** The stretch from `begin` on, up to the cusp and within the costmap; a single pose before a cusp is doubled. */
    method TakeStretch(robot: Pose, begin: nat, extent: real) returns (ok: bool, transformed: seq<Pose>, taken: nat)
      requires begin < |plan|
      ensures IsStretch(robot, extent, begin, taken)
      ensures ok <==> forall j :: begin <= j < begin + taken ==> g.toLocal(plan[j])
      ensures ok ==> transformed == if taken == 1 && HasActiveCusp() then [plan[begin], plan[begin]] else plan[begin..begin + taken]
    {
      var end := FindEnd(robot, begin, Eligible(), extent);
      taken := end - begin;
      if exists j :: begin <= j < end && !g.toLocal(plan[j]) {
        return false, [], taken;
      }
      ok, transformed := true, plan[begin..end];
      if |transformed| == 1 && HasActiveCusp() {
        transformed := transformed + [transformed[0]];
      }
    }

    /** Each error that comes before pruning, exactly when it is the first that applies. */
    ghost predicate IsError(outcome: Outcome, robotKnown: bool, searchDistance: real, rejectUnitPath: bool)
      reads this
    {
      && (outcome == ZeroLength <==> plan == [])
      && (outcome == UnitLength <==> rejectUnitPath && |plan| == 1)
      && (outcome == RobotTransformError <==> plan != [] && !(rejectUnitPath && |plan| == 1) && !robotKnown)
      && (outcome == BeforeBegin <==>
            plan != [] && !(rejectUnitPath && |plan| == 1) && robotKnown &&
            !HasActiveCusp() && |plan| > 1 && g.dist(plan[0], plan[1]) > searchDistance)
    }

    /** What one call would do: the first error that applies, or where to cut and what to hand over. */
    method Locate(robot: Pose, robotKnown: bool, searchDistance: real, rejectUnitPath: bool, extent: real)
      returns (outcome: Outcome, transformed: seq<Pose>, cut: Cut)
      requires Valid()
      ensures IsError(outcome, robotKnown, searchDistance, rejectUnitPath)
      ensures Located(outcome) || outcome == PlanTransformError ==>
                && IsCut(robot, searchDistance, extent, cut)
                && (outcome == PlanTransformError <==> exists j :: cut.begin <= j < cut.begin + cut.taken && !g.toLocal(plan[j]))
      ensures Located(outcome) ==>
                && (outcome == Ok <==> cut.taken > 0)
                && transformed == if cut.taken == 1 && HasActiveCusp() then [plan[cut.begin], plan[cut.begin]] else plan[cut.begin..cut.begin + cut.taken]
    {
      hide Arc, IsReach, IsWindow, IsClosest, IsStretch;
      transformed := [];
      cut := Cut(0, 0, 0, 0);
      if plan == [] {
        return ZeroLength, [], cut;
      }
      if rejectUnitPath && |plan| == 1 {
        return UnitLength, [], cut;
      }
      if !robotKnown {
        return RobotTransformError, [], cut;
      }
      var begin, window, closest := FindBegin(robot, searchDistance);
      if begin < 0 {
        return BeforeBegin, [], cut;
      }
      var ok, taken;
      ok, transformed, taken := TakeStretch(robot, begin, extent);
      cut := Cut(window, closest, begin, taken);
      if !ok {
        return PlanTransformError, [], cut;
      }
      return if transformed == [] then NothingLeft else Ok, transformed, cut;
    }

    /** No error applies: there is a plan, the robot can be located on it and every pose can be transformed. */
    ghost predicate Locatable(robotKnown: bool, searchDistance: real, rejectUnitPath: bool)
      reads this
    {
      && plan != [] && !(rejectUnitPath && |plan| == 1) && robotKnown
      && (HasActiveCusp() || |plan| == 1 || g.dist(plan[0], plan[1]) <= searchDistance)
      && forall j :: 0 <= j < |plan| ==> g.toLocal(plan[j])
    }

    /** The cut is at the closest pose of the window, and the stretch from there is the longest. */
    ghost predicate IsCut(robot: Pose, searchDistance: real, extent: real, cut: Cut)
      reads this
    {
      && IsWindow(searchDistance, cut.window) && IsClosest(g, robot, plan, cut.window, cut.closest)
      && cut.begin == Begin(cut.window, cut.closest) && (cut.begin < |plan| || cut.begin == 0)
      && (!HasActiveCusp() && |plan| > 1 ==> cut.begin <= |plan| - 2)
      && (HasActiveCusp() ==> cut.begin < SegmentWindow() || (cut.begin == 0 && SegmentWindow() == 0))
      && IsStretch(robot, extent, cut.begin, cut.taken)
    }

    /**
     The `taken` poses handed over, counted on the plan as it was set: from pose `at` on, none beyond the active
     stop or the extent, and fewer than up to that stop, or to the end of the plan, only at a pose beyond the extent.
     */
    ghost predicate HandsOver(at: nat, robot: Pose, extent: real, transformed: seq<Pose>, taken: nat)
      reads this`original, this`terminals, this`segment
    {
      && at + taken <= |original|
      && (segment + 1 < |terminals| ==> at + taken <= terminals[segment] + 1)
      && (forall j :: at <= j < at + taken ==> g.dist(original[j], robot) <= extent)
      && (at + taken < |original| && (segment + 1 < |terminals| ==> at + taken <= terminals[segment] < UINT64 - 1) ==>
            g.dist(original[at + taken], robot) > extent)
      && (transformed == original[at..at + taken] ||
          (taken == 1 && segment + 1 < |terminals| && transformed == [original[at], original[at]]))
    }

    lemma CutIsHandedOver(robot: Pose, searchDistance: real, extent: real, transformed: seq<Pose>, cut: Cut)
      requires Valid() && Aligned() && plan != [] && IsCut(robot, searchDistance, extent, cut)
      requires transformed == if cut.taken == 1 && HasActiveCusp() then [plan[cut.begin], plan[cut.begin]] else plan[cut.begin..cut.begin + cut.taken]
      ensures HandsOver(index + cut.begin, robot, extent, transformed, cut.taken)
    {
      hide IsReach, IsWindow, IsClosest, Arc, IsCut, HandsOver, IsStretch, SegmentWindow, Aligned;
      CutInPlan(robot, searchDistance, extent, cut);
      StretchOnOriginal(robot, extent, cut.begin, cut.taken);
      EligibleOnOriginal();
      StretchIsHandedOver(robot, extent, index + cut.begin, cut.taken, index + Eligible());
    }

    lemma StretchOnOriginal(robot: Pose, extent: real, begin: nat, taken: nat)
      requires Valid() && plan != [] && begin <= Eligible() && begin + taken <= |plan| && IsStretch(robot, extent, begin, taken)
      ensures |plan| == |original| - index && begin + taken <= Eligible()
      ensures forall j :: index + begin <= j < index + begin + taken ==> g.dist(original[j], robot) <= extent
      ensures begin + taken < Eligible() ==> g.dist(original[index + begin + taken], robot) > extent
      ensures plan[begin..begin + taken] == original[index + begin..index + begin + taken]
      ensures taken > 0 ==> plan[begin] == original[index + begin]
    {
      hide Arc, SegmentWindow;
      StretchOfSuffix(g, robot, extent, original, index, begin, taken, Eligible());
    }

    lemma EligibleOnOriginal()
      requires Valid() && Aligned() && plan != []
      ensures !HasActiveCusp() ==> index + Eligible() == |original|
      ensures HasActiveCusp() ==> index + Eligible() <= terminals[segment] + 1
      ensures HasActiveCusp() && terminals[segment] < UINT64 - 1 ==> index + Eligible() == MinNat(|original|, terminals[segment] + 1)
    {
      hide Arc, Wrap64;
      EligibleEnd(index);
    }

    /** `end` is where the poses up to the active stop, or the plan, end. */
    lemma StretchIsHandedOver(robot: Pose, extent: real, at: nat, taken: nat, end: nat)
      requires at + taken <= end <= |original|
      requires HasActiveCusp() ==> end <= terminals[segment] + 1
      requires end == if !HasActiveCusp() then |original| else if terminals[segment] < UINT64 - 1 then MinNat(|original|, terminals[segment] + 1) else end
      requires forall j :: at <= j < at + taken ==> g.dist(original[j], robot) <= extent
      requires at + taken < end ==> g.dist(original[at + taken], robot) > extent
      ensures HandsOver(at, robot, extent, original[at..at + taken], taken)
      ensures taken == 1 && HasActiveCusp() ==> HandsOver(at, robot, extent, [original[at], original[at]], taken)
    {
    }

    lemma EligibleEnd(from: nat)
      requires from <= |original| && (HasActiveCusp() ==> from <= terminals[segment])
      ensures HasActiveCusp() ==>
                var w := MinNat(|original| - from, Wrap64(Wrap64(terminals[segment] - from) + 1));
                from + w <= terminals[segment] + 1 &&
                (terminals[segment] < UINT64 - 1 ==> from + w == MinNat(|original|, terminals[segment] + 1))
    {
      if HasActiveCusp() {
        WrapUp(terminals[segment] - from);
      }
    }

    lemma WrapUp(d: nat)
      ensures Wrap64(Wrap64(d) + 1) <= d + 1 && (d < UINT64 - 1 ==> Wrap64(Wrap64(d) + 1) == d + 1)
    {
    }

    /**
     Prunes the plan behind the robot. Errors raised before pruning leave the handler as it was;
     the index moves forward within the window of the active cusp, never past its terminal.
     */
    method TransformGlobalPlan(robot: Pose, robotKnown: bool, searchDistance: real, rejectUnitPath: bool, extent: real)
      returns (outcome: Outcome, transformed: seq<Pose>, cut: Cut)
      requires Valid()
      modifies this`plan, this`offset, this`index
      ensures old(IsError(outcome, robotKnown, searchDistance, rejectUnitPath))
      ensures Located(outcome) || outcome == PlanTransformError ==>
                && old(IsCut(robot, searchDistance, extent, cut))
                && (outcome == PlanTransformError <==> exists j :: cut.begin <= j < cut.begin + cut.taken && !g.toLocal(old(plan)[j]))
      ensures Located(outcome) ==>
                && index == old(index) + cut.begin && (outcome == Ok <==> cut.taken > 0) && cut.taken <= |plan|
                && transformed == if cut.taken == 1 && HasActiveCusp() then [plan[0], plan[0]] else plan[..cut.taken]
      ensures Valid() && old(index) <= index && (old(Aligned()) ==> Aligned())
      ensures Located(outcome) && old(Aligned()) ==> HandsOver(index, robot, extent, transformed, cut.taken)
      ensures old(Locatable(robotKnown, searchDistance, rejectUnitPath)) ==> Located(outcome)
      ensures !Located(outcome) ==> index == old(index) && plan == old(plan) && offset == old(offset)
      ensures plan == [] <==> old(plan) == []
      ensures HasActiveCusp() && old(SegmentWindow()) == 0 ==> outcome != Ok && index == old(index) && plan == old(plan) && offset == old(offset)
    {
      hide IsWindow, IsClosest, IsStretch, IsError, HandsOver, Locatable, Aligned, SegmentWindow;
      outcome, transformed, cut := Locate(robot, robotKnown, searchDistance, rejectUnitPath, extent);
      LocatableIsLocated(outcome, robotKnown, robot, searchDistance, rejectUnitPath, extent, cut);
      EmptyWindow(robot, searchDistance, extent, cut);
      if Located(outcome) {
        PruneBehind(robot, searchDistance, extent, transformed, cut);
      }
    }

    lemma LocatableIsLocated(
      outcome: Outcome, robotKnown: bool, robot: Pose, searchDistance: real, rejectUnitPath: bool, extent: real, cut: Cut)
      requires IsError(outcome, robotKnown, searchDistance, rejectUnitPath)
      requires outcome == PlanTransformError ==>
                 IsCut(robot, searchDistance, extent, cut) && exists j :: cut.begin <= j < cut.begin + cut.taken && !g.toLocal(plan[j])
      ensures Locatable(robotKnown, searchDistance, rejectUnitPath) ==> Located(outcome)
      ensures plan == [] ==> !Located(outcome)
    {
    }

    lemma CutInPlan(robot: Pose, searchDistance: real, extent: real, cut: Cut)
      requires Valid() && plan != [] && IsCut(robot, searchDistance, extent, cut)
      ensures cut.begin < |plan| && cut.begin <= Eligible() && cut.begin + cut.taken <= |plan| && IsStretch(robot, extent, cut.begin, cut.taken)
    {
    }

    lemma EmptyWindow(robot: Pose, searchDistance: real, extent: real, cut: Cut)
      requires Valid()
      ensures HasActiveCusp() && SegmentWindow() == 0 && IsCut(robot, searchDistance, extent, cut) ==> cut.begin == 0 && cut.taken == 0
    {
    }

    /** Erases the poses before the cut; the poses handed over come next. */
    method PruneBehind(robot: Pose, searchDistance: real, extent: real, ghost transformed: seq<Pose>, cut: Cut)
      requires Valid() && plan != [] && IsCut(robot, searchDistance, extent, cut)
      requires transformed == if cut.taken == 1 && HasActiveCusp() then [plan[cut.begin], plan[cut.begin]] else plan[cut.begin..cut.begin + cut.taken]
      modifies this`plan, this`offset, this`index
      ensures Valid() && index == old(index) + cut.begin && plan == old(plan)[cut.begin..] && plan != []
      ensures cut.begin == 0 ==> plan == old(plan) && offset == old(offset)
      ensures cut.taken <= |plan| && transformed == if cut.taken == 1 && HasActiveCusp() then [plan[0], plan[0]] else plan[..cut.taken]
      ensures old(Aligned()) ==> Aligned() && HandsOver(index, robot, extent, transformed, cut.taken)
    {
      hide Arc, IsReach, IsWindow, IsClosest, HandsOver, IsStretch;
      WindowInSegment(cut.begin);
      CutInPlan(robot, searchDistance, extent, cut);
      if Aligned() {
        CutIsHandedOver(robot, searchDistance, extent, transformed, cut);
      }
      assert plan[cut.begin..][..cut.taken] == plan[cut.begin..cut.begin + cut.taken];
      Prune(cut.begin);
    }

    /**
     What unsigned arithmetic makes of the distance to the active cusp: the poses up to it while it lies ahead,
     nothing when the index is one past it, so that every cycle fails, and the whole plan when the index is farther.
     */
    lemma WindowPastCusp()
      requires Valid() && HasActiveCusp() && |original| < UINT64 && terminals[segment] < UINT64 - 1
      ensures plan != [] && index <= terminals[segment] ==> SegmentWindow() == MinNat(|plan|, terminals[segment] - index + 1)
      ensures plan != [] ==> (SegmentWindow() == 0 <==> index == terminals[segment] + 1)
      ensures index > terminals[segment] + 1 ==> SegmentWindow() == |plan|
    {
      var d := terminals[segment] - index;
      assert Wrap64(d) == if d >= 0 then d else d + UINT64;
      assert d < 0 ==> Wrap64(Wrap64(d) + 1) == if d == -1 then 0 else d + UINT64 + 1;
    }

    lemma WindowInSegment(k: nat)
      requires Valid() && plan != []
      requires HasActiveCusp() ==> k < SegmentWindow() || (k == 0 && SegmentWindow() == 0)
      ensures Aligned() && HasActiveCusp() ==> index + k <= terminals[segment]
    {
      if Aligned() && HasActiveCusp() {
        assert k <= terminals[segment] - index || k == 0;
      }
    }
  }
}
