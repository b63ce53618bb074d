/**
 The path smoother: in-place Gauss-Seidel sweeps over the waypoints, rolled back to the last
 complete sweep when a waypoint becomes infeasible, and repeated on its own result a bounded number
 of times. Also the split of a path into stretches without a change of direction.
 */
module PathSmoother {
  import opened Numbers

  datatype Point = Point(x: real, y: real)

  datatype Box = Box(lo: Point, hi: Point) {
    predicate Contains(p: Point) {
      lo.x <= p.x <= hi.x && lo.y <= p.y <= hi.y
    }
  }

  ghost predicate AllIn(path: seq<Point>, box: Box) {
    forall i :: 0 <= i < |path| ==> box.Contains(path[i])
  }

  /** The update of one coordinate: towards the original value and towards its two neighbours. */
  function Smoothed(data: real, smooth: real, original: real, current: real, before: real, after: real): real {
    current + (data * (original - current) + smooth * (after + before - 2.0 * current))
  }

  /** Each of the three pulls alone: its weight's share of the distance to the original, or to a neighbour. */
  lemma Pulls(data: real, smooth: real, y: real, d: real)
    ensures Smoothed(data, smooth, y, y, y, y) == y
    ensures Smoothed(data, smooth, y + d, y, y, y) == y + data * d
    ensures Smoothed(data, smooth, y, y, y + d, y) == Smoothed(data, smooth, y, y, y, y + d) == y + smooth * d
  {
    assert data * (y + d - y) == data * d;
    assert smooth * (y + (y + d) - 2.0 * y) == smooth * d;
  }

  lemma Scale(w: real, d: real)
    requires w >= 0.0 && d >= 0.0
    ensures w * d >= 0.0
  {
  }

  lemma Regroup(data: real, smooth: real, x: real, y: real, m: real, p: real, c: real)
    ensures Smoothed(data, smooth, x, y, m, p) - c ==
            data * (x - c) + smooth * (p - c) + smooth * (m - c) + (1.0 - data - 2.0 * smooth) * (y - c)
  {
    assert data * (x - y) == data * (x - c) - data * (y - c);
    assert smooth * (p + m - 2.0 * y) == smooth * (p - c) + smooth * (m - c) - 2.0 * smooth * (y - c);
    assert (1.0 - data - 2.0 * smooth) * (y - c) == (y - c) - data * (y - c) - 2.0 * smooth * (y - c);
  }

  lemma AtLeast(data: real, smooth: real, x: real, y: real, m: real, p: real, lo: real)
    requires data >= 0.0 && smooth >= 0.0 && data + 2.0 * smooth <= 1.0
    requires lo <= x && lo <= y && lo <= m && lo <= p
    ensures lo <= Smoothed(data, smooth, x, y, m, p)
  {
    hide Smoothed;
    var rest := 1.0 - data - 2.0 * smooth;
    Regroup(data, smooth, x, y, m, p, lo);
    Scale(data, x - lo);
    Scale(smooth, p - lo);
    Scale(smooth, m - lo);
    Scale(rest, y - lo);
  }

  lemma Mirrored(data: real, smooth: real, x: real, y: real, m: real, p: real)
    ensures Smoothed(data, smooth, -x, -y, -m, -p) == -Smoothed(data, smooth, x, y, m, p)
  {
    assert data * (-x + y) == -(data * (x - y));
    assert smooth * (-p - m + 2.0 * y) == -(smooth * (p + m - 2.0 * y));
  }

  /** With weights data + 2 smooth at most 1, the update is a convex combination and cannot overshoot. */
  lemma StaysBetween(data: real, smooth: real, x: real, y: real, m: real, p: real, lo: real, hi: real)
    requires data >= 0.0 && smooth >= 0.0 && data + 2.0 * smooth <= 1.0
    requires lo <= x <= hi && lo <= y <= hi && lo <= m <= hi && lo <= p <= hi
    ensures lo <= Smoothed(data, smooth, x, y, m, p) <= hi
  {
    hide Smoothed;
    AtLeast(data, smooth, x, y, m, p, lo);
    AtLeast(data, smooth, -x, -y, -m, -p, -hi);
    Mirrored(data, smooth, x, y, m, p);
  }

  /** For larger weights a single update can leave the range of the values it mixes. */
  lemma OvershootsOtherwise(data: real, smooth: real)
    requires data >= 0.0 && smooth >= 0.0 && data + 2.0 * smooth > 1.0
    ensures Smoothed(data, smooth, 0.0, 1.0, 0.0, 0.0) < 0.0
  {
  }

  predicate Between(a: real, b: real, c: real) {
    a <= c <= b || b <= c <= a
  }

  /** Updating with neighbours that stay is affine in the current value, with slope 1 - data - 2 smooth. */
  lemma Affine(data: real, smooth: real, x: real, y: real, z: real, m: real, p: real)
    ensures Smoothed(data, smooth, x, y, m, p) - Smoothed(data, smooth, x, z, m, p) == (1.0 - data - 2.0 * smooth) * (y - z)
  {
    assert data * (x - y) - data * (x - z) == data * (z - y);
    assert smooth * (p + m - 2.0 * y) - smooth * (p + m - 2.0 * z) == 2.0 * smooth * (z - y);
    assert (1.0 - data - 2.0 * smooth) * (y - z) == (y - z) - data * (y - z) - 2.0 * smooth * (y - z);
  }

  lemma Shrinks(slope: real, d: real, e: real)
    requires -1.0 <= slope <= 0.0 && (0.0 <= e <= d || d <= e <= 0.0)
    ensures if d >= 0.0 then -d <= slope * e <= 0.0 else 0.0 <= slope * e <= -d
  {
    if e >= 0.0 {
      Scale(slope + 1.0, e);
      Scale(-slope, e);
    } else {
      Scale(slope + 1.0, -e);
      Scale(-slope, -e);
    }
  }

  /** With slopes from -1 to 0 the value swings between where it started and where the first update took it. */
  lemma Swings(data: real, smooth: real, x: real, y: real, m: real, p: real)
    requires 1.0 <= data + 2.0 * smooth <= 2.0 && Between(x, Smoothed(data, smooth, x, x, m, p), y)
    ensures Between(x, Smoothed(data, smooth, x, x, m, p), Smoothed(data, smooth, x, y, m, p))
  {
    var first := Smoothed(data, smooth, x, x, m, p);
    Affine(data, smooth, x, y, x, m, p);
    hide Smoothed;
    Shrinks(1.0 - data - 2.0 * smooth, first - x, y - x);
  }

  /** The first update of a waypoint starts from its original place, so only the weight of the neighbours counts. */
  lemma FirstUpdate(data: real, smooth: real, x: real, m: real, p: real, lo: real, hi: real)
    requires 0.0 <= smooth <= 0.5 && lo <= x <= hi && lo <= m <= hi && lo <= p <= hi
    ensures lo <= Smoothed(data, smooth, x, x, m, p) <= hi
  {
    StaysBetween(0.0, smooth, x, x, m, p, lo, hi);
    assert data * (x - x) == 0.0;
  }

  lemma NoSmoothing(data: real, x: real, m: real, p: real)
    ensures Smoothed(data, 0.0, x, x, m, p) == x
  {
  }

  lemma SecondUpdate(data: real, smooth: real)
    requires smooth > 0.0 && data + 2.0 * smooth > 2.0
    ensures Smoothed(data, smooth, 1.0, 1.0 - 2.0 * smooth, 0.0, 0.0) > 1.0
  {
    var y, sd, ss := 1.0 - 2.0 * smooth, smooth * data, smooth * smooth;
    assert data * (1.0 - y) == 2.0 * sd;
    assert smooth * (0.0 + 0.0 - 2.0 * y) == 4.0 * ss - 2.0 * smooth;
    var gap := data + 2.0 * smooth - 2.0;
    assert smooth * gap == sd + 2.0 * ss - 2.0 * smooth;
    assert smooth * gap > 0.0;
    assert Smoothed(data, smooth, 1.0, y, 0.0, 0.0) == y + (data * (1.0 - y) + smooth * (0.0 + 0.0 - 2.0 * y));
  }

  /** How a round of sweeps ended. */
  datatype Why = Settled | IterationLimit | OutOfTime | Infeasible

  class Smoother {
    const tolerance: real
    const maxIts: int
    const data: real
    const smooth: real
    const doRefinement: bool
    const refinementNum: int
    /** The admissibility check of a waypoint; without a costmap every waypoint passes. */
    const passes: Point -> bool
    var refinementCtr: nat

    constructor (tolerance: real, maxIts: int, data: real, smooth: real, doRefinement: bool, refinementNum: int, passes: Point -> bool)
      ensures this.data == data && this.smooth == smooth && this.maxIts == maxIts && this.passes == passes && refinementCtr == 0
    {
      this.tolerance, this.maxIts, this.data, this.smooth := tolerance, maxIts, data, smooth;
      this.doRefinement, this.refinementNum, this.passes, refinementCtr := doRefinement, refinementNum, passes, 0;
    }

    ghost predicate Convex() {
      data >= 0.0 && smooth >= 0.0 && data + 2.0 * smooth <= 1.0
    }

    ghost predicate InteriorPasses(path: seq<Point>) {
      forall i :: 0 < i < |path| - 1 ==> passes(path[i])
    }

    /** Same end points, same number of poses. */
    ghost predicate SameEnds(path: seq<Point>, result: seq<Point>) {
      |result| == |path| && (path != [] ==> result[0] == path[0] && result[|path| - 1] == path[|path| - 1])
    }

    /** The waypoints after a Gauss-Seidel sweep has reached position `n`: earlier updates feed later ones. */
    ghost function SweptTo(path: seq<Point>, start: seq<Point>, n: nat): (r: seq<Point>)
      requires 1 <= n < |path| == |start|
      ensures |r| == |path|
    {
      if n == 1 then start
      else
        var r := SweptTo(path, start, n - 1);
        var i := n - 1;
        r[i := Point(Smoothed(data, smooth, path[i].x, r[i].x, r[i - 1].x, r[i + 1].x),
                     Smoothed(data, smooth, path[i].y, r[i].y, r[i - 1].y, r[i + 1].y))]
    }

    /** Every waypoint before `n` was updated once, from its new predecessor and its old successor; the others stay. */
    lemma {:induction false} SweepIsGaussSeidel(path: seq<Point>, start: seq<Point>, n: nat)
      requires 1 <= n < |path| == |start|
      ensures var r := SweptTo(path, start, n);
              && (forall i :: 0 < i < n ==>
                    r[i].x == Smoothed(data, smooth, path[i].x, start[i].x, r[i - 1].x, start[i + 1].x) &&
                    r[i].y == Smoothed(data, smooth, path[i].y, start[i].y, r[i - 1].y, start[i + 1].y))
              && r[0] == start[0] && forall i :: n <= i < |path| ==> r[i] == start[i]
    {
      hide Smoothed;
      if n > 1 {
        SweepIsGaussSeidel(path, start, n - 1);
      }
    }

    /** `n` complete sweeps over the path, anchored at the path itself. */
    ghost function Sweeps(path: seq<Point>, n: nat): (r: seq<Point>)
      requires |path| >= 2
      ensures |r| == |path|
    {
      if n == 0 then path else SweptTo(path, Sweeps(path, n - 1), |path| - 1)
    }

    /** Sweeping, then sweeping the result anew, once per entry of `rounds`. */
    ghost function Refined(path: seq<Point>, rounds: seq<nat>): (r: seq<Point>)
      requires |path| >= 2
      ensures |r| == |path|
      decreases |rounds|
    {
      if rounds == [] then path else Refined(Sweeps(path, rounds[0]), rounds[1..])
    }

    /** How far the inner waypoints before `n` moved, coordinate by coordinate. */
    ghost function Moved(start: seq<Point>, swept: seq<Point>, n: nat): real
      requires n <= |start| == |swept|
    {
      if n <= 1 then 0.0
      else Moved(start, swept, n - 1) + Abs(swept[n - 1].x - start[n - 1].x) + Abs(swept[n - 1].y - start[n - 1].y)
    }

    lemma {:induction false} MovedBefore(start: seq<Point>, swept: seq<Point>, swept': seq<Point>, n: nat)
      requires n <= |start| == |swept| == |swept'| && forall k :: 0 <= k < n ==> swept[k] == swept'[k]
      ensures Moved(start, swept, n) == Moved(start, swept', n)
    {
      if n > 1 {
        MovedBefore(start, swept, swept', n - 1);
      }
    }

    /** How far the `k`-th sweep of the path moved its waypoints. */
    ghost function Change(path: seq<Point>, k: nat): real
      requires |path| >= 2 && k > 0
    {
      Moved(Sweeps(path, k - 1), Sweeps(path, k), |path| - 1)
    }

    ghost predicate SweepPasses(path: seq<Point>, k: nat)
      requires |path| >= 2
    {
      InteriorPasses(Sweeps(path, k))
    }

    /** A waypoint fails the check during the sweep after the first `n`. */
    ghost predicate FailsAfter(path: seq<Point>, n: nat)
      requires |path| >= 2
    {
      exists i: nat :: 0 < i < |path| - 1 && FailsAt(path, Sweeps(path, n), i)
    }

    ghost predicate FailsAt(path: seq<Point>, start: seq<Point>, i: nat)
      requires 0 < i < |path| - 1 && |start| == |path|
    {
      !passes(SweptTo(path, start, i + 1)[i])
    }

    /**
     How a round of sweeps ends after `n` complete ones: with the first whose change is below the tolerance, or
     early at the iteration limit, out of time, or at a waypoint that fails the check, tested in this order.
     */
    ghost predicate RoundEnds(path: seq<Point>, level: nat, outOfTime: (nat, nat) -> bool, n: nat, why: Why)
      requires |path| >= 2
    {
      && (forall k :: 1 <= k <= n ==> SweepPasses(path, k))
      && (forall k :: 1 <= k < n ==> Change(path, k) >= tolerance)
      && (n > 0 ==> (why == Settled <==> Change(path, n) < tolerance))
      && match why
         case Settled => 0 < n < maxIts
         case IterationLimit => n + 1 >= maxIts
         case OutOfTime => n + 1 < maxIts && outOfTime(level, n)
         case Infeasible => n + 1 < maxIts && !outOfTime(level, n) && FailsAfter(path, n)
    }

    /** A round that settles is followed by another one on its result while refinements are left. */
    ghost predicate RoundsRun(path: seq<Point>, level: nat, outOfTime: (nat, nat) -> bool, rounds: seq<nat>, whys: seq<Why>)
      requires |path| >= 2
      decreases |rounds|
    {
      && |rounds| == |whys| > 0 && RoundEnds(path, level, outOfTime, rounds[0], whys[0])
      && if whys[0] == Settled && doRefinement && level < refinementNum
         then |rounds| > 1 && RoundsRun(Sweeps(path, rounds[0]), level + 1, outOfTime, rounds[1..], whys[1..])
         else |rounds| == 1
    }

    /** One sweep, overwriting waypoints from the second to the last but one, until one is infeasible. */
    method Sweep(path: seq<Point>, start: seq<Point>, ghost box: Box) returns (swept: seq<Point>, change: real, feasible: bool)
      requires |path| >= 2 && SameEnds(path, start)
      ensures SameEnds(path, swept) && (feasible ==> change == Moved(start, swept, |path| - 1))
      ensures Convex() && AllIn(path, box) && AllIn(start, box) ==> AllIn(swept, box)
      ensures feasible ==> swept == SweptTo(path, start, |path| - 1) && InteriorPasses(swept)
      ensures !feasible ==> exists i: nat :: 0 < i < |path| - 1 && FailsAt(path, start, i) && swept == SweptTo(path, start, i + 1)
    {
      swept, change, feasible := start, 0.0, true;
      var i := 1;
      while i != |path| - 1
        invariant 1 <= i <= |path| - 1
        invariant SameEnds(path, swept) && swept == SweptTo(path, start, i)
        invariant change == Moved(start, swept, i) && forall k :: i <= k < |path| ==> swept[k] == start[k]
        invariant Convex() && AllIn(path, box) && AllIn(start, box) ==> AllIn(swept, box)
        invariant forall k :: 0 < k < i ==> passes(swept[k])
        decreases |path| - i
      {
        hide Smoothed;
        var x := Smoothed(data, smooth, path[i].x, swept[i].x, swept[i - 1].x, swept[i + 1].x);
        var y := Smoothed(data, smooth, path[i].y, swept[i].y, swept[i - 1].y, swept[i + 1].y);
        if Convex() && AllIn(path, box) && AllIn(start, box) {
          assert box.Contains(path[i]) && box.Contains(swept[i]) && box.Contains(swept[i - 1]) && box.Contains(swept[i + 1]);
          StaysBetween(data, smooth, path[i].x, swept[i].x, swept[i - 1].x, swept[i + 1].x, box.lo.x, box.hi.x);
          StaysBetween(data, smooth, path[i].y, swept[i].y, swept[i - 1].y, swept[i + 1].y, box.lo.y, box.hi.y);
        }
        change := change + Abs(x - swept[i].x) + Abs(y - swept[i].y);
        MovedBefore(start, swept, swept[i := Point(x, y)], i);
        swept := swept[i := Point(x, y)];
        if !passes(swept[i]) {
          feasible := false;
          assert FailsAt(path, start, i);
          return;
        }
        i := i + 1;
      }
    }

    /**
     Sweeps until the change falls below the tolerance, then refines the result by itself; `outOfTime` tells by level
     of refinement and sweeps done when the clock has run out. Whatever happens, the result is what complete sweeps
     give, the ends and the count stay, and the result is the input or fully checked. With convex weights no waypoint
     leaves a box that holds the input.
     */
    method SmoothImpl(path: seq<Point>, outOfTime: (nat, nat) -> bool, ghost box: Box)
      returns (ok: bool, result: seq<Point>, ghost rounds: seq<nat>, ghost whys: seq<Why>)
      requires |path| >= 2
      modifies this
      ensures result == Refined(path, rounds)
      ensures RoundsRun(path, old(refinementCtr), outOfTime, rounds, whys) && (ok <==> whys[0] == Settled)
      ensures SameEnds(path, result)
      ensures Convex() && AllIn(path, box) ==> AllIn(result, box)
      ensures result == path || InteriorPasses(result)
      ensures ok ==> InteriorPasses(result)
      decreases refinementNum - refinementCtr
    {
      hide Smoothed, SweptTo;
      var its := 0;
      var change := tolerance;
      var newPath, lastPath := path, path;
      ghost var sweeps: nat := 0;
      while change >= tolerance
        invariant refinementCtr == old(refinementCtr)
        invariant SameEnds(path, newPath) && (Convex() && AllIn(path, box) ==> AllIn(newPath, box))
        invariant newPath == lastPath == Sweeps(path, sweeps)
        invariant its == sweeps && (if its > 0 then InteriorPasses(newPath) else newPath == path && change == tolerance)
        invariant its <= 0 || (its < maxIts && change == Change(path, sweeps))
        invariant forall k :: 1 <= k <= sweeps ==> SweepPasses(path, k)
        invariant forall k :: 1 <= k < sweeps ==> Change(path, k) >= tolerance
        decreases maxIts - its
      {
        its := its + 1;
        if its >= maxIts {
          OneRound(path, sweeps);
          return false, lastPath, [sweeps], [IterationLimit];
        }
        if outOfTime(refinementCtr, its - 1) {
          OneRound(path, sweeps);
          return false, lastPath, [sweeps], [OutOfTime];
        }
        var feasible;
        newPath, change, feasible := Sweep(path, newPath, box);
        if !feasible {
          OneRound(path, sweeps);
          return false, lastPath, [sweeps], [Infeasible];
        }
        sweeps := sweeps + 1;
        lastPath := newPath;
      }
      OneRound(path, sweeps);
      rounds, whys := [sweeps], [Settled];
      if doRefinement && refinementCtr < refinementNum {
        refinementCtr := refinementCtr + 1;
        var refined;
        ghost var more, moreWhys;
        refined, newPath, more, moreWhys := SmoothImpl(newPath, outOfTime, box);
        rounds, whys := [sweeps] + more, [Settled] + moreWhys;
        assert rounds[1..] == more && whys[1..] == moreWhys;
      }
      return true, newPath, rounds, whys;
    }

    /** The weights under which a path of three poses stays in its box; nonnegative ones only. */
    ghost predicate Tame() {
      data >= 0.0 && 0.0 <= smooth <= 0.5 && (smooth == 0.0 || data + 2.0 * smooth <= 2.0)
    }

    lemma ThreePoses(path: seq<Point>, n: nat)
      requires |path| == 3 && n > 0
      ensures Sweeps(path, n) ==
              Sweeps(path, n - 1)[1 := Point(
                Smoothed(data, smooth, path[1].x, Sweeps(path, n - 1)[1].x, Sweeps(path, n - 1)[0].x, Sweeps(path, n - 1)[2].x),
                Smoothed(data, smooth, path[1].y, Sweeps(path, n - 1)[1].y, Sweeps(path, n - 1)[0].y, Sweeps(path, n - 1)[2].y))]
    {
      hide Smoothed;
      var start := Sweeps(path, n - 1);
      assert SweptTo(path, start, 1) == start;
    }

    /** Where the middle of three poses can be after any number of sweeps. */
    ghost predicate MiddleOk(box: Box, path: seq<Point>, p: Point)
      requires |path| == 3
    {
      if data + 2.0 * smooth <= 1.0 then box.Contains(p)
      else
        && Between(path[1].x, Smoothed(data, smooth, path[1].x, path[1].x, path[0].x, path[2].x), p.x)
        && Between(path[1].y, Smoothed(data, smooth, path[1].y, path[1].y, path[0].y, path[2].y), p.y)
    }

    lemma {:induction false} MiddleStays(path: seq<Point>, box: Box, n: nat)
      requires Tame() && |path| == 3 && AllIn(path, box)
      ensures Sweeps(path, n)[0] == path[0] && Sweeps(path, n)[2] == path[2] && MiddleOk(box, path, Sweeps(path, n)[1])
    {
      if n > 0 {
        MiddleStays(path, box, n - 1);
        ThreePoses(path, n);
        var p := Sweeps(path, n - 1)[1];
        hide Smoothed, Sweeps;
        if data + 2.0 * smooth <= 1.0 {
          StaysBetween(data, smooth, path[1].x, p.x, path[0].x, path[2].x, box.lo.x, box.hi.x);
          StaysBetween(data, smooth, path[1].y, p.y, path[0].y, path[2].y, box.lo.y, box.hi.y);
        } else if smooth > 0.0 {
          Swings(data, smooth, path[1].x, p.x, path[0].x, path[2].x);
          Swings(data, smooth, path[1].y, p.y, path[0].y, path[2].y);
        } else {
          NoSmoothing(data, path[1].x, path[0].x, path[2].x);
          NoSmoothing(data, path[1].y, path[0].y, path[2].y);
        }
      }
    }

    /** A path of three poses stays in its box under tame weights, however often it is swept. */
    lemma ThreePosesStay(path: seq<Point>, box: Box, n: nat)
      requires Tame() && |path| == 3 && AllIn(path, box)
      ensures AllIn(Sweeps(path, n), box)
    {
      MiddleStays(path, box, n);
      assert box.Contains(path[0]) && box.Contains(path[1]) && box.Contains(path[2]);
      FirstUpdate(data, smooth, path[1].x, path[0].x, path[2].x, box.lo.x, box.hi.x);
      FirstUpdate(data, smooth, path[1].y, path[0].y, path[2].y, box.lo.y, box.hi.y);
      hide Smoothed, Sweeps;
    }

    /** Under all other nonnegative weights a spike leaves its box within two sweeps. */
    lemma ThreePosesLeave() returns (path: seq<Point>, box: Box, n: nat)
      requires data >= 0.0 && smooth >= 0.0 && !Tame()
      ensures |path| == 3 && AllIn(path, box) && n <= 2 && !AllIn(Sweeps(path, n), box)
    {
      path, box := [Point(0.0, 0.0), Point(1.0, 0.0), Point(0.0, 0.0)], Box(Point(0.0, 0.0), Point(1.0, 0.0));
      ThreePoses(path, 1);
      assert Sweeps(path, 0) == path;
      var y1 := Smoothed(data, smooth, 1.0, 1.0, 0.0, 0.0);
      assert Sweeps(path, 1)[1].x == y1 == 1.0 - 2.0 * smooth;
      if smooth > 0.5 {
        n := 1;
        assert !box.Contains(Sweeps(path, 1)[1]);
      } else {
        n := 2;
        ThreePoses(path, 2);
        SecondUpdate(data, smooth);
        assert !box.Contains(Sweeps(path, 2)[1]);
      }
    }

    lemma OneRound(path: seq<Point>, n: nat)
      requires |path| >= 2
      ensures Refined(path, [n]) == Sweeps(path, n)
    {
      assert Refined(Sweeps(path, n), [n][1..]) == Sweeps(path, n);
    }
  }


  // ---- direction changes

  datatype Segment = Segment(start: nat, end: nat)

  /** A reversal at `i`, or a rotation in place from `i` to the next pose; the yaw test is foreign trigonometry. */
  predicate IsBreak(path: seq<Point>, turns: nat -> bool, i: nat)
    requires 0 < i < |path| - 1
  {
    Reverses(path, i) || RotatesInPlace(path, turns, i)
  }

  predicate Reverses(path: seq<Point>, i: nat)
    requires 0 < i < |path| - 1
  {
    (path[i].x - path[i - 1].x) * (path[i + 1].x - path[i].x) + (path[i].y - path[i - 1].y) * (path[i + 1].y - path[i].y) < 0.0
  }

  predicate RotatesInPlace(path: seq<Point>, turns: nat -> bool, i: nat)
    requires 0 < i < |path| - 1
  {
    Abs(path[i + 1].x - path[i].x) < 0.0001 && Abs(path[i + 1].y - path[i].y) < 0.0001 && turns(i)
  }

  /** Segments follow one another from the first pose on, meeting at breaks only. */
  ghost predicate Chained(path: seq<Point>, turns: nat -> bool, segments: seq<Segment>, next: nat) {
    && (if segments == [] then next == 0 else segments[0].start == 0 && segments[|segments| - 1].end == next)
    && (forall k :: 0 <= k < |segments| ==> segments[k].start <= segments[k].end)
    && (forall k :: 0 <= k < |segments| - 1 ==> segments[k].end == segments[k + 1].start)
    && (forall k :: 0 <= k < |segments| - 1 ==> 0 < segments[k].end < |path| - 1 && IsBreak(path, turns, segments[k].end))
  }

  ghost predicate NoBreakInside(path: seq<Point>, turns: nat -> bool, s: Segment) {
    forall i :: s.start < i < s.end && 0 < i < |path| - 1 ==> !IsBreak(path, turns, i)
  }

  /** Splits a path at its direction changes: every break is a boundary and nothing else is. */
  method FindDirectionalPathSegments(path: seq<Point>, turns: nat -> bool, holonomic: bool) returns (segments: seq<Segment>)
    requires |path| >= 1
    ensures segments != [] && segments[0].start == 0 && segments[|segments| - 1].end == |path| - 1
    ensures holonomic ==> segments == [Segment(0, |path| - 1)]
    ensures !holonomic ==> Chained(path, turns, segments, |path| - 1)
    ensures !holonomic ==> forall k :: 0 <= k < |segments| ==> NoBreakInside(path, turns, segments[k])
  {
    hide Reverses, RotatesInPlace;
    segments := [];
    if holonomic {
      return [Segment(0, |path| - 1)];
    }
    var start := 0;
    var idx := 1;
    while idx < |path| - 1
      invariant 1 <= idx && (idx <= |path| - 1 || idx == 1) && start < idx
      invariant SplitSoFar(path, turns, segments, start)
      invariant Unbroken(path, turns, start, idx)
    {
      if Reverses(path, idx) {
        AddSegment(path, turns, segments, start, idx);
        segments := segments + [Segment(start, idx)];
        start := idx;
      }
      if RotatesInPlace(path, turns, idx) {
        AddSegment(path, turns, segments, start, idx);
        segments := segments + [Segment(start, idx)];
        start := idx;
      }
      idx := idx + 1;
    }
    ghost var before := segments;
    segments := segments + [Segment(start, |path| - 1)];
    LastSegment(path, turns, before, start, segments);
  }

  ghost predicate Unbroken(path: seq<Point>, turns: nat -> bool, start: nat, idx: nat) {
    forall i :: start < i < idx && 0 < i < |path| - 1 ==> !IsBreak(path, turns, i)
  }

  ghost predicate SplitSoFar(path: seq<Point>, turns: nat -> bool, segments: seq<Segment>, start: nat) {
    && Chained(path, turns, segments, start)
    && (segments != [] ==> 0 < start < |path| - 1 && IsBreak(path, turns, start))
    && (forall k :: 0 <= k < |segments| ==> NoBreakInside(path, turns, segments[k]))
  }

  lemma AddSegment(path: seq<Point>, turns: nat -> bool, segments: seq<Segment>, start: nat, idx: nat)
    requires SplitSoFar(path, turns, segments, start) && start <= idx && 0 < idx < |path| - 1
    requires Unbroken(path, turns, start, idx) && IsBreak(path, turns, idx)
    ensures SplitSoFar(path, turns, segments + [Segment(start, idx)], idx)
  {
    hide IsBreak;
  }

  lemma LastSegment(path: seq<Point>, turns: nat -> bool, segments: seq<Segment>, start: nat, all: seq<Segment>)
    requires SplitSoFar(path, turns, segments, start) && start <= |path| - 1 && Unbroken(path, turns, start, |path| - 1)
    requires all == segments + [Segment(start, |path| - 1)]
    ensures Chained(path, turns, all, |path| - 1)
    ensures forall k :: 0 <= k < |all| ==> NoBreakInside(path, turns, all[k])
  {
    hide IsBreak;
  }
}
