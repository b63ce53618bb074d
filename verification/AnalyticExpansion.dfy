/**
 The parent graph of the hybrid planner: search nodes with mutable parents, the analytic expansion
 that splices a curve into that graph, and the backtrace that follows parents to the start.
 Which nodes are popped, which moves improve a node and what the curve looks like are choices of the
 environment; every run is covered by quantifying over them.
 */
module AnalyticExpansion {

  datatype Pose = Pose(x: real, y: real, theta: real)

  /** One sample of an analytic curve: the graph node it falls into and the exact pose. */
  datatype CurvePoint = CurvePoint(node: Node, pose: Pose)

  /** A motion primitive's target, whether it lowers the target's cost, and whether it is the closest yet. */
  datatype Move = Move(index: int, pose: Pose, improves: bool, closest: bool)

  /** What the environment decides in one turn: the entry popped, the curve found, the moves possible. */
  datatype Choice = Choice(
    pop: nat, trials: seq<seq<(int, Pose)>>, splice: bool, hops: nat, samples: seq<(int, Pose)>, settle: bool, moves: seq<Move>)

  /** The pose of a node that has just been created. */
  const ORIGIN: Pose := Pose(0.0, 0.0, 0.0)

  class Node {
    const index: int
    var parent: Node?
    var visited: bool
    var pose: Pose
    /** The order in which nodes were visited. */
    ghost var rank: nat

    constructor (index: int, pose: Pose)
      ensures this.index == index && parent == null && !visited && this.pose == pose
    {
      this.index, this.pose, parent, visited := index, pose, null, false;
    }
  }

  ghost function Level(n: Node, clock: nat): nat
    reads n
  {
    if n.visited then n.rank else clock
  }

  /** A parent is visited, and was visited before the node it is the parent of. */
  ghost predicate LinkOk(R: set<Node>, start: Node, clock: nat, n: Node)
    requires n in R
    reads R
  {
    && (n.parent != null ==> n != start && n.parent in R && n.parent.visited && n.parent.rank < Level(n, clock))
    && (n.visited ==> n.rank < clock && (n != start ==> n.parent != null))
  }

  ghost predicate Links(R: set<Node>, start: Node, clock: nat)
    reads R
  {
    start in R && forall n :: n in R ==> LinkOk(R, start, clock, n)
  }

  /** Poses from a node back along its parents. */
  ghost function Trace(R: set<Node>, start: Node, clock: nat, n: Node): (t: seq<Pose>)
    requires Links(R, start, clock) && n in R
    reads R
    ensures |t| > 0 && t[0] == n.pose
    decreases Level(n, clock)
  {
    assert LinkOk(R, start, clock, n);
    if n.parent == null then [n.pose] else
      assert LinkOk(R, start, clock, n.parent);
      [n.pose] + Trace(R, start, clock, n.parent)
  }

  lemma TraceStep(R: set<Node>, start: Node, clock: nat, n: Node)
    requires Links(R, start, clock) && n in R && n.parent != null
    ensures n.parent in R && Level(n.parent, clock) < Level(n, clock)
    ensures Trace(R, start, clock, n) == [n.pose] + Trace(R, start, clock, n.parent)
  {
    assert LinkOk(R, start, clock, n) && LinkOk(R, start, clock, n.parent);
  }

  lemma TraceEnd(R: set<Node>, start: Node, clock: nat, n: Node)
    requires Links(R, start, clock) && n in R && n.parent == null
    ensures Trace(R, start, clock, n) == [n.pose]
  {
  }

  /** Following parents from a visited node, or from one whose parent is set, ends at the start. */
  lemma {:induction false} TraceEndsAtStart(R: set<Node>, start: Node, clock: nat, n: Node)
    requires Links(R, start, clock) && n in R && (n.visited || n.parent != null)
    ensures var t := Trace(R, start, clock, n); t[|t| - 1] == start.pose
    decreases Level(n, clock)
  {
    assert LinkOk(R, start, clock, n);
    if n.parent != null {
      TraceEndsAtStart(R, start, clock, n.parent);
    }
  }

  /** Changing only unvisited nodes and adding new ones leaves the trace of a visited node as it was. */
  twostate lemma TraceUnchanged(R: set<Node>, new R': set<Node>, new start: Node, new clock: nat, new clock': nat, new n: Node)
    requires start in R && n in R
    requires old(Links(R, start, clock)) && Links(R', start, clock') && R <= R' && old(n.visited)
    requires forall m :: m in R && old(m.visited) ==> m.visited && m.parent == old(m.parent) && m.pose == old(m.pose)
    ensures Trace(R', start, clock', n) == old(Trace(R, start, clock, n))
  {
    for k := 0 to old(n.rank) + 1
      invariant forall m :: m in R && old(m.visited) && old(m.rank) < k ==>
                  Trace(R', start, clock', m) == old(Trace(R, start, clock, m))
    {
      forall m | m in R && old(m.visited) && old(m.rank) == k
        ensures Trace(R', start, clock', m) == old(Trace(R, start, clock, m))
      {
        assert old(LinkOk(R, start, clock, m));
      }
    }
  }

  /** The curve samples that become nodes of their own: those outside the goal's cell. */
  ghost function Placed(goal: Node, curve: seq<CurvePoint>): seq<Pose> {
    if curve == [] then []
    else
      var rest := Placed(goal, curve[..|curve| - 1]);
      var last := curve[|curve| - 1];
      if last.node.index != goal.index then [last.pose] + rest else rest
  }

  lemma PlacedNothing(goal: Node)
    ensures Placed(goal, []) == []
  {
  }

  lemma PlacedStep(goal: Node, curve: seq<CurvePoint>, i: nat)
    requires i < |curve|
    ensures Placed(goal, curve[..i + 1]) ==
            (if curve[i].node.index != goal.index then [curve[i].pose] else []) + Placed(goal, curve[..i])
    ensures curve[..0] == []
  {
    assert curve[..i + 1][..i] == curve[..i];
  }

  /** Which samples those are: exactly the ones outside the goal's cell, the last of the curve first. */
  lemma {:induction false} PlacedAre(goal: Node, curve: seq<CurvePoint>) returns (from: seq<nat>)
    ensures |from| == |Placed(goal, curve)|
    ensures forall k :: 0 <= k < |from| ==> from[k] < |curve| && Placed(goal, curve)[k] == curve[from[k]].pose
    ensures forall k, l :: 0 <= k < l < |from| ==> from[k] > from[l]
    ensures forall i: nat :: i in from <==> i < |curve| && curve[i].node.index != goal.index
  {
    if curve == [] {
      from := [];
    } else {
      var last: nat := |curve| - 1;
      from := PlacedAre(goal, curve[..last]);
      if curve[last].node.index != goal.index {
        from := [last] + from;
      }
    }
  }

  // ---- trial poses

  /** The pose of `n` after the first `i` trial poses were written, starting from `pose`. */
  ghost function During(curve: seq<CurvePoint>, i: nat, n: Node, pose: Pose): Pose
    requires i <= |curve|
  {
    if i == 0 then pose else if curve[i - 1].node == n then curve[i - 1].pose else During(curve, i - 1, n, pose)
  }

  /** The pose of `n` once the poses saved at the first `i` samples are written back in order: the one saved last. */
  ghost function WrittenBack(curve: seq<CurvePoint>, i: nat, n: Node, pose: Pose, trial: Pose): Pose
    requires i <= |curve|
  {
    if i == 0 then trial else if curve[i - 1].node == n then During(curve, i - 1, n, pose) else WrittenBack(curve, i - 1, n, pose, trial)
  }

  /** What is left of a trial: the pose of `n` after all samples were tried and all saved poses written back. */
  ghost function Tried(curve: seq<CurvePoint>, n: Node, pose: Pose): Pose {
    WrittenBack(curve, |curve|, n, pose, During(curve, |curve|, n, pose))
  }

  lemma DuringSteps(curve: seq<CurvePoint>)
    ensures forall n, pose :: During(curve, 0, n, pose) == pose
    ensures forall i: nat, n, pose :: i < |curve| ==>
              During(curve, i + 1, n, pose) == if curve[i].node == n then curve[i].pose else During(curve, i, n, pose)
  {
  }

  ghost predicate OnCurve(curve: seq<CurvePoint>, i: nat, n: Node)
    requires i <= |curve|
  {
    exists k :: 0 <= k < i && curve[k].node == n
  }

  lemma {:induction false} DuringOffCurve(curve: seq<CurvePoint>, i: nat, n: Node, pose: Pose)
    requires i <= |curve| && !OnCurve(curve, i, n)
    ensures During(curve, i, n, pose) == pose
  {
    if i > 0 {
      assert curve[i - 1].node != n;
      assert forall k :: 0 <= k < i - 1 ==> curve[k].node != n;
      DuringOffCurve(curve, i - 1, n, pose);
    }
  }

  lemma {:induction false} WrittenBackOffCurve(curve: seq<CurvePoint>, i: nat, n: Node, pose: Pose, trial: Pose)
    requires i <= |curve| && !OnCurve(curve, i, n)
    ensures WrittenBack(curve, i, n, pose, trial) == trial
  {
    if i > 0 {
      assert curve[i - 1].node != n;
      assert forall k :: 0 <= k < i - 1 ==> curve[k].node != n;
      WrittenBackOffCurve(curve, i - 1, n, pose, trial);
    }
  }

  lemma {:induction false} LastSaved(curve: seq<CurvePoint>, i: nat, n: Node, pose: Pose, trial: Pose, last: nat)
    requires last < i <= |curve| && curve[last].node == n && forall k :: last < k < i ==> curve[k].node != n
    ensures WrittenBack(curve, i, n, pose, trial) == During(curve, last, n, pose)
  {
    if last < i - 1 {
      LastSaved(curve, i - 1, n, pose, trial, last);
    }
  }

  lemma {:induction false} LastTried(curve: seq<CurvePoint>, i: nat, n: Node, pose: Pose, last: nat)
    requires last < i <= |curve| && curve[last].node == n && forall k :: last < k < i ==> curve[k].node != n
    ensures During(curve, i, n, pose) == curve[last].pose
  {
    if last < i - 1 {
      LastTried(curve, i - 1, n, pose, last);
    }
  }

  ghost predicate NoRepeats(curve: seq<CurvePoint>) {
    forall i, j :: 0 <= i < j < |curve| ==> curve[i].node != curve[j].node
  }

  /** A node that the curve meets at most once gets its pose back. */
  lemma RestoredUnlessRepeated(curve: seq<CurvePoint>, n: Node, pose: Pose)
    requires forall i, j :: 0 <= i < j < |curve| ==> !(curve[i].node == n && curve[j].node == n)
    ensures Tried(curve, n, pose) == pose
  {
    if OnCurve(curve, |curve|, n) {
      var k :| 0 <= k < |curve| && curve[k].node == n;
      LastSaved(curve, |curve|, n, pose, During(curve, |curve|, n, pose), k);
      DuringOffCurve(curve, k, n, pose);
    } else {
      DuringOffCurve(curve, |curve|, n, pose);
      WrittenBackOffCurve(curve, |curve|, n, pose, pose);
    }
  }

  /** A node that the curve meets again keeps the trial pose of its meeting before the last, whatever its own pose was. */
  lemma RepeatedKeepsTrialPose(curve: seq<CurvePoint>, i: nat, j: nat, pose: Pose)
    requires i < j < |curve| && curve[i].node == curve[j].node && forall k :: i < k < |curve| && k != j ==> curve[k].node != curve[j].node
    ensures Tried(curve, curve[j].node, pose) == curve[i].pose
  {
    var n := curve[j].node;
    LastSaved(curve, |curve|, n, pose, During(curve, |curve|, n, pose), j);
    LastTried(curve, j, n, pose, i);
  }

  /** The last two meetings of the curve with a node it meets twice. */
  lemma LastTwo(curve: seq<CurvePoint>, i: nat, j: nat) returns (p: nat, q: nat)
    requires i < j < |curve| && curve[i].node == curve[j].node
    ensures p < q < |curve| && curve[p].node == curve[q].node && forall k :: p < k < |curve| && k != q ==> curve[k].node != curve[q].node
  {
    p, q := i, i;
    for k := i + 1 to |curve|
      invariant p <= q < k && curve[p].node == curve[q].node == curve[i].node
      invariant p == q ==> p == i
      invariant forall m :: p < m < k && m != q ==> curve[m].node != curve[q].node
    {
      if curve[k].node == curve[q].node {
        p, q := q, k;
      }
    }
  }

  /** A trial leaves every pose as it was, whatever the poses were, exactly when the curve meets no node twice. */
  lemma RestoredExactly(curve: seq<CurvePoint>)
    ensures NoRepeats(curve) <==> forall n, pose :: Tried(curve, n, pose) == pose
  {
    if NoRepeats(curve) {
      forall n, pose
        ensures Tried(curve, n, pose) == pose
      {
        RestoredUnlessRepeated(curve, n, pose);
      }
    } else {
      var i, j :| 0 <= i < j < |curve| && curve[i].node == curve[j].node;
      var p, q := LastTwo(curve, i, j);
      var other := Pose(curve[p].pose.x + 1.0, 0.0, 0.0);
      RepeatedKeepsTrialPose(curve, p, q, other);
      assert Tried(curve, curve[q].node, other) != other;
    }
  }

  class Planner {
    const start: Node
    const goal: Node
    var detached: seq<Node>
    var graph: map<int, Node>
    var queue: seq<Node>
    var best: Node?
    ghost var Repr: set<Node>
    ghost var clock: nat

    ghost predicate Valid()
      reads this, Repr
    {
      Links(Repr, start, clock) && goal in Repr && (clock > 0 ==> start.visited)
    }

    /** Graph nodes are filed under their own index. */
    ghost predicate GraphOk()
      reads this
    {
      && (forall i :: i in graph ==> graph[i] in Repr && graph[i].index == i)
      && goal.index in graph && graph[goal.index] == goal
    }

    ghost predicate QueueOk()
      reads this, Repr
    {
      && (forall k :: 0 <= k < |queue| ==> queue[k] in Repr && (queue[k] == start || queue[k].parent != null))
      && (best != null ==> best in Repr && best.parent != null)
      && forall n :: n in Repr && (n == start || n.parent != null) ==> n.visited || n in queue
    }

    constructor (start: Node, goal: Node)
      requires start.parent == null && goal.parent == null && !start.visited && !goal.visited
      requires start.index == goal.index <==> start == goal
      ensures Valid() && GraphOk() && this.start == start && this.goal == goal
      ensures Repr == {start, goal} && detached == [] && queue == [] && best == null && clock == 0
      ensures graph == map[start.index := start, goal.index := goal]
    {
      this.start, this.goal, detached, queue, best := start, goal, [], [], null;
      graph := map[start.index := start, goal.index := goal];
      Repr, clock := {start, goal}, 0;
    }

    /** Marks a node visited. */
    method Visit(n: Node)
      requires Valid() && n in Repr && !n.visited && (n == start || n.parent != null)
      modifies n`visited, n`rank, this`clock
      ensures Valid() && n.visited && clock == old(clock) + 1
    {
      assert LinkOk(Repr, start, clock, n);
      assert n.parent != null ==> LinkOk(Repr, start, clock, n.parent);
      n.visited := true;
      n.rank := clock;
      clock := clock + 1;
      forall m | m in Repr
        ensures LinkOk(Repr, start, clock, m)
      {
        assert old(LinkOk(Repr, start, clock, m));
      }
    }

    /** A cheaper approach was found: an unvisited node gets a visited parent. */
    method SetParent(n: Node, current: Node)
      requires Valid() && n in Repr && current in Repr && !n.visited && n != start && current.visited
      modifies n`parent
      ensures Valid() && n.parent == current
    {
      assert LinkOk(Repr, start, clock, current);
      n.parent := current;
      forall m | m in Repr
        ensures LinkOk(Repr, start, clock, m)
      {
        assert old(LinkOk(Repr, start, clock, m));
      }
    }

    /** Follows parents to the start, collecting poses. */
    method BacktracePath(n: Node) returns (found: bool, path: seq<Pose>)
      requires Valid() && n in Repr
      ensures found <==> n.parent != null
      ensures found ==> path == Trace(Repr, start, clock, n) && path[|path| - 1] == start.pose
    {
      hide Links, Trace;
      path := [];
      if n.parent == null {
        return false, path;
      }
      var current := n;
      while current.parent != null
        invariant current in Repr
        invariant path + Trace(Repr, start, clock, current) == Trace(Repr, start, clock, n)
        decreases Level(current, clock)
      {
        TraceStep(Repr, start, clock, current);
        assert path + ([current.pose] + Trace(Repr, start, clock, current.parent)) ==
               (path + [current.pose]) + Trace(Repr, start, clock, current.parent);
        path := path + [current.pose];
        current := current.parent;
      }
      TraceEnd(Repr, start, clock, current);
      path := path + [current.pose];
      TraceEndsAtStart(Repr, start, clock, n);
      return true, path;
    }
  
    /** Visited nodes keep their parent and pose; nodes are only added. */
    twostate predicate VisitedKept()
      reads this, Repr
    {
      old(Repr) <= Repr &&
      forall m :: m in old(Repr) && old(m.visited) ==> m.visited && m.parent == old(m.parent) && m.pose == old(m.pose)
    }

    lemma StartInGraph()
      requires Valid()
      ensures start in Repr
    {
    }

    lemma StartVisited(n: Node)
      requires Valid() && n in Repr && n.visited
      ensures start.visited
    {
      assert LinkOk(Repr, start, clock, n);
    }

    method NewNode(index: int, pose: Pose) returns (n: Node)
      requires Valid()
      modifies this`Repr
      ensures Valid() && fresh(n) && Repr == old(Repr) + {n}
      ensures n.index == index && n.pose == pose && n.parent == null && !n.visited
    {
      n := new Node(index, pose);
      Repr := Repr + {n};
      forall m | m in Repr
        ensures LinkOk(Repr, start, clock, m)
      {
        assert m != n ==> old(LinkOk(Repr, start, clock, m));
      }
    }

    method SetPose(n: Node, pose: Pose)
      requires Valid() && n in Repr
      modifies n`pose
      ensures Valid() && n.pose == pose
    {
      n.pose := pose;
      assert forall m :: m in Repr ==> old(LinkOk(Repr, start, clock, m)) ==> LinkOk(Repr, start, clock, m);
    }

    /** One curve sample outside the goal's cell: an already visited node is replaced by a detached copy. */
    method Place(prev: Node, point: CurvePoint) returns (n: Node)
      requires Valid() && prev in Repr && prev.visited && point.node in Repr && point.node != goal
      modifies Repr, this`Repr, this`detached, this`clock
      ensures Valid() && VisitedKept() && fresh(Repr - old(Repr))
      ensures n in Repr && n != goal && n.visited && n.parent == prev && n.pose == point.pose
      ensures old(point.node.visited) ==> fresh(n) && detached == old(detached) + [n]
      ensures !old(point.node.visited) ==> n == point.node && detached == old(detached)
      ensures Trace(Repr, start, clock, n) == [point.pose] + old(Trace(Repr, start, clock, prev))
      ensures goal.visited == old(goal.visited) && goal.parent == old(goal.parent) && goal.pose == old(goal.pose)
    {
      assert start in Repr;
      hide Links, Trace;
      StartVisited(prev);
      n := point.node;
      if n.visited {
        n := NewNode(-1, point.pose);
        detached := detached + [n];
      }
      SetParent(n, prev);
      SetPose(n, point.pose);
      Visit(n);
      TraceUnchanged(old(Repr), Repr, start, old(clock), clock, prev);
      TraceStep(Repr, start, clock, n);
    }

    /**
     Makes the curve the way to the goal. If the curve starts at a node other than the goal, the
     backtrace from the goal is the curve followed by the old way to that node. If it starts at the
     goal itself, parents stay acyclic exactly when no sample leaves the goal's cell.
     */
    method SetAnalyticPath(node: Node, curve: seq<CurvePoint>) returns (r: Node, ghost cycle: seq<Node>)
      requires Valid() && node in Repr && node.visited && (goal.visited ==> node == goal)
      requires forall i :: 0 <= i < |curve| ==> curve[i].node in Repr && (curve[i].node.index == goal.index <==> curve[i].node == goal)
      modifies Repr, this`Repr, this`detached, this`clock
      ensures r == goal && goal.visited && old(Repr) <= Repr && fresh(Repr - old(Repr))
      ensures node != goal ==>
                Valid() && Trace(Repr, start, clock, goal) == [old(goal.pose)] + (Placed(goal, curve) + old(Trace(Repr, start, clock, node)))
      ensures node == goal && Placed(goal, curve) == [] ==> Valid() && goal.parent == old(goal.parent)
      ensures node == goal && Placed(goal, curve) != [] ==>
                |cycle| >= 2 && cycle[0] == goal && cycle[|cycle| - 1] == goal &&
                forall i :: 0 <= i < |cycle| - 1 ==> cycle[i].parent == cycle[i + 1]
    {
      hide Links, Trace, Placed;
      detached := [];
      var prev;
      prev, cycle := Lay(node, curve);
      if goal != prev {
        Close(node, prev);
        cycle := [goal] + cycle;
      }
      r := goal;
    }

    /** Places the samples one after another; the chain of placed nodes ends at `node`. */
    method Lay(node: Node, curve: seq<CurvePoint>) returns (prev: Node, ghost chain: seq<Node>)
      requires Valid() && node in Repr && node.visited
      requires forall i :: 0 <= i < |curve| ==> curve[i].node in Repr && (curve[i].node.index == goal.index <==> curve[i].node == goal)
      modifies Repr, this`Repr, this`detached, this`clock
      ensures Valid() && VisitedKept() && prev in Repr && prev.visited && fresh(Repr - old(Repr))
      ensures goal.visited == old(goal.visited) && goal.parent == old(goal.parent) && goal.pose == old(goal.pose)
      ensures Trace(Repr, start, clock, prev) == Placed(goal, curve) + old(Trace(Repr, start, clock, node))
      ensures |chain| >= 1 && chain[0] == prev && chain[|chain| - 1] == node
      ensures forall k :: 0 <= k < |chain| - 1 ==> chain[k] != goal && chain[k].parent == chain[k + 1]
      ensures if Placed(goal, curve) == [] then prev == node else prev != goal
    {
      hide Links, Trace, Placed;
      PlacedNothing(goal);
      prev, chain := node, [node];
      for i := 0 to |curve|
        invariant Valid() && VisitedKept() && prev in Repr && prev.visited && fresh(Repr - old(Repr))
        invariant goal.visited == old(goal.visited) && goal.parent == old(goal.parent) && goal.pose == old(goal.pose)
        invariant Trace(Repr, start, clock, prev) == Placed(goal, curve[..i]) + old(Trace(Repr, start, clock, node))
        invariant |chain| >= 1 && chain[0] == prev && chain[|chain| - 1] == node
        invariant forall k :: 0 <= k < |chain| ==> chain[k] in Repr && chain[k].visited
        invariant forall k :: 0 <= k < |chain| - 1 ==> chain[k] != goal && chain[k].parent == chain[k + 1]
        invariant if Placed(goal, curve[..i]) == [] then prev == node else prev != goal
      {
        PlacedStep(goal, curve, i);
        if curve[i].node.index != goal.index {
          prev := Place(prev, curve[i]);
          chain := [prev] + chain;
        }
      }
      assert curve[..|curve|] == curve;
    }

    /** The last step: the goal hangs on the end of the curve. */
    method Close(node: Node, prev: Node)
      requires Valid() && prev in Repr && prev.visited && prev != goal && (goal.visited ==> node == goal)
      modifies goal, this`clock
      ensures goal.visited && goal.parent == prev && goal.pose == old(goal.pose)
      ensures node != goal ==> Valid() && Trace(Repr, start, clock, goal) == [goal.pose] + old(Trace(Repr, start, clock, prev))
    {
      assert LinkOk(Repr, start, clock, prev);
      if goal.visited {
        goal.parent := prev;
      } else {
        SetParent(goal, prev);
        Visit(goal);
        TraceUnchanged(old(Repr), Repr, start, old(clock), clock, prev);
        TraceStep(Repr, start, clock, goal);
      }
    }
  
    method AddToGraph(index: int) returns (n: Node)
      requires Valid() && GraphOk() && QueueOk()
      modifies this`Repr, this`graph
      ensures Valid() && GraphOk() && QueueOk() && n in Repr && n.index == index && (n.index == goal.index <==> n == goal)
      ensures Repr == old(Repr) || (fresh(n) && Repr == old(Repr) + {n})
      ensures index in graph && graph[index] == n
      ensures graph == old(graph) || (index !in old(graph) && fresh(n) && !n.visited && n.parent == null && graph == old(graph)[index := n])
      ensures n !in old(Repr) ==> !n.visited && n.parent == null
    {
      if index in graph {
        n := graph[index];
      } else {
        n := NewNode(index, ORIGIN);
        graph := graph[index := n];
      }
    }

    /** The graph nodes under the samples of a curve. */
    method Lookup(samples: seq<(int, Pose)>) returns (curve: seq<CurvePoint>)
      requires Valid() && GraphOk() && QueueOk()
      modifies this`Repr, this`graph
      ensures Valid() && GraphOk() && QueueOk() && old(Repr) <= Repr && fresh(Repr - old(Repr))
      ensures Sampled(curve) && Follows(curve, samples)
      ensures forall n :: n in Repr - old(Repr) ==> !n.visited && n.parent == null
    {
      hide Links;
      curve := [];
      for i := 0 to |samples|
        invariant Valid() && GraphOk() && QueueOk() && old(Repr) <= Repr && fresh(Repr - old(Repr))
        invariant Sampled(curve) && Follows(curve, samples[..i])
        invariant forall n :: n in Repr - old(Repr) ==> !n.visited && n.parent == null
      {
        var n := AddToGraph(samples[i].0);
        curve := curve + [CurvePoint(n, samples[i].1)];
      }
    }

    /** The samples of a curve are nodes of this search. */
    ghost predicate Sampled(curve: seq<CurvePoint>)
      reads this
    {
      forall i :: 0 <= i < |curve| ==> curve[i].node in Repr && (curve[i].node.index == goal.index <==> curve[i].node == goal)
    }

    /** The curve's points are its samples, in order. */
    ghost predicate Follows(curve: seq<CurvePoint>, samples: seq<(int, Pose)>) {
      |curve| == |samples| &&
      forall i :: 0 <= i < |curve| ==> curve[i].node.index == samples[i].0 && curve[i].pose == samples[i].1
    }

    /** Writes the trial poses into the nodes under the samples, saving what was there. */
    method TryPoses(curve: seq<CurvePoint>) returns (saved: seq<Pose>)
      requires Valid() && Sampled(curve)
      modifies Repr`pose
      ensures Valid() && |saved| == |curve|
      ensures forall n :: n in Repr ==> n.pose == During(curve, |curve|, n, old(n.pose))
      ensures forall i :: 0 <= i < |curve| ==> saved[i] == During(curve, i, curve[i].node, old(curve[i].node.pose))
    {
      hide Links, During;
      DuringSteps(curve);
      saved := [];
      for i := 0 to |curve|
        invariant Valid() && |saved| == i
        invariant forall n :: n in Repr ==> n.pose == During(curve, i, n, old(n.pose))
        invariant forall k :: 0 <= k < i ==> saved[k] == During(curve, k, curve[k].node, old(curve[k].node.pose))
      {
        saved := saved + [curve[i].node.pose];
        SetPose(curve[i].node, curve[i].pose);
      }
    }

    /** Tries a curve: every sample's pose is written into its node, then the saved poses are written back, first to last. */
    method Trial(curve: seq<CurvePoint>)
      requires Valid() && Sampled(curve)
      modifies Repr`pose
      ensures Valid() && forall n :: n in Repr ==> n.pose == Tried(curve, n, old(n.pose))
      ensures NoRepeats(curve) ==> forall n :: n in Repr ==> n.pose == old(n.pose)
    {
      var saved := TryPoses(curve);
      for i := 0 to |curve|
        invariant Valid()
        invariant forall n :: n in Repr ==> n.pose == WrittenBack(curve, i, n, old(n.pose), During(curve, |curve|, n, old(n.pose)))
      {
        hide Links, During;
        SetPose(curve[i].node, saved[i]);
      }
      RestoredExactly(curve);
    }

    /** Tries curves one after another; only poses may change. */
    method TryCurves(trials: seq<seq<(int, Pose)>>)
      requires Valid() && GraphOk() && QueueOk()
      modifies Repr`pose, this`Repr, this`graph
      ensures Valid() && GraphOk() && QueueOk() && old(Repr) <= Repr && fresh(Repr - old(Repr))
      ensures forall n :: n in Repr - old(Repr) ==> !n.visited && n.parent == null
    {
      hide Links;
      for i := 0 to |trials|
        invariant Valid() && GraphOk() && QueueOk() && old(Repr) <= Repr && fresh(Repr - old(Repr))
        invariant forall n :: n in Repr - old(Repr) ==> !n.visited && n.parent == null
      {
        var curve := Lookup(trials[i]);
        Trial(curve);
      }
    }

    /** An ancestor of a visited node, `hops` parents up or the start; it is visited as well. */
    method Ancestor(n: Node, hops: nat) returns (a: Node, ghost line: seq<Node>)
      requires Valid() && n in Repr && n.visited
      ensures a in Repr && a.visited
      ensures 1 <= |line| <= hops + 1 && line[0] == n && line[|line| - 1] == a && (|line| <= hops ==> a.parent == null)
      ensures forall k :: 0 <= k < |line| ==> line[k] in Repr && line[k].visited
      ensures forall k :: 0 <= k < |line| - 1 ==> line[k].parent == line[k + 1]
    {
      a, line := n, [n];
      var i := 0;
      while i < hops && a.parent != null
        invariant a in Repr && a.visited
        invariant |line| == i + 1 <= hops + 1 && line[0] == n && line[i] == a
        invariant forall k :: 0 <= k < |line| ==> line[k] in Repr && line[k].visited
        invariant forall k :: 0 <= k < i ==> line[k].parent == line[k + 1]
        decreases hops - i
      {
        assert LinkOk(Repr, start, clock, a);
        a, i := a.parent, i + 1;
        line := line + [a];
      }
    }

    /** Expanding `current` only adds nodes and queue entries, and hangs nothing on any other node. */
    twostate predicate Expanded(current: Node)
      reads this, Repr
    {
      && old(Repr) <= Repr && clock == old(clock) && |old(queue)| <= |queue|
      && (forall k :: 0 <= k < |old(queue)| ==> queue[k] == old(queue)[k])
      && (forall i :: i in old(graph) ==> i in graph && graph[i] == old(graph)[i])
      && (forall m :: m in old(Repr) ==> m.visited == old(m.visited) && (m.parent == old(m.parent) || m.parent == current))
      && (forall m :: m in old(Repr) && m.visited ==> m.parent == old(m.parent) && m.pose == old(m.pose))
      && (old(best) != null ==> best != null)
    }

    /** What a move did to its node: an improved unvisited one hangs on `current` and is queued. */
    ghost predicate Moved(current: Node, move: Move)
      reads this, Repr
    {
      move.index in graph &&
      var n := graph[move.index];
      n in Repr && n.index == move.index &&
      (!n.visited && move.improves ==> n.parent == current && n in queue && (move.closest ==> best != null))
    }

    /** The expansion of neighbours: unvisited ones take the move's pose, improved ones hang on `current`. */
    method Expand(current: Node, moves: seq<Move>)
      requires Valid() && GraphOk() && QueueOk() && current in Repr && current.visited
      modifies Repr, this`Repr, this`graph, this`queue, this`best
      ensures Valid() && GraphOk() && QueueOk() && fresh(Repr - old(Repr))
      ensures Expanded(current) && forall i :: 0 <= i < |moves| ==> Moved(current, moves[i])
      ensures forall n :: n in Repr - old(Repr) ==> !n.visited
    {
      hide Links, QueueOk;
      StartVisited(current);
      for i := 0 to |moves|
        invariant Valid() && GraphOk() && QueueOk() && fresh(Repr - old(Repr))
        invariant Expanded(current) && current in Repr && current.visited && start.visited
        invariant forall k :: 0 <= k < i ==> Moved(current, moves[k])
        invariant forall n :: n in Repr - old(Repr) ==> !n.visited
      {
        TryMove(current, moves[i]);
      }
    }

    method TryMove(current: Node, move: Move)
      requires Valid() && GraphOk() && QueueOk() && current in Repr && current.visited && start.visited
      modifies Repr, this`Repr, this`graph, this`queue, this`best
      ensures Valid() && GraphOk() && QueueOk() && fresh(Repr - old(Repr))
      ensures Expanded(current) && Moved(current, move) && current.visited && start.visited
      ensures forall n :: n in Repr - old(Repr) ==> !n.visited
      ensures !graph[move.index].visited ==> graph[move.index].pose == move.pose
      ensures !graph[move.index].visited && move.improves && move.closest ==> best == graph[move.index]
    {
      hide Links;
      var n := AddToGraph(move.index);
      if !n.visited {
        SetPose(n, move.pose);
        if move.improves {
          HangOn(current, n, move.closest);
        }
      }
    }

    /** An improved neighbour hangs on `current`, is queued, and may be the closest so far. */
    method HangOn(current: Node, n: Node, closest: bool)
      requires Valid() && QueueOk() && n in Repr && current in Repr && !n.visited && n != start && current.visited
      modifies n`parent, this`queue, this`best
      ensures Valid() && QueueOk() && n.parent == current
      ensures queue == old(queue) + [n] && best == if closest then n else old(best)
    {
      hide Links;
      SetParent(n, current);
      queue := queue + [n];
      if closest {
        best := n;
      }
    }

    /**
     Makes a curve from an ancestor of `current` the way to the goal, and traces it: goal, curve
     backwards, then what the ancestor's own trace was, unless the trial left a pose on it.
     */
    method Splice(current: Node, hops: nat, samples: seq<(int, Pose)>)
      returns (found: bool, path: seq<Pose>, ghost line: seq<Node>, ghost curve: seq<CurvePoint>)
      requires Valid() && GraphOk() && QueueOk() && current in Repr && current.visited && !goal.visited
      modifies Repr, this`Repr, this`graph, this`detached, this`clock
      ensures Valid() && old(Repr) <= Repr && fresh(Repr - old(Repr))
      ensures found && |path| >= 2 && path[|path| - 1] == start.pose && path == Trace(Repr, start, clock, goal)
      ensures Follows(curve, samples)
      ensures 1 <= |line| <= hops + 1 && line[0] == current && forall k :: 0 <= k < |line| ==> line[k] in old(Repr)
      ensures |line| <= hops ==> old(line[|line| - 1].parent) == null
      ensures forall k :: 0 <= k < |line| - 1 ==> old(line[k].parent) == line[k + 1]
      ensures NoRepeats(curve) ==>
                path == [old(goal.pose)] + (Placed(goal, curve) + old(Trace(Repr, start, clock, line[|line| - 1])))
    {
      hide Links, Trace, NoRepeats, GraphOk, QueueOk;
      var node;
      node, line := Ancestor(current, hops);
      var points := TryFrom(node, samples);
      curve := points;
      var r;
      ghost var cycle;
      r, cycle := SetAnalyticPath(node, points);
      Hangs(goal);
      found, path := BacktracePath(r);
      TraceLength(r);
    }

    /** Tries the last curve; without repeated nodes the trace of a visited node stays as it was. */
    method TryFrom(node: Node, samples: seq<(int, Pose)>) returns (curve: seq<CurvePoint>)
      requires Valid() && GraphOk() && QueueOk() && node in Repr && node.visited
      modifies Repr`pose, this`Repr, this`graph
      ensures Valid() && old(Repr) <= Repr && fresh(Repr - old(Repr))
      ensures Sampled(curve) && Follows(curve, samples)
      ensures NoRepeats(curve) ==>
                goal.pose == old(goal.pose) && Trace(Repr, start, clock, node) == old(Trace(Repr, start, clock, node))
    {
      hide Links, Trace, NoRepeats;
      StartInGraph();
      curve := Lookup(samples);
      Trial(curve);
      if NoRepeats(curve) {
        TraceUnchanged(old(Repr), Repr, start, old(clock), clock, node);
      }
    }

    /** A node whose trace goes on has a parent. */
    lemma Hangs(n: Node)
      requires Valid() && n in Repr && |Trace(Repr, start, clock, n)| >= 2
      ensures n.parent != null
    {
    }

    /**
     One turn of the search loop: visit a queued node, try the curve, test for the goal, expand. From the
     goal itself no curve is found, because its length is below the least one; so the goal test comes first.
     */
    method Turn(choice: Choice) returns (done: bool, found: bool, path: seq<Pose>, ghost current: Node)
      requires Valid() && GraphOk() && QueueOk() && queue != [] && !goal.visited
      modifies Repr, this`Repr, this`graph, this`queue, this`best, this`detached, this`clock
      ensures old(Repr) <= Repr && fresh(Repr - old(Repr))
      ensures Valid() && (!done ==> GraphOk() && QueueOk() && !goal.visited && !found)
      ensures found ==> |path| >= 2 && path[|path| - 1] == start.pose && IsBacktrace(path)
      ensures current == old(queue)[choice.pop % |old(queue)|] && current in old(Repr)
      ensures old(current.visited) ==> !done
      ensures !old(current.visited) ==>
                && (current == goal ==> done && (found <==> goal != start))
                && (current != goal && choice.splice ==> done && found && path == Trace(Repr, start, clock, goal))
                && (current != goal && !choice.splice && choice.settle && old(best) != null ==>
                      done && found && best == old(best) && path == Trace(Repr, start, clock, best))
                && (!done ==> forall i :: 0 <= i < |choice.moves| ==> Moved(current, choice.moves[i]))
      ensures done && !found ==> current == goal == start && best == null
      ensures !done && old(best) != null ==> best != null
      ensures !found ==> VisitsOnly(current)
    {
      hide Links, Trace;
      done, found, path := false, false, [];
      var k := choice.pop % |queue|;
      var next := queue[k];
      current := next;
      Unstarted();
      PopKept(k);
      queue := queue[..k] + queue[k + 1..];
      if next.visited {
        return;
      }
      Visit(next);
      if next == goal {
        found, path := BacktracePath(goal);
        if found { TraceLength(goal); }
        return true, found, path, next;
      }
      assert VisitsOnly(next);
      done, found, path := Proceed(next, choice);
    }

    /** The rest of a turn, for a newly visited node other than the goal. */
    method Proceed(current: Node, choice: Choice) returns (done: bool, found: bool, path: seq<Pose>)
      requires Valid() && GraphOk() && QueueOk() && current in Repr && current.visited && !goal.visited
      modifies Repr, this`Repr, this`graph, this`queue, this`best, this`detached, this`clock
      ensures old(Repr) <= Repr && fresh(Repr - old(Repr)) && Valid()
      ensures !done ==> GraphOk() && QueueOk() && !goal.visited && !found && (old(best) != null ==> best != null)
      ensures done ==> found && |path| >= 2 && path[|path| - 1] == start.pose
      ensures done ==> IsBacktrace(path)
      ensures choice.splice ==> done && path == Trace(Repr, start, clock, goal)
      ensures !choice.splice && choice.settle && old(best) != null ==>
                done && best == old(best) && path == Trace(Repr, start, clock, best)
      ensures !done ==> forall i :: 0 <= i < |choice.moves| ==> Moved(current, choice.moves[i])
      ensures !done ==> forall n :: n in Repr ==> (n.visited <==> n in old(Repr) && old(n.visited))
    {
      hide Links, Trace, QueueOk, GraphOk;
      done, found, path := false, false, [];
      TryCurves(choice.trials);
      if choice.splice {
        ghost var line, curve;
        found, path, line, curve := Splice(current, choice.hops, choice.samples);
        return true, found, path;
      }
      if choice.settle && best != null {
        BestHangs();
        found, path := BacktracePath(best);
        TraceLength(best);
        return true, found, path;
      }
      Expand(current, choice.moves);
    }

    lemma BestHangs()
      requires QueueOk() && best != null
      ensures best in Repr && best.parent != null
    {
    }

    /** Nothing but `n` was visited. */
    twostate predicate VisitsOnly(n: Node)
      reads this, Repr
    {
      forall m :: m in Repr ==> (m.visited <==> m == n || (m in old(Repr) && old(m.visited)))
    }

    /** An entry is dropped from the queue; every other entry stays. */
    lemma PopKept(k: nat)
      requires k < |queue|
      ensures forall n :: n in queue && n != queue[k] ==> n in queue[..k] + queue[k + 1..]
    {
      forall n | n in queue && n != queue[k]
        ensures n in queue[..k] + queue[k + 1..]
      {
        var j :| 0 <= j < |queue| && queue[j] == n;
        var rest := queue[..k] + queue[k + 1..];
        assert if j < k then rest[j] == n else rest[j - 1] == n;
      }
    }

    /** The path is the trace of the goal, or of the node that came closest to it. */
    ghost predicate IsBacktrace(path: seq<Pose>)
      requires Valid()
      reads this, Repr
    {
      path == Trace(Repr, start, clock, goal) || (best != null && best in Repr && path == Trace(Repr, start, clock, best))
    }

    lemma TraceLength(n: Node)
      requires Valid() && n in Repr && n.parent != null
      ensures |Trace(Repr, start, clock, n)| >= 2
    {
      TraceStep(Repr, start, clock, n);
    }

    /** Before the start is visited no node has a parent, and only the start hangs on nothing afterwards. */
    lemma Unstarted()
      requires Valid()
      ensures !start.visited ==> forall n :: n in Repr ==> n.parent == null
      ensures forall n :: n in Repr && n.parent != null ==> n != start
      ensures clock == 0 ==> forall n :: n in Repr ==> !n.visited && n.parent == null
    {
      forall n | n in Repr
        ensures n.parent != null ==> n != start && start.visited && clock > 0
        ensures n.visited ==> clock > 0
      {
        assert LinkOk(Repr, start, clock, n);
        assert n.parent != null ==> LinkOk(Repr, start, clock, n.parent);
      }
    }

    /** The node of turn `i` was popped for the first time. */
    ghost predicate FirstPop(log: seq<Node>, i: nat)
      requires i < |log|
    {
      forall j :: 0 <= j < i ==> log[j] != log[i]
    }

    lemma FirstPops(log: seq<Node>, current: Node)
      ensures forall k :: 0 <= k < |log| ==> (FirstPop(log + [current], k) <==> FirstPop(log, k))
      ensures FirstPop(log + [current], |log|) <==> current !in log
    {
      var more := log + [current];
      assert forall k :: 0 <= k < |log| ==> more[k] == log[k];
      if FirstPop(more, |log|) {
        assert forall k :: 0 <= k < |log| ==> more[k] != current;
      }
    }

    /**
     A whole search: whatever is popped, improved or spliced in, parents stay acyclic, every
     backtrace ends, and a returned path leads back to the start. `log` lists the nodes popped. Without
     a path no curve was spliced in, the goal was not popped, nothing came close, and either all turns
     were made or nothing was left to pop.
     */
    method CreatePath(choices: seq<Choice>) returns (found: bool, path: seq<Pose>, ghost log: seq<Node>)
      requires Valid() && GraphOk() && queue == [] && best == null && clock == 0 && !goal.visited
      modifies Repr, this`Repr, this`graph, this`queue, this`best, this`detached, this`clock
      ensures Valid()
      ensures found ==> |path| >= 2 && path[|path| - 1] == start.pose && IsBacktrace(path)
      ensures |log| <= |choices| && (choices != [] ==> log != [] && log[0] == start)
      ensures !found ==>
                && best == null
                && (forall i :: 0 <= i < |log| ==> log[i] == goal ==> goal == start)
                && (forall i :: 0 <= i < |log| && FirstPop(log, i) && log[i] != goal ==> !choices[i].splice)
                && (forall n :: n in Repr ==> (n.visited <==> n in log))
                && (|log| < |choices| && goal != start ==>
                      forall n :: n in Repr && (n == start || n.parent != null) ==> n.visited)
    {
      hide Links, Trace, FirstPop;
      StartInGraph();
      Unstarted();
      queue := [start];
      log := [];
      for i := 0 to |choices|
        invariant Valid() && GraphOk() && QueueOk() && !goal.visited && fresh(Repr - old(Repr))
        invariant |log| == i && (if log == [] then queue == [start] else log[0] == start)
        invariant goal !in log && forall n :: n in Repr ==> (n.visited <==> n in log)
        invariant forall k :: 0 <= k < i && FirstPop(log, k) ==> !choices[k].splice
      {
        if queue == [] {
          break;
        }
        var done;
        ghost var current;
        done, found, path, current := Turn(choices[i]);
        FirstPops(log, current);
        log := log + [current];
        if done {
          return;
        }
      }
      found, path := false, [];
      if best != null {
        found, path := BacktracePath(best);
        TraceLength(best);
      }
    }
  }
}
