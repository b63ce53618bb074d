/**
 The A* search over the cells of a 2D costmap. Nodes are created lazily in a graph keyed by cell
 index, may be queued several times and are visited at most once. The heuristic aims at the
 continuous goal coordinates, so it need not vanish on the goal cell.
 */
module AStar2D {
  import opened Options
  import opened BestFirstSearch
  import opened Grid
  import opened Numbers

  const INSCRIBED: nat := 253
  const UNKNOWN: nat := 255
  const INT_LIMIT: int := 0x8000_0000
  const UINT_LIMIT: int := 0x1_0000_0000


  /** `cost` is None for the initial maximum; `cellCost` is None until the cell was checked. */
  datatype Node2D = Node2D(parent: Option<int>, cost: Option<real>, visited: bool, cellCost: Option<nat>, inCollision: bool)

  const FRESH: Node2D := Node2D(None, None, false, None, false)

  /** A cost is one unsigned byte. */
  type CellValue = c: nat | c < 256

  datatype Costmap = Costmap(width: nat, height: nat, cells: seq<CellValue>, traverseUnknown: bool, multiplier: real) {
    ghost predicate Valid() {
      0 < width < INT_LIMIT && 0 < height < UINT_LIMIT && |cells| == width * height && multiplier >= 0.0
    }

    predicate Collides(i: int)
      requires 0 <= i < |cells|
    {
      !(cells[i] == UNKNOWN && traverseUnknown) && cells[i] >= INSCRIBED
    }
  }

  predicate Near(u: int, v: int, width: nat)
    requires width > 0
  {
    -1 <= X(u, width) - X(v, width) <= 1 && -1 <= Y(u, width) - Y(v, width) <= 1
  }

  function TraversalCost(sqrt: real -> real, u: int, v: int, width: nat, multiplier: real, cellCost: nat): real
    requires width > 0
  {
    StepLength(sqrt, u, v, width) * (1.0 + multiplier * (cellCost as real / 252.0))
  }

  /** The reference graph: one step to any 8-adjacent collision-free cell. */
  ghost function MapGraph(m: Costmap, sqrt: real -> real, start: int): Graph
    requires m.Valid()
  {
    Graph(start, 0.0,
          (u: int, v: int) => 0 <= u < |m.cells| && 0 <= v < |m.cells| && Adjacent(u, v, m.width) && !m.Collides(v),
          (u: int, v: int) => if 0 <= v < |m.cells| then TraversalCost(sqrt, u, v, m.width, m.multiplier, m.cells[v]) else 0.0)
  }

  /** On the costs themselves: a cell is barred at 253 or 254, and at 255 unless unknown space may be traversed. */
  predicate Barred(m: Costmap, i: int)
    requires 0 <= i < |m.cells|
  {
    m.cells[i] == 253 || m.cells[i] == 254 || (m.cells[i] == 255 && !m.traverseUnknown)
  }

  lemma CollidesMeansBarred(m: Costmap, i: int)
    requires 0 <= i < |m.cells|
    ensures m.Collides(i) <==> Barred(m, i)
  {
  }

  /** The reference graph on the map itself: which steps there are, and what they cost. */
  lemma GraphOnMap(m: Costmap, sqrt: real -> real, start: int, u: int, v: int)
    requires m.Valid() && 0 <= u < |m.cells| && 0 <= v < |m.cells|
    ensures var G, w := MapGraph(m, sqrt, start), m.width;
            && G.source == start && G.seed == 0.0
            && (G.edge(u, v) <==> u != v && -1 <= X(u, w) - X(v, w) <= 1 && -1 <= Y(u, w) - Y(v, w) <= 1 && !Barred(m, v))
            && G.weight(u, v) ==
               (if X(u, w) == X(v, w) || Y(u, w) == Y(v, w) then 1.0 else sqrt(2.0)) * (1.0 + m.multiplier * (m.cells[v] as real / 252.0))
  {
    CollidesMeansBarred(m, v);
    hide X, Y, Costmap.Collides, Barred;
  }

  /** A chain of 8-adjacent cells of the map, none of them barred but possibly the last. */
  ghost predicate Drivable(m: Costmap, path: seq<int>)
    requires m.Valid()
  {
    && (forall i :: 0 <= i < |path| ==> 0 <= path[i] < |m.cells|)
    && (forall i: nat :: i < |path| - 1 ==> !Barred(m, path[i]))
    && (forall i: nat :: i < |path| - 1 ==> StepFrom(m, path, i))
  }

  predicate StepFrom(m: Costmap, path: seq<int>, i: nat)
    requires m.width > 0 && i + 1 < |path|
  {
    StepOn(m, path[i], path[i + 1])
  }

  /** Two different cells that touch by a side or a corner. */
  predicate StepOn(m: Costmap, u: int, v: int)
    requires m.width > 0
  {
    u != v && -1 <= X(u, m.width) - X(v, m.width) <= 1 && -1 <= Y(u, m.width) - Y(v, m.width) <= 1
  }

  ghost function GoalDistance(m: Costmap, sqrt: real -> real, goalX: real, goalY: real): int -> real
    requires m.Valid()
  {
    (cell: int) => Distance(sqrt, cell, m.width, goalX, goalY)
  }

  ghost predicate UnitSteps(G: Graph) {
    forall u, v :: G.edge(u, v) ==> G.weight(u, v) >= 1.0
  }

  lemma ScaledStep(l: real, multiplier: real, c: real)
    requires l >= 1.0 && multiplier >= 0.0 && c >= 0.0
    ensures l * (1.0 + multiplier * c) >= l
  {
    assert multiplier * c >= 0.0;
    assert l * (multiplier * c) >= 0.0;
  }

  /** The distance to the continuous goal coordinates is consistent, wherever they lie. */
  lemma GoalDistanceConsistent(m: Costmap, sqrt: real -> real, start: int, goalX: real, goalY: real)
    requires m.Valid() && IsSqrt(sqrt)
    ensures Consistent(MapGraph(m, sqrt, start), GoalDistance(m, sqrt, goalX, goalY))
    ensures UnitSteps(MapGraph(m, sqrt, start)) && NonNegative(MapGraph(m, sqrt, start))
  {
    var G, h := MapGraph(m, sqrt, start), GoalDistance(m, sqrt, goalX, goalY);
    forall u, v | G.edge(u, v)
      ensures h(u) <= G.weight(u, v) + h(v) && G.weight(u, v) >= 1.0
    {
      StepChangesDistance(sqrt, u, v, m.width, goalX, goalY);
      ScaledStep(StepLength(sqrt, u, v, m.width), m.multiplier, m.cells[v] as real / 252.0);
    }
  }

  // ---- neighbour offsets

  function Offset(k: nat, w: int): int
    requires k < 8
  {
    [-1, 1, -w, w, -w - 1, -w + 1, w - 1, w + 1][k]
  }

  function OffsetTo(dx: int, dy: int): (k: nat)
    requires -1 <= dx <= 1 && -1 <= dy <= 1 && (dx != 0 || dy != 0)
    ensures k < 8
  {
    if dy == 0 then (if dx < 0 then 0 else 1)
    else if dx == 0 then (if dy < 0 then 2 else 3)
    else if dy < 0 then (if dx < 0 then 4 else 5)
    else (if dx < 0 then 6 else 7)
  }

  lemma OffsetToIsStep(dx: int, dy: int, w: int)
    requires -1 <= dx <= 1 && -1 <= dy <= 1 && (dx != 0 || dy != 0)
    ensures Offset(OffsetTo(dx, dy), w) == dy * w + dx
  {
  }

  lemma AreaBelow(w: int, h: int)
    requires 0 < w < INT_LIMIT && 0 < h < UINT_LIMIT
    ensures w * h < UINT64
  {
    MulLe(h, UINT_LIMIT, w);
  }

  /** Every 8-adjacent cell is the target of one offset, under 64-bit unsigned index arithmetic. */
  lemma OffsetsCoverNeighbours(m: Costmap, u: int, v: int) returns (k: nat)
    requires m.Valid() && 0 <= u < |m.cells| && 0 <= v < |m.cells| && Adjacent(u, v, m.width)
    ensures k < 8 && Wrap64(u + Offset(k, m.width)) == v
  {
    var w: int := m.width;
    var dx, dy := X(v, w) - X(u, w), Y(v, w) - Y(u, w);
    assert dx != 0 || dy != 0 by {
      if dx == 0 && dy == 0 {
        SameCell(u, v, w);
      }
    }
    hide X, Y;
    k := OffsetTo(dx, dy);
    OffsetToIsStep(dx, dy, w);
    StepBetween(u, v, w);
    AreaBelow(w, m.height);
  }

  // ---- the node graph

  type NodeGraph = map<int, Node2D>

  ghost function Costs(graph: NodeGraph): map<int, real> {
    map i | i in graph && graph[i].cost.Some? :: graph[i].cost.value
  }

  ghost function Visited(graph: NodeGraph): set<int> {
    set i | i in graph && graph[i].visited
  }

  ghost predicate LinkOk(G: Graph, graph: NodeGraph, v: int)
    requires v in graph
  {
    var n := graph[v];
    && (n.visited ==> n.cost.Some?)
    && (n.cost.Some? ==> n.cost.value >= 0.0)
    && (n.parent.Some? <==> n.cost.Some? && v != G.source)
    && (n.parent.Some? ==>
          var u := n.parent.value;
          u in graph && graph[u].visited && graph[u].cost.Some? && G.edge(u, v) &&
          n.cost.value == graph[u].cost.value + G.weight(u, v))
  }

  /** Parents are visited neighbours, and a node's cost is its parent's plus the step between them. */
  ghost predicate LinksOk(G: Graph, graph: NodeGraph) {
    forall v :: v in graph ==> LinkOk(G, graph, v)
  }

  ghost predicate CacheOk(m: Costmap, graph: NodeGraph) {
    forall v :: v in graph ==>
      0 <= v < |m.cells| &&
      (graph[v].cellCost.Some? ==> graph[v].cellCost.value == m.cells[v] && graph[v].inCollision == m.Collides(v))
  }

  /** The cells from the start to `v` along parent links. */
  ghost function Chain(G: Graph, graph: NodeGraph, v: int): (c: seq<int>)
    requires LinksOk(G, graph) && UnitSteps(G) && v in graph && graph[v].cost.Some?
    decreases graph[v].cost.value.Floor
  {
    assert LinkOk(G, graph, v);
    if graph[v].parent.None? then [v] else
      var u := graph[v].parent.value;
      assert LinkOk(G, graph, u) && G.weight(u, v) >= 1.0;
      Chain(G, graph, u) + [v]
  }

  /** One step back along the chain. */
  lemma ChainStep(G: Graph, graph: NodeGraph, v: int)
    requires LinksOk(G, graph) && UnitSteps(G) && v in graph && graph[v].parent.Some?
    ensures graph[v].cost.Some?
    ensures var u := graph[v].parent.value;
            && u in graph && graph[u].cost.Some? && 0 <= graph[u].cost.value.Floor < graph[v].cost.value.Floor
            && Reverse(Chain(G, graph, v)) == [v] + Reverse(Chain(G, graph, u))
  {
    assert LinkOk(G, graph, v);
    var u := graph[v].parent.value;
    assert LinkOk(G, graph, u) && G.weight(u, v) >= 1.0;
    var c := Chain(G, graph, v);
    assert c[..|c| - 1] == Chain(G, graph, u) && c[|c| - 1] == v;
  }

  lemma ChainEnd(G: Graph, graph: NodeGraph, v: int)
    requires LinksOk(G, graph) && UnitSteps(G) && v in graph && graph[v].cost.Some? && graph[v].parent.None?
    ensures Reverse(Chain(G, graph, v)) == [v]
  {
    assert Reverse([v]) == [v];
  }

  /** Following parents from any node with a cost ends at the start, and the cost is that of the path. */
  lemma {:induction false} ChainIsPath(G: Graph, graph: NodeGraph, v: int)
    requires LinksOk(G, graph) && UnitSteps(G) && v in graph && graph[v].cost.Some?
    requires G.source in graph && graph[G.source].cost == Some(G.seed)
    ensures PathTo(G, Chain(G, graph, v), v) && Cost(G, Chain(G, graph, v)) == graph[v].cost.value
    decreases graph[v].cost.value.Floor
  {
    assert LinkOk(G, graph, v);
    if graph[v].parent.Some? {
      var u := graph[v].parent.value;
      assert LinkOk(G, graph, u) && G.weight(u, v) >= 1.0;
      ChainIsPath(G, graph, u);
      Extend(G, Chain(G, graph, u), v);
    }
  }

  function Reverse(s: seq<int>): (r: seq<int>)
    ensures |r| == |s|
  {
    if s == [] then [] else [s[|s| - 1]] + Reverse(s[..|s| - 1])
  }

  lemma {:induction false} ReverseAppend(s: seq<int>, x: int)
    ensures Reverse([x] + s) == Reverse(s) + [x]
  {
    if s != [] {
      var t := [x] + s;
      assert t[..|t| - 1] == [x] + s[..|s| - 1];
      ReverseAppend(s[..|s| - 1], x);
    }
  }

  lemma {:induction false} ReverseTwice(s: seq<int>)
    ensures Reverse(Reverse(s)) == s
  {
    if s != [] {
      ReverseAppend(Reverse(s[..|s| - 1]), s[|s| - 1]);
      ReverseTwice(s[..|s| - 1]);
    }
  }

  lemma {:induction false} ReverseAt(s: seq<int>, i: nat)
    requires i < |s|
    ensures Reverse(s)[i] == s[|s| - 1 - i]
  {
    if i > 0 {
      ReverseAt(s[..|s| - 1], i - 1);
    }
  }

  /** A backtraced path is drivable, from the node back to the start. */
  lemma BacktraceIsDrivable(m: Costmap, sqrt: real -> real, start: int, path: seq<int>, v: int, cost: real)
    requires m.Valid() && 0 <= start < |m.cells| && Backtraces(MapGraph(m, sqrt, start), path, v, cost)
    ensures Drivable(m, path) && path != [] && path[0] == v && path[|path| - 1] == start
  {
    var G, p, n := MapGraph(m, sqrt, start), Reverse(path), |path|;
    PathByEdges(G, p);
    assert n > 0 && p[0] == start && p[n - 1] == v;
    ReverseAt(path, 0);
    ReverseAt(path, n - 1);
    forall i: nat | i < n - 1
      ensures StepFrom(m, path, i) && 0 <= path[i] < |m.cells| && !Barred(m, path[i])
    {
      EdgeBack(G, path, i);
      EdgeOnMap(m, sqrt, start, path[i + 1], path[i]);
    }
    hide X, Y, Barred, MapGraph, IsPath, Cost, Reverse;
  }

  lemma EdgeBack(G: Graph, path: seq<int>, i: nat)
    requires i < |path| - 1 && IsPath(G, Reverse(path))
    ensures G.edge(path[i + 1], path[i])
  {
    var k := |path| - 2 - i;
    ReverseAt(path, k);
    ReverseAt(path, k + 1);
    PathByEdges(G, Reverse(path));
    assert G.edge(Reverse(path)[k], Reverse(path)[k + 1]);
  }

  lemma EdgeOnMap(m: Costmap, sqrt: real -> real, start: int, u: int, v: int)
    requires m.Valid() && MapGraph(m, sqrt, start).edge(u, v)
    ensures 0 <= u < |m.cells| && 0 <= v < |m.cells| && !Barred(m, v) && StepOn(m, v, u)
  {
    CollidesMeansBarred(m, v);
    hide X, Y;
  }

  /** `path` lists the cells of a start-to-`v` path of the given cost, from `v` back to the start. */
  ghost predicate Backtraces(G: Graph, path: seq<int>, v: int, cost: real) {
    PathTo(G, Reverse(path), v) && Cost(G, Reverse(path)) == cost
  }

  // ---- the search

  datatype Outcome =
    | InvalidInputs
    | GoalOccupied
    | Cancelled
    | TimedOut
    | AtGoal(found: bool)
    | InTolerance(node: int, found: bool)
    | Unreachable
    | IterationLimit

  /** Iteration limits, how often the environment is consulted, and what it says in a turn. */
  datatype Limits = Limits(maxIterations: int, maxOnApproach: int, interval: Interval, cancelled: nat -> bool, timeUp: nat -> bool)

  type Interval = n: nat | n > 0 witness 1

  ghost predicate BestOk(m: Costmap, sqrt: real -> real, goalX: real, goalY: real, graph: NodeGraph, start: int, best: Option<(real, int)>)
    requires m.Valid()
  {
    && (best.Some? ==>
          var (d, v) := best.value;
          v in graph && graph[v].cost.Some? && v != start && d == Distance(sqrt, v, m.width, goalX, goalY))
    && NoneCloser(m, sqrt, goalX, goalY, Costs(graph), start, best)
  }

  /** No node reached, apart from the start, is closer to the goal coordinates than the one remembered. */
  ghost predicate NoneCloser(m: Costmap, sqrt: real -> real, goalX: real, goalY: real, g: map<int, real>, start: int, best: Option<(real, int)>)
    requires m.Valid()
  {
    forall v :: v in g && v != start ==> best.Some? && best.value.0 <= Distance(sqrt, v, m.width, goalX, goalY)
  }

  /** Every node reached, apart from the start, is at least the tolerance away from the goal coordinates. */
  ghost predicate NoneWithin(m: Costmap, sqrt: real -> real, goalX: real, goalY: real, g: map<int, real>, start: int, tolerance: real)
    requires m.Valid()
  {
    forall v :: v in g && v != start ==> Distance(sqrt, v, m.width, goalX, goalY) >= tolerance
  }

  ghost predicate QueueOk(graph: NodeGraph, queue: seq<Entry>, h: int -> real, start: int) {
    start in graph && graph[start].cost == Some(0.0) &&
    if graph[start].visited then Prioritised(Costs(graph), Visited(graph), queue, h)
    else Costs(graph) == map[start := 0.0] && Visited(graph) == {} && queue == [Entry(0.0, start)]
  }

  ghost predicate SearchOk(G: Graph, h: int -> real, m: Costmap, graph: NodeGraph, queue: seq<Entry>) {
    && m.Valid() && LinksOk(G, graph) && CacheOk(m, graph)
    && Settled(G, Costs(graph), Visited(graph))
    && QueueOk(graph, queue, h, G.source)
  }

  /** The popped node, if not yet visited, has its exact cost. */
  lemma NextIsExact(G: Graph, h: int -> real, m: Costmap, graph: NodeGraph, queue: seq<Entry>, k: nat)
    requires SearchOk(G, h, m, graph, queue) && Consistent(G, h)
    requires k < |queue| && forall j :: 0 <= j < |queue| ==> queue[k].priority <= queue[j].priority
    ensures queue[k].cell in graph && graph[queue[k].cell].cost.Some?
    ensures !graph[queue[k].cell].visited ==> Exact(G, queue[k].cell, graph[queue[k].cell].cost.value)
  {
    var v := queue[k].cell;
    if graph[G.source].visited {
      assert v in Costs(graph);
      if !graph[v].visited {
        FrontIsExact(G, Costs(graph), Visited(graph), queue, h, k);
      }
    } else {
      CheapestOpenIsExact(G, Costs(graph), Visited(graph), h, v);
    }
  }

  /** Marking the popped node as visited. */
  lemma VisitKeepsQueue(graph: NodeGraph, queue: seq<Entry>, h: int -> real, start: int, k: nat, graph': NodeGraph)
    requires QueueOk(graph, queue, h, start) && k < |queue|
    requires var v := queue[k].cell; v in graph && graph' == graph[v := graph[v].(visited := true)]
    ensures graph'[start].visited && Costs(graph') == Costs(graph) && Visited(graph') == Visited(graph) + {queue[k].cell}
    ensures Prioritised(Costs(graph'), Visited(graph'), queue[..k] + queue[k + 1..], h)
  {
    assert Costs(graph') == Costs(graph) && Visited(graph') == Visited(graph) + {queue[k].cell};
    if graph[start].visited {
      PopKeepsPriorities(Costs(graph), Visited(graph), queue, h, k);
    }
  }

  // ---- graph updates that leave costs and visits alone

  ghost predicate SameSearch(G: Graph, m: Costmap, before: NodeGraph, after: NodeGraph) {
    && before.Keys <= after.Keys
    && Costs(after) == Costs(before) && Visited(after) == Visited(before)
    && LinksOk(G, after) && CacheOk(m, after)
    && forall v :: v in before ==> after[v].parent == before[v].parent && after[v].cost == before[v].cost && after[v].visited == before[v].visited
  }

  lemma AddNode(G: Graph, m: Costmap, graph: NodeGraph, v: int)
    requires LinksOk(G, graph) && CacheOk(m, graph) && v !in graph && 0 <= v < |m.cells|
    ensures SameSearch(G, m, graph, graph[v := FRESH])
  {
    var after := graph[v := FRESH];
    forall y | y in after
      ensures LinkOk(G, after, y)
    {
      if y != v {
        assert LinkOk(G, graph, y);
      }
    }
  }

  lemma CheckNode(G: Graph, m: Costmap, graph: NodeGraph, v: int)
    requires LinksOk(G, graph) && CacheOk(m, graph) && v in graph
    ensures SameSearch(G, m, graph, graph[v := graph[v].(cellCost := Some(m.cells[v]), inCollision := m.Collides(v))])
  {
    var after := graph[v := graph[v].(cellCost := Some(m.cells[v]), inCollision := m.Collides(v))];
    forall y | y in after
      ensures LinkOk(G, after, y)
    {
      assert LinkOk(G, graph, y);
    }
  }

  /** Giving an unvisited node a visited parent keeps every link. */
  lemma Reparent(G: Graph, m: Costmap, graph: NodeGraph, u: int, v: int, c: real)
    requires LinksOk(G, graph) && CacheOk(m, graph) && u in graph && v in graph && v != G.source
    requires graph[u].visited && graph[u].cost.Some? && !graph[v].visited && G.edge(u, v)
    requires c == graph[u].cost.value + G.weight(u, v) >= 0.0
    ensures var after := graph[v := graph[v].(cost := Some(c), parent := Some(u))];
            LinksOk(G, after) && CacheOk(m, after) && Costs(after) == Costs(graph)[v := c] && Visited(after) == Visited(graph)
  {
    var after := graph[v := graph[v].(cost := Some(c), parent := Some(u))];
    forall y | y in after
      ensures LinkOk(G, after, y)
    {
      assert LinkOk(G, graph, y);
    }
  }

  lemma VisitKeepsLinks(G: Graph, m: Costmap, graph: NodeGraph, v: int)
    requires LinksOk(G, graph) && CacheOk(m, graph) && v in graph && graph[v].cost.Some?
    ensures LinksOk(G, graph[v := graph[v].(visited := true)]) && CacheOk(m, graph[v := graph[v].(visited := true)])
  {
    var after := graph[v := graph[v].(visited := true)];
    forall y | y in after
      ensures LinkOk(G, after, y)
    {
      assert LinkOk(G, graph, y);
    }
  }

  ghost predicate IsNeighbour(G: Graph, graph: NodeGraph, idx: int, y: int) {
    y in graph && !graph[y].visited && graph[y].cellCost.Some? && G.edge(idx, y)
  }

  ghost predicate OffsetListed(m: Costmap, G: Graph, graph: NodeGraph, idx: int, ns: seq<int>, k: nat)
    requires k < 8
  {
    var y := Wrap64(idx + Offset(k, m.width));
    G.edge(idx, y) && y !in Visited(graph) ==> y in ns
  }

  class Search2D {
    const costmap: Costmap
    const sqrt: real -> real
    var graph: NodeGraph
    var queue: seq<Entry>
    var start: Option<int>
    var goal: Option<int>
    var goalX: real
    var goalY: real
    var best: Option<(real, int)>

    ghost predicate Ready()
      reads this
    {
      && costmap.Valid() && IsSqrt(sqrt)
      && (start.Some? ==> start.value in graph) && (goal.Some? ==> goal.value in graph)
      && forall v :: v in graph ==> 0 <= v < |costmap.cells|
    }

    ghost predicate Fresh()
      reads this
    {
      forall v :: v in graph ==> graph[v] == FRESH
    }

    constructor (costmap: Costmap, sqrt: real -> real)
      requires costmap.Valid() && IsSqrt(sqrt)
      ensures Ready() && Fresh() && start == None && goal == None && this.costmap == costmap && this.sqrt == sqrt
    {
      this.costmap, this.sqrt := costmap, sqrt;
      graph, queue, start, goal, goalX, goalY, best := map[], [], None, None, 0.0, 0.0, None;
    }

    method AddToGraph(index: int)
      modifies this`graph
      ensures graph == if index in old(graph) then old(graph) else old(graph)[index := FRESH]
    {
      if index !in graph {
        graph := graph[index := FRESH];
      }
    }

    /** Names the cell of the start; a third dimension is an error. */
    method SetStart(mx: real, my: real, dim3: nat) returns (ok: bool)
      requires Ready() && Fresh() && 0.0 <= mx < costmap.width as real && 0.0 <= my < costmap.height as real
      modifies this`graph, this`start
      ensures Ready() && Fresh() && (ok <==> dim3 == 0)
      ensures start == if ok then Some(my.Floor * costmap.width + mx.Floor) else old(start)
      ensures !ok ==> graph == old(graph)
    {
      if dim3 != 0 {
        return false;
      }
      RowMajor(mx.Floor, my.Floor, costmap.width, costmap.height);
      AddToGraph(my.Floor * costmap.width + mx.Floor);
      start := Some(my.Floor * costmap.width + mx.Floor);
      return true;
    }

    /** Names the cell of the goal and keeps its continuous coordinates for the heuristic. */
    method SetGoal(mx: real, my: real, dim3: nat) returns (ok: bool)
      requires Ready() && Fresh() && 0.0 <= mx < costmap.width as real && 0.0 <= my < costmap.height as real
      modifies this`graph, this`goal, this`goalX, this`goalY
      ensures Ready() && Fresh() && (ok <==> dim3 == 0)
      ensures ok ==> goal == Some(my.Floor * costmap.width + mx.Floor) && goalX == mx && goalY == my
      ensures !ok ==> graph == old(graph) && goal == old(goal) && goalX == old(goalX) && goalY == old(goalY)
    {
      if dim3 != 0 {
        return false;
      }
      RowMajor(mx.Floor, my.Floor, costmap.width, costmap.height);
      AddToGraph(my.Floor * costmap.width + mx.Floor);
      goal := Some(my.Floor * costmap.width + mx.Floor);
      goalX, goalY := mx, my;
      return true;
    }

    /** Checks a cell once and remembers its cost and collision state. */
    method IsNodeValid(v: int, ghost G: Graph) returns (valid: bool)
      requires costmap.Valid() && LinksOk(G, graph) && CacheOk(costmap, graph) && v in graph
      modifies this`graph
      ensures SameSearch(G, costmap, old(graph), graph) && graph[v].cellCost.Some?
      ensures valid <==> !costmap.Collides(v)
      ensures forall y :: y in old(graph) && y != v ==> graph[y] == old(graph)[y]
      ensures graph.Keys == old(graph).Keys
    {
      if graph[v].cellCost.None? {
        CheckNode(G, costmap, graph, v);
        graph := graph[v := graph[v].(cellCost := Some(costmap.cells[v]), inCollision := costmap.Collides(v))];
      }
      valid := !graph[v].inCollision;
    }

    /** One offset: wrap-around and bounds checks, lazy creation, then the validity check. */
    method TakeNeighbor(idx: int, index: int, ghost G: Graph) returns (take: bool)
      requires costmap.Valid() && LinksOk(G, graph) && CacheOk(costmap, graph)
      requires idx in graph && graph[idx].visited && index >= 0
      requires G.edge == MapGraph(costmap, sqrt, G.source).edge
      modifies this`graph
      ensures SameSearch(G, costmap, old(graph), graph)
      ensures forall y :: IsNeighbour(G, old(graph), idx, y) ==> IsNeighbour(G, graph, idx, y)
      ensures take ==> IsNeighbour(G, graph, idx, index)
      ensures !take && G.edge(idx, index) ==> index in Visited(graph)
    {
      hide X, Y, LinksOk;
      take := false;
      if Near(idx, index, costmap.width) && index < costmap.width * costmap.height {
        if index !in graph {
          AddNode(G, costmap, graph, index);
        }
        AddToGraph(index);
        ghost var g1 := graph;
        var valid := IsNodeValid(index, G);
        take := valid && !graph[index].visited;
      }
    }

    /** The unvisited collision-free 8-neighbours of a cell, all of them. */
    method GetNeighbors(idx: int, ghost G: Graph) returns (ns: seq<int>)
      requires costmap.Valid() && LinksOk(G, graph) && CacheOk(costmap, graph) && idx in graph && graph[idx].visited
      requires G.edge == MapGraph(costmap, sqrt, G.source).edge
      modifies this`graph
      ensures SameSearch(G, costmap, old(graph), graph)
      ensures forall y :: y in ns ==> IsNeighbour(G, graph, idx, y)
      ensures forall y :: G.edge(idx, y) && y !in Visited(graph) ==> y in ns
    {
      hide Wrap64, Offset, LinksOk, CacheOk, Adjacent;
      ns := [];
      for i := 0 to 8
        invariant SameSearch(G, costmap, old(graph), graph)
        invariant forall y :: y in ns ==> IsNeighbour(G, graph, idx, y)
        invariant forall k: nat :: k < i ==> OffsetListed(costmap, G, graph, idx, ns, k)
      {
        ghost var g0, ns0 := graph, ns;
        var index := Wrap64(idx + Offset(i, costmap.width));
        var take := TakeNeighbor(idx, index, G);
        if take {
          ns := ns + [index];
        }
        forall k: nat | k < i + 1
          ensures OffsetListed(costmap, G, graph, idx, ns, k)
        {
          assert k < i ==> OffsetListed(costmap, G, g0, idx, ns0, k);
        }
      }
      NeighborsComplete(costmap, sqrt, G, graph, idx, ns);
    }
  
    /** Queues a node, and remembers it when it is the closest to the goal so far. */
    method PushWithHeuristic(v: int, gCost: real)
      requires costmap.Valid()
      modifies this`queue, this`best
      ensures queue == old(queue) + [Entry(gCost + Distance(sqrt, v, costmap.width, goalX, goalY), v)]
      ensures best == old(best) || best == Some((Distance(sqrt, v, costmap.width, goalX, goalY), v))
      ensures best.Some? && best.value.0 <= Distance(sqrt, v, costmap.width, goalX, goalY)
      ensures old(best).Some? ==> best.value.0 <= old(best).value.0
    {
      var heuristic := Distance(sqrt, v, costmap.width, goalX, goalY);
      if best.None? || heuristic < best.value.0 {
        best := Some((heuristic, v));
      }
      queue := queue + [Entry(gCost + heuristic, v)];
    }

    ghost predicate Expanding(G: Graph, h: int -> real, current: int)
      reads this
    {
      && costmap.Valid() && LinksOk(G, graph) && CacheOk(costmap, graph)
      && G.weight == MapGraph(costmap, sqrt, G.source).weight
      && (forall c :: h(c) == Distance(sqrt, c, costmap.width, goalX, goalY))
      && Prioritised(Costs(graph), Visited(graph), queue, h)
      && current in graph && graph[current].visited && graph[current].cost.Some? && graph[current].cost.value >= 0.0
      && G.source in graph && graph[G.source].visited && graph[G.source].cost == Some(0.0)
      && BestOk(costmap, sqrt, goalX, goalY, graph, G.source, best)
    }

    /** Step 4.1 to 4.3 for one neighbour: keep the cheaper approach and queue it. */
    method RelaxNeighbor(current: int, n: int, ghost G: Graph, ghost h: int -> real, ghost g: map<int, real>, ghost closed: set<int>, ghost done: set<int>)
      requires Expanding(G, h, current) && UnitSteps(G) && IsNeighbour(G, graph, current, n)
      requires current in g && graph[current].cost == Some(g[current])
      requires Visited(graph) == closed + {current} && RelaxedOver(G, g, closed, current, Costs(graph), done)
      modifies this`graph, this`queue, this`best
      ensures Expanding(G, h, current) && graph[current] == old(graph[current]) && Visited(graph) == old(Visited(graph))
      ensures RelaxedOver(G, g, closed, current, Costs(graph), done + {n})
      ensures forall y :: IsNeighbour(G, old(graph), current, y) ==> IsNeighbour(G, graph, current, y)
      ensures graph[G.source] == old(graph[G.source]) && graph.Keys == old(graph).Keys
    {
      hide Distance, TraversalCost, LinksOk, RelaxedOver, Prioritised;
      var gCost := graph[current].cost.value + TraversalCost(sqrt, current, n, costmap.width, costmap.multiplier, graph[n].cellCost.value);
      assert gCost == g[current] + G.weight(current, n);
      if graph[n].cost.None? || gCost < graph[n].cost.value {
        assert n !in Visited(graph);
        Reparent(G, costmap, graph, current, n, gCost);
        RelaxImprove(G, g, closed, current, Costs(graph), done, n);
        PushKeepsPriorities(Costs(graph), Visited(graph), queue, h, n, gCost);
        graph := graph[n := graph[n].(cost := Some(gCost), parent := Some(current))];
        PushWithHeuristic(n, gCost);
      } else {
        RelaxSkip(G, g, closed, current, Costs(graph), done, n);
      }
    }

    /** Step 4: every unvisited neighbour of the node just visited is relaxed. */
    method Expand(current: int, ghost G: Graph, ghost h: int -> real, ghost closed: set<int>)
      requires Expanding(G, h, current) && UnitSteps(G) && NonNegative(G) && G.edge == MapGraph(costmap, sqrt, G.source).edge
      requires Visited(graph) == closed + {current} && current !in closed
      requires Settled(G, Costs(graph), closed) && Exact(G, current, graph[current].cost.value)
      modifies this`graph, this`queue, this`best
      ensures Expanding(G, h, current) && Settled(G, Costs(graph), Visited(graph)) && Visited(graph) == closed + {current}
      ensures old(graph).Keys <= graph.Keys
    {
      hide Distance, MapGraph, LinksOk, RelaxedOver, Prioritised, Settled, Exact, CacheOk;
      ghost var g := Costs(graph);
      var ns := GetNeighbors(current, G);
      RelaxNothing(G, g, closed, current);
      ghost var done := {};
      for i := 0 to |ns|
        invariant Expanding(G, h, current) && graph[current].cost == Some(g[current]) && Visited(graph) == closed + {current}
        invariant RelaxedOver(G, g, closed, current, Costs(graph), done)
        invariant forall y :: y in ns ==> IsNeighbour(G, graph, current, y)
        invariant forall k :: 0 <= k < i ==> ns[k] in done
        invariant old(graph).Keys <= graph.Keys
      {
        RelaxNeighbor(current, ns[i], G, h, g, closed, done);
        done := done + {ns[i]};
      }
      AllRelaxed(G, g, closed, current, Costs(graph), done, ns);
    }
  
    /** Collects the cells from `v` back to the start along parent links. */
    method BacktracePath(v: int, ghost G: Graph) returns (found: bool, path: seq<int>)
      requires LinksOk(G, graph) && UnitSteps(G) && v in graph
      requires G.source in graph && graph[G.source].cost == Some(G.seed)
      ensures found <==> graph[v].cost.Some? && v != G.source
      ensures found ==> Backtraces(G, path, v, graph[v].cost.value)
      ensures !found ==> path == []
    {
      path := [];
      assert LinkOk(G, graph, v);
      if graph[v].parent.None? {
        return false, path;
      }
      hide LinksOk, UnitSteps, Chain, Reverse;
      var current := v;
      while graph[current].parent.Some?
        invariant current in graph && graph[current].cost.Some?
        invariant path + Reverse(Chain(G, graph, current)) == Reverse(Chain(G, graph, v))
        decreases graph[current].cost.value.Floor
      {
        ChainStep(G, graph, current);
        ghost var u := graph[current].parent.value;
        assert path + ([current] + Reverse(Chain(G, graph, u))) == (path + [current]) + Reverse(Chain(G, graph, u));
        path := path + [current];
        current := graph[current].parent.value;
      }
      ChainEnd(G, graph, current);
      path := path + [current];
      ChainIsPath(G, graph, v);
      ReverseTwice(Chain(G, graph, v));
      return true, path;
    }

    /** The state between two turns of the search loop; the goal has not been visited. */
    ghost predicate Searching(G: Graph, h: int -> real)
      reads this
    {
      && costmap.Valid() && start.Some? && goal.Some? && goal.value in graph
      && G == MapGraph(costmap, sqrt, start.value) && h == GoalDistance(costmap, sqrt, goalX, goalY)
      && SearchOk(G, h, costmap, graph, queue)
      && BestOk(costmap, sqrt, goalX, goalY, graph, start.value, best)
      && !graph[goal.value].visited
    }

    /** Takes the best queued node; one not yet visited is marked visited with its exact cost. */
    method GetNextNode(ghost G: Graph, ghost h: int -> real) returns (current: int, again: bool)
      requires Searching(G, h) && queue != [] && Consistent(G, h)
      modifies this`graph, this`queue
      ensures current in graph && |queue| < |old(queue)| && graph.Keys == old(graph).Keys
      ensures again ==> Searching(G, h) && Visited(graph) == Visited(old(graph))
      ensures !again ==> Expanding(G, h, current) && Exact(G, current, graph[current].cost.value)
      ensures !again ==> current !in Visited(old(graph)) && Visited(graph) == Visited(old(graph)) + {current}
      ensures !again ==> Settled(G, Costs(graph), Visited(old(graph)))
      ensures !again && current != goal.value ==> goal.value !in Visited(graph)
    {
      hide Consistent, Settled, Exact, LinksOk, CacheOk;
      var k := CheapestEntry(queue);
      current := queue[k].cell;
      NextIsExact(G, h, costmap, graph, queue, k);
      again := graph[current].visited;
      if again {
        Revisit(graph, queue, h, G.source, k);
      } else {
        ghost var after := graph[current := graph[current].(visited := true)];
        VisitKeepsQueue(graph, queue, h, G.source, k, after);
        VisitKeepsLinks(G, costmap, graph, current);
        CostNonNegative(G, after, current);
        graph := graph[current := graph[current].(visited := true)];
      }
      queue := queue[..k] + queue[k + 1..];
    }

    /** The initial open set. */
    method Open(ghost G: Graph, ghost h: int -> real)
      requires Ready() && start.Some? && goal.Some?
      requires forall v :: v in graph ==> graph[v].(cellCost := None, inCollision := false) == FRESH
      requires CacheOk(costmap, graph)
      requires G == MapGraph(costmap, sqrt, start.value) && h == GoalDistance(costmap, sqrt, goalX, goalY)
      modifies this`graph, this`queue, this`best
      ensures Searching(G, h) && Visited(graph) == {}
    {
      assert forall v :: v in graph ==> graph[v].cost == None && !graph[v].visited && graph[v].parent == None;
      best := None;
      queue := [Entry(0.0, start.value)];
      graph := graph[start.value := graph[start.value].(cost := Some(0.0))];
      InitiallySettled(G);
      assert Costs(graph) == map[start.value := 0.0] && Visited(graph) == {};
      forall v | v in graph
        ensures LinkOk(G, graph, v)
      {
      }
    }

    /** Expands the visited node and returns to the state between two turns. */
    method ExpandAndResume(current: int, ghost G: Graph, ghost h: int -> real, ghost closed: set<int>)
      requires Expanding(G, h, current) && start.Some? && goal.Some? && goal.value in graph && goal.value !in Visited(graph)
      requires G == MapGraph(costmap, sqrt, start.value) && h == GoalDistance(costmap, sqrt, goalX, goalY) && IsSqrt(sqrt)
      requires Visited(graph) == closed + {current} && current !in closed
      requires Settled(G, Costs(graph), closed) && Exact(G, current, graph[current].cost.value)
      modifies this`graph, this`queue, this`best
      ensures Searching(G, h) && Visited(graph) == old(Visited(graph))
    {
      hide Settled, Exact, Consistent, Distance, LinksOk, CacheOk, Prioritised;
      GoalDistanceConsistent(costmap, sqrt, start.value, goalX, goalY);
      Expand(current, G, h, closed);
    }

    /** What each way of ending the search promises about the returned path. */
    ghost predicate Answers(outcome: Outcome, path: seq<int>, tolerance: real)
      requires costmap.Valid() && start.Some? && goal.Some?
      reads this
    {
      var G := MapGraph(costmap, sqrt, start.value);
      match outcome
      case AtGoal(found) =>
        && goal.value in graph && graph[goal.value].cost.Some? && Exact(G, goal.value, graph[goal.value].cost.value)
        && (found <==> goal.value != start.value)
        && (if found then Backtraces(G, path, goal.value, graph[goal.value].cost.value) else path == [])
      case InTolerance(node, found) =>
        && found && node in graph && graph[node].cost.Some? && Backtraces(G, path, node, graph[node].cost.value)
        && Distance(sqrt, node, costmap.width, goalX, goalY) < tolerance
        && NoneWithin(costmap, sqrt, goalX, goalY, Costs(graph), start.value, Distance(sqrt, node, costmap.width, goalX, goalY))
      case Unreachable =>
        path == [] && !Reachable(G, goal.value) && NoneWithin(costmap, sqrt, goalX, goalY, Costs(graph), start.value, tolerance)
      case IterationLimit => path == [] && NoneWithin(costmap, sqrt, goalX, goalY, Costs(graph), start.value, tolerance)
      case _ => path == []
    }

    /** The way to the closest node so far, which is within the tolerance. */
    method ReturnBest(tolerance: real, ghost G: Graph) returns (outcome: Outcome, path: seq<int>)
      requires costmap.Valid() && start.Some? && goal.Some? && G == MapGraph(costmap, sqrt, start.value)
      requires LinksOk(G, graph) && UnitSteps(G) && G.source in graph && graph[G.source].cost == Some(G.seed)
      requires BestOk(costmap, sqrt, goalX, goalY, graph, start.value, best) && best.Some? && best.value.0 < tolerance
      ensures outcome.InTolerance? && Answers(outcome, path, tolerance)
    {
      hide LinksOk, UnitSteps, Backtraces, Distance, NoneCloser, NoneWithin;
      NearestRemembered(tolerance);
      var found;
      found, path := BacktracePath(best.value.1, G);
      return InTolerance(best.value.1, found), path;
    }

    lemma NearestRemembered(tolerance: real)
      requires costmap.Valid() && start.Some? && BestOk(costmap, sqrt, goalX, goalY, graph, start.value, best)
      ensures best.Some? ==> NoneWithin(costmap, sqrt, goalX, goalY, Costs(graph), start.value, best.value.0)
      ensures best.None? || best.value.0 >= tolerance ==> NoneWithin(costmap, sqrt, goalX, goalY, Costs(graph), start.value, tolerance)
    {
      hide Distance;
    }

    /**
     The search loop. Whether cancellation is asked for, or the planning time is up, in a turn whose iteration count is a
     multiple of the checking interval, is the environment's choice.
     */
    method Run(tolerance: real, limits: Limits, ghost G: Graph, ghost h: int -> real) returns (outcome: Outcome, path: seq<int>)
      requires Searching(G, h) && IsSqrt(sqrt) && Visited(graph) == {}
      modifies this`graph, this`queue, this`best
      ensures Answers(outcome, path, tolerance) && !outcome.GoalOccupied? && !outcome.InvalidInputs?
      ensures outcome.IterationLimit? ==> |Visited(graph)| >= limits.maxIterations
      ensures outcome.Cancelled? ==> exists turn :: limits.cancelled(turn)
      ensures outcome.TimedOut? ==> exists turn :: limits.timeUp(turn)
    {
      hide Expanding, Consistent, Settled, Exact, Backtraces, Distance, LinksOk, CacheOk, QueueOk, UnitSteps, NoneCloser, NoneWithin;
      GoalDistanceConsistent(costmap, sqrt, start.value, goalX, goalY);
      var iterations, approach, turn := 0, 0, 0;
      while iterations < limits.maxIterations && queue != []
        invariant Searching(G, h) && iterations == |Visited(graph)|
        decreases limits.maxIterations - iterations, |queue|
      {
        if iterations % limits.interval == 0 {
          if limits.cancelled(turn) {
            return Cancelled, [];
          }
          if limits.timeUp(turn) {
            return TimedOut, [];
          }
        }
        turn := turn + 1;
        ghost var closed := Visited(graph);
        var current, again := GetNextNode(G, h);
        if again {
          continue;
        }
        iterations := iterations + 1;
        SearchFacts(G, h, current);
        if current == goal.value {
          var found;
          found, path := BacktracePath(current, G);
          return AtGoal(found), path;
        }
        if best.Some? && best.value.0 < tolerance {
          approach := approach + 1;
          if approach >= limits.maxOnApproach {
            outcome, path := ReturnBest(tolerance, G);
            return;
          }
        }
        ExpandAndResume(current, G, h, closed);
      }
      if best.Some? && best.value.0 < tolerance {
        SourceCost(G, h, costmap, graph, queue);
        outcome, path := ReturnBest(tolerance, G);
        return;
      }
      NearestRemembered(tolerance);
      if queue == [] {
        Exhausted(G, h, costmap, graph, goal.value);
        return Unreachable, [];
      }
      return IterationLimit, [];
    }

    /**
     Plans from the start to the goal on a fresh graph. A path returned by the goal test is a cheapest
     one; a path returned within tolerance is a real path to a node that close to the goal; giving up
     with an empty queue means that there is no path.
     */
    method CreatePath(tolerance: real, limits: Limits) returns (outcome: Outcome, path: seq<int>)
      requires Ready() && Fresh()
      modifies this`graph, this`queue, this`best
      ensures outcome.InvalidInputs? <==> start.None? || goal.None?
      ensures outcome.GoalOccupied? <==> start.Some? && goal.Some? && tolerance < 0.001 && Barred(costmap, goal.value)
      ensures start.Some? && goal.Some? ==> Answers(outcome, path, tolerance)
      ensures path != [] ==>
                && start.Some? && goal.Some? && Drivable(costmap, path) && path[|path| - 1] == start.value
                && (outcome.AtGoal? ==> path[0] == goal.value) && (outcome.InTolerance? ==> path[0] == outcome.node)
      ensures outcome.IterationLimit? ==> |Visited(graph)| >= limits.maxIterations
      ensures outcome.Cancelled? ==> exists turn :: limits.cancelled(turn)
      ensures outcome.TimedOut? ==> exists turn :: limits.timeUp(turn)
    {
      if graph == map[] || start.None? || goal.None? {
        return InvalidInputs, [];
      }
      hide Answers, Drivable, Costmap.Collides, LinksOk, CacheOk;
      ghost var G := MapGraph(costmap, sqrt, start.value);
      if tolerance < 0.001 {
        CollidesMeansBarred(costmap, goal.value);
        var valid := IsNodeValid(goal.value, G);
        if !valid {
          return GoalOccupied, [];
        }
      }
      outcome, path := Seek(tolerance, limits, G);
    }

    /** Opens the search and runs it; on the map a path found is drivable from the start. */
    method Seek(tolerance: real, limits: Limits, ghost G: Graph) returns (outcome: Outcome, path: seq<int>)
      requires Ready() && start.Some? && goal.Some? && G == MapGraph(costmap, sqrt, start.value)
      requires forall v :: v in graph ==> graph[v].(cellCost := None, inCollision := false) == FRESH
      requires CacheOk(costmap, graph)
      modifies this`graph, this`queue, this`best
      ensures !outcome.InvalidInputs? && !outcome.GoalOccupied? && Answers(outcome, path, tolerance)
      ensures path != [] ==>
                && Drivable(costmap, path) && path[|path| - 1] == start.value
                && (outcome.AtGoal? ==> path[0] == goal.value) && (outcome.InTolerance? ==> path[0] == outcome.node)
      ensures outcome.IterationLimit? ==> |Visited(graph)| >= limits.maxIterations
      ensures outcome.Cancelled? ==> exists turn :: limits.cancelled(turn)
      ensures outcome.TimedOut? ==> exists turn :: limits.timeUp(turn)
    {
      ghost var h := GoalDistance(costmap, sqrt, goalX, goalY);
      Open(G, h);
      hide SearchOk, BestOk, Answers, Drivable;
      outcome, path := Run(tolerance, limits, G, h);
      if path != [] {
        DrivableAnswer(outcome, path, tolerance);
      }
    }

    lemma DrivableAnswer(outcome: Outcome, path: seq<int>, tolerance: real)
      requires costmap.Valid() && start.Some? && goal.Some? && 0 <= start.value < |costmap.cells|
      requires Answers(outcome, path, tolerance) && path != [] && !outcome.InvalidInputs?
      ensures Drivable(costmap, path) && path[|path| - 1] == start.value
      ensures outcome.AtGoal? ==> path[0] == goal.value
      ensures outcome.InTolerance? ==> path[0] == outcome.node
    {
      var G := MapGraph(costmap, sqrt, start.value);
      hide Exact, Reachable, Distance, MapGraph, Drivable, Backtraces;
      match outcome
      case AtGoal(_) => BacktraceIsDrivable(costmap, sqrt, start.value, path, goal.value, graph[goal.value].cost.value);
      case InTolerance(node, _) => BacktraceIsDrivable(costmap, sqrt, start.value, path, node, graph[node].cost.value);
      case _ =>
    }

    lemma SearchFacts(G: Graph, h: int -> real, current: int)
      requires Expanding(G, h, current)
      ensures costmap.Valid() && LinksOk(G, graph) && current in graph && graph[current].visited && graph[current].cost.Some?
      ensures G.source in graph && graph[G.source].cost == Some(0.0)
      ensures BestOk(costmap, sqrt, goalX, goalY, graph, G.source, best)
    {
    }
  }

  lemma SourceCost(G: Graph, h: int -> real, m: Costmap, graph: NodeGraph, queue: seq<Entry>)
    requires SearchOk(G, h, m, graph, queue)
    ensures G.source in graph && graph[G.source].cost == Some(0.0)
  {
  }

  lemma Revisit(graph: NodeGraph, queue: seq<Entry>, h: int -> real, start: int, k: nat)
    requires QueueOk(graph, queue, h, start) && k < |queue| && queue[k].cell in graph && graph[queue[k].cell].visited
    ensures QueueOk(graph, queue[..k] + queue[k + 1..], h, start)
  {
    var v := queue[k].cell;
    assert v in Visited(graph);
    PopKeepsPriorities(Costs(graph), Visited(graph), queue, h, k);
    assert Visited(graph) + {v} == Visited(graph);
  }

  lemma CostNonNegative(G: Graph, graph: NodeGraph, v: int)
    requires LinksOk(G, graph) && v in graph && graph[v].cost.Some?
    ensures graph[v].cost.value >= 0.0
  {
    assert LinkOk(G, graph, v);
  }

  /** With an empty queue every reachable cell was visited, so an unvisited goal has no path. */
  lemma Exhausted(G: Graph, h: int -> real, m: Costmap, graph: NodeGraph, goal: int)
    requires SearchOk(G, h, m, graph, []) && Consistent(G, h) && goal in graph && !graph[goal].visited
    ensures !Reachable(G, goal)
  {
    forall v | v in Costs(graph)
      ensures v in Visited(graph)
    {
      assert v !in Visited(graph) ==> CurrentEntry(Costs(graph), [], h, v);
    }
    forall v | v in graph
      ensures LinkOk(G, graph, v)
    {
    }
    assert Visited(graph) == Costs(graph).Keys by {
      assert forall v :: v in Visited(graph) ==> LinkOk(G, graph, v);
    }
    ExhaustedIsComplete(G, Costs(graph), Visited(graph), h, goal);
  }

  lemma AllRelaxed(G: Graph, g: map<int, real>, closed: set<int>, current: int, g': map<int, real>, done: set<int>, ns: seq<int>)
    requires NonNegative(G) && Settled(G, g, closed) && current in g && current !in closed && Exact(G, current, g[current])
    requires RelaxedOver(G, g, closed, current, g', done) && forall k :: 0 <= k < |ns| ==> ns[k] in done
    requires forall y :: G.edge(current, y) && y !in closed + {current} ==> y in ns
    ensures Settled(G, g', closed + {current})
  {
    CloseAndRelax(G, g, closed, current, g', done);
  }

  lemma NeighborsComplete(m: Costmap, sqrt: real -> real, G: Graph, graph: NodeGraph, idx: int, ns: seq<int>)
    requires m.Valid() && G.edge == MapGraph(m, sqrt, G.source).edge
    requires forall k: nat :: k < 8 ==> OffsetListed(m, G, graph, idx, ns, k)
    ensures forall y :: G.edge(idx, y) && y !in Visited(graph) ==> y in ns
  {
    forall y | G.edge(idx, y) && y !in Visited(graph)
      ensures y in ns
    {
      var k := OffsetsCoverNeighbours(m, idx, y);
      assert OffsetListed(m, G, graph, idx, ns, k);
    }
  }
}
