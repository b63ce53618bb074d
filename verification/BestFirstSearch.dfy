/**
 The graph-theoretic core shared by the lazy obstacle table and by the 2D A* search:
 a best-first search that closes the cheapest open node under *some* consistent heuristic
 settles exact shortest-path costs, whichever heuristic was used for the earlier closings.
 */
module BestFirstSearch {

  /** A directed graph with one source; `seed` is the cost of standing on the source. */
  datatype Graph = Graph(source: int, seed: real, edge: (int, int) -> bool, weight: (int, int) -> real)

  /** `p` is a walk from the source along edges. */
  ghost predicate IsPath(G: Graph, p: seq<int>) {
    |p| > 0 &&
    if |p| == 1 then p[0] == G.source
    else IsPath(G, p[..|p| - 1]) && G.edge(p[|p| - 2], p[|p| - 1])
  }

  ghost function Last(p: seq<int>): int
    requires |p| > 0
  {
    p[|p| - 1]
  }

  /** The seed plus the weights of the edges of `p`. */
  ghost function Cost(G: Graph, p: seq<int>): real
    requires |p| > 0
  {
    if |p| == 1 then G.seed else Cost(G, p[..|p| - 1]) + G.weight(p[|p| - 2], p[|p| - 1])
  }

  /** A path starts at the source and goes from each node to the next along an edge. */
  lemma {:induction false} PathByEdges(G: Graph, p: seq<int>)
    ensures IsPath(G, p) <==> |p| > 0 && p[0] == G.source && forall i :: 0 <= i < |p| - 1 ==> G.edge(p[i], p[i + 1])
  {
    if |p| > 1 {
      PathByEdges(G, p[..|p| - 1]);
      assert G.edge(p[|p| - 2], p[|p| - 2 + 1]) <==> G.edge(p[|p| - 2], p[|p| - 1]);
    }
  }

  ghost predicate PathTo(G: Graph, p: seq<int>, v: int) {
    IsPath(G, p) && Last(p) == v
  }

  ghost predicate Achieved(G: Graph, v: int, c: real) {
    exists p :: PathTo(G, p, v) && Cost(G, p) == c
  }

  ghost predicate LowerBound(G: Graph, v: int, c: real) {
    forall p :: PathTo(G, p, v) ==> c <= Cost(G, p)
  }

  /** `c` is the cost of a cheapest path to `v`. */
  ghost predicate Exact(G: Graph, v: int, c: real) {
    Achieved(G, v, c) && LowerBound(G, v, c)
  }

  ghost predicate Reachable(G: Graph, v: int) {
    exists p :: PathTo(G, p, v)
  }

  ghost predicate Consistent(G: Graph, h: int -> real) {
    forall u, v :: G.edge(u, v) ==> h(u) <= G.weight(u, v) + h(v)
  }

  /**
   What every search step keeps: `g` holds the costs found so far, `closed` the settled nodes.
   No heuristic is mentioned, so the invariant survives a change of target.
   */
  ghost predicate Settled(G: Graph, g: map<int, real>, closed: set<int>) {
    && closed <= g.Keys
    && G.source in g && g[G.source] == G.seed
    && (forall v :: v in g ==> Achieved(G, v, g[v]))
    && (forall v :: v in closed ==> LowerBound(G, v, g[v]))
    && (forall u, v :: u in closed && G.edge(u, v) ==> v in g && g[v] <= g[u] + G.weight(u, v))
  }

  lemma Extend(G: Graph, p: seq<int>, v: int)
    requires IsPath(G, p) && G.edge(Last(p), v)
    ensures PathTo(G, p + [v], v) && Cost(G, p + [v]) == Cost(G, p) + G.weight(Last(p), v)
  {
    assert (p + [v])[..|p + [v]| - 1] == p;
  }

  lemma AchievedStep(G: Graph, u: int, v: int, c: real)
    requires Achieved(G, u, c) && G.edge(u, v)
    ensures Achieved(G, v, c + G.weight(u, v))
  {
    var p :| PathTo(G, p, u) && Cost(G, p) == c;
    Extend(G, p, v);
  }

  /** Before anything is closed only the source is known. */
  lemma InitiallySettled(G: Graph)
    ensures Settled(G, map[G.source := G.seed], {})
  {
    assert PathTo(G, [G.source], G.source) && Cost(G, [G.source]) == G.seed;
  }

  /**
   Either the path lies in the closed region and its end is already at most this expensive,
   or some open node is at most as far, in cost plus heuristic, as the end of the path.
   */
  lemma {:induction false} Frontier(G: Graph, g: map<int, real>, closed: set<int>, h: int -> real, p: seq<int>)
    requires Settled(G, g, closed) && Consistent(G, h) && IsPath(G, p)
    ensures (Last(p) in closed && g[Last(p)] <= Cost(G, p)) ||
            exists x :: x in g && x !in closed && g[x] + h(x) <= Cost(G, p) + h(Last(p))
  {
    if |p| == 1 {
    } else {
      var q := p[..|p| - 1];
      Frontier(G, g, closed, h, q);
      assert h(Last(q)) <= G.weight(Last(q), Last(p)) + h(Last(p));
      if Last(q) in closed && g[Last(q)] <= Cost(G, q) {
        assert Last(p) in g && g[Last(p)] <= Cost(G, p);
      }
    }
  }

  /** An open node that minimises cost plus a consistent heuristic already has its exact cost. */
  lemma CheapestOpenIsExact(G: Graph, g: map<int, real>, closed: set<int>, h: int -> real, v: int)
    requires Settled(G, g, closed) && Consistent(G, h)
    requires v in g && v !in closed
    requires forall x :: x in g && x !in closed ==> g[v] + h(v) <= g[x] + h(x)
    ensures Exact(G, v, g[v])
  {
    forall p | PathTo(G, p, v)
      ensures g[v] <= Cost(G, p)
    {
      Frontier(G, g, closed, h, p);
    }
  }

  /** `g'` is `g` after the edges from `v` into `done` were relaxed, closed nodes being left alone. */
  ghost predicate RelaxedOver(G: Graph, g: map<int, real>, closed: set<int>, v: int, g': map<int, real>, done: set<int>)
    requires v in g
  {
    && g.Keys <= g'.Keys
    && g'[v] == g[v]
    && (forall y :: y in closed && y in g ==> g'[y] == g[y])
    && (forall y :: y in g' ==> (y in g && g'[y] == g[y]) || (G.edge(v, y) && g'[y] == g[v] + G.weight(v, y)))
    && (forall y :: y in g ==> g'[y] <= g[y])
    && (forall y :: y in done && G.edge(v, y) && y !in closed && y != v ==> y in g' && g'[y] <= g[v] + G.weight(v, y))
  }

  lemma RelaxNothing(G: Graph, g: map<int, real>, closed: set<int>, v: int)
    requires v in g
    ensures RelaxedOver(G, g, closed, v, g, {})
  {
  }

  lemma RelaxSkip(G: Graph, g: map<int, real>, closed: set<int>, v: int, g': map<int, real>, done: set<int>, y: int)
    requires v in g && RelaxedOver(G, g, closed, v, g', done)
    requires !G.edge(v, y) || y in closed || y == v || (y in g' && g'[y] <= g[v] + G.weight(v, y))
    ensures RelaxedOver(G, g, closed, v, g', done + {y})
  {
  }

  lemma RelaxImprove(G: Graph, g: map<int, real>, closed: set<int>, v: int, g': map<int, real>, done: set<int>, y: int)
    requires v in g && RelaxedOver(G, g, closed, v, g', done)
    requires G.edge(v, y) && y !in closed && y != v
    requires y in g' ==> g[v] + G.weight(v, y) < g'[y]
    ensures RelaxedOver(G, g, closed, v, g'[y := g[v] + G.weight(v, y)], done + {y})
  {
    var c := g[v] + G.weight(v, y);
    assert y in g ==> c < g'[y] <= g[y];
  }

  ghost predicate NonNegative(G: Graph) {
    forall u, v :: G.edge(u, v) ==> G.weight(u, v) >= 0.0
  }

  lemma {:induction false} CostAtLeastSeed(G: Graph, p: seq<int>)
    requires NonNegative(G) && IsPath(G, p)
    ensures Cost(G, p) >= G.seed
  {
    if |p| > 1 {
      CostAtLeastSeed(G, p[..|p| - 1]);
      var u, v := p[|p| - 2], p[|p| - 1];
      assert G.edge(u, v) && G.weight(u, v) >= 0.0;
    }
  }

  /** Closing a node with exact cost and relaxing its edges keeps the invariant. */
  lemma CloseAndRelax(G: Graph, g: map<int, real>, closed: set<int>, v: int, g': map<int, real>, done: set<int>)
    requires Settled(G, g, closed) && v in g && v !in closed && Exact(G, v, g[v])
    requires RelaxedOver(G, g, closed, v, g', done) && forall y :: G.edge(v, y) && y !in closed && y != v ==> y in done
    requires NonNegative(G)
    ensures Settled(G, g', closed + {v})
  {
    forall y | y in g'
      ensures Achieved(G, y, g'[y])
    {
      if !(y in g && g'[y] == g[y]) {
        AchievedStep(G, v, y, g[v]);
      }
    }
    var s :| PathTo(G, s, G.source) && Cost(G, s) == g'[G.source];
    CostAtLeastSeed(G, s);
    forall u, y | u in closed + {v} && G.edge(u, y)
      ensures y in g' && g'[y] <= g'[u] + G.weight(u, y)
    {
      if u == v && y in closed {
        AchievedStep(G, v, y, g[v]);
        var p :| PathTo(G, p, y) && Cost(G, p) == g[v] + G.weight(v, y);
      }
    }
  }

  // ---- the priority queue, with duplicate and stale entries

  datatype Entry = Entry(priority: real, cell: int)

  ghost predicate CurrentEntry(g: map<int, real>, queue: seq<Entry>, h: int -> real, x: int)
    requires x in g
  {
    exists k :: 0 <= k < |queue| && queue[k].cell == x && queue[k].priority == g[x] + h(x)
  }

  /** Every open node has an entry with its current priority; stale entries of open nodes rank no better. */
  ghost predicate Prioritised(g: map<int, real>, closed: set<int>, queue: seq<Entry>, h: int -> real) {
    && (forall k :: 0 <= k < |queue| ==> queue[k].cell in g)
    && (forall k :: 0 <= k < |queue| && queue[k].cell !in closed ==>
          queue[k].priority >= g[queue[k].cell] + h(queue[k].cell))
    && (forall x :: x in g && x !in closed ==> CurrentEntry(g, queue, h, x))
  }

  /** The heap's choice: an entry of least priority. */
  method CheapestEntry(queue: seq<Entry>) returns (k: nat)
    requires |queue| > 0
    ensures k < |queue| && forall j :: 0 <= j < |queue| ==> queue[k].priority <= queue[j].priority
  {
    k := 0;
    for i := 1 to |queue|
      invariant k < i && forall j :: 0 <= j < i ==> queue[k].priority <= queue[j].priority
    {
      if queue[i].priority < queue[k].priority {
        k := i;
      }
    }
  }

  /** The front of the heap, when still open, already has its exact cost. */
  lemma FrontIsExact(G: Graph, g: map<int, real>, closed: set<int>, queue: seq<Entry>, h: int -> real, k: nat)
    requires Settled(G, g, closed) && Consistent(G, h) && Prioritised(g, closed, queue, h)
    requires k < |queue| && forall j :: 0 <= j < |queue| ==> queue[k].priority <= queue[j].priority
    requires queue[k].cell !in closed
    ensures Exact(G, queue[k].cell, g[queue[k].cell])
  {
    var v := queue[k].cell;
    forall x | x in g && x !in closed
      ensures g[v] + h(v) <= g[x] + h(x)
    {
      assert CurrentEntry(g, queue, h, x);
    }
    CheapestOpenIsExact(G, g, closed, h, v);
  }

  /** Lowering the cost of an open node and queueing it again keeps the queue right. */
  lemma PushKeepsPriorities(g: map<int, real>, closed: set<int>, queue: seq<Entry>, h: int -> real, y: int, cost: real)
    requires Prioritised(g, closed, queue, h) && y !in closed && (y in g ==> cost < g[y])
    ensures Prioritised(g[y := cost], closed, queue + [Entry(cost + h(y), y)], h)
  {
    var g', q := g[y := cost], queue + [Entry(cost + h(y), y)];
    forall x | x in g' && x !in closed
      ensures CurrentEntry(g', q, h, x)
    {
      if x == y {
        assert q[|queue|].cell == y;
      } else {
        assert CurrentEntry(g, queue, h, x);
        var k :| 0 <= k < |queue| && queue[k].cell == x && queue[k].priority == g[x] + h(x);
        assert q[k] == queue[k];
      }
    }
  }

  /** Removing an entry keeps the queue right once its node counts as closed. */
  lemma PopKeepsPriorities(g: map<int, real>, closed: set<int>, queue: seq<Entry>, h: int -> real, k: nat)
    requires Prioritised(g, closed, queue, h) && k < |queue|
    ensures Prioritised(g, closed + {queue[k].cell}, queue[..k] + queue[k + 1..], h)
  {
    var q, closed' := queue[..k] + queue[k + 1..], closed + {queue[k].cell};
    forall x | x in g && x !in closed'
      ensures CurrentEntry(g, q, h, x)
    {
      assert CurrentEntry(g, queue, h, x);
      var j :| 0 <= j < |queue| && queue[j].cell == x && queue[j].priority == g[x] + h(x);
      assert q[if j < k then j else j - 1] == queue[j];
    }
  }

  /** When nothing is open any more, exactly the reachable nodes have a cost. */
  lemma ExhaustedIsComplete(G: Graph, g: map<int, real>, closed: set<int>, h: int -> real, v: int)
    requires Settled(G, g, closed) && Consistent(G, h) && closed == g.Keys
    ensures v in g <==> Reachable(G, v)
  {
    if v in g {
      var p :| PathTo(G, p, v) && Cost(G, p) == g[v];
    }
    forall p | PathTo(G, p, v)
      ensures v in g
    {
      Frontier(G, g, closed, h, p);
    }
  }

  /** The exact cost is unique. */
  lemma ExactIsUnique(G: Graph, v: int, c: real, d: real)
    requires Exact(G, v, c) && Exact(G, v, d)
    ensures c == d
  {
    var p :| PathTo(G, p, v) && Cost(G, p) == c;
    var q :| PathTo(G, q, v) && Cost(G, q) == d;
  }
}
