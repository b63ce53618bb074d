/**
 The lazily grown obstacle-heuristic table of the hybrid planner. One reset seeds the goal cell;
 each query re-prioritises the open cells for its own target and expands until that target is
 closed. Cells are sign-encoded: 0 unknown, negative open, positive closed.
 */
module ObstacleHeuristic {
  import opened BestFirstSearch
  import opened Grid
  import opened Numbers

  const INSCRIBED: nat := 253
  const SEED: real := 0.00001
  const UINT32: int := 0x1_0000_0000
  const INT_LIMIT: int := 0x8000_0000

  datatype Costmap = Costmap(sizeX: nat, sizeY: nat, cells: seq<nat>) {
    /** Indices fit the signed 32-bit arithmetic of the search. */
    predicate Valid() {
      sizeX > 0 && sizeY > 0 && |cells| == sizeX * sizeY && |cells| < INT_LIMIT
    }

    function At(x: nat, y: nat): nat
      requires Valid() && x < sizeX && y < sizeY
    {
      RowMajor(x, y, sizeX, sizeY);
      cells[y * sizeX + x]
    }
  }

  datatype MotionTable = MotionTable(downsample: bool, quadratic: bool, costPenalty: real)

  function Halved(n: nat): nat { (n + 1) / 2 }

  function Width(m: Costmap, mt: MotionTable): nat {
    if mt.downsample then Halved(m.sizeX) else m.sizeX
  }

  function Height(m: Costmap, mt: MotionTable): nat {
    if mt.downsample then Halved(m.sizeY) else m.sizeY
  }

  predicate InTable(m: Costmap, mt: MotionTable, cell: int) {
    0 <= cell < Width(m, mt) * Height(m, mt)
  }

  lemma TableFits(m: Costmap, mt: MotionTable)
    requires m.Valid()
    ensures 0 < Width(m, mt) <= m.sizeX && 0 < Height(m, mt) <= m.sizeY
    ensures Width(m, mt) <= Width(m, mt) * Height(m, mt) < INT_LIMIT
    ensures Height(m, mt) <= Width(m, mt) * Height(m, mt)
  {
    SmallerArea(Width(m, mt), Height(m, mt), m.sizeX, m.sizeY);
  }

  lemma SmallerArea(w: int, h: int, W: int, H: int)
    requires 0 < w <= W && 0 < h <= H
    ensures w <= w * h <= W * H && h <= w * h
  {
    MulLe(1, h, w);
    MulLe(1, w, h);
    MulLe(w, W, h);
    MulLe(h, H, W);
  }

  lemma RowBelow(cell: int, w: int, h: int)
    requires w > 0 && 0 <= cell < w * h
    ensures 0 <= X(cell, w) < w && 0 <= Y(cell, w) < h
  {
    var d := h - cell / w;
    assert d * w == h * w - (cell / w) * w;
    assert d * w > 0;
  }

  lemma TableCoordinates(m: Costmap, mt: MotionTable, cell: int)
    requires m.Valid() && InTable(m, mt, cell) && Width(m, mt) > 0
    ensures 0 <= X(cell, Width(m, mt)) < Width(m, mt) && 0 <= Y(cell, Width(m, mt)) < Height(m, mt)
  {
    RowBelow(cell, Width(m, mt), Height(m, mt));
  }


  /** Cost of a table cell: the cell itself, or the least cost of the 2x2 block it stands for. */
  function CellCost(m: Costmap, mt: MotionTable, cell: int): (c: nat)
    requires m.Valid() && InTable(m, mt, cell)
  {
    TableFits(m, mt);
    TableCoordinates(m, mt, cell);
    if mt.downsample then BlockCost(m, 2 * X(cell, Width(m, mt)), 2 * Y(cell, Width(m, mt)))
    else m.cells[cell]
  }

  function BlockCost(m: Costmap, x: nat, y: nat): (c: nat)
    requires m.Valid() && x < m.sizeX && y < m.sizeY
  {
    var c := m.At(x, y);
    var c := if y + 1 < m.sizeY then MinNat(c, m.At(x, y + 1)) else c;
    var c := if x + 1 < m.sizeX then MinNat(c, m.At(x + 1, y)) else c;
    if x + 1 < m.sizeX && y + 1 < m.sizeY then MinNat(c, m.At(x + 1, y + 1)) else c
  }

  /** The least of the up to four map cells of a block. */
  lemma BlockCostIsLeast(m: Costmap, x: nat, y: nat) returns (i: nat, j: nat)
    requires m.Valid() && x < m.sizeX && y < m.sizeY
    ensures x <= i <= x + 1 && y <= j <= y + 1 && i < m.sizeX && j < m.sizeY && m.At(i, j) == BlockCost(m, x, y)
    ensures forall k: nat, l: nat :: x <= k <= x + 1 && y <= l <= y + 1 && k < m.sizeX && l < m.sizeY ==> BlockCost(m, x, y) <= m.At(k, l)
  {
    hide Costmap.At, Costmap.Valid;
    i, j := x, y;
    if y + 1 < m.sizeY && m.At(x, y + 1) < m.At(i, j) { j := y + 1; }
    if x + 1 < m.sizeX && m.At(x + 1, y) < m.At(i, j) { i, j := x + 1, y; }
    if x + 1 < m.sizeX && y + 1 < m.sizeY && m.At(x + 1, y + 1) < m.At(i, j) { i, j := x + 1, y + 1; }
  }

  /** The map cell `(x, y)` lies under the table cell: it is that cell, or one of its 2x2 block. */
  predicate Under(m: Costmap, mt: MotionTable, cell: int, x: nat, y: nat)
    requires Width(m, mt) > 0
  {
    x < m.sizeX && y < m.sizeY &&
    if mt.downsample then 2 * X(cell, Width(m, mt)) <= x <= 2 * X(cell, Width(m, mt)) + 1 && 2 * Y(cell, Width(m, mt)) <= y <= 2 * Y(cell, Width(m, mt)) + 1
    else x == X(cell, Width(m, mt)) && y == Y(cell, Width(m, mt))
  }

  /** A table cell costs at most what any map cell under it costs, and as much as one of them. */
  lemma CellCostIsLeast(m: Costmap, mt: MotionTable, cell: int)
    requires m.Valid() && InTable(m, mt, cell) && Width(m, mt) > 0
    ensures forall x: nat, y: nat :: Under(m, mt, cell, x, y) ==> CellCost(m, mt, cell) <= m.At(x, y)
    ensures exists x: nat, y: nat :: Under(m, mt, cell, x, y) && m.At(x, y) == CellCost(m, mt, cell)
  {
    TableFits(m, mt);
    TableCoordinates(m, mt, cell);
    var w := Width(m, mt);
    if mt.downsample {
      var i, j := BlockCostIsLeast(m, 2 * X(cell, w), 2 * Y(cell, w));
      hide X, Y, BlockCost, Costmap.At, Costmap.Valid;
      assert Under(m, mt, cell, i, j);
    } else {
      Rebuild(cell, w);
      AtIsRowMajor(m, X(cell, w), Y(cell, w));
      assert Under(m, mt, cell, X(cell, w), Y(cell, w));
      hide X, Y, Costmap.At, Costmap.Valid;
    }
  }

  lemma AtIsRowMajor(m: Costmap, x: nat, y: nat)
    requires m.Valid() && x < m.sizeX && y < m.sizeY
    ensures y * m.sizeX + x < |m.cells| && m.At(x, y) == m.cells[y * m.sizeX + x]
  {
    RowMajor(x, y, m.sizeX, m.sizeY);
  }

  /** Unsigned 32-bit wrap-around of a signed value. */
  function Wrap32(i: int): (r: int)
    ensures 0 <= r < UINT32
  {
    i % UINT32
  }

  /** The border filter as coded, with its unsigned subtraction. */
  predicate OutsideBorder(x: int, y: int, w: nat, h: nat) {
    !(x >= Wrap32(w - 3) || x <= 3) && !(y >= Wrap32(h - 3) || y <= 3)
  }

  /** The cell may be entered: cheaper than inscribed and away from the border. */
  predicate Enterable(m: Costmap, mt: MotionTable, cell: int)
    requires m.Valid() && InTable(m, mt, cell)
  {
    TableFits(m, mt);
    CellCost(m, mt, cell) < INSCRIBED &&
    OutsideBorder(X(cell, Width(m, mt)), Y(cell, Width(m, mt)), Width(m, mt), Height(m, mt))
  }

  function Penalty(mt: MotionTable, cost: nat): real {
    if mt.quadratic then mt.costPenalty * cost as real * cost as real / 63504.0
    else mt.costPenalty * cost as real / 252.0
  }

  /** The penalty is 0 for free cells and the whole factor at cost 252, and grows with the cost or its square. */
  lemma PenaltyScale(mt: MotionTable, cost: nat)
    ensures Penalty(mt, 0) == 0.0 && Penalty(mt, 252) == mt.costPenalty
    ensures !mt.quadratic ==> Penalty(mt, cost) * 252.0 == mt.costPenalty * cost as real
    ensures mt.quadratic ==> Penalty(mt, cost) * (252.0 * 252.0) == mt.costPenalty * cost as real * cost as real
  {
  }

  lemma PenaltyNonNegative(mt: MotionTable, cost: nat)
    requires mt.costPenalty >= 0.0
    ensures Penalty(mt, cost) >= 0.0
  {
    var c := cost as real;
    assert mt.costPenalty * c >= 0.0;
    assert mt.costPenalty * c * c >= 0.0;
  }

  /**
   The reference graph, stated over coordinates rather than index offsets: from the goal outwards,
   one step to any 8-adjacent cell that may be entered, at the step length scaled by the cell's cost.
   */
  ghost function CellGraph(m: Costmap, mt: MotionTable, sqrt: real -> real, goal: int): (G: Graph)
    requires m.Valid()
  {
    TableFits(m, mt);
    var w := Width(m, mt);
    Graph(goal, SEED,
          (u: int, v: int) => InTable(m, mt, u) && InTable(m, mt, v) && Adjacent(u, v, w) && Enterable(m, mt, v),
          (u: int, v: int) => if InTable(m, mt, v) then StepLength(sqrt, u, v, w) * (1.0 + Penalty(mt, CellCost(m, mt, v))) else 0.0)
  }

  ghost function Estimate(m: Costmap, mt: MotionTable, sqrt: real -> real, target: int): int -> real
    requires m.Valid()
  {
    TableFits(m, mt);
    var w := Width(m, mt);
    (cell: int) => Distance(sqrt, cell, w, X(target, w) as real, Y(target, w) as real)
  }

  lemma ScaledLength(l: real, f: real)
    requires l >= 1.0 && f >= 0.0
    ensures l * (1.0 + f) >= l
  {
    assert l * f >= 0.0;
  }

  /** For every target the Euclidean estimate is consistent, and every step costs at least 1. */
  lemma EstimateConsistent(m: Costmap, mt: MotionTable, sqrt: real -> real, goal: int, target: int)
    requires m.Valid() && IsSqrt(sqrt) && mt.costPenalty >= 0.0
    ensures Consistent(CellGraph(m, mt, sqrt, goal), Estimate(m, mt, sqrt, target))
    ensures NonNegative(CellGraph(m, mt, sqrt, goal))
    ensures forall u, v :: CellGraph(m, mt, sqrt, goal).edge(u, v) ==> CellGraph(m, mt, sqrt, goal).weight(u, v) >= 1.0
  {
    TableFits(m, mt);
    var G, h, w := CellGraph(m, mt, sqrt, goal), Estimate(m, mt, sqrt, target), Width(m, mt);
    forall u, v | G.edge(u, v)
      ensures h(u) <= G.weight(u, v) + h(v) && G.weight(u, v) >= 1.0
    {
      StepChangesDistance(sqrt, u, v, w, X(target, w) as real, Y(target, w) as real);
      PenaltyNonNegative(mt, CellCost(m, mt, v));
      ScaledLength(StepLength(sqrt, u, v, w), Penalty(mt, CellCost(m, mt, v)));
    }
  }

  // ---- index offsets against coordinates

  /** The neighbourhood of the search, in its order: four sides, then four corners. */
  function Offset(k: nat, w: int): int
    requires k < 8
  {
    [1, -1, w, -w, w + 1, w - 1, -w + 1, -w - 1][k]
  }

  function OffsetX(k: nat): int
    requires k < 8
  {
    if k == 0 || k == 4 || k == 6 then 1 else if k == 2 || k == 3 then 0 else -1
  }

  function OffsetY(k: nat): int
    requires k < 8
  {
    if k < 2 then 0 else if k == 2 || k == 4 || k == 5 then 1 else -1
  }

  lemma OffsetIsStep(k: nat, w: int)
    requires k < 8
    ensures Offset(k, w) == OffsetY(k) * w + OffsetX(k)
  {
  }

  function OffsetTo(dx: int, dy: int): (k: nat)
    requires -1 <= dx <= 1 && -1 <= dy <= 1 && (dx != 0 || dy != 0)
    ensures k < 8 && OffsetX(k) == dx && OffsetY(k) == dy
  {
    if dy == 0 then (if dx == 1 then 0 else 1)
    else if dx == 0 then (if dy == 1 then 2 else 3)
    else if dy == 1 then (if dx == 1 then 4 else 5)
    else (if dx == 1 then 6 else 7)
  }

  lemma StepBack(u: int, v: int, dx: int, dy: int, w: int)
    requires w > 0 && v == u + dy * w + dx && 0 <= X(v, w) - dx < w
    ensures X(u, w) == X(v, w) - dx && Y(u, w) == Y(v, w) - dy
  {
    assert v == Y(v, w) * w + X(v, w);
    assert (Y(v, w) - dy) * w == Y(v, w) * w - dy * w;
    Coordinates(u, X(v, w) - dx, Y(v, w) - dy, w);
  }

  lemma OffsetBounds(k: nat, w: int)
    requires k < 8 && w > 0
    ensures -w - 1 <= Offset(k, w) <= w + 1
  {
  }

  /** An index offset that survives the bounds and border filters never wraps across a row or below zero. */
  lemma OffsetNeverWraps(u: int, k: nat, w: nat, h: nat)
    requires k < 8 && w > 0 && 0 <= u < w * h < INT_LIMIT && w <= w * h && h <= w * h
    requires var v := Wrap32(u + Offset(k, w)); 0 <= v < w * h && OutsideBorder(X(v, w), Y(v, w), w, h)
    ensures var v := Wrap32(u + Offset(k, w)); Adjacent(u, v, w) && (Diagonal(u, v, w) <==> k > 3)
  {
    var v := Wrap32(u + Offset(k, w));
    OffsetBounds(k, w);
    assert v == u + Offset(k, w);
    RowBelow(v, w, h);
    OffsetIsStep(k, w);
    StepBack(u, v, OffsetX(k), OffsetY(k), w);
  }

  /** Every 8-adjacent cell is reached by one of the eight offsets. */
  lemma OffsetsCoverNeighbours(u: int, v: int, w: nat, size: int) returns (k: nat)
    requires w > 0 && 0 <= u < size < INT_LIMIT && 0 <= v < size && Adjacent(u, v, w)
    ensures k < 8 && Wrap32(u + Offset(k, w)) == v
  {
    var dx, dy := X(v, w) - X(u, w), Y(v, w) - Y(u, w);
    StepBetween(u, v, w);
    k := OffsetTo(dx, dy);
    OffsetIsStep(k, w);
  }

  // ---- the sign-encoded table


  ghost function Known(table: seq<real>): map<int, real> {
    map i | 0 <= i < |table| && table[i] != 0.0 :: Abs(table[i])
  }

  ghost function Closed(table: seq<real>): set<int> {
    set i | 0 <= i < |table| && table[i] > 0.0
  }

  ghost function Unclosed(table: seq<real>): set<int> {
    set i | 0 <= i < |table| && !(table[i] > 0.0)
  }

  lemma UnclosedShrinks(before: seq<real>, after: seq<real>, idx: int)
    requires |before| == |after| && 0 <= idx < |before| && before[idx] <= 0.0
    requires Closed(after) == Closed(before) + {idx}
    ensures Unclosed(after) < Unclosed(before)
  {
    assert idx in Closed(after) && idx in Unclosed(before);
    forall i | i in Unclosed(after)
      ensures i in Unclosed(before)
    {
      assert i !in Closed(after);
    }
  }

  ghost predicate Queued(queue: seq<Entry>, cell: int) {
    exists k :: 0 <= k < |queue| && queue[k].cell == cell
  }

  /** A cell is negative exactly when it is queued and not yet closed; only known cells are queued. */
  ghost predicate OpenIsQueued(table: seq<real>, queue: seq<Entry>) {
    && (forall k :: 0 <= k < |queue| ==> 0 <= queue[k].cell < |table| && table[queue[k].cell] != 0.0)
    && (forall i :: 0 <= i < |table| ==> (table[i] < 0.0 <==> Queued(queue, i) && !(table[i] > 0.0)))
  }

  lemma PrioritisedIsQueued(table: seq<real>, queue: seq<Entry>, h: int -> real)
    requires Prioritised(Known(table), Closed(table), queue, h)
    ensures OpenIsQueued(table, queue)
  {
    forall i | 0 <= i < |table| && table[i] < 0.0
      ensures Queued(queue, i)
    {
      assert CurrentEntry(Known(table), queue, h, i);
    }
  }

  /** Negating an open cell closes it and keeps every known cost. */
  lemma ClosingCell(table: seq<real>, idx: int)
    requires 0 <= idx < |table| && table[idx] < 0.0
    ensures Known(table[idx := -table[idx]]) == Known(table)
    ensures Closed(table[idx := -table[idx]]) == Closed(table) + {idx}
  {
  }

  lemma OpeningCell(table: seq<real>, y: int, cost: real)
    requires 0 <= y < |table| && table[y] <= 0.0 && cost > 0.0
    ensures Known(table[y := -cost]) == Known(table)[y := cost]
    ensures Closed(table[y := -cost]) == Closed(table)
  {
  }

  /** Edges join 8-adjacent table cells and cost at least one step. */
  ghost predicate GridEdges(G: Graph, w: nat, size: nat) {
    w > 0 && size < INT_LIMIT &&
    forall u, v :: G.edge(u, v) ==>
      0 <= u < size && 0 <= v < size && Adjacent(u, v, w) && G.weight(u, v) >= 1.0
  }

  /** After all eight offsets every edge out of `idx` was relaxed, so the table is settled again. */
  lemma ExpansionSettles(G: Graph, w: nat, before: seq<real>, t: seq<real>, idx: int, done: set<int>)
    requires GridEdges(G, w, |before|) && 0 <= idx < |before| && before[idx] < 0.0
    requires Settled(G, Known(before), Closed(before)) && Exact(G, idx, -before[idx])
    requires RelaxedOver(G, Known(before), Closed(before), idx, Known(t), done)
    requires Closed(t) == Closed(before) + {idx}
    requires forall k: nat :: k < 8 ==> Wrap32(idx + Offset(k, w)) in done
    ensures Settled(G, Known(t), Closed(t))
    ensures forall i :: i in Closed(before) ==> i < |t| && t[i] == before[i]
  {
    forall i | i in Closed(before)
      ensures i < |t| && t[i] == before[i]
    {
      assert i in Closed(t) && Known(t)[i] == Known(before)[i];
    }
    forall y | G.edge(idx, y)
      ensures y in done
    {
      var k := OffsetsCoverNeighbours(idx, y, w, |before|);
    }
    CloseAndRelax(G, Known(before), Closed(before), idx, Known(t), done);
  }

  /** What the answer for a cell must be: 0 exactly for unreachable cells, else the cheapest path cost. */
  ghost predicate CorrectAnswer(G: Graph, cell: int, answer: real, downsample: bool) {
    && answer >= 0.0
    && (answer == 0.0 <==> !Reachable(G, cell))
    && (answer > 0.0 ==> Exact(G, cell, if downsample then answer / 2.0 else answer))
  }

  /** The reference graph admits one answer per cell, so queries in any order and number agree. */
  lemma AnswerIsUnique(G: Graph, cell: int, a: real, b: real, downsample: bool)
    requires CorrectAnswer(G, cell, a, downsample) && CorrectAnswer(G, cell, b, downsample)
    ensures a == b
  {
    if a > 0.0 {
      ExactIsUnique(G, cell, if downsample then a / 2.0 else a, if downsample then b / 2.0 else b);
    }
  }

  ghost predicate TableInvariant(m: Costmap, mt: MotionTable, sqrt: real -> real, goal: int, table: seq<real>, queue: seq<Entry>) {
    && m.Valid() && IsSqrt(sqrt) && mt.costPenalty >= 0.0
    && InTable(m, mt, goal) && |table| == Width(m, mt) * Height(m, mt)
    && Settled(CellGraph(m, mt, sqrt, goal), Known(table), Closed(table))
    && OpenIsQueued(table, queue)
  }

  /** The point `(x, y)` lies in the table cell: within it, or within the 2x2 block it stands for. */
  ghost predicate Contains(m: Costmap, mt: MotionTable, cell: int, x: real, y: real)
    requires Width(m, mt) > 0
  {
    var w := Width(m, mt);
    InTable(m, mt, cell) &&
    if mt.downsample then
      2.0 * X(cell, w) as real <= x < 2.0 * X(cell, w) as real + 2.0 && 2.0 * Y(cell, w) as real <= y < 2.0 * Y(cell, w) as real + 2.0
    else
      X(cell, w) as real <= x < X(cell, w) as real + 1.0 && Y(cell, w) as real <= y < Y(cell, w) as real + 1.0
  }

  function CellOf(m: Costmap, mt: MotionTable, x: real, y: real): int {
    if mt.downsample then (y / 2.0).Floor * Width(m, mt) + (x / 2.0).Floor
    else y.Floor * Width(m, mt) + x.Floor
  }

  ghost predicate OnMap(m: Costmap, x: real, y: real) {
    0.0 <= x < m.sizeX as real && 0.0 <= y < m.sizeY as real
  }

  lemma CellOnTable(m: Costmap, mt: MotionTable, x: real, y: real)
    requires m.Valid() && OnMap(m, x, y)
    ensures InTable(m, mt, CellOf(m, mt, x, y))
    ensures Width(m, mt) > 0 && Contains(m, mt, CellOf(m, mt, x, y), x, y)
  {
    TableFits(m, mt);
    var cx, cy := if mt.downsample then (x / 2.0).Floor else x.Floor, if mt.downsample then (y / 2.0).Floor else y.Floor;
    RowMajor(cx, cy, Width(m, mt), Height(m, mt));
    Coordinates(CellOf(m, mt, x, y), cx, cy, Width(m, mt));
  }

  /** A point lies in one table cell only. */
  lemma OneCellContains(m: Costmap, mt: MotionTable, x: real, y: real, u: int, v: int)
    requires Width(m, mt) > 0 && Contains(m, mt, u, x, y) && Contains(m, mt, v, x, y)
    ensures u == v
  {
    var w := Width(m, mt);
    assert X(u, w) == X(v, w) && Y(u, w) == Y(v, w) by {
      hide X, Y;
    }
    SameCell(u, v, w);
  }

  lemma BorderRange(x: int, w: nat)
    requires 0 <= x < w < INT_LIMIT
    ensures !(x >= Wrap32(w - 3) || x <= 3) <==> 3 < x < w - 3
  {
  }

  /** A cell may be entered when it is more than three cells from every side and some map cell under it costs less than 253. */
  lemma EnterableOnMap(m: Costmap, mt: MotionTable, v: int)
    requires m.Valid() && InTable(m, mt, v) && Width(m, mt) > 0
    ensures Enterable(m, mt, v) <==>
              && 3 < X(v, Width(m, mt)) < Width(m, mt) - 3 && 3 < Y(v, Width(m, mt)) < Height(m, mt) - 3
              && exists x: nat, y: nat :: Under(m, mt, v, x, y) && m.At(x, y) < 253
  {
    TableFits(m, mt);
    TableCoordinates(m, mt, v);
    CellCostIsLeast(m, mt, v);
    BorderRange(X(v, Width(m, mt)), Width(m, mt));
    BorderRange(Y(v, Width(m, mt)), Height(m, mt));
    hide X, Y, CellCost, Under, Costmap.At, Costmap.Valid, Wrap32, Width, Height;
  }

  /** The reference graph on the map itself: which steps there are, and what they cost. */
  lemma GraphOnMap(m: Costmap, mt: MotionTable, sqrt: real -> real, goal: int, u: int, v: int)
    requires m.Valid() && InTable(m, mt, u) && InTable(m, mt, v) && Width(m, mt) > 0
    ensures var G, w := CellGraph(m, mt, sqrt, goal), Width(m, mt);
            && G.source == goal && G.seed == 0.00001
            && (G.edge(u, v) <==>
                  u != v && -1 <= X(u, w) - X(v, w) <= 1 && -1 <= Y(u, w) - Y(v, w) <= 1 && Enterable(m, mt, v))
            && G.weight(u, v) ==
               (if X(u, w) == X(v, w) || Y(u, w) == Y(v, w) then 1.0 else sqrt(2.0)) * (1.0 + Penalty(mt, CellCost(m, mt, v)))
  {
    hide X, Y, CellCost, Penalty, Enterable;
  }

  /** A closed cell's value is the answer, and only the answer, the reference graph admits. */
  lemma ClosedAnswers(G: Graph, table: seq<real>, cell: int)
    requires Settled(G, Known(table), Closed(table)) && 0 <= cell < |table| && table[cell] > 0.0
    ensures CorrectAnswer(G, cell, table[cell], false) && CorrectAnswer(G, cell, 2.0 * table[cell], true)
  {
    assert cell in Closed(table) && Known(table)[cell] == table[cell];
    var p :| PathTo(G, p, cell) && Cost(G, p) == table[cell];
  }

  lemma ExhaustedAnswers(G: Graph, table: seq<real>, h: int -> real, cell: int)
    requires Settled(G, Known(table), Closed(table)) && Consistent(G, h) && 0 <= cell < |table|
    requires OpenIsQueued(table, []) && table[cell] <= 0.0
    ensures table[cell] == 0.0 && CorrectAnswer(G, cell, 0.0, false) && CorrectAnswer(G, cell, 0.0, true)
  {
    assert forall i :: 0 <= i < |table| ==> !(table[i] < 0.0);
    assert Closed(table) == Known(table).Keys;
    ExhaustedIsComplete(G, Known(table), Closed(table), h, cell);
  }

  /** The filters of the neighbour loop, applied to an index. */
  predicate Passes(m: Costmap, mt: MotionTable, cell: int)
    requires m.Valid() && Width(m, mt) > 0 && cell >= 0
  {
    cell < Width(m, mt) * Height(m, mt) && CellCost(m, mt, cell) < INSCRIBED &&
    OutsideBorder(X(cell, Width(m, mt)), Y(cell, Width(m, mt)), Width(m, mt), Height(m, mt))
  }

  function Travel(mt: MotionTable, sqrt: real -> real, i: nat, cost: nat): real {
    (if i <= 3 then 1.0 else sqrt(2.0)) * (1.0 + Penalty(mt, cost))
  }

  /** The filtered index offsets are exactly the edges of the reference graph, with its weights. */
  lemma OffsetsAreEdges(m: Costmap, mt: MotionTable, sqrt: real -> real, goal: int, idx: int, i: nat)
    requires m.Valid() && InTable(m, mt, idx) && i < 8 && Width(m, mt) > 0
    ensures var v, g := Wrap32(idx + Offset(i, Width(m, mt))), CellGraph(m, mt, sqrt, goal);
            (Passes(m, mt, v) <==> g.edge(idx, v)) &&
            (Passes(m, mt, v) ==> g.weight(idx, v) == Travel(mt, sqrt, i, CellCost(m, mt, v)))
  {
    hide X, Y, CellCost, OutsideBorder, Offset, Wrap32, Penalty;
    TableFits(m, mt);
    var w, h := Width(m, mt), Height(m, mt);
    var v := Wrap32(idx + Offset(i, w));
    if Passes(m, mt, v) {
      OffsetNeverWraps(idx, i, w, h);
    }
  }

  ghost predicate OffsetsMatch(g: Graph, m: Costmap, mt: MotionTable, sqrt: real -> real, idx: int)
    requires m.Valid() && Width(m, mt) > 0
  {
    forall i: nat :: i < 8 ==> OffsetMatches(g, m, mt, sqrt, idx, i)
  }

  ghost predicate OffsetMatches(g: Graph, m: Costmap, mt: MotionTable, sqrt: real -> real, idx: int, i: nat)
    requires m.Valid() && Width(m, mt) > 0 && i < 8
  {
    var v := Wrap32(idx + Offset(i, Width(m, mt)));
    && (Passes(m, mt, v) <==> g.edge(idx, v))
    && (Passes(m, mt, v) ==> g.weight(idx, v) == Travel(mt, sqrt, i, CellCost(m, mt, v)))
  }

  function TargetDistance(m: Costmap, mt: MotionTable, sqrt: real -> real, cell: int, target: int): real
    requires Width(m, mt) > 0
  {
    var w := Width(m, mt);
    Distance(sqrt, cell, w, X(target, w) as real, Y(target, w) as real)
  }

  /** What a search over this costmap may use about its reference graph and its estimate. */
  ghost predicate SearchFacts(g: Graph, h: int -> real, m: Costmap, mt: MotionTable, sqrt: real -> real, target: int)
    requires m.Valid() && Width(m, mt) > 0
  {
    && Consistent(g, h) && GridEdges(g, Width(m, mt), Width(m, mt) * Height(m, mt))
    && (forall idx :: InTable(m, mt, idx) ==> OffsetsMatch(g, m, mt, sqrt, idx))
    && (forall cell :: h(cell) == TargetDistance(m, mt, sqrt, cell, target))
  }

  lemma SearchGraph(g: Graph, h: int -> real, m: Costmap, mt: MotionTable, sqrt: real -> real, target: int)
    requires m.Valid() && Width(m, mt) > 0 && SearchFacts(g, h, m, mt, sqrt, target)
    ensures Consistent(g, h) && GridEdges(g, Width(m, mt), Width(m, mt) * Height(m, mt))
  {
  }

  lemma SearchFactsHold(m: Costmap, mt: MotionTable, sqrt: real -> real, goal: int, target: int)
    requires m.Valid() && IsSqrt(sqrt) && mt.costPenalty >= 0.0 && Width(m, mt) > 0
    ensures SearchFacts(CellGraph(m, mt, sqrt, goal), Estimate(m, mt, sqrt, target), m, mt, sqrt, target)
  {
    TableFits(m, mt);
    EstimateConsistent(m, mt, sqrt, goal, target);
    var g := CellGraph(m, mt, sqrt, goal);
    forall idx, i: nat | InTable(m, mt, idx) && i < 8
      ensures OffsetMatches(g, m, mt, sqrt, idx, i)
    {
      OffsetsAreEdges(m, mt, sqrt, goal, idx, i);
    }
  }

  class ObstacleTable {
    const motion: MotionTable
    const sqrt: real -> real
    var costmap: Costmap
    var table: seq<real>
    var queue: seq<Entry>
    ghost var goal: int

    ghost function G(): Graph
      reads this
      requires costmap.Valid()
    {
      CellGraph(costmap, motion, sqrt, goal)
    }

    ghost predicate Valid()
      reads this
    {
      TableInvariant(costmap, motion, sqrt, goal, table, queue)
    }

    constructor (motion: MotionTable, sqrt: real -> real)
      ensures this.motion == motion && this.sqrt == sqrt
    {
      this.motion, this.sqrt := motion, sqrt;
      costmap, table, queue := Costmap(0, 0, []), [], [];
    }

    /**
     Clears the table and opens the goal cell with a tiny negative cost. A table that shrinks is cleared up to its old
     length, past its new end; what that overwrites is not part of the model.
     */
    method Reset(m: Costmap, startX: nat, startY: nat, goalX: nat, goalY: nat) returns (overruns: bool)
      requires m.Valid() && OnMap(m, goalX as real, goalY as real)
      requires IsSqrt(sqrt) && motion.costPenalty >= 0.0
      modifies this
      ensures Valid() && costmap == m && Width(m, motion) > 0 && Contains(m, motion, goal, goalX as real, goalY as real)
      ensures Closed(table) == {} && Known(table) == map[goal := SEED]
      ensures overruns <==> |old(table)| > Width(m, motion) * Height(m, motion)
    {
      TableFits(m, motion);
      costmap := m;
      overruns := |table| > Width(m, motion) * Height(m, motion);
      table := seq(Width(m, motion) * Height(m, motion), i => 0.0);
      var goalIndex := CellOf(m, motion, goalX as real, goalY as real);
      CellOnTable(m, motion, goalX as real, goalY as real);
      queue := [Entry(Distance(sqrt, goalIndex, Width(m, motion), startX as real, startY as real), goalIndex)];
      table := table[goalIndex := -SEED];
      goal := goalIndex;
      assert queue[0].cell == goalIndex;
      assert Known(table) == map[goal := SEED] && Closed(table) == {};
      InitiallySettled(G());
    }

    /** Recomputes every queued priority for a new target. */
    method Reprioritise(target: int)
      requires Valid() && InTable(costmap, motion, target)
      modifies this`queue
      ensures |queue| == |old(queue)|
      ensures Prioritised(Known(table), Closed(table), queue, Estimate(costmap, motion, sqrt, target))
    {
      hide X, Y, Settled, CellGraph;
      TableFits(costmap, motion);
      var w := Width(costmap, motion);
      ghost var h := Estimate(costmap, motion, sqrt, target);
      var i := 0;
      while i < |queue|
        invariant i <= |queue| == |old(queue)|
        invariant forall k :: 0 <= k < |queue| ==> queue[k].cell == old(queue)[k].cell
        invariant forall k :: 0 <= k < i ==> queue[k].priority == -table[queue[k].cell] + h(queue[k].cell)
      {
        var cell := queue[i].cell;
        assert 0 <= old(queue)[i].cell < |table|;
        var priority := -table[cell] + Distance(sqrt, cell, w, X(target, w) as real, Y(target, w) as real);
        queue := queue[i := Entry(priority, cell)];
        i := i + 1;
      }
      forall c | c in Known(table) && c !in Closed(table)
        ensures CurrentEntry(Known(table), queue, h, c)
      {
        assert Queued(old(queue), c);
        var k :| 0 <= k < |old(queue)| && old(queue)[k].cell == c;
        assert queue[k].cell == c;
      }
    }

    ghost predicate Searching(g: Graph, h: int -> real, target: int)
      reads this
    {
      && costmap.Valid() && Width(costmap, motion) > 0
      && |table| == Width(costmap, motion) * Height(costmap, motion)
      && SearchFacts(g, h, costmap, motion, sqrt, target)
      && Prioritised(Known(table), Closed(table), queue, h)
    }

    /** A cheaper way to an unclosed cell: it becomes open at that cost and is queued. */
    method OpenNeighbour(cell: int, cost: real, target: int, ghost g: Graph, ghost h: int -> real)
      requires Searching(g, h, target) && 0 <= cell < |table| && table[cell] <= 0.0 && cost > 0.0
      requires cell in Known(table) ==> cost < Known(table)[cell]
      modifies this`table, this`queue
      ensures Searching(g, h, target) && table == old(table)[cell := -cost]
      ensures Known(table) == Known(old(table))[cell := cost] && Closed(table) == Closed(old(table))
    {
      hide Consistent, TargetDistance, Prioritised, GridEdges, OffsetsMatch;
      PushKeepsPriorities(Known(table), Closed(table), queue, h, cell, cost);
      OpeningCell(table, cell, cost);
      queue := queue + [Entry(cost + TargetDistance(costmap, motion, sqrt, cell, target), cell)];
      table := table[cell := -cost];
    }

    /** One pass of the neighbour loop: relax the `i`-th index offset of the cell `idx` that was just closed. */
    method RelaxOffset(idx: int, i: nat, target: int, ghost before: seq<real>, ghost done: set<int>, ghost g: Graph, ghost h: int -> real)
      requires Searching(g, h, target) && 0 <= idx < |table| == |before| && i < 8 && before[idx] == -table[idx] < 0.0
      requires RelaxedOver(g, Known(before), Closed(before), idx, Known(table), done)
      requires Closed(table) == Closed(before) + {idx}
      modifies this`table, this`queue
      ensures Searching(g, h, target) && |table| == |before| && table[idx] == old(table[idx])
      ensures RelaxedOver(g, Known(before), Closed(before), idx, Known(table), done + {Wrap32(idx + Offset(i, Width(costmap, motion)))})
      ensures Closed(table) == Closed(before) + {idx}
    {
      hide X, Y, CellCost, Offset, Wrap32, OutsideBorder, Consistent, Travel, TargetDistance, RelaxedOver, Prioritised;
      var w := Width(costmap, motion);
      assert OffsetsMatch(g, costmap, motion, sqrt, idx) && OffsetMatches(g, costmap, motion, sqrt, idx, i);
      var newIdx := Wrap32(idx + Offset(i, w));
      if Passes(costmap, motion, newIdx) && table[newIdx] <= 0.0 {
        var newCost := table[idx] + Travel(motion, sqrt, i, CellCost(costmap, motion, newIdx));
        if table[newIdx] == 0.0 || -table[newIdx] > newCost {
          RelaxImprove(g, Known(before), Closed(before), idx, Known(table), done, newIdx);
          OpenNeighbour(newIdx, newCost, target, g, h);
          return;
        }
      }
      assert 0 <= newIdx < |table| && table[newIdx] > 0.0 ==> newIdx in Closed(table);
      RelaxSkip(g, Known(before), Closed(before), idx, Known(table), done, newIdx);
    }

    /** The neighbour loop of a cell that was just closed. */
    method RelaxNeighbours(idx: int, target: int, ghost before: seq<real>, ghost g: Graph, ghost h: int -> real) returns (ghost done: set<int>)
      requires Searching(g, h, target) && 0 <= idx < |table| == |before| && before[idx] < 0.0
      requires table == before[idx := -before[idx]]
      modifies this`table, this`queue
      ensures Searching(g, h, target) && |table| == |before| && table[idx] == -before[idx]
      ensures RelaxedOver(g, Known(before), Closed(before), idx, Known(table), done)
      ensures forall k: nat :: k < 8 ==> Wrap32(idx + Offset(k, Width(costmap, motion))) in done
      ensures Closed(table) == Closed(before) + {idx}
    {
      hide SearchFacts, RelaxedOver, Prioritised, Offset, Wrap32;
      ClosingCell(before, idx);
      RelaxNothing(g, Known(before), Closed(before), idx);
      done := {};
      for i := 0 to 8
        invariant Searching(g, h, target) && |table| == |before| && table[idx] == -before[idx]
        invariant RelaxedOver(g, Known(before), Closed(before), idx, Known(table), done)
        invariant forall k: nat :: k < i ==> Wrap32(idx + Offset(k, Width(costmap, motion))) in done
        invariant Closed(table) == Closed(before) + {idx}
      {
        RelaxOffset(idx, i, target, before, done, g, h);
        done := done + {Wrap32(idx + Offset(i, Width(costmap, motion)))};
      }
    }

    /** Pops one heap entry; a cell that was still open is closed, and its cost is exact. */
    method PopFront(target: int, ghost g: Graph, ghost h: int -> real) returns (idx: int, closing: bool)
      requires Searching(g, h, target) && queue != [] && Settled(g, Known(table), Closed(table))
      modifies this`table, this`queue
      ensures Searching(g, h, target) && 0 <= idx < |table| && |queue| < |old(queue)|
      ensures old(table)[idx] != 0.0 && (closing <==> old(table)[idx] < 0.0)
      ensures !closing ==> table == old(table)
      ensures closing ==> table == old(table)[idx := -old(table)[idx]] && Exact(g, idx, -old(table)[idx])
    {
      hide Consistent, Settled, Exact, GridEdges, SearchFacts;
      SearchGraph(g, h, costmap, motion, sqrt, target);
      var k := CheapestEntry(queue);
      idx := queue[k].cell;
      closing := table[idx] <= 0.0;
      PopKeepsPriorities(Known(table), Closed(table), queue, h, k);
      if closing {
        FrontIsExact(g, Known(table), Closed(table), queue, h, k);
        ClosingCell(table, idx);
        table := table[idx := -table[idx]];
      } else {
        assert Closed(table) + {idx} == Closed(table);
      }
      queue := queue[..k] + queue[k + 1..];
    }

    /** One turn of the search loop: pops an entry and, if its cell was open, relaxes its neighbours. */
    method ExpandFront(target: int, ghost g: Graph, ghost h: int -> real) returns (idx: int)
      requires Searching(g, h, target) && queue != [] && Settled(g, Known(table), Closed(table))
      modifies this`table, this`queue
      ensures Searching(g, h, target) && Settled(g, Known(table), Closed(table))
      ensures |table| == |old(table)| && 0 <= idx < |table| && table[idx] > 0.0
      ensures old(table)[idx] > 0.0 ==> table == old(table) && |queue| < |old(queue)|
      ensures Closed(table) == Closed(old(table)) + {idx}
      ensures forall i :: i in Closed(old(table)) ==> table[i] == old(table)[i]
    {
      hide Consistent, Settled, Exact, GridEdges, SearchFacts, Prioritised, RelaxedOver;
      SearchGraph(g, h, costmap, motion, sqrt, target);
      var closing;
      idx, closing := PopFront(target, g, h);
      if closing {
        ghost var done := RelaxNeighbours(idx, target, old(table), g, h);
        ExpansionSettles(g, Width(costmap, motion), old(table), table, idx, done);
      } else {
        assert Closed(table) + {idx} == Closed(table);
      }
    }

    /** The search loop: expands until the start cell is closed or nothing is open any more. */
    method ExpandUntilClosed(start: int, ghost g: Graph, ghost h: int -> real)
      requires Searching(g, h, start) && Settled(g, Known(table), Closed(table))
      requires 0 <= start < |table| && table[start] <= 0.0
      modifies this`table, this`queue
      ensures Searching(g, h, start) && Settled(g, Known(table), Closed(table)) && |table| == |old(table)|
      ensures table[start] > 0.0 || queue == []
      ensures forall i :: i in Closed(old(table)) ==> table[i] == old(table)[i]
    {
      hide SearchFacts, Settled, Prioritised;
      while queue != []
        invariant |table| == |old(table)| && Searching(g, h, start)
        invariant Settled(g, Known(table), Closed(table))
        invariant table[start] <= 0.0 && Closed(old(table)) <= Closed(table)
        invariant forall i :: i in Closed(old(table)) ==> table[i] == old(table)[i]
        decreases Unclosed(table), |queue|
      {
        ghost var before := table;
        var idx := ExpandFront(start, g, h);
        if idx == start {
          break;
        }
        assert start !in Closed(before) && start !in Closed(table);
        if before[idx] <= 0.0 {
          UnclosedShrinks(before, table, idx);
        }
      }
    }

    /**
     Cost-to-goal of the cell under `(x, y)`, expanding the table only as far as this cell needs.
     Answers already given are never changed.
     */
    method Query(x: real, y: real) returns (answer: real, ghost cell: int)
      requires Valid() && OnMap(costmap, x, y)
      modifies this`table, this`queue
      ensures Valid()
      ensures Width(costmap, motion) > 0 && Contains(costmap, motion, cell, x, y)
      ensures CorrectAnswer(G(), cell, answer, motion.downsample)
      ensures |table| == |old(table)| && forall i :: i in Closed(old(table)) ==> table[i] == old(table)[i]
    {
      hide CellOf, Contains, SearchFacts, Settled, CellGraph, Estimate, Prioritised, OpenIsQueued, CorrectAnswer;
      CellOnTable(costmap, motion, x, y);
      TableFits(costmap, motion);
      var start := CellOf(costmap, motion, x, y);
      cell := start;
      if table[start] > 0.0 {
        ClosedAnswers(G(), table, start);
        return if motion.downsample then 2.0 * table[start] else table[start], cell;
      }
      Reprioritise(start);
      SearchFactsHold(costmap, motion, sqrt, goal, start);
      ghost var g, h := G(), Estimate(costmap, motion, sqrt, start);
      ExpandUntilClosed(start, g, h);
      SearchGraph(g, h, costmap, motion, sqrt, start);
      PrioritisedIsQueued(table, queue, h);
      if table[start] > 0.0 {
        ClosedAnswers(g, table, start);
      } else {
        ExhaustedAnswers(g, table, h, start);
      }
      return if motion.downsample then 2.0 * table[start] else table[start], cell;
    }
  }
}
