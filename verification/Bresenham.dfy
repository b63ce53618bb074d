/** Integer rasterisation of a line between two grid cells. */
module Bresenham {

  function Abs(i: int): int { if i < 0 then -i else i }
  function Max(a: int, b: int): int { if a >= b then a else b }

  /** The coordinate `i` unit steps from one end towards the other, and how many steps a coordinate is away. */
  function Towards(from: int, to: int, i: int): int { if from < to then from + i else from - i }
  function Steps(from: int, to: int, at: int): int { if from < to then at - from else from - at }

  datatype Cell = Cell(x: int, y: int)

  /**
   After `i` unit steps in x and `j` in y towards the end, `i * b - j * a` measures how far the cell
   is off the ideal line; at most half the longer extent is half a cell along the shorter axis.
   */
  ghost predicate OnLine(a: int, b: int, i: int, j: int) {
    && 0 <= i <= a && 0 <= j <= b
    && -Max(a, b) <= 2 * (i * b - j * a) <= Max(a, b)
  }

  /** The `n`-th cell: `n` steps along the longer axis, and within half a cell of the line along the other. */
  ghost predicate IsNth(x0: int, y0: int, x1: int, y1: int, n: nat, c: Cell) {
    var a, b := Abs(x1 - x0), Abs(y1 - y0);
    var i, j := Steps(x0, x1, c.x), Steps(y0, y1, c.y);
    OnLine(a, b, i, j) && n == if a >= b then i else j
  }

  lemma Distribute(i: int, b: int)
    ensures (i + 1) * b == i * b + b
  {
  }

  /** The error term of the loop after `i` and `j` steps. */
  ghost function ErrorAt(a: int, b: int, i: int, j: int): int {
    a - b - (i * b - j * a)
  }

  lemma ErrorSteps(a: int, b: int, i: int, j: int)
    ensures ErrorAt(a, b, i + 1, j) == ErrorAt(a, b, i, j) - b
    ensures ErrorAt(a, b, i, j + 1) == ErrorAt(a, b, i, j) + a
    ensures ErrorAt(a, b, i + 1, j + 1) == ErrorAt(a, b, i, j) - b + a
  {
    Distribute(i, b);
    Distribute(j, a);
  }

  lemma AtLeastOnce(a: int, k: int)
    requires a >= 0 && k >= 1
    ensures a * k >= a
  {
    assert a * (k - 1) >= 0;
  }

  lemma Difference(a: int, b: int, j: int)
    ensures a * (b - j) == a * b - j * a
  {
  }

  /** At the far end of the longer axis the shorter one has arrived too. */
  lemma EndsTogether(a: int, b: int, j: int)
    requires a > 0 && 0 <= j <= b && 2 * (a * b - j * a) <= a
    ensures j == b
  {
    Difference(a, b, j);
    if j < b {
      AtLeastOnce(a, b - j);
    }
  }

  /** Once the shorter axis has arrived, the error no longer asks for a step along it. */
  lemma NoStepAtEnd(a: int, b: int, i: int)
    requires b >= 0 && 0 <= i < a
    ensures 2 * (a - b - (i * b - b * a)) > a
  {
    Difference(b, a, i);
    AtLeastOnce(b, a - i);
  }

  /** One turn when x is the longer axis: x always moves, y moves when the error says so. */
  lemma TurnAlongX(a: int, b: int, i: int, j: int)
    requires a >= b >= 0 && OnLine(a, b, i, j) && (i < a || j < b)
    ensures var e := ErrorAt(a, b, i, j);
            var j' := if 2 * e <= a then j + 1 else j;
            2 * e >= -b && OnLine(a, b, i + 1, j')
  {
    Distribute(i, b);
    Distribute(j, a);
    if i == a {
      EndsTogether(a, b, j);
    }
    if j == b {
      NoStepAtEnd(a, b, i);
    }
  }

  /** The mirror image when y is the longer axis. */
  lemma TurnAlongY(a: int, b: int, i: int, j: int)
    requires b >= a >= 0 && OnLine(a, b, i, j) && (i < a || j < b)
    ensures var e := ErrorAt(a, b, i, j);
            var i' := if 2 * e >= -b then i + 1 else i;
            2 * e <= a && OnLine(a, b, i', j + 1)
  {
    Distribute(i, b);
    Distribute(j, a);
    if j == b {
      Commute(a, b, i, j);
      EndsTogether(b, a, i);
    }
    if i == a {
      NoStepAtEnd(b, a, j);
      Commute(a, b, i, j);
    }
  }

  lemma Commute(a: int, b: int, i: int, j: int)
    ensures i * b == b * i && j * a == a * j && a * b == b * a
  {
  }

  ghost predicate AdjacentCells(c: Cell, d: Cell) {
    c != d && Abs(d.x - c.x) <= 1 && Abs(d.y - c.y) <= 1
  }

  /** A walk from the start: every cell in its place on the line, each next to the one before. */
  ghost predicate Walk(x0: int, y0: int, x1: int, y1: int, cells: seq<Cell>) {
    && (cells != [] ==> cells[0] == Cell(x0, y0))
    && (forall n :: 0 <= n < |cells| ==> IsNth(x0, y0, x1, y1, n, cells[n]))
    && (forall n :: 0 <= n < |cells| - 1 ==> AdjacentCells(cells[n], cells[n + 1]))
  }

  lemma ExtendWalk(x0: int, y0: int, x1: int, y1: int, cells: seq<Cell>, c: Cell)
    requires Walk(x0, y0, x1, y1, cells) && IsNth(x0, y0, x1, y1, |cells|, c)
    requires if cells == [] then c == Cell(x0, y0) else AdjacentCells(cells[|cells| - 1], c)
    ensures Walk(x0, y0, x1, y1, cells + [c])
  {
    hide IsNth, AdjacentCells;
  }

  lemma Arrived(a: int, b: int, i: int, j: int)
    requires a >= 0 && b >= 0 && OnLine(a, b, i, j)
    ensures 0 <= i <= a && 0 <= j <= b
  {
  }

  lemma StartOnLine(a: int, b: int)
    requires a >= 0 && b >= 0
    ensures OnLine(a, b, 0, 0) && ErrorAt(a, b, 0, 0) == a - b
  {
  }

  /** Cells from one end to the other, as the generator yields them. */
  method Line(x0: int, y0: int, x1: int, y1: int) returns (cells: seq<Cell>)
    ensures |cells| == Max(Abs(x1 - x0), Abs(y1 - y0)) + 1
    ensures cells[0] == Cell(x0, y0) && cells[|cells| - 1] == Cell(x1, y1)
    ensures Walk(x0, y0, x1, y1, cells)
  {
    hide Walk, OnLine, ErrorAt, AdjacentCells, IsNth;
    var x, y := x0, y0;
    var dx := Abs(x1 - x0);
    var sx := if x0 < x1 then 1 else -1;
    var dy := -Abs(y1 - y0);
    var sy := if y0 < y1 then 1 else -1;
    var error := dx + dy;
    ghost var i, j, a, b := 0, 0, dx, -dy;
    StartOnLine(a, b);
    cells := [];
    EmptyWalk(x0, y0, x1, y1);
    while true
      invariant x == Towards(x0, x1, i) && y == Towards(y0, y1, j) && OnLine(a, b, i, j)
      invariant error == ErrorAt(a, b, i, j)
      invariant |cells| == (if a >= b then i else j) && |cells| <= Max(a, b)
      invariant Walk(x0, y0, x1, y1, cells) && (cells != [] ==> cells[0] == Cell(x0, y0))
      invariant if cells == [] then Cell(x, y) == Cell(x0, y0) else AdjacentCells(cells[|cells| - 1], Cell(x, y))
      decreases Max(a, b) - |cells|
    {
      Arrived(a, b, i, j);
      NthCell(x0, y0, x1, y1, i, j);
      ExtendWalk(x0, y0, x1, y1, cells, Cell(x, y));
      cells := cells + [Cell(x, y)];
      if x == x1 && y == y1 {
        return;
      }
      if a >= b {
        TurnAlongX(a, b, i, j);
      }
      if b >= a {
        TurnAlongY(a, b, i, j);
      }
      ErrorSteps(a, b, i, j);
      ghost var here := Cell(x, y);
      var twice := 2 * error;
      if twice >= dy {
        error := error + dy;
        x := x + sx;
        i := i + 1;
      }
      if twice <= dx {
        error := error + dx;
        y := y + sy;
        j := j + 1;
      }
      Arrived(a, b, i, j);
      StepIsAdjacent(here, Cell(x, y));
    }
  }

  lemma StepIsAdjacent(c: Cell, d: Cell)
    requires c != d && -1 <= d.x - c.x <= 1 && -1 <= d.y - c.y <= 1
    ensures AdjacentCells(c, d)
  {
  }

  lemma NthCell(x0: int, y0: int, x1: int, y1: int, i: int, j: int)
    requires OnLine(Abs(x1 - x0), Abs(y1 - y0), i, j)
    ensures i >= 0 && j >= 0
    ensures IsNth(x0, y0, x1, y1, if Abs(x1 - x0) >= Abs(y1 - y0) then i else j, Cell(Towards(x0, x1, i), Towards(y0, y1, j)))
  {
    hide OnLine;
    Arrived(Abs(x1 - x0), Abs(y1 - y0), i, j);
    assert Steps(x0, x1, Towards(x0, x1, i)) == i && Steps(y0, y1, Towards(y0, y1, j)) == j;
  }

  lemma EmptyWalk(x0: int, y0: int, x1: int, y1: int)
    ensures Walk(x0, y0, x1, y1, [])
  {
  }
}
