/**
 Row-major cells of a rectangular map, 8-adjacency and Euclidean distance.
 The square root is a parameter: any function that is an exact square root of nonnegative reals.
 */
module Grid {
  import opened Numbers

  ghost predicate IsSqrt(sqrt: real -> real) {
    forall x :: x >= 0.0 ==> sqrt(x) >= 0.0 && sqrt(x) * sqrt(x) == x
  }

  function Norm(sqrt: real -> real, dx: real, dy: real): real {
    sqrt(dx * dx + dy * dy)
  }

  function X(cell: int, width: int): int
    requires width > 0
  {
    cell % width
  }

  function Y(cell: int, width: int): int
    requires width > 0
  {
    cell / width
  }

  /** The two cells touch by a side or a corner and are not the same cell. */
  predicate Adjacent(u: int, v: int, width: int)
    requires width > 0
  {
    && -1 <= X(u, width) - X(v, width) <= 1
    && -1 <= Y(u, width) - Y(v, width) <= 1
    && u != v
  }

  predicate Diagonal(u: int, v: int, width: int)
    requires width > 0
  {
    X(u, width) != X(v, width) && Y(u, width) != Y(v, width)
  }

  /** Distance between the centres of two adjacent cells. */
  function StepLength(sqrt: real -> real, u: int, v: int, width: int): real
    requires width > 0
  {
    if Diagonal(u, v, width) then sqrt(2.0) else 1.0
  }

  /** Distance from a cell to a point given in cell coordinates. */
  function Distance(sqrt: real -> real, cell: int, width: int, tx: real, ty: real): real
    requires width > 0
  {
    Norm(sqrt, X(cell, width) as real - tx, Y(cell, width) as real - ty)
  }

  /** The distance is the nonnegative one whose square is the sum of the squared differences. */
  lemma DistanceIsEuclidean(sqrt: real -> real, cell: int, width: int, tx: real, ty: real)
    requires width > 0 && IsSqrt(sqrt)
    ensures var d, dx, dy := Distance(sqrt, cell, width, tx, ty), X(cell, width) as real - tx, Y(cell, width) as real - ty;
            d >= 0.0 && d * d == dx * dx + dy * dy
  {
    var dx, dy := X(cell, width) as real - tx, Y(cell, width) as real - ty;
    SquareNonNegative(dx);
    SquareNonNegative(dy);
  }

  lemma PositiveProduct(a: real, b: real)
    requires a > 0.0 && b > 0.0
    ensures a * b > 0.0
  {
  }

  lemma SquareStrict(a: real, b: real)
    requires 0.0 <= b < a
    ensures b * b < a * a
  {
    PositiveProduct(a - b, a + b);
  }

  lemma SquareOrder(a: real, b: real)
    requires 0.0 <= a && 0.0 <= b && a * a <= b * b
    ensures a <= b
  {
    if b < a {
      SquareStrict(a, b);
    }
  }

  lemma ProductSquare(a: real, b: real)
    ensures (a * b) * (a * b) == (a * a) * (b * b)
  {
    calc {
      (a * b) * (a * b);
      a * (b * (a * b));
      a * (a * (b * b));
      (a * a) * (b * b);
    }
  }

  /** Lagrange's identity in the plane. */
  lemma Lagrange(qx: real, qy: real, sx: real, sy: real)
    ensures (qx * qx + qy * qy) * (sx * sx + sy * sy) ==
            (qx * sx + qy * sy) * (qx * sx + qy * sy) + (qx * sy - qy * sx) * (qx * sy - qy * sx)
  {
    ProductSquare(qx, sx);
    ProductSquare(qy, sy);
    ProductSquare(qx, sy);
    ProductSquare(qy, sx);
    Expand(qx * sx, qy * sy);
    Expand(qx * sy, -(qy * sx));
    assert (qx * sx) * (qy * sy) == (qx * sy) * (qy * sx);
    Distribute(qx * qx, qy * qy, sx * sx, sy * sy);
  }

  lemma Distribute(a: real, b: real, e: real, f: real)
    ensures (a + b) * (e + f) == a * e + a * f + b * e + b * f
  {
  }

  lemma SquareNonNegative(a: real)
    ensures a * a >= 0.0
  {
  }

  /** Cauchy-Schwarz in the plane, for vectors of lengths `Q` and `S`. */
  lemma Cauchy(qx: real, qy: real, sx: real, sy: real, Q: real, S: real)
    requires Q >= 0.0 && S >= 0.0 && Q * Q == qx * qx + qy * qy && S * S == sx * sx + sy * sy
    ensures qx * sx + qy * sy <= Q * S
  {
    var c, d := qx * sx + qy * sy, qx * sy - qy * sx;
    assert Q * S >= 0.0;
    if c > 0.0 {
      assert c * c <= (Q * S) * (Q * S) by {
        Lagrange(qx, qy, sx, sy);
        ProductSquare(Q, S);
        SquareNonNegative(d);
      }
      SquareOrder(c, Q * S);
    }
  }

  /** The triangle inequality for the Euclidean norm. */
  lemma Triangle(sqrt: real -> real, px: real, py: real, qx: real, qy: real)
    requires IsSqrt(sqrt)
    ensures Norm(sqrt, px, py) <= Norm(sqrt, qx, qy) + Norm(sqrt, px - qx, py - qy)
  {
    var sx, sy := px - qx, py - qy;
    SumOfSquares(px, py);
    SumOfSquares(qx, qy);
    SumOfSquares(sx, sy);
    var P, Q, S := Norm(sqrt, px, py), Norm(sqrt, qx, qy), Norm(sqrt, sx, sy);
    Cauchy(qx, qy, sx, sy, Q, S);
    Expand(qx, sx);
    Expand(qy, sy);
    Expand(Q, S);
    assert px == qx + sx && py == qy + sy;
    assert P * P <= (Q + S) * (Q + S);
    SquareOrder(P, Q + S);
  }

  lemma SumOfSquares(a: real, b: real)
    ensures a * a + b * b >= 0.0
  {
  }

  lemma Expand(a: real, b: real)
    ensures (a + b) * (a + b) == a * a + 2.0 * (a * b) + b * b
  {
  }

  lemma SqrtAt(sqrt: real -> real, x: real)
    requires IsSqrt(sqrt) && x >= 0.0
    ensures sqrt(x) >= 0.0 && sqrt(x) * sqrt(x) == x
  {
  }

  lemma UnitSquares(d: int)
    requires -1 <= d <= 1
    ensures (d as real) * (d as real) == if d == 0 then 0.0 else 1.0
  {
  }

  /** The step length is the Euclidean distance between the two cells. */
  lemma StepLengthIsNorm(sqrt: real -> real, u: int, v: int, width: int)
    requires IsSqrt(sqrt) && width > 0 && Adjacent(u, v, width)
    ensures Norm(sqrt, (X(u, width) - X(v, width)) as real, (Y(u, width) - Y(v, width)) as real) == StepLength(sqrt, u, v, width)
    ensures StepLength(sqrt, u, v, width) >= 1.0
  {
    var dx, dy := X(u, width) - X(v, width), Y(u, width) - Y(v, width);
    if dx == 0 && dy == 0 {
      SameCell(u, v, width);
    }
    UnitSquares(dx);
    UnitSquares(dy);
    SqrtAt(sqrt, 1.0);
    SqrtAt(sqrt, 2.0);
    SquareOrder(1.0, sqrt(2.0));
    SquareOrder(1.0, sqrt(1.0));
    SquareOrder(sqrt(1.0), 1.0);
  }

  /** Moving to an adjacent cell changes the distance to any point by at most the step length. */
  lemma StepChangesDistance(sqrt: real -> real, u: int, v: int, width: int, tx: real, ty: real)
    requires IsSqrt(sqrt) && width > 0 && Adjacent(u, v, width)
    ensures Distance(sqrt, u, width, tx, ty) <= StepLength(sqrt, u, v, width) + Distance(sqrt, v, width, tx, ty)
    ensures StepLength(sqrt, u, v, width) >= 1.0
  {
    hide IsSqrt, Norm, X, Y, Adjacent, StepLength;
    var ux, uy := X(u, width) as real - tx, Y(u, width) as real - ty;
    var vx, vy := X(v, width) as real - tx, Y(v, width) as real - ty;
    Triangle(sqrt, ux, uy, vx, vy);
    StepLengthIsNorm(sqrt, u, v, width);
    assert ux - vx == (X(u, width) - X(v, width)) as real && uy - vy == (Y(u, width) - Y(v, width)) as real;
  }

  lemma SameCell(u: int, v: int, width: int)
    requires width > 0 && X(u, width) == X(v, width) && Y(u, width) == Y(v, width)
    ensures u == v
  {
  }

  lemma RowMajor(x: int, y: int, width: int, height: int)
    requires 0 <= x < width && 0 <= y < height
    ensures 0 <= y * width + x < width * height
  {
    MulLe(y + 1, height, width);
  }

  /** A cell is its row times the width plus its column. */
  lemma Rebuild(cell: int, width: int)
    requires width > 0
    ensures cell == Y(cell, width) * width + X(cell, width) && 0 <= X(cell, width) < width
  {
  }

  /** Coordinates determine the quotient and remainder. */
  lemma Coordinates(cell: int, x: int, y: int, width: int)
    requires width > 0 && 0 <= x < width && cell == y * width + x
    ensures X(cell, width) == x && Y(cell, width) == y
  {
    var q := cell / width;
    var d := y - q;
    assert d * width == cell % width - x;
  }

  /** The index difference of two cells, in rows and columns. */
  lemma StepBetween(u: int, v: int, width: int)
    requires width > 0
    ensures v == u + (Y(v, width) - Y(u, width)) * width + (X(v, width) - X(u, width))
  {
    assert u == Y(u, width) * width + X(u, width) && v == Y(v, width) * width + X(v, width);
    assert (Y(v, width) - Y(u, width)) * width == Y(v, width) * width - Y(u, width) * width;
  }
}
