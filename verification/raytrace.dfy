/** The grid walk between two points (minesweeper/raytrace.py, int_trace): from the start it
    takes one unit step at a time along x or y, choosing by an error term, and yields every
    position it stands on. */
module RayTrace {

  type Point = (int, int)

  function Abs(v: int): nat {
    if v < 0 then -v else v
  }

  /** Moving `d` along an axis in direction `inc`, which is 1 or -1. */
  function Along(d: nat, inc: int): int {
    if inc == 1 then d else -(d as int)
  }

  /** Two positions one unit apart along exactly one axis. */
  predicate UnitStep(p: Point, q: Point) {
    (Abs(q.0 - p.0) == 1 && q.1 == p.1) || (q.0 == p.0 && Abs(q.1 - p.1) == 1)
  }

  /** Every position of the walk lies between the start and the end along each axis. */
  ghost predicate Between(p: Point, x0: int, y0: int, dx: nat, dy: nat, incX: int, incY: int) {
    && (if incX == 1 then x0 <= p.0 <= x0 + dx else x0 - dx <= p.0 <= x0)
    && (if incY == 1 then y0 <= p.1 <= y0 + dy else y0 - dy <= p.1 <= y0)
  }

  /** The walk shared by both directions: `dx + dy` unit steps from `(x0, y0)`, stepping x by
      `incX` while the error term is positive and y by `incY` otherwise, with the distances
      doubled in the error updates. The source yields before each update and makes one update
      after the last yield; that update changes nothing yielded and is not modelled. Exactly
      `dx` steps go along x and `dy` along y, so the walk ends `dx` and `dy` away. */
  method Walk(x0: int, y0: int, dx: nat, dy: nat, incX: int, incY: int) returns (pts: seq<Point>)
    requires incX == 1 || incX == -1
    requires incY == 1 || incY == -1
    ensures |pts| == 1 + dx + dy
    ensures pts[0] == (x0, y0)
    ensures forall i | 0 <= i < |pts| - 1 :: Stride(pts[i], pts[i + 1], incX, incY)
    ensures pts[|pts| - 1] == (x0 + Along(dx, incX), y0 + Along(dy, incY))
    ensures forall i | 0 <= i < |pts| :: Between(pts[i], x0, y0, dx, dy, incX, incY)
  {
    var x, y := x0, y0;
    var error := dx - dy;
    var a, b := 0, 0;
    pts := [(x, y)];
    while a + b < dx + dy
      invariant a <= dx && b <= dy
      invariant x == x0 + Along(a, incX) && y == y0 + Along(b, incY)
      invariant error == ErrorAt(dx, dy, a, b)
      invariant WalkInv(pts, x0, y0, dx, dy, incX, incY, a, b)
      decreases dx + dy - (a + b)
    {
      StepStaysInside(dx, dy, a, b, error);
      WalkStep(pts, x0, y0, dx, dy, incX, incY, a, b, error > 0);
      if error > 0 {
        x, a := x + incX, a + 1;
        error := error - 2 * dy;
      } else {
        y, b := y + incY, b + 1;
        error := error + 2 * dx;
      }
      pts := pts + [(x, y)];
    }
  }

  /** The error term after `a` steps along x and `b` along y. */
  function ErrorAt(dx: nat, dy: nat, a: nat, b: nat): int {
    dx - dy - 2 * dy * a + 2 * dx * b
  }

  /** One step of the walk: a unit step, each axis moving only in its direction. */
  predicate Stride(p: Point, q: Point, incX: int, incY: int) {
    && UnitStep(p, q)
    && (q.0 == p.0 || q.0 == p.0 + incX)
    && (q.1 == p.1 || q.1 == p.1 + incY)
  }

  /** The walk so far: `a + b` strides from the start to `a` along x and `b` along y. */
  ghost predicate WalkInv(pts: seq<Point>, x0: int, y0: int, dx: nat, dy: nat, incX: int, incY: int, a: nat, b: nat) {
    && a <= dx && b <= dy
    && |pts| == 1 + a + b && pts[0] == (x0, y0)
    && pts[|pts| - 1] == (x0 + Along(a, incX), y0 + Along(b, incY))
    && (forall i | 0 <= i < |pts| - 1 :: Stride(pts[i], pts[i + 1], incX, incY))
    && (forall i | 0 <= i < |pts| :: Between(pts[i], x0, y0, dx, dy, incX, incY))
  }

  lemma WalkStep(pts: seq<Point>, x0: int, y0: int, dx: nat, dy: nat, incX: int, incY: int,
                  a: nat, b: nat, alongX: bool)
    requires incX == 1 || incX == -1
    requires incY == 1 || incY == -1
    requires WalkInv(pts, x0, y0, dx, dy, incX, incY, a, b)
    requires if alongX then a < dx else b < dy
    ensures var (a', b') := if alongX then (a + 1, b) else (a, b + 1);
            WalkInv(pts + [(x0 + Along(a', incX), y0 + Along(b', incY))], x0, y0, dx, dy, incX, incY, a', b')
  {
  }

  /** The error term never sends a step along an axis that is already done: with every x step
      taken it is not positive, and with every y step taken it is. */
  lemma StepStaysInside(dx: nat, dy: nat, a: nat, b: nat, error: int)
    requires a <= dx && b <= dy && a + b < dx + dy
    requires error == ErrorAt(dx, dy, a, b)
    ensures error > 0 ==> a < dx && error - 2 * dy == ErrorAt(dx, dy, a + 1, b)
    ensures error <= 0 ==> b < dy && error + 2 * dx == ErrorAt(dx, dy, a, b + 1)
  {
    ErrorShift(dx, dy, a, b);
    if a == dx {
      XDone(dx, dy, b);
    }
    if b == dy {
      YDone(dx, dy, a);
    }
  }

  lemma ErrorShift(dx: nat, dy: nat, a: nat, b: nat)
    ensures ErrorAt(dx, dy, a + 1, b) == ErrorAt(dx, dy, a, b) - 2 * dy
    ensures ErrorAt(dx, dy, a, b + 1) == ErrorAt(dx, dy, a, b) + 2 * dx
  {
    assert dy * (a + 1) == dy * a + dy;
    assert dx * (b + 1) == dx * b + dx;
  }

  /** With every x step taken and a y step left, the error term is not positive. */
  lemma XDone(dx: nat, dy: nat, b: nat)
    requires b < dy
    ensures ErrorAt(dx, dy, dx, b) <= 0
  {
    var k := dy - b - 1;
    assert dx * k >= 0;
    assert 2 * dx * b == 2 * dx * dy - 2 * dx - 2 * dx * k by {
      assert b == dy - 1 - k;
    }
  }

  /** With every y step taken and an x step left, the error term is positive. */
  lemma YDone(dx: nat, dy: nat, a: nat)
    requires a < dx
    ensures ErrorAt(dx, dy, a, dy) > 0
  {
    var k := dx - a - 1;
    assert dy * k >= 0;
    assert 2 * dy * a == 2 * dy * dx - 2 * dy - 2 * dy * k by {
      assert a == dx - 1 - k;
    }
  }

  /** The x or y direction int_trace steps in: 1 whenever the distance is non-zero, -1 when
      it is zero, whichever way the end lies. */
  function IncAsWritten(delta: int): int {
    if Abs(delta) > 0 then 1 else -1
  }

  /** Where int_trace as written ends. */
  function EndAsWritten(x0: int, y0: int, x1: int, y1: int): Point {
    (x0 + Along(Abs(x1 - x0), IncAsWritten(x1 - x0)), y0 + Along(Abs(y1 - y0), IncAsWritten(y1 - y0)))
  }

  /** int_trace as written: `1 + |x1-x0| + |y1-y0|` unit-step positions from the start, ending
      at the far point only when it lies right of and below the start (or level with it). */
  method IntTraceAsWritten(x0: int, y0: int, x1: int, y1: int) returns (pts: seq<Point>)
    ensures |pts| == 1 + Abs(x1 - x0) + Abs(y1 - y0)
    ensures pts[0] == (x0, y0)
    ensures forall i | 0 <= i < |pts| - 1 :: UnitStep(pts[i], pts[i + 1])
    ensures pts[|pts| - 1] == EndAsWritten(x0, y0, x1, y1)
    ensures pts[|pts| - 1] == (x1, y1) <==> x1 >= x0 && y1 >= y0
  {
    pts := Walk(x0, y0, Abs(x1 - x0), Abs(y1 - y0), IncAsWritten(x1 - x0), IncAsWritten(y1 - y0));
  }

  /** Tracing from (1, 0) back to (0, 0) walks away from the target and ends at (2, 0). */
  lemma TraceWalksAway()
    ensures EndAsWritten(1, 0, 0, 0) == (2, 0)
  {
  }

  /** The direction evidently intended: the sign of the change. */
  function Inc(delta: int): int {
    if delta >= 0 then 1 else -1
  }

  /** int_trace with each axis stepped toward the far point: the same number of unit steps,
      every one of them closer to the far point along its axis, ending exactly there. */
  method IntTrace(x0: int, y0: int, x1: int, y1: int) returns (pts: seq<Point>)
    ensures |pts| == 1 + Abs(x1 - x0) + Abs(y1 - y0)
    ensures pts[0] == (x0, y0) && pts[|pts| - 1] == (x1, y1)
    ensures forall i | 0 <= i < |pts| - 1 ::
              && UnitStep(pts[i], pts[i + 1])
              && Abs(x1 - pts[i + 1].0) + Abs(y1 - pts[i + 1].1) + 1 == Abs(x1 - pts[i].0) + Abs(y1 - pts[i].1)
  {
    pts := Walk(x0, y0, Abs(x1 - x0), Abs(y1 - y0), Inc(x1 - x0), Inc(y1 - y0));
    forall i | 0 <= i < |pts| - 1
      ensures Abs(x1 - pts[i + 1].0) + Abs(y1 - pts[i + 1].1) + 1 == Abs(x1 - pts[i].0) + Abs(y1 - pts[i].1)
    {
      assert Between(pts[i], x0, y0, Abs(x1 - x0), Abs(y1 - y0), Inc(x1 - x0), Inc(y1 - y0));
      assert Between(pts[i + 1], x0, y0, Abs(x1 - x0), Abs(y1 - y0), Inc(x1 - x0), Inc(y1 - y0));
    }
  }
}
