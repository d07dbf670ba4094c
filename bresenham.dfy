/** The cells the framebuffer's `line` primitive paints: the axis-aligned fast
    paths and the integer Bresenham walk of the general path, as pure
    functions, with the facts the drawing code relies on. */
module Bresenham {

  function Abs(n: int): nat
  {
    if n < 0 then -n else n
  }

  /** `a` lies on the closed integer interval spanned by `p` and `q`, in either order. */
  predicate Between(a: int, p: int, q: int)
  {
    (p <= a <= q) || (q <= a <= p)
  }

  /** The variables the general path updates on each pass: the current point
      and the running error. */
  datatype Cursor = Cursor(x: int, y: int, err: int)

  /** The state before the first pass: the start point and `err = dx + dy`,
      where `dx = |x1 - x0|` and `dy = -|y1 - y0|`. */
  function Start(x0: int, y0: int, x1: int, y1: int): Cursor
  {
    Cursor(x0, y0, Abs(x1 - x0) - Abs(y1 - y0))
  }

  /** The update after a plot: `e2 = 2 * err`; step x when `e2 >= dy`, step y
      when `e2 <= dx`. The step signs are fixed by the original endpoints. */
  function Step(x0: int, y0: int, x1: int, y1: int, c: Cursor): Cursor
  {
    var dx: int := Abs(x1 - x0);
    var dy := -(Abs(y1 - y0) as int);
    var sx := if x0 < x1 then 1 else -1;
    var sy := if y0 < y1 then 1 else -1;
    var e2 := 2 * c.err;
    var afterX := if e2 >= dy then Cursor(c.x + sx, c.y, c.err + dy) else c;
    if e2 <= dx then Cursor(afterX.x, afterX.y + sy, afterX.err + dx) else afterX
  }

  /** The walk's invariant: the point stays inside the endpoints' bounding box,
      and after u steps in x and v steps in y the error is `dx*(1+v) - |dy|*(1+u)`. */
  predicate Tracking(x0: int, y0: int, x1: int, y1: int, c: Cursor)
  {
    Between(c.x, x0, x1) && Between(c.y, y0, y1) &&
    c.err == Abs(x1 - x0) * (1 + Abs(c.y - y0)) - Abs(y1 - y0) * (1 + Abs(c.x - x0))
  }

  /** Manhattan distance left to the end point: the walk's termination measure. */
  function Remaining(x1: int, y1: int, c: Cursor): nat
  {
    Abs(x1 - c.x) + Abs(y1 - c.y)
  }

  lemma {:induction false} MulMono(a: nat, b: int, c: int)
    requires b <= c
    ensures a * b <= a * c
  {
    if a > 0 {
      MulMono(a - 1, b, c);
      assert a * b == (a - 1) * b + b;
      assert a * c == (a - 1) * c + c;
    }
  }

  lemma StartTracking(x0: int, y0: int, x1: int, y1: int)
    ensures Tracking(x0, y0, x1, y1, Start(x0, y0, x1, y1))
  {
  }

  /** At the end column the error is too low for an x step. */
  lemma NoStepPastX(dx: nat, ady: int, v: nat, err: int)
    requires v < ady && err == dx * (1 + v) - ady * (1 + dx)
    ensures 2 * err < -ady
  {
    MulMono(dx, 1 + v, ady);
  }

  /** At the end row the error is too high for a y step. */
  lemma NoStepPastY(dx: nat, ady: nat, u: nat, err: int)
    requires u < dx && err == dx * (1 + ady) - ady * (1 + u)
    ensures 2 * err > dx
  {
    MulMono(ady, 1 + u, dx);
  }

  /** Moving one unit toward `q` from a point strictly before it stays between
      `p` and `q` and is one unit farther from `p`. */
  lemma MoveToward(a: int, p: int, q: int)
    requires Between(a, p, q) && a != q
    ensures var a' := a + (if p < q then 1 else -1);
      Between(a', p, q) && Abs(a' - p) == Abs(a - p) + 1 && Abs(q - a') + 1 == Abs(q - a)
  {
  }

  /** One pass never overshoots: each coordinate moves one unit toward the end
      point exactly when its step condition holds, never past it, and the
      remaining distance strictly drops. */
  lemma StepMoves(x0: int, y0: int, x1: int, y1: int, c: Cursor)
    requires Tracking(x0, y0, x1, y1, c)
    requires !(c.x == x1 && c.y == y1)
    ensures var n := Step(x0, y0, x1, y1, c);
      Between(n.x, x0, x1) && Between(n.y, y0, y1) &&
      Abs(n.x - x0) == Abs(c.x - x0) + (if 2 * c.err >= -(Abs(y1 - y0) as int) then 1 else 0) &&
      Abs(n.y - y0) == Abs(c.y - y0) + (if 2 * c.err <= Abs(x1 - x0) then 1 else 0) &&
      Remaining(x1, y1, n) < Remaining(x1, y1, c)
  {
    var dx: int, ady: int := Abs(x1 - x0), Abs(y1 - y0);
    var u, v := Abs(c.x - x0), Abs(c.y - y0);
    if c.x == x1 {
      NoStepPastX(dx, ady, v, c.err);
    } else {
      MoveToward(c.x, x0, x1);
    }
    if c.y == y1 {
      NoStepPastY(dx, ady, u, c.err);
    } else {
      MoveToward(c.y, y0, y1);
    }
  }

  /** One pass keeps the walk's invariant and brings the cursor closer to the
      end point. */
  lemma StepProgress(x0: int, y0: int, x1: int, y1: int, c: Cursor)
    requires Tracking(x0, y0, x1, y1, c)
    requires !(c.x == x1 && c.y == y1)
    ensures Tracking(x0, y0, x1, y1, Step(x0, y0, x1, y1, c))
    ensures Remaining(x1, y1, Step(x0, y0, x1, y1, c)) < Remaining(x1, y1, c)
  {
    StepMoves(x0, y0, x1, y1, c);
    ErrStep(Abs(x1 - x0), Abs(y1 - y0), Abs(c.x - x0), Abs(c.y - y0), c.err,
      2 * c.err >= -(Abs(y1 - y0) as int), 2 * c.err <= Abs(x1 - x0));
  }

  /** The error update keeps the closed form `dx*(1+v) - ady*(1+u)`. */
  lemma ErrStep(dx: int, ady: int, u: int, v: int, err: int, stepX: bool, stepY: bool)
    requires err == dx * (1 + v) - ady * (1 + u)
    ensures (if stepX then err - ady else err) + (if stepY then dx else 0) ==
      dx * (1 + (if stepY then v + 1 else v)) - ady * (1 + (if stepX then u + 1 else u))
  {
    assert dx * (1 + (v + 1)) == dx * (1 + v) + dx;
    assert ady * (1 + (u + 1)) == ady * (1 + u) + ady;
  }

  /** The points the general path plots from cursor `c` on, in plotting order. */
  function Walk(x0: int, y0: int, x1: int, y1: int, c: Cursor): (pts: seq<(int, int)>)
    requires Tracking(x0, y0, x1, y1, c)
    decreases Remaining(x1, y1, c)
  {
    if c.x == x1 && c.y == y1 then [(c.x, c.y)]
    else
      StepProgress(x0, y0, x1, y1, c);
      [(c.x, c.y)] + Walk(x0, y0, x1, y1, Step(x0, y0, x1, y1, c))
  }

  /** One pass of the loop, seen from the walk: the current point is plotted
      and the walk goes on from the stepped cursor. */
  lemma WalkUnfold(x0: int, y0: int, x1: int, y1: int, c: Cursor)
    requires Tracking(x0, y0, x1, y1, c)
    requires !(c.x == x1 && c.y == y1)
    ensures Tracking(x0, y0, x1, y1, Step(x0, y0, x1, y1, c))
    ensures Remaining(x1, y1, Step(x0, y0, x1, y1, c)) < Remaining(x1, y1, c)
    ensures Walk(x0, y0, x1, y1, c) == [(c.x, c.y)] + Walk(x0, y0, x1, y1, Step(x0, y0, x1, y1, c))
  {
    StepProgress(x0, y0, x1, y1, c);
  }

  lemma AppendAssoc<T>(a: seq<T>, b: seq<T>, c: seq<T>)
    ensures a + (b + c) == (a + b) + c
  {
  }

  /** Every point the general path plots for the segment (x0, y0)-(x1, y1). */
  function Points(x0: int, y0: int, x1: int, y1: int): seq<(int, int)>
  {
    StartTracking(x0, y0, x1, y1);
    Walk(x0, y0, x1, y1, Start(x0, y0, x1, y1))
  }

  /** Cell (px, py) is painted by `line(x0, y0, x1, y1)` when it lies in the
      buffer: a run between the endpoints for a horizontal or vertical line,
      a point of the Bresenham walk otherwise. */
  predicate OnLine(x0: int, y0: int, x1: int, y1: int, px: int, py: int)
  {
    if y0 == y1 then py == y0 && Between(px, x0, x1)
    else if x0 == x1 then px == x0 && Between(py, y0, y1)
    else (px, py) in Points(x0, y0, x1, y1)
  }

  lemma {:induction false} WalkReachesEnd(x0: int, y0: int, x1: int, y1: int, c: Cursor)
    requires Tracking(x0, y0, x1, y1, c)
    ensures Walk(x0, y0, x1, y1, c)[0] == (c.x, c.y)
    ensures (x1, y1) in Walk(x0, y0, x1, y1, c)
    decreases Remaining(x1, y1, c)
  {
    if !(c.x == x1 && c.y == y1) {
      StepProgress(x0, y0, x1, y1, c);
      WalkReachesEnd(x0, y0, x1, y1, Step(x0, y0, x1, y1, c));
    }
  }

  lemma {:induction false} WalkInBox(x0: int, y0: int, x1: int, y1: int, c: Cursor, p: (int, int))
    requires Tracking(x0, y0, x1, y1, c)
    requires p in Walk(x0, y0, x1, y1, c)
    ensures Between(p.0, x0, x1) && Between(p.1, y0, y1)
    decreases Remaining(x1, y1, c)
  {
    if !(c.x == x1 && c.y == y1) && p != (c.x, c.y) {
      StepProgress(x0, y0, x1, y1, c);
      WalkInBox(x0, y0, x1, y1, Step(x0, y0, x1, y1, c), p);
    }
  }

  /** On a horizontal segment the walk plots exactly the run from the cursor to x1. */
  lemma {:induction false} WalkHorizontal(x0: int, y0: int, x1: int, y1: int, c: Cursor, p: (int, int))
    requires y0 == y1 && Tracking(x0, y0, x1, y1, c)
    ensures p in Walk(x0, y0, x1, y1, c) <==> p.1 == y0 && Between(p.0, c.x, x1)
    decreases Remaining(x1, y1, c)
  {
    if !(c.x == x1 && c.y == y1) {
      StepProgress(x0, y0, x1, y1, c);
      var n := Step(x0, y0, x1, y1, c);
      assert n == Cursor(c.x + (if x0 < x1 then 1 else -1), c.y, c.err);
      WalkHorizontal(x0, y0, x1, y1, n, p);
    }
  }

  /** On a vertical segment the walk plots exactly the run from the cursor to y1. */
  lemma {:induction false} WalkVertical(x0: int, y0: int, x1: int, y1: int, c: Cursor, p: (int, int))
    requires x0 == x1 && Tracking(x0, y0, x1, y1, c)
    ensures p in Walk(x0, y0, x1, y1, c) <==> p.0 == x0 && Between(p.1, c.y, y1)
    decreases Remaining(x1, y1, c)
  {
    if !(c.x == x1 && c.y == y1) {
      StepProgress(x0, y0, x1, y1, c);
      var n := Step(x0, y0, x1, y1, c);
      assert n == Cursor(c.x, c.y + (if y0 < y1 then 1 else -1), c.err);
      WalkVertical(x0, y0, x1, y1, n, p);
    }
  }

  /** On a 45-degree segment the error stays 0 and every pass steps both
      coordinates, so the walk plots exactly the diagonal from the cursor. */
  lemma {:induction false} WalkDiagonal(x0: int, y0: int, x1: int, y1: int, c: Cursor, p: (int, int))
    requires Abs(x1 - x0) == Abs(y1 - y0) && Tracking(x0, y0, x1, y1, c)
    requires Abs(c.x - x0) == Abs(c.y - y0)
    ensures p in Walk(x0, y0, x1, y1, c) <==>
      Between(p.0, c.x, x1) && Between(p.1, c.y, y1) && Abs(p.0 - c.x) == Abs(p.1 - c.y)
    decreases Remaining(x1, y1, c)
  {
    if !(c.x == x1 && c.y == y1) {
      StepProgress(x0, y0, x1, y1, c);
      assert c.err == 0;
      var n := Step(x0, y0, x1, y1, c);
      assert n == Cursor(c.x + (if x0 < x1 then 1 else -1), c.y + (if y0 < y1 then 1 else -1), 0);
      WalkDiagonal(x0, y0, x1, y1, n, p);
    }
  }

  /** Both endpoints are always painted (when they lie in the buffer). */
  lemma LineEndpoints(x0: int, y0: int, x1: int, y1: int)
    ensures OnLine(x0, y0, x1, y1, x0, y0)
    ensures OnLine(x0, y0, x1, y1, x1, y1)
  {
    StartTracking(x0, y0, x1, y1);
    WalkReachesEnd(x0, y0, x1, y1, Start(x0, y0, x1, y1));
  }

  /** A line never paints outside its endpoints' bounding box. */
  lemma LineInBox(x0: int, y0: int, x1: int, y1: int, px: int, py: int)
    requires OnLine(x0, y0, x1, y1, px, py)
    ensures Between(px, x0, x1) && Between(py, y0, y1)
  {
    if y0 != y1 && x0 != x1 {
      StartTracking(x0, y0, x1, y1);
      WalkInBox(x0, y0, x1, y1, Start(x0, y0, x1, y1), (px, py));
    }
  }

  /** The horizontal and vertical fast paths paint the same cells as the
      general Bresenham path would, whatever the endpoint order. */
  lemma FastPathsMatchWalk(x0: int, y0: int, x1: int, y1: int, px: int, py: int)
    requires y0 == y1 || x0 == x1
    ensures OnLine(x0, y0, x1, y1, px, py) <==> (px, py) in Points(x0, y0, x1, y1)
  {
    StartTracking(x0, y0, x1, y1);
    if y0 == y1 {
      WalkHorizontal(x0, y0, x1, y1, Start(x0, y0, x1, y1), (px, py));
    } else {
      WalkVertical(x0, y0, x1, y1, Start(x0, y0, x1, y1), (px, py));
    }
  }

  /** A 45-degree line paints exactly the cells on the diagonal between its endpoints. */
  lemma LineDiagonal(x0: int, y0: int, x1: int, y1: int, px: int, py: int)
    requires Abs(x1 - x0) == Abs(y1 - y0)
    ensures OnLine(x0, y0, x1, y1, px, py) <==>
      Between(px, x0, x1) && Between(py, y0, y1) && Abs(px - x0) == Abs(py - y0)
  {
    if x0 != x1 {
      StartTracking(x0, y0, x1, y1);
      WalkDiagonal(x0, y0, x1, y1, Start(x0, y0, x1, y1), (px, py));
    }
  }

  /** `line(0, 0, 9, 9)` paints exactly the cells (i, i) for i in 0..9. */
  lemma LineDiagonalExample(px: int, py: int)
    ensures OnLine(0, 0, 9, 9, px, py) <==> 0 <= px <= 9 && py == px
  {
    LineDiagonal(0, 0, 9, 9, px, py);
  }
}
