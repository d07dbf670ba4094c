/** The framebuffer `Model`: a w-by-h grid of RGB triples addressed `fb[x, y]`,
    with the in-place drawing primitives clear, pixel, line, rect and circle.
    Every primitive clips to the buffer: cells outside it are silently skipped. */
module Framebuffer {
  import opened Bresenham

  /** One colour channel, stored as an unsigned byte. */
  newtype Channel = c: int | 0 <= c < 256

  datatype RGB = RGB(r: Channel, g: Channel, b: Channel)

  function Max(a: int, b: int): int { if a < b then b else a }

  function Min(a: int, b: int): int { if a < b then a else b }

  /** Cell (px, py) is painted by `rect(x, y, width, height, fill)`: it lies on
      one of the four border lines drawn with `line`, or `fill` is set and it
      lies strictly inside the rectangle. */
  predicate InRect(x: int, y: int, width: int, height: int, fill: bool, px: int, py: int)
  {
    OnLine(x, y, x + width - 1, y, px, py) ||
    OnLine(x, y, x, y + height - 1, px, py) ||
    OnLine(x + width - 1, y, x + width - 1, y + height - 1, px, py) ||
    OnLine(x, y + height - 1, x + width - 1, y + height - 1, px, py) ||
    (fill && x + 1 <= px <= x + width - 2 && y + 1 <= py <= y + height - 2)
  }

  /** The circle's mask on the offset (dx, dy) from the centre: the disc
      `dx² + dy² <= radius²` when filled, the tolerance band
      `radius² - radius <= dx² + dy² <= radius² + radius` for an outline. */
  predicate CircleMask(dx: int, dy: int, radius: int, fill: bool)
  {
    var dist2 := dx * dx + dy * dy;
    var r2 := radius * radius;
    if fill then dist2 <= r2 else r2 - radius <= dist2 <= r2 + radius
  }

  /** Cell (px, py) is painted by `circle(cx, cy, radius, fill)`: it lies in the
      bounding box of side `2 * radius + 1` around the centre and passes the mask. */
  predicate InCircle(cx: int, cy: int, radius: int, fill: bool, px: int, py: int)
  {
    cx - radius <= px <= cx + radius && cy - radius <= py <= cy + radius &&
    CircleMask(px - cx, py - cy, radius, fill)
  }

  class Model {
    const w: nat
    const h: nat
    const fb: array2<RGB>

    predicate Valid()
    {
      fb.Length0 == w && fb.Length1 == h
    }

    /** A fresh w-by-h buffer, every cell black. */
    constructor (w: nat, h: nat)
      ensures Valid() && this.w == w && this.h == h && fresh(fb)
      ensures forall i, j :: 0 <= i < w && 0 <= j < h ==> fb[i, j] == RGB(0, 0, 0)
    {
      this.w := w;
      this.h := h;
      fb := new RGB[w, h]((i, j) => RGB(0, 0, 0));
    }

    /** `clear(v)`: the grey form, every cell becomes (v, v, v). */
    method ClearGrey(v: Channel)
      requires Valid()
      modifies fb
      ensures forall i, j :: 0 <= i < w && 0 <= j < h ==> fb[i, j] == RGB(v, v, v)
    {
      ClearRgb(v, v, v);
    }

    /** `clear(r, g, b)`: every cell becomes (r, g, b). */
    method ClearRgb(r: Channel, g: Channel, b: Channel)
      requires Valid()
      modifies fb
      ensures forall i, j :: 0 <= i < w && 0 <= j < h ==> fb[i, j] == RGB(r, g, b)
    {
      forall i, j | 0 <= i < w && 0 <= j < h {
        fb[i, j] := RGB(r, g, b);
      }
    }

    /** Writes cell (x, y) when it lies in the buffer; any other call is a no-op. */
    method Pixel(x: int, y: int, r: Channel, g: Channel, b: Channel)
      requires Valid()
      modifies fb
      ensures forall i, j :: 0 <= i < w && 0 <= j < h ==>
        fb[i, j] == if i == x && j == y then RGB(r, g, b) else old(fb[i, j])
    {
      if 0 <= x < w && 0 <= y < h {
        fb[x, y] := RGB(r, g, b);
      }
    }

    /** Paints exactly the in-buffer cells of the segment (x0, y0)-(x1, y1). */
    method Line(x0: int, y0: int, x1: int, y1: int, r: Channel, g: Channel, b: Channel)
      requires Valid()
      modifies fb
      ensures forall i, j :: 0 <= i < w && 0 <= j < h ==>
        fb[i, j] == if OnLine(x0, y0, x1, y1, i, j) then RGB(r, g, b) else old(fb[i, j])
    {
      var colour := RGB(r, g, b);
      // horizontal fast path
      if y0 == y1 {
        var xa, xb := x0, x1;
        if xa > xb {
          xa, xb := xb, xa;
        }
        if y0 < 0 || y0 >= h {
          return;
        }
        var xStart := Max(0, xa);
        var xEnd := Min(w, xb + 1);
        if xStart < xEnd {
          forall i | xStart <= i < xEnd {
            fb[i, y0] := colour;
          }
        }
        return;
      }
      // vertical fast path
      if x0 == x1 {
        var ya, yb := y0, y1;
        if ya > yb {
          ya, yb := yb, ya;
        }
        if x0 < 0 || x0 >= w {
          return;
        }
        var yStart := Max(0, ya);
        var yEnd := Min(h, yb + 1);
        if yStart < yEnd {
          forall j | yStart <= j < yEnd {
            fb[x0, j] := colour;
          }
        }
        return;
      }
      // general path
      LineGeneral(x0, y0, x1, y1, colour);
    }

    /** The general path of `line`: the integer Bresenham loop, plotting each
        visited point that lies in the buffer until the end point is reached.
        The loop's bounds-checked write is exactly `Pixel`. */
    method LineGeneral(x0: int, y0: int, x1: int, y1: int, colour: RGB)
      requires Valid()
      modifies fb
      ensures forall i, j :: 0 <= i < w && 0 <= j < h ==>
        fb[i, j] == if (i, j) in Points(x0, y0, x1, y1) then colour else old(fb[i, j])
    {
      var dx: int := Abs(x1 - x0);
      var dy := -(Abs(y1 - y0) as int);
      var sx := if x0 < x1 then 1 else -1;
      var sy := if y0 < y1 then 1 else -1;
      var err := dx + dy;
      var x, y := x0, y0;
      ghost var plotted: seq<(int, int)> := [];
      StartTracking(x0, y0, x1, y1);
      while true
        invariant Tracking(x0, y0, x1, y1, Cursor(x, y, err))
        invariant plotted + Walk(x0, y0, x1, y1, Cursor(x, y, err)) == Points(x0, y0, x1, y1)
        invariant forall i, j :: 0 <= i < w && 0 <= j < h ==>
          fb[i, j] == if (i, j) in plotted then colour else old(fb[i, j])
        decreases Remaining(x1, y1, Cursor(x, y, err))
      {
        Pixel(x, y, colour.r, colour.g, colour.b);
        if x == x1 && y == y1 {
          plotted := plotted + [(x, y)];
          break;
        }
        ghost var before := Cursor(x, y, err);
        var e2 := 2 * err;
        if e2 >= dy {
          err := err + dy;
          x := x + sx;
        }
        if e2 <= dx {
          err := err + dx;
          y := y + sy;
        }
        assert Cursor(x, y, err) == Step(x0, y0, x1, y1, before);
        WalkUnfold(x0, y0, x1, y1, before);
        AppendAssoc(plotted, [(before.x, before.y)], Walk(x0, y0, x1, y1, Cursor(x, y, err)));
        plotted := plotted + [(before.x, before.y)];
      }
    }

    /** Paints the four border lines of the rectangle with corners (x, y) and
        (x + width - 1, y + height - 1) and, with `fill`, its interior, clipped
        to the buffer. */
    method Rect(x: int, y: int, width: int, height: int, r: Channel, g: Channel, b: Channel, fill: bool)
      requires Valid()
      modifies fb
      ensures forall i, j :: 0 <= i < w && 0 <= j < h ==>
        fb[i, j] == if InRect(x, y, width, height, fill, i, j) then RGB(r, g, b) else old(fb[i, j])
    {
      Line(x, y, x + width - 1, y, r, g, b);                            // top
      Line(x, y, x, y + height - 1, r, g, b);                           // left
      Line(x + width - 1, y, x + width - 1, y + height - 1, r, g, b);   // right
      Line(x, y + height - 1, x + width - 1, y + height - 1, r, g, b);  // bottom
      if fill {
        var xStart := Max(0, x + 1);
        var xEnd := Min(w, x + width - 1);
        var yStart := Max(0, y + 1);
        var yEnd := Min(h, y + height - 1);
        if xStart < xEnd && yStart < yEnd {
          forall i, j | xStart <= i < xEnd && yStart <= j < yEnd {
            fb[i, j] := RGB(r, g, b);
          }
        }
      }
    }

    /** Paints every in-buffer cell of the circle's bounding box that passes
        the mask; when the box misses the buffer nothing is written. */
    method Circle(cx: int, cy: int, radius: int, r: Channel, g: Channel, b: Channel, fill: bool)
      requires Valid()
      modifies fb
      ensures forall i, j :: 0 <= i < w && 0 <= j < h ==>
        fb[i, j] == if InCircle(cx, cy, radius, fill, i, j) then RGB(r, g, b) else old(fb[i, j])
    {
      var xStart := Max(0, cx - radius);
      var xEnd := Min(w, cx + radius + 1);
      var yStart := Max(0, cy - radius);
      var yEnd := Min(h, cy + radius + 1);
      if xStart >= xEnd || yStart >= yEnd {
        return;
      }
      forall i, j | xStart <= i < xEnd && yStart <= j < yEnd && CircleMask(i - cx, j - cy, radius, fill) {
        fb[i, j] := RGB(r, g, b);
      }
    }
  }

  /** For a non-degenerate rectangle the painted cells are exactly those of
      the rectangle [x, x+width-1] x [y, y+height-1]: all of them with `fill`,
      only its one-cell border without. Nothing outside is painted. */
  lemma RectShape(x: int, y: int, width: int, height: int, fill: bool, px: int, py: int)
    requires width >= 1 && height >= 1
    ensures InRect(x, y, width, height, fill, px, py) <==>
      x <= px <= x + width - 1 && y <= py <= y + height - 1 &&
      (fill || px == x || px == x + width - 1 || py == y || py == y + height - 1)
  {
  }

  /** `rect(2, 2, 5, 4)` outlines columns 2..6 and rows 2..5 and leaves (4, 3) alone. */
  lemma RectOutlineExample(px: int, py: int)
    ensures InRect(2, 2, 5, 4, false, px, py) <==>
      2 <= px <= 6 && 2 <= py <= 5 && (px == 2 || px == 6 || py == 2 || py == 5)
    ensures !InRect(2, 2, 5, 4, false, 4, 3)
  {
    RectShape(2, 2, 5, 4, false, px, py);
  }

  lemma {:induction false} SquareBelow(a: int, r: int)
    requires r >= 0 && a * a <= r * r + r
    ensures -r <= a <= r
  {
    if a > r {
      MulMono(a, r + 1, a);
      MulMono(r + 1, r + 1, a);
    } else if a < -r {
      MulMono(-a, r + 1, -a);
      MulMono(r + 1, r + 1, -a);
    }
  }

  /** For a non-negative radius the bounding box cuts nothing off the mask:
      the painted cells are exactly the cells that pass the mask. */
  lemma CircleIsMask(cx: int, cy: int, radius: int, fill: bool, px: int, py: int)
    requires radius >= 0
    ensures InCircle(cx, cy, radius, fill, px, py) <==> CircleMask(px - cx, py - cy, radius, fill)
  {
    var dx, dy := px - cx, py - cy;
    if CircleMask(dx, dy, radius, fill) {
      assert dx * dx <= radius * radius + radius && dy * dy <= radius * radius + radius by {
        assert dx * dx >= 0 && dy * dy >= 0;
      }
      SquareBelow(dx, radius);
      SquareBelow(dy, radius);
    }
  }

  /** A filled circle grows with its radius. */
  lemma FilledCircleMonotone(cx: int, cy: int, radius: int, radius': int, px: int, py: int)
    requires 0 <= radius <= radius'
    requires InCircle(cx, cy, radius, true, px, py)
    ensures InCircle(cx, cy, radius', true, px, py)
  {
    MulMono(radius, radius, radius');
    MulMono(radius', radius, radius');
  }

  /** The mask depends only on dx² + dy², so the painted set is symmetric
      under reflection in either axis and under swapping the axes. */
  lemma CircleSymmetric(cx: int, cy: int, radius: int, fill: bool, a: int, b: int)
    ensures InCircle(cx, cy, radius, fill, cx + a, cy + b) <==> InCircle(cx, cy, radius, fill, cx - a, cy + b)
    ensures InCircle(cx, cy, radius, fill, cx + a, cy + b) <==> InCircle(cx, cy, radius, fill, cx + a, cy - b)
    ensures InCircle(cx, cy, radius, fill, cx + a, cy + b) <==> InCircle(cx, cy, radius, fill, cx + b, cy + a)
  {
    assert (-a) * (-a) == a * a && (-b) * (-b) == b * b;
  }

  /** An outline of radius 2 or more leaves its centre unpainted. */
  lemma OutlineCentreEmpty(cx: int, cy: int, radius: int)
    requires radius >= 2
    ensures !InCircle(cx, cy, radius, false, cx, cy)
  {
    MulMono(radius, 2, radius);
  }

  /** A circle whose bounding box misses the buffer paints no cell of it. */
  lemma CircleOutsideBuffer(w: nat, h: nat, cx: int, cy: int, radius: int, fill: bool)
    requires cx + radius < 0 || cx - radius >= w || cy + radius < 0 || cy - radius >= h
    ensures forall i, j :: 0 <= i < w && 0 <= j < h ==> !InCircle(cx, cy, radius, fill, i, j)
  {
  }

  /** `circle(50, 50, 10, fill)` paints the centre and (55, 50), (50, 55) but
      not (50, 35) or (65, 50); the outline `circle(50, 50, 20)` paints (50, 30)
      and not its centre. */
  lemma CircleExamples()
    ensures InCircle(50, 50, 10, true, 50, 50) && InCircle(50, 50, 10, true, 55, 50)
    ensures InCircle(50, 50, 10, true, 50, 55)
    ensures !InCircle(50, 50, 10, true, 50, 35) && !InCircle(50, 50, 10, true, 65, 50)
    ensures InCircle(50, 50, 20, false, 50, 30) && !InCircle(50, 50, 20, false, 50, 50)
  {
  }
}
