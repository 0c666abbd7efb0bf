/** The drawing code of Main-Folder/practice.cpp: `bresenhamLine` over integer
    endpoints, with the `drawPixel` calls collected in order as the
    returned sequence, and `display`, which draws a rectangle from two
    diagonal corners.

    In the steep branch this copy uses the textbook update 2(dx - dy) when
    x moves, so every line ends at its endpoint
    (`LineRaster.StandardReachesEnd`). */
module Practice {
  import opened Raster
  import opened LineRaster

  /** `bresenhamLine(x1, y1, x2, y2)`: the start pixel, then the pixels of
      the loop of the shallow or the steep branch; exactly
      `Points(x1, y1, x2, y2, Standard)`. */
  method BresenhamLine(x1: int, y1: int, x2: int, y2: int) returns (pts: seq<Point>)
    ensures pts == Points(x1, y1, x2, y2, Standard)
  {
    var dx: int := Abs(x2 - x1);
    var dy: int := Abs(y2 - y1);
    var xInc := if x2 > x1 then 1 else -1;
    var yInc := if y2 > y1 then 1 else -1;
    pts := [Point(x1, y1)];
    var run;
    if dy <= dx {
      run := ShallowLoop(x1, y1, dx, dy, xInc, yInc);
    } else {
      run := SteepLoop(x1, y1, dx, dy, xInc, yInc);
    }
    pts := pts + run;
  }

  /** The `dy <= dx` branch's loop: dx turns, each moving x and, when the
      decision variable is non-negative, y. */
  method ShallowLoop(x1: int, y1: int, dx: nat, dy: int, xInc: int, yInc: int) returns (pts: seq<Point>)
    ensures pts == ShallowRun(x1, y1, 2 * dy - dx, dx, dx, dy, xInc, yInc)
  {
    var x, y := x1, y1;
    var p := 2 * dy - dx;
    pts := [];
    var i := 0;
    while i < dx
      invariant 0 <= i <= dx
      invariant pts + ShallowRun(x, y, p, dx - i, dx, dy, xInc, yInc)
             == ShallowRun(x1, y1, 2 * dy - dx, dx, dx, dy, xInc, yInc)
    {
      ghost var rest := ShallowRun(x, y, p, dx - i, dx, dy, xInc, yInc);
      x := x + xInc;
      if p < 0 {
        p := p + 2 * dy;
      } else {
        y := y + yInc;
        p := p + 2 * (dy - dx);
      }
      assert rest == [Point(x, y)] + ShallowRun(x, y, p, dx - i - 1, dx, dy, xInc, yInc);
      MoveToDone(pts, Point(x, y), ShallowRun(x, y, p, dx - i - 1, dx, dy, xInc, yInc));
      pts := pts + [Point(x, y)];
      i := i + 1;
    }
  }

  /** The `dy > dx` branch's loop: dy turns, each moving y and, when the
      decision variable is non-negative, x, with this file's update. */
  method SteepLoop(x1: int, y1: int, dx: int, dy: nat, xInc: int, yInc: int) returns (pts: seq<Point>)
    ensures pts == SteepRun(x1, y1, 2 * dx - dy, dy, dx, dy, xInc, yInc, Standard)
  {
    var x, y := x1, y1;
    var p := 2 * dx - dy;
    pts := [];
    var i := 0;
    while i < dy
      invariant 0 <= i <= dy
      invariant pts + SteepRun(x, y, p, dy - i, dx, dy, xInc, yInc, Standard)
             == SteepRun(x1, y1, 2 * dx - dy, dy, dx, dy, xInc, yInc, Standard)
    {
      ghost var rest := SteepRun(x, y, p, dy - i, dx, dy, xInc, yInc, Standard);
      y := y + yInc;
      if p < 0 {
        p := p + 2 * dx;
      } else {
        x := x + xInc;
        p := p + 2 * (dx - dy);
      }
      assert rest == [Point(x, y)] + SteepRun(x, y, p, dy - i - 1, dx, dy, xInc, yInc, Standard);
      MoveToDone(pts, Point(x, y), SteepRun(x, y, p, dy - i - 1, dx, dy, xInc, yInc, Standard));
      pts := pts + [Point(x, y)];
      i := i + 1;
    }
  }

  /** `display`: the four edges from (x1, ya) to (x2, ya), (x2, y2),
      (x1, y2) and back to (x1, ya), in that order, one line each. */
  method Display(x1: int, ya: int, x2: int, y2: int) returns (edges: seq<seq<Point>>)
    ensures edges == Outline(x1, ya, x2, y2, Standard)
  {
    var x3, y3 := x2, ya;
    var x4, y4 := x1, y2;
    var bottom := BresenhamLine(x1, ya, x3, y3);
    var right := BresenhamLine(x3, y3, x2, y2);
    var top := BresenhamLine(x2, y2, x4, y4);
    var left := BresenhamLine(x4, y4, x1, ya);
    edges := [bottom, right, top, left];
  }
}
