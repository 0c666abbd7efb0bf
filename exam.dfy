/** The drawing code of Main-Folder/exam.cpp: `bresenhamLine` over integer
    endpoints, with the `drawPixel` calls collected in order as the
    returned sequence, and `display`, which draws a rectangle from two
    diagonal corners.

    In the steep branch this copy uses the update 2(dy - dx) when x
    moves. Once the decision variable is non-negative, x then moves on
    every turn (`LineRaster.ReversedSteepRunsDiagonal`), so a steep line
    can overshoot its endpoint (`LineRaster.ReversedMissesEnd`). */
module Exam {
  import opened Raster
  import opened LineRaster

  /** `bresenhamLine(x1, y1, x2, y2)`: the start pixel, then the pixels of
      the loop of the shallow or the steep branch; exactly
      `Points(x1, y1, x2, y2, Reversed)`. */
  method BresenhamLine(x1: int, y1: int, x2: int, y2: int) returns (pts: seq<Point>)
    ensures pts == Points(x1, y1, x2, y2, Reversed)
  {
    var dx: int := Abs(x2 - x1);
    var dy: int := Abs(y2 - y1);
    var xInc := if x2 > x1 then 1 else -1;
    var yInc := if y2 > y1 then 1 else -1;
    pts := [Point(x1, y1)];
    var run;
    if dy <= dx {
      run := ShallowLoop(x1, y1, dx, dy, xInc, yInc);
    } else {
      run := SteepLoop(x1, y1, dx, dy, xInc, yInc);
    }
    pts := pts + run;
  }

  /** The `dy <= dx` branch's loop: dx turns, each moving x and, when the
      decision variable is non-negative, y. */
  method ShallowLoop(x1: int, y1: int, dx: nat, dy: int, xInc: int, yInc: int) returns (pts: seq<Point>)
    ensures pts == ShallowRun(x1, y1, 2 * dy - dx, dx, dx, dy, xInc, yInc)
  {
    var x, y := x1, y1;
    var p := 2 * dy - dx;
    pts := [];
    var i := 0;
    while i < dx
      invariant 0 <= i <= dx
      invariant pts + ShallowRun(x, y, p, dx - i, dx, dy, xInc, yInc)
             == ShallowRun(x1, y1, 2 * dy - dx, dx, dx, dy, xInc, yInc)
    {
      ghost var rest := ShallowRun(x, y, p, dx - i, dx, dy, xInc, yInc);
      x := x + xInc;
      if p < 0 {
        p := p + 2 * dy;
      } else {
        y := y + yInc;
        p := p + 2 * (dy - dx);
      }
      assert rest == [Point(x, y)] + ShallowRun(x, y, p, dx - i - 1, dx, dy, xInc, yInc);
      MoveToDone(pts, Point(x, y), ShallowRun(x, y, p, dx - i - 1, dx, dy, xInc, yInc));
      pts := pts + [Point(x, y)];
      i := i + 1;
    }
  }

  /** The `dy > dx` branch's loop: dy turns, each moving y and, when the
      decision variable is non-negative, x, with this file's update. */
  method SteepLoop(x1: int, y1: int, dx: int, dy: nat, xInc: int, yInc: int) returns (pts: seq<Point>)
    ensures pts == SteepRun(x1, y1, 2 * dx - dy, dy, dx, dy, xInc, yInc, Reversed)
  {
    var x, y := x1, y1;
    var p := 2 * dx - dy;
    pts := [];
    var i := 0;
    while i < dy
      invariant 0 <= i <= dy
      invariant pts + SteepRun(x, y, p, dy - i, dx, dy, xInc, yInc, Reversed)
             == SteepRun(x1, y1, 2 * dx - dy, dy, dx, dy, xInc, yInc, Reversed)
    {
      ghost var rest := SteepRun(x, y, p, dy - i, dx, dy, xInc, yInc, Reversed);
      y := y + yInc;
      if p < 0 {
        p := p + 2 * dx;
      } else {
        x := x + xInc;
        p := p + 2 * (dy - dx);
      }
      assert rest == [Point(x, y)] + SteepRun(x, y, p, dy - i - 1, dx, dy, xInc, yInc, Reversed);
      MoveToDone(pts, Point(x, y), SteepRun(x, y, p, dy - i - 1, dx, dy, xInc, yInc, Reversed));
      pts := pts + [Point(x, y)];
      i := i + 1;
    }
  }

  /** `display`: the four edges from (x1, yA) to (x2, yA), (x2, yB),
      (x1, yB) and back to (x1, yA), in that order, one line each. */
  method Display(x1: int, yA: int, x2: int, yB: int) returns (edges: seq<seq<Point>>)
    ensures edges == Outline(x1, yA, x2, yB, Reversed)
  {
    var x3, y3 := x2, yA;
    var x4, y4 := x1, yB;
    var bottom := BresenhamLine(x1, yA, x3, y3);
    var right := BresenhamLine(x3, y3, x2, yB);
    var top := BresenhamLine(x2, yB, x4, y4);
    var left := BresenhamLine(x4, y4, x1, yA);
    edges := [bottom, right, top, left];
  }
}
