/** The integer Bresenham line of Main-Folder/exam.cpp and
    Main-Folder/practice.cpp, as a function from the two endpoints to the
    sequence of pixels `drawPixel` receives, and the rectangle outline both
    programs draw with it.

    The two copies of `bresenhamLine` are the same except for one update:
    when the steep branch (dy > dx) moves x, practice.cpp adds 2(dx - dy) to
    the decision variable and exam.cpp adds 2(dy - dx). `SteepRule` names
    the two. */
module LineRaster {
  import opened Raster

  /** The decision update of the steep branch when x moves: `Standard` is
      practice.cpp's 2(dx - dy), `Reversed` is exam.cpp's 2(dy - dx). */
  datatype SteepRule = Standard | Reversed

  function Abs(v: int): nat {
    if v < 0 then -v else v
  }

  /** `(b > a) ? 1 : -1`: the step from a towards b, and -1 when the two
      are equal. */
  function Inc(a: int, b: int): (r: int)
    ensures r == 1 || r == -1
  {
    if b > a then 1 else -1
  }

  /** Stepping Abs(b - a) times by Inc(a, b) from a lands on b, also when
      a == b. */
  lemma IncReaches(a: int, b: int)
    ensures a + Inc(a, b) * Abs(b - a) == b
    ensures Inc(a, b) == 1 <==> b > a
  {
  }

  /** The decision update when the minor coordinate moves in the steep
      branch. */
  function SteepTaken(rule: SteepRule, dx: int, dy: int): int {
    match rule
    case Standard => 2 * (dx - dy)
    case Reversed => 2 * (dy - dx)
  }

  /** The pixels drawn by the remaining n turns of the shallow loop
      (dy <= dx) from position (x, y) with decision p: x always moves,
      y moves when p >= 0. */
  function ShallowRun(x: int, y: int, p: int, n: nat, dx: int, dy: int, xInc: int, yInc: int): seq<Point>
    decreases n
  {
    if n == 0 then []
    else if p < 0 then
      [Point(x + xInc, y)] + ShallowRun(x + xInc, y, p + 2 * dy, n - 1, dx, dy, xInc, yInc)
    else
      [Point(x + xInc, y + yInc)] + ShallowRun(x + xInc, y + yInc, p + 2 * (dy - dx), n - 1, dx, dy, xInc, yInc)
  }

  /** The pixels drawn by the remaining n turns of the steep loop
      (dy > dx): y always moves, x moves when p >= 0, and then the decision
      changes by the file's rule. */
  function SteepRun(x: int, y: int, p: int, n: nat, dx: int, dy: int, xInc: int, yInc: int, rule: SteepRule): seq<Point>
    decreases n
  {
    if n == 0 then []
    else if p < 0 then
      [Point(x, y + yInc)] + SteepRun(x, y + yInc, p + 2 * dx, n - 1, dx, dy, xInc, yInc, rule)
    else
      [Point(x + xInc, y + yInc)] + SteepRun(x + xInc, y + yInc, p + SteepTaken(rule, dx, dy), n - 1, dx, dy, xInc, yInc, rule)
  }

  /** Every pixel `bresenhamLine(x1, y1, x2, y2)` draws, in order: the
      start pixel, then one pixel per loop turn. */
  function Points(x1: int, y1: int, x2: int, y2: int, rule: SteepRule): (pts: seq<Point>)
    ensures |pts| >= 1 && pts[0] == Point(x1, y1)
  {
    var dx, dy := Abs(x2 - x1), Abs(y2 - y1);
    var xInc, yInc := Inc(x1, x2), Inc(y1, y2);
    [Point(x1, y1)] +
    if dy <= dx then ShallowRun(x1, y1, 2 * dy - dx, dx, dx, dy, xInc, yInc)
    else SteepRun(x1, y1, 2 * dx - dy, dy, dx, dy, xInc, yInc, rule)
  }

  /** One turn of the shallow loop: x moves by xInc, y by 0 or yInc. */
  predicate ShallowStep(a: Point, b: Point, xInc: int, yInc: int) {
    b.x == a.x + xInc && (b.y == a.y || b.y == a.y + yInc)
  }

  /** One turn of the steep loop: y moves by yInc, x by 0 or xInc. */
  predicate SteepStep(a: Point, b: Point, xInc: int, yInc: int) {
    b.y == a.y + yInc && (b.x == a.x || b.x == a.x + xInc)
  }

  lemma {:induction false} ShallowRunSteps(x: int, y: int, p: int, n: nat, dx: int, dy: int, xInc: int, yInc: int)
    ensures var t := [Point(x, y)] + ShallowRun(x, y, p, n, dx, dy, xInc, yInc);
      |t| == n + 1 && forall i :: 0 <= i < n ==> ShallowStep(t[i], t[i + 1], xInc, yInc)
    decreases n
  {
    if n > 0 {
      var run := ShallowRun(x, y, p, n, dx, dy, xInc, yInc);
      var t := [Point(x, y)] + run;
      var next := run[0];
      var p' := if p < 0 then p + 2 * dy else p + 2 * (dy - dx);
      ShallowRunSteps(next.x, next.y, p', n - 1, dx, dy, xInc, yInc);
      assert run == [next] + ShallowRun(next.x, next.y, p', n - 1, dx, dy, xInc, yInc);
      assert t[1..] == run;
    }
  }

  lemma {:induction false} SteepRunSteps(x: int, y: int, p: int, n: nat, dx: int, dy: int, xInc: int, yInc: int, rule: SteepRule)
    ensures var t := [Point(x, y)] + SteepRun(x, y, p, n, dx, dy, xInc, yInc, rule);
      |t| == n + 1 && forall i :: 0 <= i < n ==> SteepStep(t[i], t[i + 1], xInc, yInc)
    decreases n
  {
    if n > 0 {
      var run := SteepRun(x, y, p, n, dx, dy, xInc, yInc, rule);
      var t := [Point(x, y)] + run;
      var next := run[0];
      var p' := if p < 0 then p + 2 * dx else p + SteepTaken(rule, dx, dy);
      SteepRunSteps(next.x, next.y, p', n - 1, dx, dy, xInc, yInc, rule);
      assert run == [next] + SteepRun(next.x, next.y, p', n - 1, dx, dy, xInc, yInc, rule);
      assert t[1..] == run;
    }
  }

  /** The shape of a line under either rule: it starts at (x1, y1); a
      shallow line has dx + 1 pixels and each step moves x by xInc and y by
      0 or yInc; a steep line has dy + 1 pixels and each step moves y by
      yInc and x by 0 or xInc. */
  lemma PointsShape(x1: int, y1: int, x2: int, y2: int, rule: SteepRule)
    ensures var ps, dx, dy := Points(x1, y1, x2, y2, rule), Abs(x2 - x1), Abs(y2 - y1);
      ps[0] == Point(x1, y1) &&
      (dy <= dx ==>
        |ps| == dx + 1 &&
        forall i :: 0 <= i < dx ==> ShallowStep(ps[i], ps[i + 1], Inc(x1, x2), Inc(y1, y2))) &&
      (dy > dx ==>
        |ps| == dy + 1 &&
        forall i :: 0 <= i < dy ==> SteepStep(ps[i], ps[i + 1], Inc(x1, x2), Inc(y1, y2)))
  {
    var dx: int, dy: int := Abs(x2 - x1), Abs(y2 - y1);
    if dy <= dx {
      ShallowRunSteps(x1, y1, 2 * dy - dx, dx, dx, dy, Inc(x1, x2), Inc(y1, y2));
    } else {
      SteepRunSteps(x1, y1, 2 * dx - dy, dy, dx, dy, Inc(x1, x2), Inc(y1, y2), rule);
    }
  }

  /** Consecutive pixels of a line differ by at most one in each
      coordinate: the line is 8-connected, under either rule. */
  lemma PointsAreEightConnected(x1: int, y1: int, x2: int, y2: int, rule: SteepRule)
    ensures var ps := Points(x1, y1, x2, y2, rule);
      forall i :: 0 <= i < |ps| - 1 ==>
        Abs(ps[i + 1].x - ps[i].x) <= 1 && Abs(ps[i + 1].y - ps[i].y) <= 1
  {
    PointsShape(x1, y1, x2, y2, rule);
  }

  /** An integer m with -a <= 2am <= a for a positive a is zero. */
  lemma SqueezedIsZero(a: int, m: int)
    requires a > 0 && -a <= 2 * a * m <= a
    ensures m == 0
  {
  }

  /** The shallow loop's endpoint. With n turns left and m moves of y still
      owed, the decision variable is 2dx*m - 2dy*n + 2dy - dx and stays in
      [2dy - 2dx, 2dy]; when no turn is left that pins m to zero, so the
      last pixel is exactly n steps along x and m along y away. */
  lemma {:induction false} ShallowRunReaches(x: int, y: int, p: int, n: nat, m: int, dx: int, dy: int, xInc: int, yInc: int)
    requires 0 <= dy <= dx && dx > 0
    requires p == 2 * dx * m - 2 * dy * n + 2 * dy - dx
    requires 2 * dy - 2 * dx <= p <= 2 * dy
    ensures Last([Point(x, y)] + ShallowRun(x, y, p, n, dx, dy, xInc, yInc))
      == Point(x + xInc * n, y + yInc * m)
    decreases n
  {
    var t := [Point(x, y)] + ShallowRun(x, y, p, n, dx, dy, xInc, yInc);
    if n == 0 {
      SqueezedIsZero(dx, m);
    } else {
      var run := ShallowRun(x, y, p, n, dx, dy, xInc, yInc);
      assert 2 * dy * (n - 1) == 2 * dy * n - 2 * dy;
      assert xInc * (n - 1) == xInc * n - xInc;
      if p < 0 {
        ShallowRunReaches(x + xInc, y, p + 2 * dy, n - 1, m, dx, dy, xInc, yInc);
      } else {
        assert 2 * dx * (m - 1) == 2 * dx * m - 2 * dx;
        assert yInc * (m - 1) == yInc * m - yInc;
        ShallowRunReaches(x + xInc, y + yInc, p + 2 * (dy - dx), n - 1, m - 1, dx, dy, xInc, yInc);
      }
      assert Last(t) == Last(run);
    }
  }

  /** The steep loop's endpoint under practice.cpp's update, by the same
      argument with the roles of x and y exchanged. */
  lemma {:induction false} SteepRunReaches(x: int, y: int, p: int, n: nat, m: int, dx: int, dy: int, xInc: int, yInc: int)
    requires 0 <= dx < dy
    requires p == 2 * dy * m - 2 * dx * n + 2 * dx - dy
    requires 2 * dx - 2 * dy <= p <= 2 * dx
    ensures Last([Point(x, y)] + SteepRun(x, y, p, n, dx, dy, xInc, yInc, Standard))
      == Point(x + xInc * m, y + yInc * n)
    decreases n
  {
    var t := [Point(x, y)] + SteepRun(x, y, p, n, dx, dy, xInc, yInc, Standard);
    if n == 0 {
      SqueezedIsZero(dy, m);
    } else {
      var run := SteepRun(x, y, p, n, dx, dy, xInc, yInc, Standard);
      assert 2 * dx * (n - 1) == 2 * dx * n - 2 * dx;
      assert yInc * (n - 1) == yInc * n - yInc;
      if p < 0 {
        SteepRunReaches(x, y + yInc, p + 2 * dx, n - 1, m, dx, dy, xInc, yInc);
      } else {
        assert 2 * dy * (m - 1) == 2 * dy * m - 2 * dy;
        assert xInc * (m - 1) == xInc * m - xInc;
        SteepRunReaches(x + xInc, y + yInc, p + 2 * (dx - dy), n - 1, m - 1, dx, dy, xInc, yInc);
      }
      assert Last(t) == Last(run);
    }
  }

  /** With practice.cpp's update the last pixel drawn is (x2, y2), for
      every pair of integer endpoints. */
  lemma StandardReachesEnd(x1: int, y1: int, x2: int, y2: int)
    ensures Last(Points(x1, y1, x2, y2, Standard)) == Point(x2, y2)
  {
    var dx: int, dy: int := Abs(x2 - x1), Abs(y2 - y1);
    IncReaches(x1, x2);
    IncReaches(y1, y2);
    if dy <= dx && dx == 0 {
      assert x1 == x2 && y1 == y2;
    } else if dy <= dx {
      ShallowRunReaches(x1, y1, 2 * dy - dx, dx, dy, dx, dy, Inc(x1, x2), Inc(y1, y2));
    } else {
      SteepRunReaches(x1, y1, 2 * dx - dy, dy, dx, dx, dy, Inc(x1, x2), Inc(y1, y2));
    }
  }

  /** Under exam.cpp's update, once the steep loop's decision variable is
      non-negative it never falls again: x moves on every remaining turn,
      so the k-th remaining pixel is k steps away diagonally. */
  lemma {:induction false} ReversedSteepRunsDiagonal(x: int, y: int, p: int, n: nat, dx: int, dy: int, xInc: int, yInc: int)
    requires 0 <= dx < dy && p >= 0
    ensures var run := SteepRun(x, y, p, n, dx, dy, xInc, yInc, Reversed);
      |run| == n &&
      forall k :: 0 <= k < n ==> run[k] == Point(x + xInc * (k + 1), y + yInc * (k + 1))
    decreases n
  {
    if n > 0 {
      var run := SteepRun(x, y, p, n, dx, dy, xInc, yInc, Reversed);
      var rest := SteepRun(x + xInc, y + yInc, p + 2 * (dy - dx), n - 1, dx, dy, xInc, yInc, Reversed);
      ReversedSteepRunsDiagonal(x + xInc, y + yInc, p + 2 * (dy - dx), n - 1, dx, dy, xInc, yInc);
      assert run == [Point(x + xInc, y + yInc)] + rest;
      forall k | 0 < k < n
        ensures run[k] == Point(x + xInc * (k + 1), y + yInc * (k + 1))
      {
        assert run[k] == rest[k - 1];
        assert xInc * (k + 1) == xInc + xInc * k;
        assert yInc * (k + 1) == yInc + yInc * k;
      }
    }
  }

  /** The as-written steep line of exam.cpp misses its endpoint: from
      (0, 0) to (1, 3) it draws (0, 0), (0, 1), (1, 2), (2, 3) and ends one
      pixel right of (1, 3), where practice.cpp's line ends. */
  lemma ReversedMissesEnd()
    ensures Points(0, 0, 1, 3, Reversed) == [Point(0, 0), Point(0, 1), Point(1, 2), Point(2, 3)]
    ensures Last(Points(0, 0, 1, 3, Reversed)) != Point(1, 3)
    ensures Last(Points(0, 0, 1, 3, Standard)) == Point(1, 3)
  {
    assert SteepRun(1, 2, 1, 1, 1, 3, 1, 1, Reversed) == [Point(2, 3)];
    assert SteepRun(0, 1, 0, 2, 1, 3, 1, 1, Reversed) == [Point(1, 2), Point(2, 3)];
    StandardReachesEnd(0, 0, 1, 3);
  }

  function Sgn(v: int): int {
    if v > 0 then 1 else if v < 0 then -1 else 0
  }

  /** The cells of an axis-parallel segment from a to b, one per unit step,
      both ends included: an independent description of what the line
      should draw when the segment is horizontal or vertical. */
  function AxisCells(a: Point, b: Point): (cs: seq<Point>)
    requires a.x == b.x || a.y == b.y
    ensures |cs| == Abs(b.x - a.x) + Abs(b.y - a.y) + 1
    ensures cs[0] == a && Last(cs) == b
  {
    var n := Abs(b.x - a.x) + Abs(b.y - a.y);
    var sx, sy := Sgn(b.x - a.x), Sgn(b.y - a.y);
    var cs := seq(n + 1, i => Point(a.x + sx * i, a.y + sy * i));
    assert cs[n] == b by {
      if a.x == b.x {
        assert sy * n == b.y - a.y;
      } else {
        assert sx * n == b.x - a.x;
      }
    }
    cs
  }

  /** A run whose decision variable is negative and never rises moves only
      along its major axis. */
  lemma {:induction false} FlatShallowRun(x: int, y: int, p: int, n: nat, dx: int, xInc: int, yInc: int)
    requires p < 0
    ensures var run := ShallowRun(x, y, p, n, dx, 0, xInc, yInc);
      |run| == n && forall k :: 0 <= k < n ==> run[k] == Point(x + xInc * (k + 1), y)
    decreases n
  {
    if n > 0 {
      var run := ShallowRun(x, y, p, n, dx, 0, xInc, yInc);
      var rest := ShallowRun(x + xInc, y, p, n - 1, dx, 0, xInc, yInc);
      FlatShallowRun(x + xInc, y, p, n - 1, dx, xInc, yInc);
      assert run == [Point(x + xInc, y)] + rest;
      forall k | 0 < k < n
        ensures run[k] == Point(x + xInc * (k + 1), y)
      {
        assert run[k] == rest[k - 1];
        assert xInc * (k + 1) == xInc + xInc * k;
      }
    }
  }

  lemma {:induction false} FlatSteepRun(x: int, y: int, p: int, n: nat, dy: int, xInc: int, yInc: int, rule: SteepRule)
    requires p < 0
    ensures var run := SteepRun(x, y, p, n, 0, dy, xInc, yInc, rule);
      |run| == n && forall k :: 0 <= k < n ==> run[k] == Point(x, y + yInc * (k + 1))
    decreases n
  {
    if n > 0 {
      var run := SteepRun(x, y, p, n, 0, dy, xInc, yInc, rule);
      var rest := SteepRun(x, y + yInc, p, n - 1, 0, dy, xInc, yInc, rule);
      FlatSteepRun(x, y + yInc, p, n - 1, dy, xInc, yInc, rule);
      assert run == [Point(x, y + yInc)] + rest;
      forall k | 0 < k < n
        ensures run[k] == Point(x, y + yInc * (k + 1))
      {
        assert run[k] == rest[k - 1];
        assert yInc * (k + 1) == yInc + yInc * k;
      }
    }
  }

  /** A horizontal or vertical line draws exactly the cells from its start
      to its end, one per unit step, under either rule: the else-update
      that tells the two files apart is never reached. */
  lemma AxisParallelIsCells(x1: int, y1: int, x2: int, y2: int, rule: SteepRule)
    requires x1 == x2 || y1 == y2
    ensures Points(x1, y1, x2, y2, rule) == AxisCells(Point(x1, y1), Point(x2, y2))
  {
    var ps, cs := Points(x1, y1, x2, y2, rule), AxisCells(Point(x1, y1), Point(x2, y2));
    var dx: int, dy: int := Abs(x2 - x1), Abs(y2 - y1);
    if dy <= dx {
      if dx > 0 {
        FlatShallowRun(x1, y1, -dx, dx, dx, Inc(x1, x2), Inc(y1, y2));
      }
      forall k | 0 <= k < |ps|
        ensures ps[k] == cs[k]
      {
        if k > 0 {
          assert Inc(x1, x2) == Sgn(x2 - x1);
        }
      }
    } else {
      FlatSteepRun(x1, y1, -dy, dy, dy, Inc(x1, x2), Inc(y1, y2), rule);
      forall k | 0 <= k < |ps|
        ensures ps[k] == cs[k]
      {
        if k > 0 {
          assert Inc(y1, y2) == Sgn(y2 - y1);
        }
      }
    }
  }

  /** The rectangle's corners in drawing order, from two diagonal corners
      (x1, ya) and (x2, yb): (x1, ya), (x2, ya), (x2, yb), (x1, yb). */
  function Corners(x1: int, ya: int, x2: int, yb: int): (c: seq<Point>)
    ensures |c| == 4 && c[0] == Point(x1, ya) && c[2] == Point(x2, yb)
    ensures c[0].y == c[1].y && c[1].x == c[2].x && c[2].y == c[3].y && c[3].x == c[0].x
  {
    [Point(x1, ya), Point(x2, ya), Point(x2, yb), Point(x1, yb)]
  }

  /** The four edges `display` draws, each from one corner to the next and
      the last back to the first. */
  function Outline(x1: int, ya: int, x2: int, yb: int, rule: SteepRule): (o: seq<seq<Point>>)
    ensures |o| == 4
    ensures forall i :: 0 <= i < 4 ==> |o[i]| >= 1 && o[i][0] == Corners(x1, ya, x2, yb)[i]
  {
    [Points(x1, ya, x2, ya, rule), Points(x2, ya, x2, yb, rule),
     Points(x2, yb, x1, yb, rule), Points(x1, yb, x1, ya, rule)]
  }

  /** Edge i of the outline is the run of cells from corner i to corner
      i + 1 (the last edge returns to corner 0), whichever rule draws it:
      exam's and practice's rectangles are the same. */
  lemma OutlineEdgesAreCells(x1: int, ya: int, x2: int, yb: int, rule: SteepRule)
    ensures var c, o := Corners(x1, ya, x2, yb), Outline(x1, ya, x2, yb, rule);
      |o| == 4 &&
      o[0] == AxisCells(c[0], c[1]) && o[1] == AxisCells(c[1], c[2]) &&
      o[2] == AxisCells(c[2], c[3]) && o[3] == AxisCells(c[3], c[0])
  {
    AxisParallelIsCells(x1, ya, x2, ya, rule);
    AxisParallelIsCells(x2, ya, x2, yb, rule);
    AxisParallelIsCells(x2, yb, x1, yb, rule);
    AxisParallelIsCells(x1, yb, x1, ya, rule);
  }

  /** The outline is closed: every edge starts at its corner and ends where
      the next edge starts, the last one where the first starts; and the
      two files draw the same outline. */
  lemma OutlineIsClosed(x1: int, ya: int, x2: int, yb: int)
    ensures var c, o := Corners(x1, ya, x2, yb), Outline(x1, ya, x2, yb, Standard);
      (forall i :: 0 <= i < 4 ==> o[i][0] == c[i] && Last(o[i]) == o[(i + 1) % 4][0]) &&
      Outline(x1, ya, x2, yb, Reversed) == o
  {
    OutlineEdgesAreCells(x1, ya, x2, yb, Standard);
    OutlineEdgesAreCells(x1, ya, x2, yb, Reversed);
    var c, o := Corners(x1, ya, x2, yb), Outline(x1, ya, x2, yb, Standard);
    CellWalkCloses(c, o);
  }

  /** Four runs of cells, each from one corner to the next, form a closed
      walk. */
  lemma CellWalkCloses(c: seq<Point>, o: seq<seq<Point>>)
    requires |c| == 4 && |o| == 4
    requires c[0].x == c[1].x || c[0].y == c[1].y
    requires c[1].x == c[2].x || c[1].y == c[2].y
    requires c[2].x == c[3].x || c[2].y == c[3].y
    requires c[3].x == c[0].x || c[3].y == c[0].y
    requires o[0] == AxisCells(c[0], c[1]) && o[1] == AxisCells(c[1], c[2])
    requires o[2] == AxisCells(c[2], c[3]) && o[3] == AxisCells(c[3], c[0])
    ensures forall i :: 0 <= i < 4 ==> o[i][0] == c[i] && Last(o[i]) == o[(i + 1) % 4][0]
  {
    forall i | 0 <= i < 4
      ensures o[i][0] == c[i] && Last(o[i]) == o[(i + 1) % 4][0]
    {
      assert (i + 1) % 4 == if i == 3 then 0 else i + 1;
    }
  }
}
