/** The integer midpoint circle recurrence shared by the boundary-fill
    rasteriser (Main-Folder/boundaryfillAlgo.cpp) and the solar-system
    viewer's `bresenhamCircle` (Main-Folder/project2.cpp). Both programs run
    the same state machine over (x, y, d); they differ only in whether a
    state is plotted before or after it is advanced. */
module Midpoint {
  import opened Raster

  /** One state of the loop: offsets x and y from the centre and the
      decision variable d. */
  datatype State = State(x: int, y: int, d: int)

  /** The state before the loop: x = 0, y = r, d = 3 - 2r. It lies on the
      circle, and the loop body runs at least once exactly when r >= 0. */
  function Start(r: int): (s: State)
    ensures s.x == 0 && s.y == r
    ensures InOctant(s) <==> r >= 0
  {
    State(0, r, 3 - 2 * r)
  }

  /** The loop guard `y >= x`: true while the state lies in the first
      octant. */
  predicate InOctant(s: State) {
    s.y >= s.x
  }

  /** One advance of the recurrence: x grows by one; when d > 0 the state
      steps diagonally and y drops by one, otherwise it steps sideways.
      Either way the distance to the diagonal shrinks. */
  function Advance(s: State): (t: State)
    ensures t.x == s.x + 1
    ensures t.y <= s.y && (t.y < s.y <==> s.d > 0) && t.y >= s.y - 1
    ensures t.y - t.x < s.y - s.x
  {
    var x := s.x + 1;
    if s.d > 0 then State(x, s.y - 1, s.d + 4 * (x - (s.y - 1)) + 10)
    else State(x, s.y, s.d + 4 * x + 6)
  }

  /** The eight symmetric images of offset (x, y) around (cx, cy), in the
      order both programs emit them: the first four reflect (x, y) in the
      axes, the last four its mirror image (y, x) in the diagonal. */
  function Octants(cx: int, cy: int, x: int, y: int): (o: seq<Point>)
    ensures |o| == 8 && o[0] == Point(cx + x, cy + y) && o[4] == Point(cx + y, cy + x)
  {
    [Point(cx + x, cy + y), Point(cx - x, cy + y),
     Point(cx + x, cy - y), Point(cx - x, cy - y),
     Point(cx + y, cy + x), Point(cx - y, cy + x),
     Point(cx + y, cy - x), Point(cx - y, cy - x)]
  }

  /** The eight images are the reflections of (x, y) in the axes and the
      diagonals through the centre: all lie at squared distance x*x + y*y
      from it, and the first is (x, y) itself. */
  lemma OctantsEquidistant(cx: int, cy: int, x: int, y: int)
    ensures var o := Octants(cx, cy, x, y);
      |o| == 8 && o[0] == Point(cx + x, cy + y) &&
      forall i :: 0 <= i < 8 ==> SquaredDistance(cx, cy, o[i]) == x * x + y * y
  {
    var o := Octants(cx, cy, x, y);
    forall i | 0 <= i < 8
      ensures SquaredDistance(cx, cy, o[i]) == x * x + y * y
    {
      var dx, dy := o[i].x - cx, o[i].y - cy;
      assert (dx == x || dx == -x || dx == y || dx == -y);
      if i < 4 {
        assert (dx == x || dx == -x) && (dy == y || dy == -y);
        assert dx * dx == x * x && dy * dy == y * y;
      } else {
        assert (dx == y || dx == -y) && (dy == x || dy == -x);
        assert dx * dx == y * y && dy * dy == x * x;
      }
    }
  }

  /** Squared Euclidean distance of p from (cx, cy). */
  function SquaredDistance(cx: int, cy: int, p: Point): int {
    (p.x - cx) * (p.x - cx) + (p.y - cy) * (p.y - cy)
  }

  /** The states at which the loop body runs (the guard holds), starting
      from s. Every one of them lies in the first octant. */
  function Iterates(s: State): (ss: seq<State>)
    ensures forall i :: 0 <= i < |ss| ==> InOctant(ss[i])
    decreases s.y - s.x + 1
  {
    if !InOctant(s) then [] else [s] + Iterates(Advance(s))
  }

  /** The first state reached from s that fails the guard: the loop's
      final state. */
  function Exit(s: State): (e: State)
    ensures !InOctant(e)
    ensures e.x >= s.x
    decreases s.y - s.x + 1
  {
    if !InOctant(s) then s else Exit(Advance(s))
  }

  /** Every state the loop holds, from s up to and including its exit
      state. */
  function Trajectory(s: State): (ss: seq<State>)
    ensures |ss| >= 1 && ss[0] == s
    decreases s.y - s.x + 1
  {
    if !InOctant(s) then [s] else [s] + Trajectory(Advance(s))
  }

  /** The points emitted for a sequence of states: the eight octant images
      of each state in turn. */
  function Batches(cx: int, cy: int, ss: seq<State>): seq<Point>
  {
    if ss == [] then []
    else Batches(cx, cy, ss[..|ss| - 1]) + Octants(cx, cy, Last(ss).x, Last(ss).y)
  }

  /** Batches of a sequence extended by one state. */
  lemma BatchesSnoc(cx: int, cy: int, ss: seq<State>, s: State)
    ensures Batches(cx, cy, ss + [s]) == Batches(cx, cy, ss) + Octants(cx, cy, s.x, s.y)
  {
    assert (ss + [s])[..|ss|] == ss;
  }

  /** The iterated states are consecutive advances: the k-th has x raised by
      k, each is the advance of the one before, and advancing the last one
      gives the exit state. */
  lemma {:induction false} IteratesAreAdvances(s: State)
    ensures var ss := Iterates(s);
      (forall i :: 0 <= i < |ss| ==> ss[i].x == s.x + i) &&
      (forall i :: 0 <= i < |ss| - 1 ==> ss[i + 1] == Advance(ss[i])) &&
      (ss == [] ==> Exit(s) == s) &&
      (ss != [] ==> ss[0] == s && Advance(Last(ss)) == Exit(s))
    decreases s.y - s.x + 1
  {
    if InOctant(s) {
      var t := Advance(s);
      IteratesAreAdvances(t);
      var ss, rest := Iterates(s), Iterates(t);
      assert ss == [s] + rest;
      forall i | 0 < i < |ss|
        ensures ss[i] == rest[i - 1]
      {
      }
      if rest != [] {
        assert ss[1] == rest[0] == t;
      }
    }
  }

  /** The full trajectory is the iterated states followed by the exit
      state: one more state than the loop has iterations. */
  lemma {:induction false} TrajectoryIsIteratesThenExit(s: State)
    ensures Trajectory(s) == Iterates(s) + [Exit(s)]
    decreases s.y - s.x + 1
  {
    if InOctant(s) {
      TrajectoryIsIteratesThenExit(Advance(s));
    }
  }

  /** Batches concatenate: the points of a + b are those of a followed by
      those of b. */
  lemma {:induction false} BatchesAppend(cx: int, cy: int, a: seq<State>, b: seq<State>)
    ensures Batches(cx, cy, a + b) == Batches(cx, cy, a) + Batches(cx, cy, b)
    decreases |b|
  {
    if b == [] {
      assert a + b == a;
    } else {
      var b' := b[..|b| - 1];
      var o := Octants(cx, cy, Last(b).x, Last(b).y);
      assert (a + b)[..|a + b| - 1] == a + b';
      assert Last(a + b) == Last(b);
      BatchesAppend(cx, cy, a, b');
      calc {
        Batches(cx, cy, a + b);
        Batches(cx, cy, a + b') + o;
        Batches(cx, cy, a) + Batches(cx, cy, b') + o;
        Batches(cx, cy, a) + (Batches(cx, cy, b') + o);
      }
    }
  }

  /** Eight points per state: state i's octant images sit at positions
      8i to 8i + 8. */
  lemma {:induction false} BatchesLayout(cx: int, cy: int, ss: seq<State>)
    ensures |Batches(cx, cy, ss)| == 8 * |ss|
    ensures forall i :: 0 <= i < |ss| ==>
      Batches(cx, cy, ss)[8 * i .. 8 * i + 8] == Octants(cx, cy, ss[i].x, ss[i].y)
    decreases |ss|
  {
    if ss != [] {
      var init := ss[..|ss| - 1];
      BatchesLayout(cx, cy, init);
      var b := Batches(cx, cy, ss);
      assert b == Batches(cx, cy, init) + Octants(cx, cy, Last(ss).x, Last(ss).y);
      forall i | 0 <= i < |ss|
        ensures b[8 * i .. 8 * i + 8] == Octants(cx, cy, ss[i].x, ss[i].y)
      {
        SliceOfAppend(Batches(cx, cy, init), Octants(cx, cy, Last(ss).x, Last(ss).y), 0, 0);
        if i < |init| {
          assert ss[i] == init[i];
          SliceOfAppend(Batches(cx, cy, init), Octants(cx, cy, Last(ss).x, Last(ss).y), 8 * i, 8 * i + 8);
        }
      }
    }
  }

  /** `drawCircleToBuffer` plots the octant images of every state at which
      the guard `y >= x` holds, plotting before advancing. */
  function Ring(cx: int, cy: int, r: int): (ring: seq<Point>)
    ensures |ring| == 8 * |Iterates(Start(r))|
    ensures r >= 0 ==> |ring| >= 8 && ring[..8] == Octants(cx, cy, 0, r)
  {
    var ss := Iterates(Start(r));
    BatchesLayout(cx, cy, ss);
    assert r >= 0 ==> ss[0] == Start(r);
    Batches(cx, cy, ss)
  }

  /** Every point of a batch sequence is an octant image of one of its
      states. */
  lemma {:induction false} BatchesMembers(cx: int, cy: int, ss: seq<State>, p: Point)
    requires p in Batches(cx, cy, ss)
    ensures exists s :: s in ss && p in Octants(cx, cy, s.x, s.y)
    decreases |ss|
  {
    var init := ss[..|ss| - 1];
    if p in Batches(cx, cy, init) {
      BatchesMembers(cx, cy, init, p);
      var s :| s in init && p in Octants(cx, cy, s.x, s.y);
      assert s in ss;
    } else {
      assert Last(ss) in ss;
    }
  }

  /** Every point the boundary circle writes is one of the eight images of
      a loop state that lies in the first octant, so nothing is plotted
      once y < x. */
  lemma RingPointsAreOctantImages(cx: int, cy: int, r: int, p: Point)
    requires p in Ring(cx, cy, r)
    ensures exists s :: (s in Iterates(Start(r)) && InOctant(s) &&
      p in Octants(cx, cy, s.x, s.y))
  {
    BatchesMembers(cx, cy, Iterates(Start(r)), p);
  }

  /** One turn of a plot-then-advance loop: the states still to iterate
      from s are s and those from its advance. */
  lemma IteratesStep(done: seq<State>, s: State)
    requires InOctant(s)
    ensures done + Iterates(s) == (done + [s]) + Iterates(Advance(s))
  {
  }
}
