/** The incremental boundary-fill engine of Main-Folder/boundaryfillAlgo.cpp.

    A fixed 640 x 480 RGB buffer holds a circle drawn in the boundary colour;
    a click strictly inside the circle seeds a LIFO stack of coordinates, and
    every frame pops at most 1000 of them, painting each pixel that is
    neither boundary- nor fill-coloured and pushing its four neighbours.

    The first half of the module is a value model: the buffer as a map from
    in-bounds coordinates to colours, one pop as a function on a `Session`
    (buffer and stack), a batch of pops and a run to completion, with the
    lemmas that give the fill its guarantees. The second half is the
    program itself: a class over an `array2` whose methods are proved to
    move their state exactly as the value model says. */
module BoundaryFill {
  import opened Raster
  import opened Midpoint

  newtype byte = b: int | 0 <= b < 256

  /** One RGB pixel; two colours are equal exactly when all three channels
      are, which is the test the source spells out channel by channel. */
  datatype Color = Color(r: byte, g: byte, b: byte)

  const WIDTH: int := 640
  const HEIGHT: int := 480
  const FILL_COLOR: Color := Color(255, 0, 0)
  const BOUNDARY_COLOR: Color := Color(255, 255, 255)
  const BG_COLOR: Color := Color(0, 0, 0)
  const PIXELS_PER_FRAME: nat := 1000

  predicate InBounds(p: Point) {
    0 <= p.x < WIDTH && 0 <= p.y < HEIGHT
  }

  /** The buffer's contents, keyed by coordinate. */
  type Canvas = map<Point, Color>

  /** A canvas of the program's buffer has a colour for exactly the
      in-bounds coordinates. */
  ghost predicate FullCanvas(g: Canvas) {
    forall p :: p in g <==> InBounds(p)
  }

  /** Every coordinate of the buffer. */
  function Cells(): set<Point> {
    set x, y | 0 <= x < WIDTH && 0 <= y < HEIGHT :: Point(x, y)
  }

  /** A buffer holding one colour everywhere. */
  function Uniform(c: Color): (g: Canvas)
    ensures FullCanvas(g)
    ensures forall p :: p in g ==> g[p] == c
  {
    var g := map p | p in Cells() :: c;
    assert forall p :: InBounds(p) ==> p == Point(p.x, p.y) && p in Cells();
    g
  }

  /** `setPixel` on the buffer's contents: c at p when p is a cell of the
      buffer, no change otherwise. */
  function Paint(g: Canvas, p: Point, c: Color): (h: Canvas)
    ensures h.Keys == g.Keys
    ensures forall q :: q in g ==> h[q] == (if q == p then c else g[q])
  {
    if p in g then g[p := c] else g
  }

  /** `setPixel` changes the cell (x, y) and nothing else, and only when
      that cell is in bounds; out of bounds the buffer is unchanged. */
  lemma PaintTouchesOnlyItsCell(g: Canvas, p: Point, c: Color)
    requires FullCanvas(g)
    ensures FullCanvas(Paint(g, p, c))
    ensures forall q :: q in g && q != p ==> Paint(g, p, c)[q] == g[q]
    ensures InBounds(p) ==> Paint(g, p, c)[p] == c
    ensures !InBounds(p) ==> Paint(g, p, c) == g
  {
  }

  /** `getPixel` on the buffer's contents: the stored colour, or nothing. */
  function Lookup(g: Canvas, p: Point): (o: Option<Color>)
    ensures o.Some? <==> p in g
    ensures o.Some? ==> o.value == g[p]
  {
    if p in g then Some(g[p]) else None
  }

  /** `getPixel` returns nothing exactly for out-of-bounds coordinates, and
      the stored colour otherwise. */
  lemma LookupIsNoneExactlyOutOfBounds(g: Canvas, p: Point)
    requires FullCanvas(g)
    ensures Lookup(g, p) == None <==> !InBounds(p)
    ensures InBounds(p) ==> Lookup(g, p) == Some(g[p])
  {
  }

  /** Reading after writing: `getPixel` at the cell `setPixel` just wrote
      gives the written colour when that cell is in bounds, and every
      other read is what it was before. */
  lemma LookupAfterPaint(g: Canvas, p: Point, q: Point, c: Color)
    requires FullCanvas(g)
    ensures Lookup(Paint(g, p, c), q) == if q == p && InBounds(p) then Some(c) else Lookup(g, q)
  {
  }

  /** A sequence of `setPixel` calls with one colour, in order. */
  function PaintAll(g: Canvas, pts: seq<Point>, c: Color): Canvas
  {
    if pts == [] then g else Paint(PaintAll(g, pts[..|pts| - 1], c), Last(pts), c)
  }

  lemma PaintAllSnoc(g: Canvas, pts: seq<Point>, p: Point, c: Color)
    ensures PaintAll(g, pts + [p], c) == Paint(PaintAll(g, pts, c), p, c)
  {
    assert (pts + [p])[..|pts|] == pts;
  }

  /** Painting a + b is painting a, then painting b over the result. */
  lemma {:induction false} PaintAllAppend(g: Canvas, a: seq<Point>, b: seq<Point>, c: Color)
    ensures PaintAll(g, a + b, c) == PaintAll(PaintAll(g, a, c), b, c)
    decreases |b|
  {
    if b == [] {
      assert a + b == a;
    } else {
      var b' := b[..|b| - 1];
      assert (a + b)[..|a + b| - 1] == a + b';
      assert Last(a + b) == Last(b);
      PaintAllAppend(g, a, b', c);
    }
  }

  /** Painting the batches of done + [s] is painting those of done, then
      the octant images of s. */
  lemma PaintBatchesSnoc(g: Canvas, cx: int, cy: int, done: seq<State>, s: State, c: Color)
    ensures PaintAll(PaintAll(g, Batches(cx, cy, done), c), Octants(cx, cy, s.x, s.y), c)
         == PaintAll(g, Batches(cx, cy, done + [s]), c)
  {
    PaintAllAppend(g, Batches(cx, cy, done), Octants(cx, cy, s.x, s.y), c);
    BatchesSnoc(cx, cy, done, s);
  }

  /** However many points are painted and in whatever order, the result is
      c on every in-bounds point of the list and the old colour elsewhere. */
  lemma {:induction false} PaintAllEffect(g: Canvas, pts: seq<Point>, c: Color)
    ensures PaintAll(g, pts, c).Keys == g.Keys
    ensures forall q :: q in g ==> PaintAll(g, pts, c)[q] == (if q in pts then c else g[q])
    decreases |pts|
  {
    if pts != [] {
      var init := pts[..|pts| - 1];
      PaintAllEffect(g, init, c);
      assert forall q :: q in pts <==> q in init || q == Last(pts);
    }
  }

  /** Painting a list whose in-bounds points already hold c changes
      nothing. */
  lemma PaintAllAlreadyPainted(g: Canvas, pts: seq<Point>, c: Color)
    requires forall q :: q in pts && q in g ==> g[q] == c
    ensures PaintAll(g, pts, c) == g
  {
    PaintAllEffect(g, pts, c);
  }

  /** Painting the same list twice is painting it once. */
  lemma PaintAllIdempotent(g: Canvas, pts: seq<Point>, c: Color)
    ensures PaintAll(PaintAll(g, pts, c), pts, c) == PaintAll(g, pts, c)
  {
    PaintAllEffect(g, pts, c);
    PaintAllAlreadyPainted(PaintAll(g, pts, c), pts, c);
  }

  /** A pixel that may still be painted: neither boundary nor fill. */
  predicate Open(c: Color) {
    c != BOUNDARY_COLOR && c != FILL_COLOR
  }

  /** The fill's only way of changing a buffer: h keeps every colour of g,
      except that open pixels may have turned into the fill colour. In
      particular boundary and fill pixels never change, and the only colour
      ever written is the fill colour. */
  ghost predicate Refines(g: Canvas, h: Canvas) {
    h.Keys == g.Keys &&
    forall p :: p in g ==> h[p] == g[p] || (Open(g[p]) && h[p] == FILL_COLOR)
  }

  lemma RefinesTransitive(g: Canvas, h: Canvas, k: Canvas)
    requires Refines(g, h) && Refines(h, k)
    ensures Refines(g, k)
  {
  }

  /** The fill's state between two pops: the buffer and the work stack, top
      at the end. */
  datatype Session = Session(canvas: Canvas, stack: seq<Point>)

  /** The four neighbours in the order they are pushed; the last one,
      (x, y + 1), ends on top. */
  function Neighbours(p: Point): seq<Point> {
    [Point(p.x - 1, p.y), Point(p.x + 1, p.y), Point(p.x, p.y - 1), Point(p.x, p.y + 1)]
  }

  /** One pass of the loop body of `boundaryFillStep`: pop the top; an
      out-of-bounds, boundary or filled pixel is dropped; any other pixel is
      painted and its four neighbours are pushed. */
  function Pop(s: Session): Session
    requires s.stack != []
  {
    var p := Last(s.stack);
    var rest := s.stack[..|s.stack| - 1];
    match Lookup(s.canvas, p)
    case None => Session(s.canvas, rest)
    case Some(c) =>
      if !Open(c) then Session(s.canvas, rest)
      else Session(Paint(s.canvas, p, FILL_COLOR), rest + Neighbours(p))
  }

  lemma PopPaints(s: Session)
    requires s.stack != [] && Last(s.stack) in s.canvas && Open(s.canvas[Last(s.stack)])
    ensures Pop(s) == Session(s.canvas[Last(s.stack) := FILL_COLOR], s.stack[..|s.stack| - 1] + Neighbours(Last(s.stack)))
  {
  }

  lemma PopDrops(s: Session)
    requires s.stack != [] && (Last(s.stack) !in s.canvas || !Open(s.canvas[Last(s.stack)]))
    ensures Pop(s) == Session(s.canvas, s.stack[..|s.stack| - 1])
  {
  }

  /** The four pushes of `boundaryFillStep`, one at a time, leave the
      neighbours on the stack in `Neighbours` order. */
  lemma PushesAreNeighbours(rest: seq<Point>, p: Point)
    ensures rest + [Point(p.x - 1, p.y)] + [Point(p.x + 1, p.y)] + [Point(p.x, p.y - 1)] + [Point(p.x, p.y + 1)]
         == rest + Neighbours(p)
  {
  }

  /** The open pixels of a buffer. */
  function OpenCells(g: Canvas): set<Point> {
    set p | p in g && Open(g[p])
  }

  /** The termination measure of the fill: four per open pixel plus one per
      stacked coordinate. */
  function Measure(s: Session): nat {
    4 * |OpenCells(s.canvas)| + |s.stack|
  }

  /** What one pop does: either it drops the top (an out-of-bounds, boundary
      or filled pixel) and leaves the buffer alone, or it paints an open
      pixel with the fill colour, turning one open pixel into a filled one,
      and replaces the top by exactly its four neighbours. Either way the
      buffer only refines and the measure drops by exactly one. */
  lemma PopEffect(s: Session)
    requires s.stack != []
    ensures var p, rest, t := Last(s.stack), s.stack[..|s.stack| - 1], Pop(s);
      Refines(s.canvas, t.canvas) && Measure(t) == Measure(s) - 1 &&
      if p in s.canvas && Open(s.canvas[p]) then
        t.canvas == s.canvas[p := FILL_COLOR] && t.stack == rest + Neighbours(p) &&
        |OpenCells(t.canvas)| == |OpenCells(s.canvas)| - 1
      else
        t.canvas == s.canvas && t.stack == rest
  {
    var p, t := Last(s.stack), Pop(s);
    if p in s.canvas && Open(s.canvas[p]) {
      var before, after := OpenCells(s.canvas), OpenCells(t.canvas);
      assert after == before - {p};
      assert p in before;
      assert |after| == |before| - 1;
    }
  }

  /** Up to n pops, stopping early when the stack runs empty: one call of
      `boundaryFillStep` with n = PIXELS_PER_FRAME. */
  function Batch(s: Session, n: nat): Session
    decreases n
  {
    if n == 0 || s.stack == [] then s else Batch(Pop(s), n - 1)
  }

  /** How many coordinates `Batch(s, n)` pops. */
  function Pops(s: Session, n: nat): nat
    decreases n
  {
    if n == 0 || s.stack == [] then 0 else 1 + Pops(Pop(s), n - 1)
  }

  /** A batch pops at most n entries, and pops fewer only when it has
      emptied the stack; the measure falls by exactly the number of pops,
      so no batch can pop more than the measure; and the buffer only
      refines. */
  lemma {:induction false} BatchEffect(s: Session, n: nat)
    ensures Pops(s, n) <= n
    ensures Pops(s, n) < n ==> Batch(s, n).stack == []
    ensures Measure(Batch(s, n)) == Measure(s) - Pops(s, n)
    ensures Pops(s, n) <= Measure(s)
    ensures Refines(s.canvas, Batch(s, n).canvas)
    decreases n
  {
    if n > 0 && s.stack != [] {
      PopEffect(s);
      BatchEffect(Pop(s), n - 1);
      RefinesTransitive(s.canvas, Pop(s).canvas, Batch(Pop(s), n - 1).canvas);
    }
  }

  /** However large the buffer, a session empties its stack within
      Measure(s) pops: at most four pops per open pixel plus one per
      coordinate already stacked. */
  lemma FillTerminates(s: Session, n: nat)
    requires n >= Measure(s)
    ensures Batch(s, n).stack == []
  {
    BatchEffect(s, n);
  }

  /** A fill seeded with one coordinate is over after 4 * (number of
      buffer cells) + 1 pops: each cell can be painted once and push four
      neighbours then, and the seed itself is popped once. */
  lemma SeededFillBound(g: Canvas, seed: Point)
    ensures Batch(Session(g, [seed]), 4 * |g.Keys| + 1).stack == []
  {
    var s := Session(g, [seed]);
    assert OpenCells(g) <= g.Keys;
    SubsetCardinality(OpenCells(g), g.Keys);
    FillTerminates(s, 4 * |g.Keys| + 1);
  }

  lemma {:induction false} SubsetCardinality<T>(a: set<T>, b: set<T>)
    requires a <= b
    ensures |a| <= |b|
    decreases |b|
  {
    if a != {} {
      var x :| x in a;
      SubsetCardinality(a - {x}, b - {x});
    }
  }

  /** The fill run to the end: pop until the stack is empty. The result has
      an empty stack and refines the starting buffer. */
  function Complete(s: Session): (r: Session)
    ensures r.stack == []
    ensures Refines(s.canvas, r.canvas)
    decreases Measure(s)
  {
    if s.stack == [] then s
    else
      PopEffect(s);
      var r := Complete(Pop(s));
      RefinesTransitive(s.canvas, Pop(s).canvas, r.canvas);
      r
  }

  /** A batch is a prefix of the same pops: finishing after a batch ends
      where finishing straight away does. */
  lemma {:induction false} CompleteAfterBatch(s: Session, n: nat)
    ensures Complete(Batch(s, n)) == Complete(s)
    decreases n
  {
    if n > 0 && s.stack != [] {
      CompleteAfterBatch(Pop(s), n - 1);
    }
  }

  /** The display loop: one batch of size b per frame until the stack is
      empty. */
  function Drive(s: Session, b: nat): Session
    requires b > 0
    decreases Measure(s)
  {
    if s.stack == [] then s
    else
      BatchEffect(s, b);
      Drive(Batch(s, b), b)
  }

  /** Batch-size invariance: whatever the number of pops per frame, the
      frames end with the same buffer as one uninterrupted fill. */
  lemma {:induction false} DriveIsComplete(s: Session, b: nat)
    requires b > 0
    ensures Drive(s, b) == Complete(s)
    ensures Drive(s, b).stack == []
    decreases Measure(s)
  {
    if s.stack != [] {
      BatchEffect(s, b);
      DriveIsComplete(Batch(s, b), b);
      CompleteAfterBatch(s, b);
    }
  }

  /** A pixel this fill has painted: open in the starting buffer g0, fill
      coloured in h. */
  ghost predicate NewlyFilled(g0: Canvas, h: Canvas, p: Point) {
    p in g0 && p in h && Open(g0[p]) && h[p] == FILL_COLOR
  }

  /** The fill's frontier invariant: every in-bounds neighbour of a pixel
      the fill has painted is either no longer open or still waiting on the
      stack. */
  ghost predicate Frontier(g0: Canvas, s: Session) {
    forall p, q :: NewlyFilled(g0, s.canvas, p) && q in Neighbours(p) && q in s.canvas ==>
      !Open(s.canvas[q]) || q in s.stack
  }

  /** A pop keeps the frontier: a dropped top is not open, and a painted top
      has just pushed its own neighbours. */
  lemma PopKeepsFrontier(g0: Canvas, s: Session)
    requires s.stack != [] && Refines(g0, s.canvas) && Frontier(g0, s)
    ensures Refines(g0, Pop(s).canvas) && Frontier(g0, Pop(s))
  {
    PopEffect(s);
    RefinesTransitive(g0, s.canvas, Pop(s).canvas);
    var top, t := Last(s.stack), Pop(s);
    forall p, q | NewlyFilled(g0, t.canvas, p) && q in Neighbours(p) && q in t.canvas
      ensures !Open(t.canvas[q]) || q in t.stack
    {
      if top in s.canvas && Open(s.canvas[top]) {
        if p != top {
          assert NewlyFilled(g0, s.canvas, p);
          if q != top && Open(t.canvas[q]) {
            assert q in s.stack;
            assert s.stack == s.stack[..|s.stack| - 1] + [top];
          }
        }
      } else {
        assert NewlyFilled(g0, s.canvas, p);
        if Open(t.canvas[q]) {
          assert q in s.stack && q != top;
          assert s.stack == s.stack[..|s.stack| - 1] + [top];
        }
      }
    }
  }

  /** Run to the end, the fill keeps its frontier. */
  lemma {:induction false} CompleteKeepsFrontier(g0: Canvas, s: Session)
    requires Refines(g0, s.canvas) && Frontier(g0, s)
    ensures Frontier(g0, Complete(s))
    decreases Measure(s)
  {
    if s.stack != [] {
      PopEffect(s);
      PopKeepsFrontier(g0, s);
      CompleteKeepsFrontier(g0, Pop(s));
    }
  }

  /** What a click inside the circle ends with once every frame has run:
      the buffer only refines; the seed is filled when it was an open
      in-bounds pixel; and the filled region is closed, so no open pixel of
      the final buffer touches a pixel the fill painted. The fill stops only
      at boundary pixels, fill pixels and the edge of the buffer. */
  lemma FillIsClosed(g: Canvas, seed: Point)
    requires FullCanvas(g)
    ensures var r := Complete(Session(g, [seed]));
      Refines(g, r.canvas) &&
      (InBounds(seed) && Open(g[seed]) ==> r.canvas[seed] == FILL_COLOR) &&
      forall p, q :: NewlyFilled(g, r.canvas, p) && q in Neighbours(p) && InBounds(q) ==>
        !Open(r.canvas[q])
  {
    var s := Session(g, [seed]);
    assert Frontier(g, s);
    CompleteKeepsFrontier(g, s);
    var r := Complete(s);
    if InBounds(seed) && Open(g[seed]) {
      PopEffect(s);
      var t := Pop(s);
      assert t.canvas[seed] == FILL_COLOR;
      assert Complete(s) == Complete(t);
      assert r.canvas[seed] == FILL_COLOR;
    }
  }

  /** A path of open pixels of g: in-bounds cells, each open in g, each a
      4-neighbour of the one before. */
  ghost predicate OpenPath(g: Canvas, path: seq<Point>) {
    |path| >= 1 &&
    (forall i :: 0 <= i < |path| ==> path[i] in g && Open(g[path[i]])) &&
    (forall i :: 0 <= i < |path| - 1 ==> path[i + 1] in Neighbours(path[i]))
  }

  /** q can be reached from the seed in g without crossing a boundary or a
      filled pixel, or leaving the buffer. */
  ghost predicate Reachable(g: Canvas, seed: Point, q: Point) {
    exists path :: OpenPath(g, path) && path[0] == seed && Last(path) == q
  }

  /** A path of open pixels extended by an open neighbour of its end is
      again one. */
  lemma ExtendOpenPath(g: Canvas, path: seq<Point>, q: Point)
    requires OpenPath(g, path) && q in g && Open(g[q]) && q in Neighbours(Last(path))
    ensures OpenPath(g, path + [q]) && (path + [q])[0] == path[0] && Last(path + [q]) == q
  {
    var ext := path + [q];
    forall i | 0 <= i < |ext| - 1
      ensures ext[i + 1] in Neighbours(ext[i])
    {
      if i < |path| - 1 {
        assert ext[i] == path[i] && ext[i + 1] == path[i + 1];
      }
    }
  }

  /** The fill's trace invariant: every pixel it has painted is reachable
      from the seed, and every stacked coordinate is the seed or a
      neighbour of a pixel it has painted. */
  ghost predicate Traced(g0: Canvas, seed: Point, s: Session) {
    (forall p :: NewlyFilled(g0, s.canvas, p) ==> Reachable(g0, seed, p)) &&
    (forall q :: q in s.stack ==>
      q == seed || exists p :: NewlyFilled(g0, s.canvas, p) && q in Neighbours(p))
  }

  /** A pop keeps the trace: the pixel it paints is the seed or a
      neighbour of a reachable pixel, so it is reachable, and what it pushes
      are its own neighbours. */
  lemma PopKeepsTraced(g0: Canvas, seed: Point, s: Session)
    requires s.stack != [] && Refines(g0, s.canvas) && Traced(g0, seed, s)
    ensures Traced(g0, seed, Pop(s))
  {
    PopEffect(s);
    var top, rest, t := Last(s.stack), s.stack[..|s.stack| - 1], Pop(s);
    assert s.stack == rest + [top];
    assert forall p :: NewlyFilled(g0, s.canvas, p) ==> NewlyFilled(g0, t.canvas, p);
    assert top in s.stack;
    forall q | q in rest && q != seed
      ensures exists p :: NewlyFilled(g0, t.canvas, p) && q in Neighbours(p)
    {
      assert q in s.stack;
      var p :| NewlyFilled(g0, s.canvas, p) && q in Neighbours(p);
      assert NewlyFilled(g0, t.canvas, p);
    }
    if top in s.canvas && Open(s.canvas[top]) {
      assert Open(g0[top]) && top in g0;
      assert Reachable(g0, seed, top) by {
        if top == seed {
          assert OpenPath(g0, [top]);
        } else {
          var p :| NewlyFilled(g0, s.canvas, p) && top in Neighbours(p);
          var path :| OpenPath(g0, path) && path[0] == seed && Last(path) == p;
          ExtendOpenPath(g0, path, top);
        }
      }
      assert NewlyFilled(g0, t.canvas, top);
      forall q | q in Neighbours(top)
        ensures exists p :: NewlyFilled(g0, t.canvas, p) && q in Neighbours(p)
      {
        assert NewlyFilled(g0, t.canvas, top);
      }
    }
  }

  /** Run to the end, the fill keeps its trace. */
  lemma {:induction false} CompleteKeepsTraced(g0: Canvas, seed: Point, s: Session)
    requires Refines(g0, s.canvas) && Traced(g0, seed, s)
    ensures Traced(g0, seed, Complete(s))
    decreases Measure(s)
  {
    if s.stack != [] {
      PopEffect(s);
      RefinesTransitive(g0, s.canvas, Pop(s).canvas);
      PopKeepsTraced(g0, seed, s);
      CompleteKeepsTraced(g0, seed, Pop(s));
    }
  }

  /** Every pixel on a path of open pixels from the seed ends filled: the
      seed does, and the closed region cannot leave an open neighbour of a
      filled pixel behind. */
  lemma {:induction false} PathIsFilled(g: Canvas, seed: Point, path: seq<Point>)
    requires FullCanvas(g) && OpenPath(g, path) && path[0] == seed
    ensures NewlyFilled(g, Complete(Session(g, [seed])).canvas, Last(path))
    decreases |path|
  {
    FillIsClosed(g, seed);
    if |path| > 1 {
      var init := path[..|path| - 1];
      assert OpenPath(g, init);
      PathIsFilled(g, seed, init);
      assert Last(path) == path[|path| - 2 + 1] && Last(init) == path[|path| - 2];
    }
  }

  /** What a boundary fill is: from a seed, the fill paints exactly the
      pixels reachable from it along open pixels, in the fill colour, and
      leaves every other pixel as it was. */
  lemma FillPaintsExactlyTheReachable(g: Canvas, seed: Point)
    requires FullCanvas(g)
    ensures var r := Complete(Session(g, [seed]));
      r.canvas.Keys == g.Keys &&
      (forall q :: NewlyFilled(g, r.canvas, q) <==> Reachable(g, seed, q)) &&
      forall q :: q in g ==> r.canvas[q] == (if Reachable(g, seed, q) then FILL_COLOR else g[q])
  {
    var s := Session(g, [seed]);
    var r := Complete(s);
    assert Traced(g, seed, s);
    CompleteKeepsTraced(g, seed, s);
    forall q | Reachable(g, seed, q)
      ensures NewlyFilled(g, r.canvas, q)
    {
      var path :| OpenPath(g, path) && path[0] == seed && Last(path) == q;
      PathIsFilled(g, seed, path);
    }
  }

  /** Redrawing the circle after any amount of filling changes nothing: the
      ring's pixels are boundary-coloured after the first drawing, and the
      fill never repaints a boundary pixel. */
  lemma RedrawIsNoop(g: Canvas, h: Canvas, ring: seq<Point>)
    requires Refines(PaintAll(g, ring, BOUNDARY_COLOR), h)
    ensures PaintAll(h, ring, BOUNDARY_COLOR) == h
  {
    var drawn := PaintAll(g, ring, BOUNDARY_COLOR);
    PaintAllEffect(g, ring, BOUNDARY_COLOR);
    assert forall q :: q in ring && q in h ==> drawn[q] == BOUNDARY_COLOR && h[q] == BOUNDARY_COLOR;
    PaintAllAlreadyPainted(h, ring, BOUNDARY_COLOR);
  }

  /** The exact integer form of the source's `sqrt(dx*dx + dy*dy) < radius`:
      the click lies strictly inside the circle. */
  predicate InsideCircle(cx: int, cy: int, r: int, clickX: int, clickY: int): (inside: bool)
    ensures inside && r >= 0 ==> -r < clickX - cx < r && -r < clickY - cy < r
  {
    var dx, dy := clickX - cx, clickY - cy;
    SquaresBelow(dx, dy, r);
    dx * dx + dy * dy < r * r
  }

  /** A point strictly inside a circle lies strictly inside its bounding
      square. */
  lemma SquaresBelow(a: int, b: int, r: int)
    ensures a * a + b * b < r * r && r >= 0 ==> -r < a < r && -r < b < r
  {
    assert a * a >= 0 && b * b >= 0;
    assert (-a) * (-a) == a * a && (-b) * (-b) == b * b;
    SquareGrows(a, r);
    SquareGrows(-a, r);
    SquareGrows(b, r);
    SquareGrows(-b, r);
  }

  /** Squaring is monotone on the non-negative integers. */
  lemma SquareGrows(u: int, r: int)
    ensures 0 <= r <= u ==> r * r <= u * u
  {
    if 0 <= r <= u {
      MultiplyBoth(u, r, u);
      MultiplyBoth(u, r, r);
    }
  }

  lemma MultiplyBoth(a: int, b: int, k: int)
    requires a >= b && k >= 0
    ensures k * a >= k * b
  {
  }

  /** Every seed a click can push is a pixel of the buffer: the circle
      around (320, 240) with radius 100 lies inside the 640 x 480 window. */
  lemma ClickSeedIsInBounds(x: int, y: int)
    requires InsideCircle(WIDTH / 2, HEIGHT / 2, 100, x, HEIGHT - y)
    ensures InBounds(Point(x, HEIGHT - y))
  {
  }

  datatype Button = LeftButton | MiddleButton | RightButton
  datatype ButtonState = Down | Up

  /** What a mouse event did: nothing (not a left press), started a fill,
      or was rejected with the "Click outside the circle" message. */
  datatype ClickOutcome = Ignored | Started | Rejected

  /** The program's global state: the pixel buffer, the work stack, the
      `fillInitialized` flag and the circle's centre and radius. The ghost
      `canvas` is the buffer's contents as a value. */
  class FillEngine {
    const centerX: int
    const centerY: int
    const radius: int
    const pixels: array2<Color>
    var fillPixels: seq<Point>
    var fillInitialized: bool
    ghost var canvas: Canvas

    ghost predicate Valid()
      reads this, pixels
    {
      pixels.Length0 == HEIGHT && pixels.Length1 == WIDTH &&
      FullCanvas(canvas) &&
      forall p :: p in canvas ==> canvas[p] == pixels[p.y, p.x]
    }

    /** The buffer is a zero-initialised global in the source, which is the
        background colour; the stack starts empty and no fill is running. */
    constructor ()
      ensures Valid() && fresh(pixels)
      ensures centerX == WIDTH / 2 && centerY == HEIGHT / 2 && radius == 100
      ensures canvas == Uniform(BG_COLOR)
      ensures fillPixels == [] && !fillInitialized
    {
      centerX, centerY, radius := WIDTH / 2, HEIGHT / 2, 100;
      pixels := new Color[HEIGHT, WIDTH]((_, _) => BG_COLOR);
      fillPixels := [];
      fillInitialized := false;
      canvas := Uniform(BG_COLOR);
    }

    method SetPixel(x: int, y: int, color: Color)
      requires Valid()
      modifies this`canvas, pixels
      ensures Valid()
      ensures canvas == Paint(old(canvas), Point(x, y), color)
    {
      if x >= 0 && x < WIDTH && y >= 0 && y < HEIGHT {
        pixels[y, x] := color;
        canvas := canvas[Point(x, y) := color];
      }
    }

    function GetPixel(x: int, y: int): (r: Option<Color>)
      reads this, pixels
      requires Valid()
      ensures r == Lookup(canvas, Point(x, y))
    {
      if x >= 0 && x < WIDTH && y >= 0 && y < HEIGHT then Some(pixels[y, x]) else None
    }

    /** The background loop of `init`: every cell ends up background. */
    method Init()
      requires Valid()
      modifies this`canvas, pixels
      ensures Valid()
      ensures canvas == Uniform(BG_COLOR)
    {
      var y := 0;
      while y < HEIGHT
        invariant 0 <= y <= HEIGHT
        invariant Valid()
        invariant forall p :: p in canvas && p.y < y ==> canvas[p] == BG_COLOR
      {
        var x := 0;
        while x < WIDTH
          invariant 0 <= x <= WIDTH
          invariant Valid()
          invariant forall p :: p in canvas && (p.y < y || (p.y == y && p.x < x)) ==> canvas[p] == BG_COLOR
        {
          SetPixel(x, y, BG_COLOR);
          x := x + 1;
        }
        y := y + 1;
      }
    }

    /** The eight `setPixel` calls of one loop turn of `drawCircleToBuffer`,
        issued in order over the given points. */
    method PlotPoints(pts: seq<Point>, color: Color)
      requires Valid()
      modifies this`canvas, pixels
      ensures Valid()
      ensures canvas == PaintAll(old(canvas), pts, color)
    {
      var i := 0;
      while i < |pts|
        invariant i <= |pts|
        invariant Valid()
        invariant canvas == PaintAll(old(canvas), pts[..i], color)
      {
        SetPixel(pts[i].x, pts[i].y, color);
        PaintAllSnoc(old(canvas), pts[..i], pts[i], color);
        assert pts[..i] + [pts[i]] == pts[..i + 1];
        i := i + 1;
      }
      assert pts[..i] == pts;
    }

    /** The update at the end of each turn of `drawCircleToBuffer`: x
        grows; when d > 0, y drops; d follows the new x and y. */
    static method CircleStep(x: int, y: int, d: int) returns (x': int, y': int, d': int)
      ensures State(x', y', d') == Advance(State(x, y, d))
    {
      x', y', d' := x + 1, y, d;
      if d > 0 {
        y' := y' - 1;
        d' := d' + 4 * (x' - y') + 10;
      } else {
        d' := d' + 4 * x' + 6;
      }
    }

    /** Draws the boundary circle: the buffer afterwards is the old one with
        every ring point painted in the boundary colour. */
    method DrawCircleToBuffer()
      requires Valid()
      modifies this`canvas, pixels
      ensures Valid()
      ensures canvas == PaintAll(old(canvas), Ring(centerX, centerY, radius), BOUNDARY_COLOR)
    {
      var x := 0;
      var y := radius;
      var d := 3 - 2 * radius;
      ghost var done: seq<State> := [];
      ghost var g0 := canvas;
      while y >= x
        invariant Valid()
        invariant Iterates(Start(radius)) == done + Iterates(State(x, y, d))
        invariant canvas == PaintAll(g0, Batches(centerX, centerY, done), BOUNDARY_COLOR)
        decreases y - x
      {
        ghost var s := State(x, y, d);
        PlotPoints(Octants(centerX, centerY, x, y), BOUNDARY_COLOR);
        PaintBatchesSnoc(g0, centerX, centerY, done, s, BOUNDARY_COLOR);
        IteratesStep(done, s);
        x, y, d := CircleStep(x, y, d);
        done := done + [s];
      }
      assert Iterates(State(x, y, d)) == [];
      assert done + [] == done;
    }

    /** One frame's share of the fill: the buffer and stack move exactly as
        a batch of PIXELS_PER_FRAME pops; the result asks for another frame
        exactly when work is left. */
    method BoundaryFillStep() returns (more: bool)
      requires Valid()
      modifies this`canvas, this`fillPixels, pixels
      ensures Valid()
      ensures Session(canvas, fillPixels) == Batch(old(Session(canvas, fillPixels)), PIXELS_PER_FRAME)
      ensures more <==> fillPixels != []
    {
      var i := 0;
      while i < PIXELS_PER_FRAME && fillPixels != []
        invariant 0 <= i <= PIXELS_PER_FRAME
        invariant Valid()
        invariant Batch(Session(canvas, fillPixels), PIXELS_PER_FRAME - i)
               == Batch(old(Session(canvas, fillPixels)), PIXELS_PER_FRAME)
      {
        PopOne();
        i := i + 1;
      }
      more := fillPixels != [];
    }

    /** The body of the loop in `boundaryFillStep`: one pop. */
    method PopOne()
      requires Valid() && fillPixels != []
      modifies this`canvas, this`fillPixels, pixels
      ensures Valid()
      ensures Session(canvas, fillPixels) == Pop(old(Session(canvas, fillPixels)))
    {
      ghost var before := Session(canvas, fillPixels);
      var current := fillPixels[|fillPixels| - 1];
      fillPixels := fillPixels[..|fillPixels| - 1];
      ghost var rest := fillPixels;
      var x, y := current.x, current.y;
      assert current == Point(x, y) == Last(before.stack);
      var pixel := GetPixel(x, y);
      if pixel.Some? {
        var isBoundary := pixel.value == BOUNDARY_COLOR;
        var isFilled := pixel.value == FILL_COLOR;
        if !isBoundary && !isFilled {
          PopPaints(before);
          SetPixel(x, y, FILL_COLOR);
          var stack := fillPixels;
          stack := stack + [Point(x - 1, y)];
          stack := stack + [Point(x + 1, y)];
          stack := stack + [Point(x, y - 1)];
          stack := stack + [Point(x, y + 1)];
          PushesAreNeighbours(rest, current);
          fillPixels := stack;
        } else {
          PopDrops(before);
        }
      } else {
        PopDrops(before);
      }
    }

    /** A mouse event. A left press whose point (x, HEIGHT - y) lies strictly
        inside the circle discards any unfinished fill, seeds the stack with
        that point alone and marks a fill as running; any other event
        leaves the stack and the flag as they were. The buffer is never
        touched. */
    method Mouse(btn: Button, state: ButtonState, x: int, y: int) returns (outcome: ClickOutcome)
      requires Valid()
      modifies this`fillPixels, this`fillInitialized
      ensures Valid()
      ensures outcome == (if btn != LeftButton || state != Down then Ignored
                          else if InsideCircle(centerX, centerY, radius, x, HEIGHT - y) then Started
                          else Rejected)
      ensures outcome == Started ==> fillPixels == [Point(x, HEIGHT - y)] && fillInitialized
      ensures outcome != Started ==>
        fillPixels == old(fillPixels) && fillInitialized == old(fillInitialized)
    {
      outcome := Ignored;
      if btn == LeftButton && state == Down {
        var clickX := x;
        var clickY := HEIGHT - y;
        var dx := clickX - centerX;
        var dy := clickY - centerY;
        if dx * dx + dy * dy < radius * radius {
          fillInitialized := true;
          while fillPixels != []
            invariant fillInitialized
            decreases |fillPixels|
          {
            fillPixels := fillPixels[..|fillPixels| - 1];
          }
          fillPixels := fillPixels + [Point(clickX, clickY)];
          outcome := Started;
        } else {
          outcome := Rejected;
        }
      }
    }

    /** One frame of `display`: redraw the circle, then take one batch of the
        fill if one is running. */
    method Display() returns (more: bool)
      requires Valid()
      modifies this`canvas, this`fillPixels, pixels
      ensures Valid()
      ensures var drawn := PaintAll(old(canvas), Ring(centerX, centerY, radius), BOUNDARY_COLOR);
        if fillInitialized then
          Session(canvas, fillPixels) == Batch(Session(drawn, old(fillPixels)), PIXELS_PER_FRAME) &&
          (more <==> fillPixels != [])
        else
          canvas == drawn && fillPixels == old(fillPixels) && !more
    {
      DrawCircleToBuffer();
      more := false;
      if fillInitialized {
        more := BoundaryFillStep();
      }
    }
  }
}
