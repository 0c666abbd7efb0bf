# Integer rasterisation and the incremental boundary fill

This project models the integer core of a small collection of OpenGL/GLUT
graphics programs, and proves properties of that model in Dafny.

- **Boundary fill** (`Main-Folder/boundaryfillAlgo.cpp`). A 640 x 480 RGB
  pixel buffer is cleared to the background colour. A white circle of
  radius 100 is drawn into it with the midpoint recurrence. A left click
  strictly inside the circle seeds a stack of coordinates and starts a fill.
  Each frame redraws the circle and then, while a fill is running, pops at
  most 1000 coordinates. Each popped pixel that
  is in bounds and neither boundary- nor fill-coloured is painted red, and
  its four neighbours are pushed.
  - The program state is the class `BoundaryFill.FillEngine`. It holds the
    buffer as an `array2<Color>`, the stack as a `seq<Point>` with its top at
    the end, and the `fillInitialized` flag. A ghost map `canvas` mirrors
    the buffer.
  - Every method is proved to move that state exactly as a value model says:
    `Paint`, `Pop`, `Batch` and `Ring` on the map and stack.
  - Lemmas about the value model give the fill's guarantees:
    - it terminates, with an explicit bound;
    - boundary and fill pixels never change, and the fill colour is the
      only colour it writes;
    - the result does not depend on the batch size;
    - redrawing the circle is a no-op;
    - the filled region is closed against open pixels;
    - the fill paints exactly the pixels reachable from the seed along
      open pixels, and leaves every other pixel as it was.
- **Midpoint circle** (`Midpoint`). This module holds the recurrence that
  both circle programs share. `drawCircleToBuffer` plots before it advances;
  `bresenhamCircle` in `Main-Folder/project2.cpp` plots after, so it emits
  one more batch of eight points.
- **Solar-system viewer** (`SolarSystem`). This models the integer state of
  `Main-Folder/project2.cpp`:
  - `bresenhamCircle` as a method returning the emitted points;
  - the planet list that `setupSolarSystem` builds (names and moons);
  - the selection and toggle state that `keyboard` updates.
- **Bresenham line and rectangle** (`LineRaster`, `Exam`, `Practice`).
  `Main-Folder/exam.cpp` and `Main-Folder/practice.cpp` each draw an
  axis-parallel rectangle from two diagonal corners with their own copy of
  `bresenhamLine`.
  - Each copy is an imperative method that returns the pixels in drawing
    order. Each is proved equal to `LineRaster.Points`, with the file's own
    steep-branch update.
  - The two copies differ in that update (see "## Findings").
  - The rectangles are the same, because every edge is axis-parallel.

Emitted vertices (`glVertex2f`, `drawPixel`) are returned as sequences of
points. The request for another frame (`glutPostRedisplay` after a fill
step) is returned as a boolean.

## Model

| member | source | states |
|---|---|---|
| `BoundaryFill.FillEngine.constructor` | Main-Folder/boundaryfillAlgo.cpp:7-19 | The zero-initialised global buffer is background everywhere. The stack is empty, no fill is running, and the circle is centred at (320, 240) with radius 100. |
| `BoundaryFill.FillEngine.SetPixel` | Main-Folder/boundaryfillAlgo.cpp:21-27 | The buffer becomes `Paint(old buffer, (x, y), color)`. |
| `BoundaryFill.Paint` | Main-Folder/boundaryfillAlgo.cpp:21-27 | `setPixel` on the buffer's contents keeps the set of cells. The cell (x, y), when it is one, holds the new colour, and every other cell keeps its colour. |
| `BoundaryFill.PaintTouchesOnlyItsCell` | Main-Folder/boundaryfillAlgo.cpp:21-27 | `setPixel` changes cell (x, y) and no other cell, and only when 0 <= x < 640 and 0 <= y < 480. Out of bounds the buffer is unchanged. |
| `BoundaryFill.FillEngine.GetPixel` | Main-Folder/boundaryfillAlgo.cpp:29-34 | Reading the array gives the same answer as `Lookup` on the buffer's contents. |
| `BoundaryFill.Lookup` | Main-Folder/boundaryfillAlgo.cpp:29-34 | `getPixel` on the buffer's contents returns a colour exactly when (x, y) is a cell, and then the colour stored there. |
| `BoundaryFill.LookupIsNoneExactlyOutOfBounds` | Main-Folder/boundaryfillAlgo.cpp:29-34 | `getPixel` returns nothing exactly when (x, y) is out of bounds. Otherwise it returns the stored colour. |
| `BoundaryFill.LookupAfterPaint` | Main-Folder/boundaryfillAlgo.cpp:21-34 | Reading after writing: `getPixel` at the cell `setPixel` just wrote returns the written colour when the cell is in bounds. Every other read returns what it returned before. |
| `BoundaryFill.FillEngine.Init` | Main-Folder/boundaryfillAlgo.cpp:149-153 | After the nested loop, every cell holds the background colour. |
| `BoundaryFill.PaintAllEffect` | Main-Folder/boundaryfillAlgo.cpp:43-50 | A run of `setPixel` calls with one colour keeps the set of cells. Each cell ends in that colour if it is one of the points, and keeps its old colour otherwise. |
| `BoundaryFill.PaintAllIdempotent` | Main-Folder/boundaryfillAlgo.cpp:36-60 | Drawing the same points twice gives the same buffer as drawing them once. |
| `BoundaryFill.RedrawIsNoop` | Main-Folder/boundaryfillAlgo.cpp:97-115 | After the circle is drawn and any fill has run, the per-frame redraw of the circle leaves the buffer unchanged. |
| `Midpoint.Start` | Main-Folder/boundaryfillAlgo.cpp:38-40 | The state before the loop is offset (0, r), the top of the circle, and the loop body runs at least once exactly when r >= 0. |
| `Midpoint.Advance` | Main-Folder/boundaryfillAlgo.cpp:52-58 | One advance raises x by exactly 1. It lowers y by 1 exactly when d > 0, and leaves y alone otherwise. y - x strictly decreases. |
| `Midpoint.Octants` | Main-Folder/project2.cpp:60-69 | The eight points of one `plotCirclePoints` call, and of lines 43-50 of boundaryfillAlgo.cpp, in their order. There are eight; the first is (cx + x, cy + y) and the fifth, (cx + y, cy + x), is its mirror in the diagonal. |
| `Midpoint.OctantsEquidistant` | Main-Folder/project2.cpp:60-69 | The eight images start with (cx + x, cy + y). All of them lie at squared distance x*x + y*y from the centre. |
| `Midpoint.Iterates` | Main-Folder/boundaryfillAlgo.cpp:42 | Every state at which the loop body runs satisfies the guard y >= x. |
| `Midpoint.Exit` | Main-Folder/boundaryfillAlgo.cpp:42-59 | The loop terminates in a state that fails the guard. |
| `Midpoint.Trajectory` | Main-Folder/project2.cpp:72-87 | The states `bresenhamCircle` plots start with the initial state (0, r, 3 - 2r). |
| `Midpoint.IteratesAreAdvances` | Main-Folder/boundaryfillAlgo.cpp:42-59 | Iteration k runs at x = k. Each iterated state is the advance of the one before. Advancing the last one gives the exit state. |
| `Midpoint.TrajectoryIsIteratesThenExit` | Main-Folder/project2.cpp:78-87 | `bresenhamCircle` plots every iterated state and then the exit state: one more state than there are loop iterations. |
| `Midpoint.BatchesLayout` | Main-Folder/boundaryfillAlgo.cpp:43-50 | There are eight points per state. State i's octant images occupy positions 8i to 8i + 8, in the source's order. |
| `Midpoint.Ring` | Main-Folder/boundaryfillAlgo.cpp:38-59 | The points `drawCircleToBuffer` plots: eight per loop iteration. For r >= 0 the first eight are the images of (0, r). |
| `Midpoint.RingPointsAreOctantImages` | Main-Folder/boundaryfillAlgo.cpp:42-51 | Every point `drawCircleToBuffer` writes is one of the eight images of a state with y >= x. |
| `BoundaryFill.FillEngine.PlotPoints` | Main-Folder/boundaryfillAlgo.cpp:43-50 | The `setPixel` calls of one loop turn, in order. The buffer becomes the old buffer with those points painted. |
| `BoundaryFill.FillEngine.CircleStep` | Main-Folder/boundaryfillAlgo.cpp:52-58 | The update at the end of a loop turn moves (x, y, d) exactly as `Advance`. |
| `BoundaryFill.FillEngine.DrawCircleToBuffer` | Main-Folder/boundaryfillAlgo.cpp:36-60 | The buffer becomes the old buffer with every ring point painted in the boundary colour. Nothing else changes. |
| `BoundaryFill.Pop` | Main-Folder/boundaryfillAlgo.cpp:66-89 | One turn of the fill loop on the buffer and the stack: pop the top, drop it when it is out of bounds, boundary or filled, otherwise paint it and push its four neighbours. Its properties are stated by `PopEffect`. |
| `BoundaryFill.PopEffect` | Main-Folder/boundaryfillAlgo.cpp:66-89 | A pop does one of two things. It drops an out-of-bounds, boundary or filled top and leaves the buffer alone. Or it paints an open top with the fill colour, so one fewer pixel is open, and replaces the top by its four neighbours (net growth 3). Either way the buffer only refines and the measure 4 * (open pixels) + (stack size) drops by exactly 1. |
| `BoundaryFill.FillEngine.PopOne` | Main-Folder/boundaryfillAlgo.cpp:66-89 | One turn of the `boundaryFillStep` loop moves the buffer and the stack exactly as `Pop`. |
| `BoundaryFill.Batch` | Main-Folder/boundaryfillAlgo.cpp:62-95 | One call of `boundaryFillStep`: up to n pops (1000 in the source), stopping early on an empty stack. Its properties are stated by `BatchEffect`. |
| `BoundaryFill.BatchEffect` | Main-Folder/boundaryfillAlgo.cpp:63-65 | A batch pops at most n entries. It pops fewer only when it has emptied the stack. The measure falls by the number of pops, and the buffer only refines. |
| `BoundaryFill.FillEngine.BoundaryFillStep` | Main-Folder/boundaryfillAlgo.cpp:62-95 | One call moves the buffer and the stack as a batch of 1000 pops. The "more work" result is true exactly when the stack is non-empty afterwards. |
| `BoundaryFill.FillTerminates` | Main-Folder/boundaryfillAlgo.cpp:62-90 | Any batch of at least Measure(s) pops empties the stack. |
| `BoundaryFill.SeededFillBound` | Main-Folder/boundaryfillAlgo.cpp:62-90 | A fill seeded with one coordinate is over within 4 * (buffer cells) + 1 pops. |
| `BoundaryFill.Complete` | Main-Folder/boundaryfillAlgo.cpp:62-90 | Run to the end, the fill empties its stack. Its buffer refines the starting buffer: boundary and fill pixels never change, and only the fill colour is written. |
| `BoundaryFill.CompleteAfterBatch` | Main-Folder/boundaryfillAlgo.cpp:62-90 | Finishing after a batch ends where finishing straight away does. |
| `BoundaryFill.Drive` | Main-Folder/boundaryfillAlgo.cpp:113-114 | One batch per frame until the stack is empty. Its result is stated by `DriveIsComplete`. |
| `BoundaryFill.DriveIsComplete` | Main-Folder/boundaryfillAlgo.cpp:113-114 | Running frames of any positive batch size until the stack is empty gives the same buffer as one uninterrupted fill. |
| `BoundaryFill.PopKeepsFrontier` | Main-Folder/boundaryfillAlgo.cpp:83-89 | Every in-bounds neighbour of a pixel this fill painted is either no longer open or still on the stack, and a pop keeps this true. |
| `BoundaryFill.CompleteKeepsFrontier` | Main-Folder/boundaryfillAlgo.cpp:62-90 | That frontier invariant holds through the whole run. |
| `BoundaryFill.FillIsClosed` | Main-Folder/boundaryfillAlgo.cpp:62-90 | A fill from one seed only refines the buffer. An open in-bounds seed ends filled. No in-bounds neighbour of a painted pixel is left open. |
| `BoundaryFill.PopKeepsTraced` | Main-Folder/boundaryfillAlgo.cpp:83-89 | Every pixel the fill has painted is reachable from the seed along pixels open at the start, and every stacked coordinate is the seed or a neighbour of a painted pixel. A pop keeps both true. |
| `BoundaryFill.CompleteKeepsTraced` | Main-Folder/boundaryfillAlgo.cpp:62-90 | That trace invariant holds through the whole run. |
| `BoundaryFill.PathIsFilled` | Main-Folder/boundaryfillAlgo.cpp:62-90 | Every pixel at the end of a 4-connected path of open pixels from the seed ends filled. |
| `BoundaryFill.FillPaintsExactlyTheReachable` | Main-Folder/boundaryfillAlgo.cpp:62-90 | A fill from one seed paints a pixel exactly when it is joined to the seed by a 4-connected path of in-bounds pixels that were neither boundary nor fill coloured at the start. It paints such pixels with the fill colour and leaves every other pixel as it was. |
| `BoundaryFill.InsideCircle` | Main-Folder/boundaryfillAlgo.cpp:123-127 | The click test, as the exact integer comparison dx*dx + dy*dy < r*r. A point that passes it lies strictly inside the circle's bounding square. |
| `BoundaryFill.ClickSeedIsInBounds` | Main-Folder/boundaryfillAlgo.cpp:119-132 | Every coordinate a click pushes is a pixel of the buffer, since the circle at (320, 240) with radius 100 lies inside the 640 x 480 window. |
| `BoundaryFill.FillEngine.Mouse` | Main-Folder/boundaryfillAlgo.cpp:117-140 | A left press whose point (x, 480 - y) lies strictly inside the circle empties the stack, pushes exactly that point and sets `fillInitialized`. A click outside the circle is rejected, and any other event is ignored. In both of those cases the stack and the flag are unchanged. The buffer is never touched. |
| `BoundaryFill.FillEngine.Display` | Main-Folder/boundaryfillAlgo.cpp:97-115 | A frame redraws the circle, then runs one batch if a fill is running. The result says whether another frame is wanted. |
| `SolarSystem.CirclePoints` | Main-Folder/project2.cpp:71-89 | The points `bresenhamCircle` emits: eight per state it plots, the first eight being the images of (0, r). |
| `SolarSystem.BresenhamCircle` | Main-Folder/project2.cpp:71-89 | The emitted points are the octant images of the start state and of every state after each advance, in order. |
| `SolarSystem.CircleStartsOnAxes` | Main-Folder/project2.cpp:72-76 | The first eight points, before any iteration, are (cx, cy ± r) and (cx ± r, cy) in the source's order. |
| `SolarSystem.CircleIsRingThenExit` | Main-Folder/project2.cpp:78-87 | The output has 8 * (1 + number of iterations) points. It is exactly the boundary-fill ring followed by the batch of the exit state, which has y < x. |
| `SolarSystem.LastBatchPastDiagonal` | Main-Folder/project2.cpp:78-86 | For r = 1 the last batch is that of offset (1, 0), past the diagonal. |
| `SolarSystem.Roster` | Main-Folder/project2.cpp:112-135 | The list `setupSolarSystem` builds has eight planets, no two with the same name, so a selection index names one planet. |
| `SolarSystem.RosterShape` | Main-Folder/project2.cpp:112-135 | The list has eight planets in the order Mercury to Neptune. Earth has the one moon Moon, Jupiter has Io and Europa, and the others have none. |
| `SolarSystem.Viewer.constructor` | Main-Folder/project2.cpp:19-23 | Initial globals: nothing selected, not paused, orbits shown, no planets. |
| `SolarSystem.Viewer.SetupSolarSystem` | Main-Folder/project2.cpp:112-135 | Whatever the list held before, it ends as the roster, so a second call changes nothing. |
| `SolarSystem.OnKey` | Main-Folder/project2.cpp:315-352 | The `keyboard` switch on the controls. The pause flag flips exactly on ' ' and the orbit flag exactly on 'o' or 'O'. A key '0'-'8' leaves a valid selection, and any other key leaves the selection unchanged. |
| `SolarSystem.OnKeySelection` | Main-Folder/project2.cpp:345-352 | Keys '0'-'8' always leave `selectedPlanet` in [-1, size - 1]. A digit naming a loaded planet selects it. No key takes a valid selection out of range. The pause flag changes exactly on ' ', and the orbit flag exactly on 'o' or 'O'. |
| `SolarSystem.OnKeysKeepsSelectionValid` | Main-Folder/project2.cpp:294-297 | From a valid selection, any sequence of key presses keeps the selection valid, so the index guard in `display` never sees another value. |
| `SolarSystem.TogglesAreInvolutions` | Main-Folder/project2.cpp:315-321 | Two presses of ' ' (or of 'o'/'O') restore every control. 'o' and 'O' act alike. |
| `SolarSystem.Viewer.Keyboard` | Main-Folder/project2.cpp:310-355 | Escape asks to quit and changes nothing. Every other key updates the controls as `OnKey` does with the current list size. The list is untouched. |
| `LineRaster.Inc` | Main-Folder/exam.cpp:19-20 | The step `(b > a) ? 1 : -1` is always 1 or -1. |
| `LineRaster.ShallowRun` | Main-Folder/practice.cpp:26-36 | The pixels of the remaining turns of the `dy <= dx` loop: x moves every turn, and y moves when the decision variable is non-negative. Its properties are stated by `PointsShape` and `ShallowRunReaches`. |
| `LineRaster.SteepRun` | Main-Folder/exam.cpp:37-47 | The pixels of the remaining turns of the `dy > dx` loop: y moves every turn, and x moves when the decision variable is non-negative, after which it changes by the file's update. Its properties are stated by `PointsShape`, `SteepRunReaches` and `ReversedSteepRunsDiagonal`. |
| `LineRaster.Points` | Main-Folder/exam.cpp:13-49 | Every pixel `bresenhamLine` draws, in order. The first is the start pixel (x1, y1). |
| `LineRaster.IncReaches` | Main-Folder/exam.cpp:19-20 | The increment is 1 exactly when the end coordinate is larger, and -1 otherwise (also when they are equal). Stepping Abs(b - a) times by it from a lands on b. |
| `LineRaster.PointsShape` | Main-Folder/practice.cpp:22-50 | A line starts at (x1, y1). A shallow line (dy <= dx) has dx + 1 pixels, and each step moves x by xInc and y by 0 or yInc. A steep line has dy + 1 pixels, and each step moves y by yInc and x by 0 or xInc. This holds under both files' updates. |
| `LineRaster.PointsAreEightConnected` | Main-Folder/practice.cpp:27-48 | Consecutive pixels differ by at most 1 in each coordinate. |
| `LineRaster.ShallowRunReaches` | Main-Folder/practice.cpp:26-36 | In the shallow loop the decision variable equals 2dx*m - 2dy*n + 2dy - dx and stays in [2dy - 2dx, 2dy]. Here n is the number of turns left and m the number of y moves still owed. So the last pixel is n x-steps and m y-steps from the current one. |
| `LineRaster.SteepRunReaches` | Main-Folder/practice.cpp:39-49 | The same for the steep loop under the update 2(dx - dy). |
| `LineRaster.StandardReachesEnd` | Main-Folder/practice.cpp:13-51 | With practice.cpp's updates, the last pixel is (x2, y2) for every pair of integer endpoints. |
| `LineRaster.ReversedSteepRunsDiagonal` | Main-Folder/exam.cpp:37-45 | With exam.cpp's update 2(dy - dx), once the steep decision variable is non-negative x moves on every remaining turn. |
| `LineRaster.ReversedMissesEnd` | Main-Folder/exam.cpp:36-48 | exam.cpp's line from (0, 0) to (1, 3) draws (0, 0), (0, 1), (1, 2), (2, 3), and so misses (1, 3). practice.cpp's line ends at (1, 3). |
| `LineRaster.AxisCells` | Main-Folder/exam.cpp:60-67 | The cells of an axis-parallel segment run from a to b, both included, with one cell per unit of length. |
| `LineRaster.AxisParallelIsCells` | Main-Folder/exam.cpp:24-47 | A horizontal or vertical line draws exactly the consecutive cells from its start to its end, under either update. |
| `LineRaster.Corners` | Main-Folder/exam.cpp:60-62 | The rectangle's corners in drawing order start at (x1, yA) and reach the opposite corner (x2, yB) third. Consecutive corners, the last and the first included, share a coordinate, so every side is axis-parallel. |
| `LineRaster.Outline` | Main-Folder/exam.cpp:64-67 | The four lines `display` draws. Each starts at its corner. |
| `LineRaster.OutlineEdgesAreCells` | Main-Folder/exam.cpp:60-67 | Edge i of the rectangle is the run of cells from corner i to corner i + 1, with the last edge returning to corner 0. |
| `LineRaster.OutlineIsClosed` | Main-Folder/practice.cpp:58-66 | Each edge starts at its corner and ends where the next one starts, and the last ends at the first corner. The two files draw the same outline. |
| `Exam.BresenhamLine` | Main-Folder/exam.cpp:13-49 | The pixels drawn, in order, are `Points(x1, y1, x2, y2, Reversed)`. |
| `Exam.ShallowLoop` | Main-Folder/exam.cpp:25-35 | The pixels of the `dy <= dx` loop are `ShallowRun` from the start pixel with decision variable 2dy - dx, dx turns. |
| `Exam.SteepLoop` | Main-Folder/exam.cpp:37-47 | The pixels of the `dy > dx` loop are the `Reversed` `SteepRun` from the start pixel with decision variable 2dx - dy, dy turns. |
| `Exam.Display` | Main-Folder/exam.cpp:54-70 | The four edges drawn are the outline from (x1, yA) through (x2, yA), (x2, yB) and (x1, yB) back to (x1, yA). |
| `Practice.BresenhamLine` | Main-Folder/practice.cpp:13-51 | The pixels drawn, in order, are `Points(x1, y1, x2, y2, Standard)`. |
| `Practice.ShallowLoop` | Main-Folder/practice.cpp:26-36 | The pixels of the `dy <= dx` loop are `ShallowRun` from the start pixel with decision variable 2dy - dx, dx turns. |
| `Practice.SteepLoop` | Main-Folder/practice.cpp:39-49 | The pixels of the `dy > dx` loop are the `Standard` `SteepRun` from the start pixel with decision variable 2dx - dy, dy turns. |
| `Practice.Display` | Main-Folder/practice.cpp:55-69 | The four edges drawn are the outline from (x1, ya) through (x2, ya), (x2, y2) and (x1, y2) back to (x1, ya). |

## Left out

- GLUT and OpenGL plumbing is not modelled:
  - window creation, `glClear`, `glFlush`, `glutSwapBuffers` and projection set-up;
  - the per-frame blit loop in `display` (Main-Folder/boundaryfillAlgo.cpp:102-109);
  - `glutPostRedisplay` and `glutTimerFunc` scheduling. The redraw request after a fill step is the `more` result.
- The console message for a click outside the circle is the `Rejected` outcome of `Mouse`.
- `mouse` in the boundary fill compares `sqrt(dx*dx + dy*dy) < radius` in double precision. The model uses the exact integer test dx*dx + dy*dy < radius*radius. The two agree for the window's coordinate range.
- C `int` is 32 bits; the model's integers are unbounded. Wrap-around in `dx*dx + dy*dy` needs that sum to exceed 2^31 - 1: an offset of about 32768 in both coordinates, or above 46340 in one. Either is far outside the window, so it is not modelled.
- The eight `setPixel` calls in one turn of `drawCircleToBuffer` are issued by `PlotPoints`, a loop over the eight octant images. It makes the same calls in the same order.
- The buffer's `[y][x][3]` bytes are one `Color` triple per cell. Two colours compare equal when all three channels do, which is the source's channel-by-channel test.
- Containment in the circle is not proved: that the filled region stays inside the ring would need a proof that the rasterised ring has no 4-connected gaps, and the code never checks this. What is proved is independent of the ring's shape: `FillPaintsExactlyTheReachable` shows that the fill paints exactly the pixels joined to the seed by a 4-connected path of pixels that were open at the start, and `FillIsClosed` that no open pixel touches the filled region.
- The fill's termination bound is 4 pops per buffer cell plus 1 for the seed (`SeededFillBound`). A bound of 4·W·H pops would be off by one, because the seed is popped as well.
- `bresenhamLine` takes `float` endpoints read by `scanf` (Main-Folder/exam.cpp:81, Main-Folder/practice.cpp:80). The model takes integer endpoints, with `fabs` as `Abs`.
- These float-valued parts of Main-Folder/project2.cpp are not modelled:
  - planet sizes, distances, speeds, angles and colours, and the sun;
  - `update`, `drawCircle`, `drawOrbit`, `drawPlanet`, `drawText` and `drawStars`;
  - the camera in `mouse`, `mouseMotion` and `specialKeys`;
  - the '+', '=', '-', 'w', 'a', 's' and 'd' keys, which change only float state. The model treats them like any other unlisted key.
- `SolarSystem.Viewer.Keyboard`: Escape calls `exit(0)` in the source. The model returns `quit` and changes nothing.
- Main-Folder/MyProject.cpp is not part of this model: it is float particle animation with `rand()` and `time()`.

## Findings

| source | as written | input that shows it | evidently intended | confidence | as-written member | corrected member |
|---|---|---|---|---|---|---|
| Main-Folder/exam.cpp:44 | In the steep branch, moving x adds 2*(dy - dx) to the decision variable. That is positive, so once p >= 0, x moves on every remaining step. | The line from (0, 0) to (1, 3) draws (0, 0), (0, 1), (1, 2), (2, 3) and ends one pixel right of (1, 3). | Add 2*(dx - dy), as Main-Folder/practice.cpp:46 does, so every line ends at (x2, y2). | not executed | `LineRaster.ReversedMissesEnd` | `LineRaster.StandardReachesEnd` |

The rectangle that exam.cpp draws is unaffected: its edges are
axis-parallel, and there the faulty update is never reached
(`LineRaster.OutlineIsClosed`).
