/** The integer parts of the solar-system viewer in Main-Folder/project2.cpp:
    the Bresenham circle generator `bresenhamCircle` with its eight-way
    `plotCirclePoints`, the shape of the planet list `setupSolarSystem`
    builds, and the selection and toggle state the `keyboard` handler
    keeps. */
module SolarSystem {
  import opened Raster
  import opened Midpoint

  /** Every point `bresenhamCircle(cx, cy, r)` emits: the octant images of
      the start state, then those of each state reached by an advance,
      including the first one that fails the guard (plotting follows the
      advance). */
  function CirclePoints(cx: int, cy: int, r: int): (pts: seq<Point>)
    ensures |pts| == 8 * |Trajectory(Start(r))|
    ensures pts[..8] == Octants(cx, cy, 0, r)
  {
    var ss := Trajectory(Start(r));
    BatchesLayout(cx, cy, ss);
    Batches(cx, cy, ss)
  }

  /** `bresenhamCircle`: emits the start state's batch, then one batch after
      each advance while the guard held before it. */
  method BresenhamCircle(cx: int, cy: int, r: int) returns (pts: seq<Point>)
    ensures pts == CirclePoints(cx, cy, r)
  {
    var x, y := 0, r;
    var d := 3 - 2 * r;
    pts := Octants(cx, cy, x, y);
    ghost var seen := [State(x, y, d)];
    assert Batches(cx, cy, seen) == Batches(cx, cy, []) + Octants(cx, cy, x, y);
    while y >= x
      invariant seen + Trajectory(State(x, y, d))[1..] == Trajectory(Start(r))
      invariant pts == Batches(cx, cy, seen)
      decreases y - x
    {
      ghost var s := State(x, y, d);
      x := x + 1;
      if d > 0 {
        y := y - 1;
        d := d + 4 * (x - y) + 10;
      } else {
        d := d + 4 * x + 6;
      }
      assert State(x, y, d) == Advance(s);
      assert Trajectory(s)[1..] == Trajectory(State(x, y, d));
      BatchesSnoc(cx, cy, seen, State(x, y, d));
      pts := pts + Octants(cx, cy, x, y);
      seen := seen + [State(x, y, d)];
    }
    assert Trajectory(State(x, y, d))[1..] == [];
    assert seen + [] == seen;
  }

  /** The first batch is the images of (0, r): the four axis points at
      distance r, each emitted twice. */
  lemma CircleStartsOnAxes(cx: int, cy: int, r: int)
    ensures |CirclePoints(cx, cy, r)| >= 8
    ensures CirclePoints(cx, cy, r)[..8] ==
      [Point(cx, cy + r), Point(cx, cy + r), Point(cx, cy - r), Point(cx, cy - r),
       Point(cx + r, cy), Point(cx - r, cy), Point(cx + r, cy), Point(cx - r, cy)]
  {
    var ss := Trajectory(Start(r));
    BatchesLayout(cx, cy, ss);
  }

  /** The loop stops: the number of eight-point batches is one more than
      the number of loop iterations, and the last batch is that of the exit
      state, which lies past the diagonal (y < x). Everything before it is
      exactly what the boundary-fill program's `drawCircleToBuffer` plots. */
  lemma CircleIsRingThenExit(cx: int, cy: int, r: int)
    ensures var e := Exit(Start(r));
      e.y < e.x &&
      |CirclePoints(cx, cy, r)| == 8 * (|Iterates(Start(r))| + 1) &&
      CirclePoints(cx, cy, r) == Ring(cx, cy, r) + Octants(cx, cy, e.x, e.y)
  {
    var s := Start(r);
    TrajectoryIsIteratesThenExit(s);
    BatchesSnoc(cx, cy, Iterates(s), Exit(s));
    BatchesLayout(cx, cy, Trajectory(s));
  }

  /** The final batch really can fall past the diagonal: for r = 1 the
      exit state is (1, 0), so the last eight points are the images of
      offset (1, 0), which the boundary-fill ring never plots. */
  lemma LastBatchPastDiagonal(cx: int, cy: int)
    ensures Exit(Start(1)) == State(1, 0, 15)
    ensures CirclePoints(cx, cy, 1) == Octants(cx, cy, 0, 1) + Octants(cx, cy, 1, 0)
  {
    var s, t := Start(1), State(1, 0, 15);
    assert Advance(s) == t;
    assert Iterates(t) == [];
    assert Iterates(s) == [s];
    assert Exit(s) == Exit(t) == t;
    BatchesSnoc(cx, cy, [], s);
    assert Ring(cx, cy, 1) == Octants(cx, cy, 0, 1);
    CircleIsRingThenExit(cx, cy, 1);
  }

  /** A planet as the list records it: its name and its moons. Sizes,
      distances, speeds, angles and colours are floats and are not part of
      this model. */
  datatype Body = Body(name: string, moons: seq<Body>)

  function Named(name: string): Body {
    Body(name, [])
  }

  /** The list `setupSolarSystem` builds, in push order. */
  function Roster(): (planets: seq<Body>)
    ensures |planets| == 8
    ensures forall i, j :: 0 <= i < j < |planets| ==> planets[i].name != planets[j].name
  {
    [Named("Mercury"), Named("Venus"), Body("Earth", [Named("Moon")]), Named("Mars"),
     Body("Jupiter", [Named("Io"), Named("Europa")]),
     Named("Saturn"), Named("Uranus"), Named("Neptune")]
  }

  /** Eight planets in order from the Sun; Earth has one moon, Jupiter two,
      the others none; moons have no moons. */
  lemma RosterShape()
    ensures |Roster()| == 8
    ensures forall i :: 0 <= i < 8 ==>
      Roster()[i].name == ["Mercury", "Venus", "Earth", "Mars", "Jupiter", "Saturn", "Uranus", "Neptune"][i]
    ensures forall i :: 0 <= i < 8 ==> |Roster()[i].moons| == (if i == 2 then 1 else if i == 4 then 2 else 0)
    ensures Roster()[2].moons[0].name == "Moon"
    ensures Roster()[4].moons[0].name == "Io" && Roster()[4].moons[1].name == "Europa"
    ensures forall i, j :: 0 <= i < 8 && 0 <= j < |Roster()[i].moons| ==> Roster()[i].moons[j].moons == []
  {
  }

  /** The keyboard-controlled state: `selectedPlanet`, `isPaused` and
      `showOrbits`. */
  datatype Controls = Controls(selected: int, paused: bool, orbits: bool)

  /** What `keyboard` does to the controls with `count` planets loaded.
      Escape ends the program (reported by the method, not here); the
      speed and camera keys change only float state; other keys do
      nothing. */
  function OnKey(c: Controls, key: char, count: int): (r: Controls)
    ensures r.paused != c.paused <==> key == ' '
    ensures r.orbits != c.orbits <==> key == 'o' || key == 'O'
    ensures count >= 0 && '0' <= key <= '8' ==> SelectionValid(r.selected, count)
    ensures !('0' <= key <= '8') ==> r.selected == c.selected
  {
    if key == ' ' then c.(paused := !c.paused)
    else if key == 'o' || key == 'O' then c.(orbits := !c.orbits)
    else if '1' <= key <= '8' then
      var k := key as int - '1' as int;
      c.(selected := if k >= count then -1 else k)
    else if key == '0' then c.(selected := -1)
    else c
  }

  /** `selectedPlanet` is either -1 (nothing selected) or an index into the
      planet list. */
  predicate SelectionValid(selected: int, count: int) {
    selected == -1 || 0 <= selected < count
  }

  /** A selection key always leaves a valid selection, and one that names a
      loaded planet selects it; every other key keeps a valid selection
      valid. The pause and orbit flags change only on their own keys. */
  lemma OnKeySelection(c: Controls, key: char, count: int)
    requires count >= 0
    ensures var r := OnKey(c, key, count);
      ('0' <= key <= '8' ==> SelectionValid(r.selected, count)) &&
      (SelectionValid(c.selected, count) ==> SelectionValid(r.selected, count)) &&
      ('1' <= key <= '8' && key as int - '1' as int < count ==> r.selected == key as int - '1' as int) &&
      (r.paused != c.paused <==> key == ' ') &&
      (r.orbits != c.orbits <==> key == 'o' || key == 'O')
  {
  }

  /** The state after a run of key presses. */
  function OnKeys(c: Controls, keys: seq<char>, count: int): Controls
    decreases |keys|
  {
    if keys == [] then c else OnKeys(OnKey(c, keys[0], count), keys[1..], count)
  }

  /** From any valid selection, including the program's initial one
      (nothing selected), any sequence of key presses leaves the selection
      valid, so the guard on `planets[selectedPlanet]` in `display` never
      fails. */
  lemma {:induction false} OnKeysKeepsSelectionValid(c: Controls, keys: seq<char>, count: int)
    requires count >= 0 && SelectionValid(c.selected, count)
    ensures SelectionValid(OnKeys(c, keys, count).selected, count)
    decreases |keys|
  {
    if keys != [] {
      OnKeySelection(c, keys[0], count);
      OnKeysKeepsSelectionValid(OnKey(c, keys[0], count), keys[1..], count);
    }
  }

  /** Two presses of a toggle key restore the state, whatever it was;
      'o' and 'O' are the same key. */
  lemma TogglesAreInvolutions(c: Controls, count: int)
    ensures OnKey(OnKey(c, ' ', count), ' ', count) == c
    ensures OnKey(OnKey(c, 'o', count), 'o', count) == c
    ensures OnKey(OnKey(c, 'O', count), 'o', count) == c
    ensures OnKey(c, 'O', count) == OnKey(c, 'o', count)
  {
  }

  /** The escape key: `keyboard` calls `exit(0)`. */
  const ESCAPE: char := 27 as char

  /** The viewer's global state that the modelled handlers touch. */
  class Viewer {
    var planets: seq<Body>
    var selectedPlanet: int
    var isPaused: bool
    var showOrbits: bool

    /** The globals' initial values: no planets yet, nothing selected, not
        paused, orbits shown. */
    constructor ()
      ensures planets == [] && selectedPlanet == -1 && !isPaused && showOrbits
    {
      planets := [];
      selectedPlanet := -1;
      isPaused := false;
      showOrbits := true;
    }

    function CurrentControls(): Controls
      reads this
    {
      Controls(selectedPlanet, isPaused, showOrbits)
    }

    /** `setupSolarSystem`: clears the list and pushes the eight planets,
        building Earth and Jupiter with their moons first. Whatever the list
        held before, it ends as the roster, so a second call changes
        nothing. */
    method SetupSolarSystem()
      modifies this`planets
      ensures planets == Roster()
    {
      planets := [];
      planets := planets + [Named("Mercury")];
      planets := planets + [Named("Venus")];
      var earth := Named("Earth");
      earth := earth.(moons := earth.moons + [Named("Moon")]);
      planets := planets + [earth];
      planets := planets + [Named("Mars")];
      var jupiter := Named("Jupiter");
      jupiter := jupiter.(moons := jupiter.moons + [Named("Io")]);
      jupiter := jupiter.(moons := jupiter.moons + [Named("Europa")]);
      planets := planets + [jupiter];
      planets := planets + [Named("Saturn")];
      planets := planets + [Named("Uranus")];
      planets := planets + [Named("Neptune")];
      assert earth == Roster()[2] && jupiter == Roster()[4];
    }

    /** `keyboard`: Escape asks to quit and changes nothing; every other key
        updates the controls as `OnKey` says with the current list's size,
        and the planet list itself never changes. */
    method Keyboard(key: char) returns (quit: bool)
      modifies this`selectedPlanet, this`isPaused, this`showOrbits
      ensures quit <==> key == ESCAPE
      ensures CurrentControls() == if quit then old(CurrentControls()) else OnKey(old(CurrentControls()), key, |planets|)
    {
      quit := false;
      if key == ESCAPE {
        quit := true;
      } else if key == ' ' {
        isPaused := !isPaused;
      } else if key == 'o' || key == 'O' {
        showOrbits := !showOrbits;
      } else if '1' <= key <= '8' {
        selectedPlanet := key as int - '1' as int;
        if selectedPlanet >= |planets| {
          selectedPlanet := -1;
        }
      } else if key == '0' {
        selectedPlanet := -1;
      }
    }
  }
}
