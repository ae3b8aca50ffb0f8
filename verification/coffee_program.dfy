/**
 * The CoffeeWalkinator entry point (Program.cs): input validation around building an
 * office layout and searching it, and the scenarios of TestDistanceToCoffee, each proved
 * to have the answer the test expects.
 */
module CoffeeProgram {
  import opened Options
  import opened OfficeNodes
  import opened OfficeLayouts
  import opened Walks
  import CoffeeSearch

  /**
   * How a call of DistanceToCoffee ends: with a distance, or with the exception the layout
   * constructor throws when a coordinate pair lies outside the grid.
   */
  datatype Outcome = Returned(distance: int) | IndexOutOfRange

  /** The validation DistanceToCoffee performs before it builds a layout. */
  predicate Accepted(numRows: int, numColumns: int, coffeeLocations: seq<Coordinates>) {
    numRows > 0 && numColumns > 0 && |coffeeLocations| >= 1
  }

  /**
   * Program.DistanceToCoffee: PathError for an empty grid or no coffee machine; otherwise
   * the search's answer on a freshly built layout, which, when the desk is neither a
   * coffee machine nor a wall, is the number of steps of a shortest walk to a coffee
   * machine (PathError when none is reachable).
   */
  method DistanceToCoffee(numRows: int, numColumns: int, deskLocation: Coordinates,
                          coffeeLocations: seq<Coordinates>, walls: seq<Coordinates>)
    returns (r: Outcome)
    ensures !Accepted(numRows, numColumns, coffeeLocations) ==> r == Returned(PathError)
    ensures r == IndexOutOfRange <==>
              Accepted(numRows, numColumns, coffeeLocations)
              && !AllInBounds(numRows, numColumns, [deskLocation] + coffeeLocations + walls)
    ensures r.Returned? ==> r.distance == PathError || r.distance >= 0
    ensures Accepted(numRows, numColumns, coffeeLocations)
            && AllInBounds(numRows, numColumns, [deskLocation] + coffeeLocations + walls)
            && deskLocation !in coffeeLocations && deskLocation !in walls ==>
              r.Returned? && NearestCoffee(NewLayout(numRows, numColumns, deskLocation, coffeeLocations, walls), r.distance)
  {
    if !Accepted(numRows, numColumns, coffeeLocations) {
      return Returned(PathError);
    }
    if !AllInBounds(numRows, numColumns, [deskLocation] + coffeeLocations + walls) {
      return IndexOutOfRange;
    }
    var layout := NewLayout(numRows, numColumns, deskLocation, coffeeLocations, walls);
    var distance, _, _, _ := CoffeeSearch.FindCoffeeDistance(layout);
    return Returned(distance);
  }

  // ---------------------------------------------------------------- proving an answer

  /**
   * A coffee walk `w`, and layers starting at the origin such that each step leads from one
   * layer into the next and no layer holds a coffee machine: `w` is a shortest coffee walk.
   */
  lemma NearestByLayers(l: Layout, w: seq<Position>, layers: seq<set<Position>>)
    requires CoffeeWalk(l, w) && |layers| == |w| - 1
    requires |layers| > 0 ==> OriginPosition(l) in layers[0]
    requires forall j, p, q | 0 <= j < |layers| - 1 && p in layers[j] && Adjacent(p, q) && Passable(l, q) ::
               q in layers[j + 1]
    requires forall j, p | 0 <= j < |layers| && p in layers[j] :: Kind(l, p) != Coffee
    ensures NearestCoffee(l, |w| - 1)
  {
    forall v | CoffeeWalk(l, v)
      ensures |w| <= |v|
    {
      if |v| < |w| {
        WalkWithinLayers(l, layers, v);
      }
    }
  }

  /**
   * A coffee walk `w` that is a corridor: every passable neighbour of a position on it is
   * at most one position further along, and no coffee machine comes before its end.
   */
  lemma NearestAlongCorridor(l: Layout, w: seq<Position>)
    requires CoffeeWalk(l, w)
    requires forall m, q | 0 <= m < |w| - 1 && Adjacent(w[m], q) && Passable(l, q) ::
               q == w[m + 1] || (0 < m && q == w[m - 1])
    requires forall m | 0 <= m < |w| - 1 :: Kind(l, w[m]) != Coffee
    ensures NearestCoffee(l, |w| - 1)
  {
    var layers := seq(|w| - 1, j requires 0 <= j < |w| - 1 => set m | 0 <= m <= j :: w[m]);
    forall j, p, q | 0 <= j < |layers| - 1 && p in layers[j] && Adjacent(p, q) && Passable(l, q)
      ensures q in layers[j + 1]
    {
      var m :| 0 <= m <= j && w[m] == p;
      assert q == w[m + 1] || q == w[m - 1];
    }
    NearestByLayers(l, w, layers);
  }

  /** A coffee walk `w` no longer than the grid distance from the origin to any coffee machine is a shortest one. */
  lemma NearestByDistance(l: Layout, w: seq<Position>)
    requires CoffeeWalk(l, w)
    requires forall p | Kind(l, p) == Coffee :: |w| - 1 <= Manhattan(OriginPosition(l), p)
    ensures NearestCoffee(l, |w| - 1)
  {
    forall v | CoffeeWalk(l, v)
      ensures |w| <= |v|
    {
      WalkWithinManhattan(l, v);
    }
  }

  /** A set around the origin that no step leaves and that holds no coffee machine: there is no coffee walk. */
  lemma NoneByClosedSet(l: Layout, s: set<Position>)
    requires l.origin < |l.nodes| && OriginPosition(l) in s
    requires forall p, q | p in s && Adjacent(p, q) && Passable(l, q) :: q in s
    requires forall p | p in s :: Kind(l, p) != Coffee
    ensures NearestCoffee(l, PathError)
  {
    forall v | CoffeeWalk(l, v)
      ensures false
    {
      WalkWithinClosedSet(l, s, v);
    }
  }

  // ---------------------------------------------------------------- the test grids

  // Grid A (3 x 4; '*' the left desk, '+' the right one):
  //   - - C -
  //   * X X -
  //   X C - +
  const DeskALeft: Coordinates := (2, 1)
  const DeskARight: Coordinates := (3, 4)
  const CoffeeA: seq<Coordinates> := [(1, 3), (3, 2)]
  const WallsA: seq<Coordinates> := [(2, 2), (2, 3), (3, 1)]

  /**
   * What the grid lemmas need to know of a layout built from these inputs: its size, the
   * origin's position and the kind of every position.
   */
  ghost predicate BuiltFrom(l: Layout, rows: int, columns: int, desk: Coordinates,
                            coffees: seq<Coordinates>, walls: seq<Coordinates>)
  {
    && l.origin < |l.nodes| && OriginPosition(l) == ToMatrix(desk)
    && l.rows == rows && l.columns == columns
    && forall p :: Kind(l, p) == if FromMatrix(p) in walls then Wall
                                 else if FromMatrix(p) in coffees then Coffee
                                 else Desk
  }

  lemma Built(rows: int, columns: int, desk: Coordinates, coffees: seq<Coordinates>, walls: seq<Coordinates>)
    requires AllInBounds(rows, columns, [desk] + coffees + walls)
    ensures BuiltFrom(NewLayout(rows, columns, desk, coffees, walls), rows, columns, desk, coffees, walls)
  {
  }

  /** Grid A, left desk: the coffee machine two steps away is walled off; the one three steps away is nearest. */
  lemma GridALeft(l: Layout)
    requires BuiltFrom(l, 3, 4, DeskALeft, CoffeeA, WallsA)
    ensures NearestCoffee(l, 3)
  {
    var w := [(1, 0), (0, 0), (0, 1), (0, 2)];
    assert CoffeeWalk(l, w);
    NearestByLayers(l, w, [{(1, 0)}, {(1, 0), (0, 0)}, {(1, 0), (0, 0), (0, 1)}]);
  }

  /** Grid A, right desk: two steps left. */
  lemma GridARight(l: Layout)
    requires BuiltFrom(l, 3, 4, DeskARight, CoffeeA, WallsA)
    ensures NearestCoffee(l, 2)
  {
    var w := [(2, 3), (2, 2), (2, 1)];
    assert CoffeeWalk(l, w);
    NearestByDistance(l, w);
  }

  // Grid B: grid A with one more wall, which shuts the desk in.
  //   - X C -
  //   * X X -
  //   X C - -
  const WallsB: seq<Coordinates> := [(1, 2), (2, 2), (2, 3), (3, 1)]

  lemma GridB(l: Layout)
    requires BuiltFrom(l, 3, 4, DeskALeft, CoffeeA, WallsB)
    ensures NearestCoffee(l, PathError)
  {
    NoneByClosedSet(l, {(1, 0), (0, 0)});
  }

  // Grid C: grid A without the wall below the desk.
  //   - - C -
  //   * X X -
  //   - C - -
  const WallsC: seq<Coordinates> := [(2, 2), (2, 3)]

  lemma GridC(l: Layout)
    requires BuiltFrom(l, 3, 4, DeskALeft, CoffeeA, WallsC)
    ensures NearestCoffee(l, 2)
  {
    var w := [(1, 0), (2, 0), (2, 1)];
    assert CoffeeWalk(l, w);
    NearestByDistance(l, w);
  }

  // Grid D: grid A with only the walled-off coffee machine, reached the long way round.
  //   - - - -
  //   * X X -
  //   X C - -
  const CoffeeD: seq<Coordinates> := [(3, 2)]

  const WalkD: seq<Position> := [(1, 0), (0, 0), (0, 1), (0, 2), (0, 3), (1, 3), (2, 3), (2, 2), (2, 1)]

  lemma GridD(l: Layout)
    requires BuiltFrom(l, 3, 4, DeskALeft, CoffeeD, WallsA)
    ensures NearestCoffee(l, 8)
  {
    WalkDKinds(l);
    forall m, q | 0 <= m < |WalkD| - 1 && Adjacent(WalkD[m], q) && Passable(l, q)
      ensures q == WalkD[m + 1] || (0 < m && q == WalkD[m - 1])
    {
      CorridorD(l, m, q);
    }
    NearestAlongCorridor(l, WalkD);
  }

  lemma WalkDKinds(l: Layout)
    requires BuiltFrom(l, 3, 4, DeskALeft, CoffeeD, WallsA)
    ensures CoffeeWalk(l, WalkD)
    ensures forall m | 0 <= m < |WalkD| - 1 :: Kind(l, WalkD[m]) != Coffee
  {
    forall m | 0 <= m < |WalkD|
      ensures Passable(l, WalkD[m]) && (m < |WalkD| - 1 ==> Kind(l, WalkD[m]) != Coffee)
    {
      assert FromMatrix(WalkD[m]) !in WallsA;
    }
  }

  /** In grid D the passable positions form a single corridor, WalkD. */
  lemma CorridorD(l: Layout, m: int, q: Position)
    requires BuiltFrom(l, 3, 4, DeskALeft, CoffeeD, WallsA)
    requires 0 <= m < |WalkD| - 1 && Adjacent(WalkD[m], q) && Passable(l, q)
    ensures q == WalkD[m + 1] || (0 < m && q == WalkD[m - 1])
  {
    assert InBounds(l, q) && FromMatrix(q) !in WallsA;
    if m == 0 {
      assert q == (0, 0);
    } else if m == 1 {
      assert q == (1, 0) || q == (0, 1);
    } else if m == 2 {
      assert q == (0, 0) || q == (0, 2);
    } else if m == 3 {
      assert q == (0, 1) || q == (0, 3);
    } else if m == 4 {
      assert q == (0, 2) || q == (1, 3);
    } else if m == 5 {
      assert q == (0, 3) || q == (2, 3);
    } else if m == 6 {
      assert q == (1, 3) || q == (2, 2);
    } else {
      assert q == (2, 3) || q == (2, 1);
    }
  }

  // Grid E: no walls, one coffee machine three steps right of the desk.
  //   - - - -
  //   * - - C
  //   - - - -
  const CoffeeE: seq<Coordinates> := [(2, 4)]
  const NoWalls: seq<Coordinates> := []

  lemma GridE(l: Layout)
    requires BuiltFrom(l, 3, 4, DeskALeft, CoffeeE, NoWalls)
    ensures NearestCoffee(l, 3)
  {
    var w := [(1, 0), (1, 1), (1, 2), (1, 3)];
    assert CoffeeWalk(l, w);
    NearestByDistance(l, w);
  }

  // Grid F (3 x 3): walls above, below and to the right of the desk, and the coffee
  // machine overwritten by a wall.
  //   X X X
  //   * X -
  //   X X X
  const WallsF: seq<Coordinates> := [(1, 1), (1, 2), (1, 3), (2, 2), (3, 1), (3, 2), (3, 3)]

  lemma GridF(l: Layout)
    requires BuiltFrom(l, 3, 3, DeskALeft, CoffeeD, WallsF)
    ensures NearestCoffee(l, PathError)
  {
    NoneByClosedSet(l, {(1, 0)});
  }

  // Grid G (4 x 6; '*' the left desk, '+' the right one):
  //   - - - - - -
  //   * - - - C -
  //   - - - - - +
  //   - C - - - -
  const DeskGRight: Coordinates := (3, 6)
  const CoffeeG: seq<Coordinates> := [(2, 5), (4, 2)]

  lemma GridGLeft(l: Layout)
    requires BuiltFrom(l, 4, 6, DeskALeft, CoffeeG, NoWalls)
    ensures NearestCoffee(l, 3)
  {
    var w := [(1, 0), (2, 0), (3, 0), (3, 1)];
    assert CoffeeWalk(l, w);
    NearestByDistance(l, w);
  }

  lemma GridGRight(l: Layout)
    requires BuiltFrom(l, 4, 6, DeskGRight, CoffeeG, NoWalls)
    ensures NearestCoffee(l, 2)
  {
    var w := [(2, 5), (1, 5), (1, 4)];
    assert CoffeeWalk(l, w);
    NearestByDistance(l, w);
  }

  // ---------------------------------------------------------------- the scenarios

  /**
   * A call on a valid grid whose desk is neither a coffee machine nor a wall returns the
   * answer every layout built from those inputs has.
   */
  method RunScenario(rows: int, columns: int, desk: Coordinates, coffees: seq<Coordinates>, walls: seq<Coordinates>,
                     ghost expected: int)
    returns (r: Outcome)
    requires Accepted(rows, columns, coffees) && AllInBounds(rows, columns, [desk] + coffees + walls)
    requires desk !in coffees && desk !in walls
    requires forall l | BuiltFrom(l, rows, columns, desk, coffees, walls) :: NearestCoffee(l, expected)
    ensures r == Returned(expected)
  {
    r := DistanceToCoffee(rows, columns, desk, coffees, walls);
    var l := NewLayout(rows, columns, desk, coffees, walls);
    Built(rows, columns, desk, coffees, walls);
    NearestCoffeeUnique(l, r.distance, expected);
  }

  /** Program.TestDistanceToCoffee: the twelve calls and the results the test expects of them. */
  method TestDistanceToCoffee() returns (results: seq<Outcome>)
    ensures results == [Returned(-1), Returned(-1), Returned(-1), Returned(3), Returned(2), Returned(-1),
                        Returned(2), Returned(8), Returned(3), Returned(-1), Returned(3), Returned(2)]
  {
    var invalid := TestInvalidInputs();
    var aToC := TestGridsAToC();
    var dAndE := TestGridsDAndE();
    var fAndG := TestGridsFAndG();
    results := invalid + aToC + dAndE + fAndG;
  }

  /** The three calls that fail validation: no rows, no columns, no coffee machine. */
  method TestInvalidInputs() returns (results: seq<Outcome>)
    ensures results == [Returned(-1), Returned(-1), Returned(-1)]
  {
    var invalidRows := DistanceToCoffee(0, 4, DeskALeft, CoffeeA, WallsA);
    var invalidColumns := DistanceToCoffee(3, 0, DeskALeft, CoffeeA, WallsA);
    var noCoffee := DistanceToCoffee(3, 4, DeskALeft, [], WallsA);
    results := [invalidRows, invalidColumns, noCoffee];
  }

  /** Grids A (both desks), B and C. */
  method TestGridsAToC() returns (results: seq<Outcome>)
    ensures results == [Returned(3), Returned(2), Returned(-1), Returned(2)]
  {
    forall l | BuiltFrom(l, 3, 4, DeskALeft, CoffeeA, WallsA) ensures NearestCoffee(l, 3) {
      GridALeft(l);
    }
    var aLeft := RunScenario(3, 4, DeskALeft, CoffeeA, WallsA, 3);

    forall l | BuiltFrom(l, 3, 4, DeskARight, CoffeeA, WallsA) ensures NearestCoffee(l, 2) {
      GridARight(l);
    }
    var aRight := RunScenario(3, 4, DeskARight, CoffeeA, WallsA, 2);

    forall l | BuiltFrom(l, 3, 4, DeskALeft, CoffeeA, WallsB) ensures NearestCoffee(l, PathError) {
      GridB(l);
    }
    var b := RunScenario(3, 4, DeskALeft, CoffeeA, WallsB, PathError);

    forall l | BuiltFrom(l, 3, 4, DeskALeft, CoffeeA, WallsC) ensures NearestCoffee(l, 2) {
      GridC(l);
    }
    var c := RunScenario(3, 4, DeskALeft, CoffeeA, WallsC, 2);
    results := [aLeft, aRight, b, c];
  }

  /** Grids D and E. */
  method TestGridsDAndE() returns (results: seq<Outcome>)
    ensures results == [Returned(8), Returned(3)]
  {
    forall l | BuiltFrom(l, 3, 4, DeskALeft, CoffeeD, WallsA) ensures NearestCoffee(l, 8) {
      GridD(l);
    }
    var d := RunScenario(3, 4, DeskALeft, CoffeeD, WallsA, 8);

    forall l | BuiltFrom(l, 3, 4, DeskALeft, CoffeeE, NoWalls) ensures NearestCoffee(l, 3) {
      GridE(l);
    }
    var e := RunScenario(3, 4, DeskALeft, CoffeeE, NoWalls, 3);
    results := [d, e];
  }

  /** Grids F and G (both desks). */
  method TestGridsFAndG() returns (results: seq<Outcome>)
    ensures results == [Returned(-1), Returned(3), Returned(2)]
  {
    forall l | BuiltFrom(l, 3, 3, DeskALeft, CoffeeD, WallsF) ensures NearestCoffee(l, PathError) {
      GridF(l);
    }
    var f := RunScenario(3, 3, DeskALeft, CoffeeD, WallsF, PathError);

    forall l | BuiltFrom(l, 4, 6, DeskALeft, CoffeeG, NoWalls) ensures NearestCoffee(l, 3) {
      GridGLeft(l);
    }
    var gLeft := RunScenario(4, 6, DeskALeft, CoffeeG, NoWalls, 3);

    forall l | BuiltFrom(l, 4, 6, DeskGRight, CoffeeG, NoWalls) ensures NearestCoffee(l, 2) {
      GridGRight(l);
    }
    var gRight := RunScenario(4, 6, DeskGRight, CoffeeG, NoWalls, 2);
    results := [f, gLeft, gRight];
  }
}
