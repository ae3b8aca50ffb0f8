/**
 * The office grid (OfficeLayout.cs): construction from 1-based coordinate lists, bounds
 * checks, node lookup, lazy creation of desks, neighbour lookup and path retracing.
 *
 * The C# two-dimensional array of node references becomes `officeMap`, a map from 0-based
 * matrix position to the id of the node stored there (an absent key is a null slot). Node
 * objects live in the arena `nodes`; the origin is a reference into it, so the origin node
 * and the map slot at its position are the same object until the slot is overwritten.
 */
module OfficeLayouts {
  import opened Options
  import opened OfficeNodes

  /** A 0-based (matrix row, matrix column) position. */
  type Position = (int, int)

  datatype Layout = Layout(
    rows: int,
    columns: int,
    origin: NodeId,
    nodes: seq<Node>,
    officeMap: map<Position, NodeId>)

  // ---------------------------------------------------------------- geometry

  predicate InBounds(l: Layout, p: Position) {
    0 <= p.0 < l.rows && 0 <= p.1 < l.columns
  }

  /** OfficeLayout.OutOfBounds. */
  predicate OutOfBounds(l: Layout, row: int, column: int)
    ensures OutOfBounds(l, row, column) <==> !InBounds(l, (row, column))
  {
    row < 0 || row > l.rows - 1 || column < 0 || column > l.columns - 1
  }

  /** Two positions one four-way step apart. */
  predicate Adjacent(p: Position, q: Position) {
    || (p.0 == q.0 && (p.1 - q.1 == 1 || q.1 - p.1 == 1))
    || (p.1 == q.1 && (p.0 - q.0 == 1 || q.0 - p.0 == 1))
  }

  /** The four candidate neighbours, in the order the search looks at them. */
  function Directions(p: Position): seq<Position> {
    [(p.0 - 1, p.1), (p.0, p.1 - 1), (p.0, p.1 + 1), (p.0 + 1, p.1)]  // up, left, right, down
  }

  function KeepInBounds(l: Layout, ps: seq<Position>): (r: seq<Position>)
    ensures |r| <= |ps|
    ensures forall q :: q in r <==> q in ps && InBounds(l, q)
  {
    if ps == [] then []
    else (if InBounds(l, ps[0]) then [ps[0]] else []) + KeepInBounds(l, ps[1..])
  }

  /** The in-bounds neighbours of `p`, up, left, right, down. */
  function InBoundsNeighbors(l: Layout, p: Position): seq<Position> {
    KeepInBounds(l, Directions(p))
  }

  /** The neighbour list holds exactly the in-bounds positions one step away. */
  lemma NeighborsAreAdjacent(l: Layout, p: Position, q: Position)
    ensures q in InBoundsNeighbors(l, p) <==> Adjacent(p, q) && InBounds(l, q)
  {
  }

  // ---------------------------------------------------------------- layout state

  /** The kind of location at `p`: the stored node's type, or a desk where nothing is stored yet. */
  function Kind(l: Layout, p: Position): LocationType {
    if p in l.officeMap && l.officeMap[p] < |l.nodes| then l.nodes[l.officeMap[p]].locationType else Desk
  }

  /** The search state at `p`; an empty slot has not been visited. */
  function StateAt(l: Layout, p: Position): LocationState {
    if p in l.officeMap && l.officeMap[p] < |l.nodes| then l.nodes[l.officeMap[p]].state else NotVisited
  }

  function DistAt(l: Layout, p: Position): int {
    if p in l.officeMap && l.officeMap[p] < |l.nodes| then l.nodes[l.officeMap[p]].distance else IntMaxValue
  }

  /** Node `i` is the one its own map slot refers to. */
  ghost predicate Placed(l: Layout, i: int) {
    0 <= i < |l.nodes| && l.nodes[i].MatrixPosition() in l.officeMap && l.officeMap[l.nodes[i].MatrixPosition()] == i
  }

  function OriginPosition(l: Layout): Position
    requires l.origin < |l.nodes|
  {
    l.nodes[l.origin].MatrixPosition()
  }

  /** The origin slot still holds the origin node (it was not overwritten by a coffee machine or wall). */
  ghost predicate OriginPlaced(l: Layout) {
    Placed(l, l.origin)
  }

  /** A node the search has reached is consistent with its predecessor link. */
  ghost predicate SearchConsistent(nodes: seq<Node>, i: int)
    requires 0 <= i < |nodes|
  {
    nodes[i].state != NotVisited ==>
      match nodes[i].previousNode
      case None => nodes[i].distance == 0
      case Some(j) =>
        && j < |nodes| && nodes[j].state != NotVisited
        && nodes[j].distance >= 0 && nodes[i].distance == nodes[j].distance + 1
  }

  /**
   * What every layout reachable through the C# code satisfies: the origin is an in-bounds
   * origin desk, every node lies in bounds and its slot is occupied, every slot refers to a
   * node at that position, and search links run to strictly smaller distances.
   */
  ghost predicate Valid(l: Layout) {
    && l.origin < |l.nodes|
    && l.nodes[l.origin].locationType == Desk && l.nodes[l.origin].isOrigin
    && l.nodes[l.origin].previousNode.None?
    && (forall i | 0 <= i < |l.nodes| ::
          InBounds(l, l.nodes[i].MatrixPosition()) && l.nodes[i].MatrixPosition() in l.officeMap)
    && (forall p | p in l.officeMap :: l.officeMap[p] < |l.nodes| && l.nodes[l.officeMap[p]].MatrixPosition() == p)
    && (forall i | 0 <= i < |l.nodes| :: SearchConsistent(l.nodes, i))
  }

  /** No node has been touched by a search yet. */
  ghost predicate Fresh(l: Layout) {
    forall i | 0 <= i < |l.nodes| :: l.nodes[i].state == NotVisited
  }

  /**
   * `l2` grew from `l` only by lazily created desks: same nodes, same occupied slots, and
   * new slots refer to new, unvisited, non-origin desks.
   */
  ghost predicate Extends(l: Layout, l2: Layout) {
    && l2.rows == l.rows && l2.columns == l.columns && l2.origin == l.origin
    && |l.nodes| <= |l2.nodes| && l2.nodes[..|l.nodes|] == l.nodes
    && (forall p | p in l.officeMap :: p in l2.officeMap && l2.officeMap[p] == l.officeMap[p])
    && (forall p | p in l2.officeMap && p !in l.officeMap :: |l.nodes| <= l2.officeMap[p] < |l2.nodes|)
    && (forall i | |l.nodes| <= i < |l2.nodes| ::
          l2.nodes[i].locationType == Desk && !l2.nodes[i].isOrigin && l2.nodes[i].state == NotVisited)
  }

  lemma ExtendsTransitive(l1: Layout, l2: Layout, l3: Layout)
    requires Extends(l1, l2) && Extends(l2, l3)
    ensures Extends(l1, l3)
  {
    assert l3.nodes[..|l1.nodes|] == l3.nodes[..|l2.nodes|][..|l1.nodes|];
    forall i | |l1.nodes| <= i < |l3.nodes|
      ensures l3.nodes[i].locationType == Desk && !l3.nodes[i].isOrigin && l3.nodes[i].state == NotVisited
    {
      if i < |l2.nodes| {
        assert l3.nodes[i] == l3.nodes[..|l2.nodes|][i];
      }
    }
  }

  /** Lazily created desks change neither the kind nor the search state of any position. */
  lemma ExtendsKeepsPositions(l: Layout, l2: Layout, p: Position)
    requires Extends(l, l2)
    requires forall q | q in l.officeMap :: l.officeMap[q] < |l.nodes|
    ensures Kind(l2, p) == Kind(l, p)
    ensures StateAt(l2, p) == StateAt(l, p)
    ensures DistAt(l2, p) == DistAt(l, p) || p !in l.officeMap
  {
    if p in l.officeMap {
      assert l2.nodes[l.officeMap[p]] == l2.nodes[..|l.nodes|][l.officeMap[p]];
    }
  }

  // ---------------------------------------------------------------- construction

  /** Stores a new node of the given type at each coordinate pair in turn; later writes win. */
  function PlaceNodes(l: Layout, coords: seq<Coordinates>, locationType: LocationType): (r: Layout)
    ensures r.rows == l.rows && r.columns == l.columns && r.origin == l.origin
    ensures |r.nodes| == |l.nodes| + |coords|
    decreases |coords|
  {
    if coords == [] then l
    else
      var node := NewNode(coords[0], locationType);
      PlaceNodes(l.(nodes := l.nodes + [node], officeMap := l.officeMap[node.MatrixPosition() := |l.nodes|]),
                 coords[1..], locationType)
  }

  /** The layout after placing the first of `coords`. */
  function PlaceOne(l: Layout, coords: seq<Coordinates>, locationType: LocationType): Layout
    requires coords != []
  {
    var node := NewNode(coords[0], locationType);
    l.(nodes := l.nodes + [node], officeMap := l.officeMap[node.MatrixPosition() := |l.nodes|])
  }

  /** Placing appends one new, unsearched, non-origin node of the given type per coordinate pair. */
  lemma {:induction false} PlaceNodesAppends(l: Layout, coords: seq<Coordinates>, locationType: LocationType)
    ensures var r := PlaceNodes(l, coords, locationType);
      && r.nodes[..|l.nodes|] == l.nodes
      && forall i | |l.nodes| <= i < |r.nodes| ::
           && r.nodes[i].locationType == locationType && !r.nodes[i].isOrigin
           && r.nodes[i].state == NotVisited && r.nodes[i].coordinates in coords
           && r.nodes[i].MatrixPosition() == ToMatrix(r.nodes[i].coordinates)
    decreases |coords|
  {
    if coords != [] {
      var placed := PlaceOne(l, coords, locationType);
      assert PlaceNodes(l, coords, locationType) == PlaceNodes(placed, coords[1..], locationType);
      PlaceNodesAppends(placed, coords[1..], locationType);
      var r := PlaceNodes(l, coords, locationType);
      assert r.nodes[..|l.nodes|] == r.nodes[..|placed.nodes|][..|l.nodes|];
      assert r.nodes[|l.nodes|] == r.nodes[..|placed.nodes|][|l.nodes|];
      assert forall c | c in coords[1..] :: c in coords;
    }
  }

  /**
   * After placing, the slot at `p` is occupied exactly when it was before or `p` is listed;
   * a listed slot refers to one of the new nodes, any other slot is unchanged.
   */
  lemma {:induction false} PlaceNodesSlot(l: Layout, coords: seq<Coordinates>, locationType: LocationType, p: Position)
    ensures var r := PlaceNodes(l, coords, locationType);
      && (p in r.officeMap <==> p in l.officeMap || FromMatrix(p) in coords)
      && (FromMatrix(p) in coords ==> |l.nodes| <= r.officeMap[p] < |r.nodes| && r.nodes[r.officeMap[p]].locationType == locationType)
      && (FromMatrix(p) !in coords && p in l.officeMap ==> r.officeMap[p] == l.officeMap[p])
    decreases |coords|
  {
    if coords != [] {
      var placed := PlaceOne(l, coords, locationType);
      assert PlaceNodes(l, coords, locationType) == PlaceNodes(placed, coords[1..], locationType);
      PlaceNodesSlot(placed, coords[1..], locationType, p);
      PlaceNodesAppends(placed, coords[1..], locationType);
      var r := PlaceNodes(l, coords, locationType);
      assert FromMatrix(p) in coords <==> FromMatrix(p) == coords[0] || FromMatrix(p) in coords[1..];
      assert FromMatrix(p) == coords[0] <==> p == ToMatrix(coords[0]);
      if FromMatrix(p) !in coords[1..] && FromMatrix(p) == coords[0] {
        assert r.nodes[|l.nodes|] == r.nodes[..|placed.nodes|][|l.nodes|];
      }
    }
  }

  /** The kind at `p` after placing: the placed type where `p` is listed, the old kind elsewhere. */
  lemma PlaceNodesKind(l: Layout, coords: seq<Coordinates>, locationType: LocationType, p: Position)
    requires forall q | q in l.officeMap :: l.officeMap[q] < |l.nodes|
    ensures Kind(PlaceNodes(l, coords, locationType), p) == if FromMatrix(p) in coords then locationType else Kind(l, p)
  {
    PlaceNodesSlot(l, coords, locationType, p);
    PlaceNodesAppends(l, coords, locationType);
    var r := PlaceNodes(l, coords, locationType);
    if FromMatrix(p) !in coords && p in l.officeMap {
      assert r.nodes[l.officeMap[p]] == r.nodes[..|l.nodes|][l.officeMap[p]];
    }
  }

  /** Every coordinate pair lies inside a `rows` x `columns` grid (1-based). */
  predicate AllInBounds(rows: int, columns: int, coords: seq<Coordinates>) {
    forall c | c in coords :: 1 <= c.0 <= rows && 1 <= c.1 <= columns
  }

  /**
   * The OfficeLayout constructor: the origin desk, then every coffee machine, then every
   * wall, each written into its slot so that a later write replaces an earlier one.
   * Coordinates must lie in the grid (the C# array write would throw otherwise).
   */
  function NewLayout(rows: int, columns: int, origin: Coordinates,
                     coffeeMachines: seq<Coordinates>, walls: seq<Coordinates>): (l: Layout)
    requires AllInBounds(rows, columns, [origin] + coffeeMachines + walls)
    ensures Valid(l) && Fresh(l)
    ensures l.rows == rows && l.columns == columns
    ensures l.nodes[l.origin] == NewNode(origin, Desk, true)
    ensures forall p :: p in l.officeMap <==> FromMatrix(p) in [origin] + coffeeMachines + walls
    ensures forall p :: Kind(l, p) == if FromMatrix(p) in walls then Wall
                                      else if FromMatrix(p) in coffeeMachines then Coffee
                                      else Desk
    ensures OriginPlaced(l) <==> origin !in coffeeMachines && origin !in walls
  {
    var originNode := NewNode(origin, Desk, true);
    var l0 := Layout(rows, columns, 0, [originNode], map[originNode.MatrixPosition() := 0]);
    var l1 := PlaceNodes(l0, coffeeMachines, Coffee);
    var l2 := PlaceNodes(l1, walls, Wall);
    NewLayoutFacts(rows, columns, origin, coffeeMachines, walls, l0, l1, l2);
    l2
  }

  lemma NewLayoutFacts(rows: int, columns: int, origin: Coordinates,
                       coffeeMachines: seq<Coordinates>, walls: seq<Coordinates>, l0: Layout, l1: Layout, l2: Layout)
    requires AllInBounds(rows, columns, [origin] + coffeeMachines + walls)
    requires l0 == Layout(rows, columns, 0, [NewNode(origin, Desk, true)], map[ToMatrix(origin) := 0])
    requires l1 == PlaceNodes(l0, coffeeMachines, Coffee) && l2 == PlaceNodes(l1, walls, Wall)
    ensures Valid(l2) && Fresh(l2)
    ensures l2.nodes[l2.origin] == NewNode(origin, Desk, true)
    ensures forall p :: p in l2.officeMap <==> FromMatrix(p) in [origin] + coffeeMachines + walls
    ensures forall p :: Kind(l2, p) == if FromMatrix(p) in walls then Wall
                                       else if FromMatrix(p) in coffeeMachines then Coffee
                                       else Desk
    ensures OriginPlaced(l2) <==> origin !in coffeeMachines && origin !in walls
  {
    NewLayoutValid(rows, columns, origin, coffeeMachines, walls, l0, l1, l2);
    forall p
      ensures p in l2.officeMap <==> FromMatrix(p) in [origin] + coffeeMachines + walls
      ensures Kind(l2, p) == if FromMatrix(p) in walls then Wall
                             else if FromMatrix(p) in coffeeMachines then Coffee
                             else Desk
    {
      NewLayoutSlot(rows, columns, origin, coffeeMachines, walls, l0, l1, l2, p);
    }
    NewLayoutSlot(rows, columns, origin, coffeeMachines, walls, l0, l1, l2, ToMatrix(origin));
  }

  lemma NewLayoutValid(rows: int, columns: int, origin: Coordinates,
                       coffeeMachines: seq<Coordinates>, walls: seq<Coordinates>, l0: Layout, l1: Layout, l2: Layout)
    requires AllInBounds(rows, columns, [origin] + coffeeMachines + walls)
    requires l0 == Layout(rows, columns, 0, [NewNode(origin, Desk, true)], map[ToMatrix(origin) := 0])
    requires l1 == PlaceNodes(l0, coffeeMachines, Coffee) && l2 == PlaceNodes(l1, walls, Wall)
    ensures Valid(l2) && Fresh(l2)
    ensures l2.nodes[l2.origin] == NewNode(origin, Desk, true)
  {
    assert origin in [origin] + coffeeMachines + walls;
    assert forall c | c in coffeeMachines :: c in [origin] + coffeeMachines + walls;
    assert forall c | c in walls :: c in [origin] + coffeeMachines + walls;
    PlaceNodesAppends(l0, coffeeMachines, Coffee);
    PlaceNodesAppends(l1, walls, Wall);
    assert l2.nodes[0] == l2.nodes[..|l1.nodes|][0] == l1.nodes[..|l0.nodes|][0];
    assert Valid(l0);
    PlaceNodesValid(l0, coffeeMachines, Coffee);
    PlaceNodesValid(l1, walls, Wall);
  }

  lemma NewLayoutSlot(rows: int, columns: int, origin: Coordinates,
                      coffeeMachines: seq<Coordinates>, walls: seq<Coordinates>, l0: Layout, l1: Layout, l2: Layout,
                      p: Position)
    requires l0 == Layout(rows, columns, 0, [NewNode(origin, Desk, true)], map[ToMatrix(origin) := 0])
    requires l1 == PlaceNodes(l0, coffeeMachines, Coffee) && l2 == PlaceNodes(l1, walls, Wall)
    ensures p in l2.officeMap <==> FromMatrix(p) in [origin] + coffeeMachines + walls
    ensures Kind(l2, p) == if FromMatrix(p) in walls then Wall
                           else if FromMatrix(p) in coffeeMachines then Coffee
                           else Desk
    ensures p == ToMatrix(origin) ==> (Placed(l2, 0) <==> origin !in coffeeMachines && origin !in walls)
  {
    assert FromMatrix(p) in [origin] + coffeeMachines + walls <==>
           FromMatrix(p) == origin || FromMatrix(p) in coffeeMachines || FromMatrix(p) in walls;
    assert FromMatrix(p) == origin <==> p == ToMatrix(origin);
    PlaceNodesSlot(l0, coffeeMachines, Coffee, p);
    PlaceNodesSlot(l1, walls, Wall, p);
    PlaceNodesKind(l0, coffeeMachines, Coffee, p);
    PlaceNodesSlot(l0, coffeeMachines, Coffee, p);
    assert forall q | q in l1.officeMap :: l1.officeMap[q] < |l1.nodes| by {
      forall q | q in l1.officeMap ensures l1.officeMap[q] < |l1.nodes| {
        PlaceNodesSlot(l0, coffeeMachines, Coffee, q);
      }
    }
    PlaceNodesKind(l1, walls, Wall, p);
    if p == ToMatrix(origin) {
      PlaceNodesAppends(l0, coffeeMachines, Coffee);
      PlaceNodesAppends(l1, walls, Wall);
      assert l2.nodes[0] == l2.nodes[..|l1.nodes|][0] == l1.nodes[..|l0.nodes|][0];
    }
  }

  /** Placing in-bounds nodes into a valid, unsearched layout leaves it valid and unsearched. */
  lemma {:induction false} PlaceNodesValid(l: Layout, coords: seq<Coordinates>, locationType: LocationType)
    requires Valid(l) && Fresh(l) && AllInBounds(l.rows, l.columns, coords)
    ensures Valid(PlaceNodes(l, coords, locationType)) && Fresh(PlaceNodes(l, coords, locationType))
    decreases |coords|
  {
    if coords != [] {
      var placed := PlaceOne(l, coords, locationType);
      assert forall i | 0 <= i < |l.nodes| :: placed.nodes[i] == l.nodes[i];
      forall p | p in placed.officeMap
        ensures placed.officeMap[p] < |placed.nodes| && placed.nodes[placed.officeMap[p]].MatrixPosition() == p
      {
      }
      forall i | 0 <= i < |placed.nodes|
        ensures InBounds(placed, placed.nodes[i].MatrixPosition()) && placed.nodes[i].MatrixPosition() in placed.officeMap
      {
      }
      forall i | 0 <= i < |placed.nodes|
        ensures SearchConsistent(placed.nodes, i)
      {
      }
      assert Valid(placed);
      assert AllInBounds(l.rows, l.columns, coords[1..]);
      PlaceNodesValid(placed, coords[1..], locationType);
      assert PlaceNodes(l, coords, locationType) == PlaceNodes(placed, coords[1..], locationType);
    }
  }

  // ---------------------------------------------------------------- lookups

  /** OfficeLayout.GetNode: the node stored at a position, or null out of bounds or in an empty slot. */
  function GetNode(l: Layout, row: int, column: int): (r: Option<NodeId>)
    ensures r.Some? <==> InBounds(l, (row, column)) && (row, column) in l.officeMap
    ensures r.Some? ==> r.value == l.officeMap[(row, column)]
  {
    if OutOfBounds(l, row, column) then None
    else if (row, column) in l.officeMap then Some(l.officeMap[(row, column)])
    else None
  }

  /**
   * OfficeLayout.GetPopulateNode: null out of bounds; the stored node if there is one;
   * otherwise a new non-origin desk for that position, stored and returned.
   */
  function GetPopulateNode(l: Layout, row: int, column: int): (r: (Layout, Option<NodeId>))
    ensures Extends(l, r.0)
    ensures r.1.None? <==> OutOfBounds(l, row, column)
    ensures r.1.None? ==> r.0 == l
    ensures r.1.Some? ==> (row, column) in r.0.officeMap && r.0.officeMap[(row, column)] == r.1.value
    ensures (row, column) in l.officeMap ==> r.0 == l
    ensures r.1.Some? && (row, column) !in l.officeMap ==>
              && r.1.value == |l.nodes| && |r.0.nodes| == |l.nodes| + 1
              && r.0.nodes[r.1.value].coordinates == (row + 1, column + 1)
              && r.0.nodes[r.1.value].MatrixPosition() == (row, column)
              && r.0.officeMap.Keys == l.officeMap.Keys + {(row, column)}
    ensures Valid(l) ==> Valid(r.0)
  {
    if OutOfBounds(l, row, column) then (l, None)
    else if (row, column) in l.officeMap then (l, Some(l.officeMap[(row, column)]))
    else
      var node := NewNode((row + 1, column + 1));
      var l2 := l.(nodes := l.nodes + [node], officeMap := l.officeMap[(row, column) := |l.nodes|]);
      assert l2.nodes[..|l.nodes|] == l.nodes;
      assert forall i | 0 <= i < |l.nodes| :: l2.nodes[i] == l.nodes[i];
      assert Valid(l) ==> Valid(l2) by {
        if Valid(l) {
          AppendDeskValid(l, l2, node);
        }
      }
      (l2, Some(|l.nodes|))
  }

  lemma AppendDeskValid(l: Layout, l2: Layout, node: Node)
    requires Valid(l) && InBounds(l, node.MatrixPosition()) && node.MatrixPosition() !in l.officeMap
    requires node.state == NotVisited
    requires l2 == l.(nodes := l.nodes + [node], officeMap := l.officeMap[node.MatrixPosition() := |l.nodes|])
    ensures Valid(l2)
  {
    assert forall i | 0 <= i < |l.nodes| :: l2.nodes[i] == l.nodes[i];
    forall i | 0 <= i < |l2.nodes|
      ensures SearchConsistent(l2.nodes, i)
    {
      if i < |l.nodes| {
        assert SearchConsistent(l.nodes, i);
      }
    }
  }

  /** A second lookup at the same position yields the same node and changes nothing more. */
  lemma GetPopulateNodeIdempotent(l: Layout, row: int, column: int)
    ensures var (l2, n) := GetPopulateNode(l, row, column);
      GetPopulateNode(l2, row, column) == (l2, n)
  {
  }

  /**
   * Appends, for each position in turn that is in bounds, the node stored there (created
   * if need be): the chain of bounds-checked `GetPopulateNode` calls of GetNeighbors.
   */
  function AddNeighbors(l: Layout, found: seq<NodeId>, ps: seq<Position>): (r: (Layout, seq<NodeId>))
    ensures Extends(l, r.0)
    decreases |ps|
  {
    if ps == [] then (l, found)
    else if !OutOfBounds(l, ps[0].0, ps[0].1) then
      var (l2, node) := GetPopulateNode(l, ps[0].0, ps[0].1);
      var r := AddNeighbors(l2, found + [node.value], ps[1..]);
      ExtendsTransitive(l, l2, r.0);
      r
    else
      AddNeighbors(l, found, ps[1..])
  }

  /** AddNeighbors appends, in order, the node stored at each in-bounds position. */
  lemma {:induction false} AddNeighborsFound(l: Layout, found: seq<NodeId>, ps: seq<Position>)
    ensures var r := AddNeighbors(l, found, ps);
      && |r.1| == |found| + |KeepInBounds(l, ps)| && r.1[..|found|] == found
      && forall k | 0 <= k < |KeepInBounds(l, ps)| ::
           KeepInBounds(l, ps)[k] in r.0.officeMap && r.0.officeMap[KeepInBounds(l, ps)[k]] == r.1[|found| + k]
    decreases |ps|
  {
    if ps != [] {
      if !OutOfBounds(l, ps[0].0, ps[0].1) {
        var (l2, node) := GetPopulateNode(l, ps[0].0, ps[0].1);
        var found2 := found + [node.value];
        AddNeighborsFound(l2, found2, ps[1..]);
        var r := AddNeighbors(l2, found2, ps[1..]);
        assert r == AddNeighbors(l, found, ps);
        KeepInBoundsSameGrid(l, l2, ps[1..]);
        var kept, rest := KeepInBounds(l, ps), KeepInBounds(l, ps[1..]);
        assert kept == [ps[0]] + rest;
        assert r.1[..|found|] == r.1[..|found2|][..|found|];
        assert r.1[|found|] == found2[|found|] == node.value;
        assert ps[0] in r.0.officeMap && r.0.officeMap[ps[0]] == node.value;
        forall k | 0 <= k < |kept|
          ensures kept[k] in r.0.officeMap && r.0.officeMap[kept[k]] == r.1[|found| + k]
        {
          if k > 0 {
            assert kept[k] == rest[k - 1];
          }
        }
      } else {
        AddNeighborsFound(l, found, ps[1..]);
        assert KeepInBounds(l, ps) == KeepInBounds(l, ps[1..]);
      }
    }
  }

  lemma {:induction false} KeepInBoundsSameGrid(l: Layout, l2: Layout, ps: seq<Position>)
    requires l.rows == l2.rows && l.columns == l2.columns
    ensures KeepInBounds(l2, ps) == KeepInBounds(l, ps)
    decreases |ps|
  {
    if ps != [] {
      KeepInBoundsSameGrid(l, l2, ps[1..]);
    }
  }

  /**
   * OfficeLayout.GetNeighbors: the nodes at the in-bounds positions up, left, right and
   * down of a node, in that order, creating desks in empty slots on the way.
   */
  function GetNeighbors(l: Layout, id: NodeId): (r: (Layout, seq<NodeId>))
    requires id < |l.nodes|
    ensures Extends(l, r.0)
    ensures Valid(l) ==> Valid(r.0)
    ensures |r.1| <= 4
    ensures var p := l.nodes[id].MatrixPosition();
      OutOfBounds(l, p.0, p.1) ==> r == (l, [])
    ensures var p := l.nodes[id].MatrixPosition();
      !OutOfBounds(l, p.0, p.1) ==>
        && |r.1| == |InBoundsNeighbors(l, p)|
        && forall k | 0 <= k < |r.1| ::
             InBoundsNeighbors(l, p)[k] in r.0.officeMap && r.0.officeMap[InBoundsNeighbors(l, p)[k]] == r.1[k]
  {
    var p := l.nodes[id].MatrixPosition();
    if OutOfBounds(l, p.0, p.1) then (l, [])
    else
      AddNeighborsFound(l, [], Directions(p));
      assert Valid(l) ==> Valid(AddNeighbors(l, [], Directions(p)).0) by {
        if Valid(l) {
          AddNeighborsValid(l, [], Directions(p));
        }
      }
      AddNeighbors(l, [], Directions(p))
  }

  lemma {:induction false} AddNeighborsValid(l: Layout, found: seq<NodeId>, ps: seq<Position>)
    requires Valid(l)
    ensures Valid(AddNeighbors(l, found, ps).0)
    decreases |ps|
  {
    if ps != [] {
      if !OutOfBounds(l, ps[0].0, ps[0].1) {
        var (l2, node) := GetPopulateNode(l, ps[0].0, ps[0].1);
        AddNeighborsValid(l2, found + [node.value], ps[1..]);
      } else {
        AddNeighborsValid(l, found, ps[1..]);
      }
    }
  }

  /** OfficeLayout.IsCoffeeMachine: false for null, otherwise whether the node is a coffee machine. */
  predicate IsCoffeeMachine(l: Layout, node: Option<NodeId>)
    requires node.Some? ==> node.value < |l.nodes|
    ensures IsCoffeeMachine(l, node) <==> node.Some? && l.nodes[node.value].locationType == Coffee
  {
    if node.None? then false else l.nodes[node.value].locationType == Coffee
  }

  /**
   * The coffee test the search applies to a looked-up node agrees with the kind of location
   * at that position: a slot holds a coffee machine exactly when it is in bounds and of kind
   * Coffee.
   */
  lemma IsCoffeeMachineAt(l: Layout, p: Position)
    requires Valid(l)
    ensures GetNode(l, p.0, p.1).Some? ==> GetNode(l, p.0, p.1).value < |l.nodes|
    ensures IsCoffeeMachine(l, GetNode(l, p.0, p.1)) <==> InBounds(l, p) && Kind(l, p) == Coffee
  {
  }

  /**
   * Sets the search fields of one node (the only fields of a node that change after
   * construction).
   */
  function SetSearch(l: Layout, id: NodeId, state: LocationState, previous: Option<NodeId>, distance: int): (r: Layout)
    requires id < |l.nodes|
    ensures |r.nodes| == |l.nodes| && r.officeMap == l.officeMap
    ensures forall i | 0 <= i < |r.nodes| :: r.nodes[i].Identity() == l.nodes[i].Identity()
    ensures r.nodes[id].state == state && r.nodes[id].previousNode == previous && r.nodes[id].distance == distance
    ensures forall i | 0 <= i < |r.nodes| && i != id :: r.nodes[i] == l.nodes[i]
  {
    l.(nodes := l.nodes[id := l.nodes[id].(state := state, previousNode := previous, distance := distance)])
  }

  /**
   * OfficeLayout.RetracePath: starting from a reached node, the node stored at its position,
   * then at its predecessor's, and so on back to a node without predecessor.
   */
  function RetracePath(l: Layout, id: NodeId): (path: seq<Option<NodeId>>)
    requires Valid(l) && id < |l.nodes| && l.nodes[id].state != NotVisited
    ensures |path| == l.nodes[id].distance + 1
    ensures forall k | 0 <= k < |path| :: path[k].Some? && path[k].value < |l.nodes|
    ensures 0 < |path| && path[0] == Some(l.officeMap[l.nodes[id].MatrixPosition()])
    decreases l.nodes[id].distance
  {
    assert SearchConsistent(l.nodes, id);
    var here := GetNode(l, l.nodes[id].matrixRow, l.nodes[id].matrixColumn);
    match l.nodes[id].previousNode
    case None => [here]
    case Some(j) => [here] + RetracePath(l, j)
  }
}
