/**
 * One location of the office grid (OfficeNode.cs), together with the enumerations
 * (Enums.cs) and constants (Constants.cs) it uses.
 *
 * Node objects are kept in an arena (see OfficeLayouts); a reference to a node is its
 * index, a `NodeId`, and a null reference is `None`.
 */
module OfficeNodes {
  import opened Options

  /** What occupies a location. */
  datatype LocationType = Desk | Coffee | Wall

  /** How far the breadth-first search has got with a location. */
  datatype LocationState = NotVisited | Visited | Queued

  /** The single error code of the search. */
  const PathError: int := -1

  /** C#'s `int.MaxValue`, the distance a node starts with before the search reaches it. */
  const IntMaxValue: int := 0x7FFF_FFFF

  /** A (row, column) pair; the caller's coordinates are 1-based, matrix positions 0-based. */
  type Coordinates = (int, int)

  /** A reference to a node: its index in the layout's node arena. */
  type NodeId = nat

  datatype Node = Node(
    coordinates: Coordinates,        // as supplied, 1-based
    matrixRow: int,                  // 0-based
    matrixColumn: int,               // 0-based
    isOrigin: bool,
    locationType: LocationType,
    state: LocationState,            // search state (mutable)
    previousNode: Option<NodeId>,    // search predecessor (mutable)
    distance: int)                   // distance from the origin (mutable)
  {
    function MatrixPosition(): (int, int) {
      (matrixRow, matrixColumn)
    }

    /** The part of a node that its constructor fixes for good. */
    function Identity(): (Coordinates, int, int, bool, LocationType) {
      (coordinates, matrixRow, matrixColumn, isOrigin, locationType)
    }
  }

  /** The 0-based matrix position of 1-based coordinates. */
  function ToMatrix(c: Coordinates): (int, int) {
    (c.0 - 1, c.1 - 1)
  }

  /** The 1-based coordinates of a 0-based matrix position. */
  function FromMatrix(p: (int, int)): Coordinates {
    (p.0 + 1, p.1 + 1)
  }

  /** The OfficeNode constructor, with its default arguments (a desk that is not the origin). */
  function NewNode(coordinates: Coordinates, locationType: LocationType := Desk, isOrigin: bool := false): (n: Node)
    ensures n.MatrixPosition() == ToMatrix(coordinates)
  {
    Node(coordinates, coordinates.0 - 1, coordinates.1 - 1, isOrigin, locationType, NotVisited, None, IntMaxValue)
  }

  /** Converting between coordinates and matrix positions loses nothing, in either direction. */
  lemma MatrixRoundTrip(c: Coordinates, p: (int, int))
    ensures FromMatrix(ToMatrix(c)) == c
    ensures ToMatrix(FromMatrix(p)) == p
    ensures ToMatrix(c) == p <==> c == FromMatrix(p)
  {
  }

  /**
   * Everything that is not a node reference, as seen by `Equals(object)`: null, a node, or
   * an object of some other class.
   */
  datatype Object = Null | NodeRef(id: NodeId) | OtherObject

  /**
   * OfficeNode.Equals: false for null or a non-node, true for the same reference, otherwise
   * true exactly when coordinates and location type agree.
   */
  predicate Equals(nodes: seq<Node>, self: NodeId, obj: Object)
    requires self < |nodes|
    requires obj.NodeRef? ==> obj.id < |nodes|
  {
    match obj
    case Null => false
    case OtherObject => false
    case NodeRef(other) =>
      if other == self then true
      else nodes[other].coordinates == nodes[self].coordinates && nodes[other].locationType == nodes[self].locationType
  }

  /** `Equals` between nodes is an equivalence relation, and it looks only at coordinates and type. */
  lemma EqualsIsEquivalence(nodes: seq<Node>, a: NodeId, b: NodeId, c: NodeId)
    requires a < |nodes| && b < |nodes| && c < |nodes|
    ensures Equals(nodes, a, NodeRef(a))
    ensures Equals(nodes, a, NodeRef(b)) <==> Equals(nodes, b, NodeRef(a))
    ensures Equals(nodes, a, NodeRef(b)) && Equals(nodes, b, NodeRef(c)) ==> Equals(nodes, a, NodeRef(c))
    ensures Equals(nodes, a, NodeRef(b)) <==>
              nodes[a].coordinates == nodes[b].coordinates && nodes[a].locationType == nodes[b].locationType
    ensures !Equals(nodes, a, Null) && !Equals(nodes, a, OtherObject)
  {
  }

  /**
   * The TestOfficeNode scenario: with default arguments a node at (2, 1) is a desk at matrix
   * position (1, 0), not the origin, not visited, with the "unknown" distance; explicit
   * arguments are kept.
   */
  lemma TestOfficeNode()
    ensures var n := NewNode((2, 1));
      && n.locationType == Desk && n.matrixRow == 1 && n.matrixColumn == 0
      && !n.isOrigin && n.state == NotVisited && n.distance == IntMaxValue && n.previousNode == None
    ensures var n := NewNode((2, 1), Coffee, true);
      n.locationType == Coffee && n.isOrigin
  {
  }
}
