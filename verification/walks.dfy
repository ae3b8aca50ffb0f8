/**
 * What the coffee search is meant to compute, stated without reference to the search: walks
 * from the origin through in-bounds, non-wall positions, one four-way step at a time, and the
 * number of steps of the shortest walk that ends at a coffee machine.
 */
module Walks {
  import opened Options
  import opened OfficeNodes
  import opened OfficeLayouts

  /** A position one may stand on: inside the grid and not a wall. */
  ghost predicate Passable(l: Layout, p: Position) {
    InBounds(l, p) && Kind(l, p) != Wall
  }

  /** A walk starting at the origin; `|w| - 1` is its number of steps. */
  ghost predicate IsWalk(l: Layout, w: seq<Position>) {
    && |w| >= 1 && l.origin < |l.nodes| && w[0] == OriginPosition(l)
    && (forall i | 0 <= i < |w| :: Passable(l, w[i]))
    && (forall i | 0 <= i < |w| - 1 :: Adjacent(w[i], w[i + 1]))
  }

  /** A walk that ends at a coffee machine. */
  ghost predicate CoffeeWalk(l: Layout, w: seq<Position>) {
    IsWalk(l, w) && Kind(l, w[|w| - 1]) == Coffee
  }

  /**
   * `d` is the search's intended answer: PathError when no walk reaches a coffee machine,
   * otherwise the number of steps of a shortest walk that does.
   */
  ghost predicate NearestCoffee(l: Layout, d: int) {
    if d == PathError then forall w :: !CoffeeWalk(l, w)
    else
      && d >= 0
      && (exists w :: CoffeeWalk(l, w) && |w| == d + 1)
      && (forall w :: CoffeeWalk(l, w) ==> d + 1 <= |w|)
  }

  /** There is exactly one intended answer for a layout. */
  lemma NearestCoffeeUnique(l: Layout, d1: int, d2: int)
    requires NearestCoffee(l, d1) && NearestCoffee(l, d2)
    ensures d1 == d2
  {
    if d1 != PathError && d2 != PathError {
      var w1 :| CoffeeWalk(l, w1) && |w1| == d1 + 1;
      var w2 :| CoffeeWalk(l, w2) && |w2| == d2 + 1;
      assert d2 + 1 <= |w1| && d1 + 1 <= |w2|;
    }
  }

  /** Dropping the last step of a walk leaves a walk. */
  lemma WalkPrefix(l: Layout, w: seq<Position>)
    requires IsWalk(l, w) && |w| >= 2
    ensures IsWalk(l, w[..|w| - 1])
    ensures Adjacent(w[|w| - 2], w[|w| - 1])
  {
  }

  /** Two layouts with the same grid, origin and kinds have the same walks. */
  lemma SameWalks(l: Layout, l2: Layout, w: seq<Position>)
    requires l.rows == l2.rows && l.columns == l2.columns
    requires l.origin < |l.nodes| && l2.origin < |l2.nodes| && OriginPosition(l) == OriginPosition(l2)
    requires forall p :: Kind(l, p) == Kind(l2, p)
    ensures IsWalk(l, w) <==> IsWalk(l2, w)
    ensures CoffeeWalk(l, w) <==> CoffeeWalk(l2, w)
  {
  }

  function Reverse<T>(s: seq<T>): (r: seq<T>)
    ensures |r| == |s| && forall i | 0 <= i < |s| :: r[i] == s[|s| - 1 - i]
  {
    if s == [] then [] else Reverse(s[1..]) + [s[0]]
  }

  /** The positions of the nodes along a path of node references (unknown entries at (-1, -1)). */
  function PositionsOf(l: Layout, path: seq<Option<NodeId>>): (r: seq<Position>)
    ensures |r| == |path|
    ensures forall k | 0 <= k < |path| && path[k].Some? && path[k].value < |l.nodes| ::
              r[k] == l.nodes[path[k].value].MatrixPosition()
  {
    seq(|path|, k requires 0 <= k < |path| =>
      if path[k].Some? && path[k].value < |l.nodes| then l.nodes[path[k].value].MatrixPosition() else (-1, -1))
  }

  // ---------------------------------------------------------------- bounding walks

  function Manhattan(p: Position, q: Position): nat {
    (if p.0 <= q.0 then q.0 - p.0 else p.0 - q.0) + (if p.1 <= q.1 then q.1 - p.1 else p.1 - q.1)
  }

  /** A walk of n steps ends at most n rows-plus-columns away from the origin. */
  lemma {:induction false} WalkWithinManhattan(l: Layout, w: seq<Position>)
    requires IsWalk(l, w)
    ensures Manhattan(OriginPosition(l), w[|w| - 1]) <= |w| - 1
    decreases |w|
  {
    if |w| >= 2 {
      WalkPrefix(l, w);
      WalkWithinManhattan(l, w[..|w| - 1]);
    }
  }

  /**
   * If `layers[0]` holds the origin and every passable neighbour of a position in
   * `layers[j]` lies in `layers[j + 1]`, then a walk of n steps ends in `layers[n]`.
   */
  lemma {:induction false} WalkWithinLayers(l: Layout, layers: seq<set<Position>>, w: seq<Position>)
    requires IsWalk(l, w) && |w| <= |layers|
    requires OriginPosition(l) in layers[0]
    requires forall j, p, q | 0 <= j < |layers| - 1 && p in layers[j] && Adjacent(p, q) && Passable(l, q) ::
               q in layers[j + 1]
    ensures w[|w| - 1] in layers[|w| - 1]
    decreases |w|
  {
    if |w| >= 2 {
      WalkPrefix(l, w);
      WalkWithinLayers(l, layers, w[..|w| - 1]);
    }
  }

  /**
   * If a set holds the origin and every passable neighbour of its members, every walk
   * stays inside it.
   */
  lemma {:induction false} WalkWithinClosedSet(l: Layout, s: set<Position>, w: seq<Position>)
    requires IsWalk(l, w)
    requires OriginPosition(l) in s
    requires forall p, q | p in s && Adjacent(p, q) && Passable(l, q) :: q in s
    ensures w[|w| - 1] in s
    decreases |w|
  {
    if |w| >= 2 {
      WalkPrefix(l, w);
      WalkWithinClosedSet(l, s, w[..|w| - 1]);
    }
  }
}
