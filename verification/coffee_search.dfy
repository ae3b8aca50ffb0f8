/**
 * OfficeLayout.FindCoffeeDistance: a breadth-first search from the origin desk that
 * expands the four-way neighbours of each dequeued node, never queues a wall or an
 * already reached node, and stops at the first coffee machine it dequeues.
 *
 * The C# method mutates the nodes it reaches; here it takes a layout and returns the
 * layout it leaves behind. Its safety facts hold for every valid layout. That the answer
 * is the length of a shortest walk to a coffee machine is proved for a layout no search
 * has touched yet whose origin slot still holds the origin desk (see `Tracked`).
 */
module CoffeeSearch {
  import opened Options
  import opened OfficeNodes
  import opened OfficeLayouts
  import opened Walks

  // ---------------------------------------------------------------- what a search keeps

  /**
   * `l` is `l0` with only search fields changed and desks created: same grid and origin,
   * the old nodes keep their identity, old slots keep their node, every kind is unchanged.
   */
  ghost predicate SameShape(l0: Layout, l: Layout) {
    && l.rows == l0.rows && l.columns == l0.columns && l.origin == l0.origin
    && |l0.nodes| <= |l.nodes|
    && (forall i | 0 <= i < |l0.nodes| :: l.nodes[i].Identity() == l0.nodes[i].Identity())
    && (forall p | p in l0.officeMap :: p in l.officeMap && l.officeMap[p] == l0.officeMap[p])
    && (forall p :: Kind(l, p) == Kind(l0, p))
  }

  lemma SameShapeTransitive(l0: Layout, l1: Layout, l2: Layout)
    requires SameShape(l0, l1) && SameShape(l1, l2)
    ensures SameShape(l0, l2)
  {
  }

  lemma ExtendsSameShape(l: Layout, l2: Layout)
    requires Valid(l) && Extends(l, l2)
    ensures SameShape(l, l2)
  {
    forall i | 0 <= i < |l.nodes|
      ensures l2.nodes[i] == l.nodes[i]
    {
      assert l2.nodes[i] == l2.nodes[..|l.nodes|][i];
    }
    forall p
      ensures Kind(l2, p) == Kind(l, p)
    {
      ExtendsKeepsPositions(l, l2, p);
    }
  }

  /** Setting search fields changes the state and distance at the node's own slot only. */
  lemma SetSearchAt(l: Layout, id: NodeId, st: LocationState, prev: Option<NodeId>, d: int, p: Position)
    requires id < |l.nodes|
    ensures var l2 := SetSearch(l, id, st, prev, d);
      && Kind(l2, p) == Kind(l, p)
      && (p in l.officeMap && l.officeMap[p] == id ==> StateAt(l2, p) == st && DistAt(l2, p) == d)
      && (!(p in l.officeMap && l.officeMap[p] == id) ==>
            StateAt(l2, p) == StateAt(l, p) && DistAt(l2, p) == DistAt(l, p))
  {
  }

  lemma SetSearchSameShape(l: Layout, id: NodeId, st: LocationState, prev: Option<NodeId>, d: int)
    requires id < |l.nodes|
    ensures SameShape(l, SetSearch(l, id, st, prev, d))
  {
    forall p
      ensures Kind(SetSearch(l, id, st, prev, d), p) == Kind(l, p)
    {
      SetSearchAt(l, id, st, prev, d, p);
    }
  }

  /**
   * Marking a node reached keeps a layout valid when the link agrees with the distance,
   * the origin keeps no predecessor, and an already reached node keeps its distance
   * (other nodes may point at it).
   */
  lemma SetSearchValid(l: Layout, id: NodeId, st: LocationState, prev: Option<NodeId>, d: int)
    requires Valid(l) && id < |l.nodes| && st != NotVisited
    requires id == l.origin ==> prev.None?
    requires prev.None? ==> d == 0
    requires prev.Some? ==>
               && prev.value < |l.nodes| && prev.value != id && l.nodes[prev.value].state != NotVisited
               && l.nodes[prev.value].distance >= 0 && d == l.nodes[prev.value].distance + 1
    requires l.nodes[id].state != NotVisited ==> d == l.nodes[id].distance
    ensures Valid(SetSearch(l, id, st, prev, d))
  {
    var l2 := SetSearch(l, id, st, prev, d);
    forall i | 0 <= i < |l2.nodes| && i != id
      ensures SearchConsistent(l2.nodes, i)
    {
      assert SearchConsistent(l.nodes, i);
    }
    assert SearchConsistent(l2.nodes, id);
    SearchFieldsValid(l, l2);
  }

  /** Validity survives any change of search fields that keeps every node consistent with its link. */
  lemma SearchFieldsValid(l: Layout, l2: Layout)
    requires Valid(l) && l2.origin == l.origin && l2.officeMap == l.officeMap && |l2.nodes| == |l.nodes|
    requires l2.rows == l.rows && l2.columns == l.columns
    requires forall i | 0 <= i < |l.nodes| :: l2.nodes[i].Identity() == l.nodes[i].Identity()
    requires l2.nodes[l2.origin].previousNode.None?
    requires forall i | 0 <= i < |l2.nodes| :: SearchConsistent(l2.nodes, i)
    ensures Valid(l2)
  {
    assert forall i | 0 <= i < |l.nodes| :: l2.nodes[i].MatrixPosition() == l.nodes[i].MatrixPosition();
  }

  // ---------------------------------------------------------------- invariants

  /**
   * The queue and its history: the origin was queued first, every queued node is reached
   * and no wall, every node queued after the origin is the one in its slot, no node was
   * queued twice, and the queue is the not yet dequeued tail of the history, all in state
   * Queued.
   */
  ghost predicate QueueInv(l: Layout, enqueued: seq<NodeId>, queue: seq<NodeId>) {
    && 1 <= |enqueued| && enqueued[0] == l.origin
    && |queue| <= |enqueued| && queue == enqueued[|enqueued| - |queue|..]
    && (forall a | 0 <= a < |enqueued| ::
          && enqueued[a] < |l.nodes| && l.nodes[enqueued[a]].state != NotVisited
          && l.nodes[enqueued[a]].locationType != Wall)
    && (forall a | 1 <= a < |enqueued| :: Placed(l, enqueued[a]))
    && (forall a, b | 0 <= a < b < |enqueued| :: enqueued[a] != enqueued[b])
    && (forall a | 0 <= a < |queue| :: queue[a] < |l.nodes| && l.nodes[queue[a]].state == Queued)
  }

  /**
   * The search tree: the origin is reached at distance 0 and still in its slot; every
   * reached node is in its slot, is no wall, and links to the origin (no predecessor) or
   * to a node one step away.
   */
  ghost predicate SearchTree(l: Layout) {
    && OriginPlaced(l) && l.nodes[l.origin].state != NotVisited && l.nodes[l.origin].distance == 0
    && forall i | 0 <= i < |l.nodes| :: TreeLink(l, i)
  }

  /** The search-tree condition on node `i` alone (kept separate so that it is instantiated one node at a time). */
  ghost predicate TreeLink(l: Layout, i: int)
    requires 0 <= i < |l.nodes|
  {
    l.nodes[i].state != NotVisited ==>
      && Placed(l, i) && l.nodes[i].locationType != Wall
      && match l.nodes[i].previousNode
         case None => i == l.origin
         case Some(j) => j < |l.nodes| && Adjacent(l.nodes[j].MatrixPosition(), l.nodes[i].MatrixPosition())
  }

  /** Every passable neighbour of a visited position is reached, at most one step further. */
  ghost predicate Closed(l: Layout) {
    forall p, r | StateAt(l, p) == Visited && Adjacent(p, r) && Passable(l, r) ::
      StateAt(l, r) != NotVisited && DistAt(l, r) <= DistAt(l, p) + 1
  }

  ghost predicate NoVisitedCoffee(l: Layout) {
    forall p | StateAt(l, p) == Visited :: Kind(l, p) != Coffee
  }

  /** Every node in state Queued is in the queue or is the one being expanded. */
  ghost predicate QueuedIn(l: Layout, queue: seq<NodeId>, expanding: Option<NodeId>) {
    forall i | 0 <= i < |l.nodes| && l.nodes[i].state == Queued :: i in queue || expanding == Some(i)
  }

  /**
   * Distances by level: the queue holds distances `level` and `level + 1` in ascending
   * order, and no visited node lies beyond `level`.
   */
  ghost predicate Levels(l: Layout, queue: seq<NodeId>, level: int) {
    && (forall a | 0 <= a < |queue| && queue[a] < |l.nodes| ::
          level <= l.nodes[queue[a]].distance <= level + 1)
    && (forall a, b | 0 <= a < b < |queue| && queue[a] < |l.nodes| && queue[b] < |l.nodes| ::
          l.nodes[queue[a]].distance <= l.nodes[queue[b]].distance)
    && (forall i | 0 <= i < |l.nodes| && l.nodes[i].state == Visited :: l.nodes[i].distance <= level)
  }

  /** What the search knows between two dequeues. */
  ghost predicate Tracked(l: Layout, queue: seq<NodeId>) {
    && SearchTree(l) && Closed(l) && NoVisitedCoffee(l) && QueuedIn(l, queue, None)
    && (queue != [] && queue[0] < |l.nodes| ==> Levels(l, queue, l.nodes[queue[0]].distance))
  }

  /**
   * The neighbour lookup of `cur`: `ns[m]` is the node in slot `nbrs[m]`, every `nbrs[m]` is
   * one step from `cur`, and every in-bounds position one step from `cur` is among them.
   */
  ghost predicate NeighborSlots(l: Layout, cur: NodeId, ns: seq<NodeId>, nbrs: seq<Position>) {
    && cur < |l.nodes| && |ns| == |nbrs|
    && (forall m | 0 <= m < |nbrs| ::
          && nbrs[m] in l.officeMap && l.officeMap[nbrs[m]] == ns[m]
          && Adjacent(l.nodes[cur].MatrixPosition(), nbrs[m]))
    && (forall r | Adjacent(l.nodes[cur].MatrixPosition(), r) && InBounds(l, r) :: r in nbrs)
  }

  /** The node being expanded: dequeued last, still Queued, not a coffee machine; `k` neighbours done. */
  ghost predicate Expansion(l: Layout, enqueued: seq<NodeId>, queue: seq<NodeId>, cur: NodeId,
                            ns: seq<NodeId>, nbrs: seq<Position>, k: int)
  {
    && QueueInv(l, enqueued, queue) && |queue| < |enqueued| && enqueued[|enqueued| - |queue| - 1] == cur
    && NeighborSlots(l, cur, ns, nbrs) && 0 <= k <= |ns|
    && l.nodes[cur].state == Queued && l.nodes[cur].locationType != Coffee
  }

  /** What the search knows while expanding `cur`, after its first `k` neighbours. */
  ghost predicate Expanding(l: Layout, queue: seq<NodeId>, cur: NodeId, nbrs: seq<Position>, k: int)
    requires cur < |l.nodes|
  {
    && SearchTree(l) && Closed(l) && NoVisitedCoffee(l) && QueuedIn(l, queue, Some(cur))
    && Levels(l, queue, l.nodes[cur].distance)
    && forall m | 0 <= m < k && m < |nbrs| ::
         Kind(l, nbrs[m]) == Wall || (StateAt(l, nbrs[m]) != NotVisited && DistAt(l, nbrs[m]) <= l.nodes[cur].distance + 1)
  }

  /** The invariant of FindCoffeeDistance's loop; `track` switches on the optimality part. */
  ghost predicate Searching(layout: Layout, l: Layout, enqueued: seq<NodeId>, queue: seq<NodeId>, track: bool) {
    && Valid(l) && SameShape(layout, l) && QueueInv(l, enqueued, queue)
    && |enqueued| <= layout.rows * layout.columns + 1
    && (track ==> Tracked(l, queue))
  }

  /** The invariant of VisitNeighbors' loop, after the first `k` neighbours of `cur`. */
  ghost predicate Visiting(l0: Layout, l: Layout, enqueued: seq<NodeId>, queue: seq<NodeId>, cur: NodeId,
                           ns: seq<NodeId>, nbrs: seq<Position>, k: int, track: bool)
  {
    && Valid(l) && SameShape(l0, l) && Expansion(l, enqueued, queue, cur, ns, nbrs, k)
    && (track ==> Expanding(l, queue, cur, nbrs, k))
  }

  // ---------------------------------------------------------------- invariant steps

  /** Queuing the origin establishes the invariants. */
  lemma Start(layout: Layout, track: bool)
    requires Valid(layout) && (track ==> Fresh(layout) && OriginPlaced(layout))
    ensures Searching(layout, SetSearch(layout, layout.origin, Queued, None, 0), [layout.origin], [layout.origin], track)
  {
    var l := SetSearch(layout, layout.origin, Queued, None, 0);
    assert SearchConsistent(layout.nodes, layout.origin);
    SetSearchValid(layout, layout.origin, Queued, None, 0);
    SetSearchSameShape(layout, layout.origin, Queued, None, 0);
    assert QueueInv(l, [layout.origin], [layout.origin]);
    if track {
      StartTracked(layout);
    }
  }

  /** In a fresh layout whose origin is in its slot, the queued origin is all the search has reached. */
  lemma StartTracked(layout: Layout)
    requires Valid(layout) && Fresh(layout) && OriginPlaced(layout)
    ensures Tracked(SetSearch(layout, layout.origin, Queued, None, 0), [layout.origin])
  {
    var l := SetSearch(layout, layout.origin, Queued, None, 0);
    forall p | StateAt(l, p) != NotVisited
      ensures p in l.officeMap && l.officeMap[p] == l.origin
    {
      SetSearchAt(layout, layout.origin, Queued, None, 0, p);
    }
    assert SearchTree(l);
  }

  lemma ExtendsNodes(l: Layout, l2: Layout)
    requires Extends(l, l2)
    ensures forall i | 0 <= i < |l.nodes| :: l2.nodes[i] == l.nodes[i]
  {
    forall i | 0 <= i < |l.nodes| ensures l2.nodes[i] == l.nodes[i] {
      assert l2.nodes[i] == l2.nodes[..|l.nodes|][i];
    }
  }

  /** The queue invariants speak only of the queued nodes, which growing the layout keeps. */
  lemma QueueInvExtends(l: Layout, l2: Layout, enqueued: seq<NodeId>, queue: seq<NodeId>)
    requires Extends(l, l2) && QueueInv(l, enqueued, queue)
    ensures QueueInv(l2, enqueued, queue)
  {
    ExtendsNodes(l, l2);
  }

  /** Queuing an unreached non-wall node extends both the queue and its history. */
  lemma QueueInvEnqueue(l: Layout, enqueued: seq<NodeId>, queue: seq<NodeId>, nb: NodeId, cur: NodeId, d: int)
    requires QueueInv(l, enqueued, queue) && Placed(l, nb)
    requires l.nodes[nb].state == NotVisited && l.nodes[nb].locationType != Wall
    ensures QueueInv(SetSearch(l, nb, Queued, Some(cur), d), enqueued + [nb], queue + [nb])
    ensures |queue| < |enqueued| ==>
              (enqueued + [nb])[|enqueued| - |queue| - 1] == enqueued[|enqueued| - |queue| - 1]
  {
    var l2 := SetSearch(l, nb, Queued, Some(cur), d);
    var e2 := enqueued + [nb];
    var q2 := queue + [nb];
    assert forall a | 0 <= a < |enqueued| :: enqueued[a] != nb;
    assert q2 == e2[|e2| - |q2|..];
    forall a | 0 <= a < |e2|
      ensures e2[a] < |l2.nodes| && l2.nodes[e2[a]].state != NotVisited && l2.nodes[e2[a]].locationType != Wall
      ensures 1 <= a ==> Placed(l2, e2[a])
    {
      if a < |enqueued| {
        assert e2[a] == enqueued[a] && l2.nodes[e2[a]].Identity() == l.nodes[e2[a]].Identity();
      }
    }
    forall a | 0 <= a < |q2|
      ensures q2[a] < |l2.nodes| && l2.nodes[q2[a]].state == Queued
    {
      if a < |queue| {
        assert q2[a] == queue[a];
      }
    }
  }

  /** The node dequeued last is no longer in the queue, so marking it visited keeps the queue invariants. */
  lemma QueueInvRevisit(l: Layout, enqueued: seq<NodeId>, queue: seq<NodeId>, cur: NodeId,
                        st: LocationState, prev: Option<NodeId>, d: int)
    requires QueueInv(l, enqueued, queue) && |queue| < |enqueued| && enqueued[|enqueued| - |queue| - 1] == cur
    requires st != NotVisited
    ensures cur !in queue
    ensures QueueInv(SetSearch(l, cur, st, prev, d), enqueued, queue)
  {
    forall a | 0 <= a < |queue| ensures queue[a] != cur {
      assert queue[a] == enqueued[|enqueued| - |queue| + a];
    }
  }

  /** The slots of the nodes `ids`. */
  ghost function SlotsOf(l: Layout, ids: seq<NodeId>): set<Position>
    requires forall a | 0 <= a < |ids| :: Placed(l, ids[a])
  {
    if ids == [] then {}
    else
      assert Placed(l, ids[|ids| - 1]);
      SlotsOf(l, ids[..|ids| - 1]) + {l.nodes[ids[|ids| - 1]].MatrixPosition()}
  }

  /** Distinct nodes that sit in their own slots occupy as many slots as there are nodes. */
  lemma {:induction false} SlotsOfPlaced(l: Layout, ids: seq<NodeId>)
    requires forall a | 0 <= a < |ids| :: Placed(l, ids[a])
    requires forall a, b | 0 <= a < b < |ids| :: ids[a] != ids[b]
    ensures |SlotsOf(l, ids)| == |ids|
    ensures forall p | p in SlotsOf(l, ids) :: p in l.officeMap && l.officeMap[p] in ids
  {
    if ids != [] {
      var init := ids[..|ids| - 1];
      var last := ids[|ids| - 1];
      SlotsOfPlaced(l, init);
    }
  }

  /** At most `columns` positions of one row lie in the first `columns` columns. */
  lemma {:induction false} RowBound(ps: set<Position>, row: int, columns: nat)
    requires forall p | p in ps :: p.0 == row && 0 <= p.1 < columns
    ensures |ps| <= columns
    decreases columns
  {
    if columns > 0 {
      RowBound(ps - {(row, columns - 1)}, row, columns - 1);
    } else {
      assert ps == {};
    }
  }

  /** At most `rows * columns` positions lie in a grid of that size. */
  lemma {:induction false} GridBound(ps: set<Position>, rows: nat, columns: nat)
    requires forall p | p in ps :: 0 <= p.0 < rows && 0 <= p.1 < columns
    ensures |ps| <= rows * columns
    decreases rows
  {
    if rows > 0 {
      var last := set p | p in ps && p.0 == rows - 1;
      var rest := ps - last;
      RowBound(last, rows - 1, columns);
      GridBound(rest, rows - 1, columns);
      assert ps == rest + last;
      assert rows * columns == (rows - 1) * columns + columns;
    } else {
      assert ps == {};
    }
  }

  /**
   * Each node is queued at most once, and every node but the origin from its own slot, so
   * a search queues at most `rows * columns + 1` nodes (`rows * columns` when the origin
   * still sits in its slot).
   */
  lemma EnqueuedBound(l: Layout, enqueued: seq<NodeId>, queue: seq<NodeId>)
    requires Valid(l) && QueueInv(l, enqueued, queue)
    ensures |enqueued| <= l.rows * l.columns + 1
    ensures OriginPlaced(l) ==> |enqueued| <= l.rows * l.columns
  {
    assert InBounds(l, l.nodes[l.origin].MatrixPosition());
    var later := enqueued[1..];
    SlotsOfPlaced(l, later);
    GridBound(SlotsOf(l, later), l.rows, l.columns);
    if OriginPlaced(l) {
      SlotsOfPlaced(l, enqueued);
      GridBound(SlotsOf(l, enqueued), l.rows, l.columns);
    }
  }

  /** Lazily created desks are unreached, so the search tree and its closure stay as they were. */
  lemma TrackedExtends(l: Layout, l2: Layout, queue: seq<NodeId>)
    requires Valid(l) && Extends(l, l2) && Tracked(l, queue)
    requires forall a | 0 <= a < |queue| :: queue[a] < |l.nodes|
    ensures Tracked(l2, queue)
  {
    ExtendsNodes(l, l2);
    ExtendsSearchTree(l, l2);
    ExtendsClosed(l, l2);
    ExtendsQueue(l, l2, queue);
    if queue != [] {
      ExtendsLevels(l, l2, queue, l.nodes[queue[0]].distance);
    }
  }

  lemma ExtendsQueue(l: Layout, l2: Layout, queue: seq<NodeId>)
    requires Extends(l, l2) && QueuedIn(l, queue, None)
    ensures QueuedIn(l2, queue, None)
  {
    ExtendsNodes(l, l2);
  }

  lemma ExtendsLevels(l: Layout, l2: Layout, queue: seq<NodeId>, level: int)
    requires Extends(l, l2) && Levels(l, queue, level)
    requires forall a | 0 <= a < |queue| :: queue[a] < |l.nodes|
    ensures Levels(l2, queue, level)
  {
    ExtendsNodes(l, l2);
  }

  /** Lazily created desks keep the kind, state and (where reached) distance of every position. */
  lemma ExtendsPositions(l: Layout, l2: Layout)
    requires Valid(l) && Extends(l, l2)
    ensures forall p :: StateAt(l2, p) == StateAt(l, p) && Kind(l2, p) == Kind(l, p)
    ensures forall p | StateAt(l, p) != NotVisited :: DistAt(l2, p) == DistAt(l, p)
  {
    forall p
      ensures StateAt(l2, p) == StateAt(l, p) && Kind(l2, p) == Kind(l, p)
      ensures StateAt(l, p) != NotVisited ==> DistAt(l2, p) == DistAt(l, p)
    {
      ExtendsKeepsPositions(l, l2, p);
    }
  }

  lemma ExtendsSearchTree(l: Layout, l2: Layout)
    requires Valid(l) && Extends(l, l2) && SearchTree(l)
    ensures SearchTree(l2)
  {
    ExtendsNodes(l, l2);
    forall i | 0 <= i < |l2.nodes|
      ensures TreeLink(l2, i)
    {
      if l2.nodes[i].state != NotVisited {
        assert i < |l.nodes| && TreeLink(l, i);
      }
    }
  }

  lemma ExtendsClosed(l: Layout, l2: Layout)
    requires Valid(l) && Extends(l, l2) && Closed(l) && NoVisitedCoffee(l)
    ensures Closed(l2) && NoVisitedCoffee(l2)
  {
    ExtendsPositions(l, l2);
  }

  /** GetNeighbors of a valid in-bounds node yields the slots of its in-bounds neighbours. */
  lemma NeighborLookup(l: Layout, cur: NodeId)
    requires Valid(l) && cur < |l.nodes|
    ensures var (l2, ns) := GetNeighbors(l, cur);
      NeighborSlots(l2, cur, ns, InBoundsNeighbors(l, l.nodes[cur].MatrixPosition()))
  {
    var (l2, ns) := GetNeighbors(l, cur);
    var pos := l.nodes[cur].MatrixPosition();
    var nbrs := InBoundsNeighbors(l, pos);
    ExtendsNodes(l, l2);
    forall r | Adjacent(pos, r) && InBounds(l2, r)
      ensures r in nbrs
    {
      NeighborsAreAdjacent(l, pos, r);
    }
    forall m | 0 <= m < |nbrs|
      ensures Adjacent(pos, nbrs[m])
    {
      NeighborsAreAdjacent(l, pos, nbrs[m]);
    }
  }

  /** Creating neighbours keeps a layout valid, keeps its shape, and reaches no slot. */
  lemma GetNeighborsKeeps(l: Layout, cur: NodeId)
    requires Valid(l) && cur < |l.nodes|
    ensures var l2 := GetNeighbors(l, cur).0;
      && Valid(l2) && SameShape(l, l2)
      && l2.origin == l.origin && |l.nodes| <= |l2.nodes|
      && (forall i | 0 <= i < |l.nodes| :: l2.nodes[i] == l.nodes[i])
  {
    var l2 := GetNeighbors(l, cur).0;
    ExtendsSameShape(l, l2);
    ExtendsNodes(l, l2);
    forall p
      ensures StateAt(l2, p) == StateAt(l, p)
    {
      ExtendsKeepsPositions(l, l2, p);
    }
  }

  /** The queue invariants speak only of nodes that a grown layout keeps as they were. */
  lemma QueueInvFrame(l: Layout, l2: Layout, enqueued: seq<NodeId>, queue: seq<NodeId>)
    requires QueueInv(l, enqueued, queue) && l2.origin == l.origin && |l.nodes| <= |l2.nodes|
    requires forall i | 0 <= i < |l.nodes| :: l2.nodes[i] == l.nodes[i]
    requires forall p | p in l.officeMap :: p in l2.officeMap && l2.officeMap[p] == l.officeMap[p]
    ensures QueueInv(l2, enqueued, queue)
  {
  }

  /** Dequeuing the head keeps the queue invariants, with the head just before the queue in the history. */
  lemma QueueInvDequeue(l: Layout, enqueued: seq<NodeId>, queue: seq<NodeId>)
    requires QueueInv(l, enqueued, queue) && queue != []
    ensures QueueInv(l, enqueued, queue[1..])
    ensures enqueued[|enqueued| - |queue[1..]| - 1] == queue[0]
  {
    assert queue[1..] == enqueued[|enqueued| - |queue[1..]|..];
  }

  /** Creating the neighbours of `cur` and dequeuing it starts its expansion. */
  lemma Dequeue(l: Layout, enqueued: seq<NodeId>, queue: seq<NodeId>)
    requires Valid(l) && QueueInv(l, enqueued, queue) && queue != []
    requires l.nodes[queue[0]].locationType != Coffee
    ensures var cur := queue[0];
      var (l2, ns) := GetNeighbors(l, cur);
      && Valid(l2) && SameShape(l, l2)
      && Expansion(l2, enqueued, queue[1..], cur, ns, InBoundsNeighbors(l, l.nodes[cur].MatrixPosition()), 0)
  {
    var cur := queue[0];
    var l2 := GetNeighbors(l, cur).0;
    GetNeighborsKeeps(l, cur);
    QueueInvDequeue(l, enqueued, queue);
    QueueInvFrame(l, l2, enqueued, queue[1..]);
    NeighborLookup(l, cur);
  }

  lemma DequeueTracked(l: Layout, enqueued: seq<NodeId>, queue: seq<NodeId>)
    requires Valid(l) && QueueInv(l, enqueued, queue) && queue != [] && Tracked(l, queue)
    ensures var cur := queue[0];
      var (l2, ns) := GetNeighbors(l, cur);
      Expanding(l2, queue[1..], cur, InBoundsNeighbors(l, l.nodes[cur].MatrixPosition()), 0)
  {
    var cur := queue[0];
    var l2 := GetNeighbors(l, cur).0;
    TrackedExtends(l, l2, queue);
    assert l2.nodes[cur] == l.nodes[cur] by {
      ExtendsNodes(l, l2);
    }
    assert QueuedIn(l2, queue[1..], Some(cur)) by {
      forall i | 0 <= i < |l2.nodes| && l2.nodes[i].state == Queued
        ensures i in queue[1..] || i == cur
      {
        assert i in queue;
      }
    }
    LevelsTail(l2, queue, l2.nodes[cur].distance);
  }

  lemma LevelsTail(l: Layout, queue: seq<NodeId>, level: int)
    requires Levels(l, queue, level) && queue != []
    ensures Levels(l, queue[1..], level)
  {
    assert forall a | 0 <= a < |queue| - 1 :: queue[1..][a] == queue[a + 1];
  }

  /** Queuing the unreached, non-wall neighbour `ns[k]` one step beyond `cur`. */
  lemma Enqueue(l: Layout, enqueued: seq<NodeId>, queue: seq<NodeId>, cur: NodeId,
                ns: seq<NodeId>, nbrs: seq<Position>, k: int)
    requires Valid(l) && Expansion(l, enqueued, queue, cur, ns, nbrs, k) && k < |ns|
    requires l.nodes[ns[k]].state == NotVisited && l.nodes[ns[k]].locationType != Wall
    ensures var l2 := SetSearch(l, ns[k], Queued, Some(cur), l.nodes[cur].distance + 1);
      && Valid(l2) && SameShape(l, l2)
      && Expansion(l2, enqueued + [ns[k]], queue + [ns[k]], cur, ns, nbrs, k + 1)
  {
    var nb := ns[k];
    var d := l.nodes[cur].distance + 1;
    assert l.nodes[l.origin].state != NotVisited by {
      assert enqueued[0] == l.origin;
    }
    assert SearchConsistent(l.nodes, cur);
    SetSearchValid(l, nb, Queued, Some(cur), d);
    SetSearchSameShape(l, nb, Queued, Some(cur), d);
    assert Placed(l, nb);
    QueueInvEnqueue(l, enqueued, queue, nb, cur, d);
    var l2 := SetSearch(l, nb, Queued, Some(cur), d);
    assert l2.nodes[cur] == l.nodes[cur];
    NeighborSlotsFrame(l, l2, cur, ns, nbrs);
  }

  /** The neighbour lookup depends only on the grid, the slots and the position of `cur`. */
  lemma NeighborSlotsFrame(l: Layout, l2: Layout, cur: NodeId, ns: seq<NodeId>, nbrs: seq<Position>)
    requires NeighborSlots(l, cur, ns, nbrs)
    requires l2.rows == l.rows && l2.columns == l.columns && l2.officeMap == l.officeMap
    requires cur < |l2.nodes| && l2.nodes[cur].MatrixPosition() == l.nodes[cur].MatrixPosition()
    ensures NeighborSlots(l2, cur, ns, nbrs)
  {
  }

  lemma EnqueueTracked(l: Layout, queue: seq<NodeId>, cur: NodeId, nbrs: seq<Position>, k: int, nb: NodeId)
    requires Valid(l) && cur < |l.nodes| && Expanding(l, queue, cur, nbrs, k)
    requires 0 <= k < |nbrs| && nbrs[k] in l.officeMap && l.officeMap[nbrs[k]] == nb
    requires Adjacent(l.nodes[cur].MatrixPosition(), nbrs[k])
    requires l.nodes[cur].state == Queued && l.nodes[nb].state == NotVisited && l.nodes[nb].locationType != Wall
    requires forall a | 0 <= a < |queue| :: queue[a] < |l.nodes| && l.nodes[queue[a]].state == Queued
    ensures Expanding(SetSearch(l, nb, Queued, Some(cur), l.nodes[cur].distance + 1), queue + [nb], cur, nbrs, k + 1)
  {
    var d := l.nodes[cur].distance + 1;
    var l2 := SetSearch(l, nb, Queued, Some(cur), d);
    assert Placed(l, nb);
    EnqueueTree(l, cur, nb, d);
    EnqueueClosed(l, nb, cur, d);
    EnqueueQueuedIn(l, queue, cur, nb, d);
    EnqueueLevels(l, queue, cur, nb, l.nodes[cur].distance);
    EnqueueDone(l, cur, nbrs, k, nb, l.nodes[cur].distance);
    assert l2.nodes[cur] == l.nodes[cur];
    ExpandingIntro(l2, queue + [nb], cur, nbrs, k + 1, l.nodes[cur].distance);
  }

  /** Expanding, from its parts, at the level of `cur`. */
  lemma ExpandingIntro(l: Layout, queue: seq<NodeId>, cur: NodeId, nbrs: seq<Position>, k: int, level: int)
    requires cur < |l.nodes| && l.nodes[cur].distance == level
    requires SearchTree(l) && Closed(l) && NoVisitedCoffee(l) && QueuedIn(l, queue, Some(cur)) && Levels(l, queue, level)
    requires forall m | 0 <= m < k && m < |nbrs| ::
               Kind(l, nbrs[m]) == Wall || (StateAt(l, nbrs[m]) != NotVisited && DistAt(l, nbrs[m]) <= level + 1)
    ensures Expanding(l, queue, cur, nbrs, k)
  {
  }

  /** In a valid layout, setting the search fields of a placed node changes its own position only. */
  lemma SetSearchPositions(l: Layout, id: NodeId, st: LocationState, prev: Option<NodeId>, d: int)
    requires Valid(l) && Placed(l, id)
    ensures forall p ::
      && StateAt(SetSearch(l, id, st, prev, d), p) == (if p == l.nodes[id].MatrixPosition() then st else StateAt(l, p))
      && DistAt(SetSearch(l, id, st, prev, d), p) == (if p == l.nodes[id].MatrixPosition() then d else DistAt(l, p))
      && Kind(SetSearch(l, id, st, prev, d), p) == Kind(l, p)
  {
    forall p
      ensures StateAt(SetSearch(l, id, st, prev, d), p) == (if p == l.nodes[id].MatrixPosition() then st else StateAt(l, p))
      ensures DistAt(SetSearch(l, id, st, prev, d), p) == (if p == l.nodes[id].MatrixPosition() then d else DistAt(l, p))
      ensures Kind(SetSearch(l, id, st, prev, d), p) == Kind(l, p)
    {
      SetSearchAt(l, id, st, prev, d, p);
    }
  }

  /** Queuing an unreached node leaves the visited positions, and so closure, alone. */
  lemma EnqueueClosed(l: Layout, nb: NodeId, cur: NodeId, d: int)
    requires Valid(l) && Placed(l, nb) && l.nodes[nb].state == NotVisited && Closed(l) && NoVisitedCoffee(l)
    ensures Closed(SetSearch(l, nb, Queued, Some(cur), d)) && NoVisitedCoffee(SetSearch(l, nb, Queued, Some(cur), d))
  {
    SetSearchPositions(l, nb, Queued, Some(cur), d);
  }

  /** The neighbour just queued joins the neighbours already handled. */
  lemma EnqueueDone(l: Layout, cur: NodeId, nbrs: seq<Position>, k: int, nb: NodeId, level: int)
    requires Valid(l) && Placed(l, nb) && l.nodes[nb].state == NotVisited
    requires 0 <= k < |nbrs| && nbrs[k] == l.nodes[nb].MatrixPosition()
    requires forall m | 0 <= m < k && m < |nbrs| ::
               Kind(l, nbrs[m]) == Wall || (StateAt(l, nbrs[m]) != NotVisited && DistAt(l, nbrs[m]) <= level + 1)
    ensures var l2 := SetSearch(l, nb, Queued, Some(cur), level + 1);
      forall m | 0 <= m < k + 1 && m < |nbrs| ::
        Kind(l2, nbrs[m]) == Wall || (StateAt(l2, nbrs[m]) != NotVisited && DistAt(l2, nbrs[m]) <= level + 1)
  {
    SetSearchPositions(l, nb, Queued, Some(cur), level + 1);
  }

  lemma EnqueueTree(l: Layout, cur: NodeId, nb: NodeId, d: int)
    requires Valid(l) && SearchTree(l) && cur < |l.nodes| && Placed(l, nb)
    requires l.nodes[nb].state == NotVisited && l.nodes[nb].locationType != Wall
    requires Adjacent(l.nodes[cur].MatrixPosition(), l.nodes[nb].MatrixPosition())
    ensures SearchTree(SetSearch(l, nb, Queued, Some(cur), d))
  {
    var l2 := SetSearch(l, nb, Queued, Some(cur), d);
    forall i | 0 <= i < |l2.nodes|
      ensures TreeLink(l2, i)
    {
      if i != nb {
        assert l2.nodes[i] == l.nodes[i];
        assert TreeLink(l, i);
      }
    }
  }

  lemma EnqueueQueuedIn(l: Layout, queue: seq<NodeId>, cur: NodeId, nb: NodeId, d: int)
    requires nb < |l.nodes| && QueuedIn(l, queue, Some(cur))
    ensures QueuedIn(SetSearch(l, nb, Queued, Some(cur), d), queue + [nb], Some(cur))
  {
    var l2 := SetSearch(l, nb, Queued, Some(cur), d);
    forall i | 0 <= i < |l2.nodes| && l2.nodes[i].state == Queued
      ensures i in queue + [nb] || Some(cur) == Some(i)
    {
      if i != nb {
        assert l2.nodes[i] == l.nodes[i];
      }
    }
  }

  lemma EnqueueLevels(l: Layout, queue: seq<NodeId>, cur: NodeId, nb: NodeId, level: int)
    requires Levels(l, queue, level) && nb < |l.nodes| && l.nodes[nb].state == NotVisited
    requires forall a | 0 <= a < |queue| :: queue[a] < |l.nodes| && l.nodes[queue[a]].state == Queued
    ensures Levels(SetSearch(l, nb, Queued, Some(cur), level + 1), queue + [nb], level)
  {
    var l2 := SetSearch(l, nb, Queued, Some(cur), level + 1);
    var q2 := queue + [nb];
    assert forall a | 0 <= a < |queue| :: queue[a] != nb && q2[a] == queue[a];
  }

  /** Passing over a wall or an already reached neighbour `ns[k]`. */
  lemma SkipTracked(l: Layout, queue: seq<NodeId>, cur: NodeId, ns: seq<NodeId>, nbrs: seq<Position>, k: int)
    requires Valid(l) && NeighborSlots(l, cur, ns, nbrs) && 0 <= k < |ns| && Expanding(l, queue, cur, nbrs, k)
    requires forall a | 0 <= a < |queue| :: queue[a] < |l.nodes|
    requires l.nodes[ns[k]].state != NotVisited || l.nodes[ns[k]].locationType == Wall
    ensures Expanding(l, queue, cur, nbrs, k + 1)
  {
    var nb := ns[k];
    if l.nodes[nb].state == Queued && nb != cur {
      assert nb in queue;
    }
  }

  /** Marking the fully expanded `cur` visited restores the between-dequeues invariants. */
  lemma Finish(l: Layout, enqueued: seq<NodeId>, queue: seq<NodeId>, cur: NodeId,
               ns: seq<NodeId>, nbrs: seq<Position>)
    requires Valid(l) && Expansion(l, enqueued, queue, cur, ns, nbrs, |ns|)
    ensures var l2 := SetSearch(l, cur, Visited, l.nodes[cur].previousNode, l.nodes[cur].distance);
      && Valid(l2) && SameShape(l, l2) && QueueInv(l2, enqueued, queue)
  {
    var prev := l.nodes[cur].previousNode;
    var d := l.nodes[cur].distance;
    assert SearchConsistent(l.nodes, cur);
    SetSearchValid(l, cur, Visited, prev, d);
    SetSearchSameShape(l, cur, Visited, prev, d);
    QueueInvRevisit(l, enqueued, queue, cur, Visited, prev, d);
  }

  lemma FinishTracked(l: Layout, queue: seq<NodeId>, cur: NodeId, ns: seq<NodeId>, nbrs: seq<Position>)
    requires Valid(l) && NeighborSlots(l, cur, ns, nbrs) && Expanding(l, queue, cur, nbrs, |ns|)
    requires l.nodes[cur].state == Queued && l.nodes[cur].locationType != Coffee && cur !in queue
    requires forall a | 0 <= a < |queue| :: queue[a] < |l.nodes| && l.nodes[queue[a]].state == Queued
    ensures Tracked(SetSearch(l, cur, Visited, l.nodes[cur].previousNode, l.nodes[cur].distance), queue)
  {
    var l2 := SetSearch(l, cur, Visited, l.nodes[cur].previousNode, l.nodes[cur].distance);
    RevisitTree(l, cur, Visited);
    ExpandedNeighbors(l, queue, cur, ns, nbrs);
    assert TreeLink(l, cur);
    FinishClosed(l, cur);
    assert QueuedIn(l2, queue, None);
    if queue != [] {
      FinishLevels(l, queue, cur);
    }
  }

  /** Once all neighbours of `cur` are handled, every passable one is reached, at most one step further. */
  lemma ExpandedNeighbors(l: Layout, queue: seq<NodeId>, cur: NodeId, ns: seq<NodeId>, nbrs: seq<Position>)
    requires Valid(l) && NeighborSlots(l, cur, ns, nbrs) && Expanding(l, queue, cur, nbrs, |ns|)
    ensures forall r | Adjacent(l.nodes[cur].MatrixPosition(), r) && Passable(l, r) ::
              StateAt(l, r) != NotVisited && DistAt(l, r) <= l.nodes[cur].distance + 1
  {
    forall r | Adjacent(l.nodes[cur].MatrixPosition(), r) && Passable(l, r)
      ensures StateAt(l, r) != NotVisited && DistAt(l, r) <= l.nodes[cur].distance + 1
    {
      assert r in nbrs;
      var m :| 0 <= m < |nbrs| && nbrs[m] == r;
    }
  }

  /** Marking a fully expanded, reached node that is no coffee machine visited keeps closure. */
  lemma FinishClosed(l: Layout, cur: NodeId)
    requires Valid(l) && Placed(l, cur) && l.nodes[cur].state != NotVisited && l.nodes[cur].locationType != Coffee
    requires Closed(l) && NoVisitedCoffee(l)
    requires forall r | Adjacent(l.nodes[cur].MatrixPosition(), r) && Passable(l, r) ::
               StateAt(l, r) != NotVisited && DistAt(l, r) <= l.nodes[cur].distance + 1
    ensures var l2 := SetSearch(l, cur, Visited, l.nodes[cur].previousNode, l.nodes[cur].distance);
      Closed(l2) && NoVisitedCoffee(l2)
  {
    SetSearchPositions(l, cur, Visited, l.nodes[cur].previousNode, l.nodes[cur].distance);
  }

  /** The next level starts at the distance of the new queue head, which is no smaller than that of `cur`. */
  lemma FinishLevels(l: Layout, queue: seq<NodeId>, cur: NodeId)
    requires cur < |l.nodes| && cur !in queue && queue != [] && Levels(l, queue, l.nodes[cur].distance)
    requires forall a | 0 <= a < |queue| :: queue[a] < |l.nodes|
    ensures var l2 := SetSearch(l, cur, Visited, l.nodes[cur].previousNode, l.nodes[cur].distance);
      Levels(l2, queue, l2.nodes[queue[0]].distance)
  {
    var l2 := SetSearch(l, cur, Visited, l.nodes[cur].previousNode, l.nodes[cur].distance);
    assert forall a | 0 <= a < |queue| :: l2.nodes[queue[a]] == l.nodes[queue[a]];
  }

  /** Changing only the state of a reached node keeps the search tree. */
  lemma RevisitTree(l: Layout, id: NodeId, st: LocationState)
    requires SearchTree(l) && id < |l.nodes| && l.nodes[id].state != NotVisited && st != NotVisited
    ensures SearchTree(SetSearch(l, id, st, l.nodes[id].previousNode, l.nodes[id].distance))
  {
    var l2 := SetSearch(l, id, st, l.nodes[id].previousNode, l.nodes[id].distance);
    forall i | 0 <= i < |l2.nodes|
      ensures TreeLink(l2, i)
    {
      assert TreeLink(l, i);
    }
  }

  // ---------------------------------------------------------------- why the answer is right

  /**
   * When every reached position closer than `bound` is visited, a walk of at most `bound`
   * steps ends at a reached position no further than its number of steps.
   */
  lemma {:induction false} WalkReach(l: Layout, w: seq<Position>, bound: int)
    requires IsWalk(l, w) && |w| - 1 <= bound
    requires StateAt(l, OriginPosition(l)) != NotVisited && DistAt(l, OriginPosition(l)) == 0
    requires Closed(l)
    requires forall p | StateAt(l, p) != NotVisited && DistAt(l, p) < bound :: StateAt(l, p) == Visited
    ensures StateAt(l, w[|w| - 1]) != NotVisited && DistAt(l, w[|w| - 1]) <= |w| - 1
    decreases |w|
  {
    if |w| >= 2 {
      WalkPrefix(l, w);
      WalkReach(l, w[..|w| - 1], bound);
    }
  }

  /** The walk from the origin along the predecessor links to reached node `i`. */
  ghost function ChainWalk(l: Layout, i: NodeId): (w: seq<Position>)
    requires Valid(l) && SearchTree(l) && i < |l.nodes| && l.nodes[i].state != NotVisited
    ensures |w| == l.nodes[i].distance + 1
    ensures IsWalk(l, w) && w[|w| - 1] == l.nodes[i].MatrixPosition()
    decreases l.nodes[i].distance
  {
    assert SearchConsistent(l.nodes, i) && TreeLink(l, i);
    match l.nodes[i].previousNode
    case None => [l.nodes[i].MatrixPosition()]
    case Some(j) => ChainWalk(l, j) + [l.nodes[i].MatrixPosition()]
  }

  /** The nodes RetracePath lists are those of the chain walk, last step first. */
  lemma {:induction false} RetraceChain(l: Layout, i: NodeId)
    requires Valid(l) && SearchTree(l) && i < |l.nodes| && l.nodes[i].state != NotVisited
    ensures Reverse(PositionsOf(l, RetracePath(l, i))) == ChainWalk(l, i)
    decreases l.nodes[i].distance
  {
    assert SearchConsistent(l.nodes, i);
    var path := RetracePath(l, i);
    assert TreeLink(l, i);
    assert path[0] == Some(i);
    var here := l.nodes[i].MatrixPosition();
    match l.nodes[i].previousNode {
      case None =>
        assert PositionsOf(l, path) == [here];
      case Some(j) =>
        RetraceChain(l, j);
        var rest := RetracePath(l, j);
        assert path == [Some(i)] + rest;
        PositionsOfCons(l, Some(i), rest);
        ReverseCons(here, PositionsOf(l, rest));
    }
  }

  lemma PositionsOfCons(l: Layout, x: Option<NodeId>, rest: seq<Option<NodeId>>)
    requires x.Some? && x.value < |l.nodes|
    ensures PositionsOf(l, [x] + rest) == [l.nodes[x.value].MatrixPosition()] + PositionsOf(l, rest)
  {
    var a := PositionsOf(l, [x] + rest);
    var b := [l.nodes[x.value].MatrixPosition()] + PositionsOf(l, rest);
    forall k | 0 <= k < |a|
      ensures a[k] == b[k]
    {
      if k > 0 {
        assert ([x] + rest)[k] == rest[k - 1];
      }
    }
  }

  lemma ReverseCons<T>(y: T, s: seq<T>)
    ensures Reverse([y] + s) == Reverse(s) + [y]
  {
    assert ([y] + s)[1..] == s;
  }

  /** A search leaves the walks of a layout as they were. */
  lemma SameShapeWalks(layout: Layout, l: Layout, w: seq<Position>)
    requires SameShape(layout, l) && layout.origin < |layout.nodes|
    ensures IsWalk(l, w) <==> IsWalk(layout, w)
    ensures CoffeeWalk(l, w) <==> CoffeeWalk(layout, w)
  {
    assert l.nodes[l.origin].Identity() == layout.nodes[layout.origin].Identity();
    SameWalks(l, layout, w);
  }

  /** The chain walk to a reached coffee machine is a coffee walk of the original layout. */
  lemma ChainCoffee(layout: Layout, l: Layout, cur: NodeId)
    requires Valid(l) && SameShape(layout, l) && layout.origin < |layout.nodes| && SearchTree(l)
    requires cur < |l.nodes| && l.nodes[cur].state != NotVisited && l.nodes[cur].locationType == Coffee
    ensures CoffeeWalk(layout, ChainWalk(l, cur))
  {
    var w := ChainWalk(l, cur);
    assert TreeLink(l, cur);
    assert Kind(l, w[|w| - 1]) == Coffee;
    SameShapeWalks(layout, l, w);
  }

  /** While `queue[0]` is at the front, a walk shorter than its distance ends at a visited position. */
  lemma ShorterWalkVisited(l: Layout, queue: seq<NodeId>, v: seq<Position>)
    requires Valid(l) && queue != [] && queue[0] < |l.nodes| && Tracked(l, queue)
    requires forall a | 0 <= a < |queue| :: queue[a] < |l.nodes|
    requires IsWalk(l, v) && |v| - 1 < l.nodes[queue[0]].distance
    ensures StateAt(l, v[|v| - 1]) == Visited
  {
    var d := l.nodes[queue[0]].distance;
    forall p | StateAt(l, p) != NotVisited && DistAt(l, p) < d
      ensures StateAt(l, p) == Visited
    {
    }
    assert Placed(l, l.origin);
    WalkReach(l, v, d);
  }

  /** A coffee machine dequeued at distance d: no coffee walk is shorter, the chain walk has d steps. */
  lemma FoundCoffee(layout: Layout, l: Layout, queue: seq<NodeId>)
    requires Valid(l) && SameShape(layout, l) && layout.origin < |layout.nodes| && queue != [] && queue[0] < |l.nodes|
    requires forall a | 0 <= a < |queue| :: queue[a] < |l.nodes|
    requires l.nodes[queue[0]].state == Queued && l.nodes[queue[0]].locationType == Coffee
    requires Tracked(l, queue)
    ensures NearestCoffee(layout, l.nodes[queue[0]].distance)
    ensures CoffeeWalk(layout, Reverse(PositionsOf(l, RetracePath(l, queue[0]))))
  {
    var cur := queue[0];
    var d := l.nodes[cur].distance;
    assert SearchConsistent(l.nodes, cur);
    ChainCoffee(layout, l, cur);
    RetraceChain(l, cur);
    forall v | CoffeeWalk(layout, v)
      ensures d + 1 <= |v|
    {
      SameShapeWalks(layout, l, v);
      if |v| - 1 < d {
        ShorterWalkVisited(l, queue, v);
      }
    }
  }

  /** An empty queue: every walk ends at a visited position, none at a coffee machine. */
  lemma Exhausted(layout: Layout, l: Layout)
    requires Valid(l) && SameShape(layout, l) && Tracked(l, [])
    ensures NearestCoffee(layout, PathError)
  {
    forall v | CoffeeWalk(layout, v)
      ensures false
    {
      SameWalks(l, layout, v);
      WalkReach(l, v, |v|);
    }
  }

  // ---------------------------------------------------------------- loop steps

  /** Queuing the unreached, non-wall neighbour `ns[k]` of `cur` keeps VisitNeighbors' invariant. */
  lemma VisitEnqueue(l0: Layout, l: Layout, enqueued: seq<NodeId>, queue: seq<NodeId>, cur: NodeId,
                     ns: seq<NodeId>, nbrs: seq<Position>, k: int, track: bool)
    requires Visiting(l0, l, enqueued, queue, cur, ns, nbrs, k, track) == true && k < |ns|
    requires l.nodes[ns[k]].state == NotVisited && l.nodes[ns[k]].locationType != Wall
    ensures var l2 := SetSearch(l, ns[k], Queued, Some(cur), l.nodes[cur].distance + 1);
      Visiting(l0, l2, enqueued + [ns[k]], queue + [ns[k]], cur, ns, nbrs, k + 1, track)
  {
    Enqueue(l, enqueued, queue, cur, ns, nbrs, k);
    if track {
      EnqueueTracked(l, queue, cur, nbrs, k, ns[k]);
    }
    SameShapeTransitive(l0, l, SetSearch(l, ns[k], Queued, Some(cur), l.nodes[cur].distance + 1));
  }

  /** Passing over a wall or an already reached neighbour keeps VisitNeighbors' invariant. */
  lemma VisitSkip(l0: Layout, l: Layout, enqueued: seq<NodeId>, queue: seq<NodeId>, cur: NodeId,
                  ns: seq<NodeId>, nbrs: seq<Position>, k: int, track: bool)
    requires Visiting(l0, l, enqueued, queue, cur, ns, nbrs, k, track) == true && k < |ns|
    requires l.nodes[ns[k]].state != NotVisited || l.nodes[ns[k]].locationType == Wall
    ensures Visiting(l0, l, enqueued, queue, cur, ns, nbrs, k + 1, track)
  {
    if track {
      SkipTracked(l, queue, cur, ns, nbrs, k);
    }
  }

  /** Dequeuing a node that is no coffee machine and creating its neighbours starts VisitNeighbors. */
  lemma SearchDequeue(layout: Layout, l: Layout, enqueued: seq<NodeId>, queue: seq<NodeId>, track: bool)
    requires Searching(layout, l, enqueued, queue, track) == true && queue != []
    requires l.nodes[queue[0]].locationType != Coffee
    ensures var cur := queue[0];
      var (l2, ns) := GetNeighbors(l, cur);
      && SameShape(layout, l2)
      && Visiting(l2, l2, enqueued, queue[1..], cur, ns, InBoundsNeighbors(l, l.nodes[cur].MatrixPosition()), 0, track)
  {
    Dequeue(l, enqueued, queue);
    if track {
      DequeueTracked(l, enqueued, queue);
    }
    SameShapeTransitive(layout, l, GetNeighbors(l, queue[0]).0);
  }

  /** Marking the expanded `cur` visited restores FindCoffeeDistance's invariant. */
  lemma SearchFinish(layout: Layout, l0: Layout, l: Layout, enqueued: seq<NodeId>, queue: seq<NodeId>,
                     cur: NodeId, ns: seq<NodeId>, nbrs: seq<Position>, track: bool)
    requires SameShape(layout, l0) && Visiting(l0, l, enqueued, queue, cur, ns, nbrs, |ns|, track) == true
    ensures var l2 := SetSearch(l, cur, Visited, l.nodes[cur].previousNode, l.nodes[cur].distance);
      Searching(layout, l2, enqueued, queue, track)
  {
    var l2 := SetSearch(l, cur, Visited, l.nodes[cur].previousNode, l.nodes[cur].distance);
    Finish(l, enqueued, queue, cur, ns, nbrs);
    if track {
      QueueInvRevisit(l, enqueued, queue, cur, Visited, l.nodes[cur].previousNode, l.nodes[cur].distance);
      FinishTracked(l, queue, cur, ns, nbrs);
    }
    SameShapeTransitive(layout, l0, l);
    SameShapeTransitive(layout, l, l2);
    EnqueuedBound(l2, enqueued, queue);
  }

  /** A coffee machine at the front of the queue: its distance and retraced path are the answer. */
  lemma SearchFound(layout: Layout, l: Layout, enqueued: seq<NodeId>, queue: seq<NodeId>, track: bool)
    requires Searching(layout, l, enqueued, queue, track) == true && queue != []
    requires l.nodes[queue[0]].locationType == Coffee
    requires track ==> Fresh(layout) && OriginPlaced(layout)
    ensures Valid(l) && SameShape(layout, l) && QueueInv(l, enqueued, [])
    ensures l.nodes[queue[0]].state != NotVisited && l.nodes[queue[0]].distance >= 0
    ensures track ==>
              && NearestCoffee(layout, l.nodes[queue[0]].distance)
              && CoffeeWalk(layout, Reverse(PositionsOf(l, RetracePath(l, queue[0]))))
  {
    assert SearchConsistent(l.nodes, queue[0]);
    if track {
      FoundCoffee(layout, l, queue);
    }
  }

  /** An empty queue: the search ends with no coffee machine reachable. */
  lemma SearchExhausted(layout: Layout, l: Layout, enqueued: seq<NodeId>, track: bool)
    requires Searching(layout, l, enqueued, [], track) == true
    ensures Valid(l) && SameShape(layout, l) && QueueInv(l, enqueued, [])
    ensures track ==> NearestCoffee(layout, PathError)
  {
    if track {
      Exhausted(layout, l);
    }
  }

  // ---------------------------------------------------------------- the search

  /**
   * The loop of FindCoffeeDistance over the neighbours `ns` of the dequeued node `cur`:
   * each neighbour that is neither reached nor a wall is marked Queued, linked back to
   * `cur` one step further away, and appended to the queue.
   *
   * The two methods state their invariants as equations `Visiting(..) == true` and
   * `Searching(..) == true`: an equation is one proof obligation, discharged by the step
   * lemmas above, where a bare predicate would be unfolded into one obligation per conjunct.
   */
  method VisitNeighbors(l0: Layout, queue0: seq<NodeId>, cur: NodeId, ns: seq<NodeId>,
                        ghost enqueued0: seq<NodeId>, ghost nbrs: seq<Position>, ghost track: bool)
    returns (l: Layout, queue: seq<NodeId>, ghost enqueued: seq<NodeId>)
    requires Visiting(l0, l0, enqueued0, queue0, cur, ns, nbrs, 0, track) == true
    ensures Visiting(l0, l, enqueued, queue, cur, ns, nbrs, |ns|, track) == true
    ensures |queue0| <= |queue| && |enqueued| - |queue| == |enqueued0| - |queue0|
  {
    l, queue, enqueued := l0, queue0, enqueued0;
    var k := 0;
    while k < |ns|
      invariant k <= |ns|
      invariant Visiting(l0, l, enqueued, queue, cur, ns, nbrs, k, track) == true
      invariant |queue0| <= |queue| && |enqueued| - |queue| == |enqueued0| - |queue0|
    {
      l, queue, enqueued := VisitNeighbor(l0, l, queue, cur, ns, k, enqueued, nbrs, track);
      k := k + 1;
    }
    assert k == |ns|;
  }

  /** One round of VisitNeighbors' loop: the neighbour `ns[k]` of `cur`. */
  method VisitNeighbor(ghost l0: Layout, l: Layout, queue: seq<NodeId>, cur: NodeId, ns: seq<NodeId>, k: int,
                       ghost enqueued: seq<NodeId>, ghost nbrs: seq<Position>, ghost track: bool)
    returns (l2: Layout, queue2: seq<NodeId>, ghost enqueued2: seq<NodeId>)
    requires Visiting(l0, l, enqueued, queue, cur, ns, nbrs, k, track) == true && k < |ns|
    ensures Visiting(l0, l2, enqueued2, queue2, cur, ns, nbrs, k + 1, track) == true
    ensures |queue| <= |queue2| && |enqueued2| - |queue2| == |enqueued| - |queue|
  {
    var neighbor := ns[k];
    if l.nodes[neighbor].state == NotVisited && l.nodes[neighbor].locationType != Wall {
      VisitEnqueue(l0, l, enqueued, queue, cur, ns, nbrs, k, track);
      l2 := SetSearch(l, neighbor, Queued, Some(cur), l.nodes[cur].distance + 1);
      queue2 := queue + [neighbor];
      enqueued2 := enqueued + [neighbor];
    } else {
      VisitSkip(l0, l, enqueued, queue, cur, ns, nbrs, k, track);
      l2, queue2, enqueued2 := l, queue, enqueued;
    }
  }

  /**
   * OfficeLayout.FindCoffeeDistance. Returns the distance of the first coffee machine
   * dequeued (PathError when the queue runs dry), the layout the search leaves behind, and
   * RetracePath of that coffee machine (empty when there is none); `enqueued` lists the
   * nodes in the order they were queued.
   */
  method FindCoffeeDistance(layout: Layout)
    returns (distance: int, final: Layout, walkedPath: seq<Option<NodeId>>, ghost enqueued: seq<NodeId>)
    requires Valid(layout)
    ensures Valid(final) && SameShape(layout, final)
    ensures distance == PathError || distance >= 0
    ensures distance == PathError ==> walkedPath == []
    ensures distance != PathError ==>
              && |walkedPath| == distance + 1
              && forall k | 0 <= k < |walkedPath| :: walkedPath[k].Some? && walkedPath[k].value < |final.nodes|
    ensures QueueInv(final, enqueued, [])
    ensures Fresh(layout) && OriginPlaced(layout) ==> NearestCoffee(layout, distance)
    ensures Fresh(layout) && OriginPlaced(layout) && distance != PathError ==>
              CoffeeWalk(layout, Reverse(PositionsOf(final, walkedPath)))
  {
    ghost var track := Fresh(layout) && OriginPlaced(layout);
    Start(layout, track);
    var l := SetSearch(layout, layout.origin, Queued, None, 0);
    var queue := [layout.origin];
    enqueued := [layout.origin];
    while queue != []
      invariant Searching(layout, l, enqueued, queue, track) == true
      decreases layout.rows * layout.columns + 1 - |enqueued|, |queue|
    {
      var cur := queue[0];
      if IsCoffeeMachine(l, Some(cur)) {
        SearchFound(layout, l, enqueued, queue, track);
        walkedPath := RetracePath(l, cur);
        return l.nodes[cur].distance, l, walkedPath, enqueued;
      }
      SearchDequeue(layout, l, enqueued, queue, track);
      ghost var nbrs := InBoundsNeighbors(l, l.nodes[cur].MatrixPosition());
      var (l2, ns) := GetNeighbors(l, cur);
      queue := queue[1..];
      l, queue, enqueued := VisitNeighbors(l2, queue, cur, ns, enqueued, nbrs, track);
      SearchFinish(layout, l2, l, enqueued, queue, cur, ns, nbrs, track);
      l := SetSearch(l, cur, Visited, l.nodes[cur].previousNode, l.nodes[cur].distance);
    }
    SearchExhausted(layout, l, enqueued, track);
    return PathError, l, [], enqueued;
  }
}
