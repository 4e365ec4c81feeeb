/**
 * The grid graph: bounds, navigability, 8-direction neighbour enumeration and
 * the ray scan for the nearest navigable cell (Assets/Scripts/Base/GridGraph.cs).
 */
module Grid {
  import opened Wrappers
  import opened Utils
  import opened PathingNodes

  /** Which class the graph object is: `GridGraph` or its subclass `JPSGridGraph`. */
  datatype GraphKind = Plain | Jps

  /** The eight neighbour offsets in enumeration order: W, E, N, S, then the diagonals. */
  const Directions: seq<Loc> :=
    [Loc(-1, 0), Loc(1, 0), Loc(0, 1), Loc(0, -1),
     Loc(-1, -1), Loc(-1, 1), Loc(1, -1), Loc(1, 1)]

  /**
   * A grid graph. `nodes` is the graph's node array: one `PathingNode` per
   * in-bounds cell, holding the search state, which no search ever clears.
   * `startNodes` are the nodes that searches created outside the array (their
   * start nodes); graph nodes and open sets may refer to them.
   */
  datatype GridGraph = GridGraph(
    kind: GraphKind,
    navigable: Bitmap,
    nodes: map<Loc, PathingNode>,
    startNodes: seq<PathingNode>)

  /** `_boundsMaxX`: `GetUpperBound(0)` of the bitmap. */
  function BoundsMaxX(g: GridGraph): int {
    g.navigable.width - 1
  }

  /** `_boundsMaxY`: `GetUpperBound(1)` of the bitmap. */
  function BoundsMaxY(g: GridGraph): int {
    g.navigable.height - 1
  }

  /** `GridGraph.InBounds`. */
  predicate InBounds(g: GridGraph, x: int, y: int) {
    0 <= x && x <= BoundsMaxX(g) && 0 <= y && y <= BoundsMaxY(g)
  }

  /** `GridGraph.IsNavigable`: in bounds and the bitmap byte is 0. */
  predicate IsNavigable(g: GridGraph, x: int, y: int) {
    InBounds(g, x, y) && g.navigable.cells[x][y] == 0
  }

  predicate Navigable(g: GridGraph, l: Loc) {
    IsNavigable(g, l.x, l.y)
  }

  /** The node array covers exactly the in-bounds cells, each node at its own cell. */
  predicate ValidGraph(g: GridGraph) {
    && g.nodes.Keys == CellSet(g.navigable)
    && (forall l | l in g.nodes :: g.nodes[l].location == l)
  }

  /** The cells of a bitmap. */
  function CellSet(b: Bitmap): (s: set<Loc>)
    ensures forall l: Loc :: l in s <==> 0 <= l.x < b.width && 0 <= l.y < b.height
  {
    var s := set x, y | 0 <= x < b.width && 0 <= y < b.height :: Loc(x, y);
    assert forall l: Loc :: 0 <= l.x < b.width && 0 <= l.y < b.height ==> l in s by {
      forall l: Loc | 0 <= l.x < b.width && 0 <= l.y < b.height
        ensures l in s
      {
        assert l == Loc(l.x, l.y);
      }
    }
    s
  }

  /**
   * The `GridGraph(byte[,])` constructor (and `JPSGridGraph`'s, which only
   * calls it): a fresh node at every in-bounds cell.
   */
  function NewGridGraph(kind: GraphKind, navigable: Bitmap): (g: GridGraph)
    ensures ValidGraph(g)
    ensures g.kind == kind && g.navigable == navigable && g.startNodes == []
    ensures forall l :: l in g.nodes <==> 0 <= l.x < navigable.width && 0 <= l.y < navigable.height
    ensures forall l :: l in g.nodes ==> g.nodes[l] == NewNodeAt(l)
  {
    GridGraph(kind, navigable, map l | l in CellSet(navigable) :: NewNodeAt(l), [])
  }

  /** A navigable cell has a node in the graph's node array. */
  lemma NavigableHasNode(g: GridGraph, l: Loc)
    requires ValidGraph(g) && Navigable(g, l)
    ensures l in g.nodes && g.nodes[l].location == l
  {
  }

  /** In a valid graph, the node array holds exactly the in-bounds cells. */
  lemma NodesAreInBoundsCells(g: GridGraph, l: Loc)
    requires ValidGraph(g)
    ensures l in g.nodes <==> InBounds(g, l.x, l.y)
  {
  }

  /** The sentinel is out of bounds of every graph, so it is never navigable. */
  lemma InvalidGridNotNavigable(g: GridGraph)
    ensures !InBounds(g, InvalidGrid.x, InvalidGrid.y)
    ensures !Navigable(g, InvalidGrid)
  {
  }

  // ---------------------------------------------------------------------------
  // Neighbour enumeration

  /** `p` moved by `d`. */
  function Move(p: Loc, d: Loc): Loc {
    Loc(p.x + d.x, p.y + d.y)
  }

  /** The offset from `p` to `q`. */
  function Offset(p: Loc, q: Loc): Loc {
    Loc(q.x - p.x, q.y - p.y)
  }

  /** The position of `d` in `Directions`, or 8 when it is not one of them. */
  function DirectionIndex(d: Loc): (i: nat)
    ensures i <= 8
    ensures i < 8 ==> Directions[i] == d
    ensures i == 8 ==> d !in Directions
  {
    if d == Directions[0] then 0
    else if d == Directions[1] then 1
    else if d == Directions[2] then 2
    else if d == Directions[3] then 3
    else if d == Directions[4] then 4
    else if d == Directions[5] then 5
    else if d == Directions[6] then 6
    else if d == Directions[7] then 7
    else 8
  }

  /** The eight offsets are distinct unit steps: each is at Chebyshev distance 1. */
  lemma DirectionsAreUnitSteps(i: nat)
    requires i < 8
    ensures DirectionIndex(Directions[i]) == i
    ensures Abs(Directions[i].x) <= 1 && Abs(Directions[i].y) <= 1 && Directions[i] != Loc(0, 0)
  {
  }

  /** The navigable cells among the offsets `Directions[i..]` from `p`, in order. */
  function NeighboursFrom(g: GridGraph, p: Loc, i: nat): (r: seq<Loc>)
    requires i <= 8
    ensures forall k :: 0 <= k < |r| ==>
              Navigable(g, r[k]) && i <= DirectionIndex(Offset(p, r[k])) < 8
    ensures forall a, b :: 0 <= a < b < |r| ==>
              DirectionIndex(Offset(p, r[a])) < DirectionIndex(Offset(p, r[b]))
    ensures forall j :: i <= j < 8 && Navigable(g, Move(p, Directions[j])) ==>
              Move(p, Directions[j]) in r
    decreases 8 - i
  {
    if i == 8 then []
    else
      var q := Move(p, Directions[i]);
      DirectionsAreUnitSteps(i);
      assert Offset(p, q) == Directions[i];
      if Navigable(g, q) then [q] + NeighboursFrom(g, p, i + 1) else NeighboursFrom(g, p, i + 1)
  }

  /**
   * `GridGraph.Neighbours`: the navigable cells among the eight offsets, in
   * `Directions` order and each once. No corner-cutting test is applied.
   */
  function Neighbours(g: GridGraph, p: Loc): (r: seq<Loc>)
    ensures |r| <= 8
    ensures forall q :: q in r <==> Navigable(g, q) && DirectionIndex(Offset(p, q)) < 8
    ensures forall a, b :: 0 <= a < b < |r| ==>
              DirectionIndex(Offset(p, r[a])) < DirectionIndex(Offset(p, r[b]))
  {
    var r := NeighboursFrom(g, p, 0);
    assert forall q :: Navigable(g, q) && DirectionIndex(Offset(p, q)) < 8 ==> q in r by {
      forall q | Navigable(g, q) && DirectionIndex(Offset(p, q)) < 8
        ensures q in r
      {
        var j := DirectionIndex(Offset(p, q));
        assert Move(p, Directions[j]) == q;
      }
    }
    NeighboursAtMostEight(p, r);
    r
  }

  /** A sequence whose elements have strictly increasing direction indices below 8 has at most 8 elements. */
  lemma {:induction false} NeighboursAtMostEight(p: Loc, r: seq<Loc>)
    requires forall k :: 0 <= k < |r| ==> DirectionIndex(Offset(p, r[k])) < 8
    requires forall a, b :: 0 <= a < b < |r| ==>
               DirectionIndex(Offset(p, r[a])) < DirectionIndex(Offset(p, r[b]))
    ensures |r| <= 8
  {
    if |r| > 8 {
      IncreasingIndices(p, r, 8);
      assert false;
    }
  }

  lemma {:induction false} IncreasingIndices(p: Loc, r: seq<Loc>, k: nat)
    requires k < |r|
    requires forall a, b :: 0 <= a < b < |r| ==>
               DirectionIndex(Offset(p, r[a])) < DirectionIndex(Offset(p, r[b]))
    ensures DirectionIndex(Offset(p, r[k])) >= k
  {
    if k > 0 {
      IncreasingIndices(p, r, k - 1);
    }
  }

  /** Every cell `Neighbours` yields is a navigable cell at Chebyshev distance 1. */
  lemma NeighboursAreAdjacent(g: GridGraph, p: Loc, q: Loc)
    requires q in Neighbours(g, p)
    ensures Navigable(g, q) && Chebyshev(p, q) == 1
  {
    var i := DirectionIndex(Offset(p, q));
    DirectionsAreUnitSteps(i);
  }

  /**
   * No corner-cutting test: in a 2-by-2 grid whose two off-diagonal cells
   * are blocked, the diagonal cell is still a neighbour of the corner.
   */
  lemma NeighboursCutCorners()
    ensures var g := NewGridGraph(Plain, Array2D(2, 2, [[0, 1], [1, 0]]));
            Neighbours(g, Loc(0, 0)) == [Loc(1, 1)]
  {
    DiagonalBetweenWalls(NewGridGraph(Plain, Array2D(2, 2, [[0, 1], [1, 0]])));
  }

  /** Any graph over the two-by-two bitmap whose only navigable cells are `(0, 0)` and `(1, 1)`. */
  lemma DiagonalBetweenWalls(g: GridGraph)
    requires g.navigable == Array2D(2, 2, [[0, 1], [1, 0]])
    ensures Neighbours(g, Loc(0, 0)) == [Loc(1, 1)]
  {
    var p := Loc(0, 0);
    assert NeighboursFrom(g, p, 8) == [];
    assert NeighboursFrom(g, p, 7) == [Loc(1, 1)];
    assert NeighboursFrom(g, p, 6) == [Loc(1, 1)];
    assert NeighboursFrom(g, p, 5) == [Loc(1, 1)];
    assert NeighboursFrom(g, p, 4) == [Loc(1, 1)];
    assert NeighboursFrom(g, p, 3) == [Loc(1, 1)];
    assert NeighboursFrom(g, p, 2) == [Loc(1, 1)];
    assert NeighboursFrom(g, p, 1) == [Loc(1, 1)];
    assert NeighboursFrom(g, p, 0) == [Loc(1, 1)];
  }

  // ---------------------------------------------------------------------------
  // Nearest navigable cell

  /** The default `findRadius` of `GetNearestNavigablePos`. */
  const DefaultFindRadius := 10

  /** The cell `radius` steps from `p` along `Directions[i]`. */
  function RayCell(p: Loc, radius: int, i: nat): Loc
    requires i < 8
  {
    Loc(p.x + radius * Directions[i].x, p.y + radius * Directions[i].y)
  }

  /** Scan order: radius ascending, then direction index ascending. */
  predicate Before(radius: int, i: int, radius': int, i': int) {
    radius < radius' || (radius == radius' && i < i')
  }

  /**
   * The scan loop of `GetNearestNavigablePos` from position `(radius, i)`:
   * the first `(radius, direction)` in scan order, up to `findRadius`, whose
   * ray cell is navigable.
   */
  function ScanFrom(g: GridGraph, p: Loc, radius: int, i: nat, findRadius: int): (r: Option<(int, nat)>)
    requires 1 <= radius && i <= 8
    ensures r.Some? ==>
              var (rad, d) := r.value;
              && radius <= rad <= findRadius && d < 8 && !Before(rad, d, radius, i)
              && Navigable(g, RayCell(p, rad, d))
              && forall rad', d' ::
                   (1 <= rad' && 0 <= d' < 8 && !Before(rad', d', radius, i) && Before(rad', d', rad, d)) ==>
                     !Navigable(g, RayCell(p, rad', d'))
    ensures r.None? ==>
              forall rad', d' :: rad' <= findRadius && 0 <= d' < 8 && !Before(rad', d', radius, i) ==>
                !Navigable(g, RayCell(p, rad', d'))
    decreases findRadius - radius + 1, 8 - i
  {
    if radius > findRadius then None
    else if i == 8 then ScanFrom(g, p, radius + 1, 0, findRadius)
    else if Navigable(g, RayCell(p, radius, i)) then Some((radius, i))
    else ScanFrom(g, p, radius, i + 1, findRadius)
  }

  /**
   * `GridGraph.GetNearestNavigablePos`: the first navigable cell in scan
   * order on the eight rays from `p` at radius 1 to `findRadius`, or
   * `InvalidGrid` when there is none. `p` itself is never the answer.
   */
  function GetNearestNavigablePos(g: GridGraph, p: Loc, findRadius: int): (r: Loc)
    ensures r == InvalidGrid <==>
              forall rad, d :: 1 <= rad <= findRadius && 0 <= d < 8 ==> !Navigable(g, RayCell(p, rad, d))
    ensures r != InvalidGrid ==>
              && Navigable(g, r) && r != p
              && exists rad, d :: 1 <= rad <= findRadius && 0 <= d < 8 && r == RayCell(p, rad, d) &&
                   (forall rad', d' :: 1 <= rad' && 0 <= d' < 8 && Before(rad', d', rad, d) ==>
                      !Navigable(g, RayCell(p, rad', d')))
  {
    InvalidGridNotNavigable(g);
    match ScanFrom(g, p, 1, 0, findRadius)
    case None => InvalidGrid
    case Some((rad, d)) =>
      RayCellMoves(p, rad, d);
      RayCell(p, rad, d)
  }

  /** A ray cell at radius `radius` is exactly `radius` king moves from the origin. */
  lemma RayCellDistance(p: Loc, radius: int, i: nat)
    requires i < 8 && 1 <= radius
    ensures Chebyshev(p, RayCell(p, radius, i)) == radius
  {
    assert Directions[i] in Directions;
  }

  /** A cell the scan finds is between 1 and `findRadius` king moves from `p`. */
  lemma NearestWithinRadius(g: GridGraph, p: Loc, findRadius: int)
    ensures var r := GetNearestNavigablePos(g, p, findRadius);
            r != InvalidGrid ==> 1 <= Chebyshev(p, r) <= findRadius
  {
    var r := GetNearestNavigablePos(g, p, findRadius);
    if r != InvalidGrid {
      var rad, d :| 1 <= rad <= findRadius && 0 <= d < 8 && r == RayCell(p, rad, d);
      RayCellDistance(p, rad, d);
    }
  }

  /** With the default `findRadius`, a found cell is at most 10 king moves away. */
  lemma NearestWithinDefaultRadius(g: GridGraph, p: Loc)
    ensures var r := GetNearestNavigablePos(g, p, DefaultFindRadius);
            r != InvalidGrid ==> 1 <= Chebyshev(p, r) <= 10
  {
    NearestWithinRadius(g, p, DefaultFindRadius);
  }

  /** A ray cell at a positive radius is not the origin. */
  lemma RayCellMoves(p: Loc, radius: int, i: nat)
    requires i < 8 && 1 <= radius
    ensures RayCell(p, radius, i) != p
  {
  }
}
