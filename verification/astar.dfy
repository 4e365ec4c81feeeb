/**
 * `AtarPathfinder` (Assets/Scripts/AStar/AStarPathfinder.cs): a graph and an
 * open queue set up by `Initialize`, and a `FindPath` that runs the shared
 * best-first search over the graph's neighbours. The callback log is the
 * record of `OnNodeAddOpenSet` / `OnNodeVisited` invocations since the last
 * `Initialize`.
 */
module AStar {
  import opened Wrappers
  import opened Utils
  import opened Grid
  import opened Paths
  import opened Pathfinder
  import opened Search

  /** The base-class state and, once `Initialize` has run, the graph, open queue and log. */
  datatype AStarFinder = AStarFinder(base: Base, search: Option<SearchState>)

  /** A finder nobody has initialised: `_graph` is null. */
  function NewFinder(settings: Settings): (f: AStarFinder)
    ensures f.search.None? && f.base.settings == settings
    ensures f.base.pathResult.None?
  {
    AStarFinder(Base(settings, None, None), None)
  }

  /** What every reachable finder keeps: when initialised, its records, queue and log agree. */
  ghost predicate Valid(f: AStarFinder) {
    f.search.Some? ==> Consistent(AStarSearch, f.search.value)
  }

  /**
   * `Initialize`: keep the graph, start an empty queue. The capacity
   * `maxSearchNodes` only sizes the queue.
   */
  function Initialize(f: AStarFinder, graph: GridGraph, maxSearchNodes: int): (f': AStarFinder)
    ensures f'.base == f.base
    ensures f'.search.Some? && f'.search.value.graph == graph
    ensures f'.search.value.open == map[] && f'.search.value.events == []
  {
    AStarFinder(f.base, Some(SearchState(graph, map[], [])))
  }

  /** Initialising with a graph no search has touched gives a valid finder. */
  lemma InitializeValid(f: AStarFinder, graph: GridGraph, maxSearchNodes: int)
    requires Untouched(graph)
    ensures Valid(Initialize(f, graph, maxSearchNodes))
  {
    UntouchedConsistent(AStarSearch, graph);
  }

  /**
   * `FindPath`: with no graph, no path and nothing changes; otherwise the
   * search from a fresh start node, which returns the goal node's trace or
   * nothing once the queue is empty. `Begin` is not called, so `pathResult`
   * and the heuristic setting are left as they were: the search always uses
   * the octile distance.
   */
  method FindPath(f: AStarFinder, start: Loc, goal: Loc) returns (f': AStarFinder, path: Option<Path>)
    requires Valid(f)
    ensures Valid(f') && f'.base == f.base
    ensures f.search.None? ==> f' == f && path.None?
    ensures f.search.Some? ==> f'.search.Some? && Started(AStarSearch, f.search.value, f'.search.value, start)
    ensures f.search.Some? && path.None? ==>
              f'.search.value.open == map[] && GoalNotVisited(f'.search.value, |f.search.value.events|, 0, goal)
    ensures f.search.Some? && path.Some? ==> Found(AStarSearch, f.search.value, f'.search.value, start, goal, path.value)
  {
    if f.search.None? {
      return f, None;
    }
    var s', p := Run(AStarSearch, f.search.value, start, goal);
    f' := f.(search := Some(s'));
    path := p;
  }

  /** One step of a walk over the grid: to one of the eight neighbouring cells, which is navigable. */
  predicate KingMove(g: GridGraph, a: Loc, b: Loc) {
    Chebyshev(a, b) == 1 && Navigable(g, b)
  }

  /**
   * On a graph built fresh for one search, a path A* returns runs from the
   * start to the goal by king moves onto navigable cells.
   */
  lemma FoundIsKingWalk(s: SearchState, s': SearchState, start: Loc, goal: Loc, p: Path)
    requires Untouched(s.graph) && LogAgrees(s') && |s'.events| > 0
    requires Found(AStarSearch, s, s', start, goal, p)
    ensures p.nodes[0] == start && p.nodes[|p.nodes| - 1] == goal
    ensures forall i :: 0 <= i < |p.nodes| - 1 ==> KingMove(s.graph, p.nodes[i], p.nodes[i + 1])
  {
    forall i | 0 <= i < |p.nodes| - 1
      ensures KingMove(s.graph, p.nodes[i], p.nodes[i + 1])
    {
      assert Edge(AStarSearch, Terrain(s.graph), p.nodes[i], p.nodes[i + 1]);
    }
  }

  /** Initialising twice is initialising with the second graph. */
  lemma InitializeForgets(f: AStarFinder, g1: GridGraph, g2: GridGraph, n1: int, n2: int)
    ensures Initialize(Initialize(f, g1, n1), g2, n2) == Initialize(f, g2, n2)
  {
  }
}
