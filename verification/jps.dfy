/**
 * `JPSPathfinder` (Assets/Scripts/JPS/JPSPathfinder.cs): `Initialize`
 * accepts only a `JPSGridGraph`, and `FindPath` runs the shared best-first
 * search whose successors are the jump points of the pruned neighbours.
 * The callback log is the record of `OnNodeAddOpenSet` / `OnNodeVisited`
 * invocations since the last `Initialize`.
 */
module Jps {
  import opened Wrappers
  import opened Utils
  import opened Grid
  import opened JpsGrid
  import opened JumpScan
  import opened Paths
  import opened Pathfinder
  import opened Search

  /** The base-class state and, while `_graph` is set, the graph, open queue and log. */
  datatype JpsFinder = JpsFinder(base: Base, search: Option<SearchState>)

  /** How a call ended: normally, or with the exception `Initialize` throws. */
  datatype Outcome = Returned | Threw

  /** A finder nobody has initialised: `_graph` is null. */
  function NewFinder(settings: Settings): (f: JpsFinder)
    ensures f.search.None? && f.base.settings == settings
    ensures f.base.pathResult.None?
  {
    JpsFinder(Base(settings, None, None), None)
  }

  /** What every reachable finder keeps: when initialised, a JPS graph whose records, queue and log agree. */
  ghost predicate Valid(f: JpsFinder) {
    f.search.Some? ==> f.search.value.graph.kind == Jps && Consistent(JumpPointSearch, f.search.value)
  }

  /**
   * `Initialize`: the cast `graph as JPSGridGraph` is stored in `_graph`
   * before the null check, so a plain graph leaves the finder with no graph
   * and the call throws; a JPS graph is kept with a new empty queue.
   */
  function Initialize(f: JpsFinder, graph: GridGraph, maxSearchNodes: int): (r: (JpsFinder, Outcome))
    ensures r.1 == Threw <==> graph.kind != Jps
    ensures r.0.base == f.base
    ensures r.1 == Threw ==> r.0.search.None?
    ensures r.1 == Returned ==> r.0.search == Some(SearchState(graph, map[], []))
  {
    if graph.kind != Jps then (f.(search := None), Threw)
    else (f.(search := Some(SearchState(graph, map[], []))), Returned)
  }

  /** Initialising with a graph no search has touched gives a valid finder, whatever the outcome. */
  lemma InitializeValid(f: JpsFinder, graph: GridGraph, maxSearchNodes: int)
    requires Untouched(graph)
    ensures Valid(Initialize(f, graph, maxSearchNodes).0)
  {
    UntouchedConsistent(JumpPointSearch, graph);
  }

  /** A failed `Initialize` disables the finder: the next `FindPath` finds nothing and changes nothing. */
  lemma FailedInitializeDisables(f: JpsFinder, graph: GridGraph, maxSearchNodes: int)
    requires graph.kind != Jps
    ensures Initialize(f, graph, maxSearchNodes).0.search.None?
    ensures Valid(Initialize(f, graph, maxSearchNodes).0)
  {
  }

  /**
   * `FindPath`: with no graph, no path and nothing changes; otherwise the
   * search from a fresh start node over jump points, which returns the goal
   * node's trace or nothing once the queue is empty. `Begin` is not called,
   * so `pathResult` and the heuristic setting are left as they were.
   */
  method FindPath(f: JpsFinder, start: Loc, goal: Loc) returns (f': JpsFinder, path: Option<Path>)
    requires Valid(f)
    ensures Valid(f') && f'.base == f.base
    ensures f.search.None? ==> f' == f && path.None?
    ensures f.search.Some? ==> f'.search.Some? && Started(JumpPointSearch, f.search.value, f'.search.value, start)
    ensures f.search.Some? && path.None? ==>
              f'.search.value.open == map[] && GoalNotVisited(f'.search.value, |f.search.value.events|, 0, goal)
    ensures f.search.Some? && path.Some? ==> Found(JumpPointSearch, f.search.value, f'.search.value, start, goal, path.value)
  {
    if f.search.None? {
      return f, None;
    }
    var s', p := Run(JumpPointSearch, f.search.value, start, goal);
    f' := f.(search := Some(s'));
    path := p;
  }

  /**
   * A straight move between two different cells along a row, a column or a
   * 45-degree diagonal, onto a navigable cell.
   */
  predicate StraightMove(g: GridGraph, a: Loc, b: Loc) {
    && a != b
    && (a.x == b.x || a.y == b.y || Abs(b.x - a.x) == Abs(b.y - a.y))
    && Navigable(g, b)
  }

  /** A straight, unobstructed jump is a straight move. */
  lemma SegmentIsStraight(g: GridGraph, a: Loc, b: Loc)
    requires Segment(g, a, b)
    ensures StraightMove(g, a, b)
  {
    var d := DNorm(b, a);
    ClearOnRay(g, Move(a, d), d, b);
  }

  /**
   * On a graph built fresh for one search, a path JPS returns runs from the
   * start to the goal by straight moves between jump points.
   */
  lemma FoundIsStraightWalk(s: SearchState, s': SearchState, start: Loc, goal: Loc, p: Path)
    requires Untouched(s.graph) && LogAgrees(s') && |s'.events| > 0
    requires Found(JumpPointSearch, s, s', start, goal, p)
    ensures p.nodes[0] == start && p.nodes[|p.nodes| - 1] == goal
    ensures forall i :: 0 <= i < |p.nodes| - 1 ==> StraightMove(s.graph, p.nodes[i], p.nodes[i + 1])
  {
    forall i | 0 <= i < |p.nodes| - 1
      ensures StraightMove(s.graph, p.nodes[i], p.nodes[i + 1])
    {
      assert Edge(JumpPointSearch, Terrain(s.graph), p.nodes[i], p.nodes[i + 1]);
      SegmentIsStraight(Terrain(s.graph), p.nodes[i], p.nodes[i + 1]);
    }
  }
}
