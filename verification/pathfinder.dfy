/**
 * The base class `IPathfinder` (Assets/Scripts/Base/Pathfinder.cs): the
 * settings every finder carries, the heuristic selection in `Begin`, and
 * the `Begin`/`Step` driving loop of the base `FindPath`.
 */
module Pathfinder {
  import opened Wrappers
  import opened Utils
  import opened Paths

  /** The heuristic delegate `Begin` installs. */
  datatype HeuristicFunc = DiagonalFunc | ManhattanFunc | EuclideanFunc

  /** The public settings: `heuristicDistanceMethod`, `WeightOfG`, `WeightOfH`, `HScale`. */
  datatype Settings = Settings(distanceMethod: HeuristicDistanceMethod, weightOfG: real, weightOfH: real, hScale: real)

  /** The state of the base class: settings, `pathResult` and the installed `heuristicFunc`. */
  datatype Base = Base(settings: Settings, pathResult: Option<Path>, heuristicFunc: Option<HeuristicFunc>)

  /** The `switch` in `Begin`: Diagonal and Manhattan map to their functions, anything else to Euclidean. */
  function SelectHeuristic(m: HeuristicDistanceMethod): (h: HeuristicFunc)
    ensures h == DiagonalFunc <==> m == Diagonal
    ensures h == ManhattanFunc <==> m == Manhattan
    ensures h == EuclideanFunc <==> m != Diagonal && m != Manhattan
  {
    match m
    case Diagonal => DiagonalFunc
    case Manhattan => ManhattanFunc
    case _ => EuclideanFunc
  }

  /** The heuristic value the installed function computes; Euclidean is not part of this model. */
  function Evaluate(h: HeuristicFunc, absDX: int, absDY: int): (r: Option<real>)
    ensures h != EuclideanFunc <==> r.Some?
    ensures h == DiagonalFunc ==> r == Some(HeuristicDiagonal(absDX, absDY))
    ensures h == ManhattanFunc ==> r == Some(HeuristicManhattan(absDX, absDY))
  {
    match h
    case DiagonalFunc => Some(HeuristicDiagonal(absDX, absDY))
    case ManhattanFunc => Some(HeuristicManhattan(absDX, absDY))
    case EuclideanFunc => None
  }

  /** `IPathfinder.Begin`: clears `pathResult` and installs the heuristic; the settings stay. */
  function Begin(b: Base, start: Loc, goal: Loc): (r: Base)
    ensures r.pathResult == None
    ensures r.settings == b.settings
    ensures r.heuristicFunc == Some(SelectHeuristic(b.settings.distanceMethod))
  {
    Base(b.settings, None, Some(SelectHeuristic(b.settings.distanceMethod)))
  }

  /** The base `Step`: the search is finished at once. */
  function Step(b: Base): (done: bool)
    ensures done
  {
    true
  }

  /** The base `TryGetExpandedNode`: no node is ever reported. */
  function TryGetExpandedNode(b: Base, location: Loc): (r: Option<Chain>)
    ensures r == None
  {
    None
  }

  /**
   * The base `FindPath`: `Begin`, `Step` until it answers true, then the
   * path `Begin` left behind, which is no path at all.
   */
  method FindPath(b: Base, start: Loc, goal: Loc) returns (b': Base, path: Option<Path>)
    ensures path == None && b'.pathResult == None
    ensures b'.settings == b.settings && b'.heuristicFunc == Some(SelectHeuristic(b.settings.distanceMethod))
  {
    b' := Begin(b, start, goal);
    // The base `Step` answers true on its first call, so `while (!Step()) { }` runs no iteration.
    var done := Step(b');
    path := b'.pathResult;
  }

  /** `Begin` forgets any earlier result: beginning twice is beginning once. */
  lemma BeginIdempotent(b: Base, start: Loc, goal: Loc, start': Loc, goal': Loc)
    ensures Begin(Begin(b, start, goal), start', goal') == Begin(b, start', goal')
  {
  }
}
