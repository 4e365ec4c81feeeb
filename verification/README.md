# Grid pathfinding core, modelled in Dafny

This project models the grid-pathfinding core of a Unity project, the
classes under `Assets/Scripts/Base`, `AStar`, `JPS` and `Bidirection`:

- the grid graph (`GridGraph`): bounds, navigability, the eight-direction
  neighbour enumeration and the ray scan for the nearest navigable cell;
- the JPS graph (`JPSGridGraph`): neighbour pruning by the direction of
  travel;
- the heuristics and the array flattening helpers of `Utils`;
- the per-node search record (`PathingNode`) and the `Path` result with its
  parent-chain `Trace`;
- the `IPathfinder` base class: `Begin`, `Step` and `FindPath`;
- the A* finder (`AtarPathfinder`) and the JPS finder (`JPSPathfinder`,
  with its recursive `Jump` scan), which share one best-first search loop,
  here `Search.Run`, parameterised by the successor rule;
- the bidirectional finder (`BidirectionAstarPathfinder`): two sub-finders
  stepped alternately, a meeting check on every visit, and the stitched
  two-chain `Trace`.

State is immutable. A finder is a datatype, and each operation returns the
new finder. The node records that the C# program mutates in place live in a
map in the graph value. The start nodes that `FindPath` allocates are
referred to as `Start(k)`: the start node of the `k`-th search on that
graph. The `OnNodeAddOpenSet` and `OnNodeVisited` callbacks become a log of
events. Doubles are exact reals. `Math.Sqrt(2)` is the exact value of the
nearest double, so its square is not exactly 2.

Modules, one per source file or concern:

| module | models |
|---|---|
| `Wrappers` | `Option` and `Result` |
| `Utils` | coordinates, heuristics, bitmap flattening |
| `PathingNodes` | the node record |
| `Grid` | the base graph |
| `JpsGrid` | the pruned neighbours |
| `JumpScan` | `Jump` |
| `Paths` | `Path` and `Trace` |
| `Pathfinder` | the base class |
| `Search` | the shared search loop and its invariants |
| `AStar`, `Jps`, `Bidirection` | the three finders |

## Where the description and the code differ (the model follows the code)

- `Begin` does not check that start and goal are navigable. A* and JPS
  create the start node wherever it is. When start equals goal, a one-node
  path is returned even on a blocked cell. Otherwise a blocked goal is never
  reached, because neighbours are always navigable.
- There is no 4-direction mode: `Neighbours` always tries all eight offsets
  and applies no corner-cutting test (`Grid.NeighboursCutCorners`).
- The start node gets `F = 0`, not `h(start, goal)`.
- `WeightOfG`, `WeightOfH` and `HScale` are never read by `AtarPathfinder` or
  `JPSPathfinder`; the bidirectional `Begin` only copies them to its
  sub-finders.
- The A* and JPS finders override `FindPath` without calling `Begin`:
  - `pathResult` and the heuristic setting are left as they were;
  - the search always uses the octile distance, both as edge cost and as
    heuristic.
- Per-node records are never reset between searches:
  - closed nodes stay closed;
  - a cached `H` keeps the estimate for an earlier goal;
  - the open queue keeps any entries left from an earlier search.

  The search contracts hold for every graph, but "the path begins at the
  start" is stated only for a graph no search has touched (`Search.Found`).
- The two `FindPath` overrides are declared to return `List<Vector2Int>`,
  but they return the `Path` that `Trace` builds. The model returns that
  `Path`, a list of locations.
- The JPS finder's start node (no parent) is expanded with the full base
  neighbour set, so the first step of a JPS path may cut a corner.
- JPS `Initialize` stores the failed cast, which is null, before it throws.
  After a rejected graph the finder has no graph, and `FindPath` returns
  nothing.
- `BidirectionAstarPathfinder`:
  - a meeting found by the forward side's step is overwritten when the
    backward side's step in the same `Step` call also meets;
  - meeting at the backward side's start node dereferences a null parent
    in `Trace` (`Fault.NullReference`).

## Model

| member | source | states |
|---|---|---|
| Utils.HeuristicDiagonal | Assets/Scripts/Base/Utils.cs:29-32 | a cardinal offset costs its length, equal offsets cost that length times Sqrt2, and the estimate lies between the Chebyshev and the Manhattan distance |
| Utils.HeuristicDiagonalIsOctile | Assets/Scripts/Base/Utils.cs:29-32 | the estimate is min(dx,dy) diagonal steps at Sqrt2 plus the remaining cardinal steps at 1 |
| Utils.HeuristicsSymmetric | Assets/Scripts/Base/Utils.cs:23-32 | Manhattan and Diagonal do not depend on the order of the two offsets |
| Utils.StepCost | Assets/Scripts/AStar/AStarPathfinder.cs:47-49 | the edge cost of a move to a neighbouring cell is 1 cardinally and Sqrt2 diagonally |
| Utils.InvalidGridOutsideEveryGrid | Assets/Scripts/Base/Utils.cs:19 | the sentinel (-1,-1) is outside every grid |
| Utils.Array2DTo1D | Assets/Scripts/Base/Utils.cs:45-62 | the flat array has width*height elements and holds element [x,z] at x*height+z |
| Utils.Array1DTo2D | Assets/Scripts/Base/Utils.cs:69-80 | the result is a width-by-height array whose element [x,z] is the flat element x*height+z |
| Utils.FlatIndexBijective | Assets/Scripts/Base/Utils.cs:54-60 | the flattening loop writes every flat index below width*height exactly once |
| Utils.Array2DRoundTrip | Assets/Scripts/Base/Utils.cs:45-80 | unflattening a flattened array gives the array back |
| Utils.Array1DRoundTrip | Assets/Scripts/Base/Utils.cs:45-80 | flattening an unflattened flat array of exactly width*height elements gives it back |
| PathingNodes.NewNodeAt | Assets/Scripts/Base/PathingNode.cs:13-16 | a new node is at its location, unblocked, with no cached H, neither opened nor closed, and without parent |
| PathingNodes.ConstructorsAgree | Assets/Scripts/Base/PathingNode.cs:7-16 | the (x, y) constructor builds the same node as the location constructor |
| Grid.NewGridGraph | Assets/Scripts/Base/GridGraph.cs:34-48 | the node array has a fresh node at exactly the in-bounds cells, each at its own cell |
| Grid.NodesAreInBoundsCells | Assets/Scripts/Base/GridGraph.cs:34-48 | a cell has a node exactly when it is in bounds |
| Grid.NavigableHasNode | Assets/Scripts/Base/GridGraph.cs:57-60 | every navigable cell has a node at that cell |
| Grid.InvalidGridNotNavigable | Assets/Scripts/Base/GridGraph.cs:57-67 | the sentinel is out of bounds, so it is never navigable |
| Grid.DirectionsAreUnitSteps | Assets/Scripts/Base/GridGraph.cs:11-23 | the eight offsets are distinct non-zero king moves |
| Grid.Neighbours | Assets/Scripts/Base/GridGraph.cs:69-81 | a cell is yielded exactly when it is navigable and one of the eight offsets away; the cells come in offset order, each once, at most eight |
| Grid.NeighboursAreAdjacent | Assets/Scripts/Base/GridGraph.cs:69-81 | every neighbour is navigable and at Chebyshev distance 1 |
| Grid.NeighboursCutCorners | Assets/Scripts/Base/GridGraph.cs:69-81 | between two blocked cells, the diagonal cell is still a neighbour: no corner-cutting test |
| Grid.ScanFrom | Assets/Scripts/Base/GridGraph.cs:86-98 | the scan returns the first navigable ray cell in (radius, direction) order, or none when no cell up to the radius is navigable |
| Grid.GetNearestNavigablePos | Assets/Scripts/Base/GridGraph.cs:83-99 | the sentinel exactly when every ray cell up to the radius is blocked; otherwise a navigable cell other than the origin, with every ray cell earlier in scan order blocked |
| Grid.NearestWithinRadius | Assets/Scripts/Base/GridGraph.cs:86-94 | a found cell is between 1 and findRadius king moves from the origin |
| Grid.NearestWithinDefaultRadius | Assets/Scripts/Base/GridGraph.cs:83 | with the default radius of 10, a found cell is at most 10 king moves away |
| JpsGrid.DNorm | Assets/Scripts/JPS/JPSGridGraph.cs:24-26 | dividing by the magnitude with C# truncation gives the sign vector, which is zero only when node and parent coincide |
| JpsGrid.YieldsMember | Assets/Scripts/JPS/JPSGridGraph.cs:29-45 | a run of conditional yields over different cells yields a cell exactly when its condition holds |
| JpsGrid.YieldsOnly | Assets/Scripts/JPS/JPSGridGraph.cs:29-45 | a run of conditional yields yields nothing but candidates whose condition holds |
| JpsGrid.DiagonalSuccessorRule | Assets/Scripts/JPS/JPSGridGraph.cs:29-45 | each of the five diagonal candidates is yielded exactly when its own rule admits it |
| JpsGrid.DiagonalSuccessorCases | Assets/Scripts/JPS/JPSGridGraph.cs:29-45 | every diagonal successor is a navigable cell one king move from the node |
| JpsGrid.VerticalSuccessors | Assets/Scripts/JPS/JPSGridGraph.cs:49-61 | nothing when the cell ahead is blocked; otherwise the cell ahead first, then each forced diagonal exactly when its side cell is blocked; all navigable and, when moving, one king move away |
| JpsGrid.HorizontalSuccessors | Assets/Scripts/JPS/JPSGridGraph.cs:62-71 | the same for horizontal travel |
| JpsGrid.PrunedSuccessors | Assets/Scripts/JPS/JPSGridGraph.cs:28-72 | pruned successors are navigable king moves away: at most 5 for diagonal and 3 for cardinal travel |
| JpsGrid.JpsDiagonalPruning | Assets/Scripts/JPS/JPSGridGraph.cs:29-45 | for diagonal travel: the two orthogonal cells when navigable, the diagonal only when an orthogonal cell is open, and each forced neighbour only when its side is blocked |
| JpsGrid.JpsCardinalPruning | Assets/Scripts/JPS/JPSGridGraph.cs:47-72 | for cardinal travel: the forward cell first, then each forced diagonal exactly when its side cell is blocked and the diagonal is navigable |
| JpsGrid.JpsNeighbours | Assets/Scripts/JPS/JPSGridGraph.cs:17-87 | without a parent, exactly the base neighbours; always navigable cells one king move away |
| JpsGrid.JpsNeighboursAreNeighbours | Assets/Scripts/JPS/JPSGridGraph.cs:17-87 | pruning only removes cells: every pruned neighbour is a base neighbour |
| JpsGrid.GraphNeighbours | Assets/Scripts/JPS/JPSGridGraph.cs:17-18 | the virtual call picks the base enumeration on a plain graph and the pruned one on a JPS graph |
| JumpScan.Jump | Assets/Scripts/JPS/JPSPathfinder.cs:101-148 | a blocked cell gives the sentinel, the goal gives itself, and any other answer comes after a step the corner rule allows |
| JumpScan.StepsShrink | Assets/Scripts/JPS/JPSPathfinder.cs:121-145 | every recursive call moves one cell further towards the edge of the grid, so the scan ends |
| JumpScan.JumpIsClear | Assets/Scripts/JPS/JPSPathfinder.cs:101-148 | a found point is reached from the first cell by a clear straight run that never squeezes between two blocked cells |
| JumpScan.JumpOnRay | Assets/Scripts/JPS/JPSPathfinder.cs:101-148 | the result is the sentinel or a navigable cell on the ray leaving the expanded node |
| JumpScan.JumpFindsFirstJumpPoint | Assets/Scripts/JPS/JPSPathfinder.cs:101-148 | soundness: a found point is the first jump point along the ray |
| JumpScan.FirstJumpPointIsFound | Assets/Scripts/JPS/JPSPathfinder.cs:101-148 | completeness: when the ray has a reachable first jump point, the scan returns it |
| Pathfinder.SelectHeuristic | Assets/Scripts/Base/Pathfinder.cs:70-82 | Diagonal and Manhattan select their own functions, and every other setting selects Euclidean |
| Pathfinder.Evaluate | Assets/Scripts/Base/Utils.cs:23-32 | the selected function computes the Diagonal or Manhattan estimate |
| Pathfinder.Begin | Assets/Scripts/Base/Pathfinder.cs:67-83 | the result is cleared and the configured heuristic installed; the settings stay |
| Pathfinder.Step | Assets/Scripts/Base/Pathfinder.cs:86-89 | the base search is finished on its first Step |
| Pathfinder.TryGetExpandedNode | Assets/Scripts/Base/Pathfinder.cs:61-64 | the base finder reports no expanded node for any cell |
| Pathfinder.BeginIdempotent | Assets/Scripts/Base/Pathfinder.cs:67-83 | beginning twice is the same as beginning once |
| Pathfinder.FindPath | Assets/Scripts/Base/Pathfinder.cs:106-115 | the base finder returns no path, and leaves the result cleared and the heuristic installed |
| Paths.Contains | Assets/Scripts/Base/Pathfinder.cs:30-33 | on a well-formed path the set lookup agrees with membership in the node list |
| Paths.ReverseTwice | Assets/Scripts/Base/Pathfinder.cs:24-27 | reversing twice gives the path back |
| Paths.ReverseKeepsMembership | Assets/Scripts/Base/Pathfinder.cs:24-33 | reversing keeps the node count and every Contains answer |
| Paths.WalkNodes | Assets/Scripts/Base/Pathfinder.cs:96-101 | the parent walk appends the chain node first, root last |
| Paths.WalkValid | Assets/Scripts/Base/Pathfinder.cs:96-101 | the walk keeps the location set in step with the node list |
| Paths.Trace | Assets/Scripts/Base/Pathfinder.cs:93-104 | the traced path is the chain's cells root first: it is non-empty, starts at the root and ends at the node |
| Paths.TraceFollowsParents | Assets/Scripts/Base/Pathfinder.cs:93-104 | in a traced path every node is the parent of the node after it |
| Paths.TraceHasPath | Assets/Scripts/Base/Pathfinder.cs:35-38 | a traced path has more than one node exactly when the node has a parent |
| Search.OctileAtLeastOne | Assets/Scripts/AStar/AStarPathfinder.cs:47-49 | a move to another cell costs at least 1, so G grows strictly along every parent link |
| Search.JumpMakesSegment | Assets/Scripts/JPS/JPSPathfinder.cs:64-67 | a jump from a neighbour that finds a point is a straight, unobstructed run from the expanded node |
| Search.JumpPoints | Assets/Scripts/JPS/JPSPathfinder.cs:61-67 | the successors are exactly the points found; each is navigable and a straight run away |
| Search.Successors | Assets/Scripts/AStar/AStarPathfinder.cs:42-45 | every successor is navigable and one edge of the strategy away: a king move for A*, a straight run for JPS |
| Search.Relax | Assets/Scripts/AStar/AStarPathfinder.cs:44-72 | a closed neighbour is skipped; G, F and Parent change only for an unopened neighbour or a strictly smaller G; H is computed only when absent; an unopened neighbour is enqueued with exactly one opened event, an opened one has its priority updated; nothing else changes |
| Search.RelaxAll | Assets/Scripts/AStar/AStarPathfinder.cs:42-74 | relaxing the successors in order keeps the node array and start nodes, only appends opened events, and leaves every record outside the successors unchanged |
| Search.Dequeue | Assets/Scripts/AStar/AStarPathfinder.cs:35-37 | the dequeued node leaves the queue, is marked closed, and exactly one visited event is logged |
| Search.StartNode | Assets/Scripts/AStar/AStarPathfinder.cs:29 | the start node is at the start with G = 0, F = 0, no H, no parent, opened and not closed |
| Search.AddStart | Assets/Scripts/AStar/AStarPathfinder.cs:29-31 | the start node is created outside the node array, enqueued at priority 0 and announced by one opened event; the node array is unchanged |
| Search.AddStartKeepsConsistent | Assets/Scripts/AStar/AStarPathfinder.cs:29-31 | enqueueing and announcing the new start node keeps records, queue and log consistent |
| Search.DequeueKeepsConsistent | Assets/Scripts/AStar/AStarPathfinder.cs:35-37 | dequeueing, closing and announcing a queued node keeps records, queue and log consistent |
| Search.RelaxKeepsConsistent | Assets/Scripts/AStar/AStarPathfinder.cs:42-73 | a relaxation keeps the invariants: the queue holds exactly the opened, unclosed nodes at priority F; every parent is closed, an edge away and at least 1 lower in G; F = G + H; each node is announced opened at most once |
| Search.RelaxMeasure | Assets/Scripts/AStar/AStarPathfinder.cs:51-72 | a relaxation opens at most one node and only an unopened one, so the loop measure does not grow |
| Search.RelaxAllKeepsConsistent | Assets/Scripts/AStar/AStarPathfinder.cs:42-74 | relaxing all successors in order keeps the invariants, changes no location, and logs only opened events |
| Search.Lineage | Assets/Scripts/Base/Pathfinder.cs:93-104 | following parents from a node ends, and every link of the chain is an edge of the strategy |
| Search.RootRef | Assets/Scripts/AStar/AStarPathfinder.cs:29-60 | the parent chain of an opened node ends at a start node |
| Search.PopMin | Assets/Scripts/AStar/AStarPathfinder.cs:35 | the dequeued node has the least priority in the queue |
| Search.Expand | Assets/Scripts/AStar/AStarPathfinder.cs:42-74 | expanding a closed node keeps the invariants, logs only opened events and does not grow the measure |
| Search.TracedPath | Assets/Scripts/Base/Pathfinder.cs:93-104 | the trace of a node ends at it and each step is an edge of the strategy |
| Search.TracedFromStart | Assets/Scripts/AStar/AStarPathfinder.cs:29-40 | on a graph with a single search, the trace of an opened node begins at the start |
| Search.GoalReached | Assets/Scripts/AStar/AStarPathfinder.cs:39-40 | the trace of the dequeued goal node is a walk of edges that ends at the goal |
| Search.SearchStep | Assets/Scripts/AStar/AStarPathfinder.cs:33-74 | one iteration dequeues a least-F node and announces it; at the goal it returns that node's traced parent chain, otherwise the measure drops and no visit so far was at the goal |
| Search.Run | Assets/Scripts/AStar/AStarPathfinder.cs:21-78 | the search always ends; with no path the queue is empty and no visit was at the goal; a path is the traced parent chain of the first node visited at the goal, so it ends at the goal and goes by edges |
| Search.NewGraphUntouched | Assets/Scripts/Base/GridGraph.cs:34-48 | a newly built graph has only fresh records |
| Search.UntouchedConsistent | Assets/Scripts/AStar/AStarPathfinder.cs:15-19 | a fresh graph with an empty queue and log satisfies the search invariants |
| AStar.NewFinder | Assets/Scripts/AStar/AStarPathfinder.cs:8-13 | a constructed finder has no graph and no result |
| AStar.Initialize | Assets/Scripts/AStar/AStarPathfinder.cs:15-19 | the finder keeps the graph with an empty queue; the base state is untouched |
| AStar.InitializeValid | Assets/Scripts/AStar/AStarPathfinder.cs:15-19 | initialising with a fresh graph gives a finder whose invariants hold |
| AStar.InitializeForgets | Assets/Scripts/AStar/AStarPathfinder.cs:15-19 | initialising twice is initialising with the second graph |
| AStar.FindPath | Assets/Scripts/AStar/AStarPathfinder.cs:21-78 | with no graph, no path and nothing changes; otherwise the invariants are kept, with no path the goal was never visited, and a path is the traced parent chain of the first node visited at the goal |
| AStar.FoundIsKingWalk | Assets/Scripts/AStar/AStarPathfinder.cs:21-78 | on a fresh graph a found path runs from start to goal by king moves onto navigable cells |
| Jps.NewFinder | Assets/Scripts/JPS/JPSPathfinder.cs:8-13 | a constructed finder has no graph and no result |
| Jps.Initialize | Assets/Scripts/JPS/JPSPathfinder.cs:17-25 | the call throws exactly when the graph is not a JPS graph, and then leaves no graph; otherwise it keeps the graph with an empty queue |
| Jps.InitializeValid | Assets/Scripts/JPS/JPSPathfinder.cs:17-25 | initialising with a fresh graph gives a finder whose invariants hold, whatever the outcome |
| Jps.FailedInitializeDisables | Assets/Scripts/JPS/JPSPathfinder.cs:17-30 | after a rejected graph the finder has no graph, so FindPath returns nothing |
| Jps.FindPath | Assets/Scripts/JPS/JPSPathfinder.cs:27-55 | the A* contract with jump points as successors: a path is the traced parent chain of the first node visited at the goal |
| Jps.SegmentIsStraight | Assets/Scripts/JPS/JPSPathfinder.cs:101-148 | a jump link joins two different cells on a row, column or 45-degree diagonal, onto a navigable cell |
| Jps.FoundIsStraightWalk | Assets/Scripts/JPS/JPSPathfinder.cs:27-55 | on a fresh graph a found path runs from start to goal by straight moves between jump points |
| Bidirection.NewFinder | Assets/Scripts/Bidirection/BidirectionAstarPathfinder.cs:13-16 | a constructed finder has not met, has counter 0, and has no sub-search begun |
| Bidirection.Initialize | Assets/Scripts/Bidirection/BidirectionAstarPathfinder.cs:19-24 | both sub-finders get the graph and the backward one is put on channel 1; everything else, including the sub-finders' searches under way, is kept |
| Bidirection.Stitch | Assets/Scripts/Bidirection/BidirectionAstarPathfinder.cs:96-117 | the stitched path is the forward chain root first, then the backward chain from the meeting node's parent to its root |
| Bidirection.CheckMeet | Assets/Scripts/Bidirection/BidirectionAstarPathfinder.cs:76-93 | a visit at a cell the other side has not expanded changes nothing; otherwise the finder has met and the result is the stitch of the forward-side and backward-side nodes, which throws exactly when the backward node is its search's root |
| Bidirection.Deliver | Assets/Scripts/Bidirection/BidirectionAstarPathfinder.cs:51-93 | callbacks are forwarded in order; it fails exactly when some visit meets the other side at that side's root; met becomes true exactly when some visit meets; the result is the stitch of the last meeting, or unchanged when none |
| Bidirection.Begin | Assets/Scripts/Bidirection/BidirectionAstarPathfinder.cs:26-49 | both sub-finders begin (forward start to goal, backward goal to start) with this finder's settings, counter 0; met exactly when a Begin callback meets, and no result otherwise |
| Bidirection.StepWhenMet | Assets/Scripts/Bidirection/BidirectionAstarPathfinder.cs:122-125 | once met, Step answers true and changes nothing |
| Bidirection.StepOrder | Assets/Scripts/Bidirection/BidirectionAstarPathfinder.cs:120-137 | the forward side steps first; the backward side steps once only when the forward side did not finish, and Step answers true when it finishes; the log order follows |
| Bidirection.Step | Assets/Scripts/Bidirection/BidirectionAstarPathfinder.cs:120-147 | Step answers true only when already met, when a sub-finder's Step answered true, or when the counter passed 999999; the settings are kept and both searches stay begun |
| Bidirection.StepCounts | Assets/Scripts/Bidirection/BidirectionAstarPathfinder.cs:139-145 | a Step answering false has not met, counts itself and stays at or under 999999 |
| Bidirection.FindPath | Assets/Scripts/Base/Pathfinder.cs:106-115 | the loop ends within 1,000,000 Step calls; it returns the recorded result, and a result means the sides met |
| Bidirection.StitchShape | Assets/Scripts/Bidirection/BidirectionAstarPathfinder.cs:96-117 | the stitched path has one cell fewer than the two chains together, forward part first |
| Bidirection.StitchEnds | Assets/Scripts/Bidirection/BidirectionAstarPathfinder.cs:96-117 | the stitched path starts at the forward root, has the meeting node at the end of the forward part, and ends at the backward root |
| Bidirection.MeetingCellOnce | Assets/Scripts/Bidirection/BidirectionAstarPathfinder.cs:96-117 | with repetition-free chains meeting at one cell, that cell appears exactly once in the stitched path |

## Left out

- `Heuristic_Euclidean` (Utils.cs) needs the square root of any integer. The selection of Euclidean is modelled; its value is not (`Pathfinder.Evaluate` returns nothing).
- Floating-point rounding: G, H and F are exact reals.
- `FastPriorityQueue` is not part of this model. The queue is a map from node to priority, and `Dequeue` may return any entry of least priority. Its capacity (`maxSearchNodes`) and its behaviour when full or given a foreign node are left out.
- `GetColor` and the colour constants are rendering only.
- `ObstacleLayer` is an unused constant.
- `JumpCostTime` reads the clock.
- The callbacks are recorded as an event log, not as delegates. Subscribers cannot affect the search.
- `AstarPathfinder`, the bidirectional finder's sub-finder class, is not part of this model. Its behaviour is a parameter (`SubModel`): the callbacks, answers and expanded nodes each call produces. Its `Begin`, `Step` and `TryGetExpandedNode` are stand-ins over that parameter (`Bidirection.SubBegin`, `Bidirection.SubStep`, `Bidirection.TryGetExpandedNode`): they replay the given run and state nothing about a real search. Its `Initialize` is assumed to change only the sub-finder's graph and channel (`Bidirection.Initialize`): the search under way, and so the nodes `TryGetExpandedNode` reports, are kept until the next `Begin`.
- C# 32-bit `int` arithmetic: coordinates, the radius and the step counter are unbounded integers. The model does not show that `++radius <= findRadius` wraps when `findRadius` is `int.MaxValue`: the source then loops forever on a blocked neighbourhood, while `Grid.GetNearestNavigablePos` returns the sentinel. Nor does it show that `Math.Abs` of a coordinate difference overflows or throws `OverflowException` for coordinates near `int.MinValue` or `int.MaxValue` (AStarPathfinder.cs:47-57, JPSPathfinder.cs:81): `Search.Relax` computes the exact distance.
- Bidirection.FindPath: states termination and what is returned, not that the path joins start and goal, because the sub-finder's search is a parameter.
- Bidirection.Step: `Step` before `Begin` is not modelled, because the sub-finders' behaviour before their own `Begin` is unknown.
- The state a finder is left in after an exception is not modelled.
- Several finders sharing one graph at the same time, or a graph reused after a search by another finder instance, are left out. `AStar.InitializeValid` and `Jps.InitializeValid` need a fresh graph. A used graph would leave opened nodes outside the new finder's queue, which is undefined behaviour of the queue.
- Search.Run: optimality of the returned path is not stated, because stale cached H values and closed nodes from earlier searches break it on a reused graph.
- JumpScan.Jump: requires `current` one king move from `proposed`. Every caller passes a neighbour, and with `current == proposed` the source recurses without end.
- Utils.Array1DTo2D: requires at least `width * height` flat elements; the source throws an index exception on a shorter array.
- `GridMapData`, the `Misc` scene and test scripts and `RVO2Test` are outside the pathfinding core.
