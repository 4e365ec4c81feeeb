/**
 * The best-first search shared by `AtarPathfinder.FindPath`
 * (Assets/Scripts/AStar/AStarPathfinder.cs) and `JPSPathfinder.FindPath` /
 * `IdentitySuccessors` (Assets/Scripts/JPS/JPSPathfinder.cs). The two differ
 * only in the successors of an expanded node: the graph's neighbours for A*,
 * the jump points found from them for JPS.
 *
 * The per-node records live in the graph and are never reset between
 * searches; each search adds one fresh start node to the graph's arena.
 */
module Search {
  import opened Wrappers
  import opened Utils
  import opened PathingNodes
  import opened Grid
  import opened JpsGrid
  import opened JumpScan
  import opened Paths

  datatype Strategy = AStarSearch | JumpPointSearch

  /** A callback invocation: `OnNodeAddOpenSet` or `OnNodeVisited` with the node it was given. */
  datatype Event = NodeAddOpenSet(at: NodeRef) | NodeVisited(at: NodeRef)

  /**
   * What a search reads and writes: the graph with its node records, the
   * open queue (node to priority) and the log of callback invocations.
   */
  datatype SearchState = SearchState(graph: GridGraph, open: map<NodeRef, real>, events: seq<Event>)

  // ---------------------------------------------------------------------------
  // The node arena

  predicate ValidRef(g: GridGraph, r: NodeRef) {
    match r
    case Cell(l) => l in g.nodes
    case Start(k) => k < |g.startNodes|
  }

  function NodeAt(g: GridGraph, r: NodeRef): PathingNode
    requires ValidRef(g, r)
  {
    match r
    case Cell(l) => g.nodes[l]
    case Start(k) => g.startNodes[k]
  }

  function LocationOf(g: GridGraph, r: NodeRef): Loc
    requires ValidRef(g, r)
  {
    NodeAt(g, r).location
  }

  /** The graph with the record behind `r` replaced; every other record is untouched. */
  function WithNode(g: GridGraph, r: NodeRef, n: PathingNode): (g': GridGraph)
    requires ValidRef(g, r)
    ensures g'.kind == g.kind && g'.navigable == g.navigable
    ensures g'.nodes.Keys == g.nodes.Keys && |g'.startNodes| == |g.startNodes|
    ensures forall x :: ValidRef(g', x) <==> ValidRef(g, x)
    ensures NodeAt(g', r) == n
    ensures forall x :: ValidRef(g, x) && x != r ==> NodeAt(g', x) == NodeAt(g, x)
  {
    match r
    case Cell(l) => g.(nodes := g.nodes[l := n])
    case Start(k) => g.(startNodes := g.startNodes[k := n])
  }

  /** Node records keep their locations: the `Location` property has no public setter. */
  ghost predicate LocationsKept(g: GridGraph, g': GridGraph) {
    && g'.kind == g.kind && g'.navigable == g.navigable
    && g'.nodes.Keys == g.nodes.Keys
    && |g'.startNodes| >= |g.startNodes|
    && (forall r :: ValidRef(g, r) ==> ValidRef(g', r) && LocationOf(g', r) == LocationOf(g, r))
  }

  // ---------------------------------------------------------------------------
  // Successors

  /** What successor enumeration reads of a graph: its class and its bitmap, not its node records. */
  function Terrain(g: GridGraph): (t: GridGraph)
    ensures t.kind == g.kind && t.navigable == g.navigable
    ensures forall l :: Navigable(t, l) <==> Navigable(g, l)
  {
    g.(nodes := map[], startNodes := [])
  }

  /**
   * A straight, unobstructed jump from `p` to `q`: the first step goes to
   * `p + d` for the sign vector `d` of `q - p`, and from there the run to `q`
   * is clear.
   */
  predicate Segment(g: GridGraph, p: Loc, q: Loc) {
    p != q &&
    var d := DNorm(q, p);
    Clear(g, Move(p, d), d, q)
  }

  /** The parent links a strategy creates: a king move for A*, a straight jump for JPS. */
  predicate Edge(strategy: Strategy, g: GridGraph, p: Loc, q: Loc) {
    match strategy
    case AStarSearch => Chebyshev(p, q) == 1 && Navigable(g, q)
    case JumpPointSearch => Segment(g, p, q)
  }

  /** A jump from a neighbour `n` of `l` that finds a point makes a straight jump from `l`. */
  lemma JumpMakesSegment(g: GridGraph, goal: Loc, l: Loc, n: Loc)
    requires Chebyshev(n, l) == 1
    requires Jump(g, goal, n, l) != InvalidGrid
    ensures Segment(g, l, Jump(g, goal, n, l)) && Navigable(g, Jump(g, goal, n, l))
  {
    var t := Jump(g, goal, n, l);
    var d := Dir(n, l);
    JumpIsClear(g, goal, n, l);
    ClearOnRay(g, n, d, t);
    assert DNorm(t, l) == d;
    assert Move(l, d) == n;
  }

  /** `IdentitySuccessors`' jumps from each neighbour, keeping the ones that find a point. */
  function JumpPoints(g: GridGraph, goal: Loc, l: Loc, ns: seq<Loc>): (ts: seq<Loc>)
    requires forall n :: n in ns ==> Chebyshev(n, l) == 1
    ensures |ts| <= |ns|
    ensures forall t :: t in ts ==> Navigable(g, t) && Segment(g, l, t)
    ensures forall n :: n in ns && Jump(g, goal, n, l) != InvalidGrid ==> Jump(g, goal, n, l) in ts
  {
    if ns == [] then []
    else
      var t := Jump(g, goal, ns[0], l);
      var rest := JumpPoints(g, goal, l, ns[1..]);
      if t == InvalidGrid then rest
      else
        JumpMakesSegment(g, goal, l, ns[0]);
        [t] + rest
  }

  /**
   * The cells an expansion of the node at `l` (whose parent is at `parent`)
   * relaxes, in order: the graph's neighbours for A*, their jump points for JPS.
   */
  function Successors(strategy: Strategy, g: GridGraph, goal: Loc, l: Loc, parent: Option<Loc>): (ts: seq<Loc>)
    requires parent.None? || parent.value != l
    ensures forall t :: t in ts ==> Navigable(g, t) && Edge(strategy, g, l, t)
  {
    var ns := GraphNeighbours(g, l, parent);
    match strategy
    case AStarSearch => ns
    case JumpPointSearch => JumpPoints(g, goal, l, ns)
  }

  // ---------------------------------------------------------------------------
  // Invariants of the search records

  /** The open queue holds exactly the opened, unclosed nodes, each at priority F. */
  ghost predicate QueueAgrees(s: SearchState) {
    && (forall r :: r in s.open ==>
          ValidRef(s.graph, r) && NodeAt(s.graph, r).isOpened && !NodeAt(s.graph, r).isClosed &&
          s.open[r] == NodeAt(s.graph, r).f)
    && (forall r {:trigger NodeAt(s.graph, r).isOpened} ::
          ValidRef(s.graph, r) && NodeAt(s.graph, r).isOpened && !NodeAt(s.graph, r).isClosed ==> r in s.open)
  }

  /**
   * Each record on its own: closed implies opened, G is not negative, start
   * nodes have no parent, and an opened graph node has a parent, a cached H
   * and F = G + H.
   */
  predicate NodeOK(r: NodeRef, n: PathingNode) {
    && (n.isClosed ==> n.isOpened)
    && n.g >= 0.0
    && (r.Start? ==> n.parent.None?)
    && (r.Cell? && n.isOpened ==> n.parent.Some? && n.h.Some? && n.f == n.g + n.h.value)
  }

  /** A parent link: the parent exists, is closed, has G smaller by at least 1, and is one edge away. */
  predicate ParentOK(strategy: Strategy, g: GridGraph, r: NodeRef)
    requires ValidRef(g, r) && NodeAt(g, r).parent.Some?
  {
    var p := NodeAt(g, r).parent.value;
    && ValidRef(g, p)
    && NodeAt(g, p).isClosed
    && NodeAt(g, p).g + 1.0 <= NodeAt(g, r).g
    && Edge(strategy, Terrain(g), LocationOf(g, p), LocationOf(g, r))
  }

  ghost predicate NodesAgree(strategy: Strategy, g: GridGraph) {
    && ValidGraph(g)
    && (forall r {:trigger NodeOK(r, NodeAt(g, r))} :: ValidRef(g, r) ==> NodeOK(r, NodeAt(g, r)))
    && (forall r {:trigger ParentOK(strategy, g, r)} :: ValidRef(g, r) && NodeAt(g, r).parent.Some? ==> ParentOK(strategy, g, r))
  }

  /** Logged nodes exist; an opened event means opened, a visited event means closed; no event twice. */
  ghost predicate LogAgrees(s: SearchState) {
    && (forall i :: 0 <= i < |s.events| ==>
          && ValidRef(s.graph, s.events[i].at)
          && NodeAt(s.graph, s.events[i].at).isOpened
          && (s.events[i].NodeVisited? ==> NodeAt(s.graph, s.events[i].at).isClosed))
    && (forall i, j :: 0 <= i < j < |s.events| ==> s.events[i] != s.events[j])
  }

  ghost predicate Consistent(strategy: Strategy, s: SearchState) {
    && NodesAgree(strategy, s.graph)
    && QueueAgrees(s)
    && LogAgrees(s)
  }

  /** The graph nodes not opened yet. */
  function Unopened(g: GridGraph): set<Loc> {
    set l | l in g.nodes && !g.nodes[l].isOpened
  }

  /** Termination measure of the search loop. */
  function Measure(s: SearchState): nat {
    |s.open| + 2 * |Unopened(s.graph)|
  }

  /** A link always joins two different cells. */
  lemma EdgeDistinct(strategy: Strategy, g: GridGraph, p: Loc, q: Loc)
    requires Edge(strategy, g, p, q)
    ensures p != q
  {
  }

  // ---------------------------------------------------------------------------
  // Operations on the search state

  /** The octile cost `Heuristic_Diagonal(|dx|, |dy|)` between two cells. */
  function Octile(a: Loc, b: Loc): real {
    HeuristicDiagonal(Abs(b.x - a.x), Abs(b.y - a.y))
  }

  /** A move to another cell costs at least 1. */
  lemma OctileAtLeastOne(a: Loc, b: Loc)
    requires a != b
    ensures Octile(a, b) >= 1.0
  {
  }

  /**
   * The relaxation of the graph node at `t` from the expanded node `cur`
   * (the body of the `foreach` in `AtarPathfinder.FindPath` and in
   * `IdentitySuccessors`): a closed node is skipped; otherwise G, H, F and
   * Parent change only when the node is unopened or the new G is strictly
   * smaller, H is computed only when absent, and the node is enqueued with
   * one opened event the first time, or has its priority updated after that.
   */
  function Relax(s: SearchState, cur: NodeRef, t: Loc, goal: Loc): (r: SearchState)
    requires ValidRef(s.graph, cur) && t in s.graph.nodes
    ensures r.graph.nodes.Keys == s.graph.nodes.Keys
    ensures var n := s.graph.nodes[t];
            var ng := NodeAt(s.graph, cur).g + Octile(LocationOf(s.graph, cur), t);
            !(!n.isClosed && (!n.isOpened || ng < n.g)) ==> r == s
    ensures var n := s.graph.nodes[t];
            var ng := NodeAt(s.graph, cur).g + Octile(LocationOf(s.graph, cur), t);
            (!n.isClosed && (!n.isOpened || ng < n.g)) ==>
              var n' := r.graph.nodes[t];
              && n'.g == ng && n'.parent == Some(cur)
              && n'.h == (if n.h.Some? then n.h else Some(Octile(goal, t)))
              && n'.f == n'.g + n'.h.value
              && n'.isOpened && !n'.isClosed
              && n'.location == n.location && n'.isBlock == n.isBlock
              && r.graph == WithNode(s.graph, Cell(t), n')
              && r.open == s.open[Cell(t) := n'.f]
              && r.events == s.events + (if n.isOpened then [] else [NodeAddOpenSet(Cell(t))])
  {
    var n := s.graph.nodes[t];
    var l := LocationOf(s.graph, cur);
    var ng := NodeAt(s.graph, cur).g + HeuristicDiagonal(Abs(t.x - l.x), Abs(t.y - l.y));
    if n.isClosed then s
    else if n.isOpened && !(ng < n.g) then s
    else
      var h := if n.h.Some? then n.h.value else HeuristicDiagonal(Abs(t.x - goal.x), Abs(t.y - goal.y));
      var n' := n.(g := ng, h := Some(h), f := ng + h, parent := Some(cur), isOpened := true);
      var events := if n.isOpened then s.events else s.events + [NodeAddOpenSet(Cell(t))];
      SearchState(WithNode(s.graph, Cell(t), n'), s.open[Cell(t) := ng + h], events)
  }

  /** The relaxations of one expansion, in enumeration order. */
  function RelaxAll(s: SearchState, cur: NodeRef, ts: seq<Loc>, goal: Loc): (r: SearchState)
    requires ValidRef(s.graph, cur)
    requires forall t :: t in ts ==> t in s.graph.nodes
    ensures r.graph.nodes.Keys == s.graph.nodes.Keys && r.graph.startNodes == s.graph.startNodes
    ensures OnlyOpenedAppended(s.events, r.events)
    ensures forall l :: l in s.graph.nodes && l !in ts ==> r.graph.nodes[l] == s.graph.nodes[l]
    decreases |ts|
  {
    if ts == [] then s
    else
      var s1 := Relax(s, cur, ts[0], goal);
      var r := RelaxAll(s1, cur, ts[1..], goal);
      OnlyOpenedAppendedTransitive(s.events, s1.events, r.events);
      r
  }

  /** `Dequeue` of `cur`, `Closed = true` and the visited event. */
  function Dequeue(s: SearchState, cur: NodeRef): (r: SearchState)
    requires cur in s.open && ValidRef(s.graph, cur)
    ensures r.open == s.open - {cur}
    ensures r.events == s.events + [NodeVisited(cur)]
    ensures r.graph == WithNode(s.graph, cur, NodeAt(s.graph, cur).(isClosed := true))
  {
    var n := NodeAt(s.graph, cur);
    SearchState(WithNode(s.graph, cur, n.(isClosed := true)), s.open - {cur}, s.events + [NodeVisited(cur)])
  }

  /** The fresh start node: `new PathingNode(start) { F = 0, G = 0, Opened = true }`. */
  function StartNode(start: Loc): (n: PathingNode)
    ensures n.location == start && n.g == 0.0 && n.f == 0.0 && n.h.None?
    ensures n.isOpened && !n.isClosed && n.parent.None?
  {
    NewNodeAt(start).(f := 0.0, g := 0.0, isOpened := true)
  }

  /** Creating, enqueueing (at priority F = 0) and announcing the start node. */
  function AddStart(s: SearchState, start: Loc): (r: SearchState)
    ensures r.graph.startNodes == s.graph.startNodes + [StartNode(start)]
    ensures r.graph.nodes == s.graph.nodes && Terrain(r.graph) == Terrain(s.graph)
    ensures r.open == s.open[Start(|s.graph.startNodes|) := 0.0]
    ensures r.events == s.events + [NodeAddOpenSet(Start(|s.graph.startNodes|))]
  {
    var k := |s.graph.startNodes|;
    SearchState(s.graph.(startNodes := s.graph.startNodes + [StartNode(start)]), s.open[Start(k) := 0.0],
                s.events + [NodeAddOpenSet(Start(k))])
  }

  // ---------------------------------------------------------------------------
  // The operations keep the records consistent

  /**
   * Replacing the record of an unclosed node (which therefore is nobody's
   * parent) by a well-formed record at the same location, whose parent link
   * is sound, keeps the node invariants.
   */
  lemma UpdateKeepsNodesAgree(strategy: Strategy, g: GridGraph, x: NodeRef, n': PathingNode)
    requires NodesAgree(strategy, g) && ValidRef(g, x) && !NodeAt(g, x).isClosed
    requires NodeOK(x, n') && n'.location == NodeAt(g, x).location
    requires n'.parent.Some? ==>
               var p := n'.parent.value;
               && ValidRef(g, p) && p != x && NodeAt(g, p).isClosed
               && NodeAt(g, p).g + 1.0 <= n'.g
               && Edge(strategy, Terrain(g), LocationOf(g, p), n'.location)
    ensures NodesAgree(strategy, WithNode(g, x, n'))
  {
    var g' := WithNode(g, x, n');
    assert Terrain(g') == Terrain(g);
    forall l | l in g'.nodes
      ensures g'.nodes[l].location == l
    {
      assert NodeAt(g', Cell(l)) == g'.nodes[l];
      if Cell(l) != x {
        assert NodeAt(g, Cell(l)) == g.nodes[l];
      }
    }
    assert ValidGraph(g');
    forall y | ValidRef(g', y)
      ensures NodeOK(y, NodeAt(g', y))
    {
      if y != x {
        assert NodeOK(y, NodeAt(g, y));
      }
    }
    forall y | ValidRef(g', y) && NodeAt(g', y).parent.Some?
      ensures ParentOK(strategy, g', y)
    {
      if y != x {
        assert ParentOK(strategy, g, y);
        var p := NodeAt(g, y).parent.value;
        assert p != x;
      }
    }
  }

  lemma AddStartKeepsConsistent(strategy: Strategy, s: SearchState, start: Loc)
    requires Consistent(strategy, s)
    ensures var r := AddStart(s, start);
            && Consistent(strategy, r)
            && LocationsKept(s.graph, r.graph)
            && Measure(r) == Measure(s) + 1
  {
    var r := AddStart(s, start);
    var k := |s.graph.startNodes|;
    assert forall x :: ValidRef(s.graph, x) ==> ValidRef(r.graph, x) && NodeAt(r.graph, x) == NodeAt(s.graph, x);
    assert forall x :: ValidRef(r.graph, x) ==> ValidRef(s.graph, x) || x == Start(k);
    assert Start(k) !in s.open;
    assert Unopened(r.graph) == Unopened(s.graph);
    forall y | ValidRef(r.graph, y) && NodeAt(r.graph, y).parent.Some?
      ensures ParentOK(strategy, r.graph, y)
    {
      assert ParentOK(strategy, s.graph, y);
    }
  }

  lemma DequeueKeepsConsistent(strategy: Strategy, s: SearchState, cur: NodeRef)
    requires Consistent(strategy, s) && cur in s.open
    ensures ValidRef(s.graph, cur)
    ensures var r := Dequeue(s, cur);
            && Consistent(strategy, r)
            && LocationsKept(s.graph, r.graph)
            && Measure(r) < Measure(s)
            && NodeAt(r.graph, cur).isClosed
  {
    var r := Dequeue(s, cur);
    var n := NodeAt(s.graph, cur);
    var n' := n.(isClosed := true);
    assert NodeOK(cur, n);
    if n.parent.Some? {
      assert ParentOK(strategy, s.graph, cur);
    }
    UpdateKeepsNodesAgree(strategy, s.graph, cur, n');
    assert Unopened(r.graph) == Unopened(s.graph);
    assert QueueAgrees(r);
    assert forall i :: 0 <= i < |s.events| ==> s.events[i] != NodeVisited(cur);
    assert LogAgrees(r);
  }

  /** The precondition of a relaxation step inside an expansion. */
  ghost predicate RelaxReady(strategy: Strategy, s: SearchState, cur: NodeRef, t: Loc) {
    && Consistent(strategy, s)
    && ValidRef(s.graph, cur) && NodeAt(s.graph, cur).isClosed
    && t in s.graph.nodes && Edge(strategy, Terrain(s.graph), LocationOf(s.graph, cur), t)
  }

  /** Whether the relaxation changes anything: the node is not closed and is unopened or improved. */
  ghost predicate Improves(s: SearchState, cur: NodeRef, t: Loc)
    requires ValidRef(s.graph, cur) && t in s.graph.nodes
  {
    var n := s.graph.nodes[t];
    var ng := NodeAt(s.graph, cur).g + Octile(LocationOf(s.graph, cur), t);
    !n.isClosed && (!n.isOpened || ng < n.g)
  }

  lemma RelaxKeepsNodes(strategy: Strategy, s: SearchState, cur: NodeRef, t: Loc, goal: Loc)
    requires RelaxReady(strategy, s, cur, t)
    ensures NodesAgree(strategy, Relax(s, cur, t, goal).graph)
  {
    var r := Relax(s, cur, t, goal);
    if Improves(s, cur, t) {
      var n, n' := s.graph.nodes[t], r.graph.nodes[t];
      assert NodeAt(s.graph, Cell(t)) == n;
      assert n.location == t;
      EdgeDistinct(strategy, Terrain(s.graph), LocationOf(s.graph, cur), t);
      OctileAtLeastOne(LocationOf(s.graph, cur), t);
      assert NodeOK(cur, NodeAt(s.graph, cur));
      assert NodeOK(Cell(t), n');
      UpdateKeepsNodesAgree(strategy, s.graph, Cell(t), n');
    }
  }

  lemma RelaxKeepsQueue(strategy: Strategy, s: SearchState, cur: NodeRef, t: Loc, goal: Loc)
    requires RelaxReady(strategy, s, cur, t)
    ensures QueueAgrees(Relax(s, cur, t, goal))
  {
  }

  lemma RelaxKeepsLog(strategy: Strategy, s: SearchState, cur: NodeRef, t: Loc, goal: Loc)
    requires RelaxReady(strategy, s, cur, t)
    ensures var r := Relax(s, cur, t, goal);
            && LogAgrees(r)
            && OnlyOpenedAppended(s.events, r.events)
  {
    var r := Relax(s, cur, t, goal);
    if Improves(s, cur, t) && !s.graph.nodes[t].isOpened {
      assert r.events[..|s.events|] == s.events;
      assert NodeAt(s.graph, Cell(t)) == s.graph.nodes[t];
      assert forall i :: 0 <= i < |s.events| ==> s.events[i].at != Cell(t);
    }
  }

  /** Opening the record at `t` takes `t` out of the unopened cells. */
  lemma UnopenedAfterOpening(g: GridGraph, t: Loc, n': PathingNode)
    requires t in g.nodes && n'.isOpened
    ensures Unopened(g.(nodes := g.nodes[t := n'])) == Unopened(g) - {t}
  {
  }

  /** A relaxation does not grow the measure: it opens at most one node, and only an unopened one. */
  lemma RelaxMeasure(s: SearchState, cur: NodeRef, t: Loc, goal: Loc)
    requires QueueAgrees(s) && ValidRef(s.graph, cur) && t in s.graph.nodes
    ensures Measure(Relax(s, cur, t, goal)) <= Measure(s)
  {
    var r := Relax(s, cur, t, goal);
    if Improves(s, cur, t) {
      var n := s.graph.nodes[t];
      assert NodeAt(s.graph, Cell(t)) == n;
      UnopenedAfterOpening(s.graph, t, r.graph.nodes[t]);
      assert r.graph.nodes == s.graph.nodes[t := r.graph.nodes[t]];
      if n.isOpened {
        assert Cell(t) in s.open;
        assert r.open.Keys == s.open.Keys;
      } else {
        assert t in Unopened(s.graph);
      }
    }
  }

  lemma RelaxShrinks(strategy: Strategy, s: SearchState, cur: NodeRef, t: Loc, goal: Loc)
    requires RelaxReady(strategy, s, cur, t)
    ensures var r := Relax(s, cur, t, goal);
            && Measure(r) <= Measure(s)
            && LocationsKept(s.graph, r.graph)
            && |r.graph.startNodes| == |s.graph.startNodes|
            && NodeAt(r.graph, cur) == NodeAt(s.graph, cur)
  {
    RelaxMeasure(s, cur, t, goal);
    if Improves(s, cur, t) {
      assert NodeAt(s.graph, Cell(t)) == s.graph.nodes[t];
    }
  }

  lemma RelaxKeepsConsistent(strategy: Strategy, s: SearchState, cur: NodeRef, t: Loc, goal: Loc)
    requires RelaxReady(strategy, s, cur, t)
    ensures var r := Relax(s, cur, t, goal);
            && Consistent(strategy, r)
            && LocationsKept(s.graph, r.graph)
            && |r.graph.startNodes| == |s.graph.startNodes|
            && Measure(r) <= Measure(s)
            && NodeAt(r.graph, cur) == NodeAt(s.graph, cur)
            && OnlyOpenedAppended(s.events, r.events)
  {
    RelaxKeepsNodes(strategy, s, cur, t, goal);
    RelaxKeepsQueue(strategy, s, cur, t, goal);
    RelaxKeepsLog(strategy, s, cur, t, goal);
    RelaxShrinks(strategy, s, cur, t, goal);
  }

  /** `b` extends `a` by opened events only. */
  predicate OnlyOpenedAppended(a: seq<Event>, b: seq<Event>) {
    && |b| >= |a| && b[..|a|] == a
    && (forall i :: |a| <= i < |b| ==> b[i].NodeAddOpenSet?)
  }

  lemma OnlyOpenedAppendedTransitive(a: seq<Event>, b: seq<Event>, c: seq<Event>)
    requires OnlyOpenedAppended(a, b) && OnlyOpenedAppended(b, c)
    ensures OnlyOpenedAppended(a, c)
  {
    assert c[..|a|] == c[..|b|][..|a|];
    forall i | |a| <= i < |c|
      ensures c[i].NodeAddOpenSet?
    {
      if i < |b| {
        assert c[i] == c[..|b|][i];
      }
    }
  }

  lemma LocationsKeptTransitive(g0: GridGraph, g1: GridGraph, g2: GridGraph)
    requires LocationsKept(g0, g1) && LocationsKept(g1, g2)
    ensures LocationsKept(g0, g2)
  {
  }

  /** The precondition of the relaxations of one expansion. */
  ghost predicate ExpandReady(strategy: Strategy, s: SearchState, cur: NodeRef, ts: seq<Loc>) {
    && Consistent(strategy, s)
    && ValidRef(s.graph, cur) && NodeAt(s.graph, cur).isClosed
    && forall t :: t in ts ==> t in s.graph.nodes && Edge(strategy, Terrain(s.graph), LocationOf(s.graph, cur), t)
  }

  lemma {:induction false} RelaxAllKeepsConsistent(strategy: Strategy, s: SearchState, cur: NodeRef, ts: seq<Loc>, goal: Loc)
    requires ExpandReady(strategy, s, cur, ts)
    ensures var r := RelaxAll(s, cur, ts, goal);
            && Consistent(strategy, r)
            && LocationsKept(s.graph, r.graph)
            && |r.graph.startNodes| == |s.graph.startNodes|
            && Measure(r) <= Measure(s)
            && OnlyOpenedAppended(s.events, r.events)
            && ValidRef(r.graph, cur) && NodeAt(r.graph, cur) == NodeAt(s.graph, cur)
    decreases |ts|
  {
    if ts != [] {
      var s1 := Relax(s, cur, ts[0], goal);
      RelaxKeepsConsistent(strategy, s, cur, ts[0], goal);
      assert Terrain(s1.graph) == Terrain(s.graph);
      assert ExpandReady(strategy, s1, cur, ts[1..]);
      RelaxAllKeepsConsistent(strategy, s1, cur, ts[1..], goal);
      var r := RelaxAll(s1, cur, ts[1..], goal);
      assert r == RelaxAll(s, cur, ts, goal);
      LocationsKeptTransitive(s.graph, s1.graph, r.graph);
      OnlyOpenedAppendedTransitive(s.events, s1.events, r.events);
    }
  }

  // ---------------------------------------------------------------------------
  // Tracing the result

  /** A parent has G at least 1 below its child, so the integer part of G drops along a chain. */
  lemma FloorDrops(a: real, b: real)
    requires 0.0 <= a && a + 1.0 <= b
    ensures 0 <= a.Floor < b.Floor
  {
  }

  /** Every parent link of a chain is an edge of the strategy. */
  predicate ChainEdges(strategy: Strategy, t: GridGraph, c: Chain) {
    match c
    case Root(_) => true
    case Link(l, p) => Edge(strategy, t, p.location, l) && ChainEdges(strategy, t, p)
  }

  /**
   * The parent chain of the node `r`, read out of the records. It ends
   * because a parent's G is at least 1 below its child's.
   */
  function Lineage(strategy: Strategy, g: GridGraph, r: NodeRef): (c: Chain)
    requires NodesAgree(strategy, g) && ValidRef(g, r)
    ensures c.location == LocationOf(g, r)
    ensures ChainEdges(strategy, Terrain(g), c)
    decreases NodeAt(g, r).g.Floor
  {
    var n := NodeAt(g, r);
    match n.parent
    case None => Root(n.location)
    case Some(p) =>
      assert ParentOK(strategy, g, r);
      assert NodeOK(p, NodeAt(g, p));
      FloorDrops(NodeAt(g, p).g, n.g);
      Link(n.location, Lineage(strategy, g, p))
  }

  /** Consecutive cells of a chain's locations are joined by edges. */
  lemma {:induction false} ChainEdgesConsecutive(strategy: Strategy, t: GridGraph, c: Chain)
    requires ChainEdges(strategy, t, c)
    ensures forall i :: 0 <= i < |ChainLocs(c)| - 1 ==> Edge(strategy, t, ChainLocs(c)[i], ChainLocs(c)[i + 1])
  {
    match c
    case Root(_) =>
    case Link(l, p) =>
      ChainEdgesConsecutive(strategy, t, p);
      var s := ChainLocs(c);
      assert s == ChainLocs(p) + [l];
      forall i | 0 <= i < |s| - 1
        ensures Edge(strategy, t, s[i], s[i + 1])
      {
        if i + 1 < |ChainLocs(p)| {
          assert s[i] == ChainLocs(p)[i] && s[i + 1] == ChainLocs(p)[i + 1];
        }
      }
  }

  /**
   * The node record the chain of `r` ends at: a node without parent, and a
   * start node whenever `r` has been opened (graph nodes are opened together
   * with a parent).
   */
  ghost function RootRef(strategy: Strategy, g: GridGraph, r: NodeRef): (root: NodeRef)
    requires NodesAgree(strategy, g) && ValidRef(g, r)
    ensures ValidRef(g, root) && NodeAt(g, root).parent.None?
    ensures RootOf(Lineage(strategy, g, r)).location == LocationOf(g, root)
    ensures NodeAt(g, r).isOpened ==> root.Start?
    decreases NodeAt(g, r).g.Floor
  {
    var n := NodeAt(g, r);
    assert NodeOK(r, n);
    match n.parent
    case None => r
    case Some(p) =>
      assert ParentOK(strategy, g, r);
      assert NodeOK(p, NodeAt(g, p));
      FloorDrops(NodeAt(g, p).g, n.g);
      RootRef(strategy, g, p)
  }

  // ---------------------------------------------------------------------------
  // The search loop

  /**
   * The node `Dequeue` hands out: an entry of least priority. The source's
   * queue breaks ties by its own heap order; any least entry may come out here.
   */
  method PopMin(m: map<NodeRef, real>) returns (r: NodeRef)
    requires |m| > 0
    ensures r in m && forall x :: x in m ==> m[r] <= m[x]
  {
    assert m.Keys != {};
    r :| r in m;
    var rest := m.Keys - {r};
    while rest != {}
      invariant r in m && rest <= m.Keys
      invariant forall x :: x in m && x !in rest ==> m[r] <= m[x]
      decreases rest
    {
      var y :| y in rest;
      if m[y] < m[r] {
        r := y;
      }
      rest := rest - {y};
    }
  }

  /** No visited event from position `from` on (the last `skipLast` events excepted) is at the goal. */
  ghost predicate GoalNotVisited(s: SearchState, from: nat, skipLast: nat, goal: Loc)
    requires LogAgrees(s)
  {
    forall i :: from <= i < |s.events| - skipLast && s.events[i].NodeVisited? ==>
      LocationOf(s.graph, s.events[i].at) != goal
  }

  /** A prefix of a prefix. */
  lemma PrefixKept(p: seq<Event>, a: seq<Event>, b: seq<Event>)
    requires |p| <= |a| <= |b| && a[..|p|] == p && b[..|a|] == a
    ensures b[..|p|] == p
  {
    assert b[..|p|] == b[..|a|][..|p|];
  }

  /**
   * The expansion of the closed node `cur` (the `foreach` over the graph's
   * neighbours in A*, over `IdentitySuccessors` in JPS): its successors,
   * enumerated with the location of its parent as direction, relaxed in order.
   * It keeps the records consistent, changes no location, opens no start node,
   * does not grow the measure and only logs opened events.
   */
  method Expand(strategy: Strategy, s: SearchState, cur: NodeRef, goal: Loc) returns (r: SearchState)
    requires Consistent(strategy, s) && ValidRef(s.graph, cur) && NodeAt(s.graph, cur).isClosed
    ensures Consistent(strategy, r)
    ensures LocationsKept(s.graph, r.graph) && |r.graph.startNodes| == |s.graph.startNodes|
    ensures Measure(r) <= Measure(s)
    ensures OnlyOpenedAppended(s.events, r.events)
    ensures ValidRef(r.graph, cur) && NodeAt(r.graph, cur) == NodeAt(s.graph, cur)
  {
    var n := NodeAt(s.graph, cur);
    var parent: Option<Loc> := None;
    if n.parent.Some? {
      assert ParentOK(strategy, s.graph, cur);
      EdgeDistinct(strategy, Terrain(s.graph), LocationOf(s.graph, n.parent.value), n.location);
      parent := Some(LocationOf(s.graph, n.parent.value));
    }
    var ts := Successors(strategy, Terrain(s.graph), goal, n.location, parent);
    forall t | t in ts
      ensures t in s.graph.nodes
    {
      NavigableHasNode(s.graph, t);
    }
    RelaxAllKeepsConsistent(strategy, s, cur, ts, goal);
    r := RelaxAll(s, cur, ts, goal);
  }

  /** The traced path of a node ends at it and follows edges of the search's terrain. */
  lemma TracedPath(strategy: Strategy, g0: GridGraph, g: GridGraph, r: NodeRef)
    requires NodesAgree(strategy, g) && ValidRef(g, r) && Terrain(g) == Terrain(g0)
    ensures var p := Trace(Lineage(strategy, g, r)).nodes;
            && p[|p| - 1] == LocationOf(g, r)
            && forall i :: 0 <= i < |p| - 1 ==> Edge(strategy, Terrain(g0), p[i], p[i + 1])
  {
    ChainEdgesConsecutive(strategy, Terrain(g), Lineage(strategy, g, r));
  }

  /** With a single start node, the traced path of an opened node begins there. */
  lemma TracedFromStart(strategy: Strategy, g: GridGraph, r: NodeRef)
    requires NodesAgree(strategy, g) && ValidRef(g, r) && NodeAt(g, r).isOpened && |g.startNodes| == 1
    ensures Trace(Lineage(strategy, g, r)).nodes[0] == LocationOf(g, Start(0))
  {
    var c := Lineage(strategy, g, r);
    var root := RootRef(strategy, g, r);
    assert root == Start(0);
    assert Trace(c).nodes[0] == RootOf(c).location;
  }

  /** What `Run` promises about the path it returns once the goal node `r` has been dequeued into `d`. */
  lemma GoalReached(strategy: Strategy, s: SearchState, d: SearchState, r: NodeRef, start: Loc, goal: Loc)
    requires NodesAgree(strategy, d.graph) && LocationsKept(s.graph, d.graph)
    requires |d.graph.startNodes| == |s.graph.startNodes| + 1
    requires LocationOf(d.graph, Start(|s.graph.startNodes|)) == start
    requires ValidRef(d.graph, r) && NodeAt(d.graph, r).isClosed && LocationOf(d.graph, r) == goal
    ensures var p := Trace(Lineage(strategy, d.graph, r));
            && p.nodes[|p.nodes| - 1] == goal
            && (forall i :: 0 <= i < |p.nodes| - 1 ==> Edge(strategy, Terrain(s.graph), p.nodes[i], p.nodes[i + 1]))
            && (s.graph.startNodes == [] ==> p.nodes[0] == start)
  {
    TracedPath(strategy, s.graph, d.graph, r);
    if s.graph.startNodes == [] {
      ClosedTracedFromStart(strategy, d.graph, r, start);
    }
  }

  /** A closed node's traced path begins at the only start node. */
  lemma ClosedTracedFromStart(strategy: Strategy, g: GridGraph, r: NodeRef, start: Loc)
    requires NodesAgree(strategy, g) && ValidRef(g, r) && NodeAt(g, r).isClosed
    requires |g.startNodes| == 1 && LocationOf(g, Start(0)) == start
    ensures Trace(Lineage(strategy, g, r)).nodes[0] == start
  {
    assert NodeOK(r, NodeAt(g, r));
    TracedFromStart(strategy, g, r);
  }

  /**
   * What holds of `s'` throughout a search that began in `s`: the records are
   * consistent, no location has changed, one start node at `start` has been
   * added, and the log extends the earlier log by the start node's opened event.
   */
  ghost predicate Started(strategy: Strategy, s: SearchState, s': SearchState, start: Loc) {
    && Consistent(strategy, s')
    && LocationsKept(s.graph, s'.graph)
    && |s'.graph.startNodes| == |s.graph.startNodes| + 1
    && LocationOf(s'.graph, Start(|s.graph.startNodes|)) == start
    && |s'.events| > |s.events| && s'.events[..|s.events|] == s.events
    && s'.events[|s.events|] == NodeAddOpenSet(Start(|s.graph.startNodes|))
  }

  /**
   * The path `p` returned from `s'`: the last event is the visit of a node at
   * the goal and no earlier visit of this search was at the goal; `p` ends at
   * the goal, each step is an edge of the strategy, on a graph searched for
   * the first time it begins at the start, and it is the trace of the node
   * whose visit ended the search.
   */
  ghost predicate Found(strategy: Strategy, s: SearchState, s': SearchState, start: Loc, goal: Loc, p: Path)
    requires LogAgrees(s') && |s'.events| > 0
  {
    && GoalNotVisited(s', |s.events|, 1, goal)
    && s'.events[|s'.events| - 1].NodeVisited?
    && LocationOf(s'.graph, s'.events[|s'.events| - 1].at) == goal
    && |p.nodes| > 0 && p.nodes[|p.nodes| - 1] == goal
    && (forall i :: 0 <= i < |p.nodes| - 1 ==> Edge(strategy, Terrain(s.graph), p.nodes[i], p.nodes[i + 1]))
    && (s.graph.startNodes == [] ==> p.nodes[0] == start)
    && (NodesAgree(strategy, s'.graph) ==> p == Trace(Lineage(strategy, s'.graph, s'.events[|s'.events| - 1].at)))
  }

  /** The record of a search's first step: the start node is added, enqueued and announced. */
  lemma StartStarts(strategy: Strategy, s: SearchState, start: Loc, goal: Loc)
    requires Consistent(strategy, s)
    ensures var st := AddStart(s, start);
            && Started(strategy, s, st, start)
            && GoalNotVisited(st, |s.events|, 0, goal)
  {
    AddStartKeepsConsistent(strategy, s, start);
    var st := AddStart(s, start);
    assert st.events[..|s.events|] == s.events;
  }

  /** A step that keeps the records consistent, locations and start nodes, and extends the log, keeps the search started. */
  lemma StartedKept(strategy: Strategy, s: SearchState, st: SearchState, next: SearchState, start: Loc)
    requires Started(strategy, s, st, start)
    requires Consistent(strategy, next) && LocationsKept(st.graph, next.graph)
    requires |next.graph.startNodes| == |st.graph.startNodes|
    requires |next.events| > |st.events| && next.events[..|st.events|] == st.events
    ensures Started(strategy, s, next, start)
  {
    LocationsKeptTransitive(s.graph, st.graph, next.graph);
    PrefixKept(s.events, st.events, next.events);
    assert next.events[|s.events|] == next.events[..|st.events|][|s.events|];
  }

  /** A step whose new events are its visit of `cur`, not at the goal, and opened events logs no visit at the goal. */
  lemma ContinueLog(st: SearchState, next: SearchState, cur: NodeRef, from: nat, goal: Loc)
    requires LogAgrees(st) && LogAgrees(next) && LocationsKept(st.graph, next.graph)
    requires from <= |st.events| && GoalNotVisited(st, from, 0, goal)
    requires ValidRef(next.graph, cur) && LocationOf(next.graph, cur) != goal
    requires OnlyOpenedAppended(st.events + [NodeVisited(cur)], next.events)
    ensures GoalNotVisited(next, from, 0, goal)
  {
    forall i | from <= i < |next.events| && next.events[i].NodeVisited?
      ensures LocationOf(next.graph, next.events[i].at) != goal
    {
      assert next.events[i] == next.events[..|st.events| + 1][i];
    }
  }

  /** A step whose only new event is the visit of `cur` keeps every earlier visit away from the goal. */
  lemma FoundLog(st: SearchState, next: SearchState, cur: NodeRef, from: nat, goal: Loc)
    requires LogAgrees(st) && LogAgrees(next) && LocationsKept(st.graph, next.graph)
    requires from <= |st.events| && GoalNotVisited(st, from, 0, goal)
    requires next.events == st.events + [NodeVisited(cur)]
    ensures GoalNotVisited(next, from, 1, goal)
    ensures next.events[|next.events| - 1] == NodeVisited(cur)
  {
    forall i | from <= i < |next.events| - 1 && next.events[i].NodeVisited?
      ensures LocationOf(next.graph, next.events[i].at) != goal
    {
      assert next.events[i] == st.events[i];
    }
  }

  /** A step that dequeues the goal ends the search with a path from the start to it. */
  lemma StepFinds(strategy: Strategy, s: SearchState, st: SearchState, next: SearchState, cur: NodeRef, start: Loc, goal: Loc, p: Path)
    requires LogAgrees(st) && LogAgrees(next) && LocationsKept(st.graph, next.graph)
    requires |s.events| <= |st.events| && GoalNotVisited(st, |s.events|, 0, goal)
    requires next.events == st.events + [NodeVisited(cur)]
    requires ValidRef(next.graph, cur) && LocationOf(next.graph, cur) == goal
    requires |p.nodes| > 0 && p.nodes[|p.nodes| - 1] == goal
    requires forall i :: 0 <= i < |p.nodes| - 1 ==> Edge(strategy, Terrain(s.graph), p.nodes[i], p.nodes[i + 1])
    requires s.graph.startNodes == [] ==> p.nodes[0] == start
    requires NodesAgree(strategy, next.graph) ==> p == Trace(Lineage(strategy, next.graph, cur))
    ensures Found(strategy, s, next, start, goal, p)
  {
    FoundLog(st, next, cur, |s.events|, goal);
  }

  /** Dequeueing the goal node `cur`: the search ends with its trace. */
  method Arrive(strategy: Strategy, s: SearchState, start: Loc, goal: Loc, st: SearchState, cur: NodeRef)
      returns (next: SearchState, p: Path)
    requires Started(strategy, s, st, start) && GoalNotVisited(st, |s.events|, 0, goal)
    requires cur in st.open && ValidRef(st.graph, cur) && LocationOf(st.graph, cur) == goal
    ensures next == Dequeue(st, cur)
    ensures Started(strategy, s, next, start) && Found(strategy, s, next, start, goal, p)
  {
    DequeueKeepsConsistent(strategy, st, cur);
    next := Dequeue(st, cur);
    assert next.events[..|st.events|] == st.events;
    StartedKept(strategy, s, st, next, start);
    p := Trace(Lineage(strategy, next.graph, cur));
    GoalReached(strategy, s, next, cur, start, goal);
    StepFinds(strategy, s, st, next, cur, start, goal, p);
  }

  /** Dequeueing a node `cur` away from the goal and expanding it. */
  method Advance(strategy: Strategy, s: SearchState, start: Loc, goal: Loc, st: SearchState, cur: NodeRef)
      returns (next: SearchState)
    requires Started(strategy, s, st, start) && GoalNotVisited(st, |s.events|, 0, goal)
    requires cur in st.open && ValidRef(st.graph, cur) && LocationOf(st.graph, cur) != goal
    ensures Started(strategy, s, next, start) && GoalNotVisited(next, |s.events|, 0, goal)
    ensures Measure(next) < Measure(st)
    ensures |next.events| > |st.events| && next.events[..|st.events|] == st.events
    ensures next.events[|st.events|] == NodeVisited(cur)
  {
    DequeueKeepsConsistent(strategy, st, cur);
    var d := Dequeue(st, cur);
    next := Expand(strategy, d, cur, goal);
    LocationsKeptTransitive(st.graph, d.graph, next.graph);
    PrefixKept(st.events, d.events, next.events);
    assert next.events[|st.events|] == next.events[..|d.events|][|st.events|];
    StartedKept(strategy, s, st, next, start);
    ContinueLog(st, next, cur, |s.events|, goal);
  }

  /**
   * One iteration of the `while (_open.Count != 0)` loop of a search that
   * began in `s`: the node `cur` of least F is dequeued, closed and announced.
   * At the goal the loop ends with a path; otherwise `cur` is expanded, no
   * visit so far was at the goal, and the measure drops.
   */
  method SearchStep(strategy: Strategy, s: SearchState, start: Loc, goal: Loc, st: SearchState)
      returns (next: SearchState, cur: NodeRef, found: Option<Path>)
    requires Started(strategy, s, st, start) && GoalNotVisited(st, |s.events|, 0, goal) && |st.open| > 0
    ensures cur in st.open && forall x :: x in st.open ==> st.open[cur] <= st.open[x]
    ensures Started(strategy, s, next, start)
    ensures |next.events| > |st.events| && next.events[..|st.events|] == st.events
    ensures next.events[|st.events|] == NodeVisited(cur)
    ensures found.Some? ==> Found(strategy, s, next, start, goal, found.value)
    ensures found.None? ==> GoalNotVisited(next, |s.events|, 0, goal) && Measure(next) < Measure(st)
  {
    cur := PopMin(st.open);
    assert ValidRef(st.graph, cur);
    if LocationOf(st.graph, cur) == goal {
      var p;
      next, p := Arrive(strategy, s, start, goal, st, cur);
      assert next.events == st.events + [NodeVisited(cur)];
      assert next.events[..|st.events|] == st.events;
      found := Some(p);
    } else {
      next := Advance(strategy, s, start, goal, st, cur);
      found := None;
    }
  }

  /**
   * One `FindPath` of `AtarPathfinder` (A*) or `JPSPathfinder` (JPS) on an
   * initialised finder: the start node is created, enqueued and announced;
   * then the least-F node is dequeued, closed and announced as visited, and
   * either it is at the goal and its trace is the result, or it is expanded.
   * An emptied queue means no path, and then no visit was at the goal.
   */
  method Run(strategy: Strategy, s: SearchState, start: Loc, goal: Loc) returns (s': SearchState, path: Option<Path>)
    requires Consistent(strategy, s)
    ensures Started(strategy, s, s', start)
    ensures path.None? ==> s'.open == map[] && GoalNotVisited(s', |s.events|, 0, goal)
    ensures path.Some? ==> Found(strategy, s, s', start, goal, path.value)
  {
    StartStarts(strategy, s, start, goal);
    var st := AddStart(s, start);
    while |st.open| > 0
      invariant Started(strategy, s, st, start) && GoalNotVisited(st, |s.events|, 0, goal)
      decreases Measure(st)
    {
      var next, cur, found := SearchStep(strategy, s, start, goal, st);
      if found.Some? {
        return next, found;
      }
      st := next;
    }
    return st, None;
  }

  // ---------------------------------------------------------------------------
  // A graph no search has touched

  /** A graph as the `GridGraph` constructor leaves it: every record fresh, no start node yet. */
  ghost predicate Untouched(g: GridGraph) {
    && ValidGraph(g) && g.startNodes == []
    && (forall l :: l in g.nodes ==> g.nodes[l] == NewNodeAt(l))
  }

  /** A newly built graph is untouched. */
  lemma NewGraphUntouched(kind: GraphKind, navigable: Bitmap)
    ensures Untouched(NewGridGraph(kind, navigable))
  {
  }

  /** An untouched graph with an empty queue and an empty log is a consistent search state. */
  lemma UntouchedConsistent(strategy: Strategy, g: GridGraph)
    requires Untouched(g)
    ensures Consistent(strategy, SearchState(g, map[], []))
  {
    forall r | ValidRef(g, r)
      ensures NodeOK(r, NodeAt(g, r)) && NodeAt(g, r).parent.None? && !NodeAt(g, r).isOpened
    {
      assert r.Cell?;
    }
  }
}
