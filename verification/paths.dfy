/**
 * The `Path` record and parent-chain tracing of `IPathfinder`
 * (Assets/Scripts/Base/Pathfinder.cs). A path keeps both the node list and
 * the set of its locations; the tracing functions read a node's parent chain
 * through a `Chain` snapshot, which is acyclic by construction.
 */
module Paths {
  import opened Utils

  /** `Path`: the node list (as locations) and the location set beside it. */
  datatype Path = Path(nodes: seq<Loc>, locations: set<Loc>)

  const Empty: Path := Path([], {})

  /** The location set holds exactly the locations in the list. */
  ghost predicate Valid(p: Path) {
    forall l :: l in p.locations <==> l in p.nodes
  }

  /** `Path.AddNode`: appends to the list and records the location. */
  function AddNode(p: Path, l: Loc): (r: Path)
    ensures Valid(p) ==> Valid(r)
    ensures |r.nodes| == |p.nodes| + 1 && r.nodes[|p.nodes|] == l
    ensures r.nodes[..|p.nodes|] == p.nodes
  {
    Path(p.nodes + [l], p.locations + {l})
  }

  /** `Path.Reverse`: reverses the list; the location set is left alone. */
  function Reverse(p: Path): (r: Path)
    ensures |r.nodes| == |p.nodes|
    ensures forall i :: 0 <= i < |p.nodes| ==> r.nodes[i] == p.nodes[|p.nodes| - 1 - i]
    ensures Valid(p) ==> Valid(r)
  {
    Path(Backwards(p.nodes), p.locations)
  }

  /** The elements of `s` in reverse order. */
  function Backwards(s: seq<Loc>): (r: seq<Loc>)
    ensures |r| == |s|
    ensures forall i :: 0 <= i < |s| ==> r[i] == s[|s| - 1 - i]
    ensures forall x :: x in r <==> x in s
  {
    if s == [] then [] else Backwards(s[1..]) + [s[0]]
  }

  lemma BackwardsSnoc(s: seq<Loc>, x: Loc)
    ensures Backwards(s + [x]) == [x] + Backwards(s)
  {
    var a, b := Backwards(s + [x]), [x] + Backwards(s);
    assert forall i | 0 <= i < |a| :: a[i] == b[i];
  }

  lemma BackwardsTwice(s: seq<Loc>)
    ensures Backwards(Backwards(s)) == s
  {
    var r := Backwards(Backwards(s));
    assert forall i | 0 <= i < |s| :: r[i] == s[i];
  }

  /** `Path.Contains`: a set lookup. */
  function Contains(p: Path, l: Loc): (b: bool)
    ensures Valid(p) ==> (b <==> exists i :: 0 <= i < |p.nodes| && p.nodes[i] == l)
  {
    l in p.locations
  }

  /** `Path.NodeCount`. */
  function NodeCount(p: Path): (n: nat)
    ensures n == |p.nodes|
  {
    |p.nodes|
  }

  /** `Path.HasPath`: more than one node. */
  function HasPath(p: Path): bool {
    NodeCount(p) > 1
  }

  /** Reversing twice gives back the same path. */
  lemma ReverseTwice(p: Path)
    ensures Reverse(Reverse(p)) == p
  {
    assert Reverse(Reverse(p)).nodes == p.nodes;
  }

  /** Reversing keeps the node count and what the path contains. */
  lemma ReverseKeepsMembership(p: Path, l: Loc)
    ensures NodeCount(Reverse(p)) == NodeCount(p)
    ensures Contains(Reverse(p), l) == Contains(p, l)
    ensures Valid(p) ==> (l in Reverse(p).nodes <==> l in p.nodes)
  {
    if Valid(p) {
      assert Valid(Reverse(p));
    }
  }

  // ---------------------------------------------------------------------------
  // Parent chains

  /** A node as seen by `Trace`: its location and, unless it is a root, its parent. */
  datatype Chain = Root(location: Loc) | Link(location: Loc, parent: Chain)

  /** The number of nodes on the chain. */
  function Depth(c: Chain): nat {
    match c
    case Root(_) => 1
    case Link(_, p) => 1 + Depth(p)
  }

  /** The chain's locations from the root to the node itself. */
  function ChainLocs(c: Chain): (r: seq<Loc>)
    ensures |r| == Depth(c) && r[|r| - 1] == c.location
  {
    match c
    case Root(l) => [l]
    case Link(l, p) => ChainLocs(p) + [l]
  }

  /** The ancestor at position `i` of the root-first order (the root is 0, the node itself `Depth(c) - 1`). */
  function AncestorAt(c: Chain, i: nat): Chain
    requires i < Depth(c)
    decreases c
  {
    if i == Depth(c) - 1 then c else AncestorAt(c.parent, i)
  }

  /** The root at the end of the chain. */
  function RootOf(c: Chain): (r: Chain)
    ensures r.Root?
  {
    match c
    case Root(_) => c
    case Link(_, p) => RootOf(p)
  }

  /**
   * The `while (fNode.Parent != null)` loop of `Trace`: add the node, move to
   * the parent; add the root last. The list gains the chain node-first.
   */
  function Walk(p: Path, c: Chain): Path
    decreases c
  {
    match c
    case Root(l) => AddNode(p, l)
    case Link(l, q) => Walk(AddNode(p, l), q)
  }

  /** The walk appends the chain node-first. */
  lemma {:induction false} WalkNodes(p: Path, c: Chain)
    ensures Walk(p, c).nodes == p.nodes + Backwards(ChainLocs(c))
    decreases c
  {
    match c
    case Root(l) =>
    case Link(l, q) =>
      var a, b := p.nodes, Backwards(ChainLocs(q));
      calc {
        Walk(p, c).nodes;
        Walk(AddNode(p, l), q).nodes;
        { WalkNodes(AddNode(p, l), q); }
        (a + [l]) + b;
        a + ([l] + b);
        { BackwardsSnoc(ChainLocs(q), l); }
        a + Backwards(ChainLocs(q) + [l]);
      }
  }

  /** The walk keeps the location set in step with the list. */
  lemma {:induction false} WalkValid(p: Path, c: Chain)
    requires Valid(p)
    ensures Valid(Walk(p, c))
    decreases c
  {
    match c
    case Root(l) =>
    case Link(l, q) =>
      WalkValid(AddNode(p, l), q);
  }

  /** `IPathfinder.Trace(fNode)`: walk to the root, then reverse. */
  function Trace(c: Chain): (r: Path)
    ensures Valid(r)
    ensures r.nodes == ChainLocs(c)
    ensures |r.nodes| >= 1
    ensures r.nodes[0] == RootOf(c).location && r.nodes[|r.nodes| - 1] == c.location
  {
    var w := Walk(Empty, c);
    WalkNodes(Empty, c);
    WalkValid(Empty, c);
    assert w.nodes == Backwards(ChainLocs(c));
    BackwardsTwice(ChainLocs(c));
    RootFirst(c);
    Reverse(w)
  }

  lemma {:induction false} RootFirst(c: Chain)
    ensures ChainLocs(c)[0] == RootOf(c).location
  {
    match c
    case Root(_) =>
    case Link(_, p) =>
      RootFirst(p);
  }

  /** In a traced path every node is the parent of the node after it. */
  lemma {:induction false} TraceFollowsParents(c: Chain, i: nat)
    requires i + 1 < Depth(c)
    ensures AncestorAt(c, i + 1).Link? && AncestorAt(c, i + 1).parent == AncestorAt(c, i)
    ensures Trace(c).nodes[i] == AncestorAt(c, i).location
    ensures Trace(c).nodes[i + 1] == AncestorAt(c, i + 1).location
    decreases c
  {
    if i + 1 == Depth(c) - 1 {
      LastOfPrefix(c.parent, i);
    } else {
      TraceFollowsParents(c.parent, i);
    }
    ChainPositions(c, i);
    ChainPositions(c, i + 1);
  }

  lemma LastOfPrefix(c: Chain, i: nat)
    requires i == Depth(c) - 1
    ensures AncestorAt(c, i) == c
  {
  }

  lemma {:induction false} ChainPositions(c: Chain, i: nat)
    requires i < Depth(c)
    ensures ChainLocs(c)[i] == AncestorAt(c, i).location
    decreases c
  {
    if i < Depth(c) - 1 {
      ChainPositions(c.parent, i);
    }
  }

  /** A traced path has an edge exactly when the node has a parent. */
  lemma TraceHasPath(c: Chain)
    ensures HasPath(Trace(c)) <==> c.Link?
  {
  }
}
