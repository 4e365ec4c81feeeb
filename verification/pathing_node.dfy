/** The per-node search record (Assets/Scripts/Base/PathingNode.cs). */
module PathingNodes {
  import opened Wrappers
  import opened Utils

  /**
   * A reference to a `PathingNode` object: the graph's node for a cell, or
   * the start node that the `serial`-th search on a graph created.
   */
  datatype NodeRef = Cell(loc: Loc) | Start(serial: nat)

  /**
   * The search record of one node. `h` is the cached heuristic (`double?`:
   * `None` means "not computed yet", which is different from 0); `parent` is
   * the predecessor on the best known path, `None` for a null reference.
   */
  datatype PathingNode = PathingNode(
    location: Loc,
    isBlock: bool,
    h: Option<real>,
    f: real,
    g: real,
    isOpened: bool,
    isClosed: bool,
    parent: Option<NodeRef>)

  /** `new PathingNode(location)`: every other field keeps its C# default. */
  function NewNodeAt(location: Loc): (n: PathingNode)
    ensures n.location == location
    ensures n.h.None?
    ensures !n.isOpened && !n.isClosed
    ensures n.parent.None? && !n.isBlock
  {
    PathingNode(location, false, None, 0.0, 0.0, false, false, None)
  }

  /** `new PathingNode(x, y)`, which delegates to the `Vector2Int` constructor. */
  function NewNode(x: int, y: int): PathingNode {
    NewNodeAt(Loc(x, y))
  }

  /** The two constructors build the same node for the same coordinates. */
  lemma ConstructorsAgree(x: int, y: int)
    ensures NewNode(x, y) == NewNodeAt(Loc(x, y))
    ensures NewNode(x, y).location == Loc(x, y)
  {
  }
}
