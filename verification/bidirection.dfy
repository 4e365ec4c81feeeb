/**
 * `BidirectionAstarPathfinder`
 * (Assets/Scripts/Bidirection/BidirectionAstarPathfinder.cs): two
 * sub-finders, one searching from the start and one from the goal, stepped
 * alternately; each visit is checked against the nodes the other side has
 * expanded, and the first side to reach a cell the other knows stitches the
 * two parent chains into one path.
 *
 * The sub-finder class `AstarPathfinder` is not part of this model. A
 * sub-finder is represented by what it shows the combinator: the callbacks
 * each of its calls fires (with a snapshot of the node passed), whether its
 * `Step` answered true, and the nodes `TryGetExpandedNode` reports
 * afterwards. How those come about is a parameter, `SubModel`.
 */
module Bidirection {
  import opened Wrappers
  import opened Utils
  import opened Grid
  import opened Paths
  import opened Pathfinder

  /** A callback a sub-finder fires, with the node it passes. */
  datatype Notice = Opened(node: Chain) | Visited(node: Chain)

  /** One `Step` call of a sub-finder: the callbacks it fires, its answer, and what it has expanded afterwards. */
  datatype Stage = Stage(notices: seq<Notice>, done: bool, expanded: map<Loc, Chain>)

  /**
   * One search of a sub-finder: the callbacks its `Begin` fires, what it has
   * expanded after `Begin`, and its `n`-th `Step` call for every `n`.
   */
  datatype Run = Run(beginNotices: seq<Notice>, begun: map<Loc, Chain>, stage: nat -> Stage)

  /** The search an `AstarPathfinder` makes, given its graph, channel, settings, start and goal. */
  type SubModel = (Option<GridGraph>, int, Settings, Loc, Loc) -> Run

  /** A sub-finder: its graph and channel, and the search under way with the number of `Step` calls made. */
  datatype SubFinder = SubFinder(graph: Option<GridGraph>, channel: int, run: Option<Run>, taken: nat)

  /** The nodes the sub-finder reports through `TryGetExpandedNode`: none before its first `Begin`. */
  function Expanded(f: SubFinder): map<Loc, Chain> {
    match f.run
    case None => map[]
    case Some(run) => if f.taken == 0 then run.begun else run.stage(f.taken - 1).expanded
  }

  /** `TryGetExpandedNode` of a sub-finder. */
  function TryGetExpandedNode(f: SubFinder, l: Loc): (r: Option<Chain>)
    ensures r.Some? <==> l in Expanded(f)
    ensures r.Some? ==> r.value == Expanded(f)[l]
  {
    if l in Expanded(f) then Some(Expanded(f)[l]) else None
  }

  /** The sub-finder's `Begin`: its search starts over with no step taken. */
  function SubBegin(f: SubFinder, model: SubModel, settings: Settings, start: Loc, goal: Loc): (r: SubFinder)
    ensures r.graph == f.graph && r.channel == f.channel && r.taken == 0
    ensures r.run == Some(model(f.graph, f.channel, settings, start, goal))
    ensures Expanded(r) == r.run.value.begun
  {
    f.(run := Some(model(f.graph, f.channel, settings, start, goal)), taken := 0)
  }

  /** The stage the sub-finder's next `Step` call plays. */
  function NextStage(f: SubFinder): Stage
    requires f.run.Some?
  {
    f.run.value.stage(f.taken)
  }

  /** The sub-finder's `Step`: one more call taken, after which it has expanded what that stage says. */
  function SubStep(f: SubFinder): (r: SubFinder)
    requires f.run.Some?
    ensures r.graph == f.graph && r.channel == f.channel && r.run == f.run
    ensures r.taken == f.taken + 1
    ensures Expanded(r) == NextStage(f).expanded
  {
    f.(taken := f.taken + 1)
  }

  /**
   * The combinator's state: the base class, both sub-finders, `_meet`,
   * `_safeNum`, and the log of the notices its own callbacks received.
   */
  datatype BiFinder = BiFinder(
    base: Base,
    forward: SubFinder,
    backward: SubFinder,
    met: bool,
    safeNum: int,
    notices: seq<Notice>)

  /** A freshly constructed combinator: no graph, nothing begun, not met, counter 0. */
  function NewFinder(settings: Settings): (b: BiFinder)
    ensures !b.met && b.safeNum == 0 && b.notices == []
    ensures b.forward.run.None? && b.backward.run.None? && b.forward.graph.None? && b.backward.graph.None?
    ensures b.base.settings == settings && b.base.pathResult.None?
  {
    var sub := SubFinder(None, 0, None, 0);
    BiFinder(Base(settings, None, None), sub, sub, false, 0, [])
  }

  /**
   * `Initialize`: both sub-finders get the graph; the backward one is put on
   * channel 1. What the unseen `AstarPathfinder.Initialize` does beyond
   * storing the graph is not modelled: each sub-finder's search under way,
   * and so what its `TryGetExpandedNode` reports, is taken to be kept.
   */
  function Initialize(b: BiFinder, graph: GridGraph, maxSearchNodes: int): (r: BiFinder)
    ensures r.forward.graph == Some(graph) && r.backward.graph == Some(graph)
    ensures r.backward.channel == 1 && r.forward.channel == b.forward.channel
    ensures r.forward.run == b.forward.run && r.backward.run == b.backward.run
    ensures r.forward.taken == b.forward.taken && r.backward.taken == b.backward.taken
    ensures r.base == b.base && r.met == b.met && r.safeNum == b.safeNum && r.notices == b.notices
  {
    b.(forward := b.forward.(graph := Some(graph)), backward := b.backward.(graph := Some(graph), channel := 1))
  }

  // ---------------------------------------------------------------------------
  // Meeting and stitching

  /**
   * The stitched `Trace(fNode, bNode)`: the forward chain is walked to its
   * root and reversed, then the backward chain is walked from `bNode`'s
   * parent to its root.
   */
  function Stitch(fNode: Chain, bNode: Chain): (p: Path)
    requires bNode.Link?
    ensures Valid(p)
    ensures p.nodes == StitchedLocs(fNode, bNode)
  {
    WalkNodes(Trace(fNode), bNode.parent);
    WalkValid(Trace(fNode), bNode.parent);
    Walk(Trace(fNode), bNode.parent)
  }

  /** The cells of a stitched path: the forward chain root first, then the backward chain node-first from `bNode`'s parent. */
  function StitchedLocs(fNode: Chain, bNode: Chain): seq<Loc>
    requires bNode.Link?
  {
    ChainLocs(fNode) + Backwards(ChainLocs(bNode.parent))
  }

  /** A notice that meets the other side: a visit of a cell the other side has expanded. */
  predicate Meets(n: Notice, other: map<Loc, Chain>) {
    n.Visited? && n.node.location in other
  }

  /** The two nodes `CheckMeet` hands to `Trace`: the forward side's node always first. */
  function Pair(n: Notice, isForward: bool, other: map<Loc, Chain>): (c: (Chain, Chain))
    requires Meets(n, other)
    ensures isForward ==> c.0 == n.node
    ensures !isForward ==> c.1 == n.node
  {
    var o := other[n.node.location];
    if isForward then (n.node, o) else (o, n.node)
  }

  /** Stitching the pair fails only when the backward node is its search's root: its parent is null. */
  predicate Stitchable(n: Notice, isForward: bool, other: map<Loc, Chain>)
    requires Meets(n, other)
  {
    Pair(n, isForward, other).1.Link?
  }

  /** The exception `Trace` throws on reading the parent of a null node. */
  datatype Fault = NullReference

  /**
   * `CheckMeet`: when the visited node's cell is expanded on the other side,
   * the search has met and `pathResult` becomes the stitched path; the
   * stitching throws when the backward node has no parent.
   */
  function CheckMeet(b: BiFinder, node: Chain, isForward: bool, other: map<Loc, Chain>): (r: Result<BiFinder, Fault>)
    ensures node.location !in other ==> r == Success(b)
    ensures r.Failure? <==> Meets(Visited(node), other) && !Stitchable(Visited(node), isForward, other)
    ensures r.Success? && node.location in other ==>
              var fNode := if isForward then node else other[node.location];
              var bNode := if isForward then other[node.location] else node;
              && bNode.Link?
              && r.value == b.(met := true, base := b.base.(pathResult := r.value.base.pathResult))
              && r.value.base.pathResult.Some?
              && r.value.base.pathResult.value.nodes == StitchedLocs(fNode, bNode)
  {
    if node.location !in other then Success(b)
    else
      var c := Pair(Visited(node), isForward, other);
      if c.1.Root? then Failure(NullReference)
      else Success(b.(met := true, base := b.base.(pathResult := Some(Stitch(c.0, c.1)))))
  }

  /** `k` is the last notice of `ns` that meets the other side. */
  predicate LastMeeting(ns: seq<Notice>, other: map<Loc, Chain>, k: nat) {
    && k < |ns| && Meets(ns[k], other)
    && (forall j :: k < j < |ns| ==> !Meets(ns[j], other))
  }

  /** Some notice of `ns` meets the other side. */
  predicate AnyMeeting(ns: seq<Notice>, other: map<Loc, Chain>) {
    exists i :: 0 <= i < |ns| && Meets(ns[i], other)
  }

  /** Some notice of `ns` meets the other side at the other side's root. */
  predicate AnyFault(ns: seq<Notice>, isForward: bool, other: map<Loc, Chain>) {
    exists i :: 0 <= i < |ns| && Meets(ns[i], other) && !Stitchable(ns[i], isForward, other)
  }

  /**
   * The forwarding callbacks (`OnNodeAddOpenSet_*`, `OnNodeVisited_*`)
   * receiving the notices of one sub-finder call in order: each is passed
   * on unchanged, and each visit is checked for a meeting with `other`.
   */
  function Deliver(b: BiFinder, ns: seq<Notice>, isForward: bool, other: map<Loc, Chain>): (r: Result<BiFinder, Fault>)
    ensures r.Failure? <==> AnyFault(ns, isForward, other)
    ensures r.Success? ==>
              && r.value.notices == b.notices + ns
              && r.value.forward == b.forward && r.value.backward == b.backward
              && r.value.safeNum == b.safeNum && r.value.base.settings == b.base.settings
              && r.value.base.heuristicFunc == b.base.heuristicFunc
              && (r.value.met <==> b.met || AnyMeeting(ns, other))
              && (!AnyMeeting(ns, other) ==> r.value.base.pathResult == b.base.pathResult)
              && (forall k: nat :: LastMeeting(ns, other, k) ==>
                    var c := Pair(ns[k], isForward, other);
                    c.1.Link? && r.value.base.pathResult == Some(Stitch(c.0, c.1)))
    decreases |ns|
  {
    if ns == [] then Success(b)
    else
      var step := Receive(b, ns[0], isForward, other);
      if step.Failure? then Failure(step.error)
      else
        var r := Deliver(step.value, ns[1..], isForward, other);
        DeliverTail(ns, isForward, other);
        assert b.notices + ns == b.notices + [ns[0]] + ns[1..];
        r
  }

  /** One notice passed on: it is logged, and a visit is checked for a meeting with `other`. */
  function Receive(b: BiFinder, n: Notice, isForward: bool, other: map<Loc, Chain>): (r: Result<BiFinder, Fault>)
    ensures r.Failure? <==> Meets(n, other) && !Stitchable(n, isForward, other)
    ensures r.Success? ==>
              && r.value.notices == b.notices + [n]
              && r.value.forward == b.forward && r.value.backward == b.backward
              && r.value.safeNum == b.safeNum && r.value.base.settings == b.base.settings
              && r.value.base.heuristicFunc == b.base.heuristicFunc
              && (r.value.met <==> b.met || Meets(n, other))
              && (!Meets(n, other) ==> r.value.base.pathResult == b.base.pathResult)
              && (Meets(n, other) ==>
                    var c := Pair(n, isForward, other);
                    c.1.Link? && r.value.base.pathResult == Some(Stitch(c.0, c.1)))
  {
    var b1 := b.(notices := b.notices + [n]);
    if n.Visited? then CheckMeet(b1, n.node, isForward, other) else Success(b1)
  }

  /** The meeting facts of `ns` in terms of its first notice and the rest. */
  lemma DeliverTail(ns: seq<Notice>, isForward: bool, other: map<Loc, Chain>)
    requires ns != []
    ensures AnyFault(ns, isForward, other) <==>
              (Meets(ns[0], other) && !Stitchable(ns[0], isForward, other)) || AnyFault(ns[1..], isForward, other)
    ensures AnyMeeting(ns, other) <==> Meets(ns[0], other) || AnyMeeting(ns[1..], other)
    ensures forall k: nat :: LastMeeting(ns, other, k + 1) <==> LastMeeting(ns[1..], other, k)
    ensures LastMeeting(ns, other, 0) <==> Meets(ns[0], other) && !AnyMeeting(ns[1..], other)
  {
    if AnyFault(ns, isForward, other) && !(Meets(ns[0], other) && !Stitchable(ns[0], isForward, other)) {
      var i :| 0 <= i < |ns| && Meets(ns[i], other) && !Stitchable(ns[i], isForward, other);
      assert ns[1..][i - 1] == ns[i];
    }
    if AnyFault(ns[1..], isForward, other) {
      var i :| 0 <= i < |ns[1..]| && Meets(ns[1..][i], other) && !Stitchable(ns[1..][i], isForward, other);
      assert ns[i + 1] == ns[1..][i];
    }
    if AnyMeeting(ns, other) && !Meets(ns[0], other) {
      var i :| 0 <= i < |ns| && Meets(ns[i], other);
      assert ns[1..][i - 1] == ns[i];
    }
    if AnyMeeting(ns[1..], other) {
      var i :| 0 <= i < |ns[1..]| && Meets(ns[1..][i], other);
      assert ns[i + 1] == ns[1..][i];
    }
    forall k: nat
      ensures LastMeeting(ns, other, k + 1) <==> LastMeeting(ns[1..], other, k)
    {
      if LastMeeting(ns[1..], other, k) {
        forall j | k + 1 < j < |ns|
          ensures !Meets(ns[j], other)
        {
          assert ns[j] == ns[1..][j - 1];
        }
      }
      if LastMeeting(ns, other, k + 1) {
        forall j | k < j < |ns[1..]|
          ensures !Meets(ns[1..][j], other)
        {
          assert ns[1..][j] == ns[j + 1];
        }
      }
    }
    if Meets(ns[0], other) && !AnyMeeting(ns[1..], other) {
      forall j | 0 < j < |ns|
        ensures !Meets(ns[j], other)
      {
        assert ns[j] == ns[1..][j - 1];
      }
    }
  }

  // ---------------------------------------------------------------------------
  // Begin and Step

  /** The number of `Step` calls that answered false that the counter `_safeNum` allows. */
  const SafeLimit: int := 999999

  /**
   * `Begin`: the base class's `Begin`, met and counter reset, then the
   * forward sub-finder begins from the start to the goal and the backward
   * one from the goal to the start, both with this finder's settings; the
   * notices their `Begin` calls fire are delivered as during a `Step`.
   */
  function Begin(b: BiFinder, model: SubModel, start: Loc, goal: Loc): (r: Result<BiFinder, Fault>)
    ensures r.Success? ==>
              var fwd := SubBegin(b.forward, model, b.base.settings, start, goal);
              var bwd := SubBegin(b.backward, model, b.base.settings, goal, start);
              && r.value.forward == fwd && r.value.backward == bwd
              && r.value.safeNum == 0
              && r.value.base.settings == b.base.settings
              && r.value.base.heuristicFunc == Some(SelectHeuristic(b.base.settings.distanceMethod))
              && r.value.notices == b.notices + fwd.run.value.beginNotices + bwd.run.value.beginNotices
              && (r.value.met <==>
                    AnyMeeting(fwd.run.value.beginNotices, Expanded(b.backward)) ||
                    AnyMeeting(bwd.run.value.beginNotices, Expanded(fwd)))
              && (!r.value.met ==> r.value.base.pathResult.None?)
  {
    var b0 := b.(base := Pathfinder.Begin(b.base, start, goal), met := false, safeNum := 0);
    var fwd := SubBegin(b.forward, model, b.base.settings, start, goal);
    var d1 := Deliver(b0.(forward := fwd), fwd.run.value.beginNotices, true, Expanded(b0.backward));
    if d1.Failure? then Failure(d1.error)
    else
      var bwd := SubBegin(d1.value.backward, model, b.base.settings, goal, start);
      Deliver(d1.value.(backward := bwd), bwd.run.value.beginNotices, false, Expanded(d1.value.forward))
  }

  /** Both sub-finders have begun a search. */
  predicate Begun(b: BiFinder) {
    b.forward.run.Some? && b.backward.run.Some?
  }

  /**
   * `Step`: true at once when met; otherwise step the forward sub-finder,
   * delivering its notices against the backward side, and answer true if it
   * did; otherwise step the backward one likewise against the forward side;
   * otherwise count the call and answer true past the ceiling.
   */
  function Step(b: BiFinder): (r: Result<(BiFinder, bool), Fault>)
    requires Begun(b)
    ensures r.Success? ==> Begun(r.value.0) && r.value.0.base.settings == b.base.settings
    ensures r.Success? && r.value.1 ==>
              || b.met || NextStage(b.forward).done || NextStage(b.backward).done
              || r.value.0.safeNum > SafeLimit
  {
    if b.met then Success((b, true))
    else
      var fs := NextStage(b.forward);
      var d1 := Deliver(b.(forward := SubStep(b.forward)), fs.notices, true, Expanded(b.backward));
      if d1.Failure? then Failure(d1.error)
      else if fs.done then Success((d1.value, true))
      else
        var bs := NextStage(d1.value.backward);
        var d2 := Deliver(d1.value.(backward := SubStep(d1.value.backward)), bs.notices, false, Expanded(d1.value.forward));
        if d2.Failure? then Failure(d2.error)
        else if bs.done then Success((d2.value, true))
        else
          var counted := d2.value.(safeNum := d2.value.safeNum + 1);
          Success((counted, counted.safeNum > SafeLimit))
  }

  /** Once met, `Step` answers true and changes nothing; neither sub-finder is stepped. */
  lemma StepWhenMet(b: BiFinder)
    requires Begun(b) && b.met
    ensures Step(b) == Success((b, true))
  {
  }

  /**
   * Before meeting, `Step` steps the forward sub-finder first. When that
   * answers true the backward one is not stepped; otherwise it is stepped
   * exactly once, its notices follow the forward ones in the log, and
   * `Step` answers true when it does.
   */
  lemma StepOrder(b: BiFinder)
    requires Begun(b) && !b.met
    ensures var fs := NextStage(b.forward);
            var r := Step(b);
            && (r.Failure? <==>
                  || AnyFault(fs.notices, true, Expanded(b.backward))
                  || (!fs.done && AnyFault(NextStage(b.backward).notices, false, NextStage(b.forward).expanded)))
            && (r.Success? ==> r.value.0.forward == SubStep(b.forward) && r.value.0.base.settings == b.base.settings)
            && (r.Success? && fs.done ==>
                  r.value.1 && r.value.0.backward == b.backward && r.value.0.notices == b.notices + fs.notices)
            && (r.Success? && !fs.done ==>
                  r.value.0.backward == SubStep(b.backward) &&
                  r.value.0.notices == b.notices + fs.notices + NextStage(b.backward).notices)
            && (r.Success? && !fs.done && NextStage(b.backward).done ==> r.value.1)
  {
  }

  /**
   * A `Step` that answers false has counted itself and stayed under the
   * ceiling, so a search begun with the counter at 0 answers true (or
   * throws) within 1,000,000 calls.
   */
  lemma StepCounts(b: BiFinder)
    requires Begun(b)
    ensures Step(b).Success? && !Step(b).value.1 ==>
              && !b.met
              && Step(b).value.0.safeNum == b.safeNum + 1 <= SafeLimit
              && Begun(Step(b).value.0)
  {
  }

  /**
   * The base class's `FindPath`, which this finder inherits: `Begin`, then
   * `Step` until it answers true, then `GetPath()`. The loop ends after at
   * most 1,000,000 `Step` calls.
   */
  method FindPath(b: BiFinder, model: SubModel, start: Loc, goal: Loc)
    returns (r: Result<(BiFinder, Option<Path>), Fault>, calls: nat)
    ensures calls <= SafeLimit + 1
    ensures r.Success? ==> r.value.1 == r.value.0.base.pathResult
    ensures r.Success? ==> r.value.0.base.settings == b.base.settings
    ensures r.Success? && r.value.1.Some? ==> r.value.0.met
  {
    calls := 0;
    var begun := Begin(b, model, start, goal);
    if begun.Failure? {
      return Failure(begun.error), calls;
    }
    var cur := begun.value;
    while true
      invariant Begun(cur) && cur.base.settings == b.base.settings
      invariant 0 <= cur.safeNum <= SafeLimit && calls == cur.safeNum
      invariant cur.base.pathResult.Some? ==> cur.met
      decreases SafeLimit - cur.safeNum
    {
      var step := Step(cur);
      StepCounts(cur);
      calls := calls + 1;
      if step.Failure? {
        return Failure(step.error), calls;
      }
      if step.value.1 {
        var done := step.value.0;
        return Success((done, done.base.pathResult)), calls;
      }
      cur := step.value.0;
    }
  }

  // ---------------------------------------------------------------------------
  // The stitched path

  /** The cells of `s` are pairwise different. */
  predicate Distinct(s: seq<Loc>) {
    forall i, j :: 0 <= i < j < |s| ==> s[i] != s[j]
  }

  /**
   * The cells of the stitched path: one fewer than the two chains together,
   * the forward chain first.
   */
  lemma {:induction false} StitchShape(fNode: Chain, bNode: Chain)
    requires bNode.Link?
    ensures |StitchedLocs(fNode, bNode)| == Depth(fNode) + Depth(bNode) - 1
    ensures StitchedLocs(fNode, bNode)[..Depth(fNode)] == ChainLocs(fNode)
  {
    ConcatEnds(ChainLocs(fNode), Backwards(ChainLocs(bNode.parent)), StitchedLocs(fNode, bNode));
  }

  /**
   * The stitched path starts at the forward root, passes the meeting node at
   * the end of the forward part, and ends at the backward root.
   */
  lemma {:induction false} StitchEnds(fNode: Chain, bNode: Chain)
    requires bNode.Link?
    ensures StitchedLocs(fNode, bNode)[0] == RootOf(fNode).location
    ensures StitchedLocs(fNode, bNode)[Depth(fNode) - 1] == fNode.location
    ensures StitchedLocs(fNode, bNode)[Depth(fNode) + Depth(bNode) - 2] == RootOf(bNode).location
  {
    var q := ChainLocs(bNode.parent);
    ConcatEnds(ChainLocs(fNode), Backwards(q), StitchedLocs(fNode, bNode));
    RootFirst(fNode);
    RootFirst(bNode.parent);
    LastOfBackwards(q);
  }

  /** Where the parts of a concatenation sit in it. */
  lemma ConcatEnds(f: seq<Loc>, b: seq<Loc>, x: seq<Loc>)
    requires x == f + b && |f| > 0 && |b| > 0
    ensures |x| == |f| + |b| && x[..|f|] == f
    ensures x[0] == f[0] && x[|f| - 1] == f[|f| - 1] && x[|x| - 1] == b[|b| - 1]
  {
  }

  lemma LastOfBackwards(q: seq<Loc>)
    requires |q| > 0
    ensures Backwards(q)[|q| - 1] == q[0]
  {
  }

  /**
   * When both chains are free of repeated cells and meet at one cell, that
   * cell appears exactly once in the stitched path, at the end of the
   * forward part.
   */
  lemma {:induction false} MeetingCellOnce(fNode: Chain, bNode: Chain)
    requires bNode.Link? && fNode.location == bNode.location
    requires Distinct(ChainLocs(fNode)) && Distinct(ChainLocs(bNode))
    ensures forall i :: 0 <= i < |StitchedLocs(fNode, bNode)| ==>
              (StitchedLocs(fNode, bNode)[i] == fNode.location <==> i == Depth(fNode) - 1)
  {
    var p := StitchedLocs(fNode, bNode);
    var f, q := ChainLocs(fNode), ChainLocs(bNode.parent);
    assert ChainLocs(bNode) == q + [bNode.location];
    assert forall j :: 0 <= j < |q| ==> q[j] == ChainLocs(bNode)[j] != ChainLocs(bNode)[|q|];
    assert bNode.location !in q;
    forall i | 0 <= i < |p|
      ensures p[i] == fNode.location <==> i == Depth(fNode) - 1
    {
      if i < |f| {
        assert p[i] == f[i];
        if i != |f| - 1 {
          assert f[i] != f[|f| - 1];
        }
      } else {
        assert p[i] == Backwards(q)[i - |f|];
        assert Backwards(q)[i - |f|] in q;
      }
    }
  }
}
