/**
 * Direction-aware pruned neighbours of Jump Point Search
 * (Assets/Scripts/JPS/JPSGridGraph.cs) and the virtual dispatch of
 * `Neighbours` between the two graph classes.
 */
module JpsGrid {
  import opened Wrappers
  import opened Utils
  import opened Grid

  /** C# integer division, which truncates toward zero, for a positive divisor. */
  function TruncDiv(a: int, b: int): int
    requires b > 0
  {
    if a >= 0 then a / b else -((-a) / b)
  }

  function Sign(a: int): int {
    if a > 0 then 1 else if a < 0 then -1 else 0
  }

  /** Dividing a number by its magnitude (or by 1 when it is 0) gives its sign. */
  lemma DivideByMagnitude(a: int)
    ensures TruncDiv(a, Max(Abs(a), 1)) == Sign(a)
  {
    if a > 0 {
      assert a / a == 1;
    } else if a < 0 {
      assert (-a) / (-a) == 1;
    }
  }

  /**
   * `dNorm`: each component of `n - p` divided by its own magnitude (or by 1
   * when it is 0), which is the sign of that component.
   */
  function DNorm(n: Loc, p: Loc): (d: Loc)
    ensures d.x == Sign(n.x - p.x) && d.y == Sign(n.y - p.y)
    ensures -1 <= d.x <= 1 && -1 <= d.y <= 1
    ensures d == Loc(0, 0) <==> n == p
  {
    var ax, ay := n.x - p.x, n.y - p.y;
    DivideByMagnitude(ax);
    DivideByMagnitude(ay);
    Loc(TruncDiv(ax, Max(Abs(ax), 1)), TruncDiv(ay, Max(Abs(ay), 1)))
  }

  /** `q` when `c` holds, nothing otherwise: one conditional `yield return`. */
  function YieldIf(c: bool, q: Loc): (r: seq<Loc>)
    ensures q in r <==> c
    ensures |r| <= 1 && forall q' :: q' in r ==> q' == q
  {
    if c then [q] else []
  }

  /** The five cells diagonal travel along `d` into `n` may yield, in yield order. */
  function DiagonalCandidates(n: Loc, d: Loc): seq<Loc> {
    [Loc(n.x, n.y + d.y), Loc(n.x + d.x, n.y), Loc(n.x + d.x, n.y + d.y),
     Loc(n.x - d.x, n.y + d.y), Loc(n.x + d.x, n.y - d.y)]
  }

  /**
   * Whether each diagonal candidate is yielded: the two orthogonal cells when
   * navigable, the diagonal cell when navigable with one orthogonal cell open,
   * and each forced neighbour when its side cell is blocked and the adjoining
   * orthogonal and target cells are navigable.
   */
  function DiagonalRules(g: GridGraph, n: Loc, d: Loc): seq<bool> {
    var up, side := IsNavigable(g, n.x, n.y + d.y), IsNavigable(g, n.x + d.x, n.y);
    [up, side, (up || side) && IsNavigable(g, n.x + d.x, n.y + d.y),
     !IsNavigable(g, n.x - d.x, n.y) && up && IsNavigable(g, n.x - d.x, n.y + d.y),
     !IsNavigable(g, n.x, n.y - d.y) && side && IsNavigable(g, n.x + d.x, n.y - d.y)]
  }

  /** The candidates whose flag is set, in order: a run of conditional `yield return`s. */
  function Yields(c: seq<Loc>, m: seq<bool>): (r: seq<Loc>)
    requires |c| == |m|
    ensures |r| <= |c|
    decreases |c|
  {
    if |c| == 0 then [] else (if m[0] then [c[0]] else []) + Yields(c[1..], m[1..])
  }

  /** Everything yielded is a candidate whose flag is set. */
  lemma {:induction false} YieldsOnly(c: seq<Loc>, m: seq<bool>, q: Loc) returns (i: nat)
    requires |c| == |m| && q in Yields(c, m)
    ensures i < |c| && c[i] == q && m[i]
    decreases |c|
  {
    if m[0] && q == c[0] {
      i := 0;
    } else {
      var j := YieldsOnly(c[1..], m[1..], q);
      i := j + 1;
    }
  }

  /** Among distinct candidates, a candidate is yielded exactly when its flag is set. */
  lemma {:induction false} YieldsMember(c: seq<Loc>, m: seq<bool>, i: nat)
    requires |c| == |m| && i < |c|
    requires forall j, k :: 0 <= j < k < |c| ==> c[j] != c[k]
    ensures c[i] in Yields(c, m) <==> m[i]
    decreases |c|
  {
    if c[i] in Yields(c, m) {
      var j := YieldsOnly(c, m, c[i]);
      assert j == i;
    }
    if i > 0 {
      YieldsMember(c[1..], m[1..], i - 1);
    }
  }

  /** Diagonal candidates are different cells and one king move from `n`. */
  lemma DiagonalCandidatesDistinct(n: Loc, d: Loc)
    requires d.x in {-1, 1} && d.y in {-1, 1}
    ensures var c := DiagonalCandidates(n, d);
            forall j, k :: 0 <= j < k < |c| ==> c[j] != c[k]
    ensures forall q :: q in DiagonalCandidates(n, d) ==> Chebyshev(n, q) == 1
  {
  }

  /** Successors for diagonal travel along `d` into `n`. */
  function DiagonalSuccessors(g: GridGraph, n: Loc, d: Loc): (r: seq<Loc>)
    ensures |r| <= 5
  {
    Yields(DiagonalCandidates(n, d), DiagonalRules(g, n, d))
  }

  /** Each diagonal successor is a navigable cell one step from `n`. */
  lemma DiagonalSuccessorCases(g: GridGraph, n: Loc, d: Loc, q: Loc)
    requires d.x in {-1, 1} && d.y in {-1, 1}
    requires q in DiagonalSuccessors(g, n, d)
    ensures Navigable(g, q) && Chebyshev(n, q) == 1
  {
    var i := YieldsOnly(DiagonalCandidates(n, d), DiagonalRules(g, n, d), q);
    DiagonalCandidatesDistinct(n, d);
  }

  /** Each diagonal candidate is a successor exactly when its rule admits it. */
  lemma DiagonalSuccessorRule(g: GridGraph, n: Loc, d: Loc, i: nat)
    requires d.x in {-1, 1} && d.y in {-1, 1} && i < 5
    ensures DiagonalCandidates(n, d)[i] in DiagonalSuccessors(g, n, d) <==> DiagonalRules(g, n, d)[i]
  {
    DiagonalCandidatesDistinct(n, d);
    YieldsMember(DiagonalCandidates(n, d), DiagonalRules(g, n, d), i);
  }

  /** Successors for vertical travel by `dy` into `n`. */
  function VerticalSuccessors(g: GridGraph, n: Loc, dy: int): (r: seq<Loc>)
    requires -1 <= dy <= 1
    ensures |r| <= 3
    ensures forall q :: q in r ==> Navigable(g, q) && (dy != 0 ==> Chebyshev(n, q) == 1)
    ensures !IsNavigable(g, n.x, n.y + dy) ==> r == []
    ensures IsNavigable(g, n.x, n.y + dy) ==> |r| > 0 && r[0] == Loc(n.x, n.y + dy)
    ensures forall q :: q in r <==>
              IsNavigable(g, n.x, n.y + dy) &&
              (|| q == Loc(n.x, n.y + dy)
               || (q == Loc(n.x + 1, n.y + dy) && !IsNavigable(g, n.x + 1, n.y) && IsNavigable(g, n.x + 1, n.y + dy))
               || (q == Loc(n.x - 1, n.y + dy) && !IsNavigable(g, n.x - 1, n.y) && IsNavigable(g, n.x - 1, n.y + dy)))
  {
    if IsNavigable(g, n.x, n.y + dy) then
      var b := YieldIf(!IsNavigable(g, n.x + 1, n.y) && IsNavigable(g, n.x + 1, n.y + dy), Loc(n.x + 1, n.y + dy));
      var c := YieldIf(!IsNavigable(g, n.x - 1, n.y) && IsNavigable(g, n.x - 1, n.y + dy), Loc(n.x - 1, n.y + dy));
      assert forall q :: q in [Loc(n.x, n.y + dy)] + b + c <==> q == Loc(n.x, n.y + dy) || q in b || q in c;
      [Loc(n.x, n.y + dy)] + b + c
    else []
  }

  /** Successors for horizontal travel by `dx` into `n`. */
  function HorizontalSuccessors(g: GridGraph, n: Loc, dx: int): (r: seq<Loc>)
    requires dx in {-1, 1}
    ensures |r| <= 3
    ensures forall q :: q in r ==> Navigable(g, q) && Chebyshev(n, q) == 1
    ensures !IsNavigable(g, n.x + dx, n.y) ==> r == []
    ensures IsNavigable(g, n.x + dx, n.y) ==> |r| > 0 && r[0] == Loc(n.x + dx, n.y)
    ensures forall q :: q in r <==>
              IsNavigable(g, n.x + dx, n.y) &&
              (|| q == Loc(n.x + dx, n.y)
               || (q == Loc(n.x + dx, n.y + 1) && !IsNavigable(g, n.x, n.y + 1) && IsNavigable(g, n.x + dx, n.y + 1))
               || (q == Loc(n.x + dx, n.y - 1) && !IsNavigable(g, n.x, n.y - 1) && IsNavigable(g, n.x + dx, n.y - 1)))
  {
    if IsNavigable(g, n.x + dx, n.y) then
      var b := YieldIf(!IsNavigable(g, n.x, n.y + 1) && IsNavigable(g, n.x + dx, n.y + 1), Loc(n.x + dx, n.y + 1));
      var c := YieldIf(!IsNavigable(g, n.x, n.y - 1) && IsNavigable(g, n.x + dx, n.y - 1), Loc(n.x + dx, n.y - 1));
      assert forall q :: q in [Loc(n.x + dx, n.y)] + b + c <==> q == Loc(n.x + dx, n.y) || q in b || q in c;
      [Loc(n.x + dx, n.y)] + b + c
    else []
  }

  /**
   * The pruned successors of `n` for travel direction `d` (the normalised
   * parent-to-node vector): navigable cells, adjacent to `n` when `d` is not
   * zero, at most 5 for diagonal and at most 3 for cardinal travel.
   */
  function PrunedSuccessors(g: GridGraph, n: Loc, d: Loc): (r: seq<Loc>)
    requires -1 <= d.x <= 1 && -1 <= d.y <= 1
    ensures forall q :: q in r ==> Navigable(g, q)
    ensures d != Loc(0, 0) ==> forall q :: q in r ==> Chebyshev(n, q) == 1
    ensures if d.x != 0 && d.y != 0 then |r| <= 5 else |r| <= 3
  {
    if d.x != 0 && d.y != 0 then
      var r := DiagonalSuccessors(g, n, d);
      assert forall q :: q in r ==> Navigable(g, q) && Chebyshev(n, q) == 1 by {
        forall q | q in r
          ensures Navigable(g, q) && Chebyshev(n, q) == 1
        {
          DiagonalSuccessorCases(g, n, d, q);
        }
      }
      r
    else if d.x == 0 then
      VerticalSuccessors(g, n, d.y)
    else
      HorizontalSuccessors(g, n, d.x)
  }

  /**
   * `JPSGridGraph.Neighbours` of the node at `n` whose parent is at `parent`
   * (`None` for a null parent): with no parent, the base enumeration.
   */
  function JpsNeighbours(g: GridGraph, n: Loc, parent: Option<Loc>): (r: seq<Loc>)
    ensures parent.None? ==> r == Neighbours(g, n)
    ensures forall q :: q in r ==> Navigable(g, q)
    ensures (parent.None? || parent.value != n) ==> forall q :: q in r ==> Chebyshev(n, q) == 1
    ensures parent.Some? ==>
              var d := DNorm(n, parent.value);
              if d.x != 0 && d.y != 0 then |r| <= 5 else |r| <= 3
  {
    match parent
    case None => BaseNeighbours(g, n)
    case Some(p) => PrunedSuccessors(g, n, DNorm(n, p))
  }

  /** The base enumeration, with its cells' adjacency stated. */
  function BaseNeighbours(g: GridGraph, n: Loc): (r: seq<Loc>)
    ensures r == Neighbours(g, n)
    ensures forall q :: q in r ==> Chebyshev(n, q) == 1
  {
    var r := Neighbours(g, n);
    assert forall q :: q in r ==> Chebyshev(n, q) == 1 by {
      forall q | q in r
        ensures Chebyshev(n, q) == 1
      {
        NeighboursAreAdjacent(g, n, q);
      }
    }
    r
  }

  /**
   * Diagonal travel: the diagonal successor needs one of its two orthogonal
   * cells navigable (no corner cutting); each forced neighbour needs its side
   * cell blocked and the adjoining orthogonal and target cells navigable.
   */
  lemma JpsDiagonalPruning(g: GridGraph, n: Loc, p: Loc)
    requires var d := DNorm(n, p); d.x != 0 && d.y != 0
    ensures var d := DNorm(n, p);
            var r := JpsNeighbours(g, n, Some(p));
            && (Loc(n.x + d.x, n.y + d.y) in r <==>
                  IsNavigable(g, n.x + d.x, n.y + d.y) &&
                  (IsNavigable(g, n.x, n.y + d.y) || IsNavigable(g, n.x + d.x, n.y)))
            && (Loc(n.x - d.x, n.y + d.y) in r <==>
                  !IsNavigable(g, n.x - d.x, n.y) && IsNavigable(g, n.x, n.y + d.y) &&
                  IsNavigable(g, n.x - d.x, n.y + d.y))
            && (Loc(n.x + d.x, n.y - d.y) in r <==>
                  !IsNavigable(g, n.x, n.y - d.y) && IsNavigable(g, n.x + d.x, n.y) &&
                  IsNavigable(g, n.x + d.x, n.y - d.y))
            && (Loc(n.x, n.y + d.y) in r <==> IsNavigable(g, n.x, n.y + d.y))
            && (Loc(n.x + d.x, n.y) in r <==> IsNavigable(g, n.x + d.x, n.y))
  {
    var d := DNorm(n, p);
    assert JpsNeighbours(g, n, Some(p)) == DiagonalSuccessors(g, n, d);
    DiagonalMembers(g, n, d);
  }

  /** The five rules of diagonal travel, for a unit diagonal direction `d`. */
  lemma DiagonalMembers(g: GridGraph, n: Loc, d: Loc)
    requires d.x in {-1, 1} && d.y in {-1, 1}
    ensures var r := DiagonalSuccessors(g, n, d);
            && (Loc(n.x + d.x, n.y + d.y) in r <==>
                  IsNavigable(g, n.x + d.x, n.y + d.y) &&
                  (IsNavigable(g, n.x, n.y + d.y) || IsNavigable(g, n.x + d.x, n.y)))
            && (Loc(n.x - d.x, n.y + d.y) in r <==>
                  !IsNavigable(g, n.x - d.x, n.y) && IsNavigable(g, n.x, n.y + d.y) &&
                  IsNavigable(g, n.x - d.x, n.y + d.y))
            && (Loc(n.x + d.x, n.y - d.y) in r <==>
                  !IsNavigable(g, n.x, n.y - d.y) && IsNavigable(g, n.x + d.x, n.y) &&
                  IsNavigable(g, n.x + d.x, n.y - d.y))
            && (Loc(n.x, n.y + d.y) in r <==> IsNavigable(g, n.x, n.y + d.y))
            && (Loc(n.x + d.x, n.y) in r <==> IsNavigable(g, n.x + d.x, n.y))
  {
    DiagonalSuccessorRule(g, n, d, 0);
    DiagonalSuccessorRule(g, n, d, 1);
    DiagonalSuccessorRule(g, n, d, 2);
    DiagonalSuccessorRule(g, n, d, 3);
    DiagonalSuccessorRule(g, n, d, 4);
  }


  /**
   * Cardinal travel: nothing when the forward cell is blocked; otherwise the
   * forward cell first, then each forced diagonal exactly when its side cell
   * is blocked and the diagonal cell is navigable.
   */
  lemma JpsCardinalPruning(g: GridGraph, n: Loc, p: Loc)
    requires n != p
    requires var d := DNorm(n, p); d.x == 0 || d.y == 0
    ensures var d := DNorm(n, p);
            var r := JpsNeighbours(g, n, Some(p));
            var forward := Loc(n.x + d.x, n.y + d.y);
            var side1 := if d.x == 0 then Loc(n.x + 1, n.y) else Loc(n.x, n.y + 1);
            var side2 := if d.x == 0 then Loc(n.x - 1, n.y) else Loc(n.x, n.y - 1);
            && (!Navigable(g, forward) ==> r == [])
            && (Navigable(g, forward) ==>
                  && r[0] == forward
                  && (Move(side1, d) in r <==> !Navigable(g, side1) && Navigable(g, Move(side1, d)))
                  && (Move(side2, d) in r <==> !Navigable(g, side2) && Navigable(g, Move(side2, d))))
  {
  }

  /** With a parent at another cell, the pruned neighbours are among the full neighbours. */
  lemma JpsNeighboursAreNeighbours(g: GridGraph, n: Loc, parent: Option<Loc>, q: Loc)
    requires parent.Some? ==> parent.value != n
    requires q in JpsNeighbours(g, n, parent)
    ensures q in Neighbours(g, n)
  {
    if parent.Some? {
      var i := DirectionIndex(Offset(n, q));
      assert i < 8;
    }
  }

  /** `Neighbours` as the search sees it: the JPS graph class overrides the base enumeration. */
  function GraphNeighbours(g: GridGraph, n: Loc, parent: Option<Loc>): (r: seq<Loc>)
    ensures forall q :: q in r ==> Navigable(g, q)
    ensures (parent.None? || parent.value != n) ==> forall q :: q in r ==> Chebyshev(n, q) == 1
    ensures g.kind == Plain ==> r == Neighbours(g, n)
    ensures g.kind == Jps ==> r == JpsNeighbours(g, n, parent)
  {
    if g.kind == Jps then JpsNeighbours(g, n, parent) else BaseNeighbours(g, n)
  }
}
