/**
 * The recursive jump scan of Jump Point Search (`JPSPathfinder.Jump`,
 * Assets/Scripts/JPS/JPSPathfinder.cs) and its declarative reading: the
 * result is the first jump point on the ray from `current` away from
 * `proposed`, or `InvalidGrid` when the ray is cut before one is found.
 */
module JumpScan {
  import opened Utils
  import opened Grid

  /** The travel direction of a jump: `current - proposed`. */
  function Dir(current: Loc, proposed: Loc): Loc {
    Loc(current.x - proposed.x, current.y - proposed.y)
  }

  /** A king move: both components in {-1, 0, 1}, not both 0. */
  predicate Unit(d: Loc) {
    -1 <= d.x <= 1 && -1 <= d.y <= 1 && d != Loc(0, 0)
  }

  predicate Diagonal(d: Loc) {
    d.x != 0 && d.y != 0
  }

  /** Cells left before coordinate `v` leaves `[0, n)` when moving by `dv`. */
  function Room(v: int, dv: int, n: int): nat {
    if dv > 0 then (if v < n then n - v else 0)
    else if dv < 0 then (if v >= 0 then v + 1 else 0)
    else 0
  }

  /** Termination measure of the scan: the cells left inside the grid along `d`, per axis. */
  function Steps(g: GridGraph, p: Loc, d: Loc): nat {
    Room(p.x, d.x, g.navigable.width) + Room(p.y, d.y, g.navigable.height)
  }

  /** Moving one cell along `d` from a navigable cell uses up room on every axis `d` moves on. */
  lemma StepsShrink(g: GridGraph, p: Loc, d: Loc)
    requires Navigable(g, p) && Unit(d)
    ensures Steps(g, Move(p, d), d) < Steps(g, p, d)
    ensures d.x != 0 ==> Steps(g, Loc(p.x + d.x, p.y), Loc(d.x, 0)) < Steps(g, p, d)
    ensures d.y != 0 ==> Steps(g, Loc(p.x, p.y + d.y), Loc(0, d.y)) < Steps(g, p, d)
  {
  }

  /**
   * A forced neighbour at `p` for travel along `d`: a side cell is blocked
   * while the cell one step ahead of it is navigable.
   */
  predicate Forced(g: GridGraph, p: Loc, d: Loc) {
    var x, y, dx, dy := p.x, p.y, d.x, d.y;
    if dx != 0 && dy != 0 then
      || (IsNavigable(g, x - dx, y + dy) && !IsNavigable(g, x - dx, y))
      || (IsNavigable(g, x + dx, y - dy) && !IsNavigable(g, x, y - dy))
    else if dx != 0 then
      || (IsNavigable(g, x + dx, y + 1) && !IsNavigable(g, x, y + 1))
      || (IsNavigable(g, x + dx, y - 1) && !IsNavigable(g, x, y - 1))
    else
      || (IsNavigable(g, x + 1, y + dy) && !IsNavigable(g, x + 1, y))
      || (IsNavigable(g, x - 1, y + dy) && !IsNavigable(g, x - 1, y))
  }

  /** The scan may go on from `p` along `d`: one of the two orthogonal cells towards `p + d` is navigable. */
  predicate CanStep(g: GridGraph, p: Loc, d: Loc) {
    IsNavigable(g, p.x + d.x, p.y) || IsNavigable(g, p.x, p.y + d.y)
  }

  /**
   * `JPSPathfinder.Jump(current, proposed)` with the finder's goal passed
   * explicitly. The source is only ever called with `current` one king move
   * away from `proposed` (a neighbour of the expanded node); with
   * `current == proposed` it would recurse without end. The three tests
   * that stop the scan at `current` are grouped as `IsJumpPoint`.
   */
  function Jump(g: GridGraph, goal: Loc, current: Loc, proposed: Loc): (r: Loc)
    requires Chebyshev(current, proposed) == 1
    ensures !Navigable(g, current) ==> r == InvalidGrid
    ensures Navigable(g, current) && current == goal ==> r == current
    ensures r == InvalidGrid || r == current || CanStep(g, current, Dir(current, proposed))
    decreases Steps(g, current, Dir(current, proposed)), 1
  {
    var d := Dir(current, proposed);
    if !Navigable(g, current) then InvalidGrid
    else if IsJumpPoint(g, goal, current, d) then current
    else if CanStep(g, current, d) then
      StepsShrink(g, current, d);
      Jump(g, goal, Move(current, d), current)
    else InvalidGrid
  }

  /**
   * A jump point for travel along `d`: the goal, a cell with a forced
   * neighbour, or, travelling diagonally, a cell from which one of the two
   * cardinal scans finds a jump point.
   */
  predicate IsJumpPoint(g: GridGraph, goal: Loc, p: Loc, d: Loc)
    requires Unit(d) && Navigable(g, p)
    decreases Steps(g, p, d), 0
  {
    || p == goal
    || Forced(g, p, d)
    || (Diagonal(d) &&
        (StepsShrink(g, p, d);
         || Jump(g, goal, Loc(p.x + d.x, p.y), p) != InvalidGrid
         || Jump(g, goal, Loc(p.x, p.y + d.y), p) != InvalidGrid))
  }

  /**
   * An unobstructed straight run from `p` to `q` along `d`: every cell on it
   * is navigable and every step keeps an orthogonal cell open, so a
   * diagonal step never squeezes between two blocked cells.
   */
  predicate Clear(g: GridGraph, p: Loc, d: Loc, q: Loc)
    requires Unit(d)
    decreases Steps(g, p, d)
  {
    && Navigable(g, p)
    && (p == q ||
        (StepsShrink(g, p, d);
         CanStep(g, p, d) && Clear(g, Move(p, d), d, q)))
  }

  /** `q` lies on the ray from `p` along `d` (`p` itself included), stated without products. */
  predicate OnRay(p: Loc, d: Loc, q: Loc) {
    && (d.x == 0 ==> q.x == p.x)
    && (d.y == 0 ==> q.y == p.y)
    && (d.x > 0 ==> q.x >= p.x)
    && (d.x < 0 ==> q.x <= p.x)
    && (d.y > 0 ==> q.y >= p.y)
    && (d.y < 0 ==> q.y <= p.y)
    && (d.x != 0 && d.y != 0 ==> Abs(q.x - p.x) == Abs(q.y - p.y))
  }

  /** A clear run ends on the ray and at a navigable cell. */
  lemma {:induction false} ClearOnRay(g: GridGraph, p: Loc, d: Loc, q: Loc)
    requires Unit(d) && Clear(g, p, d, q)
    ensures OnRay(p, d, q) && Navigable(g, q)
    decreases Steps(g, p, d)
  {
    if p != q {
      StepsShrink(g, p, d);
      ClearOnRay(g, Move(p, d), d, q);
    }
  }

  /** The scan only moves through a clear run: the result is reached from `current` without obstruction. */
  lemma {:induction false} JumpIsClear(g: GridGraph, goal: Loc, current: Loc, proposed: Loc)
    requires Chebyshev(current, proposed) == 1
    ensures var r := Jump(g, goal, current, proposed);
            r != InvalidGrid ==> Clear(g, current, Dir(current, proposed), r)
    decreases Steps(g, current, Dir(current, proposed))
  {
    var d := Dir(current, proposed);
    var r := Jump(g, goal, current, proposed);
    if r != InvalidGrid && r != current {
      StepsShrink(g, current, d);
      assert Dir(Move(current, d), current) == d;
      JumpIsClear(g, goal, Move(current, d), current);
    }
  }

  /** The jump result is `InvalidGrid` or a navigable cell on the ray from `current` away from `proposed`. */
  lemma JumpOnRay(g: GridGraph, goal: Loc, current: Loc, proposed: Loc)
    requires Chebyshev(current, proposed) == 1
    ensures var r := Jump(g, goal, current, proposed);
            r == InvalidGrid || (Navigable(g, r) && OnRay(current, Dir(current, proposed), r))
  {
    var r := Jump(g, goal, current, proposed);
    JumpIsClear(g, goal, current, proposed);
    if r != InvalidGrid {
      ClearOnRay(g, current, Dir(current, proposed), r);
    }
  }

  // ---------------------------------------------------------------------------
  // Declarative reading

  /** `p` moved `k` times along `d`. */
  function Along(p: Loc, d: Loc, k: nat): Loc {
    if k == 0 then p else Move(Along(p, d, k - 1), d)
  }

  lemma {:induction false} AlongShift(p: Loc, d: Loc, k: nat)
    ensures Along(p, d, k + 1) == Along(Move(p, d), d, k)
  {
    if k > 0 {
      AlongShift(p, d, k - 1);
    }
  }

  /** The scan passes by `Along(p, d, i)`: the cell is navigable, is not a jump point and lets the scan step on. */
  predicate PassesBy(g: GridGraph, goal: Loc, p: Loc, d: Loc, i: nat)
    requires Unit(d)
  {
    var c := Along(p, d, i);
    Navigable(g, c) && !IsJumpPoint(g, goal, c, d) && CanStep(g, c, d)
  }

  /**
   * `Along(p, d, k)` is the first jump point on the ray from `p` along `d`
   * and the scan can reach it: every earlier cell is navigable, is not a
   * jump point and lets the scan step on.
   */
  predicate FirstJumpPoint(g: GridGraph, goal: Loc, p: Loc, d: Loc, k: nat)
    requires Unit(d)
  {
    && (forall i :: 0 <= i < k ==> PassesBy(g, goal, p, d, i))
    && Navigable(g, Along(p, d, k))
    && IsJumpPoint(g, goal, Along(p, d, k), d)
  }

  /** A king move's direction is a unit step. */
  lemma DirIsUnit(current: Loc, proposed: Loc)
    requires Chebyshev(current, proposed) == 1
    ensures Unit(Dir(current, proposed))
  {
  }

  /** At a navigable jump point the scan stops there. */
  lemma JumpStopsAt(g: GridGraph, goal: Loc, current: Loc, proposed: Loc)
    requires Chebyshev(current, proposed) == 1 && Navigable(g, current)
    requires Unit(Dir(current, proposed)) && IsJumpPoint(g, goal, current, Dir(current, proposed))
    ensures Jump(g, goal, current, proposed) == current
  {
  }

  /** At a navigable cell that is not a jump point and lets the scan step on, the scan moves one cell along. */
  lemma JumpStepsOn(g: GridGraph, goal: Loc, current: Loc, proposed: Loc)
    requires Chebyshev(current, proposed) == 1 && Navigable(g, current)
    requires Unit(Dir(current, proposed))
    requires !IsJumpPoint(g, goal, current, Dir(current, proposed)) && CanStep(g, current, Dir(current, proposed))
    ensures Jump(g, goal, current, proposed) == Jump(g, goal, Move(current, Dir(current, proposed)), current)
  {
  }

  /** At a navigable cell that is not a jump point and blocks the next step, the scan gives up. */
  lemma JumpGivesUp(g: GridGraph, goal: Loc, current: Loc, proposed: Loc)
    requires Chebyshev(current, proposed) == 1 && Navigable(g, current)
    requires Unit(Dir(current, proposed))
    requires !IsJumpPoint(g, goal, current, Dir(current, proposed)) && !CanStep(g, current, Dir(current, proposed))
    ensures Jump(g, goal, current, proposed) == InvalidGrid
  {
  }

  /** The scan at a navigable cell stops exactly at jump points, and otherwise steps on or gives up. */
  lemma JumpUnfolds(g: GridGraph, goal: Loc, current: Loc, proposed: Loc)
    requires Chebyshev(current, proposed) == 1 && Navigable(g, current)
    ensures var d := Dir(current, proposed);
            Unit(d) &&
            Jump(g, goal, current, proposed) ==
              if IsJumpPoint(g, goal, current, d) then current
              else if CanStep(g, current, d) then Jump(g, goal, Move(current, d), current)
              else InvalidGrid
  {
    var d := Dir(current, proposed);
    DirIsUnit(current, proposed);
    if IsJumpPoint(g, goal, current, d) {
      JumpStopsAt(g, goal, current, proposed);
    } else if CanStep(g, current, d) {
      JumpStepsOn(g, goal, current, proposed);
    } else {
      JumpGivesUp(g, goal, current, proposed);
    }
  }

  /** A found jump point is the first jump point along the ray (soundness). */
  lemma {:induction false} JumpFindsFirstJumpPoint(g: GridGraph, goal: Loc, current: Loc, proposed: Loc)
    requires Chebyshev(current, proposed) == 1
    requires Jump(g, goal, current, proposed) != InvalidGrid
    ensures exists k: nat :: FirstJumpPoint(g, goal, current, Dir(current, proposed), k) &&
                             Jump(g, goal, current, proposed) == Along(current, Dir(current, proposed), k)
    decreases Steps(g, current, Dir(current, proposed))
  {
    var d := Dir(current, proposed);
    JumpUnfolds(g, goal, current, proposed);
    if IsJumpPoint(g, goal, current, d) {
      assert FirstJumpPoint(g, goal, current, d, 0);
    } else {
      var next := Move(current, d);
      assert Dir(next, current) == d;
      StepsShrink(g, current, d);
      JumpFindsFirstJumpPoint(g, goal, next, current);
      var k: nat :| FirstJumpPoint(g, goal, next, d, k) && Jump(g, goal, next, current) == Along(next, d, k);
      FirstJumpPointPrepend(g, goal, current, d, k);
    }
  }

  /** Putting a cell the scan passes by in front of a ray whose first jump point is `k` cells away. */
  lemma FirstJumpPointPrepend(g: GridGraph, goal: Loc, p: Loc, d: Loc, k: nat)
    requires Unit(d) && Navigable(g, p) && !IsJumpPoint(g, goal, p, d) && CanStep(g, p, d)
    requires FirstJumpPoint(g, goal, Move(p, d), d, k)
    ensures FirstJumpPoint(g, goal, p, d, k + 1)
    ensures Along(p, d, k + 1) == Along(Move(p, d), d, k)
  {
    var next := Move(p, d);
    AlongShift(p, d, k);
    forall i | 0 <= i < k + 1
      ensures PassesBy(g, goal, p, d, i)
    {
      if i == 0 {
        assert Along(p, d, 0) == p;
      } else {
        assert PassesBy(g, goal, next, d, i - 1);
        AlongShift(p, d, i - 1);
      }
    }
  }

  /** Dropping the first cell of a ray whose first jump point is `k > 0` cells away. */
  lemma FirstJumpPointShift(g: GridGraph, goal: Loc, p: Loc, d: Loc, k: nat)
    requires Unit(d) && k > 0 && FirstJumpPoint(g, goal, p, d, k)
    ensures Navigable(g, p) && !IsJumpPoint(g, goal, p, d) && CanStep(g, p, d)
    ensures FirstJumpPoint(g, goal, Move(p, d), d, k - 1)
  {
    assert Along(p, d, 0) == p;
    assert PassesBy(g, goal, p, d, 0);
    var next := Move(p, d);
    forall i | 0 <= i < k - 1
      ensures PassesBy(g, goal, next, d, i)
    {
      assert PassesBy(g, goal, p, d, i + 1);
      AlongShift(p, d, i);
    }
    AlongShift(p, d, k - 1);
  }

  /** The first jump point along the ray, when there is one, is what the scan returns (completeness). */
  lemma {:induction false} FirstJumpPointIsFound(g: GridGraph, goal: Loc, current: Loc, proposed: Loc, k: nat)
    requires Chebyshev(current, proposed) == 1
    requires FirstJumpPoint(g, goal, current, Dir(current, proposed), k)
    ensures Jump(g, goal, current, proposed) == Along(current, Dir(current, proposed), k)
    decreases k
  {
    if k == 0 {
      FoundHere(g, goal, current, proposed);
    } else {
      var next := Move(current, Dir(current, proposed));
      FoundFurther(g, goal, current, proposed, k);
      FirstJumpPointIsFound(g, goal, next, current, k - 1);
    }
  }

  /** When the first jump point is `current` itself, the scan returns it. */
  lemma FoundHere(g: GridGraph, goal: Loc, current: Loc, proposed: Loc)
    requires Chebyshev(current, proposed) == 1
    requires FirstJumpPoint(g, goal, current, Dir(current, proposed), 0)
    ensures Jump(g, goal, current, proposed) == Along(current, Dir(current, proposed), 0)
  {
    assert Along(current, Dir(current, proposed), 0) == current;
    JumpStopsAt(g, goal, current, proposed);
  }

  /**
   * When the first jump point is `k > 0` cells away, it is `k - 1` cells
   * away from the next cell, and the scan returns whatever the scan from
   * the next cell returns.
   */
  lemma FoundFurther(g: GridGraph, goal: Loc, current: Loc, proposed: Loc, k: nat)
    requires Chebyshev(current, proposed) == 1 && k > 0
    requires FirstJumpPoint(g, goal, current, Dir(current, proposed), k)
    ensures var d := Dir(current, proposed);
            var next := Move(current, d);
            && Chebyshev(next, current) == 1 && Dir(next, current) == d
            && FirstJumpPoint(g, goal, next, d, k - 1)
            && (Jump(g, goal, next, current) == Along(next, d, k - 1) ==>
                  Jump(g, goal, current, proposed) == Along(current, d, k))
  {
    var d := Dir(current, proposed);
    FirstJumpPointShift(g, goal, current, d, k);
    JumpStepsOn(g, goal, current, proposed);
    AlongShift(current, d, k - 1);
  }
}
