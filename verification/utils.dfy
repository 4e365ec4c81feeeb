/**
 * Integer grid coordinates, the navigability bitmap and its flattened form,
 * and the distance heuristics (Assets/Scripts/Base/Utils.cs).
 */
module Utils {

  /** One cell of the navigability bitmap: 0 is free, any other value is blocked. */
  type byte = b: int | 0 <= b < 256

  /** A grid coordinate (Unity's `Vector2Int`). */
  datatype Loc = Loc(x: int, y: int)

  /** The sentinel for "no cell". */
  const InvalidGrid: Loc := Loc(-1, -1)

  /**
   * The value the source computes as `Math.Sqrt(2)`: the double nearest the
   * square root of 2, written out exactly. Its square is not exactly 2.
   */
  const Sqrt2: real := 1.4142135623730951454746218587388284504413604736328125

  function Abs(a: int): nat {
    if a < 0 then -a else a
  }

  function Min(a: int, b: int): int {
    if a < b then a else b
  }

  function Max(a: int, b: int): int {
    if a < b then b else a
  }

  /** Chebyshev (king-move) distance between two cells. */
  function Chebyshev(a: Loc, b: Loc): nat {
    Max(Abs(a.x - b.x), Abs(a.y - b.y))
  }

  // ---------------------------------------------------------------------------
  // Heuristics

  /** The heuristic a pathfinder is configured with. */
  datatype HeuristicDistanceMethod = Manhattan | Diagonal | Euclidean

  /** Manhattan distance of the absolute offsets. */
  function HeuristicManhattan(absDX: int, absDY: int): (r: real)
    ensures 0 <= absDX && 0 <= absDY ==> 0.0 <= r
    ensures absDY == 0 ==> r == absDX as real
  {
    (absDX + absDY) as real
  }

  /**
   * Octile distance of the absolute offsets: a cardinal step costs 1 and a
   * diagonal step costs Sqrt2. The model also uses it as the edge cost of a
   * move, as the source does.
   */
  function HeuristicDiagonal(absDX: int, absDY: int): (r: real)
    ensures 0 <= absDX && absDY == 0 ==> r == absDX as real
    ensures absDX == absDY ==> r == absDX as real * Sqrt2
    ensures 0 <= absDX && 0 <= absDY ==>
              Max(absDX, absDY) as real <= r <= HeuristicManhattan(absDX, absDY)
  {
    (absDX + absDY) as real + (Sqrt2 - 2.0) * Min(absDX, absDY) as real
  }

  /** Both integer heuristics are symmetric in their arguments. */
  lemma HeuristicsSymmetric(a: int, b: int)
    ensures HeuristicManhattan(a, b) == HeuristicManhattan(b, a)
    ensures HeuristicDiagonal(a, b) == HeuristicDiagonal(b, a)
  {
  }

  /**
   * The octile reading of `HeuristicDiagonal`: walk min(dx,dy) diagonal steps
   * and the remaining |dx-dy| cardinal steps.
   */
  lemma HeuristicDiagonalIsOctile(absDX: nat, absDY: nat)
    ensures HeuristicDiagonal(absDX, absDY)
            == (Max(absDX, absDY) - Min(absDX, absDY)) as real + Min(absDX, absDY) as real * Sqrt2
  {
  }

  /** The cost of one move to a neighbouring cell: 1 cardinally, Sqrt2 diagonally. */
  lemma StepCost(dx: int, dy: int)
    requires -1 <= dx <= 1 && -1 <= dy <= 1 && (dx, dy) != (0, 0)
    ensures HeuristicDiagonal(Abs(dx), Abs(dy)) == if dx != 0 && dy != 0 then Sqrt2 else 1.0
  {
  }

  /** The sentinel lies outside every grid: it has a negative coordinate. */
  lemma InvalidGridOutsideEveryGrid(width: nat, height: nat)
    ensures !(0 <= InvalidGrid.x < width && 0 <= InvalidGrid.y < height)
  {
  }

  // ---------------------------------------------------------------------------
  // The bitmap as a 2D array and its flattened 1D form

  /**
   * A C# `byte[width, height]`: `cells[x][z]` is the element at `[x, z]`. The
   * dimensions are kept even when `width` is 0, as the C# array keeps them.
   */
  datatype Array2D = Array2D(width: nat, height: nat, cells: seq<seq<byte>>)

  /** The array is rectangular with the stated dimensions. */
  predicate WellFormed(a: Array2D) {
    |a.cells| == a.width && forall x :: 0 <= x < |a.cells| ==> |a.cells[x]| == a.height
  }

  /** A navigability bitmap: a rectangular byte array. */
  type Bitmap = a: Array2D | WellFormed(a) witness Array2D(0, 0, [])

  /** Where element `[x, z]` of a `height`-high array lives in the flat array. */
  function FlatIndex(x: int, z: int, height: int): int {
    x * height + z
  }

  lemma MulMonotone(a: int, b: int, h: nat)
    requires a <= b
    ensures a * h <= b * h
  {
  }

  /** Every in-range `[x, z]` has a flat index below `width * height`. */
  lemma FlatIndexInRange(x: int, z: int, width: int, height: int)
    requires 0 <= x < width && 0 <= z < height
    ensures 0 <= FlatIndex(x, z, height) < width * height
  {
    MulMonotone(x + 1, width, height);
  }

  /** The flat index of an in-range `[x, z]` recovers `x` and `z` by division. */
  lemma {:induction false} FlatIndexSplits(x: int, z: int, width: int, height: int)
    requires 0 <= x < width && 0 <= z < height
    ensures FlatIndex(x, z, height) / height == x
    ensures FlatIndex(x, z, height) % height == z
  {
    var i := FlatIndex(x, z, height);
    var q, r := i / height, i % height;
    assert i == q * height + r;
    if q < x {
      MulMonotone(q + 1, x, height);
      assert false;
    } else if q > x {
      MulMonotone(x + 1, q, height);
      assert false;
    }
  }

  /** Every flat index below `width * height` is the flat index of one in-range `[x, z]`. */
  lemma {:induction false} FlatIndexCovers(i: int, width: nat, height: nat)
    requires 0 <= i < width * height
    ensures height > 0
    ensures 0 <= i / height < width && 0 <= i % height < height
    ensures FlatIndex(i / height, i % height, height) == i
  {
    if height == 0 {
      assert false;
    }
    var q := i / height;
    if q >= width {
      MulMonotone(width, q, height);
      assert false;
    }
  }

  /** The column of flat index `i` in a `height`-high array. */
  function FlatX(i: int, height: int): int
    requires height > 0
  {
    i / height
  }

  /** The row of flat index `i` in a `height`-high array. */
  function FlatZ(i: int, height: int): int
    requires height > 0
  {
    i % height
  }

  /**
   * Flattening writes each flat index exactly once: the flat index is
   * one-to-one on the array's cells, and every index below `width * height`
   * is the flat index of the cell `[FlatX, FlatZ]`.
   */
  lemma FlatIndexBijective(width: nat, height: nat)
    ensures forall x, z, x', z' ::
              (0 <= x < width && 0 <= z < height && 0 <= x' < width && 0 <= z' < height &&
               FlatIndex(x, z, height) == FlatIndex(x', z', height)) ==> x == x' && z == z'
    ensures width * height > 0 ==> height > 0
    ensures height > 0 ==>
              forall i :: 0 <= i < width * height ==>
                0 <= FlatX(i, height) < width && 0 <= FlatZ(i, height) < height &&
                FlatIndex(FlatX(i, height), FlatZ(i, height), height) == i
  {
    forall x, z, x', z' |
      0 <= x < width && 0 <= z < height && 0 <= x' < width && 0 <= z' < height &&
      FlatIndex(x, z, height) == FlatIndex(x', z', height)
      ensures x == x' && z == z'
    {
      FlatIndexSplits(x, z, width, height);
      FlatIndexSplits(x', z', width, height);
    }
    if width * height > 0 {
      FlatIndexCovers(0, width, height);
    }
    if height > 0 {
      forall i | 0 <= i < width * height
        ensures 0 <= FlatX(i, height) < width && 0 <= FlatZ(i, height) < height &&
                FlatIndex(FlatX(i, height), FlatZ(i, height), height) == i
      {
        FlatIndexCovers(i, width, height);
      }
    }
  }

  /** `Utils.Array2DTo1D`: element `[x, z]` goes to flat index `x * height + z`. */
  function Array2DTo1D(a: Array2D): (r: seq<byte>)
    requires WellFormed(a)
    ensures |r| == a.width * a.height
    ensures forall x, z :: 0 <= x < a.width && 0 <= z < a.height ==>
              0 <= FlatIndex(x, z, a.height) < |r| && r[FlatIndex(x, z, a.height)] == a.cells[x][z]
  {
    var n := a.width * a.height;
    var r := seq(n, i requires 0 <= i < n => FlatCell(a, i));
    assert forall x, z :: 0 <= x < a.width && 0 <= z < a.height ==>
             0 <= FlatIndex(x, z, a.height) < |r| && r[FlatIndex(x, z, a.height)] == a.cells[x][z] by {
      forall x, z | 0 <= x < a.width && 0 <= z < a.height
        ensures 0 <= FlatIndex(x, z, a.height) < |r| && r[FlatIndex(x, z, a.height)] == a.cells[x][z]
      {
        FlatIndexInRange(x, z, a.width, a.height);
        FlatIndexSplits(x, z, a.width, a.height);
      }
    }
    r
  }

  /** The element that flat index `i` holds. */
  function FlatCell(a: Array2D, i: int): byte
    requires WellFormed(a) && 0 <= i < a.width * a.height
  {
    FlatIndexCovers(i, a.width, a.height);
    a.cells[FlatX(i, a.height)][FlatZ(i, a.height)]
  }

  /**
   * `Utils.Array1DTo2D`: element `[x, z]` is read from flat index
   * `x * height + z`; elements past `width * height` are ignored. The source
   * reads out of range (and throws) when the flat array is shorter.
   */
  function Array1DTo2D(v: seq<byte>, width: nat, height: nat): (r: Array2D)
    requires width * height <= |v|
    ensures WellFormed(r) && r.width == width && r.height == height
    ensures forall x, z :: 0 <= x < width && 0 <= z < height ==>
              0 <= FlatIndex(x, z, height) < |v| && r.cells[x][z] == v[FlatIndex(x, z, height)]
  {
    var cells := seq(width, x requires 0 <= x < width => Column(v, width, height, x));
    assert forall x, z :: 0 <= x < width && 0 <= z < height ==>
             0 <= FlatIndex(x, z, height) < |v| && cells[x][z] == v[FlatIndex(x, z, height)] by {
      forall x, z | 0 <= x < width && 0 <= z < height
        ensures 0 <= FlatIndex(x, z, height) < |v| && cells[x][z] == v[FlatIndex(x, z, height)]
      {
        assert cells[x] == Column(v, width, height, x);
      }
    }
    Array2D(width, height, cells)
  }

  /** Column `x` of the unflattened array. */
  function Column(v: seq<byte>, width: nat, height: nat, x: int): (c: seq<byte>)
    requires width * height <= |v| && 0 <= x < width
    ensures |c| == height
    ensures forall z :: 0 <= z < height ==>
              0 <= FlatIndex(x, z, height) < |v| && c[z] == v[FlatIndex(x, z, height)]
  {
    var c := seq(height, z requires 0 <= z < height =>
                   FlatIndexInRange(x, z, width, height);
                   v[FlatIndex(x, z, height)]);
    assert forall z :: 0 <= z < height ==>
             0 <= FlatIndex(x, z, height) < |v| && c[z] == v[FlatIndex(x, z, height)] by {
      forall z | 0 <= z < height
        ensures 0 <= FlatIndex(x, z, height) < |v| && c[z] == v[FlatIndex(x, z, height)]
      {
        FlatIndexInRange(x, z, width, height);
      }
    }
    c
  }

  /** Flattening and unflattening with the same dimensions gives back the array. */
  lemma Array2DRoundTrip(a: Array2D)
    requires WellFormed(a)
    ensures Array1DTo2D(Array2DTo1D(a), a.width, a.height) == a
  {
    var b := Array1DTo2D(Array2DTo1D(a), a.width, a.height);
    forall x | 0 <= x < a.width
      ensures b.cells[x] == a.cells[x]
    {
    }
  }

  /** Unflattening and flattening a flat array of exactly `width * height` gives it back. */
  lemma Array1DRoundTrip(v: seq<byte>, width: nat, height: nat)
    requires |v| == width * height
    ensures Array2DTo1D(Array1DTo2D(v, width, height)) == v
  {
    var r := Array2DTo1D(Array1DTo2D(v, width, height));
    forall i | 0 <= i < |v|
      ensures r[i] == v[i]
    {
      FlatIndexCovers(i, width, height);
    }
  }
}
