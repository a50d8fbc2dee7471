/**
  Cell-centred and staggered (MAC) grids of the two-dimensional simulation,
  represented as nested sequences of exact reals.

  A grid `g` of `nx` by `ny` samples is indexed `g[i][j]`, with `i` along the
  x axis and `j` along the y axis. A staggered grid over `nx` by `ny` cells
  stores one grid per axis; the grid of faces normal to an axis has one extra
  sample along that axis.
 */
module Grids {

  type Grid = seq<seq<real>>

  /** The two axes of the plane. */
  datatype Axis = X | Y {
    function Other(): Axis {
      if X? then Y else X
    }
  }

  /** The two neighbours of a face: direction 0 and 1 of `faceToCell`, or the
      samples half a cell below and above a face centre on the transverse axis. */
  datatype Side = Lower | Upper

  /** Per-face validity marker (MarkedCells in the source). */
  datatype Mark = Unvisited | Finished

  predicate IsGrid<T>(g: seq<seq<T>>, nx: nat, ny: nat) {
    |g| == nx && forall i :: 0 <= i < nx ==> |g[i]| == ny
  }

  predicate SameShape<T, U>(a: seq<seq<T>>, b: seq<seq<U>>) {
    |a| == |b| && forall i :: 0 <= i < |a| ==> |a[i]| == |b[i]|
  }

  /** Sample counts of the faces normal to `axis` on a grid of `nx` by `ny` cells. */
  function FaceCounts(axis: Axis, nx: nat, ny: nat): (nat, nat) {
    if axis == X then (nx + 1, ny) else (nx, ny + 1)
  }

  /** A staggered vector grid: one scalar grid of faces per axis. */
  datatype Faces<T> = Faces(x: seq<seq<T>>, y: seq<seq<T>>) {
    function Get(axis: Axis): seq<seq<T>> {
      if axis == X then x else y
    }
  }

  type FaceGrid = Faces<real>

  predicate IsStaggered<T>(f: Faces<T>, nx: nat, ny: nat) {
    IsGrid(f.x, nx + 1, ny) && IsGrid(f.y, nx, ny + 1)
  }

  /** Every staggered grid of the sequence (one per material) has nx by ny cells. */
  predicate AllStaggered<T>(fs: seq<Faces<T>>, nx: nat, ny: nat) {
    forall m :: 0 <= m < |fs| ==> IsStaggered(fs[m], nx, ny)
  }

  predicate AllGrids<T>(gs: seq<seq<seq<T>>>, nx: nat, ny: nat) {
    forall m :: 0 <= m < |gs| ==> IsGrid(gs[m], nx, ny)
  }

  predicate SameFaces<T, U>(a: Faces<T>, b: Faces<U>) {
    SameShape(a.x, b.x) && SameShape(a.y, b.y)
  }

  /** Face (i, j) normal to `axis` exists on a staggered grid of nx by ny cells. */
  predicate FaceInRange(axis: Axis, nx: nat, ny: nat, i: nat, j: nat) {
    var (fx, fy) := FaceCounts(axis, nx, ny);
    i < fx && j < fy
  }

  /** Signed cell coordinates; the cell behind a boundary face lies outside the grid. */
  datatype Cell = Cell(i: int, j: int) {
    function Along(axis: Axis): int {
      if axis == X then i else j
    }
  }

  /** The two cells a face separates along its axis: face k normal to an axis
      lies between cells k - 1 (Lower) and k (Upper). */
  function FaceToCell(i: nat, j: nat, axis: Axis, side: Side): (c: Cell)
    ensures side == Upper ==> c == Cell(i, j)
    ensures axis == X && side == Lower ==> c == Cell(i - 1, j)
    ensures axis == Y && side == Lower ==> c == Cell(i, j - 1)
  {
    match (axis, side)
    case (_, Upper) => Cell(i, j)
    case (X, Lower) => Cell(i - 1, j)
    case (Y, Lower) => Cell(i, j - 1)
  }

  /** The grid of nx by ny samples whose sample (i, j) is w(i, j). */
  function BuildGrid<T>(nx: nat, ny: nat, w: (nat, nat) -> T): (g: seq<seq<T>>)
    ensures IsGrid(g, nx, ny)
    ensures forall i: nat, j: nat :: i < nx && j < ny ==> g[i][j] == w(i, j)
  {
    seq(nx, i requires 0 <= i < nx => seq(ny, j requires 0 <= j < ny => w(i, j)))
  }

  /** The staggered grid whose face (i, j) normal to `axis` holds w(axis, i, j). */
  function BuildFaces<T>(nx: nat, ny: nat, w: (Axis, nat, nat) -> T): (f: Faces<T>)
    ensures IsStaggered(f, nx, ny)
    ensures forall axis: Axis, i: nat, j: nat :: FaceInRange(axis, nx, ny, i, j) ==> f.Get(axis)[i][j] == w(axis, i, j)
  {
    var fx := BuildGrid(nx + 1, ny, (i: nat, j: nat) => w(X, i, j));
    var fy := BuildGrid(nx, ny + 1, (i: nat, j: nat) => w(Y, i, j));
    Faces(fx, fy)
  }

  /** Two grids of the same dimensions with equal samples are equal. */
  lemma GridExt(a: Grid, b: Grid, nx: nat, ny: nat)
    requires IsGrid(a, nx, ny) && IsGrid(b, nx, ny)
    requires forall i: nat, j: nat :: i < nx && j < ny ==> a[i][j] == b[i][j]
    ensures a == b
  {
    forall i | 0 <= i < nx
      ensures a[i] == b[i]
    {
      assert forall j: nat :: j < ny ==> a[i][j] == b[i][j];
    }
  }

  /** Two staggered grids of the same dimensions with equal faces are equal. */
  lemma FacesExt(a: FaceGrid, b: FaceGrid, nx: nat, ny: nat)
    requires IsStaggered(a, nx, ny) && IsStaggered(b, nx, ny)
    requires forall axis: Axis, i: nat, j: nat :: FaceInRange(axis, nx, ny, i, j) ==> a.Get(axis)[i][j] == b.Get(axis)[i][j]
    ensures a == b
  {
    forall i: nat, j: nat | i < nx + 1 && j < ny
      ensures a.x[i][j] == b.x[i][j]
    {
      assert FaceInRange(X, nx, ny, i, j);
    }
    forall i: nat, j: nat | i < nx && j < ny + 1
      ensures a.y[i][j] == b.y[i][j]
    {
      assert FaceInRange(Y, nx, ny, i, j);
    }
    GridExt(a.x, b.x, nx + 1, ny);
    GridExt(a.y, b.y, nx, ny + 1);
  }

  /** Sum of a sequence, accumulated from the front as the source's loops do. */
  function Sum(s: seq<real>): real {
    if |s| == 0 then 0.0 else Sum(s[..|s| - 1]) + s[|s| - 1]
  }

  /** Every element multiplied by `c`. */
  function ScaleAll(s: seq<real>, c: real): (r: seq<real>)
    ensures |r| == |s|
    ensures forall k :: 0 <= k < |s| ==> r[k] == s[k] * c
  {
    seq(|s|, k requires 0 <= k < |s| => s[k] * c)
  }

  predicate AllNonNegative(s: seq<real>) {
    forall k :: 0 <= k < |s| ==> 0.0 <= s[k]
  }

  predicate AllZero(s: seq<real>) {
    forall k :: 0 <= k < |s| ==> s[k] == 0.0
  }

  lemma {:induction false} SumScale(s: seq<real>, c: real)
    ensures Sum(ScaleAll(s, c)) == Sum(s) * c
  {
    if |s| > 0 {
      var n := |s| - 1;
      forall k | 0 <= k < n
        ensures ScaleAll(s, c)[..n][k] == ScaleAll(s[..n], c)[k]
      {
        assert s[..n][k] == s[k];
      }
      assert ScaleAll(s, c)[..n] == ScaleAll(s[..n], c);
      SumScale(s[..n], c);
    }
  }

  lemma {:induction false} SumNonNegative(s: seq<real>)
    requires AllNonNegative(s)
    ensures 0.0 <= Sum(s)
  {
    if |s| > 0 {
      SumNonNegative(s[..|s| - 1]);
    }
  }

  /** A sum of non-negative terms vanishes exactly when every term does. */
  lemma {:induction false} SumZeroIffAllZero(s: seq<real>)
    requires AllNonNegative(s)
    ensures Sum(s) == 0.0 <==> AllZero(s)
  {
    if |s| > 0 {
      var n := |s| - 1;
      SumZeroIffAllZero(s[..n]);
      SumNonNegative(s[..n]);
      if AllZero(s) {
        assert AllZero(s[..n]);
      }
      if Sum(s) == 0.0 {
        assert AllZero(s[..n]);
        forall k | 0 <= k < |s|
          ensures s[k] == 0.0
        {
          if k < n {
            assert s[k] == s[..n][k];
          }
        }
      }
    }
  }

  /** Overwriting one term changes the sum by the difference. */
  lemma {:induction false} SumUpdate(s: seq<real>, k: nat, v: real)
    requires k < |s|
    ensures Sum(s[k := v]) == Sum(s) - s[k] + v
  {
    var n := |s| - 1;
    if k < n {
      assert s[k := v][..n] == s[..n][k := v];
      SumUpdate(s[..n], k, v);
    } else {
      assert s[k := v][..n] == s[..n];
    }
  }

  /** A sum of non-negative terms bounds each term. */
  lemma {:induction false} TermBelowSum(s: seq<real>, k: nat)
    requires AllNonNegative(s)
    requires k < |s|
    ensures s[k] <= Sum(s)
  {
    var n := |s| - 1;
    SumNonNegative(s[..n]);
    if k < n {
      assert s[k] == s[..n][k];
      TermBelowSum(s[..n], k);
    }
  }
}
