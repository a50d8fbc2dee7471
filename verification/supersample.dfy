/**
  Supersampled areas (computeSupersampledAreas, computeSupersampledFaceAreas):
  the fraction of a cell's footprint inside a surface, estimated by counting
  the sub-samples of a regular samples-by-samples lattice whose signed
  distance is at most 0. Cells whose centre is farther than two grid cells
  outside the surface are skipped and keep area 0.

  The loops walk real coordinates from the first sub-sample, half a sub-cell
  inside the cell's lower edge, in steps of 1 / samples while below the
  cell's upper edge, exactly as the source does; with exact reals they run
  `samples` times per axis.
 */
module Supersample {
  import opened Grids

  /** The surface in the index space of the output grid (interp composed with
      indexToWorld). */
  type IndexPhi = (real, real) -> real

  /** The coordinate reached after `a` steps of length d from `start`, by
      repeated addition as the loop accumulates it. */
  function SampleCoord(start: real, a: nat, d: real): real {
    if a == 0 then start else SampleCoord(start, a - 1, d) + d
  }

  /** The first sub-sample coordinate of a cell centred at c. */
  function FirstSample(c: real, d: real): real {
    c - (0.5 - 0.5 * d)
  }

  /** Number of b < m whose sub-sample (x, y(b)) is inside. */
  function RowCount(phi: IndexPhi, x: real, y0: real, d: real, m: nat): (k: nat)
    ensures k <= m
  {
    if m == 0 then 0
    else RowCount(phi, x, y0, d, m - 1) + (if phi(x, SampleCoord(y0, m - 1, d)) <= 0.0 then 1 else 0)
  }

  /** Number of inside sub-samples in the first m columns of n rows. */
  function LatticeCount(phi: IndexPhi, x0: real, y0: real, d: real, m: nat, n: nat): (k: nat)
    ensures k <= m * n
  {
    if m == 0 then 0
    else LatticeCount(phi, x0, y0, d, m - 1, n) + RowCount(phi, SampleCoord(x0, m - 1, d), y0, d, n)
  }

  /** Every sub-sample of the lattice is inside. */
  ghost predicate AllSamplesInside(phi: IndexPhi, ci: real, cj: real, samples: nat)
    requires samples > 0
  {
    var d := 1.0 / samples as real;
    forall a: nat, b: nat :: a < samples && b < samples ==>
      phi(SampleCoord(FirstSample(ci, d), a, d), SampleCoord(FirstSample(cj, d), b, d)) <= 0.0
  }

  /** No sub-sample of the lattice is inside. */
  ghost predicate NoSampleInside(phi: IndexPhi, ci: real, cj: real, samples: nat)
    requires samples > 0
  {
    var d := 1.0 / samples as real;
    forall a: nat, b: nat :: a < samples && b < samples ==>
      phi(SampleCoord(FirstSample(ci, d), a, d), SampleCoord(FirstSample(cj, d), b, d)) > 0.0
  }

  /** Reference value of the area of the cell centred at (ci, cj): 0 when the
      centre is more than two grid cells outside, otherwise the inside count
      times the sub-sample area. */
  function AreaOf(phi: IndexPhi, ci: real, cj: real, samples: nat, gridDx: real): (area: real)
    requires samples > 0
    ensures phi(ci, cj) > 2.0 * gridDx ==> area == 0.0
    ensures 0.0 <= area
  {
    if phi(ci, cj) > 2.0 * gridDx then 0.0
    else
      var d := 1.0 / samples as real;
      LatticeCount(phi, FirstSample(ci, d), FirstSample(cj, d), d, samples, samples) as real * (d * d)
  }

  // ---------------------------------------------------------------------
  // Arithmetic of the lattice.
  // ---------------------------------------------------------------------

  lemma {:induction false} SampleCoordClosed(start: real, a: nat, d: real)
    ensures SampleCoord(start, a, d) == start + a as real * d
  {
    if a > 0 {
      SampleCoordClosed(start, a - 1, d);
    }
  }

  lemma MulStrict(x: real, y: real, d: real)
    requires x < y && 0.0 < d
    ensures x * d < y * d
  {
  }

  lemma ReciprocalBound(r: real, n: real, d: real)
    requires 0.0 < n && d == 1.0 / n
    ensures r * d < 1.0 <==> r < n
  {
    assert n * d == 1.0;
    assert 0.0 < d;
    if r < n {
      MulStrict(r, n, d);
      calc {
        r * d;
      <
        n * d;
      ==
        1.0;
      }
    } else if n < r {
      MulStrict(n, r, d);
      calc {
        1.0;
      ==
        n * d;
      <
        r * d;
      }
    } else {
      calc {
        r * d;
      ==
        n * d;
      ==
        1.0;
      }
    }
  }

  lemma StepsBelowOne(a: nat, n: nat, d: real)
    requires n > 0 && d == 1.0 / n as real
    ensures (a as real + 0.5) * d < 1.0 <==> a < n
  {
    ReciprocalBound(a as real + 0.5, n as real, d);
  }

  /** The walk from the first sub-sample stays below the upper edge c + 1/2
      for exactly `samples` steps. */
  lemma BelowUpperEdge(c: real, a: nat, n: nat, d: real)
    requires n > 0 && d == 1.0 / n as real
    ensures SampleCoord(FirstSample(c, d), a, d) < c + 0.5 <==> a < n
  {
    SampleCoordClosed(FirstSample(c, d), a, d);
    StepsBelowOne(a, n, d);
    assert SampleCoord(FirstSample(c, d), a, d) == (c - 0.5) + (a as real + 0.5) * d;
  }

  /** count d^2 lies in [0, 1] when count <= n^2 and d = 1/n. */
  lemma ScaledCountInUnit(count: nat, n: nat, d: real)
    requires n > 0 && d == 1.0 / n as real && count <= n * n
    ensures 0.0 <= count as real * (d * d) <= 1.0
    ensures count == n * n ==> count as real * (d * d) == 1.0
  {
    assert d * n as real == 1.0;
    assert (n * n) as real == n as real * n as real;
    assert n as real * n as real * (d * d) == (d * n as real) * (d * n as real);
    assert count as real <= (n * n) as real;
  }

  lemma {:induction false} RowCountFull(phi: IndexPhi, x: real, y0: real, d: real, m: nat)
    requires forall b: nat :: b < m ==> phi(x, SampleCoord(y0, b, d)) <= 0.0
    ensures RowCount(phi, x, y0, d, m) == m
  {
    if m > 0 {
      RowCountFull(phi, x, y0, d, m - 1);
    }
  }

  lemma {:induction false} RowCountEmpty(phi: IndexPhi, x: real, y0: real, d: real, m: nat)
    requires forall b: nat :: b < m ==> phi(x, SampleCoord(y0, b, d)) > 0.0
    ensures RowCount(phi, x, y0, d, m) == 0
  {
    if m > 0 {
      RowCountEmpty(phi, x, y0, d, m - 1);
    }
  }

  lemma {:induction false} LatticeCountFull(phi: IndexPhi, x0: real, y0: real, d: real, m: nat, n: nat)
    requires forall a: nat, b: nat :: a < m && b < n ==> phi(SampleCoord(x0, a, d), SampleCoord(y0, b, d)) <= 0.0
    ensures LatticeCount(phi, x0, y0, d, m, n) == m * n
  {
    if m > 0 {
      LatticeCountFull(phi, x0, y0, d, m - 1, n);
      RowCountFull(phi, SampleCoord(x0, m - 1, d), y0, d, n);
      assert (m - 1) * n + n == m * n;
    }
  }

  lemma {:induction false} LatticeCountEmpty(phi: IndexPhi, x0: real, y0: real, d: real, m: nat, n: nat)
    requires forall a: nat, b: nat :: a < m && b < n ==> phi(SampleCoord(x0, a, d), SampleCoord(y0, b, d)) > 0.0
    ensures LatticeCount(phi, x0, y0, d, m, n) == 0
  {
    if m > 0 {
      LatticeCountEmpty(phi, x0, y0, d, m - 1, n);
      RowCountEmpty(phi, SampleCoord(x0, m - 1, d), y0, d, n);
    }
  }

  // ---------------------------------------------------------------------
  // Properties of the reference area.
  // ---------------------------------------------------------------------

  /** Every area is a fraction of the cell. */
  lemma AreaInUnit(phi: IndexPhi, ci: real, cj: real, samples: nat, gridDx: real)
    requires samples > 0
    ensures 0.0 <= AreaOf(phi, ci, cj, samples, gridDx) <= 1.0
  {
    var d := 1.0 / samples as real;
    var count := LatticeCount(phi, FirstSample(ci, d), FirstSample(cj, d), d, samples, samples);
    ScaledCountInUnit(count, samples, d);
  }

  /** A cell near the surface whose every sub-sample is inside has area 1. */
  lemma AreaFullInside(phi: IndexPhi, ci: real, cj: real, samples: nat, gridDx: real)
    requires samples > 0
    requires phi(ci, cj) <= 2.0 * gridDx
    requires AllSamplesInside(phi, ci, cj, samples)
    ensures AreaOf(phi, ci, cj, samples, gridDx) == 1.0
  {
    var d := 1.0 / samples as real;
    LatticeCountFull(phi, FirstSample(ci, d), FirstSample(cj, d), d, samples, samples);
    ScaledCountInUnit(samples * samples, samples, d);
  }

  /** A cell with no sub-sample inside, or whose centre is far outside, has area 0. */
  lemma AreaEmpty(phi: IndexPhi, ci: real, cj: real, samples: nat, gridDx: real)
    requires samples > 0
    requires phi(ci, cj) > 2.0 * gridDx || NoSampleInside(phi, ci, cj, samples)
    ensures AreaOf(phi, ci, cj, samples, gridDx) == 0.0
  {
    if phi(ci, cj) <= 2.0 * gridDx {
      var d := 1.0 / samples as real;
      LatticeCountEmpty(phi, FirstSample(ci, d), FirstSample(cj, d), d, samples, samples);
    }
  }

  /** Near the surface the area is the inside count times the sub-sample area. */
  lemma AreaOfNear(phi: IndexPhi, ci: real, cj: real, samples: nat, gridDx: real, count: nat, area: real)
    requires samples > 0 && phi(ci, cj) <= 2.0 * gridDx
    requires var d := 1.0 / samples as real;
      count == LatticeCount(phi, FirstSample(ci, d), FirstSample(cj, d), d, samples, samples) &&
      area == count as real * (d * d)
    ensures area == AreaOf(phi, ci, cj, samples, gridDx)
    ensures 0.0 <= area <= 1.0
  {
    AreaInUnit(phi, ci, cj, samples, gridDx);
  }

  // ---------------------------------------------------------------------
  // The loops.
  // ---------------------------------------------------------------------

  /** The inner loop: the number of inside sub-samples in the column at x of
      the cell whose centre has y coordinate cj. */
  method CountColumn(phi: IndexPhi, x: real, cj: real, samples: nat) returns (count: nat)
    requires samples > 0
    ensures count == RowCount(phi, x, FirstSample(cj, 1.0 / samples as real), 1.0 / samples as real, samples)
  {
    var dx := 1.0 / samples as real;
    var start1, end1 := FirstSample(cj, dx), cj + 0.5;
    count := 0;
    var sample1 := start1;
    ghost var b: nat := 0;
    BelowUpperEdge(cj, b, samples, dx);
    while sample1 < end1
      invariant b <= samples
      invariant sample1 == SampleCoord(start1, b, dx)
      invariant sample1 < end1 <==> b < samples
      invariant count == RowCount(phi, x, start1, dx, b)
      decreases samples - b
    {
      if phi(x, sample1) <= 0.0 {
        count := count + 1;
      }
      sample1 := sample1 + dx;
      b := b + 1;
      BelowUpperEdge(cj, b, samples, dx);
    }
  }

  /** The outer loop: the number of inside sub-samples of the cell centred at
      (ci, cj). */
  method CountLattice(phi: IndexPhi, ci: real, cj: real, samples: nat) returns (sampleCount: nat)
    requires samples > 0
    ensures var d := 1.0 / samples as real;
      sampleCount == LatticeCount(phi, FirstSample(ci, d), FirstSample(cj, d), d, samples, samples)
  {
    var dx := 1.0 / samples as real;
    var start0, start1 := FirstSample(ci, dx), FirstSample(cj, dx);
    var end0 := ci + 0.5;
    sampleCount := 0;
    var sample0 := start0;
    ghost var a: nat := 0;
    BelowUpperEdge(ci, a, samples, dx);
    while sample0 < end0
      invariant a <= samples
      invariant sample0 == SampleCoord(start0, a, dx)
      invariant sample0 < end0 <==> a < samples
      invariant sampleCount == LatticeCount(phi, start0, start1, dx, a, samples)
      decreases samples - a
    {
      var column := CountColumn(phi, sample0, cj, samples);
      sampleCount := sampleCount + column;
      sample0 := sample0 + dx;
      a := a + 1;
      BelowUpperEdge(ci, a, samples, dx);
    }
  }

  /** The area of the cell centred at index position (ci, cj), by the source's
      nested loops over real sub-sample coordinates. */
  method SupersampledArea(phi: IndexPhi, ci: real, cj: real, samples: nat, gridDx: real) returns (area: real)
    requires samples > 0
    ensures area == AreaOf(phi, ci, cj, samples, gridDx)
    ensures 0.0 <= area <= 1.0
    ensures phi(ci, cj) > 2.0 * gridDx ==> area == 0.0
  {
    if phi(ci, cj) > 2.0 * gridDx {
      return 0.0;
    }
    var dx := 1.0 / samples as real;
    var sampleArea := dx * dx;
    var sampleCount := CountLattice(phi, ci, cj, samples);
    area := sampleCount as real * sampleArea;
    AreaOfNear(phi, ci, cj, samples, gridDx, sampleCount, area);
  }

  /** Areas of every sample of an sx by sy grid (computeSupersampledAreas);
      phi is the surface in that grid's index space. */
  method SupersampledAreas(phi: IndexPhi, sx: nat, sy: nat, samples: nat, gridDx: real) returns (areas: Grid)
    requires samples > 0
    ensures IsGrid(areas, sx, sy)
    ensures forall i: nat, j: nat :: i < sx && j < sy ==>
      areas[i][j] == AreaOf(phi, i as real, j as real, samples, gridDx)
  {
    areas := [];
    var i := 0;
    while i < sx
      invariant i <= sx && |areas| == i
      invariant forall k :: 0 <= k < i ==> |areas[k]| == sy
      invariant forall k: nat, j: nat :: k < i && j < sy ==>
        areas[k][j] == AreaOf(phi, k as real, j as real, samples, gridDx)
    {
      var row: seq<real> := [];
      var j := 0;
      while j < sy
        invariant j <= sy && |row| == j
        invariant forall l: nat :: l < j ==> row[l] == AreaOf(phi, i as real, l as real, samples, gridDx)
      {
        var area := SupersampledArea(phi, i as real, j as real, samples, gridDx);
        row := row + [area];
        j := j + 1;
      }
      areas := areas + [row];
      i := i + 1;
    }
  }

  /** The surface in the index space of the faces normal to `axis`. */
  function FacePhi(phiAt: (Axis, real, real) -> real, axis: Axis): IndexPhi {
    (x: real, y: real) => phiAt(axis, x, y)
  }

  /** Areas of every face of a staggered grid of nx by ny cells
      (computeSupersampledFaceAreas). */
  method SupersampledFaceAreas(phiAt: (Axis, real, real) -> real, nx: nat, ny: nat, samples: nat, gridDx: real)
    returns (areas: FaceGrid)
    requires samples > 0
    ensures IsStaggered(areas, nx, ny)
    ensures forall axis: Axis, i: nat, j: nat :: FaceInRange(axis, nx, ny, i, j) ==>
      areas.Get(axis)[i][j] == AreaOf(FacePhi(phiAt, axis), i as real, j as real, samples, gridDx)
  {
    var ax := SupersampledAreas(FacePhi(phiAt, X), nx + 1, ny, samples, gridDx);
    var ay := SupersampledAreas(FacePhi(phiAt, Y), nx, ny + 1, samples, gridDx);
    areas := Faces(ax, ay);
  }
}
