/**
  Face weights derived from signed-distance fields: the ghost-fluid weight
  (fraction of a face inside the liquid, from the two cells the face
  separates) and the cut-cell weight (fraction of a face open to flow, from
  two samples half a cell either side of the face centre along the face).

  The zero-crossing fraction `lengthFraction` of the library is a parameter:
  its code is not part of this model, and every assumption made about it is
  stated where it is used.
 */
module ComputeWeights {
  import opened Grids

  /** The fraction of the segment between two signed-distance samples that
      lies inside (lengthFraction). */
  type LengthFraction = (real, real) -> real

  ghost predicate FractionInUnit(lf: LengthFraction) {
    forall a, b :: 0.0 <= lf(a, b) <= 1.0
  }

  /** A segment whose ends have opposite signs is partly inside. */
  ghost predicate FractionPositiveOnCrossing(lf: LengthFraction) {
    forall a, b :: (a < 0.0) != (b < 0.0) ==> 0.0 < lf(a, b)
  }

  /** A segment with one end strictly inside and the other strictly outside is
      partly outside. An end exactly on the surface may still give a full
      fraction, as linear interpolation does for lengthFraction(-1, 0). */
  ghost predicate FractionBelowOneOnStrictCrossing(lf: LengthFraction) {
    forall a, b :: (a < 0.0 < b || b < 0.0 < a) ==> lf(a, b) < 1.0
  }

  // ---------------------------------------------------------------------
  // Ghost-fluid weights.
  // ---------------------------------------------------------------------

  /** The index of face (i, j) along its own axis, and the number of cells
      along that axis. */
  function AlongAxis(axis: Axis, i: nat, j: nat): nat {
    if axis == X then i else j
  }

  function CellsAlong(axis: Axis, nx: nat, ny: nat): nat {
    if axis == X then nx else ny
  }

  /** A face strictly inside the grid: both the cells it separates exist. */
  predicate InteriorFace(axis: Axis, nx: nat, ny: nat, i: nat, j: nat) {
    FaceInRange(axis, nx, ny, i, j) && 0 < AlongAxis(axis, i, j) < CellsAlong(axis, nx, ny)
  }

  /** The signed distance in the cell behind (Lower) or ahead of (Upper) an
      interior face. */
  function Neighbour(phi: Grid, nx: nat, ny: nat, axis: Axis, i: nat, j: nat, side: Side): real
    requires IsGrid(phi, nx, ny) && InteriorFace(axis, nx, ny, i, j)
  {
    match (axis, side)
    case (_, Upper) => phi[i][j]
    case (X, Lower) => phi[i - 1][j]
    case (Y, Lower) => phi[i][j - 1]
  }

  /** The ghost-fluid weight of one face (computeGhostFluidWeights): faces on
      the grid boundary get 0; otherwise 1 when both cells are inside, the
      zero-crossing fraction when exactly one is, and 0 when neither is. */
  function GhostFluidWeight(phi: Grid, nx: nat, ny: nat, axis: Axis, i: nat, j: nat, lf: LengthFraction): (w: real)
    requires IsGrid(phi, nx, ny) && FaceInRange(axis, nx, ny, i, j)
    ensures !InteriorFace(axis, nx, ny, i, j) ==> w == 0.0
    ensures InteriorFace(axis, nx, ny, i, j) ==>
      var behind := Neighbour(phi, nx, ny, axis, i, j, Lower);
      var ahead := Neighbour(phi, nx, ny, axis, i, j, Upper);
      (behind < 0.0 && ahead < 0.0 ==> w == 1.0) &&
      ((behind < 0.0) != (ahead < 0.0) ==> w == lf(behind, ahead)) &&
      (0.0 <= behind && 0.0 <= ahead ==> w == 0.0)
  {
    var back := FaceToCell(i, j, axis, Lower);
    var forward := FaceToCell(i, j, axis, Upper);
    if back.Along(axis) < 0 || forward.Along(axis) >= CellsAlong(axis, nx, ny) then
      0.0
    else
      var phiBackward := phi[back.i][back.j];
      var phiForward := phi[forward.i][forward.j];
      if phiBackward < 0.0 && phiForward < 0.0 then 1.0
      else if (phiBackward < 0.0 && phiForward >= 0.0) || (phiBackward >= 0.0 && phiForward < 0.0) then
        lf(phiBackward, phiForward)
      else 0.0
  }

  /** Ghost-fluid weights of every face of the staggered grid over phi. */
  function GhostFluidWeights(phi: Grid, nx: nat, ny: nat, lf: LengthFraction): (r: FaceGrid)
    requires IsGrid(phi, nx, ny)
    ensures IsStaggered(r, nx, ny)
    ensures forall axis: Axis, i: nat, j: nat :: FaceInRange(axis, nx, ny, i, j) ==>
      r.Get(axis)[i][j] == GhostFluidWeight(phi, nx, ny, axis, i, j, lf)
  {
    BuildFaces(nx, ny, (axis: Axis, i: nat, j: nat) =>
      if FaceInRange(axis, nx, ny, i, j) then GhostFluidWeight(phi, nx, ny, axis, i, j, lf) else 0.0)
  }

  /** With a zero-crossing fraction in [0, 1], every ghost-fluid weight is in [0, 1]. */
  lemma GhostFluidWeightInUnit(phi: Grid, nx: nat, ny: nat, axis: Axis, i: nat, j: nat, lf: LengthFraction)
    requires IsGrid(phi, nx, ny) && FaceInRange(axis, nx, ny, i, j)
    requires FractionInUnit(lf)
    ensures 0.0 <= GhostFluidWeight(phi, nx, ny, axis, i, j, lf) <= 1.0
  {
  }

  /** A face carries liquid exactly when it is interior and one of its cells
      is inside, provided a sign change always yields a positive fraction. */
  lemma GhostFluidWeightPositiveIff(phi: Grid, nx: nat, ny: nat, axis: Axis, i: nat, j: nat, lf: LengthFraction)
    requires IsGrid(phi, nx, ny) && FaceInRange(axis, nx, ny, i, j)
    requires FractionPositiveOnCrossing(lf)
    ensures 0.0 < GhostFluidWeight(phi, nx, ny, axis, i, j, lf) <==>
      InteriorFace(axis, nx, ny, i, j) &&
      (Neighbour(phi, nx, ny, axis, i, j, Lower) < 0.0 || Neighbour(phi, nx, ny, axis, i, j, Upper) < 0.0)
  {
  }

  /** A face is fully liquid exactly when it is interior and either both its
      cells are inside, or one is inside, the other lies exactly on the
      surface, and the fraction of that segment is full; provided a strict
      sign change never yields a full fraction. */
  lemma GhostFluidWeightFullIff(phi: Grid, nx: nat, ny: nat, axis: Axis, i: nat, j: nat, lf: LengthFraction)
    requires IsGrid(phi, nx, ny) && FaceInRange(axis, nx, ny, i, j)
    requires FractionBelowOneOnStrictCrossing(lf)
    ensures GhostFluidWeight(phi, nx, ny, axis, i, j, lf) == 1.0 <==>
      InteriorFace(axis, nx, ny, i, j) &&
      var behind := Neighbour(phi, nx, ny, axis, i, j, Lower);
      var ahead := Neighbour(phi, nx, ny, axis, i, j, Upper);
      (behind < 0.0 && ahead < 0.0) ||
      (((behind < 0.0 && ahead == 0.0) || (behind == 0.0 && ahead < 0.0)) && lf(behind, ahead) == 1.0)
  {
  }

  // ---------------------------------------------------------------------
  // Cut-cell weights.
  // ---------------------------------------------------------------------

  /** Util::clamp. */
  function Clamp(w: real, lo: real, hi: real): (r: real)
    ensures lo <= hi ==> lo <= r <= hi
    ensures lo <= w <= hi ==> r == w
  {
    if w < lo then lo else if w > hi then hi else w
  }

  /** The weight before clamping: the zero-crossing fraction of the two
      samples, or its complement when `invert` is set. */
  function PreClampWeight(p0: real, p1: real, lf: LengthFraction, invert: bool): (pre: real)
    ensures 0.0 <= lf(p0, p1) <= 1.0 ==> 0.0 <= pre <= 1.0
    ensures invert ==> pre + lf(p0, p1) == 1.0
    ensures !invert ==> pre == lf(p0, p1)
  {
    if invert then 1.0 - lf(p0, p1) else lf(p0, p1)
  }

  /** Clamps a weight to [0, 1], then raises any positive weight below
      `minWeight` to `minWeight`. */
  function FloorWeight(pre: real, minWeight: real): (w: real)
    ensures 0.0 <= w
    ensures w == 0.0 <==> pre <= 0.0
    ensures 0.0 < pre ==> pre <= w || 1.0 <= w
    ensures 0.0 < pre ==> minWeight <= w
    ensures 0.0 < pre < minWeight ==> w == minWeight
    ensures 0.0 <= pre && minWeight <= pre <= 1.0 ==> w == pre
    ensures minWeight <= 1.0 ==> w <= 1.0
    ensures minWeight <= 1.0 && 1.0 <= pre ==> w == 1.0
    ensures minWeight <= 1.0 ==> w == 0.0 || minWeight <= w <= 1.0
  {
    var clamped := Clamp(pre, 0.0, 1.0);
    if clamped > 0.0 && clamped < minWeight then minWeight else clamped
  }

  /** The cut-cell weight of one face from the surface sampled half a cell
      below (p0) and above (p1) the face centre on the transverse axis. */
  function CutCellWeight(p0: real, p1: real, lf: LengthFraction, invert: bool, minWeight: real): (w: real)
    ensures invert ==> w == FloorWeight(1.0 - lf(p0, p1), minWeight)
    ensures !invert ==> w == FloorWeight(lf(p0, p1), minWeight)
    ensures minWeight <= 1.0 ==> w == 0.0 || minWeight <= w <= 1.0
    ensures minWeight <= 1.0 && 0.0 <= lf(p0, p1) <= 1.0 ==>
      (w == 0.0 <==> (if invert then lf(p0, p1) == 1.0 else lf(p0, p1) == 0.0))
  {
    FloorWeight(PreClampWeight(p0, p1, lf, invert), minWeight)
  }

  /** Clamping and flooring a weight a second time changes nothing. */
  lemma FloorWeightIdempotent(pre: real, minWeight: real)
    requires minWeight <= 1.0
    ensures FloorWeight(FloorWeight(pre, minWeight), minWeight) == FloorWeight(pre, minWeight)
  {
  }

  /** Clamping and flooring preserve the order of weights. */
  lemma FloorWeightMonotone(a: real, b: real, minWeight: real)
    requires a <= b
    ensures FloorWeight(a, minWeight) <= FloorWeight(b, minWeight)
  {
  }

  /** Without a floor and with a fraction in [0, 1], the inverted and the plain
      weight of a face are complementary: open plus covered is the whole face. */
  lemma InvertedIsComplement(p0: real, p1: real, lf: LengthFraction)
    requires 0.0 <= lf(p0, p1) <= 1.0
    ensures CutCellWeight(p0, p1, lf, true, 0.0) + CutCellWeight(p0, p1, lf, false, 0.0) == 1.0
    ensures CutCellWeight(p0, p1, lf, false, 0.0) == lf(p0, p1)
  {
  }

  /** The surface sampled at the point half a cell below (Lower) or above
      (Upper) the centre of face (i, j) normal to `axis`, on the other axis
      (interp at indexToWorld of the offset face position). */
  type FaceEnds = (Axis, nat, nat, Side) -> real

  /** Cut-cell weights of every face (computeCutCellWeights). */
  function CutCellWeights(nx: nat, ny: nat, ends: FaceEnds, lf: LengthFraction, invert: bool, minWeight: real): (r: FaceGrid)
    ensures IsStaggered(r, nx, ny)
    ensures forall axis: Axis, i: nat, j: nat :: FaceInRange(axis, nx, ny, i, j) ==>
      r.Get(axis)[i][j] == CutCellWeight(ends(axis, i, j, Lower), ends(axis, i, j, Upper), lf, invert, minWeight)
  {
    BuildFaces(nx, ny, (axis: Axis, i: nat, j: nat) =>
      CutCellWeight(ends(axis, i, j, Lower), ends(axis, i, j, Upper), lf, invert, minWeight))
  }

  /** Every cut-cell weight is 0 or lies in [minWeight, 1]. */
  lemma CutCellWeightsRange(nx: nat, ny: nat, ends: FaceEnds, lf: LengthFraction, invert: bool, minWeight: real,
                            axis: Axis, i: nat, j: nat)
    requires minWeight <= 1.0 && FaceInRange(axis, nx, ny, i, j)
    ensures var w := CutCellWeights(nx, ny, ends, lf, invert, minWeight).Get(axis)[i][j];
      w == 0.0 || minWeight <= w <= 1.0
  {
  }
}
