/**
  Extrapolation of liquid into the solid before the pressure solve: cells
  near or inside the solid have their liquid signed distance lowered by one
  cell width, so the liquid reaches the solid boundary. The single-phase
  liquid and the multi-material liquid use different cell rules.
 */
module SolidExtrapolation {
  import opened Grids

  /** The single-phase rule: a cell is extrapolated when it lies in the solid. */
  predicate LiquidExtrapolates(solid: real) {
    solid <= 0.0
  }

  /** The multi-material rule: a material is extrapolated in a solid cell, and
      in a cell within dx of the solid where that material is already inside. */
  function MaterialExtrapolates(solid: real, phi: real, dx: real): (lowered: bool)
    ensures LiquidExtrapolates(solid) ==> lowered
  {
    solid <= 0.0 || (solid <= dx && phi <= 0.0)
  }

  /** One cell of the extrapolated surface under the rule decided by `lowered`. */
  function Lowered(phi: real, dx: real, lowered: bool): (e: real)
    ensures lowered ==> e == phi - dx
    ensures !lowered ==> e == phi
  {
    if lowered then phi - dx else phi
  }

  /** The extrapolated single-phase surface (EulerianLiquid::runTimestep). */
  function ExtrapolateLiquid(surface: Grid, solid: Grid, nx: nat, ny: nat, dx: real): (e: Grid)
    requires IsGrid(surface, nx, ny) && IsGrid(solid, nx, ny)
    ensures IsGrid(e, nx, ny)
    ensures forall i: nat, j: nat :: i < nx && j < ny ==>
      (solid[i][j] <= 0.0 ==> e[i][j] == surface[i][j] - dx) &&
      (solid[i][j] > 0.0 ==> e[i][j] == surface[i][j])
  {
    BuildGrid(nx, ny, (i: nat, j: nat) =>
      if i < nx && j < ny then Lowered(surface[i][j], dx, LiquidExtrapolates(solid[i][j])) else 0.0)
  }

  /** The extrapolated surface of every material (MultiMaterialLiquid::runTimestep). */
  function ExtrapolateMaterials(surfaces: seq<Grid>, solid: Grid, nx: nat, ny: nat, dx: real): (e: seq<Grid>)
    requires AllGrids(surfaces, nx, ny) && IsGrid(solid, nx, ny)
    ensures |e| == |surfaces| && AllGrids(e, nx, ny)
    ensures forall m, i: nat, j: nat :: 0 <= m < |surfaces| && i < nx && j < ny ==>
      (MaterialExtrapolates(solid[i][j], surfaces[m][i][j], dx) ==> e[m][i][j] == surfaces[m][i][j] - dx) &&
      (!MaterialExtrapolates(solid[i][j], surfaces[m][i][j], dx) ==> e[m][i][j] == surfaces[m][i][j])
  {
    seq(|surfaces|, m requires 0 <= m < |surfaces| =>
      BuildGrid(nx, ny, (i: nat, j: nat) =>
        if i < nx && j < ny then Lowered(surfaces[m][i][j], dx, MaterialExtrapolates(solid[i][j], surfaces[m][i][j], dx))
        else 0.0))
  }

  /** Extrapolation never pushes liquid out: the surface only moves outwards
      into the solid, every inside cell stays inside, and a solid cell
      within one cell width of the liquid becomes liquid. */
  lemma LiquidGrowsIntoSolid(surface: Grid, solid: Grid, nx: nat, ny: nat, dx: real, i: nat, j: nat)
    requires IsGrid(surface, nx, ny) && IsGrid(solid, nx, ny) && 0.0 <= dx && i < nx && j < ny
    ensures var e := ExtrapolateLiquid(surface, solid, nx, ny, dx);
      e[i][j] <= surface[i][j] &&
      (surface[i][j] <= 0.0 ==> e[i][j] <= 0.0) &&
      (solid[i][j] <= 0.0 && surface[i][j] < dx ==> e[i][j] < 0.0) &&
      (e[i][j] < surface[i][j] <==> solid[i][j] <= 0.0 && dx != 0.0)
  {
  }

  /** The multi-material rule extrapolates wherever the single-phase rule does,
      and additionally exactly at cells within dx outside the solid where the
      material is inside. */
  lemma MaterialRuleExtendsLiquidRule(solid: real, phi: real, dx: real)
    ensures LiquidExtrapolates(solid) ==> MaterialExtrapolates(solid, phi, dx)
    ensures MaterialExtrapolates(solid, phi, dx) && !LiquidExtrapolates(solid) <==>
      0.0 < solid <= dx && phi <= 0.0
  {
  }

  /** A single material is extrapolated exactly like the single-phase liquid
      outside the band 0 < solid <= dx where the material is inside. */
  lemma MaterialsAgreeWithLiquid(surface: Grid, solid: Grid, nx: nat, ny: nat, dx: real, i: nat, j: nat)
    requires IsGrid(surface, nx, ny) && IsGrid(solid, nx, ny) && i < nx && j < ny
    requires solid[i][j] <= 0.0 || solid[i][j] > dx || surface[i][j] > 0.0
    ensures ExtrapolateMaterials([surface], solid, nx, ny, dx)[0][i][j] == ExtrapolateLiquid(surface, solid, nx, ny, dx)[i][j]
  {
  }
}
