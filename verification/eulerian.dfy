/**
  The single-phase liquid driver (EulerianLiquid): clipping the liquid
  against the solid after advection, zeroing velocities in freshly added
  liquid, and the order of the stages of one timestep.

  The pressure projection, the viscosity solve, velocity extrapolation and
  semi-Lagrangian advection are not part of this model: they are the
  function-valued fields of `Solvers`, and the timestep is stated in terms
  of what it hands to them and what it does with their results.
 */
module EulerianLiquid {
  import opened Grids
  import Integrator
  import ComputeWeights
  import SolidExtrapolation

  function Max(a: real, b: real): real {
    if a < b then b else a
  }

  // ---------------------------------------------------------------------
  // Solid clipping (advectLiquidSurface).
  // ---------------------------------------------------------------------

  /** The liquid surface with solid regions removed: liquid may not be deeper
      inside than the solid is outside. */
  function ClipAgainstSolid(surface: Grid, solid: Grid, nx: nat, ny: nat): (r: Grid)
    requires IsGrid(surface, nx, ny) && IsGrid(solid, nx, ny)
    ensures IsGrid(r, nx, ny)
    ensures forall i: nat, j: nat :: i < nx && j < ny ==> r[i][j] == Max(surface[i][j], -solid[i][j])
  {
    BuildGrid(nx, ny, (i: nat, j: nat) => if i < nx && j < ny then Max(surface[i][j], -solid[i][j]) else 0.0)
  }

  /** The clipped surface is the least surface that is at or outside both the
      original liquid and the complement of the solid: it never lies inside
      the solid, it only removes liquid, it keeps cells already clear of the
      solid, and it is below any other such surface. */
  lemma ClipIsLeastBound(surface: Grid, solid: Grid, nx: nat, ny: nat, bound: Grid, i: nat, j: nat)
    requires IsGrid(surface, nx, ny) && IsGrid(solid, nx, ny) && IsGrid(bound, nx, ny) && i < nx && j < ny
    requires surface[i][j] <= bound[i][j] && -solid[i][j] <= bound[i][j]
    ensures var r := ClipAgainstSolid(surface, solid, nx, ny);
      -solid[i][j] <= r[i][j] && surface[i][j] <= r[i][j] && r[i][j] <= bound[i][j] &&
      (-solid[i][j] <= surface[i][j] ==> r[i][j] == surface[i][j])
  {
  }

  /** Clipping twice is clipping once. */
  lemma ClipIdempotent(surface: Grid, solid: Grid, nx: nat, ny: nat)
    requires IsGrid(surface, nx, ny) && IsGrid(solid, nx, ny)
    ensures ClipAgainstSolid(ClipAgainstSolid(surface, solid, nx, ny), solid, nx, ny) == ClipAgainstSolid(surface, solid, nx, ny)
  {
    var once := ClipAgainstSolid(surface, solid, nx, ny);
    GridExt(ClipAgainstSolid(once, solid, nx, ny), once, nx, ny);
  }

  // ---------------------------------------------------------------------
  // Velocity zeroing in added liquid (unionLiquidSurface).
  // ---------------------------------------------------------------------

  /** A surface interpolated at the centre of face (i, j) normal to `axis`. */
  type FacePhi = (Axis, nat, nat) -> real

  /** A face that the added surface covers and the current surface does not. */
  predicate NewlyCovered(added: FacePhi, current: FacePhi, axis: Axis, i: nat, j: nat) {
    added(axis, i, j) <= 0.0 && current(axis, i, j) > 0.0
  }

  /** The velocity before the union: zero on newly covered faces, which may
      hold extrapolated values, and unchanged everywhere else. */
  function ZeroAddedVelocity(v: FaceGrid, nx: nat, ny: nat, added: FacePhi, current: FacePhi): (r: FaceGrid)
    requires IsStaggered(v, nx, ny)
    ensures IsStaggered(r, nx, ny)
    ensures forall axis: Axis, i: nat, j: nat :: FaceInRange(axis, nx, ny, i, j) ==>
      (NewlyCovered(added, current, axis, i, j) ==> r.Get(axis)[i][j] == 0.0) &&
      (!NewlyCovered(added, current, axis, i, j) ==> r.Get(axis)[i][j] == v.Get(axis)[i][j])
  {
    BuildFaces(nx, ny, (axis: Axis, i: nat, j: nat) =>
      if !FaceInRange(axis, nx, ny, i, j) || NewlyCovered(added, current, axis, i, j) then 0.0
      else v.Get(axis)[i][j])
  }

  /** Zeroing twice is zeroing once, and a union that covers no new face
      leaves the velocity unchanged. */
  lemma ZeroAddedVelocityIdempotent(v: FaceGrid, nx: nat, ny: nat, added: FacePhi, current: FacePhi)
    requires IsStaggered(v, nx, ny)
    ensures var once := ZeroAddedVelocity(v, nx, ny, added, current);
      ZeroAddedVelocity(once, nx, ny, added, current) == once
    ensures (forall axis: Axis, i: nat, j: nat :: FaceInRange(axis, nx, ny, i, j) ==> !NewlyCovered(added, current, axis, i, j))
      ==> ZeroAddedVelocity(v, nx, ny, added, current) == v
  {
    var once := ZeroAddedVelocity(v, nx, ny, added, current);
    FacesExt(ZeroAddedVelocity(once, nx, ny, added, current), once, nx, ny);
    if forall axis: Axis, i: nat, j: nat :: FaceInRange(axis, nx, ny, i, j) ==> !NewlyCovered(added, current, axis, i, j) {
      FacesExt(once, v, nx, ny);
    }
  }

  /** A face changes exactly when it is newly covered and carried a nonzero velocity. */
  lemma ZeroAddedVelocityChangesIff(v: FaceGrid, nx: nat, ny: nat, added: FacePhi, current: FacePhi, axis: Axis, i: nat, j: nat)
    requires IsStaggered(v, nx, ny) && FaceInRange(axis, nx, ny, i, j)
    ensures ZeroAddedVelocity(v, nx, ny, added, current).Get(axis)[i][j] != v.Get(axis)[i][j] <==>
      NewlyCovered(added, current, axis, i, j) && v.Get(axis)[i][j] != 0.0
  {
  }

  // ---------------------------------------------------------------------
  // One timestep (runTimestep).
  // ---------------------------------------------------------------------

  /** The simulated state: liquid surface, face velocities and the viscosity field. */
  datatype Liquid = Liquid(surface: Grid, velocity: FaceGrid, viscosity: Grid)

  /** The fixed inputs of a timestep: grid size, cell width, CFL number, the
      viscosity switch, the solid surface at cell centres and sampled at the
      ends of every face, and the library's length fraction and minimum
      cut-cell weight. */
  datatype Settings = Settings(nx: nat, ny: nat, dx: real, cfl: real, solveViscosity: bool,
                               solid: Grid, solidEnds: ComputeWeights.FaceEnds,
                               lengthFraction: ComputeWeights.LengthFraction, minWeight: real)

  /** The result of a pressure projection: the projected velocity and the
      faces it solved for. */
  datatype Projection = Projection(velocity: FaceGrid, valid: Faces<Mark>)

  /** The collaborators of the timestep.
      project(surface, ghost-fluid weights, cut-cell weights, velocity);
      viscosity(dt, surface, viscosity field, velocity);
      extrapolate(velocity, valid faces, bandwidth);
      advectSurface(dt, surface, velocity, order);
      advectVelocity(dt, velocity, order): the velocity carried by itself;
      advectScalar(dt, field, velocity, order);
      reinit(surface): the surface rebuilt as a signed-distance field
      (reinitMesh). */
  datatype Solvers = Solvers(
    project: (Grid, FaceGrid, FaceGrid, FaceGrid) -> Projection,
    viscosity: (real, Grid, Grid, FaceGrid) -> FaceGrid,
    extrapolate: (FaceGrid, Faces<Mark>, real) -> FaceGrid,
    advectSurface: (real, Grid, FaceGrid, Integrator.IntegrationOrder) -> Grid,
    advectVelocity: (real, FaceGrid, Integrator.IntegrationOrder) -> FaceGrid,
    advectScalar: (real, Grid, FaceGrid, Integrator.IntegrationOrder) -> Grid,
    reinit: Grid -> Grid)

  /** Surface advection and re-initialisation keep the grid size. */
  ghost predicate KeepsSurfaceShape(solvers: Solvers, nx: nat, ny: nat) {
    (forall dt, g, v, order :: IsGrid(g, nx, ny) ==> IsGrid(solvers.advectSurface(dt, g, v, order), nx, ny)) &&
    (forall g :: IsGrid(g, nx, ny) ==> IsGrid(solvers.reinit(g), nx, ny))
  }

  /** Re-initialisation keeps the zero level set where it is, so a cell
      strictly inside the liquid stays inside. */
  ghost predicate ReinitKeepsInside(solvers: Solvers, nx: nat, ny: nat) {
    forall g, i: nat, j: nat :: IsGrid(g, nx, ny) && i < nx && j < ny && g[i][j] < 0.0 ==>
      IsGrid(solvers.reinit(g), nx, ny) && solvers.reinit(g)[i][j] < 0.0
  }

  /** Everything a timestep computed, in order. `projections` holds one
      projection, or two when viscosity is solved between them; `viscous`
      holds the viscosity solve's velocity when there is one. */
  datatype Trace = Trace(extrapolated: Grid, reinitialised: Grid, ghostWeights: FaceGrid, cutCellWeights: FaceGrid,
                         projections: seq<Projection>, viscous: seq<FaceGrid>, valid: Faces<Mark>,
                         extrapolatedVelocity: FaceGrid, clipped: Grid, after: Liquid)

  function Last<T>(s: seq<T>): T
    requires |s| > 0
  {
    s[|s| - 1]
  }

  /** One timestep: extrapolate the liquid into the solid and re-initialise
      it, compute the ghost-fluid weights of that surface and the inverted
      cut-cell weights of the solid, project; optionally solve viscosity and
      project again; extrapolate the velocity from the last projection's
      valid faces over 1.5 CFL cells; advect the surface, clip it against
      the solid and re-initialise it, advect the velocity (both RK3), and
      with viscosity on advect the viscosity field by the new velocity
      (forward Euler). */
  function RunTimestep(cfg: Settings, solvers: Solvers, s: Liquid, dt: real): (r: Trace)
    requires IsGrid(s.surface, cfg.nx, cfg.ny) && IsGrid(cfg.solid, cfg.nx, cfg.ny)
    requires KeepsSurfaceShape(solvers, cfg.nx, cfg.ny)
    ensures IsGrid(r.extrapolated, cfg.nx, cfg.ny)
    ensures forall i: nat, j: nat :: i < cfg.nx && j < cfg.ny ==>
      (cfg.solid[i][j] <= 0.0 ==> r.extrapolated[i][j] == s.surface[i][j] - cfg.dx) &&
      (cfg.solid[i][j] > 0.0 ==> r.extrapolated[i][j] == s.surface[i][j])
    ensures r.reinitialised == solvers.reinit(r.extrapolated) && IsGrid(r.reinitialised, cfg.nx, cfg.ny)
    ensures r.ghostWeights == ComputeWeights.GhostFluidWeights(r.reinitialised, cfg.nx, cfg.ny, cfg.lengthFraction)
    ensures r.cutCellWeights == ComputeWeights.CutCellWeights(cfg.nx, cfg.ny, cfg.solidEnds, cfg.lengthFraction, true, cfg.minWeight)
    ensures |r.projections| == (if cfg.solveViscosity then 2 else 1)
    ensures |r.viscous| == (if cfg.solveViscosity then 1 else 0)
    ensures r.projections[0] == solvers.project(r.reinitialised, r.ghostWeights, r.cutCellWeights, s.velocity)
    ensures cfg.solveViscosity ==>
      r.viscous[0] == solvers.viscosity(dt, r.reinitialised, s.viscosity, r.projections[0].velocity) &&
      r.projections[1] == solvers.project(r.reinitialised, r.ghostWeights, r.cutCellWeights, r.viscous[0])
    ensures r.valid == Last(r.projections).valid
    ensures r.extrapolatedVelocity == solvers.extrapolate(Last(r.projections).velocity, r.valid, 1.5 * cfg.cfl)
    ensures r.clipped ==
      ClipAgainstSolid(solvers.advectSurface(dt, s.surface, r.extrapolatedVelocity, Integrator.RK3), cfg.solid, cfg.nx, cfg.ny)
    ensures forall i: nat, j: nat :: i < cfg.nx && j < cfg.ny ==>
      -cfg.solid[i][j] <= r.clipped[i][j] &&
      solvers.advectSurface(dt, s.surface, r.extrapolatedVelocity, Integrator.RK3)[i][j] <= r.clipped[i][j]
    ensures r.after.surface == solvers.reinit(r.clipped) && IsGrid(r.after.surface, cfg.nx, cfg.ny)
    ensures r.after.velocity == solvers.advectVelocity(dt, r.extrapolatedVelocity, Integrator.RK3)
    ensures cfg.solveViscosity ==>
      r.after.viscosity == solvers.advectScalar(dt, s.viscosity, r.after.velocity, Integrator.ForwardEuler)
    ensures !cfg.solveViscosity ==> r.after.viscosity == s.viscosity
  {
    var nx, ny := cfg.nx, cfg.ny;
    var extrapolated := SolidExtrapolation.ExtrapolateLiquid(s.surface, cfg.solid, nx, ny, cfg.dx);
    var reinitialised := solvers.reinit(extrapolated);
    var ghostWeights := ComputeWeights.GhostFluidWeights(reinitialised, nx, ny, cfg.lengthFraction);
    var cutCellWeights := ComputeWeights.CutCellWeights(nx, ny, cfg.solidEnds, cfg.lengthFraction, true, cfg.minWeight);
    var first := solvers.project(reinitialised, ghostWeights, cutCellWeights, s.velocity);
    var viscous := if cfg.solveViscosity then [solvers.viscosity(dt, reinitialised, s.viscosity, first.velocity)] else [];
    var projections :=
      if cfg.solveViscosity then [first, solvers.project(reinitialised, ghostWeights, cutCellWeights, viscous[0])]
      else [first];
    var valid := Last(projections).valid;
    var extrapolatedVelocity := solvers.extrapolate(Last(projections).velocity, valid, 1.5 * cfg.cfl);
    var advected := solvers.advectSurface(dt, s.surface, extrapolatedVelocity, Integrator.RK3);
    var clipped := ClipAgainstSolid(advected, cfg.solid, nx, ny);
    var velocity := solvers.advectVelocity(dt, extrapolatedVelocity, Integrator.RK3);
    var viscosity :=
      if cfg.solveViscosity then solvers.advectScalar(dt, s.viscosity, velocity, Integrator.ForwardEuler)
      else s.viscosity;
    Trace(extrapolated, reinitialised, ghostWeights, cutCellWeights, projections, viscous, valid, extrapolatedVelocity,
          clipped, Liquid(solvers.reinit(clipped), velocity, viscosity))
  }

  /** A projection that reproduces its own result when applied again. */
  ghost predicate ProjectionIdempotent(solvers: Solvers) {
    forall g, a, b, v :: solvers.project(g, a, b, solvers.project(g, a, b, v).velocity) == solvers.project(g, a, b, v)
  }

  /** A viscosity solve that leaves every velocity as it is (zero viscosity). */
  ghost predicate ViscosityInert(solvers: Solvers) {
    forall dt, g, mu, v :: solvers.viscosity(dt, g, mu, v) == v
  }

  /** With an inert viscosity solve and an idempotent projection, switching the
      viscosity solve on changes neither the surface nor the velocity: the
      second projection then reproduces the first, and the valid faces agree. */
  lemma ViscosityBranchCollapses(cfg: Settings, solvers: Solvers, s: Liquid, dt: real)
    requires IsGrid(s.surface, cfg.nx, cfg.ny) && IsGrid(cfg.solid, cfg.nx, cfg.ny)
    requires KeepsSurfaceShape(solvers, cfg.nx, cfg.ny)
    requires ProjectionIdempotent(solvers) && ViscosityInert(solvers)
    ensures var on := RunTimestep(cfg.(solveViscosity := true), solvers, s, dt);
      var off := RunTimestep(cfg.(solveViscosity := false), solvers, s, dt);
      on.valid == off.valid && on.after.surface == off.after.surface && on.after.velocity == off.after.velocity
  {
    var on := RunTimestep(cfg.(solveViscosity := true), solvers, s, dt);
    var off := RunTimestep(cfg.(solveViscosity := false), solvers, s, dt);
    assert on.extrapolated == off.extrapolated;
    var p := on.projections[0];
    assert off.projections[0] == p;
    assert on.viscous[0] == p.velocity;
    assert on.projections[1] == p;
    assert on.extrapolatedVelocity == off.extrapolatedVelocity;
  }

  /** Without the viscosity solve the step does not depend on the viscosity
      field: two states differing only in viscosity end with the same surface,
      velocity and valid faces, each keeping its own viscosity. */
  lemma ViscosityOffIgnoresViscosity(cfg: Settings, solvers: Solvers, s: Liquid, mu: Grid, dt: real)
    requires IsGrid(s.surface, cfg.nx, cfg.ny) && IsGrid(cfg.solid, cfg.nx, cfg.ny)
    requires KeepsSurfaceShape(solvers, cfg.nx, cfg.ny)
    requires !cfg.solveViscosity
    ensures var a := RunTimestep(cfg, solvers, s, dt);
      var b := RunTimestep(cfg, solvers, s.(viscosity := mu), dt);
      a.after.(viscosity := mu) == b.after && a.valid == b.valid
  {
    var a := RunTimestep(cfg, solvers, s, dt);
    var b := RunTimestep(cfg, solvers, s.(viscosity := mu), dt);
    assert a.extrapolated == b.extrapolated;
    assert a.extrapolatedVelocity == b.extrapolatedVelocity;
  }

  /** The pressure solve sees the liquid reaching into the solid: a face
      between two solid cells whose liquid signed distance is below one cell
      width carries ghost-fluid weight 1, provided re-initialisation keeps
      inside cells inside. */
  lemma SolidFacesAreFluidForProjection(cfg: Settings, solvers: Solvers, s: Liquid, dt: real,
                                        axis: Axis, i: nat, j: nat)
    requires IsGrid(s.surface, cfg.nx, cfg.ny) && IsGrid(cfg.solid, cfg.nx, cfg.ny)
    requires KeepsSurfaceShape(solvers, cfg.nx, cfg.ny) && ReinitKeepsInside(solvers, cfg.nx, cfg.ny)
    requires ComputeWeights.InteriorFace(axis, cfg.nx, cfg.ny, i, j)
    requires var (bi, bj) := if axis == X then (i - 1, j) else (i, j - 1);
      cfg.solid[bi][bj] <= 0.0 && s.surface[bi][bj] < cfg.dx &&
      cfg.solid[i][j] <= 0.0 && s.surface[i][j] < cfg.dx
    ensures RunTimestep(cfg, solvers, s, dt).ghostWeights.Get(axis)[i][j] == 1.0
  {
    var r := RunTimestep(cfg, solvers, s, dt);
    var behind := ComputeWeights.Neighbour(r.reinitialised, cfg.nx, cfg.ny, axis, i, j, Lower);
    var ahead := ComputeWeights.Neighbour(r.reinitialised, cfg.nx, cfg.ny, axis, i, j, Upper);
    assert behind < 0.0 && ahead < 0.0;
  }
}
