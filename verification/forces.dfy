/**
  External forces on staggered velocity grids (addForce of the single-phase
  and the multi-material liquid): every face velocity gains dt times the
  force component along the face's axis.
 */
module Forces {
  import opened Grids

  /** The force component along `axis` at face (i, j); the face's world
      position (indexToWorld) is folded into the sampler. */
  type ForceSampler = (Axis, nat, nat) -> real

  /** A uniform force (fx, fy). */
  function ConstantForce(fx: real, fy: real): ForceSampler {
    (axis: Axis, i: nat, j: nat) => if axis == X then fx else fy
  }

  /** The velocity after applying `force` for time dt. */
  function AddForce(v: FaceGrid, nx: nat, ny: nat, dt: real, force: ForceSampler): (r: FaceGrid)
    requires IsStaggered(v, nx, ny)
    ensures IsStaggered(r, nx, ny)
    ensures forall axis: Axis, i: nat, j: nat :: FaceInRange(axis, nx, ny, i, j) ==>
      r.Get(axis)[i][j] == v.Get(axis)[i][j] + dt * force(axis, i, j)
  {
    BuildFaces(nx, ny, (axis: Axis, i: nat, j: nat) =>
      if FaceInRange(axis, nx, ny, i, j) then v.Get(axis)[i][j] + dt * force(axis, i, j) else 0.0)
  }

  /** A uniform force adds dt fx to every x face and dt fy to every y face. */
  lemma ConstantForceIsUniform(v: FaceGrid, nx: nat, ny: nat, dt: real, fx: real, fy: real)
    requires IsStaggered(v, nx, ny)
    ensures var r := AddForce(v, nx, ny, dt, ConstantForce(fx, fy));
      (forall i: nat, j: nat :: FaceInRange(X, nx, ny, i, j) ==> r.x[i][j] == v.x[i][j] + dt * fx) &&
      (forall i: nat, j: nat :: FaceInRange(Y, nx, ny, i, j) ==> r.y[i][j] == v.y[i][j] + dt * fy)
  {
    var r := AddForce(v, nx, ny, dt, ConstantForce(fx, fy));
    forall i: nat, j: nat | FaceInRange(X, nx, ny, i, j)
      ensures r.x[i][j] == v.x[i][j] + dt * fx
    {
      assert r.Get(X)[i][j] == v.Get(X)[i][j] + dt * ConstantForce(fx, fy)(X, i, j);
    }
    forall i: nat, j: nat | FaceInRange(Y, nx, ny, i, j)
      ensures r.y[i][j] == v.y[i][j] + dt * fy
    {
      assert r.Get(Y)[i][j] == v.Get(Y)[i][j] + dt * ConstantForce(fx, fy)(Y, i, j);
    }
  }

  /** A zero time step leaves the velocity unchanged. */
  lemma AddForceZeroStep(v: FaceGrid, nx: nat, ny: nat, force: ForceSampler)
    requires IsStaggered(v, nx, ny)
    ensures AddForce(v, nx, ny, 0.0, force) == v
  {
    FacesExt(AddForce(v, nx, ny, 0.0, force), v, nx, ny);
  }

  /** Two applications of the same force compose into one over the summed time. */
  lemma AddForceCompose(v: FaceGrid, nx: nat, ny: nat, dt1: real, dt2: real, force: ForceSampler)
    requires IsStaggered(v, nx, ny)
    ensures AddForce(AddForce(v, nx, ny, dt1, force), nx, ny, dt2, force) == AddForce(v, nx, ny, dt1 + dt2, force)
  {
    var a := AddForce(AddForce(v, nx, ny, dt1, force), nx, ny, dt2, force);
    var b := AddForce(v, nx, ny, dt1 + dt2, force);
    forall axis: Axis, i: nat, j: nat | FaceInRange(axis, nx, ny, i, j)
      ensures a.Get(axis)[i][j] == b.Get(axis)[i][j]
    {
      var f := force(axis, i, j);
      assert dt1 * f + dt2 * f == (dt1 + dt2) * f;
    }
    FacesExt(a, b, nx, ny);
  }

  /** Applying the force for -dt undoes applying it for dt. */
  lemma AddForceInverse(v: FaceGrid, nx: nat, ny: nat, dt: real, force: ForceSampler)
    requires IsStaggered(v, nx, ny)
    ensures AddForce(AddForce(v, nx, ny, dt, force), nx, ny, -dt, force) == v
  {
    AddForceCompose(v, nx, ny, dt, -dt, force);
    AddForceZeroStep(v, nx, ny, force);
  }

  /** The multi-material addForce: only the chosen material's velocity changes. */
  function AddForceToMaterial(vs: seq<FaceGrid>, nx: nat, ny: nat, material: nat, dt: real, force: ForceSampler)
    : (r: seq<FaceGrid>)
    requires AllStaggered(vs, nx, ny) && material < |vs|
    ensures |r| == |vs| && AllStaggered(r, nx, ny)
    ensures r[material] == AddForce(vs[material], nx, ny, dt, force)
    ensures forall m :: 0 <= m < |vs| && m != material ==> r[m] == vs[m]
  {
    vs[material := AddForce(vs[material], nx, ny, dt, force)]
  }
}
