# 2DFluid core: weights, multi-material normalisation, driver rules and integrator

A Dafny model of the discrete core of the 2DFluid liquid simulator. The model covers these parts:

- **Face weights.** Level sets are turned into flow weights on a staggered (MAC) grid:
  - ghost-fluid weights from the signs of the two cells a face separates;
  - cut-cell weights from a zero-crossing fraction, optionally inverted, clamped to [0, 1] and raised to a minimum weight;
  - supersampled cell and face areas, counted on a `samples` by `samples` lattice.
- **Multi-material normalisation.** Per face, the solid weight is taken off first. The material weights are rescaled to fill the open part. A degenerate face, where no material claims the open part, goes to the lowest-indexed material whose surface runs exactly along the face; if fewer than two such materials exist, that is a fatal error. The tie-break is modelled both as written (weight 1) and corrected (the open part of the face). The normalised weights then mark the valid faces of each material.
- **Overlap correction.** After the material surfaces are advected, at each cell the two smallest signed distances are found among material 0, the solid and the other materials. Their average is subtracted from every material.
- **Extrapolation into the solid.** The single-phase liquid and the multi-material liquid use different cell rules.
- **Single-phase driver rules.** These are:
  - clipping the liquid against the solid (`max(phi, -solid)`);
  - zeroing velocities on faces newly covered by a union;
  - adding a force;
  - the order of the timestep stages: projection, then an optional viscosity solve and a second projection, then valid faces, velocity extrapolation and advection.
- **The integrator.** Forward Euler and the three-stage Runge-Kutta step are given directly. They are also given as instances of a generic explicit Runge-Kutta step driven by a Butcher tableau. `Integrator.Integrate` is the dispatcher as written; `Integrator.IntegrateCorrected` uses the corrected third stage.

Arithmetic is exact (`real`). Grids are `seq<seq<real>>` indexed `g[i][j]`, with `i` along x. A staggered grid holds one grid of faces per axis, with one extra sample along that axis.

The following inputs are function parameters:

- Interpolated level-set samples: the surface sampled at the ends of a face, at lattice points, or at face centres.
- The zero-crossing fraction `lengthFraction`.
- A force field.

In the timestep, the pressure projection, viscosity solve, velocity extrapolation, advection and level-set re-initialisation are the function fields of `EulerianLiquid.Solvers`.

The modules are:

| file | module | source |
|---|---|---|
| wrappers.dfy | Wrappers | the fatal `exit(-1)` becomes a `Result` |
| grids.dfy | Grids | grids, staggered faces, the face-to-cell convention, sums |
| weights.dfy | ComputeWeights | Library/SimTools/ComputeWeights.cpp |
| supersample.dfy | Supersample | Library/SimTools/ComputeWeights.cpp |
| integrator.dfy | Integrator | Library/Common/Integrator.h |
| forces.dfy | Forces | addForce of both liquids |
| extrapolate.dfy | SolidExtrapolation | the extrapolate-into-solid rules of both liquids |
| multimaterial.dfy | MultiMaterial | MultiMaterialLiquid.cpp, normalisation and valid faces |
| overlap.dfy | Overlap | MultiMaterialLiquid.cpp, overlap correction |
| eulerian.dfy | EulerianLiquid | EulerianLiquid.cpp |

## Model

| member | source | states |
|---|---|---|
| `ComputeWeights.GhostFluidWeight` | Library/SimTools/ComputeWeights.cpp:9-26 | A face whose cell behind lies before the grid, or whose cell ahead lies past it, gets 0. Otherwise the weight is 1 when both cells are inside. It is `lengthFraction(behind, ahead)` when exactly one cell is inside, and 0 when neither is. |
| `ComputeWeights.GhostFluidWeights` | Library/SimTools/ComputeWeights.cpp:3-31 | Builds a staggered grid of the right dimensions, with every face holding its ghost-fluid weight. |
| `ComputeWeights.GhostFluidWeightInUnit` | Library/SimTools/ComputeWeights.cpp:21-25 | If the length fraction lies in [0, 1], so does every ghost-fluid weight. |
| `ComputeWeights.GhostFluidWeightPositiveIff` | Library/SimTools/ComputeWeights.cpp:14-25 | A weight is positive exactly on interior faces with at least one inside cell. This assumes a sign change always gives a positive fraction. |
| `ComputeWeights.GhostFluidWeightFullIff` | Library/SimTools/ComputeWeights.cpp:14-25 | A weight is exactly 1 on precisely the interior faces where both cells are inside, or where one cell is inside, the other lies exactly on the surface and the length fraction of that pair is 1. This assumes only that a strict sign change never gives a full fraction. |
| `ComputeWeights.FloorWeight` | Library/SimTools/ComputeWeights.cpp:52-57 | Clamping then flooring gives a weight that is 0 exactly when the input is at most 0. A positive input below `minWeight` becomes exactly `minWeight`. An input in [minWeight, 1] is kept as it is. Otherwise a positive input gives at least `minWeight` and at least the input, unless it was capped at 1. If `minWeight <= 1` the weight is 0 or in [minWeight, 1], and inputs at or above 1 give 1. |
| `ComputeWeights.CutCellWeight` | Library/SimTools/ComputeWeights.cpp:41-59 | With `invert` set, the face weight is floor-and-clamp of 1 minus the fraction of the two transverse half-cell samples. Without it, the fraction itself is used. If `minWeight <= 1` the weight is 0 or lies in [minWeight, 1]. For a fraction in [0, 1], the weight is 0 exactly when the fraction is 1 (inverted) or 0 (plain). |
| `ComputeWeights.PreClampWeight` | Library/SimTools/ComputeWeights.cpp:48-50 | The weight before clamping is the fraction itself, or its complement to 1 when `invert` is set. A fraction in [0, 1] gives a weight in [0, 1]. |
| `ComputeWeights.Clamp` | Library/SimTools/ComputeWeights.cpp:52-53 | With lo <= hi the clamped value lies in [lo, hi], and a value already in [lo, hi] is kept. |
| `ComputeWeights.FloorWeightIdempotent` | Library/SimTools/ComputeWeights.cpp:53-57 | If `minWeight <= 1`, clamping and flooring a second time changes nothing: a clamped 0 stays 0 and a 1 stays 1. |
| `ComputeWeights.FloorWeightMonotone` | Library/SimTools/ComputeWeights.cpp:53-57 | Clamping and flooring preserve the order of weights. |
| `ComputeWeights.InvertedIsComplement` | Library/SimTools/ComputeWeights.cpp:48-50 | With no floor and a fraction in [0, 1], the inverted and the plain weight of a face sum to 1. |
| `ComputeWeights.CutCellWeights` | Library/SimTools/ComputeWeights.cpp:33-64 | Builds a staggered grid of the right dimensions, with every face holding the cut-cell weight of its two end samples. |
| `ComputeWeights.CutCellWeightsRange` | Library/SimTools/ComputeWeights.cpp:53-59 | If `minWeight <= 1`, every cut-cell weight is 0 or lies in [minWeight, 1]. |
| `Supersample.BelowUpperEdge` | Library/SimTools/ComputeWeights.cpp:86-92 | Stepping by 1/samples from the first sub-sample stays below the cell's upper edge for exactly `samples` steps. So each real-valued loop runs `samples` times. |
| `Supersample.CountColumn` | Library/SimTools/ComputeWeights.cpp:92-96 | The inner loop counts exactly the inside sub-samples of one lattice column. |
| `Supersample.CountLattice` | Library/SimTools/ComputeWeights.cpp:85-96 | The nested loops count exactly the inside sub-samples of the whole lattice. |
| `Supersample.SupersampledArea` | Library/SimTools/ComputeWeights.cpp:74-98 | A cell's area equals the inside count times 1/samples². It lies in [0, 1], and is 0 when the centre is more than 2 dx outside. |
| `Supersample.AreaOf` | Library/SimTools/ComputeWeights.cpp:80-98 | A cell whose centre is more than 2 dx outside has area 0, and every area is non-negative. |
| `Supersample.AreaInUnit` | Library/SimTools/ComputeWeights.cpp:74-98 | Every area lies in [0, 1]. |
| `Supersample.AreaFullInside` | Library/SimTools/ComputeWeights.cpp:85-98 | A cell near the surface whose every sub-sample is inside has area exactly 1. |
| `Supersample.AreaEmpty` | Library/SimTools/ComputeWeights.cpp:80-81 | A cell whose centre is more than 2 dx outside, or with no inside sub-sample, has area 0. |
| `Supersample.SupersampledAreas` | Library/SimTools/ComputeWeights.cpp:70-102 | Every sample of an sx by sy grid holds the area of the cell centred at its index. |
| `Supersample.SupersampledFaceAreas` | Library/SimTools/ComputeWeights.cpp:104-141 | Every face of the staggered grid holds the area of the cell centred at the face, in that axis's index space. |
| `Integrator.Integrate` | Library/Common/Integrator.h:20-44 | The dispatcher as written. A zero step returns x. The FORWARDEULER branch is the explicit Runge-Kutta step of the one-stage tableau. The RK3 branch is the step of the tableau the source actually uses, whose third row is (-1, 1). |
| `Integrator.IntegrateCorrected` | Library/Common/Integrator.h:20-44 | The dispatcher with the third RK3 slope corrected. A zero step returns x. FORWARDEULER agrees with the source. RK3 is the explicit Runge-Kutta step of Kutta's third-order tableau. |
| `Integrator.ForwardEulerStep` | Library/Common/Integrator.h:28 | The step moves x by exactly h times the velocity at (0, x), so a zero step returns x. |
| `Integrator.RK3StepAsWritten` | Library/Common/Integrator.h:31-37 | The step as written is the three-stage step whose third slope is taken at x - k1 + k2. |
| `Integrator.RK3Step` | Library/Common/Integrator.h:31-37 | The corrected step is the three-stage step whose third slope is taken at x - k1 + 2 k2. |
| `Integrator.ForwardEulerIsTableau` | Library/Common/Integrator.h:27-29 | x + h f(0, x) is the explicit Runge-Kutta step of the Euler tableau. |
| `Integrator.RK3AsWrittenIsSourceTableau` | Library/Common/Integrator.h:31-37 | The step as written is the tableau step with nodes 0, 1/2, 1, third row (-1, 1) and weights 1/6, 4/6, 1/6. |
| `Integrator.RK3IsKuttaTableau` | Library/Common/Integrator.h:31-37 | The corrected step is the tableau step of Kutta's method, whose third row is (-1, 2). |
| `Integrator.TableauConsistency` | Library/Common/Integrator.h:32-34 | Kutta's tableau is consistent: each row sums to its node. The source's third row sums to 0 although f is evaluated at time h. |
| `Integrator.ConstantVelocityIsExact` | Library/Common/Integrator.h:27-37 | For a constant velocity c, every step returns exactly x + h c, so both orders agree. |
| `Integrator.StandStill` | Library/Common/Integrator.h:27-37 | A zero step or a zero velocity returns x under every step. |
| `Integrator.TimeLinearVelocityIsExact` | Library/Common/Integrator.h:31-37 | A velocity a + t b is integrated exactly, x + h a + h²/2 b, by both three-stage steps. |
| `Integrator.RK3IsThirdOrderOnLinear` | Library/Common/Integrator.h:31-37 | On x' = rate x, the corrected step multiplies x by the cubic Taylor polynomial of exp(h rate). |
| `Integrator.RK3AsWrittenOnLinear` | Library/Common/Integrator.h:31-37 | On x' = rate x, the step as written multiplies x by 1 + z + z²/3 + z³/12, where z = h rate. |
| `Integrator.RK3AsWrittenShortfall` | Library/Common/Integrator.h:34 | On x' = x, the step as written falls short of Kutta's step by h²(2 + h)/12 times x. |
| `Integrator.RK3AsWrittenCounterexample` | Library/Common/Integrator.h:34 | On x' = x, with h > 0 and x ≠ 0, the step as written differs from Kutta's step. |
| `Integrator.RK3AsWrittenAtOne` | Library/Common/Integrator.h:34 | On x' = x with h = 1 and x = (1, 0), the source gives (29/12, 0). Kutta's step gives (8/3, 0). The same values come out of `Integrate` and `IntegrateCorrected` with RK3. |
| `Forces.AddForce` | Projects/Simulations/Library/EulerianLiquid.cpp:99-110 | Every face velocity gains dt times the force component along its axis, and the grid keeps its dimensions. |
| `Forces.ConstantForceIsUniform` | Projects/Simulations/Library/EulerianLiquid.cpp:112-115 | A constant force (fx, fy) adds dt fx to every x face and dt fy to every y face. |
| `Forces.AddForceZeroStep` | Projects/Simulations/Library/EulerianLiquid.cpp:107 | A zero time step leaves the velocity unchanged. |
| `Forces.AddForceCompose` | Projects/Simulations/Library/EulerianLiquid.cpp:107 | Adding the same force for dt1 and then dt2 equals adding it for dt1 + dt2. |
| `Forces.AddForceInverse` | Projects/Simulations/Library/EulerianLiquid.cpp:107 | Adding the force for -dt undoes adding it for dt. |
| `Forces.AddForceToMaterial` | Projects/Simulations/Library/MultiMaterialLiquid.cpp:23-41 | Only the chosen material's velocity receives the force. Every other material is unchanged. |
| `SolidExtrapolation.ExtrapolateLiquid` | Projects/Simulations/Library/EulerianLiquid.cpp:167-174 | The extrapolated liquid drops by exactly dx where the solid is at most 0, and is unchanged elsewhere. |
| `SolidExtrapolation.LiquidExtrapolates` | Projects/Simulations/Library/EulerianLiquid.cpp:172 | The single-phase cell rule: a cell is lowered exactly when the solid is at most 0. It has no contract of its own; the material rule below is stated against it. |
| `SolidExtrapolation.LiquidGrowsIntoSolid` | Projects/Simulations/Library/EulerianLiquid.cpp:170-174 | For dx >= 0, extrapolation only lowers the surface and keeps inside cells inside. A solid cell within dx of the liquid becomes inside. A cell changes exactly when it is solid and dx ≠ 0. |
| `SolidExtrapolation.ExtrapolateMaterials` | Projects/Simulations/Library/MultiMaterialLiquid.cpp:129-143 | A material drops by dx exactly where the solid is at most 0, or where the solid is at most dx and the material is inside. It is unchanged elsewhere. |
| `SolidExtrapolation.MaterialExtrapolates` | Projects/Simulations/Library/MultiMaterialLiquid.cpp:139-140 | The multi-material cell rule lowers every cell that the single-phase rule lowers. |
| `SolidExtrapolation.MaterialRuleExtendsLiquidRule` | Projects/Simulations/Library/MultiMaterialLiquid.cpp:139-141 | The material rule fires wherever the single-phase rule does. It fires in addition exactly where 0 < solid <= dx and the material is inside. |
| `SolidExtrapolation.MaterialsAgreeWithLiquid` | Projects/Simulations/Library/MultiMaterialLiquid.cpp:139-141 | Outside that band, a single material is extrapolated exactly like the single-phase liquid. |
| `Overlap.TwoSmallest` | Projects/Simulations/Library/MultiMaterialLiquid.cpp:82-97 | The scan's pair (first, second) satisfies first <= second, and first is at most every scanned value. |
| `Overlap.TwoSmallestStep` | Projects/Simulations/Library/MultiMaterialLiquid.cpp:89-95 | Each update of the scan turns the two smallest values of a prefix into those of the prefix extended by one value. |
| `Overlap.TwoSmallestCorrect` | Projects/Simulations/Library/MultiMaterialLiquid.cpp:82-97 | The scan returns the smallest and second-smallest value, with multiplicity, at two distinct positions. |
| `Overlap.TwoSmallestUnique` | Projects/Simulations/Library/MultiMaterialLiquid.cpp:82-97 | The two smallest values of a sequence are uniquely determined. |
| `Overlap.TrackTwoSmallest` | Projects/Simulations/Library/MultiMaterialLiquid.cpp:82-97 | The loop over material 0, the solid and materials 1 onwards ends with the two smallest candidates. |
| `Overlap.Shift` | Projects/Simulations/Library/MultiMaterialLiquid.cpp:99 | The amount subtracted at a cell lies between the smallest and the second-smallest candidate. |
| `Overlap.CorrectCell` | Projects/Simulations/Library/MultiMaterialLiquid.cpp:99-102 | Every material at a cell decreases by the same amount, the average of the two smallest candidates. |
| `Overlap.NoOverlapAfterCorrection` | Projects/Simulations/Library/MultiMaterialLiquid.cpp:79-102 | After correction, no two distinct materials are both strictly inside a cell. |
| `Overlap.CorrectionKeepsDifferences` | Projects/Simulations/Library/MultiMaterialLiquid.cpp:99-102 | Differences between materials at a cell are unchanged. |
| `Overlap.CorrectOverlaps` | Projects/Simulations/Library/MultiMaterialLiquid.cpp:80-103 | Every material grid keeps its dimensions, and each cell holds the corrected value. The solid is an input only and is not changed. |
| `Overlap.CorrectOverlapsSeparates` | Projects/Simulations/Library/MultiMaterialLiquid.cpp:80-103 | Over the grid, two materials never end strictly inside the same cell, and both move by one common amount. |
| `MultiMaterial.OpenFraction` | Projects/Simulations/Library/MultiMaterialLiquid.cpp:173-175 | The open part is non-negative and is 0 exactly when the solid weight is at least 1. For a solid weight of at most 1, solid plus open is 1. |
| `MultiMaterial.NormaliseFace` | Projects/Simulations/Library/MultiMaterialLiquid.cpp:173-195 | With an open part and a positive material sum, each weight becomes its proportional share, r·sum = w·open. With an open part and no material weight, the weights are unchanged. With no open part, all weights are 0. |
| `MultiMaterial.NormalisedNonNegative` | Projects/Simulations/Library/MultiMaterialLiquid.cpp:177-190 | Normalisation keeps weights non-negative. |
| `MultiMaterial.NormalisedPartition` | Projects/Simulations/Library/MultiMaterialLiquid.cpp:177-203 | If 0 <= solid <= 1 and the weights are non-negative, solid plus materials is exactly 1. This holds when the face is fully solid or some material weight is positive. |
| `MultiMaterial.DegenerateIff` | Projects/Simulations/Library/MultiMaterialLiquid.cpp:198-203 | The total differs from 1 exactly when solid < 1 and every material weight is 0. |
| `MultiMaterial.NormaliseIdempotent` | Projects/Simulations/Library/MultiMaterialLiquid.cpp:173-195 | Normalising already normalised weights changes nothing. |
| `MultiMaterial.AlignedMaterials` | Projects/Simulations/Library/MultiMaterialLiquid.cpp:209-224 | Lists, in strictly increasing order, exactly the materials whose length fraction is 0. |
| `MultiMaterial.FirstAlignedIsLowest` | Projects/Simulations/Library/MultiMaterialLiquid.cpp:215-233 | The first listed material is the lowest-indexed one with a zero fraction. |
| `MultiMaterial.ResolveFaceAsWritten` | Projects/Simulations/Library/MultiMaterialLiquid.cpp:173-233 | The face fails exactly when the total is not 1 and fewer than two materials are aligned. A face with total 1 keeps its normalised weights. Otherwise the lowest aligned material gets weight 1 and the others are untouched. |
| `MultiMaterial.ResolveFace` | Projects/Simulations/Library/MultiMaterialLiquid.cpp:173-233 | Fails in the same cases. A degenerate face gives the lowest aligned material the open part of the face. |
| `MultiMaterial.ResolveFaceFailsOnlyWhenDegenerate` | Projects/Simulations/Library/MultiMaterialLiquid.cpp:203-230 | The face fails exactly when solid < 1, every material weight is 0, and fewer than two materials are aligned. |
| `MultiMaterial.ResolveFacePartition` | Projects/Simulations/Library/MultiMaterialLiquid.cpp:198-233 | A resolved face sums to exactly 1 with the solid, and its weights are non-negative. |
| `MultiMaterial.AsWrittenOvershoot` | Projects/Simulations/Library/MultiMaterialLiquid.cpp:233 | As written, a resolved degenerate face totals 1 + solid. |
| `MultiMaterial.AsWrittenCounterexample` | Projects/Simulations/Library/MultiMaterialLiquid.cpp:233 | With solid 1/2, two zero weights and two aligned materials, the code as written gives (1, 0), which totals 3/2. The corrected version gives (1/2, 0). |
| `MultiMaterial.RulesAgree` | Projects/Simulations/Library/MultiMaterialLiquid.cpp:205-233 | The tie-break as written and the corrected one fail on the same faces. They give the same weights on a face without solid, and they can differ only on a degenerate face with some solid. |
| `MultiMaterial.OpenFaceSum` | Projects/Simulations/Library/MultiMaterialLiquid.cpp:177-195 | With an open part and a positive material sum, the normalised weights sum to exactly the open part. |
| `MultiMaterial.NormaliseWeights` | Projects/Simulations/Library/MultiMaterialLiquid.cpp:168-236 | Takes the tie-break rule as a parameter: `AsWritten` is the code as written, `Corrected` gives the open part instead of 1. Over the grid, the result is the fatal error exactly when some face fails. Otherwise every material's face holds that face's weight resolved by the chosen rule. |
| `MultiMaterial.NormaliseWeightsRulesAgree` | Projects/Simulations/Library/MultiMaterialLiquid.cpp:205-236 | Over the grid, the rule as written and the corrected rule fail together. On a face without solid, a successful normalisation gives the same weights under both rules. |
| `MultiMaterial.NormaliseWeightsPartition` | Projects/Simulations/Library/MultiMaterialLiquid.cpp:168-236 | With the corrected rule, after a successful normalisation, solid plus materials is 1 on every face with 0 <= solid <= 1 and non-negative material weights. |
| `MultiMaterial.MarkValid` | Projects/Simulations/Library/MultiMaterialLiquid.cpp:258-268 | A face is FINISHED exactly when its normalised weight is positive, and UNVISITED otherwise. |
| `MultiMaterial.SomeMaterialValidIff` | Projects/Simulations/Library/MultiMaterialLiquid.cpp:258-268 | On a resolved face, some material weight is positive exactly when the face is not fully solid. |
| `MultiMaterial.ValidFacesCoverOpenFaces` | Projects/Simulations/Library/MultiMaterialLiquid.cpp:258-268 | After normalisation with the corrected rule, some material is FINISHED at a face exactly when the face is not fully solid. |
| `EulerianLiquid.ClipAgainstSolid` | Projects/Simulations/Library/EulerianLiquid.cpp:126-130 | Each cell becomes max(phi, -solid). |
| `EulerianLiquid.ClipIsLeastBound` | Projects/Simulations/Library/EulerianLiquid.cpp:127-130 | The clipped value is at least -solid and at least phi, and at most any other such bound. Cells already clear of the solid are kept. |
| `EulerianLiquid.ClipIdempotent` | Projects/Simulations/Library/EulerianLiquid.cpp:127-130 | Clipping twice equals clipping once. |
| `EulerianLiquid.ZeroAddedVelocity` | Projects/Simulations/Library/EulerianLiquid.cpp:83-92 | The velocity is 0 on faces where the added surface is inside and the current one is outside. All other faces are unchanged. |
| `EulerianLiquid.ZeroAddedVelocityIdempotent` | Projects/Simulations/Library/EulerianLiquid.cpp:84-92 | Zeroing twice equals zeroing once, and a union that covers no new face changes nothing. |
| `EulerianLiquid.ZeroAddedVelocityChangesIff` | Projects/Simulations/Library/EulerianLiquid.cpp:84-92 | A face changes exactly when it is newly covered and carried a nonzero velocity. |
| `EulerianLiquid.RunTimestep` | Projects/Simulations/Library/EulerianLiquid.cpp:161-265 | The stages run in order. The extrapolated liquid is re-initialised (line 176), and the ghost-fluid weights, projections and viscosity solve use that re-initialised surface. The inverted cut-cell weights come from the solid. With viscosity on, the velocity is projected, solved for viscosity and projected again, and validity comes from the last projection. Velocity is extrapolated over 1.5 CFL. The surface is advected with RK3 and each cell is then exactly max(advected, -solid), so it lies outside the solid. The new surface is the re-initialisation of that clipped surface (line 132). The velocity is advected with RK3. Viscosity is advected by the new velocity with FORWARDEULER only when enabled, and is unchanged otherwise. |
| `EulerianLiquid.ViscosityBranchCollapses` | Projects/Simulations/Library/EulerianLiquid.cpp:190-246 | If the viscosity solve is inert and the projection idempotent, switching viscosity on changes neither the surface, the velocity nor the valid faces. |
| `EulerianLiquid.ViscosityOffIgnoresViscosity` | Projects/Simulations/Library/EulerianLiquid.cpp:199-262 | With viscosity off, the step's surface, velocity and valid faces do not depend on the viscosity field, which is carried through unchanged. |
| `EulerianLiquid.SolidFacesAreFluidForProjection` | Projects/Simulations/Library/EulerianLiquid.cpp:167-192 | If re-initialisation keeps inside cells inside, a face between two solid cells whose liquid distance is below dx gets ghost-fluid weight 1 in the projection. |

## Left out

- Rendering, timers, console output and the test driver are not modelled.
- Level-set and mesh operations are not modelled: `buildDCMesh`, `buildMSMesh`, `init`, `unionSurface` and `Mesh2D::advect`.
- In the single-phase timestep, `reinitMesh` is the opaque `reinit` field of `EulerianLiquid.Solvers`. It is applied to the extrapolated surface (EulerianLiquid.cpp line 176) and to the clipped surface (line 132). Only grid dimensions, and where a lemma says so keeping inside cells inside, are assumed of it.
- In the multi-material liquid, `reinitMesh` after the overlap correction (MultiMaterialLiquid.cpp lines 105-106) and on the extrapolated surfaces (lines 145-146) is not modelled. The corrected and extrapolated grids here are the values before re-initialisation. The normalisation takes its weights and length fractions as inputs, so it does not depend on this step.
- `PressureProjection`, `MultiMaterialPressureProjection`, `ViscositySolver`, `ExtrapolateField` and `AdvectField` are not part of this model. In the single-phase timestep they are opaque functions, given by `EulerianLiquid.Solvers`.
- The multi-material timestep is modelled only in the parts listed above: the projection call, velocity extrapolation and advection order of `MultiMaterialLiquid::runTimestep` are not.
- The viscosity solver's area arguments are not passed to the opaque solver. These are the centre, node and face areas with 3 samples, and the solid velocity. The "solid" areas at EulerianLiquid.cpp lines 210-211 are computed from the extrapolated liquid surface, not from the solid; with the solver opaque, this is only noted here.
- `interp` and `indexToWorld` are folded into samplers supplied by the caller: face ends, lattice points, face centres and force positions.
- `lengthFraction` is a parameter. Lemmas that need its range say so in their `requires`.
- `faceToCell` is not part of this model. It is taken to follow the MAC convention: face k along an axis lies between cells k - 1 and k.
- `Util::clamp` is not part of this model. It is taken to return `lo` below `lo`, `hi` above `hi`, and the value otherwise.
- The `Util::isEqual` tolerance is modelled as exact equality.
- The default `minWeight` of `computeCutCellWeights` is not visible, so it is a parameter.
- Floating point is not modelled; all arithmetic is exact. In particular, the real-valued supersampling loops run exactly `samples` times per axis here. Accumulated rounding could add or drop one iteration.
- `samples == 0` divides by zero in the source. The supersampling members require `samples > 0`.
- The overlap correction requires at least one material, since the source reads material 0 unconditionally.
- The parallel `forEachVoxelRange` is a sequential map, because each face or cell is written independently.
- The aligned-material search takes each material's length fraction at the face as input. This fraction is computed from the unextrapolated surfaces at the face's transverse half-cell samples.
- Integrator.RK3AsWrittenCounterexample is stated for h > 0 only. The gap h²(2 + h)/12 also vanishes at h = -2.

## Findings

| source | as written | input that shows it | evidently intended | confidence | as-written member | corrected member |
|---|---|---|---|---|---|---|
| Library/Common/Integrator.h:34 | the third RK3 slope is taken at x - k1 + k2 | x' = x, h = 1, x = (1, 0): the step gives 29/12 where the third-order value is 8/3 | x - k1 + 2 k2, Kutta's third-order method, whose nodes 0, 1/2, 1 and weights 1/6, 4/6, 1/6 the step uses; as written the step is only first-order | high, not executed | `Integrator.RK3AsWrittenCounterexample` | `Integrator.IntegrateCorrected` |
| Projects/Simulations/Library/MultiMaterialLiquid.cpp:233 | a degenerate face gives the lowest aligned material weight 1 | solid weight 1/2, two materials with weight 0, both aligned: the weights total 3/2 | the open part of the face (1 - solid), so that solid plus materials still sum to 1 | low, not executed: the comment at lines 205-207 expects no solid on such faces | `MultiMaterial.AsWrittenCounterexample` | `MultiMaterial.NormaliseWeightsPartition` |
