/**
  Per-face weight normalisation of the multi-material liquid
  (MultiMaterialLiquid::runTimestep): the solid's cut-cell weight is taken
  off each face first, the material weights are rescaled to fill what is
  left, a degenerate face where no material claims the open part is given
  to the lowest-indexed material whose unextrapolated surface runs exactly
  along the face, and a face with no such pair of materials is a fatal
  error. The normalised weights then decide which faces of each material
  are valid for velocity extrapolation.
 */
module MultiMaterial {
  import opened Grids
  import opened Wrappers
  import ComputeWeights

  /** The fatal exit of line 229. */
  datatype FaceError = ZeroWeight

  /** The part of a face not covered by the solid: 1 minus the solid weight,
      floored at 0 (Util::clamp(weight, 0, weight)). */
  function OpenFraction(solid: real): (open: real)
    ensures 0.0 <= open
    ensures open == 0.0 <==> 1.0 <= solid
    ensures solid <= 1.0 ==> solid + open == 1.0
  {
    var weight := 1.0 - solid;
    ComputeWeights.Clamp(weight, 0.0, weight)
  }

  /** The material weights of one face after normalisation (lines 173-195):
      with an open part and some material weight, the materials share the
      open part in proportion to their weights; with an open part and no
      material weight they are left alone; with no open part they are 0. */
  function NormaliseFace(solid: real, w: seq<real>): (r: seq<real>)
    ensures |r| == |w|
    ensures OpenFraction(solid) == 0.0 ==> AllZero(r)
    ensures 0.0 < OpenFraction(solid) && Sum(w) <= 0.0 ==> r == w
    ensures 0.0 < OpenFraction(solid) && 0.0 < Sum(w) ==>
      forall k :: 0 <= k < |w| ==> r[k] * Sum(w) == w[k] * OpenFraction(solid)
  {
    var open := OpenFraction(solid);
    if open > 0.0 then
      var accumulated := Sum(w);
      if accumulated > 0.0 then
        ProportionalShare(w, accumulated, open);
        ScaleAll(w, open / accumulated)
      else w
    else seq(|w|, k => 0.0)
  }

  /** Scaling by open / sum hands every weight its share of the open part. */
  lemma ProportionalShare(w: seq<real>, accumulated: real, open: real)
    requires 0.0 < accumulated
    ensures forall k :: 0 <= k < |w| ==> ScaleAll(w, open / accumulated)[k] * accumulated == w[k] * open
  {
    forall k | 0 <= k < |w|
      ensures ScaleAll(w, open / accumulated)[k] * accumulated == w[k] * open
    {
      QuotientTimes(w[k], open, accumulated);
    }
  }

  lemma QuotientTimes(a: real, b: real, c: real)
    requires c != 0.0
    ensures a * (b / c) * c == a * b
  {
    calc {
      a * (b / c) * c;
      == a * ((b / c) * c);
      == a * b;
    }
  }

  lemma TimesQuotient(c: real, b: real)
    requires c != 0.0
    ensures c * (b / c) == b
  {
  }

  /** The debug total of lines 198-201: the solid weight plus every material weight. */
  function FaceTotal(solid: real, w: seq<real>): real {
    solid + Sum(w)
  }

  /** Normalisation keeps weights non-negative. */
  lemma NormalisedNonNegative(solid: real, w: seq<real>)
    requires AllNonNegative(w)
    ensures AllNonNegative(NormaliseFace(solid, w))
  {
    var r := NormaliseFace(solid, w);
    var open := OpenFraction(solid);
    if open > 0.0 && Sum(w) > 0.0 {
      forall k | 0 <= k < |w|
        ensures 0.0 <= r[k]
      {
        assert r[k] == w[k] * (open / Sum(w));
        assert 0.0 <= open / Sum(w);
        NonNegativeProduct(w[k], open / Sum(w));
      }
    }
  }

  lemma NonNegativeProduct(a: real, b: real)
    requires 0.0 <= a && 0.0 <= b
    ensures 0.0 <= a * b
  {
  }

  /** Partition of unity: with a solid weight in [0, 1] and some material
      weight on the face, the solid and the normalised materials sum to 1. */
  lemma NormalisedPartition(solid: real, w: seq<real>)
    requires 0.0 <= solid <= 1.0 && AllNonNegative(w)
    requires solid == 1.0 || 0.0 < Sum(w)
    ensures FaceTotal(solid, NormaliseFace(solid, w)) == 1.0
  {
    var open := OpenFraction(solid);
    if open == 0.0 {
      SumZeroIffAllZero(NormaliseFace(solid, w));
    } else {
      SumNonNegative(w);
      OpenFaceSum(solid, w);
    }
  }

  /** On a face with an open part and some material weight, the normalised
      weights sum to the open part. */
  lemma OpenFaceSum(solid: real, w: seq<real>)
    requires 0.0 < OpenFraction(solid) && 0.0 < Sum(w)
    ensures Sum(NormaliseFace(solid, w)) == OpenFraction(solid)
  {
    var open := OpenFraction(solid);
    var accumulated := Sum(w);
    assert NormaliseFace(solid, w) == ScaleAll(w, open / accumulated);
    SumScale(w, open / accumulated);
    TimesQuotient(accumulated, open);
  }

  /** The debug check of line 203 fires exactly on faces where the solid
      leaves an open part and every material weight is 0. */
  lemma DegenerateIff(solid: real, w: seq<real>)
    requires 0.0 <= solid <= 1.0 && AllNonNegative(w)
    ensures FaceTotal(solid, NormaliseFace(solid, w)) != 1.0 <==> solid < 1.0 && AllZero(w)
  {
    SumNonNegative(w);
    SumZeroIffAllZero(w);
    if solid == 1.0 || 0.0 < Sum(w) {
      NormalisedPartition(solid, w);
    } else {
      SumZeroIffAllZero(NormaliseFace(solid, w));
    }
  }

  /** Normalising a second time changes nothing. */
  lemma NormaliseIdempotent(solid: real, w: seq<real>)
    requires 0.0 <= solid <= 1.0 && AllNonNegative(w)
    ensures NormaliseFace(solid, NormaliseFace(solid, w)) == NormaliseFace(solid, w)
  {
    var r := NormaliseFace(solid, w);
    var open := OpenFraction(solid);
    SumNonNegative(w);
    if open > 0.0 && Sum(w) > 0.0 {
      NormalisedPartition(solid, w);
      assert Sum(r) == open;
      assert open / Sum(r) == 1.0;
      assert ScaleAll(r, 1.0) == r;
    } else if open == 0.0 {
      assert AllZero(r);
    }
  }

  /** The materials whose unextrapolated length fraction at the face is
      exactly 0, in increasing order (faceAlignedSurfaces). */
  function AlignedMaterials(fractions: seq<real>): (a: seq<nat>)
    ensures forall k :: 0 <= k < |a| ==> a[k] < |fractions| && fractions[a[k]] == 0.0
    ensures forall m :: 0 <= m < |fractions| && fractions[m] == 0.0 ==> m in a
    ensures forall k, l :: 0 <= k < l < |a| ==> a[k] < a[l]
    decreases |fractions|
  {
    if |fractions| == 0 then []
    else
      var n := |fractions| - 1;
      var earlier := AlignedMaterials(fractions[..n]);
      if fractions[n] == 0.0 then earlier + [n] else earlier
  }

  /** The first aligned material is the lowest-indexed material with a zero
      length fraction. */
  lemma FirstAlignedIsLowest(fractions: seq<real>, m: nat)
    requires m < |fractions| && fractions[m] == 0.0
    ensures |AlignedMaterials(fractions)| > 0
    ensures AlignedMaterials(fractions)[0] <= m
  {
    var a := AlignedMaterials(fractions);
    var k :| 0 <= k < |a| && a[k] == m;
    if k > 0 {
      assert a[0] < a[k];
    }
  }

  /** Lines 173-233 as written: the degenerate face gives weight 1 to the
      lowest-indexed aligned material. */
  function ResolveFaceAsWritten(solid: real, w: seq<real>, fractions: seq<real>): (r: Result<seq<real>, FaceError>)
    requires |fractions| == |w|
    ensures r.Failure? <==>
      FaceTotal(solid, NormaliseFace(solid, w)) != 1.0 && |AlignedMaterials(fractions)| < 2
    ensures r.Success? && FaceTotal(solid, NormaliseFace(solid, w)) == 1.0 ==> r.value == NormaliseFace(solid, w)
    ensures r.Success? && FaceTotal(solid, NormaliseFace(solid, w)) != 1.0 ==>
      r.value == NormaliseFace(solid, w)[AlignedMaterials(fractions)[0] := 1.0]
  {
    var normalised := NormaliseFace(solid, w);
    if FaceTotal(solid, normalised) == 1.0 then Success(normalised)
    else
      var aligned := AlignedMaterials(fractions);
      if !(|aligned| > 1) then Failure(ZeroWeight)
      else Success(normalised[aligned[0] := 1.0])
  }

  /** Lines 173-233 with the degenerate face given the open part of the face
      instead of a whole weight of 1. */
  function ResolveFace(solid: real, w: seq<real>, fractions: seq<real>): (r: Result<seq<real>, FaceError>)
    requires |fractions| == |w|
    ensures r.Failure? <==>
      FaceTotal(solid, NormaliseFace(solid, w)) != 1.0 && |AlignedMaterials(fractions)| < 2
    ensures r.Success? ==> |r.value| == |w|
    ensures r.Success? && FaceTotal(solid, NormaliseFace(solid, w)) == 1.0 ==> r.value == NormaliseFace(solid, w)
    ensures r.Success? && FaceTotal(solid, NormaliseFace(solid, w)) != 1.0 ==>
      r.value == NormaliseFace(solid, w)[AlignedMaterials(fractions)[0] := OpenFraction(solid)]
  {
    var normalised := NormaliseFace(solid, w);
    if FaceTotal(solid, normalised) == 1.0 then Success(normalised)
    else
      var aligned := AlignedMaterials(fractions);
      if !(|aligned| > 1) then Failure(ZeroWeight)
      else Success(normalised[aligned[0] := OpenFraction(solid)])
  }

  /** Only a degenerate face can fail, and a failing face has fewer than two
      aligned materials. */
  lemma ResolveFaceFailsOnlyWhenDegenerate(solid: real, w: seq<real>, fractions: seq<real>)
    requires |fractions| == |w| && 0.0 <= solid <= 1.0 && AllNonNegative(w)
    ensures ResolveFace(solid, w, fractions).Failure? <==>
      solid < 1.0 && AllZero(w) && |AlignedMaterials(fractions)| < 2
  {
    DegenerateIff(solid, w);
  }

  /** Partition of unity of the resolved weights: whenever the face resolves,
      the solid and the materials sum to exactly 1, and every weight stays
      non-negative. */
  lemma ResolveFacePartition(solid: real, w: seq<real>, fractions: seq<real>)
    requires |fractions| == |w| && 0.0 <= solid <= 1.0 && AllNonNegative(w)
    requires ResolveFace(solid, w, fractions).Success?
    ensures FaceTotal(solid, ResolveFace(solid, w, fractions).value) == 1.0
    ensures AllNonNegative(ResolveFace(solid, w, fractions).value)
  {
    var n := NormaliseFace(solid, w);
    NormalisedNonNegative(solid, w);
    if FaceTotal(solid, n) != 1.0 {
      DegenerateIff(solid, w);
      var m := AlignedMaterials(fractions)[0];
      SumZeroIffAllZero(n);
      SumUpdate(n, m, OpenFraction(solid));
    }
  }

  /** As written, a resolved degenerate face totals 1 plus the solid weight. */
  lemma AsWrittenOvershoot(solid: real, w: seq<real>, fractions: seq<real>)
    requires |fractions| == |w| && 0.0 <= solid <= 1.0 && AllNonNegative(w)
    requires FaceTotal(solid, NormaliseFace(solid, w)) != 1.0
    requires ResolveFaceAsWritten(solid, w, fractions).Success?
    ensures FaceTotal(solid, ResolveFaceAsWritten(solid, w, fractions).value) == 1.0 + solid
  {
    var n := NormaliseFace(solid, w);
    DegenerateIff(solid, w);
    var m := AlignedMaterials(fractions)[0];
    SumZeroIffAllZero(n);
    SumUpdate(n, m, 1.0);
  }

  /** A concrete face where the weights as written do not sum to 1: half the
      face is solid, two materials both have weight 0 and both run along the
      face. */
  lemma AsWrittenCounterexample()
    ensures ResolveFaceAsWritten(0.5, [0.0, 0.0], [0.0, 0.0]) == Success([1.0, 0.0])
    ensures FaceTotal(0.5, ResolveFaceAsWritten(0.5, [0.0, 0.0], [0.0, 0.0]).value) == 1.5
    ensures ResolveFace(0.5, [0.0, 0.0], [0.0, 0.0]) == Success([0.5, 0.0])
  {
    var w := [0.0, 0.0];
    assert Sum(w[..1]) == 0.0;
    assert Sum(w) == 0.0;
    assert OpenFraction(0.5) == 0.5;
    assert NormaliseFace(0.5, w) == w;
    assert FaceTotal(0.5, NormaliseFace(0.5, w)) == 0.5;
    assert AlignedMaterials(w[..1]) == [0];
    assert w[0 := 1.0] == [1.0, 0.0];
    assert w[0 := 0.5] == [0.5, 0.0];
    assert AlignedMaterials(w) == [0, 1];
    assert [1.0, 0.0][..1] == [1.0];
    assert Sum([1.0, 0.0]) == 1.0;
  }

  /** Which degenerate-face rule a resolution follows: the source's (line 233)
      or the corrected one. */
  datatype TieBreak = AsWritten | Corrected

  function Resolve(rule: TieBreak, solid: real, w: seq<real>, fractions: seq<real>): Result<seq<real>, FaceError>
    requires |fractions| == |w|
  {
    match rule
    case AsWritten => ResolveFaceAsWritten(solid, w, fractions)
    case Corrected => ResolveFace(solid, w, fractions)
  }

  /** The two rules fail on the same faces, and they give the same weights on
      every face without solid, the only case the comment at lines 205-207
      expects; they differ only on a degenerate face that is partly solid. */
  lemma RulesAgree(solid: real, w: seq<real>, fractions: seq<real>)
    requires |fractions| == |w|
    ensures Resolve(AsWritten, solid, w, fractions).Failure? <==> Resolve(Corrected, solid, w, fractions).Failure?
    ensures solid == 0.0 ==> Resolve(AsWritten, solid, w, fractions) == Resolve(Corrected, solid, w, fractions)
    ensures Resolve(AsWritten, solid, w, fractions) != Resolve(Corrected, solid, w, fractions) ==>
      solid != 0.0 && FaceTotal(solid, NormaliseFace(solid, w)) != 1.0
  {
    assert OpenFraction(0.0) == 1.0;
  }

  /** The weights of every material at face (axis, i, j). */
  function WeightsAt(ms: seq<FaceGrid>, nx: nat, ny: nat, axis: Axis, i: nat, j: nat): (w: seq<real>)
    requires AllStaggered(ms, nx, ny) && FaceInRange(axis, nx, ny, i, j)
    ensures |w| == |ms|
    ensures forall m :: 0 <= m < |ms| ==> w[m] == ms[m].Get(axis)[i][j]
  {
    seq(|ms|, m requires 0 <= m < |ms| => ms[m].Get(axis)[i][j])
  }

  /** The resolution of face (axis, i, j) from the solid weights, the material
      weights and the unextrapolated length fractions of every material. */
  function ResolveAt(rule: TieBreak, solid: FaceGrid, ms: seq<FaceGrid>, fractions: seq<FaceGrid>, nx: nat, ny: nat,
                     axis: Axis, i: nat, j: nat): (r: Result<seq<real>, FaceError>)
    requires IsStaggered(solid, nx, ny) && AllStaggered(ms, nx, ny) && AllStaggered(fractions, nx, ny)
    requires |fractions| == |ms| && FaceInRange(axis, nx, ny, i, j)
    ensures r.Success? ==> |r.value| == |ms|
  {
    Resolve(rule, solid.Get(axis)[i][j], WeightsAt(ms, nx, ny, axis, i, j), WeightsAt(fractions, nx, ny, axis, i, j))
  }

  /** Some face normal to `axis` cannot be resolved. */
  predicate FailsOnAxis(rule: TieBreak, solid: FaceGrid, ms: seq<FaceGrid>, fractions: seq<FaceGrid>, nx: nat, ny: nat, axis: Axis)
    requires IsStaggered(solid, nx, ny) && AllStaggered(ms, nx, ny) && AllStaggered(fractions, nx, ny)
    requires |fractions| == |ms|
  {
    var (fx, fy) := FaceCounts(axis, nx, ny);
    exists i: nat, j: nat | i < fx && j < fy :: ResolveAt(rule, solid, ms, fractions, nx, ny, axis, i, j).Failure?
  }

  /** The normalised weights of every material over the staggered grid
      (lines 168-236), or the fatal error when some face cannot be resolved;
      `AsWritten` is the source's result, `Corrected` the one the rest of the
      model uses. */
  function NormaliseWeights(rule: TieBreak, solid: FaceGrid, ms: seq<FaceGrid>, fractions: seq<FaceGrid>, nx: nat, ny: nat)
    : (r: Result<seq<FaceGrid>, FaceError>)
    requires IsStaggered(solid, nx, ny) && AllStaggered(ms, nx, ny) && AllStaggered(fractions, nx, ny)
    requires |fractions| == |ms|
    ensures r.Failure? <==> exists axis: Axis, i: nat, j: nat ::
      FaceInRange(axis, nx, ny, i, j) && ResolveAt(rule, solid, ms, fractions, nx, ny, axis, i, j).Failure?
    ensures r.Success? ==> |r.value| == |ms| && AllStaggered(r.value, nx, ny)
    ensures r.Success? ==> forall m, axis: Axis, i: nat, j: nat :: 0 <= m < |ms| && FaceInRange(axis, nx, ny, i, j) ==>
      ResolveAt(rule, solid, ms, fractions, nx, ny, axis, i, j).Success? &&
      r.value[m].Get(axis)[i][j] == ResolveAt(rule, solid, ms, fractions, nx, ny, axis, i, j).value[m]
  {
    if FailsOnAxis(rule, solid, ms, fractions, nx, ny, X) || FailsOnAxis(rule, solid, ms, fractions, nx, ny, Y) then
      Failure(ZeroWeight)
    else
      Success(seq(|ms|, m requires 0 <= m < |ms| =>
        BuildFaces(nx, ny, (axis: Axis, i: nat, j: nat) =>
          if FaceInRange(axis, nx, ny, i, j) && ResolveAt(rule, solid, ms, fractions, nx, ny, axis, i, j).Success? then
            ResolveAt(rule, solid, ms, fractions, nx, ny, axis, i, j).value[m]
          else 0.0)))
  }

  /** Over the grid the two rules fail together, and on success they store
      the same weights at every face without solid. */
  lemma NormaliseWeightsRulesAgree(solid: FaceGrid, ms: seq<FaceGrid>, fractions: seq<FaceGrid>, nx: nat, ny: nat,
                                   axis: Axis, i: nat, j: nat)
    requires IsStaggered(solid, nx, ny) && AllStaggered(ms, nx, ny) && AllStaggered(fractions, nx, ny)
    requires |fractions| == |ms| && FaceInRange(axis, nx, ny, i, j)
    ensures NormaliseWeights(AsWritten, solid, ms, fractions, nx, ny).Failure? <==>
      NormaliseWeights(Corrected, solid, ms, fractions, nx, ny).Failure?
    ensures NormaliseWeights(Corrected, solid, ms, fractions, nx, ny).Success? && solid.Get(axis)[i][j] == 0.0 ==>
      WeightsAt(NormaliseWeights(AsWritten, solid, ms, fractions, nx, ny).value, nx, ny, axis, i, j) ==
      WeightsAt(NormaliseWeights(Corrected, solid, ms, fractions, nx, ny).value, nx, ny, axis, i, j)
  {
    forall axis': Axis, i': nat, j': nat | FaceInRange(axis', nx, ny, i', j')
      ensures ResolveAt(AsWritten, solid, ms, fractions, nx, ny, axis', i', j').Failure? <==>
              ResolveAt(Corrected, solid, ms, fractions, nx, ny, axis', i', j').Failure?
    {
      RulesAgree(solid.Get(axis')[i'][j'], WeightsAt(ms, nx, ny, axis', i', j'), WeightsAt(fractions, nx, ny, axis', i', j'));
    }
    if NormaliseWeights(Corrected, solid, ms, fractions, nx, ny).Success? && solid.Get(axis)[i][j] == 0.0 {
      RulesAgree(solid.Get(axis)[i][j], WeightsAt(ms, nx, ny, axis, i, j), WeightsAt(fractions, nx, ny, axis, i, j));
    }
  }

  /** The valid faces of one material (lines 260-268): exactly those with a
      positive normalised weight. */
  function MarkValid(w: FaceGrid, nx: nat, ny: nat): (valid: Faces<Mark>)
    requires IsStaggered(w, nx, ny)
    ensures IsStaggered(valid, nx, ny)
    ensures forall axis: Axis, i: nat, j: nat :: FaceInRange(axis, nx, ny, i, j) ==>
      (valid.Get(axis)[i][j] == Finished <==> 0.0 < w.Get(axis)[i][j])
  {
    BuildFaces(nx, ny, (axis: Axis, i: nat, j: nat) =>
      if FaceInRange(axis, nx, ny, i, j) && 0.0 < w.Get(axis)[i][j] then Finished else Unvisited)
  }

  /** A sum of non-negative terms that is positive has a positive term. */
  lemma PositiveTerm(s: seq<real>) returns (k: nat)
    requires AllNonNegative(s) && 0.0 < Sum(s)
    ensures k < |s| && 0.0 < s[k]
  {
    SumZeroIffAllZero(s);
    k :| 0 <= k < |s| && s[k] != 0.0;
  }

  /** On a resolved face some material is valid exactly when the face is not
      entirely solid. */
  lemma SomeMaterialValidIff(solid: real, w: seq<real>, fractions: seq<real>)
    requires |fractions| == |w| && 0.0 <= solid <= 1.0 && AllNonNegative(w)
    requires ResolveFace(solid, w, fractions).Success?
    ensures (exists m :: 0 <= m < |w| && 0.0 < ResolveFace(solid, w, fractions).value[m]) <==> solid < 1.0
  {
    var r := ResolveFace(solid, w, fractions).value;
    ResolveFacePartition(solid, w, fractions);
    if solid < 1.0 {
      var k := PositiveTerm(r);
    } else {
      SumZeroIffAllZero(r);
    }
  }

  /** After a successful normalisation every face that is not entirely solid
      has at least one material marked valid, and an entirely solid face has
      none. */
  lemma ValidFacesCoverOpenFaces(solid: FaceGrid, ms: seq<FaceGrid>, fractions: seq<FaceGrid>, nx: nat, ny: nat,
                                 axis: Axis, i: nat, j: nat)
    requires IsStaggered(solid, nx, ny) && AllStaggered(ms, nx, ny) && AllStaggered(fractions, nx, ny)
    requires |fractions| == |ms| && FaceInRange(axis, nx, ny, i, j)
    requires 0.0 <= solid.Get(axis)[i][j] <= 1.0
    requires forall m :: 0 <= m < |ms| ==> 0.0 <= ms[m].Get(axis)[i][j]
    requires NormaliseWeights(Corrected, solid, ms, fractions, nx, ny).Success?
    ensures var r := NormaliseWeights(Corrected, solid, ms, fractions, nx, ny).value;
      (exists m :: 0 <= m < |ms| && MarkValid(r[m], nx, ny).Get(axis)[i][j] == Finished) <==>
      solid.Get(axis)[i][j] < 1.0
  {
    var r := NormaliseWeights(Corrected, solid, ms, fractions, nx, ny).value;
    var w := WeightsAt(ms, nx, ny, axis, i, j);
    var fr := WeightsAt(fractions, nx, ny, axis, i, j);
    SomeMaterialValidIff(solid.Get(axis)[i][j], w, fr);
    var resolved := ResolveAt(Corrected, solid, ms, fractions, nx, ny, axis, i, j).value;
    assert forall m :: 0 <= m < |ms| ==>
      (MarkValid(r[m], nx, ny).Get(axis)[i][j] == Finished <==> 0.0 < resolved[m]);
  }

  /** Partition of unity over the grid: after a successful normalisation, the
      solid and the materials sum to 1 at every face whose solid weight is in
      [0, 1] and whose material weights are non-negative. */
  lemma NormaliseWeightsPartition(solid: FaceGrid, ms: seq<FaceGrid>, fractions: seq<FaceGrid>, nx: nat, ny: nat,
                                  axis: Axis, i: nat, j: nat)
    requires IsStaggered(solid, nx, ny) && AllStaggered(ms, nx, ny) && AllStaggered(fractions, nx, ny)
    requires |fractions| == |ms| && FaceInRange(axis, nx, ny, i, j)
    requires 0.0 <= solid.Get(axis)[i][j] <= 1.0
    requires forall m :: 0 <= m < |ms| ==> 0.0 <= ms[m].Get(axis)[i][j]
    requires NormaliseWeights(Corrected, solid, ms, fractions, nx, ny).Success?
    ensures var r := NormaliseWeights(Corrected, solid, ms, fractions, nx, ny).value;
      FaceTotal(solid.Get(axis)[i][j], WeightsAt(r, nx, ny, axis, i, j)) == 1.0
  {
    var r := NormaliseWeights(Corrected, solid, ms, fractions, nx, ny).value;
    var w := WeightsAt(ms, nx, ny, axis, i, j);
    var fr := WeightsAt(fractions, nx, ny, axis, i, j);
    ResolveFacePartition(solid.Get(axis)[i][j], w, fr);
    assert WeightsAt(r, nx, ny, axis, i, j) == ResolveAt(Corrected, solid, ms, fractions, nx, ny, axis, i, j).value;
  }
}
