/**
  The fixed-step integrator used to trace boundary points and sample points
  through a velocity field: Forward Euler and a three-stage Runge-Kutta
  method, over two-dimensional points with exact real coordinates.

  Both steps are also given as instances of one generic explicit Runge-Kutta
  step driven by a Butcher tableau, which is the reference the direct
  definitions are proved against.
 */
module Integrator {

  datatype Vec2 = Vec2(x: real, y: real)

  const Origin := Vec2(0.0, 0.0)

  function Add(a: Vec2, b: Vec2): Vec2 {
    Vec2(a.x + b.x, a.y + b.y)
  }

  function Sub(a: Vec2, b: Vec2): Vec2 {
    Vec2(a.x - b.x, a.y - b.y)
  }

  function Scale(c: real, a: Vec2): Vec2 {
    Vec2(c * a.x, c * a.y)
  }

  datatype IntegrationOrder = ForwardEuler | RK3

  /** A velocity sampler: time offset within the step and position to velocity. */
  type Sampler = (real, Vec2) -> Vec2

  /** One Forward Euler step: a single slope taken at the start. */
  function ForwardEulerStep(h: real, x: Vec2, f: Sampler): (r: Vec2)
    ensures h == 0.0 ==> r == x
    ensures Sub(r, x) == Scale(h, f(0.0, x))
  {
    Add(x, Scale(h, f(0.0, x)))
  }

  /** The three-stage step exactly as the source writes it: the third slope is
      taken at x - k1 + k2. */
  function RK3StepAsWritten(h: real, x: Vec2, f: Sampler): (r: Vec2)
    ensures r == ThreeStageStep(h, x, f, 1.0)
  {
    var k1 := Scale(h, f(0.0, x));
    var k2 := Scale(h, f(h / 2.0, Add(x, Scale(0.5, k1))));
    var k3 := Scale(h, f(h, Add(Sub(x, k1), k2)));
    assert Scale(1.0, k2) == k2;
    Add(x, Scale(1.0 / 6.0, Add(Add(k1, Scale(4.0, k2)), k3)))
  }

  /** Kutta's third-order step, which the weights 1/6, 4/6, 1/6 and the nodes
      0, 1/2, 1 of the source belong to: the third slope is taken at
      x - k1 + 2 k2. */
  function RK3Step(h: real, x: Vec2, f: Sampler): (r: Vec2)
    ensures r == ThreeStageStep(h, x, f, 2.0)
  {
    var k1 := Scale(h, f(0.0, x));
    var k2 := Scale(h, f(h / 2.0, Add(x, Scale(0.5, k1))));
    var k3 := Scale(h, f(h, Add(Sub(x, k1), Scale(2.0, k2))));
    Add(x, Scale(1.0 / 6.0, Add(Add(k1, Scale(4.0, k2)), k3)))
  }

  /** The three-stage step with weights 1/6, 4/6, 1/6 and nodes 0, 1/2, 1 whose
      third slope is taken at x - k1 + a32 k2. */
  function ThreeStageStep(h: real, x: Vec2, f: Sampler, a32: real): Vec2 {
    var k1 := Scale(h, f(0.0, x));
    var k2 := Scale(h, f(h / 2.0, Add(x, Scale(0.5, k1))));
    var k3 := Scale(h, f(h, Add(Sub(x, k1), Scale(a32, k2))));
    Add(x, Scale(1.0 / 6.0, Add(Add(k1, Scale(4.0, k2)), k3)))
  }

  /** The integrator as the source dispatches it: Forward Euler, or the
      three-stage step as written. */
  function Integrate(h: real, x: Vec2, f: Sampler, order: IntegrationOrder): (r: Vec2)
    ensures h == 0.0 ==> r == x
    ensures order == ForwardEuler ==> r == ExplicitRK(EulerTableau(), h, x, f)
    ensures order == RK3 ==> r == ExplicitRK(SourceRK3Tableau(), h, x, f)
  {
    match order
    case ForwardEuler =>
      ForwardEulerIsTableau(h, x, f);
      ForwardEulerStep(h, x, f)
    case RK3 =>
      RK3AsWrittenIsSourceTableau(h, x, f);
      if h == 0.0 then
        StandStill(h, x, f);
        RK3StepAsWritten(h, x, f)
      else
        RK3StepAsWritten(h, x, f)
  }

  /** The corrected integrator: the same dispatch with Kutta's step in the RK3
      branch. */
  function IntegrateCorrected(h: real, x: Vec2, f: Sampler, order: IntegrationOrder): (r: Vec2)
    ensures h == 0.0 ==> r == x
    ensures order == ForwardEuler ==> r == Integrate(h, x, f, ForwardEuler)
    ensures order == RK3 ==> r == ExplicitRK(KuttaTableau(), h, x, f)
  {
    match order
    case ForwardEuler =>
      ForwardEulerStep(h, x, f)
    case RK3 =>
      RK3IsKuttaTableau(h, x, f);
      RK3Step(h, x, f)
  }

  // ---------------------------------------------------------------------
  // Reference: explicit Runge-Kutta steps given by a Butcher tableau.
  // ---------------------------------------------------------------------

  /** Stage coefficients `a` (strictly lower triangular), weights `b` and nodes `c`. */
  datatype Tableau = Tableau(a: seq<seq<real>>, b: seq<real>, c: seq<real>)

  predicate WellFormed(t: Tableau) {
    |t.a| == |t.b| == |t.c| && forall i :: 0 <= i < |t.a| ==> |t.a[i]| == i
  }

  /** Each stage is evaluated at the time its stage position has travelled to:
      the row sums of `a` equal the nodes `c`. */
  predicate Consistent(t: Tableau)
    requires WellFormed(t)
  {
    forall i :: 0 <= i < |t.a| ==> RowSum(t.a[i]) == t.c[i]
  }

  function RowSum(s: seq<real>): real {
    if |s| == 0 then 0.0 else RowSum(s[..|s| - 1]) + s[|s| - 1]
  }

  /** The linear combination of the first |coeffs| slopes. */
  function Combination(coeffs: seq<real>, ks: seq<Vec2>): Vec2
    requires |coeffs| <= |ks|
  {
    if |coeffs| == 0 then Origin
    else
      var n := |coeffs| - 1;
      Add(Combination(coeffs[..n], ks), Scale(coeffs[n], ks[n]))
  }

  /** The first n slopes k_i = h f(c_i h, x + sum_j a_ij k_j). */
  function Slopes(t: Tableau, h: real, x: Vec2, f: Sampler, n: nat): (ks: seq<Vec2>)
    requires WellFormed(t) && n <= |t.b|
    ensures |ks| == n
  {
    if n == 0 then []
    else
      var prev := Slopes(t, h, x, f, n - 1);
      prev + [Scale(h, f(NodeTime(t.c[n - 1], h), Add(x, Combination(t.a[n - 1], prev))))]
  }

  /** The time offset of a stage at `node` within a step of length h. */
  function NodeTime(node: real, h: real): real {
    node * h
  }

  function ExplicitRK(t: Tableau, h: real, x: Vec2, f: Sampler): Vec2
    requires WellFormed(t)
  {
    Add(x, Combination(t.b, Slopes(t, h, x, f, |t.b|)))
  }

  function EulerTableau(): (t: Tableau)
    ensures WellFormed(t)
  {
    Tableau([[]], [1.0], [0.0])
  }

  /** The tableau of the source's three-stage step. */
  function SourceRK3Tableau(): (t: Tableau)
    ensures WellFormed(t)
  {
    Tableau([[], [0.5], [-1.0, 1.0]], [1.0 / 6.0, 4.0 / 6.0, 1.0 / 6.0], [0.0, 0.5, 1.0])
  }

  /** Kutta's third-order tableau. */
  function KuttaTableau(): (t: Tableau)
    ensures WellFormed(t)
  {
    Tableau([[], [0.5], [-1.0, 2.0]], [1.0 / 6.0, 4.0 / 6.0, 1.0 / 6.0], [0.0, 0.5, 1.0])
  }

  lemma ForwardEulerIsTableau(h: real, x: Vec2, f: Sampler)
    ensures ForwardEulerStep(h, x, f) == ExplicitRK(EulerTableau(), h, x, f)
  {
    var t := EulerTableau();
    var k := Scale(h, f(0.0, x));
    assert Combination(t.a[0], []) == Origin;
    assert Add(x, Origin) == x;
    assert NodeTime(t.c[0], h) == 0.0;
    assert Slopes(t, h, x, f, 0) == [];
    assert Slopes(t, h, x, f, 1) == [k];
    assert t.b[..0] == [];
    CombinationOfOne(1.0, [k]);
  }

  /** Unfolds a combination of one, two or three slopes. */
  lemma CombinationOfOne(c0: real, ks: seq<Vec2>)
    requires 1 <= |ks|
    ensures Combination([c0], ks) == Scale(c0, ks[0])
  {
    assert [c0][..0] == [];
  }

  lemma CombinationOfTwo(c0: real, c1: real, ks: seq<Vec2>)
    requires 2 <= |ks|
    ensures Combination([c0, c1], ks) == Add(Scale(c0, ks[0]), Scale(c1, ks[1]))
  {
    assert [c0, c1][..1] == [c0];
    CombinationOfOne(c0, ks);
  }

  lemma CombinationOfThree(c0: real, c1: real, c2: real, ks: seq<Vec2>)
    requires 3 <= |ks|
    ensures Combination([c0, c1, c2], ks)
         == Add(Add(Scale(c0, ks[0]), Scale(c1, ks[1])), Scale(c2, ks[2]))
  {
    assert [c0, c1, c2][..2] == [c0, c1];
    CombinationOfTwo(c0, c1, ks);
  }

  /** Unfolds the slopes of a three-stage tableau. */
  lemma SlopesOfThreeStages(t: Tableau, h: real, x: Vec2, f: Sampler)
    requires WellFormed(t) && |t.b| == 3
    ensures
      var k1 := Scale(h, f(NodeTime(t.c[0], h), Add(x, Combination(t.a[0], []))));
      var k2 := Scale(h, f(NodeTime(t.c[1], h), Add(x, Combination(t.a[1], [k1]))));
      var k3 := Scale(h, f(NodeTime(t.c[2], h), Add(x, Combination(t.a[2], [k1, k2]))));
      Slopes(t, h, x, f, 3) == [k1, k2, k3]
  {
    var k1 := Scale(h, f(NodeTime(t.c[0], h), Add(x, Combination(t.a[0], []))));
    var k2 := Scale(h, f(NodeTime(t.c[1], h), Add(x, Combination(t.a[1], [k1]))));
    assert Slopes(t, h, x, f, 0) == [];
    assert Slopes(t, h, x, f, 1) == [k1];
    assert Slopes(t, h, x, f, 2) == [k1, k2];
  }

  /** The three slopes and the result of a three-stage tableau whose first
      stage is at node 0 and whose second stage is at node 1/2 from x + k1/2. */
  lemma ThreeStageTableauStep(t: Tableau, h: real, x: Vec2, f: Sampler, a31: real, a32: real)
    requires t == Tableau([[], [0.5], [a31, a32]], [1.0 / 6.0, 4.0 / 6.0, 1.0 / 6.0], [0.0, 0.5, 1.0])
    ensures
      var k1 := Scale(h, f(0.0, x));
      var k2 := Scale(h, f(h / 2.0, Add(x, Scale(0.5, k1))));
      var k3 := Scale(h, f(h, Add(x, Add(Scale(a31, k1), Scale(a32, k2)))));
      ExplicitRK(t, h, x, f) == Add(x, Add(Add(Scale(1.0 / 6.0, k1), Scale(4.0 / 6.0, k2)), Scale(1.0 / 6.0, k3)))
  {
    var k1 := Scale(h, f(0.0, x));
    var k2 := Scale(h, f(h / 2.0, Add(x, Scale(0.5, k1))));
    var k3 := Scale(h, f(h, Add(x, Add(Scale(a31, k1), Scale(a32, k2)))));
    assert Combination(t.a[0], []) == Origin;
    assert Add(x, Origin) == x;
    CombinationOfOne(0.5, [k1]);
    CombinationOfTwo(a31, a32, [k1, k2]);
    assert NodeTime(0.0, h) == 0.0 && NodeTime(0.5, h) == h / 2.0 && NodeTime(1.0, h) == h;
    SlopesOfThreeStages(t, h, x, f);
    assert Slopes(t, h, x, f, 3) == [k1, k2, k3];
    CombinationOfThree(1.0 / 6.0, 4.0 / 6.0, 1.0 / 6.0, [k1, k2, k3]);
  }

  lemma RK3AsWrittenIsSourceTableau(h: real, x: Vec2, f: Sampler)
    ensures RK3StepAsWritten(h, x, f) == ExplicitRK(SourceRK3Tableau(), h, x, f)
  {
    var k1 := Scale(h, f(0.0, x));
    var k2 := Scale(h, f(h / 2.0, Add(x, Scale(0.5, k1))));
    assert Add(Sub(x, k1), k2) == Add(x, Add(Scale(-1.0, k1), Scale(1.0, k2)));
    ThreeStageTableauStep(SourceRK3Tableau(), h, x, f, -1.0, 1.0);
  }

  lemma RK3IsKuttaTableau(h: real, x: Vec2, f: Sampler)
    ensures RK3Step(h, x, f) == ExplicitRK(KuttaTableau(), h, x, f)
  {
    var k1 := Scale(h, f(0.0, x));
    var k2 := Scale(h, f(h / 2.0, Add(x, Scale(0.5, k1))));
    assert Add(Sub(x, k1), Scale(2.0, k2)) == Add(x, Add(Scale(-1.0, k1), Scale(2.0, k2)));
    ThreeStageTableauStep(KuttaTableau(), h, x, f, -1.0, 2.0);
  }

  /** Kutta's tableau is consistent; the source's is not: its third stage is
      evaluated at time h from a position that has travelled 0 of the step. */
  lemma TableauConsistency()
    ensures Consistent(KuttaTableau())
    ensures !Consistent(SourceRK3Tableau())
    ensures RowSum(SourceRK3Tableau().a[2]) == 0.0
  {
    assert [0.5][..0] == [];
    assert [-1.0][..0] == [];
    assert [-1.0, 1.0][..1] == [-1.0];
    assert [-1.0, 2.0][..1] == [-1.0];
    assert RowSum([-1.0, 1.0]) == 0.0;
    assert RowSum([-1.0, 2.0]) == 1.0;
    assert RowSum([0.5]) == 0.5;
    var src := SourceRK3Tableau();
    assert src.a[2] == [-1.0, 1.0] && src.c[2] == 1.0;
    assert RowSum(src.a[2]) != src.c[2];
  }

  // ---------------------------------------------------------------------
  // Algebraic properties.
  // ---------------------------------------------------------------------

  /** For a constant velocity every order moves x by exactly h c. */
  lemma ConstantVelocityIsExact(h: real, x: Vec2, f: Sampler, c: Vec2)
    requires forall t, p :: f(t, p) == c
    ensures ForwardEulerStep(h, x, f) == Add(x, Scale(h, c))
    ensures RK3StepAsWritten(h, x, f) == Add(x, Scale(h, c))
    ensures RK3Step(h, x, f) == Add(x, Scale(h, c))
    ensures Integrate(h, x, f, ForwardEuler) == Integrate(h, x, f, RK3)
  {
  }

  /** A zero step, or a vanishing velocity, leaves the point in place. */
  lemma StandStill(h: real, x: Vec2, f: Sampler)
    requires h == 0.0 || forall t, p :: f(t, p) == Origin
    ensures ForwardEulerStep(h, x, f) == x
    ensures RK3StepAsWritten(h, x, f) == x
    ensures RK3Step(h, x, f) == x
  {
    ThreeStageStandStill(h, x, f, 1.0);
    ThreeStageStandStill(h, x, f, 2.0);
  }

  lemma ThreeStageStandStill(h: real, x: Vec2, f: Sampler, a32: real)
    requires h == 0.0 || forall t, p :: f(t, p) == Origin
    ensures ThreeStageStep(h, x, f, a32) == x
  {
    var k1 := Scale(h, f(0.0, x));
    assert k1 == Origin;
    var k2 := Scale(h, f(h / 2.0, Add(x, Scale(0.5, k1))));
    assert k2 == Origin;
    var k3 := Scale(h, f(h, Add(Sub(x, k1), Scale(a32, k2))));
    assert k3 == Origin;
  }

  /** A velocity that depends on time only, linearly, is integrated exactly by
      both three-stage steps (Simpson's rule on a linear integrand). */
  lemma TimeLinearVelocityIsExact(h: real, x: Vec2, a: Vec2, b: Vec2, f: Sampler)
    requires forall t, p :: f(t, p) == Add(a, Scale(t, b))
    ensures RK3Step(h, x, f) == Add(x, Add(Scale(h, a), Scale(h * h / 2.0, b)))
    ensures RK3StepAsWritten(h, x, f) == Add(x, Add(Scale(h, a), Scale(h * h / 2.0, b)))
  {
  }

  /** The cubic Taylor polynomial of exp(z). */
  function Taylor3(z: real): real {
    1.0 + z + z * z / 2.0 + z * z * z / 6.0
  }

  /** The source's step is the three-stage step with a32 = 1. */
  lemma AsWrittenIsThreeStage(h: real, x: Vec2, f: Sampler)
    ensures RK3StepAsWritten(h, x, f) == ThreeStageStep(h, x, f, 1.0)
  {
    var k1 := Scale(h, f(0.0, x));
    var k2 := Scale(h, f(h / 2.0, Add(x, Scale(0.5, k1))));
    assert Scale(1.0, k2) == k2;
  }

  /** The amplification factor of the three-stage step on x' = rate * x, with z = h * rate. */
  function LinearGain(z: real, a32: real): real {
    1.0 + (z + 4.0 * (z + z * z / 2.0) + (z + (a32 - 1.0) * z * z + a32 * z * z * z / 2.0)) / 6.0
  }

  lemma ScaleScale(a: real, b: real, p: Vec2)
    ensures Scale(a, Scale(b, p)) == Scale(a * b, p)
  {
    assert a * (b * p.x) == (a * b) * p.x;
    assert a * (b * p.y) == (a * b) * p.y;
  }

  lemma AddScales(a: real, b: real, p: Vec2)
    ensures Add(Scale(a, p), Scale(b, p)) == Scale(a + b, p)
  {
  }

  lemma SubScales(a: real, b: real, p: Vec2)
    ensures Sub(Scale(a, p), Scale(b, p)) == Scale(a - b, p)
  {
  }

  /** On x' = rate * x, the slope at a multiple of x is a multiple of x. */
  lemma LinearSlope(h: real, rate: real, f: Sampler, t: real, a: real, x: Vec2)
    requires forall t, p :: f(t, p) == Scale(rate, p)
    ensures Scale(h, f(t, Scale(a, x))) == Scale(h * (rate * a), x)
  {
    ScaleScale(rate, a, x);
    ScaleScale(h, rate * a, x);
  }

  /** The polynomial identity behind `ThreeStageOnLinear`. */
  lemma GainCoefficients(h: real, rate: real, a32: real, c1: real, a2: real, c2: real, a3: real, c3: real)
    requires c1 == h * rate
    requires a2 == 1.0 + 0.5 * c1 && c2 == h * (rate * a2)
    requires a3 == (1.0 - c1) + a32 * c2 && c3 == h * (rate * a3)
    ensures 1.0 + 1.0 / 6.0 * ((c1 + 4.0 * c2) + c3) == LinearGain(h * rate, a32)
  {
  }

  /** On x' = rate * x every slope is a multiple of x, so the step multiplies x
      by its gain. */
  lemma {:induction false} ThreeStageOnLinear(h: real, x: Vec2, rate: real, f: Sampler, a32: real)
    requires forall t, p :: f(t, p) == Scale(rate, p)
    ensures ThreeStageStep(h, x, f, a32) == Scale(LinearGain(h * rate, a32), x)
  {
    var one := Scale(1.0, x);
    assert one == x;
    var c1 := h * rate;
    var k1 := Scale(h, f(0.0, x));
    ScaleScale(h, rate, x);
    assert k1 == Scale(c1, x);
    var a2 := 1.0 + 0.5 * c1;
    var p2 := Add(x, Scale(0.5, k1));
    ScaleScale(0.5, c1, x);
    AddScales(1.0, 0.5 * c1, x);
    assert p2 == Scale(a2, x);
    var c2 := h * (rate * a2);
    var k2 := Scale(h, f(h / 2.0, p2));
    LinearSlope(h, rate, f, h / 2.0, a2, x);
    assert k2 == Scale(c2, x);
    var a3 := (1.0 - c1) + a32 * c2;
    var p3 := Add(Sub(x, k1), Scale(a32, k2));
    SubScales(1.0, c1, x);
    ScaleScale(a32, c2, x);
    AddScales(1.0 - c1, a32 * c2, x);
    assert p3 == Scale(a3, x);
    var c3 := h * (rate * a3);
    var k3 := Scale(h, f(h, p3));
    LinearSlope(h, rate, f, h, a3, x);
    assert k3 == Scale(c3, x);
    ScaleScale(4.0, c2, x);
    AddScales(c1, 4.0 * c2, x);
    AddScales(c1 + 4.0 * c2, c3, x);
    var sum := (c1 + 4.0 * c2) + c3;
    assert Add(Add(k1, Scale(4.0, k2)), k3) == Scale(sum, x);
    ScaleScale(1.0 / 6.0, sum, x);
    AddScales(1.0, 1.0 / 6.0 * sum, x);
    assert ThreeStageStep(h, x, f, a32) == Scale(1.0 + 1.0 / 6.0 * sum, x);
    GainCoefficients(h, rate, a32, c1, a2, c2, a3, c3);
  }

  lemma KuttaGain(z: real)
    ensures LinearGain(z, 2.0) == Taylor3(z)
  {
  }

  /** The amplification factor of the source's step on x' = rate * x, with z = h * rate. */
  function SourceGain(z: real): real {
    1.0 + z + z * z / 3.0 + z * z * z / 12.0
  }

  lemma SourceGainIsLinearGain(z: real)
    ensures LinearGain(z, 1.0) == SourceGain(z)
  {
  }

  /** On the linear equation x' = rate * x, Kutta's step reproduces the cubic
      Taylor polynomial of the exact solution: it is third-order accurate. */
  lemma {:induction false} RK3IsThirdOrderOnLinear(h: real, x: Vec2, rate: real, f: Sampler)
    requires forall t, p :: f(t, p) == Scale(rate, p)
    ensures RK3Step(h, x, f) == Scale(Taylor3(h * rate), x)
  {
    ThreeStageOnLinear(h, x, rate, f, 2.0);
    KuttaGain(h * rate);
  }

  /** The source's step on x' = rate * x gives 1 + z + z^2/3 + z^3/12 instead:
      its second-order term is wrong, so the step is only first-order. */
  lemma {:induction false} RK3AsWrittenOnLinear(h: real, x: Vec2, rate: real, f: Sampler)
    requires forall t, p :: f(t, p) == Scale(rate, p)
    ensures RK3StepAsWritten(h, x, f) == Scale(SourceGain(h * rate), x)
  {
    AsWrittenIsThreeStage(h, x, f);
    ThreeStageOnLinear(h, x, rate, f, 1.0);
    SourceGainIsLinearGain(h * rate);
  }

  /** The shortfall of the source's gain against the cubic Taylor polynomial. */
  function GainGap(z: real): real {
    z * z * (2.0 + z) / 12.0
  }

  lemma GainGapValue(z: real)
    ensures Taylor3(z) == SourceGain(z) + GainGap(z)
  {
  }

  lemma GainGapPositive(z: real)
    requires z > 0.0
    ensures GainGap(z) > 0.0
  {
    assert z * z > 0.0;
    assert z * z * (2.0 + z) > 0.0;
  }

  lemma ScaleDistinct(a: real, b: real, x: Vec2)
    requires a != b && x != Origin
    ensures Scale(a, x) != Scale(b, x)
  {
    if x.x != 0.0 {
      assert Scale(a, x).x != Scale(b, x).x;
    } else {
      assert Scale(a, x).y != Scale(b, x).y;
    }
  }

  /** On the velocity field x' = x the source's step falls short of Kutta's by
      h^2 (2 + h) / 12 times x. */
  lemma {:induction false} RK3AsWrittenShortfall(h: real, x: Vec2, f: Sampler)
    requires forall t, p :: f(t, p) == p
    ensures RK3StepAsWritten(h, x, f) == Scale(SourceGain(h), x)
    ensures RK3Step(h, x, f) == Scale(Taylor3(h), x)
    ensures RK3Step(h, x, f) == Add(RK3StepAsWritten(h, x, f), Scale(GainGap(h), x))
  {
    forall t, p ensures f(t, p) == Scale(1.0, p) {
      assert Scale(1.0, p) == p;
    }
    assert h * 1.0 == h;
    RK3AsWrittenOnLinear(h, x, 1.0, f);
    RK3IsThirdOrderOnLinear(h, x, 1.0, f);
    GainGapValue(h);
    AddScales(SourceGain(h), GainGap(h), x);
  }

  /** Hence the two steps differ for every positive step and nonzero x. */
  lemma {:induction false} RK3AsWrittenCounterexample(h: real, x: Vec2, f: Sampler)
    requires forall t, p :: f(t, p) == p
    requires h > 0.0 && x != Origin
    ensures RK3StepAsWritten(h, x, f) != RK3Step(h, x, f)
  {
    RK3AsWrittenShortfall(h, x, f);
    GainGapValue(h);
    GainGapPositive(h);
    ScaleDistinct(SourceGain(h), Taylor3(h), x);
  }

  lemma GainsAtOne()
    ensures SourceGain(1.0) == 29.0 / 12.0 && Taylor3(1.0) == 8.0 / 3.0
  {
  }

  lemma ScaleUnitX(a: real)
    ensures Scale(a, Vec2(1.0, 0.0)) == Vec2(a, 0.0)
  {
  }

  /** From x = (1, 0) with h = 1 the source gives 29/12 where the cubic Taylor
      value is 8/3. */
  lemma {:induction false} RK3AsWrittenAtOne(f: Sampler)
    requires forall t, p :: f(t, p) == p
    ensures RK3StepAsWritten(1.0, Vec2(1.0, 0.0), f) == Vec2(29.0 / 12.0, 0.0)
    ensures RK3Step(1.0, Vec2(1.0, 0.0), f) == Vec2(8.0 / 3.0, 0.0)
    ensures Integrate(1.0, Vec2(1.0, 0.0), f, RK3) == Vec2(29.0 / 12.0, 0.0)
    ensures IntegrateCorrected(1.0, Vec2(1.0, 0.0), f, RK3) == Vec2(8.0 / 3.0, 0.0)
  {
    RK3AsWrittenShortfall(1.0, Vec2(1.0, 0.0), f);
    GainsAtOne();
    ScaleUnitX(SourceGain(1.0));
    ScaleUnitX(Taylor3(1.0));
  }
}
