/**
  Overlap correction after the multi-material surfaces are advected
  (MultiMaterialLiquid::advectFluidSurfaces): at every cell the two smallest
  signed distances among the materials and the solid are found, and their
  average is subtracted from every material, so that no two materials are
  both strictly inside at the same cell.
 */
module Overlap {
  import opened Grids

  function Min(a: real, b: real): real {
    if a < b then a else b
  }

  function Max(a: real, b: real): real {
    if a < b then b else a
  }

  /** The values scanned at one cell, in scan order: material 0, the solid,
      then materials 1 onwards. */
  function Candidates(phis: seq<real>, solid: real): (c: seq<real>)
    requires |phis| >= 1
    ensures |c| == |phis| + 1
    ensures c[1] == solid
    ensures forall m :: 0 <= m < |phis| ==> c[CandidateIndex(m)] == phis[m]
  {
    [phis[0], solid] + phis[1..]
  }

  /** Where material m sits among the candidates. */
  function CandidateIndex(m: nat): nat {
    if m == 0 then 0 else m + 1
  }

  /** `first` and `second` sit at two distinct positions k and l of s, with
      first <= second and every other value at least second. */
  ghost predicate TwoSmallestAt(s: seq<real>, first: real, second: real, k: int, l: int) {
    0 <= k < |s| && 0 <= l < |s| && k != l &&
    s[k] == first && s[l] == second && first <= second &&
    forall n :: 0 <= n < |s| && n != k && n != l ==> second <= s[n]
  }

  /** `first` and `second` are the smallest and second smallest value of s,
      counted with multiplicity. */
  ghost predicate IsTwoSmallest(s: seq<real>, first: real, second: real) {
    exists k, l :: TwoSmallestAt(s, first, second, k, l)
  }

  /** The two smallest values of a sequence are unique. */
  lemma TwoSmallestUnique(s: seq<real>, a: real, b: real, a': real, b': real)
    requires IsTwoSmallest(s, a, b) && IsTwoSmallest(s, a', b')
    ensures a == a' && b == b'
  {
    var k, l :| TwoSmallestAt(s, a, b, k, l);
    var k', l' :| TwoSmallestAt(s, a', b', k', l');
    // Each first value is at most every value of s, so the two agree.
    assert a <= s[k'];
    assert a' <= s[k];
    // Each second value is at most the value at the other's second position.
    if l' != k && l' != l {
      assert b <= s[l'];
    } else if l' == k {
      assert b <= a' by { assert l != k' ==> b <= s[k'] || k' == l; }
    }
    if l != k' && l != l' {
      assert b' <= s[l];
    } else if l == k' {
      assert b' <= a by { assert l' != k ==> b' <= s[k] || k == l'; }
    }
  }

  /** The pair the scan of lines 82-97 holds after visiting every value of s:
      the minimum and maximum of the first two, then each further value either
      becomes the new minimum, pushing the old one to second place, or may
      lower the second. */
  function TwoSmallest(s: seq<real>): (p: (real, real))
    requires |s| >= 2
    ensures p.0 <= p.1
    ensures forall n :: 0 <= n < |s| ==> p.0 <= s[n]
    decreases |s|
  {
    if |s| == 2 then (Min(s[0], s[1]), Max(s[0], s[1]))
    else
      var (first, second) := TwoSmallest(s[..|s| - 1]);
      var x := s[|s| - 1];
      if x < first then (x, first) else (first, Min(x, second))
  }

  /** Extending a sequence by one value x updates its two smallest as the scan does. */
  lemma TwoSmallestStep(s: seq<real>, first: real, second: real, x: real)
    requires IsTwoSmallest(s, first, second)
    ensures x < first ==> IsTwoSmallest(s + [x], x, first)
    ensures !(x < first) ==> IsTwoSmallest(s + [x], first, Min(x, second))
  {
    var k, l :| TwoSmallestAt(s, first, second, k, l);
    var t := s + [x];
    var n := |s|;
    assert t[n] == x;
    assert forall q :: 0 <= q < n ==> t[q] == s[q];
    if x < first {
      assert TwoSmallestAt(t, x, first, n, k);
    } else if x < second {
      assert TwoSmallestAt(t, first, x, k, n);
    } else {
      assert TwoSmallestAt(t, first, second, k, l);
    }
  }

  /** The scan finds the two smallest values. */
  lemma {:induction false} TwoSmallestCorrect(s: seq<real>)
    requires |s| >= 2
    ensures IsTwoSmallest(s, TwoSmallest(s).0, TwoSmallest(s).1)
    decreases |s|
  {
    if |s| == 2 {
      if s[0] <= s[1] {
        assert TwoSmallestAt(s, s[0], s[1], 0, 1);
      } else {
        assert TwoSmallestAt(s, s[1], s[0], 1, 0);
      }
    } else {
      var init := s[..|s| - 1];
      var x := s[|s| - 1];
      var p := TwoSmallest(init);
      TwoSmallestCorrect(init);
      TwoSmallestStep(init, p.0, p.1, x);
      assert init + [x] == s;
      if x < p.0 {
        assert TwoSmallest(s) == (x, p.0);
      } else {
        assert TwoSmallest(s) == (p.0, Min(x, p.1));
      }
    }
  }

  /** The scan of lines 82-97 over material 0, the solid and materials 1
      onwards, as a loop. */
  method TrackTwoSmallest(phis: seq<real>, solid: real) returns (firstMin: real, secondMin: real)
    requires |phis| >= 1
    ensures IsTwoSmallest(Candidates(phis, solid), firstMin, secondMin)
    ensures (firstMin, secondMin) == TwoSmallest(Candidates(phis, solid))
  {
    ghost var c := Candidates(phis, solid);
    firstMin := Min(phis[0], solid);
    secondMin := Max(phis[0], solid);
    if phis[0] <= solid {
      assert TwoSmallestAt(c[..2], firstMin, secondMin, 0, 1);
    } else {
      assert TwoSmallestAt(c[..2], firstMin, secondMin, 1, 0);
    }
    var material := 1;
    while material < |phis|
      invariant 1 <= material <= |phis|
      invariant IsTwoSmallest(c[..material + 1], firstMin, secondMin)
    {
      var localMin := phis[material];
      assert c[..material + 2] == c[..material + 1] + [localMin];
      TwoSmallestStep(c[..material + 1], firstMin, secondMin, localMin);
      if localMin < firstMin {
        secondMin := firstMin;
        firstMin := localMin;
      } else {
        secondMin := Min(localMin, secondMin);
      }
      material := material + 1;
    }
    assert c[..material + 1] == c;
    TwoSmallestCorrect(c);
    TwoSmallestUnique(c, firstMin, secondMin, TwoSmallest(c).0, TwoSmallest(c).1);
  }

  /** The amount subtracted from every material at a cell: the average of
      the two smallest candidates. */
  function Shift(phis: seq<real>, solid: real): (shift: real)
    requires |phis| >= 1
    ensures TwoSmallest(Candidates(phis, solid)).0 <= shift <= TwoSmallest(Candidates(phis, solid)).1
  {
    var (first, second) := TwoSmallest(Candidates(phis, solid));
    0.5 * (first + second)
  }

  /** The corrected material values at one cell. */
  function CorrectCell(phis: seq<real>, solid: real): (r: seq<real>)
    requires |phis| >= 1
    ensures |r| == |phis|
    ensures forall m :: 0 <= m < |phis| ==> r[m] == phis[m] - Shift(phis, solid)
  {
    seq(|phis|, m requires 0 <= m < |phis| => phis[m] - Shift(phis, solid))
  }

  /** After correction no two materials are both strictly inside a cell:
      only the smallest candidate can lie below the average of the two
      smallest. */
  lemma NoOverlapAfterCorrection(phis: seq<real>, solid: real, a: nat, b: nat)
    requires |phis| >= 1 && a < |phis| && b < |phis| && a != b
    ensures 0.0 <= CorrectCell(phis, solid)[a] || 0.0 <= CorrectCell(phis, solid)[b]
  {
    var c := Candidates(phis, solid);
    TwoSmallestCorrect(c);
    var (first, second) := TwoSmallest(c);
    var k, l :| TwoSmallestAt(c, first, second, k, l);
    // At most one of the two materials sits at the position of the smallest.
    var other := if CandidateIndex(a) == k then b else a;
    assert CandidateIndex(other) != k;
    assert second <= c[CandidateIndex(other)];
  }

  /** Correction moves every material by the same amount: differences between
      materials are kept, and so is the order of each material against the
      others. */
  lemma CorrectionKeepsDifferences(phis: seq<real>, solid: real, a: nat, b: nat)
    requires |phis| >= 1 && a < |phis| && b < |phis|
    ensures CorrectCell(phis, solid)[a] - CorrectCell(phis, solid)[b] == phis[a] - phis[b]
  {
  }

  /** The corrected surfaces of every material over the grid; the solid is
      not changed. */
  function CorrectOverlaps(surfaces: seq<Grid>, solid: Grid, nx: nat, ny: nat): (r: seq<Grid>)
    requires |surfaces| >= 1 && AllGrids(surfaces, nx, ny) && IsGrid(solid, nx, ny)
    ensures |r| == |surfaces| && AllGrids(r, nx, ny)
    ensures forall m, i: nat, j: nat :: 0 <= m < |surfaces| && i < nx && j < ny ==>
      r[m][i][j] == CorrectCell(CellValues(surfaces, nx, ny, i, j), solid[i][j])[m]
  {
    seq(|surfaces|, m requires 0 <= m < |surfaces| =>
      BuildGrid(nx, ny, (i: nat, j: nat) =>
        if i < nx && j < ny then CorrectCell(CellValues(surfaces, nx, ny, i, j), solid[i][j])[m] else 0.0))
  }

  /** The values of every material at cell (i, j). */
  function CellValues(surfaces: seq<Grid>, nx: nat, ny: nat, i: nat, j: nat): (v: seq<real>)
    requires AllGrids(surfaces, nx, ny) && i < nx && j < ny
    ensures |v| == |surfaces|
    ensures forall m :: 0 <= m < |surfaces| ==> v[m] == surfaces[m][i][j]
  {
    seq(|surfaces|, m requires 0 <= m < |surfaces| => surfaces[m][i][j])
  }

  /** Over the whole grid: every material at a cell moves by one common
      amount, and after correction no two materials overlap at any cell. */
  lemma CorrectOverlapsSeparates(surfaces: seq<Grid>, solid: Grid, nx: nat, ny: nat, i: nat, j: nat, a: nat, b: nat)
    requires |surfaces| >= 1 && AllGrids(surfaces, nx, ny) && IsGrid(solid, nx, ny)
    requires i < nx && j < ny && a < |surfaces| && b < |surfaces| && a != b
    ensures var r := CorrectOverlaps(surfaces, solid, nx, ny);
      (r[a][i][j] < 0.0 ==> 0.0 <= r[b][i][j]) &&
      surfaces[a][i][j] - r[a][i][j] == surfaces[b][i][j] - r[b][i][j]
  {
    NoOverlapAfterCorrection(CellValues(surfaces, nx, ny, i, j), solid[i][j], a, b);
  }
}
